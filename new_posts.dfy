/**
 * The new-submission alerter of new-posts3.py: per-subreddit routing of
 * submissions to Telegram alerts, the thumbs-down moderation loop that
 * appends authors to `banned.txt`, and the bounded reconnect after a
 * `ServerError`. Network calls are inputs: the submission stream is a
 * sequence of events, `getUpdates` answers are sequences of updates, the
 * author lookup is a map, and sent alerts are returned as a log.
 */
module NewPosts {
  import opened Wrappers
  import opened Strings
  import opened Markdown

  // ---------------------------------------------------------------------
  // Routing of one submission (monitor_reddit, the body of the stream loop)
  // ---------------------------------------------------------------------

  datatype Submission = Submission(
    id: string,
    title: string,
    subreddit: string,
    url: string,
    permalink: string,
    author: Option<string>)  // None: the author account was deleted

  datatype Button = Button(text: string, callbackData: string)

  /** A Telegram message; `keyboard` is the `inline_keyboard` of `reply_markup`, if any. */
  datatype Alert = Alert(text: string, keyboard: Option<seq<seq<Button>>>)

  /** `subreddit_dict`: the short label of each monitored subreddit. */
  const Shorthands: map<string, string> :=
    map["frugalmalefashion" := "FMF", "BoardGameExchange" := "BGE", "buildapcsales" := "BAPS"]

  const ThumbsDownPrefix: string := "thumbs_down_"
  const ThumbsDownText: string := "\U{1F44E}"

  /** `subreddit_dict.get(name, name)`: a case-sensitive lookup. */
  function Shorthand(subreddit: string): (r: string)
    ensures subreddit == "frugalmalefashion" ==> r == "FMF"
    ensures subreddit == "BoardGameExchange" ==> r == "BGE"
    ensures subreddit == "buildapcsales" ==> r == "BAPS"
    ensures (subreddit != "frugalmalefashion" && subreddit != "BoardGameExchange" &&
             subreddit != "buildapcsales") ==> r == subreddit
  {
    if subreddit in Shorthands then Shorthands[subreddit] else subreddit
  }

  /** `tg_alert`: `[label] \| [title](https://reddit.com<permalink>)`, label and title escaped. */
  function AlertText(shorthand: string, title: string, permalink: string): string
  {
    "[" + EscapeMarkdown(shorthand) + "] \\| [" + EscapeMarkdown(title) +
    "](https://reddit.com" + permalink + ")"
  }

  /** The alert text with the corrected escaper, which also escapes `\`. */
  function AlertTextV2(shorthand: string, title: string, permalink: string): string
  {
    "[" + EscapeMarkdownV2(shorthand) + "] \\| [" + EscapeMarkdownV2(title) +
    "](https://reddit.com" + permalink + ")"
  }

  /** The two alert texts differ only for labels or titles holding a backslash. */
  lemma AlertTextV2Agrees(shorthand: string, title: string, permalink: string)
    requires '\\' !in shorthand && '\\' !in title
    ensures AlertTextV2(shorthand, title, permalink) == AlertText(shorthand, title, permalink)
  {
    EscapeV2Agrees(shorthand);
    EscapeV2Agrees(title);
  }

  function ThumbsDownButton(submissionId: string): Button
  {
    Button(ThumbsDownText, ThumbsDownPrefix + submissionId)
  }

  /**
   * What the stream loop sends for one submission, given the banned list it
   * has just read: None when it sends nothing.
   */
  function Route(s: Submission, banned: seq<string>): (r: Option<Alert>)
    ensures r.Some? ==> r.value.text == AlertText(Shorthand(s.subreddit), s.title, s.permalink)
    // buildapcsales: only woot.com links, never a button, whatever the banned list says
    ensures Lower(s.subreddit) == "buildapcsales" ==>
      (r.Some? <==> Contains(Lower(s.url), "woot.com")) && (r.Some? ==> r.value.keyboard.None?)
    // boardgameexchange: dropped exactly for a present, banned author; one thumbs-down button
    ensures Lower(s.subreddit) == "boardgameexchange" ==>
      (r.None? <==> s.author.Some? && s.author.value in banned)
    ensures Lower(s.subreddit) == "boardgameexchange" && s.author.None? ==> r.Some?
    ensures Lower(s.subreddit) == "boardgameexchange" && r.Some? ==>
      r.value.keyboard == Some([[ThumbsDownButton(s.id)]])
    // any other subreddit: always sent, without a button
    ensures Lower(s.subreddit) != "buildapcsales" && Lower(s.subreddit) != "boardgameexchange" ==>
      r.Some? && r.value.keyboard.None?
  {
    var text := AlertText(Shorthand(s.subreddit), s.title, s.permalink);
    if Lower(s.subreddit) == "buildapcsales" then
      if Contains(Lower(s.url), "woot.com") then Some(Alert(text, None)) else None
    else if Lower(s.subreddit) == "boardgameexchange" then
      if s.author.Some? && s.author.value in banned then None
      else Some(Alert(text, Some([[ThumbsDownButton(s.id)]])))
    else
      Some(Alert(text, None))
  }

  // ---------------------------------------------------------------------
  // banned.txt (get_banned_authors, add_author_to_banned)
  // ---------------------------------------------------------------------

  /** The name written for an author: `"[deleted]"` for a deleted account. */
  function AuthorName(author: Option<string>): string
  {
    if author.Some? then author.value else "[deleted]"
  }

  /** The lines of banned.txt after the membership check and the append. */
  function WithAuthor(lines: seq<string>, name: string): (r: seq<string>)
    ensures name in r
    ensures lines <= r && |r| <= |lines| + 1
    ensures forall x :: x in r <==> x in lines || x == name
    ensures name in lines ==> r == lines
  {
    if name in lines then lines else lines + [name]
  }

  /** Several appends, in order. */
  function BanAll(lines: seq<string>, names: seq<string>): seq<string>
    decreases |names|
  {
    if names == [] then lines
    else WithAuthor(BanAll(lines, names[..|names| - 1]), names[|names| - 1])
  }

  /** After a run of appends the old lines are a prefix and exactly the added names are new. */
  lemma {:induction false} BanAllMembers(lines: seq<string>, names: seq<string>)
    ensures lines <= BanAll(lines, names)
    ensures forall x :: x in BanAll(lines, names) <==> x in lines || x in names
    decreases |names|
  {
    if names != [] {
      var init := names[..|names| - 1];
      BanAllMembers(lines, init);
      assert names == init + [names[|names| - 1]];
    }
  }

  /** Appending names that are all present already changes nothing. */
  lemma {:induction false} BanAllPresent(lines: seq<string>, names: seq<string>)
    requires forall x :: x in names ==> x in lines
    ensures BanAll(lines, names) == lines
    decreases |names|
  {
    if names != [] {
      var init := names[..|names| - 1];
      assert forall x :: x in init ==> x in names;
      BanAllPresent(lines, init);
      assert names[|names| - 1] in names;
    }
  }

  /** Replaying the same bans a second time leaves banned.txt as the first time left it. */
  lemma BanAllIdempotent(lines: seq<string>, names: seq<string>)
    ensures BanAll(BanAll(lines, names), names) == BanAll(lines, names)
  {
    BanAllMembers(lines, names);
    BanAllPresent(BanAll(lines, names), names);
  }

  /** banned.txt, as its sequence of lines; a missing file reads as no lines. */
  class BanFile {
    var lines: seq<string>

    constructor (initial: seq<string>)
      ensures lines == initial
    {
      lines := initial;
    }

    /**
     * add_author_to_banned: look the submission's author up (`authors` lacks
     * the ids whose lookup raises, which the source catches and logs) and
     * append the name unless it is already a line of the file.
     */
    method AddAuthor(submissionId: string, authors: map<string, Option<string>>)
      modifies this
      ensures lines == Banned(old(lines), submissionId, authors)
    {
      if submissionId in authors {
        var name := AuthorName(authors[submissionId]);
        if name !in lines {
          lines := lines + [name];
        }
      }
    }
  }

  function Banned(lines: seq<string>, submissionId: string, authors: map<string, Option<string>>): seq<string>
  {
    if submissionId in authors then WithAuthor(lines, AuthorName(authors[submissionId])) else lines
  }

  // ---------------------------------------------------------------------
  // Callback queries (handle_updates)
  // ---------------------------------------------------------------------

  datatype CallbackQuery = CallbackQuery(id: string, data: Option<string>)
  datatype Update = Update(updateId: int, callback: Option<CallbackQuery>)

  /** The first `_`-separated field of `s`. */
  function FirstField(s: string): (r: string)
    ensures r <= s && '_' !in r
    ensures |r| < |s| ==> s[|r|] == '_'
    decreases |s|
  {
    if s == [] || s[0] == '_' then [] else [s[0]] + FirstField(s[1..])
  }

  /** `data.split("_")[2]` for data starting with `thumbs_down_`; None for any other data. */
  function ParseCallback(data: string): (r: Option<string>)
    ensures r.Some? <==> StartsWith(data, ThumbsDownPrefix)
    ensures r.Some? ==> StartsWith(data, ThumbsDownPrefix + r.value) && '_' !in r.value
    ensures r.Some? && |ThumbsDownPrefix + r.value| < |data| ==>
      data[|ThumbsDownPrefix + r.value|] == '_'
  {
    if StartsWith(data, ThumbsDownPrefix) then
      var r := FirstField(data[|ThumbsDownPrefix|..]);
      assert ThumbsDownPrefix + r <= data;
      Some(r)
    else None
  }

  /** The callback data of a thumbs-down button gives back the submission id. */
  lemma {:induction false} CallbackRoundTrip(submissionId: string)
    requires '_' !in submissionId
    ensures ParseCallback(ThumbsDownButton(submissionId).callbackData) == Some(submissionId)
  {
    var data := ThumbsDownPrefix + submissionId;
    assert data[|ThumbsDownPrefix|..] == submissionId;
    FirstFieldWhole(submissionId);
  }

  lemma {:induction false} FirstFieldWhole(s: string)
    requires '_' !in s
    ensures FirstField(s) == s
    decreases |s|
  {
    if s != [] {
      assert s[0] in s;
      assert forall c :: c in s[1..] ==> c in s;
      FirstFieldWhole(s[1..]);
    }
  }

  /** What the loop does with one update. */
  datatype Action =
    | Ignore                                      // no callback, or other callback data
    | Ban(submissionId: string, queryId: string)  // a thumbs-down click
    | Crash                                       // `callback_query["data"]` is missing: KeyError

  function ActionOf(u: Update): Action
  {
    match u.callback
    case None => Ignore
    case Some(q) =>
      match q.data
      case None => Crash
      case Some(d) =>
        match ParseCallback(d)
        case None => Ignore
        case Some(id) => Ban(id, q.id)
  }

  datatype BatchState = BatchState(offset: int, lines: seq<string>, acked: seq<string>)

  /**
   * One answer of getUpdates processed in order: `offset` moves past each
   * update before it is looked at; a KeyError ends the batch (the outer
   * handler logs it).
   */
  function Batch(updates: seq<Update>, st: BatchState, authors: map<string, Option<string>>): BatchState
    decreases |updates|
  {
    if updates == [] then st
    else
      var u := updates[0];
      var st1 := st.(offset := u.updateId + 1);
      match ActionOf(u)
      case Ignore => Batch(updates[1..], st1, authors)
      case Crash => st1
      case Ban(id, qid) =>
        Batch(updates[1..], st1.(lines := Banned(st.lines, id, authors), acked := st.acked + [qid]), authors)
  }

  /**
   * After a batch the offset is one past the id of the last update looked at:
   * the last one, or the first whose callback has no data. An empty batch
   * leaves the offset alone.
   */
  lemma {:induction false} BatchOffset(updates: seq<Update>, st: BatchState, authors: map<string, Option<string>>)
    ensures updates == [] ==> Batch(updates, st, authors).offset == st.offset
    ensures updates != [] ==> exists k :: (0 <= k < |updates| &&
      Batch(updates, st, authors).offset == updates[k].updateId + 1 &&
      (k == |updates| - 1 || ActionOf(updates[k]).Crash?) &&
      (forall j :: 0 <= j < k ==> !ActionOf(updates[j]).Crash?))
    decreases |updates|
  {
    if updates != [] {
      var u := updates[0];
      var st1 := st.(offset := u.updateId + 1);
      var rest := updates[1..];
      if !ActionOf(u).Crash? && rest != [] {
        var st2 := if ActionOf(u).Ban? then
          st1.(lines := Banned(st.lines, ActionOf(u).submissionId, authors), acked := st.acked + [ActionOf(u).queryId])
          else st1;
        assert Batch(updates, st, authors) == Batch(rest, st2, authors);
        BatchOffset(rest, st2, authors);
        var k :| 0 <= k < |rest| && Batch(rest, st2, authors).offset == rest[k].updateId + 1 &&
          (k == |rest| - 1 || ActionOf(rest[k]).Crash?) &&
          (forall j :: 0 <= j < k ==> !ActionOf(rest[j]).Crash?);
        assert forall j :: 0 <= j < k + 1 ==> !ActionOf(updates[j]).Crash? by {
          forall j | 0 <= j < k + 1 ensures !ActionOf(updates[j]).Crash? {
            if j > 0 { assert updates[j] == rest[j - 1]; }
          }
        }
        assert updates[k + 1] == rest[k];
      } else if !ActionOf(u).Crash? {
        assert Batch(updates, st, authors).offset == updates[0].updateId + 1;
      }
    }
  }

  /**
   * Only thumbs-down callbacks touch banned.txt and are answered: without one
   * in the batch, the file and the answered queries stay as they were; with
   * them, the old lines stay a prefix of the new ones.
   */
  lemma {:induction false} BatchBansOnlyThumbsDown(updates: seq<Update>, st: BatchState, authors: map<string, Option<string>>)
    ensures st.lines <= Batch(updates, st, authors).lines
    ensures st.acked <= Batch(updates, st, authors).acked
    ensures (forall i :: 0 <= i < |updates| ==> !ActionOf(updates[i]).Ban?) ==>
      Batch(updates, st, authors).lines == st.lines && Batch(updates, st, authors).acked == st.acked
    decreases |updates|
  {
    if updates != [] {
      var u := updates[0];
      var st1 := st.(offset := u.updateId + 1);
      var rest := updates[1..];
      assert forall i :: 0 <= i < |rest| ==> rest[i] == updates[i + 1];
      match ActionOf(u)
      case Ignore =>
        BatchBansOnlyThumbsDown(rest, st1, authors);
      case Crash =>
      case Ban(id, qid) =>
        var st2 := st1.(lines := Banned(st.lines, id, authors), acked := st.acked + [qid]);
        BatchBansOnlyThumbsDown(rest, st2, authors);
        assert st.lines <= st2.lines;
        assert st.acked <= st2.acked;
    }
  }

  /**
   * handle_updates, one getUpdates answer: moves the offset, bans the author
   * of every thumbs-down submission and answers its callback query.
   */
  method HandleBatch(file: BanFile, updates: seq<Update>, offset: int, authors: map<string, Option<string>>)
    returns (next: int, acked: seq<string>)
    modifies file
    ensures BatchState(next, file.lines, acked) == Batch(updates, BatchState(offset, old(file.lines), []), authors)
  {
    next, acked := offset, [];
    var i := 0;
    while i < |updates|
      invariant 0 <= i <= |updates|
      invariant Batch(updates, BatchState(offset, old(file.lines), []), authors)
             == Batch(updates[i..], BatchState(next, file.lines, acked), authors)
    {
      var u := updates[i];
      assert updates[i..][1..] == updates[i + 1..];
      next := u.updateId + 1;
      match ActionOf(u) {
        case Ignore =>
        case Crash =>
          return;
        case Ban(id, qid) =>
          file.AddAuthor(id, authors);
          acked := acked + [qid];
      }
      i := i + 1;
    }
  }

  /** The whole moderation loop over successive getUpdates answers, offset starting at 0. */
  function Polls(answers: seq<seq<Update>>, st: BatchState, authors: map<string, Option<string>>): BatchState
    decreases |answers|
  {
    if answers == [] then st else Polls(answers[1..], Batch(answers[0], st, authors), authors)
  }

  /**
   * handle_updates: every answer of getUpdates (a failed call reads as an
   * empty answer) is processed as one batch, carrying the offset on.
   */
  method HandleUpdates(file: BanFile, answers: seq<seq<Update>>, authors: map<string, Option<string>>)
    returns (offset: int, acked: seq<string>)
    modifies file
    ensures BatchState(offset, file.lines, acked) == Polls(answers, BatchState(0, old(file.lines), []), authors)
  {
    offset, acked := 0, [];
    var i := 0;
    while i < |answers|
      invariant 0 <= i <= |answers|
      invariant Polls(answers, BatchState(0, old(file.lines), []), authors)
             == Polls(answers[i..], BatchState(offset, file.lines, acked), authors)
    {
      assert answers[i..][1..] == answers[i + 1..];
      ghost var before := BatchState(offset, file.lines, acked);
      var more;
      offset, more := HandleBatch(file, answers[i], offset, authors);
      BatchAcked(answers[i], before, authors);
      acked := acked + more;
      i := i + 1;
    }
  }

  /** The queries answered in a batch are added after those answered before it. */
  lemma {:induction false} BatchAcked(updates: seq<Update>, st: BatchState, authors: map<string, Option<string>>)
    ensures Batch(updates, st, authors).(acked := st.acked + Batch(updates, st.(acked := []), authors).acked)
         == Batch(updates, st, authors)
    ensures Batch(updates, st.(acked := []), authors).offset == Batch(updates, st, authors).offset
    ensures Batch(updates, st.(acked := []), authors).lines == Batch(updates, st, authors).lines
    decreases |updates|
  {
    if updates != [] {
      var u := updates[0];
      var rest := updates[1..];
      match ActionOf(u)
      case Ignore =>
        BatchAcked(rest, st.(offset := u.updateId + 1), authors);
      case Crash =>
      case Ban(id, qid) =>
        var lines := Banned(st.lines, id, authors);
        assert Batch(updates, st, authors) == Batch(rest, BatchState(u.updateId + 1, lines, st.acked + [qid]), authors);
        var st0 := st.(acked := []);
        assert st0.lines == st.lines && st0.acked + [qid] == [qid];
        assert st0.(offset := u.updateId + 1).(lines := lines, acked := st0.acked + [qid])
            == BatchState(u.updateId + 1, lines, [qid]);
        assert Batch(updates, st0, authors) == Batch(rest, BatchState(u.updateId + 1, lines, [qid]), authors);
        BatchAcked(rest, BatchState(u.updateId + 1, lines, st.acked + [qid]), authors);
        BatchAcked(rest, BatchState(u.updateId + 1, lines, [qid]), authors);
        assert st.acked + [qid] + Batch(rest, BatchState(u.updateId + 1, lines, []), authors).acked
            == st.acked + ([qid] + Batch(rest, BatchState(u.updateId + 1, lines, []), authors).acked);
    }
  }

  /**
   * The feedback loop end to end: the button of a boardgameexchange alert,
   * clicked, bans the author, and the next boardgameexchange submission by
   * that author is not sent.
   */
  lemma ThumbsDownSuppressesAuthor(s: Submission, banned: seq<string>, u: Update, queryId: string,
                                   later: Submission, authors: map<string, Option<string>>, st: BatchState)
    requires Lower(s.subreddit) == "boardgameexchange" && Lower(later.subreddit) == "boardgameexchange"
    requires '_' !in s.id && s.id in authors && authors[s.id] == s.author
    requires s.author.Some? && s.author.value !in banned && later.author == s.author
    requires u.callback == Some(CallbackQuery(queryId, Some(ThumbsDownPrefix + s.id)))
    ensures Route(s, banned).Some? && Route(s, banned).value.keyboard == Some([[ThumbsDownButton(s.id)]])
    ensures Route(later, Batch([u], st, authors).lines) == None
  {
    CallbackRoundTrip(s.id);
    assert ActionOf(u) == Ban(s.id, queryId);
    assert [u][1..] == [];
  }

  // ---------------------------------------------------------------------
  // The stream loop and its reconnect (monitor_reddit)
  // ---------------------------------------------------------------------

  const MaxRetries: nat := 5
  const RetryDelay: nat := 60

  /**
   * The `for … else` retry after a ServerError: sleep, then re-create the
   * client; `raises(i)` says whether attempt `i` raised ServerError again.
   */
  method Reconnect(raises: nat -> bool) returns (ok: bool, attempts: nat, waited: nat)
    ensures 1 <= attempts <= MaxRetries
    ensures waited == RetryDelay * attempts
    ensures forall i :: 0 <= i < attempts - 1 ==> raises(i)
    ensures ok <==> !raises(attempts - 1)
    ensures !ok ==> attempts == MaxRetries
    ensures ok <==> exists i :: 0 <= i < MaxRetries && !raises(i)
  {
    ok, attempts, waited := false, 0, 0;
    while attempts < MaxRetries && !ok
      invariant 0 <= attempts <= MaxRetries
      invariant waited == RetryDelay * attempts
      invariant ok ==> attempts >= 1 && !raises(attempts - 1)
      invariant forall i :: 0 <= i < attempts && !(ok && i == attempts - 1) ==> raises(i)
    {
      waited := waited + RetryDelay;
      ok := !raises(attempts);
      attempts := attempts + 1;
    }
  }

  predicate Reconnects(raises: nat -> bool)
  {
    exists i | 0 <= i < MaxRetries :: !raises(i)
  }

  /**
   * What happens next while the stream loop runs: a submission arrives, the
   * stream raises ServerError or any other exception, or the moderation loop
   * running beside it completes add_author_to_banned for a submission id.
   */
  datatype Event =
    | Post(submission: Submission)
    | ServerFailure(raises: nat -> bool)
    | Failure
    | Banning(submissionId: string)

  datatype Exit = RetriesExhausted | UnexpectedError | StreamEnded

  /** The alerts sent, how the loop ended, and the lines of banned.txt at that point. */
  datatype WatchResult = WatchResult(sent: seq<Alert>, exit: Exit, lines: seq<string>)

  /** banned.txt after the bans among `events`. */
  function LinesAfter(events: seq<Event>, lines: seq<string>, authors: map<string, Option<string>>): seq<string>
    decreases |events|
  {
    if events == [] then lines
    else
      var next := if events[0].Banning? then Banned(lines, events[0].submissionId, authors) else lines;
      LinesAfter(events[1..], next, authors)
  }

  /**
   * The stream loop over a run of events: each submission routed against
   * banned.txt as it reads at that moment, a ServerError answered by the
   * bounded reconnect (the loop then goes on with a fresh stream), any other
   * exception ending it.
   */
  function Watch(events: seq<Event>, lines: seq<string>, authors: map<string, Option<string>>): WatchResult
    decreases |events|
  {
    if events == [] then WatchResult([], StreamEnded, lines)
    else
      match events[0]
      case Post(s) =>
        var rest := Watch(events[1..], lines, authors);
        if Route(s, lines).Some? then rest.(sent := [Route(s, lines).value] + rest.sent) else rest
      case ServerFailure(raises) =>
        if Reconnects(raises) then Watch(events[1..], lines, authors) else WatchResult([], RetriesExhausted, lines)
      case Failure => WatchResult([], UnexpectedError, lines)
      case Banning(id) => Watch(events[1..], Banned(lines, id, authors), authors)
  }

  /**
   * Every alert sent is the routing of some submission of the stream against
   * banned.txt as the bans before it left it.
   */
  lemma {:induction false} WatchSendsRouted(events: seq<Event>, lines: seq<string>, authors: map<string, Option<string>>)
    ensures forall a :: a in Watch(events, lines, authors).sent ==>
      exists i :: 0 <= i < |events| && events[i].Post? &&
        Route(events[i].submission, LinesAfter(events[..i], lines, authors)) == Some(a)
    decreases |events|
  {
    if events != [] {
      var rest := events[1..];
      var next := if events[0].Banning? then Banned(lines, events[0].submissionId, authors) else lines;
      WatchSendsRouted(rest, next, authors);
      assert events[..0] == [];
      forall a | a in Watch(events, lines, authors).sent
        ensures exists i :: (0 <= i < |events| && events[i].Post? &&
          Route(events[i].submission, LinesAfter(events[..i], lines, authors)) == Some(a))
      {
        if events[0].Post? && Route(events[0].submission, lines) == Some(a) {
          assert LinesAfter(events[..0], lines, authors) == lines;
        } else {
          assert a in Watch(rest, next, authors).sent;
          var i :| 0 <= i < |rest| && rest[i].Post? &&
            Route(rest[i].submission, LinesAfter(rest[..i], next, authors)) == Some(a);
          assert events[i + 1] == rest[i];
          assert events[..i + 1][1..] == rest[..i];
          assert LinesAfter(events[..i + 1], lines, authors) == LinesAfter(rest[..i], next, authors);
        }
      }
    }
  }

  /** A line of banned.txt stays a line whatever bans follow. */
  lemma {:induction false} LinesAfterKeeps(events: seq<Event>, lines: seq<string>, authors: map<string, Option<string>>)
    ensures forall x :: x in lines ==> x in LinesAfter(events, lines, authors)
    decreases |events|
  {
    if events != [] {
      var next := if events[0].Banning? then Banned(lines, events[0].submissionId, authors) else lines;
      LinesAfterKeeps(events[1..], next, authors);
    }
  }

  /** A ban whose author lookup succeeds puts the author's name in banned.txt for good. */
  lemma {:induction false} LinesAfterBans(events: seq<Event>, lines: seq<string>, authors: map<string, Option<string>>, k: nat)
    requires k < |events| && events[k].Banning? && events[k].submissionId in authors
    ensures AuthorName(authors[events[k].submissionId]) in LinesAfter(events, lines, authors)
    decreases k
  {
    var next := if events[0].Banning? then Banned(lines, events[0].submissionId, authors) else lines;
    if k == 0 {
      LinesAfterKeeps(events[1..], next, authors);
    } else {
      assert events[1..][k - 1] == events[k];
      LinesAfterBans(events[1..], next, authors, k - 1);
    }
  }

  /**
   * Once a thumbs-down ban of an author has landed, no later
   * boardgameexchange submission by that author is routed to an alert.
   */
  lemma WatchSuppressesBanned(events: seq<Event>, lines: seq<string>, authors: map<string, Option<string>>, k: nat, j: nat)
    requires k < j < |events| && events[k].Banning? && events[k].submissionId in authors
    requires authors[events[k].submissionId].Some?
    requires events[j].Post? && Lower(events[j].submission.subreddit) == "boardgameexchange"
    requires events[j].submission.author == authors[events[k].submissionId]
    ensures Route(events[j].submission, LinesAfter(events[..j], lines, authors)) == None
  {
    assert events[..j][k] == events[k];
    LinesAfterBans(events[..j], lines, authors, k);
  }

  /** An event the stream loop goes on after: a submission, a ban, or a ServerError it reconnects from. */
  predicate Passes(e: Event)
  {
    e.Post? || e.Banning? || (e.ServerFailure? && Reconnects(e.raises))
  }

  /** Event `k` is a ServerError whose retries all fail, reached past events that all pass. */
  predicate ExhaustedAt(events: seq<Event>, k: nat)
    requires k < |events|
  {
    events[k].ServerFailure? && !Reconnects(events[k].raises) &&
    forall j :: 0 <= j < k ==> Passes(events[j])
  }

  /** The loop gives up on retries exactly after a ServerError whose five attempts all raised. */
  lemma {:induction false} WatchExhausted(events: seq<Event>, lines: seq<string>, authors: map<string, Option<string>>)
    ensures Watch(events, lines, authors).exit == RetriesExhausted <==>
      exists k :: 0 <= k < |events| && ExhaustedAt(events, k)
    decreases |events|
  {
    if events != [] {
      var rest := events[1..];
      var next := if events[0].Banning? then Banned(lines, events[0].submissionId, authors) else lines;
      WatchExhausted(rest, next, authors);
      if Passes(events[0]) {
        assert Watch(events, lines, authors).exit == Watch(rest, next, authors).exit;
        forall k | 0 <= k < |rest| && ExhaustedAt(rest, k)
          ensures ExhaustedAt(events, k + 1)
        {
          assert events[k + 1] == rest[k];
          forall j | 0 <= j < k + 1 ensures Passes(events[j]) {
            if j > 0 { assert events[j] == rest[j - 1]; }
          }
        }
        forall k | 0 <= k < |events| && ExhaustedAt(events, k)
          ensures k > 0 && ExhaustedAt(rest, k - 1)
        {
          assert events[k] == rest[k - 1];
          forall j | 0 <= j < k - 1 ensures Passes(rest[j]) {
            assert rest[j] == events[j + 1];
          }
        }
      } else if events[0].ServerFailure? {
        assert ExhaustedAt(events, 0);
      } else {
        forall k | 0 <= k < |events|
          ensures !ExhaustedAt(events, k)
        {
          if k > 0 { assert !Passes(events[0]); }
        }
      }
    }
  }

  /**
   * monitor_reddit: the stream loop, re-reading banned.txt for every
   * submission, while bans from the moderation loop land in it.
   */
  method MonitorReddit(events: seq<Event>, file: BanFile, authors: map<string, Option<string>>)
    returns (sent: seq<Alert>, exit: Exit)
    modifies file
    ensures Watch(events, old(file.lines), authors) == WatchResult(sent, exit, file.lines)
  {
    sent := [];
    var i := 0;
    while i < |events|
      invariant 0 <= i <= |events|
      invariant Watch(events, old(file.lines), authors) ==
        Watch(events[i..], file.lines, authors).(sent := sent + Watch(events[i..], file.lines, authors).sent)
    {
      assert events[i..][1..] == events[i + 1..];
      match events[i] {
        case Post(s) =>
          var banned := file.lines;
          var alert := Route(s, banned);
          if alert.Some? {
            assert sent + ([alert.value] + Watch(events[i + 1..], file.lines, authors).sent)
                == (sent + [alert.value]) + Watch(events[i + 1..], file.lines, authors).sent;
            sent := sent + [alert.value];
          }
        case ServerFailure(raises) =>
          var ok, attempts, waited := Reconnect(raises);
          if !ok {
            exit := RetriesExhausted;
            return;
          }
        case Failure =>
          exit := UnexpectedError;
          return;
        case Banning(id) =>
          file.AddAuthor(id, authors);
      }
      i := i + 1;
    }
    exit := StreamEnded;
  }
}
