/**
 * The comment follower of sportsbook-comments.py: find the newest
 * "Sportsbook Promos" thread, send every new top-level comment of it once,
 * and hand over to a newer thread when one appears. The subreddit listing
 * and the comment listings are inputs; sent messages are returned.
 */
module Sportsbook {
  import opened Wrappers
  import opened Strings

  datatype Submission = Submission(id: string, title: string, createdUtc: int)

  datatype Comment = Comment(id: string, parentId: string, author: Option<string>, body: string)

  const PromoTitle: string := "Sportsbook Promos"
  const BotName: string := "sbpotdbot"

  // ---------------------------------------------------------------------
  // find_latest_thread
  // ---------------------------------------------------------------------

  predicate IsPromo(s: Submission)
  {
    Contains(s.title, PromoTitle)
  }

  /** `latest_timestamp`: 0 while nothing has been chosen. */
  function Timestamp(o: Option<Submission>): int
  {
    if o.Some? then o.value.createdUtc else 0
  }

  /** The thread find_latest_thread has chosen once it has scanned `recent`. */
  function Latest(recent: seq<Submission>): Option<Submission>
    decreases |recent|
  {
    if recent == [] then None
    else
      var best := Latest(recent[..|recent| - 1]);
      var s := recent[|recent| - 1];
      if IsPromo(s) && s.createdUtc > Timestamp(best) then Some(s) else best
  }

  /**
   * `recent[k]` is a promo thread with a positive timestamp, no promo thread
   * is newer, and every promo thread before it is strictly older.
   */
  predicate FirstNewestPromo(recent: seq<Submission>, k: nat)
    requires k < |recent|
  {
    IsPromo(recent[k]) && recent[k].createdUtc > 0 &&
    (forall j :: 0 <= j < |recent| && IsPromo(recent[j]) ==> recent[j].createdUtc <= recent[k].createdUtc) &&
    (forall j :: 0 <= j < k && IsPromo(recent[j]) ==> recent[j].createdUtc < recent[k].createdUtc)
  }

  /**
   * The chosen thread is the first of the newest promo threads; nothing is
   * chosen exactly when no promo thread has a positive timestamp.
   */
  lemma {:induction false} LatestIsNewestPromo(recent: seq<Submission>)
    ensures Latest(recent).Some? ==>
      exists k :: 0 <= k < |recent| && recent[k] == Latest(recent).value && FirstNewestPromo(recent, k)
    ensures Latest(recent).None? <==>
      forall j :: 0 <= j < |recent| && IsPromo(recent[j]) ==> recent[j].createdUtc <= 0
    ensures forall j :: 0 <= j < |recent| && IsPromo(recent[j]) ==> recent[j].createdUtc <= Timestamp(Latest(recent))
    decreases |recent|
  {
    if recent != [] {
      var n := |recent|;
      var prefix := recent[..n - 1];
      var s := recent[n - 1];
      var best := Latest(prefix);
      LatestIsNewestPromo(prefix);
      assert forall j :: 0 <= j < n - 1 ==> recent[j] == prefix[j];
      assert Timestamp(best) >= 0 by {
        if best.Some? {
          var k :| 0 <= k < |prefix| && prefix[k] == best.value && FirstNewestPromo(prefix, k);
        }
      }
      if IsPromo(s) && s.createdUtc > Timestamp(best) {
        assert FirstNewestPromo(recent, n - 1);
      } else if best.Some? {
        var k :| 0 <= k < |prefix| && prefix[k] == best.value && FirstNewestPromo(prefix, k);
        assert FirstNewestPromo(recent, k);
      }
    }
  }

  /** With positive timestamps, nothing is chosen exactly when no title matches. */
  lemma LatestNoneIffNoPromo(recent: seq<Submission>)
    requires forall j :: 0 <= j < |recent| ==> recent[j].createdUtc > 0
    ensures Latest(recent).None? <==> forall j :: 0 <= j < |recent| ==> !IsPromo(recent[j])
  {
    LatestIsNewestPromo(recent);
  }

  /** find_latest_thread: scan the listing, keeping the strictly newest promo thread. */
  method FindLatestThread(recent: seq<Submission>) returns (latest: Option<Submission>)
    ensures latest == Latest(recent)
  {
    latest := None;
    var latestTimestamp := 0;
    for i := 0 to |recent|
      invariant latest == Latest(recent[..i])
      invariant latestTimestamp == Timestamp(latest)
    {
      var s := recent[i];
      assert recent[..i + 1][..i] == recent[..i];
      if Contains(s.title, PromoTitle) {
        if s.createdUtc > latestTimestamp {
          latest := Some(s);
          latestTimestamp := s.createdUtc;
        }
      }
    }
    assert recent[..|recent|] == recent;
  }

  // ---------------------------------------------------------------------
  // Comments: process_existing_comments and monitor_comments
  // ---------------------------------------------------------------------

  predicate IsTopLevel(c: Comment)
  {
    StartsWith(c.parentId, "t3_")
  }

  function AuthorName(c: Comment): string
  {
    if c.author.Some? then c.author.value else "[deleted]"
  }

  predicate IsBot(c: Comment)
  {
    Lower(AuthorName(c)) == BotName
  }

  /** A comment worth a message: top level and not written by the bot. */
  predicate Qualifies(c: Comment)
  {
    IsTopLevel(c) && !IsBot(c)
  }

  /** `u/{author}:\n{body}` */
  function Message(c: Comment): string
  {
    "u/" + AuthorName(c) + ":\n" + c.body
  }

  function Messages(cs: seq<Comment>): (r: seq<string>)
    ensures |r| == |cs|
    ensures forall i :: 0 <= i < |cs| ==> r[i] == Message(cs[i])
  {
    seq(|cs|, i requires 0 <= i < |cs| => Message(cs[i]))
  }

  /** The comments process_existing_comments turns into messages: the qualifying ones, in order. */
  function Replay(cs: seq<Comment>): (r: seq<Comment>)
    ensures |r| <= |cs|
    ensures forall c :: c in r <==> c in cs && Qualifies(c)
    decreases |cs|
  {
    if cs == [] then []
    else
      var init := Replay(cs[..|cs| - 1]);
      var c := cs[|cs| - 1];
      assert cs == cs[..|cs| - 1] + [c];
      if Qualifies(c) then init + [c] else init
  }

  /** process_existing_comments */
  method ProcessExistingComments(cs: seq<Comment>) returns (messages: seq<string>)
    ensures messages == Messages(Replay(cs))
  {
    messages := [];
    for i := 0 to |cs|
      invariant messages == Messages(Replay(cs[..i]))
    {
      var c := cs[i];
      assert cs[..i + 1][..i] == cs[..i];
      if IsTopLevel(c) {
        var author := AuthorName(c);
        if Lower(author) != BotName {
          messages := messages + ["u/" + author + ":\n" + c.body];
        }
      }
    }
    assert cs[..|cs|] == cs;
  }

  function TopLevelIds(cs: seq<Comment>): set<string>
  {
    set c | c in cs && IsTopLevel(c) :: c.id
  }

  datatype DiffResult = DiffResult(notified: seq<Comment>, seen: set<string>)

  /**
   * monitor_comments over one listing: each top-level comment not yet seen
   * is marked seen, and gets a message unless the bot wrote it.
   */
  function Diff(cs: seq<Comment>, seen: set<string>): DiffResult
    decreases |cs|
  {
    if cs == [] then DiffResult([], seen)
    else
      var d := Diff(cs[..|cs| - 1], seen);
      var c := cs[|cs| - 1];
      if IsTopLevel(c) && c.id !in d.seen then
        DiffResult(if IsBot(c) then d.notified else d.notified + [c], d.seen + {c.id})
      else d
  }

  lemma TopLevelIdsSnoc(cs: seq<Comment>, c: Comment)
    ensures TopLevelIds(cs + [c]) == TopLevelIds(cs) + (if IsTopLevel(c) then {c.id} else {})
  {
    assert forall x :: x in cs + [c] <==> x in cs || x == c;
  }

  /**
   * The seen set grows by exactly the ids of the top-level comments: nothing
   * is removed and no reply's id is added.
   */
  lemma {:induction false} DiffSeen(cs: seq<Comment>, seen: set<string>)
    ensures Diff(cs, seen).seen == seen + TopLevelIds(cs)
    decreases |cs|
  {
    if cs != [] {
      var init := cs[..|cs| - 1];
      var c := cs[|cs| - 1];
      DiffSeen(init, seen);
      assert cs == init + [c];
      TopLevelIdsSnoc(init, c);
    }
  }

  /**
   * A message goes out only for a top-level comment, not written by the bot,
   * whose id was not seen before; no id gets two messages.
   */
  lemma {:induction false} DiffNotifies(cs: seq<Comment>, seen: set<string>)
    ensures forall c :: c in Diff(cs, seen).notified ==> c in cs && Qualifies(c) && c.id !in seen
    ensures forall i, j :: 0 <= i < j < |Diff(cs, seen).notified| ==>
      Diff(cs, seen).notified[i].id != Diff(cs, seen).notified[j].id
    ensures forall c :: c in Diff(cs, seen).notified ==> c.id in Diff(cs, seen).seen
    decreases |cs|
  {
    if cs != [] {
      var init := cs[..|cs| - 1];
      var c := cs[|cs| - 1];
      DiffNotifies(init, seen);
      DiffSeen(init, seen);
      assert cs == init + [c];
    }
  }

  /** A listing whose top-level ids are all seen sends nothing and changes nothing. */
  lemma {:induction false} DiffAllSeen(cs: seq<Comment>, seen: set<string>)
    requires TopLevelIds(cs) <= seen
    ensures Diff(cs, seen) == DiffResult([], seen)
    decreases |cs|
  {
    if cs != [] {
      var init := cs[..|cs| - 1];
      var c := cs[|cs| - 1];
      assert cs == init + [c];
      TopLevelIdsSnoc(init, c);
      DiffAllSeen(init, seen);
    }
  }

  /** monitor_comments twice over the same listing: the second pass sends nothing. */
  lemma DiffTwice(cs: seq<Comment>, seen: set<string>)
    ensures Diff(cs, Diff(cs, seen).seen).notified == []
    ensures Diff(cs, Diff(cs, seen).seen).seen == Diff(cs, seen).seen
  {
    DiffSeen(cs, seen);
    DiffAllSeen(cs, Diff(cs, seen).seen);
  }

  predicate UniqueIds(cs: seq<Comment>)
  {
    forall i, j :: 0 <= i < j < |cs| ==> cs[i].id != cs[j].id
  }

  /** With unique comment ids, every qualifying comment not seen before gets its message. */
  lemma {:induction false} DiffComplete(cs: seq<Comment>, seen: set<string>)
    requires UniqueIds(cs)
    ensures forall c :: c in cs && Qualifies(c) && c.id !in seen ==> c in Diff(cs, seen).notified
    decreases |cs|
  {
    if cs != [] {
      var init := cs[..|cs| - 1];
      var last := cs[|cs| - 1];
      assert cs == init + [last];
      DiffComplete(init, seen);
      DiffSeen(init, seen);
      forall c | c in cs && Qualifies(c) && c.id !in seen
        ensures c in Diff(cs, seen).notified
      {
        if c != last {
          assert c in init;
        }
      }
    }
  }

  // ---------------------------------------------------------------------
  // check_for_new_thread and the loop of main
  // ---------------------------------------------------------------------

  /** check_for_new_thread switches when it finds a thread with another id. */
  predicate Switches(recent: seq<Submission>, current: Submission)
  {
    Latest(recent).Some? && Latest(recent).value.id != current.id
  }

  /**
   * check_for_new_thread: the thread to follow next, and the messages sent
   * for the comments `existing` already holds when a new thread is found.
   */
  method CheckForNewThread(recent: seq<Submission>, current: Submission, existing: seq<Comment>)
    returns (next: Submission, replayed: seq<string>)
    ensures Switches(recent, current) ==> next == Latest(recent).value && replayed == Messages(Replay(existing))
    ensures !Switches(recent, current) ==> next == current && replayed == []
    ensures next.id == current.id ==> next == current
  {
    var found := FindLatestThread(recent);
    if found.Some? && found.value.id != current.id {
      replayed := ProcessExistingComments(existing);
      next := found.value;
    } else {
      next, replayed := current, [];
    }
  }

  /** The ids of the top-level comments of a listing (main, lines 103 to 106). */
  method TopLevelIdsOf(cs: seq<Comment>) returns (ids: set<string>)
    ensures ids == TopLevelIds(cs)
  {
    ids := {};
    for i := 0 to |cs|
      invariant ids == TopLevelIds(cs[..i])
    {
      assert cs[..i + 1] == cs[..i] + [cs[i]];
      TopLevelIdsSnoc(cs[..i], cs[i]);
      if IsTopLevel(cs[i]) {
        ids := ids + {cs[i].id};
      }
    }
    assert cs[..|cs|] == cs;
  }

  /** The state main keeps: the thread followed and the ids of its comments already seen. */
  class Session {
    var target: Submission
    var seen: set<string>

    /** Follow `target`, marking the top-level comments of its listing seen. */
    constructor (target: Submission, comments: seq<Comment>)
      ensures this.target == target && seen == TopLevelIds(comments)
    {
      var ids := TopLevelIdsOf(comments);
      this.target := target;
      seen := ids;
    }

    /**
     * monitor_comments: `fetched` is the thread's listing, None when fetching
     * it raised (the error is logged and nothing happens).
     */
    method MonitorComments(fetched: Option<seq<Comment>>) returns (sent: seq<string>)
      modifies this`seen
      ensures fetched.None? ==> sent == [] && seen == old(seen)
      ensures fetched.Some? ==>
        sent == Messages(Diff(fetched.value, old(seen)).notified) &&
        seen == Diff(fetched.value, old(seen)).seen
    {
      sent := [];
      if fetched.None? {
        return;
      }
      var cs := fetched.value;
      ghost var notified: seq<Comment> := [];
      for i := 0 to |cs|
        invariant Diff(cs[..i], old(seen)) == DiffResult(notified, seen)
        invariant sent == Messages(notified)
      {
        var c := cs[i];
        assert cs[..i + 1][..i] == cs[..i];
        if IsTopLevel(c) && c.id !in seen {
          var author := AuthorName(c);
          if Lower(author) != BotName {
            sent := sent + ["u/" + author + ":\n" + c.body];
            notified := notified + [c];
          }
          seen := seen + {c.id};
        }
      }
      assert cs[..|cs|] == cs;
    }

    /**
     * One pass of main's loop: check for a newer thread (replaying its
     * comments), switch to it with an empty seen set, then monitor the
     * followed thread, whose listing is `fetched`.
     */
    method Tick(recent: seq<Submission>, existing: seq<Comment>, fetched: Option<seq<Comment>>)
      returns (sent: seq<string>)
      modifies this
      ensures var switched := Switches(recent, old(target));
        var base := if switched then {} else old(seen);
        var replay := if switched then Messages(Replay(existing)) else [];
        target == (if switched then Latest(recent).value else old(target)) &&
        (fetched.None? ==> sent == replay && seen == base) &&
        (fetched.Some? ==> sent == replay + Messages(Diff(fetched.value, base).notified) &&
                           seen == Diff(fetched.value, base).seen)
    {
      var next, replayed := CheckForNewThread(recent, target, existing);
      if next != target {
        target := next;
        seen := {};
      }
      var more := MonitorComments(fetched);
      sent := replayed + more;
    }

    /**
     * The corrected pass: on a switch the replayed comments are marked seen,
     * as main does for the first thread, instead of starting from nothing.
     */
    method TickDedup(recent: seq<Submission>, existing: seq<Comment>, fetched: Option<seq<Comment>>)
      returns (sent: seq<string>)
      modifies this
      ensures var switched := Switches(recent, old(target));
        var base := if switched then TopLevelIds(existing) else old(seen);
        var replay := if switched then Messages(Replay(existing)) else [];
        target == (if switched then Latest(recent).value else old(target)) &&
        (fetched.None? ==> sent == replay && seen == base) &&
        (fetched.Some? ==> sent == replay + Messages(Diff(fetched.value, base).notified) &&
                           seen == Diff(fetched.value, base).seen)
    {
      var next, replayed := CheckForNewThread(recent, target, existing);
      if next != target {
        target := next;
        seen := TopLevelIdsOf(existing);
      }
      var more := MonitorComments(fetched);
      sent := replayed + more;
    }
  }

  /**
   * The start of main: no session (the script exits) when no promo thread is
   * found; otherwise follow the thread found, with the top-level comments of
   * `comments`, its listing, marked seen.
   */
  method Start(recent: seq<Submission>, comments: seq<Comment>) returns (session: Session?)
    ensures session == null <==> Latest(recent).None?
    ensures session != null ==>
      fresh(session) && session.target == Latest(recent).value && session.seen == TopLevelIds(comments)
  {
    var found := FindLatestThread(recent);
    if found.None? {
      return null;
    }
    session := new Session(found.value, comments);
  }

  /**
   * As written, a switch sends every replayed comment twice: the replay
   * sends it, and monitoring from an empty seen set sends it again when the
   * listing still holds it.
   */
  lemma SwitchResendsReplay(existing: seq<Comment>, listing: seq<Comment>)
    requires UniqueIds(listing)
    ensures forall c :: c in Replay(existing) && c in listing ==> c in Diff(listing, {}).notified
  {
    DiffComplete(listing, {});
  }

  /** The smallest case: one comment, two identical messages in one pass. */
  lemma SwitchSendsTwice()
    ensures var c := Comment("c1", "t3_x", Some("alice"), "hi");
      Messages(Replay([c])) + Messages(Diff([c], {}).notified) == ["u/alice:\nhi", "u/alice:\nhi"]
  {
    var c := Comment("c1", "t3_x", Some("alice"), "hi");
    assert IsTopLevel(c);
    assert Lower("alice") == "alice";
    assert Replay([c]) == [c];
    assert Diff([c], {}).notified == [c];
    assert Message(c) == "u/alice:\nhi";
    assert Messages([c]) == ["u/alice:\nhi"];
  }

  /**
   * With the correction, no comment that was replayed is ever sent again
   * while the new thread is followed, whatever its later listings hold.
   */
  lemma DedupSwitchNeverRepeats(existing: seq<Comment>, later: seq<Comment>)
    ensures forall c, r :: c in Diff(later, TopLevelIds(existing)).notified && r in Replay(existing) ==> c.id != r.id
  {
    DiffNotifies(later, TopLevelIds(existing));
  }
}
