/**
 * The rising-post monitor of baps-monitor2.py: every recent buildapcsales
 * submission is polled for its score on an adaptive cadence for up to 20
 * minutes, and one Telegram message goes out when the first threshold rule
 * matches. Time is whole seconds since the monitor started; the clock is the
 * sleeps plus the seconds each score fetch takes (`lags`), and the score
 * fetched at each poll is an input (`scores`; None when the fetch raises).
 */
module BapsMonitor {
  import opened Wrappers

  /** Monitoring of one post ends 20 minutes after it starts. */
  const Deadline: int := 20 * 60
  /** A submission is monitored only when at most 20 minutes old. */
  const RecencyWindow: int := 20 * 60
  /** The score at which the active scan stops monitoring a post. */
  const TerminalScore: int := 10

  // ---------------------------------------------------------------------
  // Cadence and rules
  // ---------------------------------------------------------------------

  /** The pause before each score check, given the elapsed time read before it. */
  function SleepFor(elapsed: int): (r: nat)
    ensures r == 3 || r == 15 || r == 30
    ensures r >= 3
  {
    if elapsed < 30 then 3 else if elapsed < 2 * 60 then 15 else 30
  }

  /** The cadence only slows down as time passes. */
  lemma SleepMonotone(e1: int, e2: int)
    requires e1 <= e2
    ensures SleepFor(e1) <= SleepFor(e2)
  {
  }

  datatype Rule = ThreeInFive | SixInTen | TenInTwenty

  /** A threshold rule: a score bound, and a time bound (None: any time before the deadline). */
  datatype Threshold = Threshold(rule: Rule, minScore: int, window: Option<int>)

  /** The rule table, in the order the rules are tried. */
  const Rules: seq<Threshold> := [
    Threshold(ThreeInFive, 3, Some(5 * 60)),
    Threshold(SixInTen, 6, Some(10 * 60)),
    Threshold(TenInTwenty, 10, None)
  ]

  predicate Met(t: Threshold, score: int, elapsed: int)
  {
    score >= t.minScore && (t.window.None? || elapsed <= t.window.value)
  }

  /** The first rule of the table that the score and the elapsed time meet. */
  function FirstMatch(ts: seq<Threshold>, score: int, elapsed: int): Option<Rule>
    decreases |ts|
  {
    if ts == [] then None
    else if Met(ts[0], score, elapsed) then Some(ts[0].rule)
    else FirstMatch(ts[1..], score, elapsed)
  }

  /** FirstMatch picks a met rule with no met rule before it, or finds none met. */
  lemma {:induction false} FirstMatchIsFirst(ts: seq<Threshold>, score: int, elapsed: int)
    ensures FirstMatch(ts, score, elapsed).Some? ==>
      exists k :: 0 <= k < |ts| && ts[k].rule == FirstMatch(ts, score, elapsed).value &&
        Met(ts[k], score, elapsed) && forall j :: 0 <= j < k ==> !Met(ts[j], score, elapsed)
    ensures FirstMatch(ts, score, elapsed).None? <==> forall j :: 0 <= j < |ts| ==> !Met(ts[j], score, elapsed)
    decreases |ts|
  {
    if ts != [] {
      FirstMatchIsFirst(ts[1..], score, elapsed);
      if !Met(ts[0], score, elapsed) && FirstMatch(ts, score, elapsed).Some? {
        var k :| 0 <= k < |ts[1..]| && ts[1..][k].rule == FirstMatch(ts, score, elapsed).value &&
          Met(ts[1..][k], score, elapsed) && forall j :: 0 <= j < k ==> !Met(ts[1..][j], score, elapsed);
        assert ts[k + 1] == ts[1..][k];
        assert forall j :: 1 <= j < k + 1 ==> ts[j] == ts[1..][j - 1];
      }
      assert forall j :: 1 <= j < |ts| ==> ts[j] == ts[1..][j - 1];
    }
  }

  /**
   * The if-chain of monitor_post: 3 within 5 minutes, else 6 within 10
   * minutes, else 10 at any time.
   */
  function FireRule(score: int, elapsed: int): (r: Option<Rule>)
    ensures r == FirstMatch(Rules, score, elapsed)
    ensures score < 3 ==> r.None?
    ensures score >= 10 ==> r.Some?
    ensures elapsed > 10 * 60 ==> r.None? || r == Some(TenInTwenty)
    ensures r == Some(ThreeInFive) ==> score >= 3 && elapsed <= 5 * 60
    ensures r == Some(SixInTen) ==> score >= 6 && elapsed <= 10 * 60
    ensures r == Some(TenInTwenty) ==> score >= 10
  {
    assert Rules[1..][1..][1..] == [];
    if score >= 3 && elapsed <= 5 * 60 then Some(ThreeInFive)
    else if score >= 6 && elapsed <= 10 * 60 then Some(SixInTen)
    else if score >= 10 then Some(TenInTwenty)
    else None
  }

  function RuleText(r: Rule): string
  {
    match r
    case ThreeInFive => "3 upvotes within 5 minutes"
    case SixInTen => "6 upvotes within 10 minutes"
    case TenInTwenty => "10 upvotes within 20 minutes"
  }

  function AlertMessage(r: Rule, title: string, postId: string): string
  {
    "Post reached " + RuleText(r) + ":\n" + title + "\nhttps://www.reddit.com/r/buildapcsales/comments/" + postId
  }

  // ---------------------------------------------------------------------
  // The polling loop of monitor_post
  // ---------------------------------------------------------------------

  /** The elapsed time read at the start of poll `k`. */
  function Elapsed(lags: nat -> nat, k: nat): int
  {
    if k == 0 then 0 else var e := Elapsed(lags, k - 1); e + SleepFor(e) + lags(k - 1)
  }

  /** Each poll moves the clock on by at least 3 seconds. */
  lemma {:induction false} ElapsedGrows(lags: nat -> nat, j: nat, k: nat)
    requires j <= k
    ensures Elapsed(lags, j) + 3 * (k - j) <= Elapsed(lags, k)
    decreases k - j
  {
    if j < k {
      ElapsedGrows(lags, j, k - 1);
    }
  }

  datatype Outcome =
    | Fired(rule: Rule, message: string, poll: nat)  // sent `message` at poll number `poll`
    | Expired(polls: nat)                             // the deadline passed after `polls` polls
    | Failed(poll: nat)                               // the score fetch of poll `poll` raised

  /** monitor_post from poll `k` on. */
  function Run(postId: string, title: string, scores: nat -> Option<int>, lags: nat -> nat, k: nat): Outcome
    decreases Deadline - Elapsed(lags, k)
  {
    var e := Elapsed(lags, k);
    if e >= Deadline then Expired(k)
    else if scores(k).None? then Failed(k)
    else
      match FireRule(scores(k).value, e)
      case Some(r) => Fired(r, AlertMessage(r, title, postId), k)
      case None => Run(postId, title, scores, lags, k + 1)
  }

  /** Poll `j` happens before the deadline, fetches a score, and meets no rule. */
  predicate Quiet(scores: nat -> Option<int>, lags: nat -> nat, j: nat)
  {
    Elapsed(lags, j) < Deadline && scores(j).Some? && FireRule(scores(j).value, Elapsed(lags, j)).None?
  }

  /**
   * A message goes out at the first poll whose score and pre-sleep elapsed
   * time meet a rule, before the deadline.
   */
  lemma {:induction false} RunFiresOnFirstMatch(postId: string, title: string, scores: nat -> Option<int>, lags: nat -> nat, k0: nat)
    requires Run(postId, title, scores, lags, k0).Fired?
    ensures var o := Run(postId, title, scores, lags, k0);
      k0 <= o.poll && Elapsed(lags, o.poll) < Deadline &&
      scores(o.poll).Some? && FireRule(scores(o.poll).value, Elapsed(lags, o.poll)) == Some(o.rule) &&
      o.message == AlertMessage(o.rule, title, postId) &&
      forall j :: k0 <= j < o.poll ==> Quiet(scores, lags, j)
    decreases Deadline - Elapsed(lags, k0)
  {
    var e := Elapsed(lags, k0);
    assert e < Deadline && scores(k0).Some?;
    var fired := FireRule(scores(k0).value, e);
    if fired.None? {
      assert Quiet(scores, lags, k0);
      assert Run(postId, title, scores, lags, k0) == Run(postId, title, scores, lags, k0 + 1);
      RunFiresOnFirstMatch(postId, title, scores, lags, k0 + 1);
    } else {
      assert Run(postId, title, scores, lags, k0) == Fired(fired.value, AlertMessage(fired.value, title, postId), k0);
    }
  }

  /** No message goes out exactly when no poll before the deadline meets a rule. */
  lemma {:induction false} RunExpiresUnmatched(postId: string, title: string, scores: nat -> Option<int>, lags: nat -> nat, k0: nat)
    requires Run(postId, title, scores, lags, k0).Expired?
    ensures var n := Run(postId, title, scores, lags, k0).polls;
      k0 <= n && Elapsed(lags, n) >= Deadline &&
      forall j :: k0 <= j < n ==> Quiet(scores, lags, j)
    decreases Deadline - Elapsed(lags, k0)
  {
    var e := Elapsed(lags, k0);
    if e < Deadline {
      assert scores(k0).Some? && FireRule(scores(k0).value, e).None?;
      assert Quiet(scores, lags, k0);
      assert Run(postId, title, scores, lags, k0) == Run(postId, title, scores, lags, k0 + 1);
      RunExpiresUnmatched(postId, title, scores, lags, k0 + 1);
    }
  }

  /**
   * A fetch that raises ends monitoring with no message: it is the first
   * poll that does not come back quiet, and it happens before the deadline.
   */
  lemma {:induction false} RunFailsOnFetchError(postId: string, title: string, scores: nat -> Option<int>, lags: nat -> nat, k0: nat)
    requires Run(postId, title, scores, lags, k0).Failed?
    ensures var n := Run(postId, title, scores, lags, k0).poll;
      k0 <= n && Elapsed(lags, n) < Deadline && scores(n).None? &&
      forall j :: k0 <= j < n ==> Quiet(scores, lags, j)
    decreases Deadline - Elapsed(lags, k0)
  {
    var e := Elapsed(lags, k0);
    assert e < Deadline;
    if scores(k0).Some? {
      assert FireRule(scores(k0).value, e).None?;
      assert Quiet(scores, lags, k0);
      assert Run(postId, title, scores, lags, k0) == Run(postId, title, scores, lags, k0 + 1);
      RunFailsOnFetchError(postId, title, scores, lags, k0 + 1);
    }
  }

  /** monitor_post polls at most 400 times. */
  lemma PollCount(postId: string, title: string, scores: nat -> Option<int>, lags: nat -> nat)
    ensures var o := Run(postId, title, scores, lags, 0);
      (o.Fired? ==> o.poll < 400) && (o.Failed? ==> o.poll < 400) && (o.Expired? ==> o.polls <= 400)
  {
    var o := Run(postId, title, scores, lags, 0);
    if o.Fired? {
      RunFiresOnFirstMatch(postId, title, scores, lags, 0);
      ElapsedGrows(lags, 0, o.poll);
    } else if o.Failed? {
      RunFailsOnFetchError(postId, title, scores, lags, 0);
      ElapsedGrows(lags, 0, o.poll);
    } else if o.polls > 0 {
      RunExpiresUnmatched(postId, title, scores, lags, 0);
      assert Quiet(scores, lags, o.polls - 1);
      ElapsedGrows(lags, 0, o.polls - 1);
    }
  }

  /**
   * A score of 10 or more fetched before the deadline ends monitoring at that
   * poll or earlier: with a message, unless an earlier fetch raised.
   */
  lemma {:induction false} ReachingTenFires(postId: string, title: string, scores: nat -> Option<int>, lags: nat -> nat, k0: nat, k: nat)
    requires k0 <= k && Elapsed(lags, k) < Deadline && scores(k).Some? && scores(k).value >= 10
    ensures Run(postId, title, scores, lags, k0).Fired? || Run(postId, title, scores, lags, k0).Failed?
    ensures Run(postId, title, scores, lags, k0).poll <= k
    ensures (forall j :: k0 <= j < k ==> scores(j).Some?) ==> Run(postId, title, scores, lags, k0).Fired?
    decreases k - k0
  {
    ElapsedGrows(lags, k0, k);
    if k0 < k && scores(k0).Some? && FireRule(scores(k0).value, Elapsed(lags, k0)).None? {
      ReachingTenFires(postId, title, scores, lags, k0 + 1, k);
    }
  }

  /**
   * The while loop of monitor_post: read the clock, sleep by the cadence,
   * fetch the score, try the rules against the time read before the sleep.
   */
  method PollPost(postId: string, title: string, scores: nat -> Option<int>, lags: nat -> nat) returns (outcome: Outcome)
    ensures outcome == Run(postId, title, scores, lags, 0)
  {
    var elapsed := 0;
    var k: nat := 0;
    while elapsed < Deadline
      invariant elapsed == Elapsed(lags, k)
      invariant Run(postId, title, scores, lags, 0) == Run(postId, title, scores, lags, k)
      decreases Deadline - elapsed
    {
      var current := elapsed;
      var pause := if current < 30 then 3 else if current < 2 * 60 then 15 else 30;
      elapsed := current + pause + lags(k);
      var fetched := scores(k);
      if fetched.None? {
        return Failed(k);
      }
      var score := fetched.value;
      if score >= 3 && current <= 5 * 60 {
        return Fired(ThreeInFive, AlertMessage(ThreeInFive, title, postId), k);
      } else if score >= 6 && current <= 10 * 60 {
        return Fired(SixInTen, AlertMessage(SixInTen, title, postId), k);
      } else if score >= 10 {
        return Fired(TenInTwenty, AlertMessage(TenInTwenty, title, postId), k);
      }
      k := k + 1;
    }
    outcome := Expired(k);
  }

  // ---------------------------------------------------------------------
  // posts_to_monitor and the stream loop of main
  // ---------------------------------------------------------------------

  /** is_recent_post, with both instants in whole seconds. */
  predicate IsRecentPost(createdUtc: int, now: int)
  {
    now - createdUtc <= RecencyWindow
  }

  /** posts_to_monitor without the posts whose fetched score has reached 10. */
  function Pruned(posts: map<string, string>, scoreOf: string -> int): (r: map<string, string>)
    ensures forall id :: id in posts ==> (id in r <==> scoreOf(id) < TerminalScore)
    ensures forall id :: id in r ==> id in posts && r[id] == posts[id]
  {
    map id | id in posts && scoreOf(id) < TerminalScore :: posts[id]
  }

  /** `posts_to_monitor`: post id to title. */
  class Registry {
    var posts: map<string, string>

    constructor ()
      ensures posts == map[]
    {
      posts := map[];
    }

    /**
     * monitor_post: poll, and on expiry `del posts_to_monitor[post_id]`,
     * which raises KeyError (`keyError`) when the id is gone already. A
     * fired post stays registered, and so does one whose score fetch raised.
     */
    method MonitorPost(postId: string, title: string, scores: nat -> Option<int>, lags: nat -> nat)
      returns (outcome: Outcome, keyError: bool)
      modifies this
      ensures outcome == Run(postId, title, scores, lags, 0)
      ensures (outcome.Fired? || outcome.Failed?) ==> posts == old(posts) && !keyError
      ensures outcome.Expired? ==> keyError == (postId !in old(posts)) && posts == old(posts) - {postId}
    {
      outcome := PollPost(postId, title, scores, lags);
      keyError := false;
      if outcome.Expired? {
        if postId in posts {
          posts := posts - {postId};
        } else {
          keyError := true;
        }
      }
    }

    /**
     * main, for one submission of the stream: a recent post is registered
     * (overwriting any entry for its id) and a monitor is spawned for it,
     * whether or not one already runs for that id.
     */
    method Observe(postId: string, title: string, createdUtc: int, now: int) returns (spawn: bool)
      modifies this
      ensures spawn <==> now - createdUtc <= RecencyWindow
      ensures posts == if spawn then old(posts)[postId := title] else old(posts)
    {
      spawn := IsRecentPost(createdUtc, now);
      if spawn {
        posts := posts[postId := title];
      }
    }

    /**
     * The active scan of main: fetch the score of every registered post and
     * drop those at 10 or more.
     */
    method ActiveScan(scoreOf: string -> int)
      modifies this
      ensures posts == Pruned(old(posts), scoreOf)
    {
      var pending := posts.Keys;
      ghost var done: set<string> := {};
      while pending != {}
        invariant pending !! done && pending + done == old(posts).Keys
        invariant pending <= posts.Keys <= old(posts).Keys
        invariant forall id :: id in posts ==> posts[id] == old(posts)[id]
        invariant forall id :: id in done ==> (id in posts <==> scoreOf(id) < TerminalScore)
        decreases pending
      {
        var id :| id in pending;
        var score := scoreOf(id);
        if score >= TerminalScore {
          posts := posts - {id};
        }
        pending := pending - {id};
        done := done + {id};
      }
      assert posts.Keys == Pruned(old(posts), scoreOf).Keys;
    }

    /** main, one pass of the stream loop: register a recent post, then scan. */
    method OnSubmission(postId: string, title: string, createdUtc: int, now: int, scoreOf: string -> int)
      returns (spawn: bool)
      modifies this
      ensures spawn <==> now - createdUtc <= RecencyWindow
      ensures posts == Pruned(if spawn then old(posts)[postId := title] else old(posts), scoreOf)
    {
      spawn := Observe(postId, title, createdUtc, now);
      ActiveScan(scoreOf);
    }
  }
}
