/**
 Workers without an owner token meet no fence. Exactly when the guarantees about successes and retries hold:
 when nobody works on the run without a token.
 */
module Anonymity {
  import opened Basics
  import opened JobRows
  import opened Protocol
  import opened ProtocolLimits

  datatype Entry = Entry(w: Token, runId: int)

  /** The event respects that exactly the entries in `anon` are made without a token. */
  predicate Admits(anon: iset<Entry>, e: Event) {
    match e
    case Acquire(w, r) => Entry(w, r) !in anon
    case Attach(w, r) => Entry(w, r) in anon
    case _ => true
  }

  ghost predicate Follows(es: seq<Event>, anon: iset<Entry>) {
    forall i | 0 <= i < |es| :: Admits(anon, es[i])
  }

  /** Nobody works on run r without a token. */
  ghost predicate AllNamed(anon: iset<Entry>, r: int) {
    forall w: Token :: Entry(w, r) !in anon
  }

  // ---- Successes ----

  /** Two different events both commit job k as SUCCEEDED. */
  ghost predicate TwoSuccesses(ss: seq<Sys>, es: seq<Event>, k: JobKey, m: nat, n: nat)
    requires Behaviour(ss, es)
  {
    m < n < |es| && Commits(ss[m], es[m], k) && Commits(ss[n], es[n], k)
  }

  /** No behaviour with these anonymous entries commits a job of run r as SUCCEEDED twice. */
  ghost predicate AtMostOnce(anon: iset<Entry>, r: int) {
    forall ss: seq<Sys>, es: seq<Event>, k: JobKey, m: nat, n: nat |
      Behaviour(ss, es) && Follows(es, anon) && k.runId == r :: !TwoSuccesses(ss, es, k, m, n)
  }

  lemma NamedBehaviour(es: seq<Event>, anon: iset<Entry>, r: int, n: nat)
    requires Follows(es, anon) && AllNamed(anon, r) && n <= |es|
    ensures NamedOn(es, r, n)
  {
    forall i | 0 <= i < n && es[i].Attach? ensures es[i].runId != r {
      assert Admits(anon, es[i]);
    }
  }

  lemma FollowsNext(es: seq<Event>, e: Event, anon: iset<Entry>)
    requires Follows(es, anon) && Admits(anon, e)
    ensures Follows(es + [e], anon)
  {
  }

  /** The takeover of an anonymous worker a by some b, who is named unless the entries say otherwise. */
  function TakeoverFrom(anon: iset<Entry>, r: int, a: Token, b: Token): seq<Event> {
    Takeover(r, a, false, b, Entry(b, r) !in anon)
  }

  lemma TakeoverFollows(anon: iset<Entry>, r: int, a: Token, b: Token)
    requires Entry(a, r) in anon
    ensures Follows(TakeoverFrom(anon, r, a, b), anon)
  {
    var enter := Enter(b, r, Entry(b, r) !in anon);
    FollowsNext([Append(ID, StepOf(r))], Enter(a, r, false), anon);
    FollowsNext([Append(ID, StepOf(r))] + [Enter(a, r, false)], Claim(a, ID), anon);
    var es := Opening(r, a, false);
    FollowsNext(es, Tick(301 * SECOND), anon);
    FollowsNext(es + [Tick(301 * SECOND)], Sweep, anon);
    FollowsNext(es + [Tick(301 * SECOND)] + [Sweep], enter, anon);
    FollowsNext(es + [Tick(301 * SECOND)] + [Sweep] + [enter], Claim(b, ID), anon);
  }

  /** A behaviour through two more events, with its last states. */
  lemma TwoMore(es: seq<Event>, s: Sys, e: Event, f: Event) returns (ss: seq<Sys>)
    requires Reaches(es, s) && Enabled(s, e) && Enabled(Apply(s, e), f)
    ensures Behaviour(ss, es + [e] + [f]) && ss[|es|] == s && ss[|es| + 1] == Apply(s, e)
  {
    var ss0: seq<Sys> :| Behaviour(ss0, es) && ss0[|es|] == s;
    Extended(ss0, es, e);
    var ss1 := ss0 + [Apply(s, e)];
    assert ss1[|es + [e]|] == Apply(s, e);
    Extended(ss1, es + [e], f);
    ss := ss1 + [Apply(Apply(s, e), f)];
  }

  /** After the takeover both b and the swept anonymous worker a can commit SUCCEEDED. */
  lemma BothCanCommit(anon: iset<Entry>, r: int, a: Token, b: Token) returns (s: Sys)
    requires a != b
    ensures Reaches(TakeoverFrom(anon, r, a, b), s)
    ensures Enabled(s, Finish(b, DONE)) && Commits(s, Finish(b, DONE), JobOf(r))
    ensures var t := Apply(s, Finish(b, DONE));
            Enabled(t, Finish(a, DONE)) && Commits(t, Finish(a, DONE), JobOf(r))
  {
    var named := Entry(b, r) !in anon;
    var es := TakeoverFrom(anon, r, a, b);
    var owner := if named then Some(b) else None;
    s := TakenOver(r, a, false, b, named);
    var t := FinishedBy(es, s, r, b, 2, DONE, StepRunning, JobRunning, owner, 2);
    var u := FinishedBy(es + [Finish(b, DONE)], t, r, a, 1, DONE, StepSucceeded, JobSucceeded, owner, 2);
  }

  /** The successor b commits SUCCEEDED, and then the swept anonymous worker a does so too. */
  lemma AnonymousSucceedsAgain(anon: iset<Entry>, r: int, a: Token, b: Token)
    returns (ss: seq<Sys>, es: seq<Event>, m: nat)
    requires Entry(a, r) in anon && a != b
    ensures es == TakeoverFrom(anon, r, a, b) + [Finish(b, DONE)] + [Finish(a, DONE)]
    ensures Behaviour(ss, es) && Follows(es, anon) && TwoSuccesses(ss, es, JobOf(r), m, m + 1)
  {
    var es0 := TakeoverFrom(anon, r, a, b);
    var s := BothCanCommit(anon, r, a, b);
    ss := TwoMore(es0, s, Finish(b, DONE), Finish(a, DONE));
    es, m := es0 + [Finish(b, DONE)] + [Finish(a, DONE)], |es0|;
    TakeoverFollows(anon, r, a, b);
    FollowsNext(es0, Finish(b, DONE), anon);
    FollowsNext(es0 + [Finish(b, DONE)], Finish(a, DONE), anon);
    assert es[m] == Finish(b, DONE) && es[m + 1] == Finish(a, DONE);
  }

  /** The jobs of a run succeed at most once, in every behaviour, if and only if nobody works on it without a token. */
  lemma AtMostOnceExactly(anon: iset<Entry>, r: int)
    ensures AtMostOnce(anon, r) <==> AllNamed(anon, r)
  {
    if AllNamed(anon, r) {
      forall ss: seq<Sys>, es: seq<Event>, k: JobKey, m: nat, n: nat |
        Behaviour(ss, es) && Follows(es, anon) && k.runId == r
        ensures !TwoSuccesses(ss, es, k, m, n)
      {
        NamedBehaviour(es, anon, r, |es|);
        if TwoSuccesses(ss, es, k, m, n) { AtMostOneSuccess(ss, es, k, m, n); }
      }
    } else {
      var a :| Entry(a, r) in anon;
      var ss, es, m := AnonymousSucceedsAgain(anon, r, a, a + "'");
    }
  }

  /** Over all runs: if and only if there are no anonymous entries at all. */
  lemma AtMostOnceEverywhere(anon: iset<Entry>)
    ensures (forall r: int :: AtMostOnce(anon, r)) <==> anon == iset{}
  {
    forall r: int ensures AtMostOnce(anon, r) <==> AllNamed(anon, r) { AtMostOnceExactly(anon, r); }
    if anon != iset{} {
      var x :| x in anon;
      assert Entry(x.w, x.runId) in anon && !AllNamed(anon, x.runId);
    }
  }

  // ---- Retries ----

  /** The adapter of job k was started more often than the budget allows. */
  ghost predicate OverBudget(ss: seq<Sys>, es: seq<Event>, k: JobKey, n: nat)
    requires Behaviour(ss, es)
  {
    n <= |es| && AdapterRuns(ss, es, k, n) > 3
  }

  ghost predicate RetriesBounded(anon: iset<Entry>, r: int) {
    forall ss: seq<Sys>, es: seq<Event>, k: JobKey, n: nat |
      Behaviour(ss, es) && Follows(es, anon) && k.runId == r :: !OverBudget(ss, es, k, n)
  }

  /**
   The successor b retries at attempt 2 and is in flight at attempt 3 when the anonymous worker a, on its own
   copy of attempt 1, asks for a retry.
   */
  function ThreeAttempts(anon: iset<Entry>, r: int, a: Token, b: Token): seq<Event> {
    TakeoverFrom(anon, r, a, b) + [Finish(b, BUSY)] + [Claim(b, ID)] + [Finish(a, BUSY)]
  }

  lemma ThirdAttempt(anon: iset<Entry>, r: int, a: Token, b: Token) returns (s: Sys)
    requires a != b
    ensures Reaches(TakeoverFrom(anon, r, a, b) + [Finish(b, BUSY)] + [Claim(b, ID)], s)
    ensures Flies(s, r, a, 1) && Flies(s, r, b, 3) && !s.sessions[a].named
    ensures Holds(s, r, StepRunning, JobRunning, if Entry(b, r) !in anon then Some(b) else None, 3)
  {
    var named := Entry(b, r) !in anon;
    var es := TakeoverFrom(anon, r, a, b);
    var s1 := TakenOver(r, a, false, b, named);
    BusyRetries(2);
    var s2 := FinishedBy(es, s1, r, b, 2, BUSY, StepRunning, JobRunning, if named then Some(b) else None, 2);
    s := ClaimedBy(es + [Finish(b, BUSY)], s2, r, b);
  }

  lemma ThirdAttemptReopened(anon: iset<Entry>, r: int, a: Token, b: Token) returns (s: Sys)
    requires a != b
    ensures Reaches(ThreeAttempts(anon, r, a, b), s) && Flies(s, r, b, 3)
    ensures Holds(s, r, StepPending, JobRetryWait, if Entry(b, r) !in anon then Some(b) else None, 3)
  {
    var es := TakeoverFrom(anon, r, a, b) + [Finish(b, BUSY)] + [Claim(b, ID)];
    var owner := if Entry(b, r) !in anon then Some(b) else None;
    var s1 := ThirdAttempt(anon, r, a, b);
    BusyRetries(1);
    s := FinishedBy(es, s1, r, a, 1, BUSY, StepRunning, JobRunning, owner, 3);
  }

  lemma ThreeAttemptsFollow(anon: iset<Entry>, r: int, a: Token, b: Token)
    requires Entry(a, r) in anon
    ensures Follows(ThreeAttempts(anon, r, a, b) + [Abandon(b)] + [Claim(b, ID)], anon)
  {
    TakeoverFollows(anon, r, a, b);
    var es := TakeoverFrom(anon, r, a, b);
    FollowsNext(es, Finish(b, BUSY), anon);
    FollowsNext(es + [Finish(b, BUSY)], Claim(b, ID), anon);
    FollowsNext(es + [Finish(b, BUSY)] + [Claim(b, ID)], Finish(a, BUSY), anon);
    FollowsNext(ThreeAttempts(anon, r, a, b), Abandon(b), anon);
    FollowsNext(ThreeAttempts(anon, r, a, b) + [Abandon(b)], Claim(b, ID), anon);
  }

  /** The adapter is started a fourth time. */
  lemma FourthAttempt(anon: iset<Entry>, r: int, a: Token, b: Token) returns (ss: seq<Sys>, es: seq<Event>)
    requires Entry(a, r) in anon && a != b
    ensures es == ThreeAttempts(anon, r, a, b) + [Abandon(b)] + [Claim(b, ID)]
    ensures Behaviour(ss, es) && Follows(es, anon) && OverBudget(ss, es, JobOf(r), |es|)
  {
    var es0 := ThreeAttempts(anon, r, a, b);
    var s := ThirdAttemptReopened(anon, r, a, b);
    var t := AbandonedBy(es0, s, r, b, 3);
    var u := ClaimedBy(es0 + [Abandon(b)], t, r, b);
    es := es0 + [Abandon(b)] + [Claim(b, ID)];
    ThreeAttemptsFollow(anon, r, a, b);
    ss :| Behaviour(ss, es) && ss[|es|] == u;
    RunsAreAttempts(ss, es, JobOf(r), |es|);
  }

  /**
   The jobs of a run start at most three adapters, in every behaviour, if and only if nobody works on it
   without a token.
   */
  lemma RetryBoundExactly(anon: iset<Entry>, r: int)
    ensures RetriesBounded(anon, r) <==> AllNamed(anon, r)
  {
    if AllNamed(anon, r) {
      forall ss: seq<Sys>, es: seq<Event>, k: JobKey, n: nat | Behaviour(ss, es) && Follows(es, anon) && k.runId == r
        ensures !OverBudget(ss, es, k, n)
      {
        if n <= |es| {
          NamedBehaviour(es, anon, r, n);
          RetryBound(ss, es, k, n);
        }
      }
    } else {
      var a :| Entry(a, r) in anon;
      var ss, es := FourthAttempt(anon, r, a, a + "'");
    }
  }
}
