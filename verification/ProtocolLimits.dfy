/** Reachable runs that show where the protocol's guarantees end, and the exact conditions they lead to. */
module ProtocolLimits {
  import opened Basics
  import opened JobRows
  import opened Protocol
  import opened Coupling

  const ID: StepId := StepId(1)
  const DONE: Outcome := Outcome(ResultSucceeded, true, None)
  const BUSY: Outcome := Outcome(ResultFailed, true, Some("429"))

  function StepOf(r: int): Step {
    Step(r, 0, "TRAIN_MODEL", StepPending, None, None)
  }

  function JobOf(r: int): JobKey {
    JobKey(r, ID, "TRAIN_MODEL")
  }

  // ---- Reachable states ----

  /** The events can happen in this order from an empty system, and lead to s. */
  ghost predicate Reaches(es: seq<Event>, s: Sys) {
    exists ss: seq<Sys> :: Behaviour(ss, es) && ss[|es|] == s
  }

  lemma ReachesStart(s: Sys)
    requires Init(s)
    ensures Reaches([], s)
  {
    assert Behaviour([s], []);
  }

  lemma Extended(ss: seq<Sys>, es: seq<Event>, e: Event)
    requires Behaviour(ss, es) && Enabled(ss[|es|], e)
    ensures Behaviour(ss + [Apply(ss[|es|], e)], es + [e])
  {
    var ss', es' := ss + [Apply(ss[|es|], e)], es + [e];
    forall i | 0 <= i < |es'| ensures Enabled(ss'[i], es'[i]) && ss'[i + 1] == Apply(ss'[i], es'[i]) {
      if i < |es| {
        assert ss'[i] == ss[i] && ss'[i + 1] == ss[i + 1];
      }
    }
  }

  lemma ReachesNext(es: seq<Event>, s: Sys, e: Event)
    requires Reaches(es, s) && Enabled(s, e)
    ensures Reaches(es + [e], Apply(s, e))
  {
    var ss: seq<Sys> :| Behaviour(ss, es) && ss[|es|] == s;
    Extended(ss, es, e);
    assert (ss + [Apply(s, e)])[|es + [e]|] == Apply(s, e);
  }

  lemma ReachesInv(es: seq<Event>, s: Sys)
    requires Reaches(es, s)
    ensures Inv(s)
  {
    var ss: seq<Sys> :| Behaviour(ss, es) && ss[|es|] == s;
    InvAt(ss, es, |es|);
  }

  // ---- Single events on a run with one step ----

  /** The tables hold the run's step with these two statuses; its job has this owner and this attempt. */
  ghost predicate Holds(s: Sys, r: int, step: StepStatus, job: JobStatus, owner: Option<Token>, attempt: nat) {
    && ID in s.db.steps && KeyOf(ID, s.db.steps[ID]) == JobOf(r) && s.db.steps[ID].status == step
    && JobOf(r) in s.db.jobs && s.db.jobs[JobOf(r)].status == job && s.db.jobs[JobOf(r)].owner == owner
    && s.db.jobs[JobOf(r)].attempt == attempt
  }

  ghost predicate Idle(s: Sys, r: int, w: Token) {
    w in s.sessions && s.sessions[w].runId == r && s.sessions[w].flight.None?
  }

  ghost predicate Flies(s: Sys, r: int, w: Token, attempt: nat) {
    InFlight(s, w) && s.sessions[w].runId == r && FlightOf(s, w) == Flight(JobOf(r), attempt)
  }

  /** Everyone but w has the same session in both states. */
  ghost predicate OthersSame(s: Sys, t: Sys, w: Token) {
    forall v | v in s.sessions && v != w :: v in t.sessions && t.sessions[v] == s.sessions[v]
  }

  lemma Opened(r: int) returns (s: Sys)
    ensures Reaches([Append(ID, StepOf(r))], s)
    ensures s == Sys(0, Db(map[ID := StepOf(r)], map[]), map[], map[])
  {
    var s0 := Sys(0, Db(map[], map[]), map[], map[]);
    ReachesStart(s0);
    ReachesNext([], s0, Append(ID, StepOf(r)));
    s := Apply(s0, Append(ID, StepOf(r)));
    assert [] + [Append(ID, StepOf(r))] == [Append(ID, StepOf(r))];
  }

  /** A worker comes to a run: anonymous, or with the lease. */
  function Enter(w: Token, r: int, named: bool): Event {
    if named then Acquire(w, r) else Attach(w, r)
  }

  lemma Entered(es: seq<Event>, s: Sys, r: int, w: Token, named: bool) returns (t: Sys)
    requires Reaches(es, s) && Enabled(s, Enter(w, r, named))
    ensures Reaches(es + [Enter(w, r, named)], t) && t.now == s.now && t.db == s.db
    ensures Idle(t, r, w) && t.sessions[w].named == named && OthersSame(s, t, w)
    ensures t.sessions.Keys == s.sessions.Keys + {w}
    ensures t.leases == if named then Granted(s.leases, r, w, s.now) else s.leases
  {
    ReachesNext(es, s, Enter(w, r, named));
    t := Apply(s, Enter(w, r, named));
  }

  lemma ClaimedBy(es: seq<Event>, s: Sys, r: int, w: Token) returns (t: Sys)
    requires Reaches(es, s) && Idle(s, r, w) && ID in s.db.steps && KeyOf(ID, s.db.steps[ID]) == JobOf(r)
    requires s.db.steps[ID].status == StepPending && Claimable(JobFor(s.db, JobOf(r)).status)
    ensures Reaches(es + [Claim(w, ID)], t) && t.now == s.now && t.leases == s.leases
    ensures var attempt := JobFor(s.db, JobOf(r)).attempt + 1;
            Holds(t, r, StepRunning, JobRunning, TokenOf(s, w), attempt) && Flies(t, r, w, attempt)
    ensures t.sessions[w].named == s.sessions[w].named && OthersSame(s, t, w) && t.sessions.Keys == s.sessions.Keys
    ensures t.db.jobs[JobOf(r)].heartbeatAt == Some(s.now) && t.db.steps[ID].startedAt == Some(s.now)
  {
    ReachesNext(es, s, Claim(w, ID));
    t := Apply(s, Claim(w, ID));
  }

  lemma FinishedBy(es: seq<Event>, s: Sys, r: int, w: Token, attempt: nat, o: Outcome,
                   step: StepStatus, job: JobStatus, owner: Option<Token>, row: nat)
    returns (t: Sys)
    requires Reaches(es, s) && Flies(s, r, w, attempt) && Holds(s, r, step, job, owner, row)
    requires !OwnedByAnother(owner, TokenOf(s, w))
    ensures Enabled(s, Finish(w, o)) && t == Apply(s, Finish(w, o)) && Reaches(es + [Finish(w, o)], t)
    ensures Holds(t, r, FinalStepStatus(o, attempt), FinalJobStatus(o, attempt), owner, row)
    ensures Idle(t, r, w) && OthersSame(s, t, w) && t.sessions[w].named == s.sessions[w].named
  {
    ReachesNext(es, s, Finish(w, o));
    t := Apply(s, Finish(w, o));
  }

  lemma FailedBy(es: seq<Event>, s: Sys, r: int, w: Token) returns (t: Sys)
    requires Reaches(es, s) && InFlight(s, w) && FlightOf(s, w).key == JobOf(r) && JobOf(r) in s.db.jobs
    ensures Reaches(es + [Fail(w)], t) && t == Apply(s, Fail(w)) && t.now == s.now && t.db.steps == s.db.steps
    ensures JobOf(r) in t.db.jobs
    ensures t.db.jobs[JobOf(r)] == Completed(s.db.jobs[JobOf(r)], JobFailed, s.now)
  {
    ReachesNext(es, s, Fail(w));
    t := Apply(s, Fail(w));
  }

  lemma AbandonedBy(es: seq<Event>, s: Sys, r: int, w: Token, attempt: nat) returns (t: Sys)
    requires Reaches(es, s) && Flies(s, r, w, attempt)
    ensures Reaches(es + [Abandon(w)], t) && t.db == s.db && Idle(t, r, w)
  {
    ReachesNext(es, s, Abandon(w));
    t := Apply(s, Abandon(w));
  }

  lemma ClosedBy(es: seq<Event>, s: Sys, r: int, w: Token, job: JobStatus, owner: Option<Token>, attempt: nat)
    returns (t: Sys)
    requires Reaches(es, s) && Idle(s, r, w) && Holds(s, r, StepPending, job, owner, attempt)
    ensures Reaches(es + [CloseInvalid(w, ID)], t) && Holds(t, r, StepFailed, job, owner, attempt)
  {
    ReachesNext(es, s, CloseInvalid(w, ID));
    t := Apply(s, CloseInvalid(w, ID));
  }

  /** After 301 silent seconds and a sweep the job is stale and the step pending; the worker flies on. */
  lemma SweptAway(es: seq<Event>, s: Sys, r: int, owner: Option<Token>, attempt: nat) returns (t: Sys)
    requires Reaches(es, s) && Holds(s, r, StepRunning, JobRunning, owner, attempt) && attempt < MAX_RETRY_ATTEMPTS
    requires s.db.jobs[JobOf(r)].heartbeatAt == Some(s.now)
    ensures Reaches(es + [Tick(301 * SECOND)] + [Sweep], t) && t.now == s.now + 301 * SECOND
    ensures Holds(t, r, StepPending, JobStale, owner, attempt) && t.leases == s.leases && t.sessions == s.sessions
  {
    ReachesNext(es, s, Tick(301 * SECOND));
    var late := Apply(s, Tick(301 * SECOND));
    ReachesNext(es + [Tick(301 * SECOND)], late, Sweep);
    t := SweptState(late, r, owner, attempt);
  }

  lemma SweptState(s: Sys, r: int, owner: Option<Token>, attempt: nat) returns (t: Sys)
    requires Holds(s, r, StepRunning, JobRunning, owner, attempt) && attempt < MAX_RETRY_ATTEMPTS
    requires Before(s.db.jobs[JobOf(r)].heartbeatAt, Cutoff(s.now, STALE_AFTER))
    ensures t == Apply(s, Sweep) && Holds(t, r, StepPending, JobStale, owner, attempt)
  {
    t := Apply(s, Sweep);
    SweepMoves(s.db, r, Cutoff(s.now, STALE_AFTER), s.now);
  }

  lemma SweepMoves(db: Db, r: int, cutoff: int, now: int)
    requires ID in db.steps && KeyOf(ID, db.steps[ID]) == JobOf(r) && db.steps[ID].status == StepRunning
    requires JobOf(r) in db.jobs && Silent(db.jobs[JobOf(r)], cutoff)
    requires db.jobs[JobOf(r)].attempt < MAX_RETRY_ATTEMPTS
    ensures var end := SweepOrphans(SweepJobs(db, cutoff, now), cutoff);
            && ID in end.steps && end.steps[ID] == db.steps[ID].(status := StepPending, finishedAt := None)
            && JobOf(r) in end.jobs && end.jobs[JobOf(r)] == db.jobs[JobOf(r)].(status := JobStale)
  {
  }

  lemma BusyRetries(attempt: nat)
    requires attempt < MAX_RETRY_ATTEMPTS
    ensures Retries(BUSY, attempt)
  {
    assert Strip("429") == "429";
    assert Lower("9") == "9" && Lower("29") == "29" && Lower("429") == "429";
    assert Contains("429", "429");
  }

  // ---- Runs ----

  function Opening(r: int, a: Token, named: bool): seq<Event> {
    [Append(ID, StepOf(r))] + [Enter(a, r, named)] + [Claim(a, ID)]
  }

  /** A claim by worker a. */
  lemma FirstClaim(r: int, a: Token, named: bool) returns (s: Sys)
    ensures Reaches(Opening(r, a, named), s) && s.now == 0
    ensures Holds(s, r, StepRunning, JobRunning, if named then Some(a) else None, 1) && Flies(s, r, a, 1)
    ensures s.sessions.Keys == {a} && s.sessions[a].named == named
    ensures s.db.jobs[JobOf(r)].heartbeatAt == Some(0) && s.db.steps[ID].startedAt == Some(0)
    ensures s.leases == if named then map[r := Lease(a, LEASE_TTL)] else map[]
  {
    var s1 := Opened(r);
    var s2 := Entered([Append(ID, StepOf(r))], s1, r, a, named);
    s := ClaimedBy([Append(ID, StepOf(r))] + [Enter(a, r, named)], s2, r, a);
  }

  /**
   A retryable failure leaves a claimable job; closing the step as invalid then leaves a terminal step with an
   open job.
   */
  lemma InvalidCloseLeavesJobOpen() returns (t: Sys)
    ensures Reaches(Opening(7, "a", true) + [Finish("a", BUSY)] + [CloseInvalid("a", ID)], t)
    ensures Holds(t, 7, StepFailed, JobRetryWait, Some("a"), 1) && !Closed(t.db)
  {
    var es := Opening(7, "a", true);
    var s := FirstClaim(7, "a", true);
    BusyRetries(1);
    var r := FinishedBy(es, s, 7, "a", 1, BUSY, StepRunning, JobRunning, Some("a"), 1);
    t := ClosedBy(es + [Finish("a", BUSY)], r, 7, "a", JobRetryWait, Some("a"), 1);
    assert !StepClosed(t.db, ID);
  }

  function Takeover(r: int, a: Token, aNamed: bool, b: Token, bNamed: bool): seq<Event> {
    Opening(r, a, aNamed) + [Tick(301 * SECOND)] + [Sweep] + [Enter(b, r, bNamed)] + [Claim(b, ID)]
  }

  /** Worker a falls silent, is swept, and worker b claims the job while a is still in flight. */
  lemma TakenOver(r: int, a: Token, aNamed: bool, b: Token, bNamed: bool) returns (s: Sys)
    requires a != b
    ensures Reaches(Takeover(r, a, aNamed, b, bNamed), s)
    ensures Holds(s, r, StepRunning, JobRunning, if bNamed then Some(b) else None, 2)
    ensures Flies(s, r, a, 1) && Flies(s, r, b, 2) && s.sessions[a].named == aNamed && s.sessions[b].named == bNamed
  {
    var es := Opening(r, a, aNamed);
    var s1 := FirstClaim(r, a, aNamed);
    var s2 := SweptAway(es, s1, r, if aNamed then Some(a) else None, 1);
    var es2 := es + [Tick(301 * SECOND)] + [Sweep];
    var s3 := Entered(es2, s2, r, b, bNamed);
    s := ClaimedBy(es2 + [Enter(b, r, bNamed)], s3, r, b);
  }

  /** The successor commits SUCCEEDED; the superseded worker's failure handler then turns the job FAILED. */
  lemma SuccessIsOverwritten() returns (s: Sys, t: Sys)
    ensures Reaches(Takeover(7, "a", true, "b", true) + [Finish("b", DONE)], s)
    ensures Holds(s, 7, StepSucceeded, JobSucceeded, Some("b"), 2)
    ensures Reaches(Takeover(7, "a", true, "b", true) + [Finish("b", DONE)] + [Fail("a")], t)
    ensures Holds(t, 7, StepSucceeded, JobFailed, Some("b"), 2)
  {
    var es := Takeover(7, "a", true, "b", true);
    var s0 := TakenOver(7, "a", true, "b", true);
    s := FinishedBy(es, s0, 7, "b", 2, DONE, StepRunning, JobRunning, Some("b"), 2);
    t := FailedBy(es + [Finish("b", DONE)], s, 7, "a");
  }

  /** The owner's failure handler and an orphan sweep leave a pending step whose job is failed for good. */
  lemma HandlerStrandsStep() returns (t: Sys)
    ensures Reaches(Opening(7, "a", true) + [Fail("a")] + [Tick(301 * SECOND)] + [Sweep], t)
    ensures Stranded(t, ID)
  {
    var es := Opening(7, "a", true);
    var s := FirstClaim(7, "a", true);
    ReachesInv(es, s);
    var f := FailedBy(es, s, 7, "a");
    HandlerSettles(s, "a");
    t := StrandedLater(es + [Fail("a")], f, 7, 0);
  }

  lemma StrandedLater(es: seq<Event>, f: Sys, r: int, startedAt: int) returns (t: Sys)
    requires Reaches(es, f) && Settled(f, JobOf(r)) && ID in f.db.steps && KeyOf(ID, f.db.steps[ID]) == JobOf(r)
    requires f.db.steps[ID].status == StepRunning && f.db.steps[ID].startedAt == Some(startedAt) && startedAt <= f.now
    ensures Reaches(es + [Tick(301 * SECOND)] + [Sweep], t) && Stranded(t, ID)
  {
    var late := Apply(f, Tick(301 * SECOND));
    ReachesNext(es, f, Tick(301 * SECOND));
    ReachesInv(es + [Tick(301 * SECOND)], late);
    SettledStep(f, Tick(301 * SECOND), JobOf(r));
    ReachesNext(es + [Tick(301 * SECOND)], late, Sweep);
    OrphanSweepStrands(late, ID);
    t := Apply(late, Sweep);
  }

  /**
   A worker whose row someone else owns is refused whatever it brings back, and its failure handler then
   marks the job FAILED whatever the other worker committed, leaving the step alone.
   */
  lemma SupersededWorkerOverwrites(s: Sys, w: Token)
    requires Inv(s) && InFlight(s, w) && OwnedByAnother(s.db.jobs[FlightOf(s, w).key].owner, TokenOf(s, w))
    ensures forall o: Outcome :: !Enabled(s, Finish(w, o))
    ensures Enabled(s, Fail(w))
    ensures var t, k := Apply(s, Fail(w)), FlightOf(s, w).key;
            t.db.jobs[k].status == JobFailed && t.db.jobs[k].owner == s.db.jobs[k].owner && t.db.steps == s.db.steps
  {
    assert FlightOk(s, w);
  }
}
