/** How the step table and the job table stay in step with each other, and what breaks that. */
module Coupling {
  import opened Basics
  import opened JobRows
  import opened Protocol

  ghost predicate StepCoupled(db: Db, i: StepId)
    requires i in db.steps
  {
    var k := KeyOf(i, db.steps[i]);
    && (db.steps[i].status == StepPending ==> Claimable(JobFor(db, k).status))
    && (db.steps[i].status == StepRunning <==> k in db.jobs && db.jobs[k].status == JobRunning)
  }

  /** A pending step has no job or a claimable one, and a step is running exactly when its job is. */
  ghost predicate Coupled(db: Db) {
    forall i | i in db.steps :: StepCoupled(db, i)
  }

  /** A failed job with its step still open: what the failure handler leaves behind. */
  ghost predicate Adrift(db: Db, i: StepId)
    requires i in db.steps
  {
    var k := KeyOf(i, db.steps[i]);
    !TerminalStep(db.steps[i].status) && k in db.jobs && db.jobs[k].status == JobFailed
  }

  ghost predicate Paired(db: Db, i: StepId)
    requires i in db.steps
  {
    StepCoupled(db, i) || Adrift(db, i)
  }

  /** If the step is terminal, it has no job or a terminal one. */
  ghost predicate StepClosed(db: Db, i: StepId)
    requires i in db.steps
  {
    var k := KeyOf(i, db.steps[i]);
    TerminalStep(db.steps[i].status) ==> k !in db.jobs || TerminalJob(db.jobs[k].status)
  }

  ghost predicate Closed(db: Db) {
    forall i | i in db.steps :: StepClosed(db, i)
  }

  // ---- The sweep ----

  /** The orphan pass that follows the job pass leaves a coupled step alone. */
  lemma CoupledIsNoOrphan(db: Db, cutoff: int, now: int, i: StepId)
    requires DbOk(db) && i in db.steps && StepCoupled(db, i)
    ensures !Orphan(SweepJobs(db, cutoff, now), i, cutoff)
  {
    var mid := SweepJobs(db, cutoff, now);
    var k := KeyOf(i, db.steps[i]);
    if mid.steps[i].status == StepRunning {
      assert k.stepId == i && k in mid.jobs && LiveJob(mid.jobs[k], cutoff);
    }
  }

  lemma OrphanPassIdle(db: Db, cutoff: int, now: int)
    requires DbOk(db) && Coupled(db)
    ensures SweepOrphans(SweepJobs(db, cutoff, now), cutoff) == SweepJobs(db, cutoff, now)
  {
    var mid := SweepJobs(db, cutoff, now);
    forall i | i in mid.steps ensures !Orphan(mid, i, cutoff) { CoupledIsNoOrphan(db, cutoff, now, i); }
    assert SweepOrphans(mid, cutoff).steps == mid.steps;
  }

  /** With all steps coupled, the orphan pass finds nothing to do. */
  lemma OrphanSweepIdle(db: Db, now: int, staleAfter: int)
    requires DbOk(db) && Coupled(db)
    ensures SweepTx(db, now, staleAfter) == SweepJobs(db, Cutoff(now, staleAfter), now)
  {
    OrphanPassIdle(db, Cutoff(now, staleAfter), now);
  }

  /** The job pass moves a step and its job together. */
  lemma JobPassKeepsCoupling(db: Db, cutoff: int, now: int, i: StepId)
    requires i in db.steps && StepCoupled(db, i)
    ensures StepCoupled(SweepJobs(db, cutoff, now), i)
    ensures StepClosed(SweepJobs(db, cutoff, now), i) <==> StepClosed(db, i)
  {
  }

  /** Both passes, for one step. */
  lemma SweepPair(db: Db, cutoff: int, now: int, i: StepId)
    requires DbOk(db) && i in db.steps && Paired(db, i)
    ensures var end := SweepOrphans(SweepJobs(db, cutoff, now), cutoff);
            && i in end.steps && Paired(end, i)
            && (StepCoupled(end, i) <==> StepCoupled(db, i)) && (StepClosed(end, i) <==> StepClosed(db, i))
  {
    var mid := SweepJobs(db, cutoff, now);
    var end := SweepOrphans(mid, cutoff);
    if StepCoupled(db, i) {
      CoupledIsNoOrphan(db, cutoff, now, i);
      JobPassKeepsCoupling(db, cutoff, now, i);
      assert end.steps[i] == mid.steps[i];
    } else {
      assert Adrift(end, i);
    }
  }

  lemma SweepKeepsPair(s: Sys, i: StepId)
    requires Inv(s) && i in s.db.steps && Paired(s.db, i)
    ensures var t := Apply(s, Sweep);
            && i in t.db.steps && Paired(t.db, i)
            && (StepCoupled(t.db, i) <==> StepCoupled(s.db, i)) && (StepClosed(t.db, i) <==> StepClosed(s.db, i))
  {
    SweepPair(s.db, Cutoff(s.now, STALE_AFTER), s.now, i);
  }

  // ---- Every other event ----

  predicate ClosesStep(e: Event, i: StepId) {
    e.CloseInvalid? && e.id == i
  }

  /** The event closes a step as invalid although an earlier attempt left it a job that is not terminal. */
  predicate ClosesJobStep(s: Sys, e: Event)
    requires Enabled(s, e)
  {
    e.CloseInvalid? &&
    var k := KeyOf(e.id, s.db.steps[e.id]);
    k in s.db.jobs && !TerminalJob(s.db.jobs[k].status)
  }

  /** The event commits a result for step i. */
  predicate FinishesStep(s: Sys, e: Event, i: StepId)
    requires Enabled(s, e)
  {
    e.Finish? && FlightOf(s, e.w).key.stepId == i
  }

  /** The event is the failure handler of a worker in flight on step i. */
  predicate FailsStep(s: Sys, e: Event, i: StepId)
    requires Enabled(s, e)
  {
    e.Fail? && FlightOf(s, e.w).key.stepId == i
  }

  /** Steps never disappear, and keep the job they belong to. */
  lemma StepKept(s: Sys, e: Event, i: StepId)
    requires Enabled(s, e) && i in s.db.steps
    ensures i in Apply(s, e).db.steps && KeyOf(i, Apply(s, e).db.steps[i]) == KeyOf(i, s.db.steps[i])
  {
  }

  /** The event is about step i: its claim, its closing as invalid or a completion of its job. */
  predicate Concerns(s: Sys, e: Event, i: StepId)
    requires Enabled(s, e)
  {
    match e
    case Claim(_, id) => id == i
    case CloseInvalid(_, id) => id == i
    case Finish(w, _) => FlightOf(s, w).key.stepId == i
    case Fail(w) => FlightOf(s, w).key.stepId == i
    case _ => false
  }

  /** Step i and its job have the same statuses in both tables. */
  ghost predicate SamePair(before: Db, after: Db, i: StepId)
    requires i in before.steps
  {
    var k := KeyOf(i, before.steps[i]);
    && i in after.steps && KeyOf(i, after.steps[i]) == k && after.steps[i].status == before.steps[i].status
    && (k in after.jobs <==> k in before.jobs)
    && (k in before.jobs ==> after.jobs[k].status == before.jobs[k].status)
  }

  lemma OthersKeepPair(s: Sys, e: Event, i: StepId)
    requires Enabled(s, e) && i in s.db.steps && !Concerns(s, e, i) && !e.Sweep?
    ensures SamePair(s.db, Apply(s, e).db, i)
  {
  }

  lemma SamePairSame(before: Db, after: Db, i: StepId)
    requires i in before.steps && SamePair(before, after, i)
    ensures StepCoupled(after, i) <==> StepCoupled(before, i)
    ensures Adrift(after, i) <==> Adrift(before, i)
    ensures StepClosed(after, i) <==> StepClosed(before, i)
  {
  }

  lemma FinishPair(s: Sys, w: Token, o: Outcome)
    requires Inv(s) && Enabled(s, Finish(w, o))
    ensures var t, i := Apply(s, Finish(w, o)), FlightOf(s, w).key.stepId;
            i in t.db.steps && StepCoupled(t.db, i) && StepClosed(t.db, i)
  {
    assert FlightOk(s, w);
  }

  lemma ClaimPair(s: Sys, w: Token, i: StepId)
    requires Enabled(s, Claim(w, i)) && Paired(s.db, i)
    ensures var t := Apply(s, Claim(w, i)); i in t.db.steps && StepCoupled(t.db, i) && StepClosed(t.db, i)
    ensures StepCoupled(s.db, i) && StepClosed(s.db, i)
  {
  }

  lemma InvalidPair(s: Sys, w: Token, i: StepId)
    requires Enabled(s, CloseInvalid(w, i)) && Paired(s.db, i)
    ensures var t := Apply(s, CloseInvalid(w, i));
            && i in t.db.steps && StepCoupled(t.db, i)
            && (StepClosed(t.db, i) <==> !ClosesJobStep(s, CloseInvalid(w, i)))
  {
  }

  lemma FailPair(s: Sys, w: Token)
    requires Inv(s) && Enabled(s, Fail(w))
    ensures var t, i := Apply(s, Fail(w)), FlightOf(s, w).key.stepId;
            && i in s.db.steps && i in t.db.steps && Paired(t.db, i) && StepClosed(t.db, i)
            && (StepCoupled(t.db, i) <==> TerminalStep(s.db.steps[i].status))
  {
    assert FlightOk(s, w);
  }

  /** What becomes of the coupling and of the closing of one step when an event concerns it. */
  lemma ConcernedPair(s: Sys, e: Event, i: StepId)
    requires Inv(s) && Enabled(s, e) && Concerns(s, e, i) && i in s.db.steps && Paired(s.db, i)
    ensures i in Apply(s, e).db.steps && Paired(Apply(s, e).db, i)
    ensures StepCoupled(Apply(s, e).db, i) <==> !FailsStep(s, e, i) || TerminalStep(s.db.steps[i].status)
    ensures StepClosed(Apply(s, e).db, i) <==> !ClosesStep(e, i) || !ClosesJobStep(s, e)
    ensures e.Claim? ==> StepCoupled(s.db, i) && StepClosed(s.db, i)
  {
    match e
    case Claim(w, _) => ClaimPair(s, w, i);
    case CloseInvalid(w, _) => InvalidPair(s, w, i);
    case Finish(w, o) => FinishPair(s, w, o);
    case Fail(w) => FailPair(s, w);
  }

  /** What an event does to the coupling and to the closing of one step. */
  lemma PairStep(s: Sys, e: Event, i: StepId)
    requires Inv(s) && Enabled(s, e) && i in s.db.steps && Paired(s.db, i)
    ensures i in Apply(s, e).db.steps && Paired(Apply(s, e).db, i)
    ensures StepCoupled(Apply(s, e).db, i) <==>
            if FailsStep(s, e, i) then TerminalStep(s.db.steps[i].status)
            else ClosesStep(e, i) || FinishesStep(s, e, i) || StepCoupled(s.db, i)
    ensures StepClosed(Apply(s, e).db, i) <==>
            if ClosesStep(e, i) then !ClosesJobStep(s, e)
            else FinishesStep(s, e, i) || FailsStep(s, e, i) || StepClosed(s.db, i)
  {
    if e.Sweep? {
      SweepKeepsPair(s, i);
    } else if Concerns(s, e, i) {
      ConcernedPair(s, e, i);
    } else {
      OtherPair(s, e, i);
    }
  }

  lemma OtherPair(s: Sys, e: Event, i: StepId)
    requires Enabled(s, e) && i in s.db.steps && !Concerns(s, e, i) && !e.Sweep?
    ensures !FailsStep(s, e, i) && !FinishesStep(s, e, i) && !ClosesStep(e, i) && i in Apply(s, e).db.steps
    ensures var t := Apply(s, e);
            && (StepCoupled(t.db, i) <==> StepCoupled(s.db, i)) && (Adrift(t.db, i) <==> Adrift(s.db, i))
            && (StepClosed(t.db, i) <==> StepClosed(s.db, i))
  {
    OthersKeepPair(s, e, i);
    SamePairSame(s.db, Apply(s, e).db, i);
  }

  /** A new step is not running and has no job. */
  lemma NewStep(s: Sys, e: Event, i: StepId)
    requires Inv(s) && Enabled(s, e) && i in Apply(s, e).db.steps && i !in s.db.steps
    ensures StepCoupled(Apply(s, e).db, i) && StepClosed(Apply(s, e).db, i) && !Concerns(s, e, i)
  {
  }

  /** Every event but the failure handler keeps the tables coupled. */
  lemma CoupledStep(s: Sys, e: Event)
    requires Inv(s) && Enabled(s, e) && !e.Fail? && Coupled(s.db)
    ensures Coupled(Apply(s, e).db)
  {
    forall i | i in Apply(s, e).db.steps
      ensures StepCoupled(Apply(s, e).db, i)
    {
      if i in s.db.steps { PairStep(s, e, i); } else { NewStep(s, e, i); }
    }
  }

  /** The failure handler keeps the tables coupled exactly when the step it leaves behind is already terminal. */
  lemma HandlerKeepsCoupling(s: Sys, w: Token)
    requires Inv(s) && Coupled(s.db) && Enabled(s, Fail(w))
    ensures Coupled(Apply(s, Fail(w)).db) <==> TerminalStep(s.db.steps[FlightOf(s, w).key.stepId].status)
  {
    var t, k := Apply(s, Fail(w)), FlightOf(s, w).key;
    FailPair(s, w);
    forall i | i in t.db.steps && i != k.stepId ensures StepCoupled(t.db, i) {
      assert StepCoupled(s.db, i);
      PairStep(s, Fail(w), i);
    }
  }

  /**
   From closed tables an event, the failure handler included, leads to closed tables if and only if it does
   not close a step that has an open job as invalid.
   */
  lemma ClosedExactly(s: Sys, e: Event)
    requires Inv(s) && Enabled(s, e) && (forall i | i in s.db.steps :: Paired(s.db, i)) && Closed(s.db)
    ensures Closed(Apply(s, e).db) <==> !ClosesJobStep(s, e)
  {
    forall i | i in Apply(s, e).db.steps
      ensures StepClosed(Apply(s, e).db, i) <==> !(ClosesStep(e, i) && ClosesJobStep(s, e))
    {
      if i in s.db.steps { PairStep(s, e, i); } else { NewStep(s, e, i); }
    }
    if ClosesJobStep(s, e) {
      StepKept(s, e, e.id);
      assert !StepClosed(Apply(s, e).db, e.id);
    }
  }

  // ---- Whole behaviours ----

  /**
   A failure handler ran on step i while it was not terminal, and since then no result was committed for it
   and it was not closed as invalid.
   */
  ghost predicate LeftAdrift(ss: seq<Sys>, es: seq<Event>, i: StepId, n: nat)
    requires Behaviour(ss, es) && n <= |es|
  {
    n > 0 &&
    var s, e := ss[n - 1], es[n - 1];
    if FailsStep(s, e, i) then i in s.db.steps && !TerminalStep(s.db.steps[i].status)
    else !ClosesStep(e, i) && !FinishesStep(s, e, i) && LeftAdrift(ss, es, i, n - 1)
  }

  /** The last time step i was closed as invalid it had an open job, and nothing has completed that job since. */
  ghost predicate LeftOpen(ss: seq<Sys>, es: seq<Event>, i: StepId, n: nat)
    requires Behaviour(ss, es) && n <= |es|
  {
    n > 0 &&
    var s, e := ss[n - 1], es[n - 1];
    if ClosesStep(e, i) then ClosesJobStep(s, e)
    else !FinishesStep(s, e, i) && !FailsStep(s, e, i) && LeftOpen(ss, es, i, n - 1)
  }

  /** The state of step i and its job, against the history. */
  ghost predicate PairTold(db: Db, i: StepId, adrift: bool, open: bool) {
    if i in db.steps
    then Paired(db, i) && (StepCoupled(db, i) <==> !adrift) && (StepClosed(db, i) <==> !open)
    else !adrift && !open
  }

  lemma AbsentStep(s: Sys, e: Event, i: StepId)
    requires Inv(s) && Enabled(s, e) && i !in s.db.steps
    ensures !FailsStep(s, e, i) && !FinishesStep(s, e, i) && !ClosesStep(e, i)
  {
    if e.Fail? || e.Finish? { assert FlightOk(s, e.w); }
  }

  /** In every behaviour the history tells whether a step is coupled and whether it is closed together with its job. */
  lemma {:induction false} PairToldAt(ss: seq<Sys>, es: seq<Event>, i: StepId, n: nat)
    requires Behaviour(ss, es) && n <= |es|
    ensures PairTold(ss[n].db, i, LeftAdrift(ss, es, i, n), LeftOpen(ss, es, i, n))
  {
    if n == 0 {
    } else {
      var s, e := ss[n - 1], es[n - 1];
      PairToldAt(ss, es, i, n - 1);
      InvAt(ss, es, n - 1);
      if i in s.db.steps {
        PairStep(s, e, i);
      } else {
        AbsentStep(s, e, i);
        if i in ss[n].db.steps { NewStep(s, e, i); }
      }
    }
  }

  /**
   In every behaviour, failure handlers included: unless it was left adrift, a pending step has no job or a
   claimable one and a running step has a running job; a step left adrift is open and its job FAILED; and a
   terminal step has a terminal job or none exactly when it was not left open.
   */
  lemma StepsFollowJobs(ss: seq<Sys>, es: seq<Event>, n: nat, i: StepId)
    requires Behaviour(ss, es) && n <= |es| && i in ss[n].db.steps
    ensures var db, k := ss[n].db, KeyOf(i, ss[n].db.steps[i]);
            var status := db.steps[i].status;
            if LeftAdrift(ss, es, i, n)
            then !TerminalStep(status) && k in db.jobs && db.jobs[k].status == JobFailed
            else && (status == StepPending ==> k !in db.jobs || Claimable(db.jobs[k].status))
                 && (status == StepRunning <==> k in db.jobs && db.jobs[k].status == JobRunning)
                 && (TerminalStep(status) ==>
                       (k !in db.jobs || TerminalJob(db.jobs[k].status) <==> !LeftOpen(ss, es, i, n)))
  {
    PairToldAt(ss, es, i, n);
  }

  /** Only a failure handler on its own job can leave a step adrift. */
  lemma {:induction false} DriftNeedsHandler(ss: seq<Sys>, es: seq<Event>, i: StepId, n: nat)
    requires Behaviour(ss, es) && n <= |es| && LeftAdrift(ss, es, i, n)
    ensures exists j | 0 <= j < n :: FailsStep(ss[j], es[j], i)
  {
    if FailsStep(ss[n - 1], es[n - 1], i) {
    } else {
      DriftNeedsHandler(ss, es, i, n - 1);
    }
  }

  /** In every behaviour without the failure handler the tables stay coupled. */
  lemma CoupledAt(ss: seq<Sys>, es: seq<Event>, n: nat)
    requires Behaviour(ss, es) && n <= |es| && forall j | 0 <= j < n :: !es[j].Fail?
    ensures Coupled(ss[n].db)
  {
    forall i | i in ss[n].db.steps ensures StepCoupled(ss[n].db, i) {
      PairToldAt(ss, es, i, n);
      if LeftAdrift(ss, es, i, n) { DriftNeedsHandler(ss, es, i, n); }
    }
  }

  /** In every behaviour without the failure handler the orphan sweep never changes anything. */
  lemma OrphanSweepNeverActs(ss: seq<Sys>, es: seq<Event>, n: nat)
    requires Behaviour(ss, es) && n <= |es| && forall j | 0 <= j < n :: !es[j].Fail?
    ensures Apply(ss[n], Sweep).db == SweepJobs(ss[n].db, Cutoff(ss[n].now, STALE_AFTER), ss[n].now)
  {
    CoupledAt(ss, es, n);
    InvAt(ss, es, n);
    OrphanSweepIdle(ss[n].db, ss[n].now, STALE_AFTER);
  }

  /** In every behaviour the orphan sweep reopens only steps that a failure handler left adrift. */
  lemma OrphansAreAdrift(ss: seq<Sys>, es: seq<Event>, n: nat, i: StepId, cutoff: int)
    requires Behaviour(ss, es) && n <= |es| && i in ss[n].db.steps
    requires Orphan(SweepJobs(ss[n].db, cutoff, ss[n].now), i, cutoff)
    ensures LeftAdrift(ss, es, i, n)
  {
    PairToldAt(ss, es, i, n);
    InvAt(ss, es, n);
    if StepCoupled(ss[n].db, i) { CoupledIsNoOrphan(ss[n].db, cutoff, ss[n].now, i); }
  }

  // ---- What the handler and the orphan sweep do together ----

  /** A step whose job is terminal for good. */
  ghost predicate Finished(s: Sys, i: StepId) {
    i in s.db.steps && s.db.steps[i].status != StepRunning && Settled(s, KeyOf(i, s.db.steps[i]))
  }

  /** A pending step whose job is terminal for good. */
  ghost predicate Stranded(s: Sys, i: StepId) {
    Finished(s, i) && s.db.steps[i].status == StepPending
  }

  /**
   After the owner's failure handler the step is left as it was, and the job is failed for good if and only
   if no anonymous worker is in flight on it.
   */
  lemma HandlerSettles(s: Sys, w: Token)
    requires Inv(s) && Enabled(s, Fail(w)) && s.sessions[w].named && s.db.jobs[FlightOf(s, w).key].owner == Some(w)
    ensures Apply(s, Fail(w)).db.steps == s.db.steps
    ensures Settled(Apply(s, Fail(w)), FlightOf(s, w).key) <==>
            forall v | InFlight(s, v) && FlightOf(s, v).key == FlightOf(s, w).key :: s.sessions[v].named
  {
    var t, k := Apply(s, Fail(w)), FlightOf(s, w).key;
    forall v | InFlight(s, v) && FlightOf(s, v).key == k && v != w
      ensures InFlight(t, v) && FlightOf(t, v).key == k
      ensures OwnedByAnother(t.db.jobs[k].owner, TokenOf(t, v)) <==> s.sessions[v].named
    {
    }
  }

  /** The orphan sweep then hands the step out again. */
  lemma OrphanSweepStrands(s: Sys, i: StepId)
    requires i in s.db.steps && s.db.steps[i].status == StepRunning
    requires Before(s.db.steps[i].startedAt, Cutoff(s.now, STALE_AFTER))
    requires Inv(s) && Settled(s, KeyOf(i, s.db.steps[i]))
    ensures Stranded(Apply(s, Sweep), i)
  {
    var cutoff := Cutoff(s.now, STALE_AFTER);
    var mid := SweepJobs(s.db, cutoff, s.now);
    assert Orphan(mid, i, cutoff);
    SettledStep(s, Sweep, KeyOf(i, s.db.steps[i]));
  }

  /** A settled job's step changes only when it is closed as invalid. */
  lemma FinishedStep(s: Sys, e: Event, i: StepId)
    requires Inv(s) && Enabled(s, e) && Finished(s, i)
    ensures Finished(Apply(s, e), i) && !ClaimsStep(e, i)
    ensures Stranded(Apply(s, e), i) <==> Stranded(s, i) && !ClosesStep(e, i)
  {
    SettledStep(s, e, KeyOf(i, s.db.steps[i]));
    FinishedRow(s, e, i);
  }

  lemma FinishedRow(s: Sys, e: Event, i: StepId)
    requires Inv(s) && Enabled(s, e) && Finished(s, i)
    ensures i in Apply(s, e).db.steps && KeyOf(i, Apply(s, e).db.steps[i]) == KeyOf(i, s.db.steps[i])
    ensures Apply(s, e).db.steps[i].status == if ClosesStep(e, i) then StepFailed else s.db.steps[i].status
    ensures !ClaimsStep(e, i)
  {
    FinishesKey(s, e, i);
    SettledRefuses(s, e, KeyOf(i, s.db.steps[i]));
    SettledStep(s, e, KeyOf(i, s.db.steps[i]));
    if e.Sweep? {
      SweepSkips(s, i);
    } else if !Concerns(s, e, i) {
      OthersKeepPair(s, e, i);
    }
  }

  lemma FinishesKey(s: Sys, e: Event, i: StepId)
    requires Inv(s) && Enabled(s, e)
    ensures FinishesStep(s, e, i) ==> i in s.db.steps && Finishes(s, e, KeyOf(i, s.db.steps[i]))
  {
    if e.Finish? { assert FlightOk(s, e.w); }
  }

  lemma SweepSkips(s: Sys, i: StepId)
    requires i in s.db.steps && s.db.steps[i].status != StepRunning
    ensures i in Apply(s, Sweep).db.steps && Apply(s, Sweep).db.steps[i] == s.db.steps[i]
  {
  }

  predicate ClaimsStep(e: Event, i: StepId) {
    e.Claim? && e.id == i
  }

  ghost predicate ClaimedBetween(es: seq<Event>, i: StepId, m: nat, n: nat)
    requires n <= |es|
  {
    exists j | m <= j < n :: ClaimsStep(es[j], i)
  }

  ghost predicate ClosedBetween(es: seq<Event>, i: StepId, m: nat, n: nat)
    requires n <= |es|
  {
    exists j | m <= j < n :: ClosesStep(es[j], i)
  }

  lemma BetweenStep(es: seq<Event>, i: StepId, m: nat, n: nat)
    requires m <= n < |es|
    ensures ClaimedBetween(es, i, m, n + 1) <==> ClaimedBetween(es, i, m, n) || ClaimsStep(es[n], i)
    ensures ClosedBetween(es, i, m, n + 1) <==> ClosedBetween(es, i, m, n) || ClosesStep(es[n], i)
  {
  }

  /** A stranded step is never claimed again, and stays pending exactly until it is closed as invalid. */
  lemma {:induction false} StrandedForever(ss: seq<Sys>, es: seq<Event>, i: StepId, m: nat, n: nat)
    requires Behaviour(ss, es) && m <= n <= |es| && Stranded(ss[m], i)
    ensures Finished(ss[n], i) && !ClaimedBetween(es, i, m, n)
    ensures Stranded(ss[n], i) <==> !ClosedBetween(es, i, m, n)
  {
    if m == n {
    } else {
      var p := n - 1;
      StrandedForever(ss, es, i, m, p);
      InvAt(ss, es, p);
      FinishedStep(ss[p], es[p], i);
      BetweenStep(es, i, m, p);
    }
  }
}
