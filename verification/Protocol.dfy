/**
 Workers, leases, steps and jobs as one system. Every event is one committed transaction (or the
 passing of time), so a behaviour is any interleaving of any number of workers. Nothing in `Enabled`
 asks that a worker still holds its lease when it claims, finishes or fails.
 */
module Protocol {
  import opened Basics
  import opened JobRows

  const LEASE_TTL: int := 120 * SECOND

  datatype Lease = Lease(owner: Token, expiresAt: int)

  /** A claim whose adapter is running outside any transaction: the job and the attempt read at the claim. */
  datatype Flight = Flight(key: JobKey, attempt: nat)

  /**
   A worker on a run. A named worker holds or held the run's lease and passes its own name as owner
   token; an anonymous one was called without a token, and has neither lease nor heartbeat loop.
   `looping` says that a heartbeat loop is alive, `beatDue` that the loop has renewed the lease but not
   yet refreshed the run's jobs.
   */
  datatype Session = Session(
    runId: int,
    named: bool,
    renewedAt: int,
    looping: bool,
    beatDue: bool,
    flight: Option<Flight>)

  datatype Sys = Sys(now: int, db: Db, leases: map<int, Lease>, sessions: map<Token, Session>)

  datatype Event =
    | Tick(elapsed: nat)
    | Append(id: StepId, row: Step)
    | Acquire(w: Token, runId: int)
    | Attach(w: Token, runId: int)
    | Renew(w: Token)
    | Beat(w: Token)
    | Release(w: Token)
    | Quit(w: Token)
    | Claim(w: Token, id: StepId)
    | CloseInvalid(w: Token, id: StepId)
    | Finish(w: Token, outcome: Outcome)
    | Fail(w: Token)
    | Abandon(w: Token)
    | Sweep

  // ---- Leases ----

  predicate LeaseOpen(leases: map<int, Lease>, runId: int, w: Token, now: int) {
    runId !in leases || leases[runId].owner == w || leases[runId].expiresAt < now
  }

  function Granted(leases: map<int, Lease>, runId: int, w: Token, now: int): map<int, Lease> {
    leases[runId := Lease(w, now + LEASE_TTL)]
  }

  function Dropped(leases: map<int, Lease>, runId: int, w: Token): map<int, Lease> {
    if runId in leases && leases[runId].owner == w then leases - {runId} else leases
  }

  // ---- Transitions ----

  predicate InFlight(s: Sys, w: Token) {
    w in s.sessions && s.sessions[w].flight.Some?
  }

  function FlightOf(s: Sys, w: Token): Flight
    requires InFlight(s, w)
  {
    s.sessions[w].flight.value
  }

  /** The owner token the worker passes with its claims and completions. */
  function TokenOf(s: Sys, w: Token): Option<Token>
    requires w in s.sessions
  {
    if s.sessions[w].named then Some(w) else None
  }

  predicate CanTake(s: Sys, w: Token, i: StepId) {
    w in s.sessions && s.sessions[w].flight.None? &&
    i in s.db.steps && s.db.steps[i].status == StepPending && s.db.steps[i].runId == s.sessions[w].runId
  }

  predicate Enabled(s: Sys, e: Event) {
    match e
    case Tick(_) => true
    case Append(i, row) =>
      i !in s.db.steps && row.status != StepRunning && forall k | k in s.db.jobs :: k.stepId != i
    case Acquire(w, r) => w !in s.sessions && LeaseOpen(s.leases, r, w, s.now)
    case Attach(w, r) => w !in s.sessions
    case Renew(w) => w in s.sessions && s.sessions[w].looping && !s.sessions[w].beatDue
    case Beat(w) => w in s.sessions && s.sessions[w].looping && s.sessions[w].beatDue
    case Release(w) => w in s.sessions && s.sessions[w].named && s.sessions[w].flight.None?
    case Quit(w) => w in s.sessions
    case Claim(w, i) => CanTake(s, w, i) && ClaimTx(s.db, i, TokenOf(s, w), s.now).Some?
    case CloseInvalid(w, i) => CanTake(s, w, i)
    case Finish(w, o) =>
      InFlight(s, w) &&
      var f := FlightOf(s, w);
      f.key in s.db.jobs && f.key.stepId in s.db.steps &&
      FinishTx(s.db, f.key, TokenOf(s, w), f.attempt, o, s.now).Some?
    case Fail(w) => InFlight(s, w) && FlightOf(s, w).key in s.db.jobs
    case Abandon(w) => InFlight(s, w)
    case Sweep => true
  }

  function Landed(s: Sys, w: Token, db: Db): Sys
    requires w in s.sessions
  {
    s.(db := db, sessions := s.sessions[w := s.sessions[w].(flight := None)])
  }

  function Apply(s: Sys, e: Event): Sys
    requires Enabled(s, e)
  {
    match e
    case Tick(d) => s.(now := s.now + d)
    case Append(i, row) => s.(db := s.db.(steps := s.db.steps[i := row]))
    case Acquire(w, r) =>
      s.(leases := Granted(s.leases, r, w, s.now),
         sessions := s.sessions[w := Session(r, true, s.now, true, false, None)])
    case Attach(w, r) => s.(sessions := s.sessions[w := Session(r, false, s.now, false, false, None)])
    case Renew(w) =>
      var x := s.sessions[w];
      if LeaseOpen(s.leases, x.runId, w, s.now) then
        s.(leases := Granted(s.leases, x.runId, w, s.now),
           sessions := s.sessions[w := x.(renewedAt := s.now, beatDue := true)])
      else s.(sessions := s.sessions[w := x.(looping := false)])
    case Beat(w) =>
      var x := s.sessions[w];
      s.(db := BeatTx(s.db, x.runId, s.now), sessions := s.sessions[w := x.(beatDue := false)])
    case Release(w) => s.(leases := Dropped(s.leases, s.sessions[w].runId, w), sessions := s.sessions - {w})
    case Quit(w) => s.(sessions := s.sessions - {w})
    case Claim(w, i) =>
      var k := KeyOf(i, s.db.steps[i]);
      s.(db := ClaimTx(s.db, i, TokenOf(s, w), s.now).value,
         sessions := s.sessions[w := s.sessions[w].(flight := Some(Flight(k, JobFor(s.db, k).attempt + 1)))])
    case CloseInvalid(w, i) => s.(db := InvalidTx(s.db, i, s.now))
    case Finish(w, o) =>
      var f := FlightOf(s, w);
      Landed(s, w, FinishTx(s.db, f.key, TokenOf(s, w), f.attempt, o, s.now).value)
    case Fail(w) => Landed(s, w, HandlerTx(s.db, FlightOf(s, w).key, s.now))
    case Abandon(w) => Landed(s, w, s.db)
    case Sweep => s.(db := SweepTx(s.db, s.now, STALE_AFTER))
  }

  ghost predicate Init(s: Sys) {
    s.db == Db(map[], map[]) && s.leases == map[] && s.sessions == map[]
  }

  /** States interleaved with the events that led from each to the next. */
  ghost predicate Steps(ss: seq<Sys>, es: seq<Event>) {
    && |ss| == |es| + 1
    && forall i | 0 <= i < |es| :: Enabled(ss[i], es[i]) && ss[i + 1] == Apply(ss[i], es[i])
  }

  /** A finite execution from an empty system. */
  ghost predicate Behaviour(ss: seq<Sys>, es: seq<Event>) {
    Steps(ss, es) && Init(ss[0])
  }

  // ---- What every transaction keeps ----

  ghost predicate JobOk(job: Job) {
    job.status == JobRunning ==> job.attempt > 0 && job.heartbeatAt.Some?
  }

  /**
   A named worker that still owns the row holds the row's attempt number, so its own copy decides retries
   correctly.
   */
  ghost predicate FlightOk(s: Sys, w: Token)
    requires InFlight(s, w)
  {
    var f := FlightOf(s, w);
    && f.key in s.db.jobs && s.db.jobs[f.key].attempt > 0
    && f.key.runId == s.sessions[w].runId
    && (s.sessions[w].named && s.db.jobs[f.key].owner == Some(w) ==> s.db.jobs[f.key].attempt == f.attempt)
  }

  ghost predicate DbOk(db: Db) {
    KeysMatch(db) && forall k | k in db.jobs :: JobOk(db.jobs[k])
  }

  /** What holds in every behaviour, whoever takes part. */
  ghost predicate Inv(s: Sys) {
    DbOk(s.db) && forall w | InFlight(s, w) :: FlightOk(s, w)
  }

  lemma SweepKeepsDb(db: Db, now: int, staleAfter: int)
    requires DbOk(db)
    ensures DbOk(SweepTx(db, now, staleAfter))
  {
    var mid := SweepJobs(db, Cutoff(now, staleAfter), now);
    assert DbOk(mid);
  }

  lemma FinishKeepsDb(s: Sys, w: Token, o: Outcome)
    requires Inv(s) && Enabled(s, Finish(w, o))
    ensures DbOk(Apply(s, Finish(w, o)).db)
  {
    assert FlightOk(s, w);
  }

  lemma ClaimKeepsDb(s: Sys, w: Token, i: StepId)
    requires Inv(s) && Enabled(s, Claim(w, i))
    ensures DbOk(Apply(s, Claim(w, i)).db)
  {
  }

  lemma HandlerKeepsDb(s: Sys, w: Token)
    requires Inv(s) && Enabled(s, Fail(w))
    ensures DbOk(Apply(s, Fail(w)).db)
  {
    assert FlightOk(s, w);
  }

  lemma DbOkStep(s: Sys, e: Event)
    requires Inv(s) && Enabled(s, e)
    ensures DbOk(Apply(s, e).db)
  {
    match e
    case Claim(w, i) => ClaimKeepsDb(s, w, i);
    case Finish(w, o) => FinishKeepsDb(s, w, o);
    case Fail(w) => HandlerKeepsDb(s, w);
    case Sweep => SweepKeepsDb(s.db, s.now, STALE_AFTER);
    case _ =>
  }

  /** The event hands job k to a worker. */
  predicate Claims(s: Sys, e: Event, k: JobKey)
    requires Enabled(s, e)
  {
    e.Claim? && KeyOf(e.id, s.db.steps[e.id]) == k
  }

  /** The event is the failure handler of a worker in flight on job k. */
  predicate FailsJob(s: Sys, e: Event, k: JobKey)
    requires Enabled(s, e)
  {
    e.Fail? && FlightOf(s, e.w).key == k
  }

  /** The event completes job k with a result. */
  predicate Finishes(s: Sys, e: Event, k: JobKey)
    requires Enabled(s, e)
  {
    e.Finish? && FlightOf(s, e.w).key == k
  }

  /** What an event can do to a job row: only a claim changes owner and attempt, and rows never disappear. */
  lemma RowStep(s: Sys, e: Event, k: JobKey)
    requires Enabled(s, e) && k in s.db.jobs
    ensures k in Apply(s, e).db.jobs
    ensures var job, next := s.db.jobs[k], Apply(s, e).db.jobs[k];
            if Claims(s, e, k)
            then Claimable(job.status) && next.owner == TokenOf(s, e.w) && next.attempt == job.attempt + 1
            else next.owner == job.owner && next.attempt == job.attempt
  {
  }

  /** A terminal row keeps its status unless a result or a failure handler completes it again. */
  lemma TerminalRowStep(s: Sys, e: Event, k: JobKey)
    requires Enabled(s, e) && k in s.db.jobs && TerminalJob(s.db.jobs[k].status)
    ensures k in Apply(s, e).db.jobs && !Claims(s, e, k)
    ensures FailsJob(s, e, k) ==> Apply(s, e).db.jobs[k].status == JobFailed
    ensures !FailsJob(s, e, k) && !Finishes(s, e, k) ==> Apply(s, e).db.jobs[k].status == s.db.jobs[k].status
  {
  }

  /** A worker in flight after an event was so before it, unless the event is its claim. */
  lemma FlightKept(s: Sys, e: Event, w: Token)
    requires Enabled(s, e) && InFlight(Apply(s, e), w) && !(e.Claim? && e.w == w)
    ensures InFlight(s, w) && FlightOf(Apply(s, e), w) == FlightOf(s, w)
    ensures var x, y := s.sessions[w], Apply(s, e).sessions[w]; x.runId == y.runId && x.named == y.named
    ensures e.Claim? || e.Finish? || e.Fail? ==> e.w != w
  {
  }

  lemma OwnFlight(s: Sys, i: StepId, w: Token)
    requires Enabled(s, Claim(w, i))
    ensures FlightOk(Apply(s, Claim(w, i)), w)
  {
  }

  lemma FlightStep(s: Sys, e: Event, w: Token)
    requires Inv(s) && Enabled(s, e) && InFlight(Apply(s, e), w)
    ensures FlightOk(Apply(s, e), w)
  {
    if e.Claim? && e.w == w {
      OwnFlight(s, e.id, w);
    } else {
      FlightKept(s, e, w);
      assert FlightOk(s, w);
      RowStep(s, e, FlightOf(s, w).key);
    }
  }

  lemma InvStep(s: Sys, e: Event)
    requires Inv(s) && Enabled(s, e)
    ensures Inv(Apply(s, e))
  {
    DbOkStep(s, e);
    forall w | InFlight(Apply(s, e), w)
      ensures FlightOk(Apply(s, e), w)
    {
      FlightStep(s, e, w);
    }
  }

  lemma {:induction false} InvAt(ss: seq<Sys>, es: seq<Event>, n: nat)
    requires Behaviour(ss, es) && n < |ss|
    ensures Inv(ss[n])
  {
    if n == 0 {
    } else {
      InvAt(ss, es, n - 1);
      InvStep(ss[n - 1], es[n - 1]);
    }
  }

  // ---- Runs without anonymous workers ----

  /** A job within its attempt budget, whose claims all carried a token. */
  ghost predicate InBudget(job: Job) {
    && job.attempt <= MAX_RETRY_ATTEMPTS
    && (Claimable(job.status) ==> job.attempt < MAX_RETRY_ATTEMPTS)
    && (job.attempt > 0 ==> job.owner.Some?)
  }

  /** Every worker of run r is named, and every job of run r is within its budget. */
  ghost predicate Fenced(s: Sys, r: int) {
    && (forall w | w in s.sessions && s.sessions[w].runId == r :: s.sessions[w].named)
    && (forall k | k in s.db.jobs && k.runId == r :: InBudget(s.db.jobs[k]))
  }

  /** None of the first n events attaches an anonymous worker to run r. */
  ghost predicate NamedOn(es: seq<Event>, r: int, n: nat)
    requires n <= |es|
  {
    forall i | 0 <= i < n && es[i].Attach? :: es[i].runId != r
  }

  lemma BudgetFinish(s: Sys, w: Token, o: Outcome)
    requires Inv(s) && Enabled(s, Finish(w, o)) && s.sessions[w].named && InBudget(s.db.jobs[FlightOf(s, w).key])
    ensures InBudget(Apply(s, Finish(w, o)).db.jobs[FlightOf(s, w).key])
  {
    assert FlightOk(s, w);
  }

  lemma BudgetSweep(s: Sys, k: JobKey)
    requires k in s.db.jobs && InBudget(s.db.jobs[k])
    ensures k in Apply(s, Sweep).db.jobs && InBudget(Apply(s, Sweep).db.jobs[k])
  {
  }

  lemma BudgetQuiet(s: Sys, e: Event, k: JobKey)
    requires Enabled(s, e) && k in s.db.jobs && InBudget(s.db.jobs[k])
    requires !e.Sweep? && !Claims(s, e, k) && !Finishes(s, e, k)
    ensures k in Apply(s, e).db.jobs && InBudget(Apply(s, e).db.jobs[k])
  {
  }

  lemma BudgetStep(s: Sys, e: Event, k: JobKey)
    requires Inv(s) && Fenced(s, k.runId) && Enabled(s, e) && k in Apply(s, e).db.jobs
    ensures InBudget(Apply(s, e).db.jobs[k])
  {
    if k in s.db.jobs && e.Sweep? {
      BudgetSweep(s, k);
    } else if k in s.db.jobs && Finishes(s, e, k) {
      assert FlightOk(s, e.w);
      BudgetFinish(s, e.w, e.outcome);
    } else if k in s.db.jobs && !Claims(s, e, k) {
      BudgetQuiet(s, e, k);
    }
  }

  lemma NamedStep(s: Sys, e: Event, r: int, w: Token)
    requires Fenced(s, r) && Enabled(s, e) && !(e.Attach? && e.runId == r)
    requires w in Apply(s, e).sessions && Apply(s, e).sessions[w].runId == r
    ensures Apply(s, e).sessions[w].named
  {
  }

  lemma FencedStep(s: Sys, e: Event, r: int)
    requires Inv(s) && Fenced(s, r) && Enabled(s, e) && !(e.Attach? && e.runId == r)
    ensures Fenced(Apply(s, e), r)
  {
    var t := Apply(s, e);
    forall w | w in t.sessions && t.sessions[w].runId == r ensures t.sessions[w].named { NamedStep(s, e, r, w); }
    forall k | k in t.db.jobs && k.runId == r ensures InBudget(t.db.jobs[k]) { BudgetStep(s, e, k); }
  }

  lemma {:induction false} FencedAt(ss: seq<Sys>, es: seq<Event>, r: int, n: nat)
    requires Behaviour(ss, es) && n <= |es| && NamedOn(es, r, n)
    ensures Fenced(ss[n], r)
  {
    if n == 0 {
    } else {
      FencedAt(ss, es, r, n - 1);
      InvAt(ss, es, n - 1);
      FencedStep(ss[n - 1], es[n - 1], r);
    }
  }

  // ---- At most one committed success per job ----

  /** The event commits the job as SUCCEEDED. */
  predicate Commits(s: Sys, e: Event, k: JobKey)
    requires Enabled(s, e)
  {
    Finishes(s, e, k) && FinalJobStatus(e.outcome, FlightOf(s, e.w).attempt) == JobSucceeded
  }

  /** A job nobody can revive: it is terminal and the fence refuses every worker in flight on it. */
  ghost predicate Settled(s: Sys, k: JobKey) {
    && k in s.db.jobs && TerminalJob(s.db.jobs[k].status)
    && forall w | InFlight(s, w) && FlightOf(s, w).key == k :: OwnedByAnother(s.db.jobs[k].owner, TokenOf(s, w))
  }

  lemma CommitSettles(s: Sys, e: Event, k: JobKey)
    requires Inv(s) && Fenced(s, k.runId) && Enabled(s, e) && Commits(s, e, k)
    ensures Settled(Apply(s, e), k) && Apply(s, e).db.jobs[k].status == JobSucceeded
  {
    var t := Apply(s, e);
    assert FlightOk(s, e.w);
    RowStep(s, e, k);
    forall w | InFlight(t, w) && FlightOf(t, w).key == k
      ensures OwnedByAnother(t.db.jobs[k].owner, TokenOf(t, w))
    {
      FlightKept(s, e, w);
      assert FlightOk(s, w);
    }
  }

  /** The fence refuses every result for a settled job. */
  lemma SettledRefuses(s: Sys, e: Event, k: JobKey)
    requires Enabled(s, e) && Settled(s, k)
    ensures !Finishes(s, e, k)
  {
  }

  /** Nothing revives or recommits a settled job; only a failure handler can still change its status, to FAILED. */
  lemma SettledStep(s: Sys, e: Event, k: JobKey)
    requires Enabled(s, e) && Settled(s, k)
    ensures Settled(Apply(s, e), k) && !Commits(s, e, k) && !Claims(s, e, k)
    ensures Apply(s, e).db.jobs[k].status == if FailsJob(s, e, k) then JobFailed else s.db.jobs[k].status
  {
    var t := Apply(s, e);
    SettledRefuses(s, e, k);
    TerminalRowStep(s, e, k);
    RowStep(s, e, k);
    forall w | InFlight(t, w) && FlightOf(t, w).key == k
      ensures OwnedByAnother(t.db.jobs[k].owner, TokenOf(t, w))
    {
      if !(e.Claim? && e.w == w) {
        FlightKept(s, e, w);
      }
    }
  }

  /** Some failure handler of a worker in flight on job k ran among events m to n - 1. */
  ghost predicate HandlerRan(ss: seq<Sys>, es: seq<Event>, k: JobKey, m: nat, n: nat)
    requires Steps(ss, es) && n <= |es|
  {
    exists j | m <= j < n :: FailsJob(ss[j], es[j], k)
  }

  lemma {:induction false} SettledAt(ss: seq<Sys>, es: seq<Event>, k: JobKey, m: nat, n: nat)
    requires Steps(ss, es) && m <= n <= |es| && Settled(ss[m], k)
    ensures Settled(ss[n], k)
    ensures ss[n].db.jobs[k].status == if HandlerRan(ss, es, k, m, n) then JobFailed else ss[m].db.jobs[k].status
  {
    if m == n {
    } else {
      SettledAt(ss, es, k, m, n - 1);
      SettledStep(ss[n - 1], es[n - 1], k);
      assert HandlerRan(ss, es, k, m, n) <==> HandlerRan(ss, es, k, m, n - 1) || FailsJob(ss[n - 1], es[n - 1], k);
    }
  }

  /**
   In every interleaving, two different events never both commit the same job as SUCCEEDED, as long as no
   anonymous worker attaches to the job's run.
   */
  lemma AtMostOneSuccess(ss: seq<Sys>, es: seq<Event>, k: JobKey, m: nat, n: nat)
    requires Behaviour(ss, es) && m < |es| && n < |es| && NamedOn(es, k.runId, |es|)
    requires Commits(ss[m], es[m], k) && Commits(ss[n], es[n], k)
    ensures m == n
  {
    var a, b := if m <= n then m else n, if m <= n then n else m;
    if a < b {
      InvAt(ss, es, a);
      FencedAt(ss, es, k.runId, a);
      CommitSettles(ss[a], es[a], k);
      SettledAt(ss, es, k, a + 1, b);
      SettledStep(ss[b], es[b], k);
      assert false;
    }
  }

  /** As a trace: a committed success lasts exactly until a failure handler of a worker in flight on the job runs. */
  lemma SuccessLasts(ss: seq<Sys>, es: seq<Event>, k: JobKey, m: nat, n: nat)
    requires Behaviour(ss, es) && m < n <= |es| && NamedOn(es, k.runId, m) && Commits(ss[m], es[m], k)
    ensures k in ss[n].db.jobs
    ensures ss[n].db.jobs[k].status == JobSucceeded <==> !HandlerRan(ss, es, k, m + 1, n)
  {
    InvAt(ss, es, m);
    FencedAt(ss, es, k.runId, m);
    CommitSettles(ss[m], es[m], k);
    SettledAt(ss, es, k, m + 1, n);
  }

  /** Job k is SUCCEEDED after every continuation of s. */
  ghost predicate SucceededForGood(s: Sys, k: JobKey) {
    forall ss: seq<Sys>, es: seq<Event> | Steps(ss, es) && ss[0] == s ::
      k in ss[|es|].db.jobs && ss[|es|].db.jobs[k].status == JobSucceeded
  }

  /** No worker is in flight on job k. */
  ghost predicate Unattended(s: Sys, k: JobKey) {
    forall w | InFlight(s, w) :: FlightOf(s, w).key != k
  }

  lemma UnattendedStep(s: Sys, e: Event, k: JobKey)
    requires Enabled(s, e) && Settled(s, k) && Unattended(s, k)
    ensures Settled(Apply(s, e), k) && Unattended(Apply(s, e), k)
    ensures Apply(s, e).db.jobs[k].status == s.db.jobs[k].status
  {
    SettledStep(s, e, k);
    forall w | InFlight(Apply(s, e), w) ensures FlightOf(Apply(s, e), w).key != k {
      if !(e.Claim? && e.w == w) {
        FlightKept(s, e, w);
      }
    }
  }

  lemma {:induction false} UnattendedAt(ss: seq<Sys>, es: seq<Event>, k: JobKey, n: nat)
    requires Steps(ss, es) && n <= |es| && Settled(ss[0], k) && Unattended(ss[0], k)
    ensures Settled(ss[n], k) && Unattended(ss[n], k) && ss[n].db.jobs[k].status == ss[0].db.jobs[k].status
  {
    if n == 0 {
    } else {
      UnattendedAt(ss, es, k, n - 1);
      UnattendedStep(ss[n - 1], es[n - 1], k);
    }
  }

  /**
   From any state with job k SUCCEEDED: it stays so after every continuation if and only if no worker,
   named or not, is in flight on it.
   */
  lemma SuccessIsFinalExactly(s: Sys, k: JobKey)
    requires k in s.db.jobs && s.db.jobs[k].status == JobSucceeded
    ensures SucceededForGood(s, k) <==> Unattended(s, k)
  {
    if Unattended(s, k) {
      forall ss: seq<Sys>, es: seq<Event> | Steps(ss, es) && ss[0] == s
        ensures k in ss[|es|].db.jobs && ss[|es|].db.jobs[k].status == JobSucceeded
      {
        UnattendedAt(ss, es, k, |es|);
      }
    } else {
      var w :| InFlight(s, w) && FlightOf(s, w).key == k;
      var t := Apply(s, Fail(w));
      var ss, es := [s, t], [Fail(w)];
      assert Steps(ss, es) && ss[0] == s && ss[|es|] == t;
      assert t.db.jobs[k].status == JobFailed;
    }
  }

  // ---- Retry bound ----

  /** How often the first n events hand job k to an adapter. */
  ghost function AdapterRuns(ss: seq<Sys>, es: seq<Event>, k: JobKey, n: nat): nat
    requires Behaviour(ss, es) && n <= |es|
  {
    if n == 0 then 0
    else AdapterRuns(ss, es, k, n - 1) + if Claims(ss[n - 1], es[n - 1], k) then 1 else 0
  }

  lemma AttemptStep(s: Sys, e: Event, k: JobKey)
    requires Enabled(s, e)
    ensures JobFor(Apply(s, e).db, k).attempt == JobFor(s.db, k).attempt + if Claims(s, e, k) then 1 else 0
  {
    if k in s.db.jobs {
      RowStep(s, e, k);
    }
  }

  lemma {:induction false} RunsAreAttempts(ss: seq<Sys>, es: seq<Event>, k: JobKey, n: nat)
    requires Behaviour(ss, es) && n <= |es|
    ensures AdapterRuns(ss, es, k, n) == JobFor(ss[n].db, k).attempt
  {
    if n == 0 {
    } else {
      RunsAreAttempts(ss, es, k, n - 1);
      AttemptStep(ss[n - 1], es[n - 1], k);
    }
  }

  /**
   Without anonymous workers on its run, every reachable job has spent at most three attempts, a claimable
   one fewer, and each spent attempt is one adapter run.
   */
  lemma RetryBound(ss: seq<Sys>, es: seq<Event>, k: JobKey, n: nat)
    requires Behaviour(ss, es) && n <= |es| && NamedOn(es, k.runId, n)
    ensures AdapterRuns(ss, es, k, n) == JobFor(ss[n].db, k).attempt <= 3
    ensures k in ss[n].db.jobs && Claimable(ss[n].db.jobs[k].status) ==> ss[n].db.jobs[k].attempt < 3
  {
    RunsAreAttempts(ss, es, k, n);
    FencedAt(ss, es, k.runId, n);
  }
}
