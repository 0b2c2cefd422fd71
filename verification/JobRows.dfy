/**
 The step and job tables of the AI Lab, and each database transaction on them as a
 function from the tables before to the tables after. Timestamps are microseconds.
 */
module JobRows {
  import opened Basics

  type Token = string

  const MAX_RETRY_ATTEMPTS: nat := 3
  const STALE_AFTER: int := 300 * SECOND

  datatype JobStatus = JobQueued | JobRunning | JobRetryWait | JobSucceeded | JobFailed | JobStale | JobCancelled
  datatype StepStatus = StepPending | StepRunning | StepSucceeded | StepFailed | StepSkipped

  datatype StepId = StepId(n: int)

  /** The structured form of the idempotency key `ai-lab:<run>:<step>:<action>`. */
  datatype JobKey = JobKey(runId: int, stepId: StepId, action: string)

  datatype Job = Job(
    status: JobStatus,
    attempt: nat,
    owner: Option<Token>,
    startedAt: Option<int>,
    heartbeatAt: Option<int>,
    finishedAt: Option<int>)

  datatype Step = Step(
    runId: int,
    index: int,
    action: string,
    status: StepStatus,
    startedAt: Option<int>,
    finishedAt: Option<int>)

  datatype Db = Db(steps: map<StepId, Step>, jobs: map<JobKey, Job>)

  predicate Claimable(status: JobStatus) {
    status in {JobQueued, JobRetryWait, JobStale}
  }

  predicate TerminalJob(status: JobStatus) {
    status in {JobSucceeded, JobFailed, JobCancelled}
  }

  predicate TerminalStep(status: StepStatus) {
    status in {StepSucceeded, StepFailed, StepSkipped}
  }

  function KeyOf(i: StepId, step: Step): JobKey {
    JobKey(step.runId, i, step.action)
  }

  /** Every job row belongs to the step its key names. */
  ghost predicate KeysMatch(db: Db) {
    forall k | k in db.jobs :: k.stepId in db.steps && k == KeyOf(k.stepId, db.steps[k.stepId])
  }

  // ---- Adapter outcomes and the retry decision ----

  datatype ResultStatus = ResultSucceeded | ResultFailed | ResultInsufficientData

  /**
   What an adapter hands back once it is validated. `canonical` says that the raw status text was
   already trimmed and upper case; validation and the result row compare the normalised text,
   while the choice of the job's final status compares the raw text.
   */
  datatype Outcome = Outcome(status: ResultStatus, canonical: bool, error: Option<string>)

  const RETRYABLE_ERROR_MARKERS: set<string> := {
    "timeout", "timed out", "connection", "temporarily", "temporary", "429", "502", "503", "504",
    "rate limit", "deadlock", "too many connections", "service unavailable"
  }

  predicate IsRetryableError(error: Option<string>) {
    error.Some? &&
    var text := Lower(Strip(error.value));
    exists marker | marker in RETRYABLE_ERROR_MARKERS :: Contains(text, marker)
  }

  predicate ShouldRetry(error: Option<string>, attempt: nat) {
    attempt < MAX_RETRY_ATTEMPTS && IsRetryableError(error)
  }

  predicate Retries(o: Outcome, attempt: nat) {
    o.status == ResultFailed && ShouldRetry(o.error, attempt)
  }

  function FinalJobStatus(o: Outcome, attempt: nat): JobStatus {
    if Retries(o, attempt) then JobRetryWait
    else if o.canonical && o.status in {ResultSucceeded, ResultInsufficientData} then JobSucceeded
    else JobFailed
  }

  function FinalStepStatus(o: Outcome, attempt: nat): StepStatus {
    if Retries(o, attempt) then StepPending
    else if o.status == ResultSucceeded then StepSucceeded
    else if o.status == ResultFailed then StepFailed
    else StepSkipped
  }

  // ---- Transactions ----

  function NewJob(): Job {
    Job(JobQueued, 0, None, None, None, None)
  }

  function JobFor(db: Db, k: JobKey): Job {
    if k in db.jobs then db.jobs[k] else NewJob()
  }

  function Claimed(job: Job, token: Option<Token>, now: int): Job {
    Job(JobRunning, job.attempt + 1, token,
        if job.startedAt.None? then Some(now) else job.startedAt, Some(now), job.finishedAt)
  }

  /** Claim a pending step together with its job; the transaction rolls back when the job is not claimable. */
  function ClaimTx(db: Db, i: StepId, token: Option<Token>, now: int): Option<Db>
    requires i in db.steps && db.steps[i].status == StepPending
  {
    var step := db.steps[i];
    var k := KeyOf(i, step);
    var job := JobFor(db, k);
    if !Claimable(job.status) then None
    else Some(Db(db.steps[i := step.(status := StepRunning, startedAt := Some(now))],
                 db.jobs[k := Claimed(job, token, now)]))
  }

  /** Close a claimed step whose run, config or action is invalid; no job is touched. */
  function InvalidTx(db: Db, i: StepId, now: int): Db
    requires i in db.steps
  {
    db.(steps := db.steps[i := db.steps[i].(status := StepFailed, startedAt := Some(now), finishedAt := Some(now))])
  }

  predicate OwnedByAnother(owner: Option<Token>, token: Option<Token>) {
    token.Some? && owner != None && owner != token
  }

  function Completed(job: Job, status: JobStatus, now: int): Job {
    job.(status := status, finishedAt := if status == JobRetryWait then None else Some(now), heartbeatAt := Some(now))
  }

  function Recorded(step: Step, o: Outcome, attempt: nat, now: int): Step {
    step.(status := FinalStepStatus(o, attempt), finishedAt := if Retries(o, attempt) then None else Some(now))
  }

  /** Record a result and complete the job in one transaction; the owner-token fence rolls it back. */
  function FinishTx(db: Db, k: JobKey, token: Option<Token>, attempt: nat, o: Outcome, now: int): Option<Db>
    requires k in db.jobs && k.stepId in db.steps
  {
    if OwnedByAnother(db.jobs[k].owner, token) then None
    else Some(Db(db.steps[k.stepId := Recorded(db.steps[k.stepId], o, attempt, now)],
                 db.jobs[k := Completed(db.jobs[k], FinalJobStatus(o, attempt), now)]))
  }

  /** The failure handler: completes as FAILED and passes no owner token, so no fence applies. */
  function HandlerTx(db: Db, k: JobKey, now: int): Db
    requires k in db.jobs
  {
    db.(jobs := db.jobs[k := Completed(db.jobs[k], JobFailed, now)])
  }

  /** One turn of the heartbeat loop: every running job of the run, whoever owns it. */
  function BeatTx(db: Db, runId: int, now: int): Db {
    db.(jobs := map k | k in db.jobs ::
                  if k.runId == runId && db.jobs[k].status == JobRunning
                  then db.jobs[k].(heartbeatAt := Some(now)) else db.jobs[k])
  }

  // ---- Recovery of stale jobs ----

  predicate Before(t: Option<int>, cutoff: int) {
    t.Some? && t.value < cutoff
  }

  predicate Silent(job: Job, cutoff: int) {
    job.status == JobRunning &&
    (Before(job.heartbeatAt, cutoff) || (job.heartbeatAt.None? && Before(job.startedAt, cutoff)))
  }

  function SweptJob(job: Job, cutoff: int): Job {
    if !Silent(job, cutoff) then job
    else if job.attempt >= MAX_RETRY_ATTEMPTS then job.(status := JobFailed)
    else job.(status := JobStale)
  }

  /** A running step follows its silent job: failed when the budget is spent, pending otherwise. */
  function FollowedStep(step: Step, job: Job, cutoff: int, now: int): Step {
    if !Silent(job, cutoff) || step.status != StepRunning then step
    else if job.attempt >= MAX_RETRY_ATTEMPTS then step.(status := StepFailed, finishedAt := Some(now))
    else step.(status := StepPending, finishedAt := None)
  }

  function SweepJobs(db: Db, cutoff: int, now: int): Db {
    Db(map i | i in db.steps ::
         var k := KeyOf(i, db.steps[i]);
         if k in db.jobs then FollowedStep(db.steps[i], db.jobs[k], cutoff, now) else db.steps[i],
       map k | k in db.jobs :: SweptJob(db.jobs[k], cutoff))
  }

  /** A step started long ago, still running, without a running job whose heartbeat is recent. */
  predicate Orphan(db: Db, i: StepId, cutoff: int)
    requires i in db.steps
  {
    db.steps[i].status == StepRunning && Before(db.steps[i].startedAt, cutoff) &&
    !exists k | k in db.jobs :: k.stepId == i && LiveJob(db.jobs[k], cutoff)
  }

  predicate LiveJob(job: Job, cutoff: int) {
    job.status == JobRunning && job.heartbeatAt.Some? && job.heartbeatAt.value >= cutoff
  }

  function Reopened(step: Step): Step {
    step.(status := StepPending, finishedAt := None)
  }

  function SweepOrphans(db: Db, cutoff: int): Db {
    db.(steps := map i | i in db.steps ::
                   if Orphan(db, i, cutoff) then Reopened(db.steps[i]) else db.steps[i])
  }

  function Cutoff(now: int, staleAfter: int): int {
    now - staleAfter
  }

  function SweepTx(db: Db, now: int, staleAfter: int): Db {
    SweepOrphans(SweepJobs(db, Cutoff(now, staleAfter), now), Cutoff(now, staleAfter))
  }
}
