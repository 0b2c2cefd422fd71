/** The step and job tables as workers change them: row by row, inside transactions that may roll back. */
module JobStore {
  import opened Basics
  import opened JobRows

  class Store {
    var db: Db

    /** The status of each run. */
    var runs: map<int, string>

    constructor (runs: map<int, string>)
      ensures db == Db(map[], map[]) && this.runs == runs
    {
      db := Db(map[], map[]);
      this.runs := runs;
    }

    method PutStep(i: StepId, step: Step)
      modifies `db
      ensures db == old(db).(steps := old(db).steps[i := step])
    {
      db := db.(steps := db.steps[i := step]);
    }

    method PutJob(k: JobKey, job: Job)
      modifies `db
      ensures db == old(db).(jobs := old(db).jobs[k := job])
    {
      db := db.(jobs := db.jobs[k := job]);
    }

    /** The pending step of the run with the lowest index, skipping rows that others hold locked. */
    method FirstWaiting(runId: int, locked: set<StepId>) returns (id: Option<StepId>)
      ensures FirstOf(db, runId, locked, id)
    {
      var todo := set i | i in db.steps && i !in locked && Waiting(db.steps[i], runId);
      ghost var all := todo;
      id := None;
      while todo != {}
        invariant todo <= all <= db.steps.Keys
        invariant id.None? ==> todo == all
        invariant id.Some? ==>
                    id.value in all && forall i | i in all - todo :: db.steps[id.value].index <= db.steps[i].index
      {
        var i :| i in todo;
        if id.None? || db.steps[i].index < db.steps[id.value].index {
          id := Some(i);
        }
        todo := todo - {i};
      }
      assert forall i | i in db.steps && i !in locked && Waiting(db.steps[i], runId) :: i in all;
    }

    /**
     Take the next step of a run. Raises, changing nothing, for a run that does not exist and for a step
     whose action the run may not perform; the first claim of a planned run sets it running.
     */
    method ClaimNextStep(runId: int, locked: set<StepId>, allowed: string -> bool, now: int)
      returns (r: Result<Option<StepId>>)
      modifies this
      ensures r.Err? ==> db == old(db) && runs == old(runs)
      ensures r.Err? && runId in old(runs) ==>
                exists i :: FirstOf(old(db), runId, locked, Some(i)) && !allowed(ActionOf(old(db).steps[i]))
      ensures r.Ok? ==> runId in old(runs) && FirstOf(old(db), runId, locked, r.value)
      ensures r == Ok(None) ==> db == old(db) && runs == old(runs)
      ensures r.Ok? && r.value.Some? ==>
                && allowed(ActionOf(old(db).steps[r.value.value]))
                && db == Started(old(db), r.value.value, now)
                && runs == Entered(old(runs), runId)
                && (old(runs)[runId] == "PLANNING" ==> runs == old(runs)[runId := "RUNNING"])
                && (old(runs)[runId] != "PLANNING" ==> runs == old(runs))
                && var step := old(db).steps[r.value.value];
                   && (step.action == "" ==> allowed("CLAIM_STEP")) && (step.action != "" ==> allowed(step.action))
                   && db == old(db).(steps :=
                              old(db).steps[r.value.value := step.(status := StepRunning, startedAt := Some(now))])
    {
      if runId !in runs {
        return Err("run not found");
      }
      var id := FirstWaiting(runId, locked);
      if id.Some? {
        if !allowed(ActionOf(db.steps[id.value])) {
          return Err("not allowed");
        }
        PutStep(id.value, db.steps[id.value].(status := StepRunning, startedAt := Some(now)));
        if runs[runId] == "PLANNING" {
          runs := runs[runId := "RUNNING"];
        }
      }
      return Ok(id);
    }

    /** Find or insert the job of a key. */
    method EnsureJob(k: JobKey) returns (job: Job)
      modifies `db
      ensures job == JobFor(old(db), k)
      ensures db == old(db).(jobs := old(db).jobs[k := job])
    {
      if k !in db.jobs {
        PutJob(k, NewJob());
      }
      job := db.jobs[k];
    }

    method ClaimJob(k: JobKey, token: Option<Token>, now: int) returns (claimed: bool)
      modifies `db
      ensures claimed <==> k in old(db).jobs && Claimable(old(db).jobs[k].status)
      ensures db == if claimed
                    then old(db).(jobs := old(db).jobs[k := Claimed(old(db).jobs[k], token, now)]) else old(db)
    {
      claimed := k in db.jobs && Claimable(db.jobs[k].status);
      if claimed {
        PutJob(k, Claimed(db.jobs[k], token, now));
      }
    }

    /** Completing checks the owner token, but not the current status. */
    method CompleteJob(k: JobKey, status: JobStatus, token: Option<Token>, now: int) returns (r: Result<Job>)
      modifies `db
      ensures r.Ok? <==> k in old(db).jobs && !OwnedByAnother(old(db).jobs[k].owner, token)
                         && (TerminalJob(status) || status == JobRetryWait)
      ensures r.Ok? ==> r.value == Completed(old(db).jobs[k], status, now)
                        && db == old(db).(jobs := old(db).jobs[k := r.value])
      ensures r.Err? ==> db == old(db)
    {
      if k !in db.jobs {
        return Err("job not found");
      }
      if OwnedByAnother(db.jobs[k].owner, token) {
        return Err("job is owned by another worker");
      }
      if !TerminalJob(status) && status != JobRetryWait {
        return Err("unsupported terminal job status");
      }
      PutJob(k, Completed(db.jobs[k], status, now));
      r := Ok(db.jobs[k]);
    }

    method HeartbeatJob(k: JobKey, token: Option<Token>, now: int) returns (r: Result<Job>)
      modifies `db
      ensures r.Ok? <==> k in old(db).jobs && old(db).jobs[k].status == JobRunning
                         && (token.None? || old(db).jobs[k].owner == token)
      ensures r.Ok? ==> r.value == old(db).jobs[k].(heartbeatAt := Some(now))
                        && db == old(db).(jobs := old(db).jobs[k := r.value])
      ensures r.Err? ==> db == old(db)
    {
      if k !in db.jobs || db.jobs[k].status != JobRunning {
        return Err("job is not running");
      }
      if token.Some? && db.jobs[k].owner != token {
        return Err("job is owned by another worker");
      }
      PutJob(k, db.jobs[k].(heartbeatAt := Some(now)));
      r := Ok(db.jobs[k]);
    }

    /**
     The transaction before the adapter runs. Its effect is a claim, the closing of a step with invalid
     inputs, or nothing at all: a step whose job is not claimable goes back to pending with the rollback,
     and so does the run.
     */
    method BeginStep(runId: int, locked: set<StepId>, allowed: string -> bool, token: Option<Token>,
                     inputsValid: bool, now: int)
      returns (id: Option<StepId>, claimed: Option<(JobKey, nat)>)
      modifies this
      ensures id.None? ==> db == old(db) && runs == old(runs) && claimed.None?
      ensures id.None? ==>
                || runId !in old(runs) || FirstOf(old(db), runId, locked, None)
                || exists i :: FirstOf(old(db), runId, locked, Some(i)) && !allowed(ActionOf(old(db).steps[i]))
      ensures id.Some? ==>
                runId in old(runs) && FirstOf(old(db), runId, locked, id) && allowed(ActionOf(old(db).steps[id.value]))
      ensures id.Some? && !inputsValid ==>
                claimed.None? && db == InvalidTx(old(db), id.value, now) && runs == Entered(old(runs), runId)
      ensures id.Some? && inputsValid ==>
                var tx := ClaimTx(old(db), id.value, token, now);
                && db == (if tx.Some? then tx.value else old(db))
                && runs == (if tx.Some? then Entered(old(runs), runId) else old(runs))
                && claimed == (if tx.None? then None else
                                 var k := KeyOf(id.value, old(db).steps[id.value]);
                                 Some((k, JobFor(old(db), k).attempt + 1)))
    {
      var savedDb, savedRuns := db, runs;
      id, claimed := None, None;
      var next := ClaimNextStep(runId, locked, allowed, now);
      if next.Ok? && next.value.Some? {
        id := next.value;
        if !inputsValid {
          PutStep(id.value, db.steps[id.value].(status := StepFailed, finishedAt := Some(now)));
          return;
        }
        claimed := ClaimStepJob(KeyOf(id.value, db.steps[id.value]), token, now);
        if claimed.None? {
          db, runs := savedDb, savedRuns;
        }
      }
    }

    /** Find or insert the step's job and claim it; without a claim the caller rolls back. */
    method ClaimStepJob(k: JobKey, token: Option<Token>, now: int) returns (claimed: Option<(JobKey, nat)>)
      modifies `db
      ensures var job := JobFor(old(db), k);
              && claimed == (if Claimable(job.status) then Some((k, job.attempt + 1)) else None)
              && (claimed.Some? ==> db == old(db).(jobs := old(db).jobs[k := Claimed(job, token, now)]))
    {
      var job := EnsureJob(k);
      var ok := false;
      if !TerminalJob(job.status) {
        ok := ClaimJob(k, token, now);
      }
      claimed := if ok then Some((k, db.jobs[k].attempt)) else None;
    }

    /**
     The transaction after the adapter: record the result, complete the job under the fence, reopen the step
     on a retry.
     */
    method CommitResult(k: JobKey, attempt: nat, token: Option<Token>, o: Outcome, now: int) returns (committed: bool)
      requires k in db.jobs && k.stepId in db.steps
      modifies `db
      ensures committed == FinishTx(old(db), k, token, attempt, o, now).Some?
      ensures db == if committed then FinishTx(old(db), k, token, attempt, o, now).value else old(db)
    {
      var saved := db;
      var closing := if o.status == ResultSucceeded then StepSucceeded
                     else if o.status == ResultFailed then StepFailed else StepSkipped;
      PutStep(k.stepId, db.steps[k.stepId].(status := closing, finishedAt := Some(now)));
      var retryable := o.status == ResultFailed && ShouldRetry(o.error, attempt);
      var status := if retryable then JobRetryWait
                    else if o.canonical && o.status in {ResultSucceeded, ResultInsufficientData} then JobSucceeded
                    else JobFailed;
      var r := CompleteJob(k, status, token, now);
      committed := r.Ok?;
      if !committed {
        db := saved;
      } else if retryable {
        PutStep(k.stepId, Reopened(db.steps[k.stepId]));
      }
    }

    /** The failure handler, after the roll-back: complete as FAILED with no owner token. */
    method HandleFailure(k: JobKey, now: int)
      modifies `db
      ensures db == if k in old(db).jobs then HandlerTx(old(db), k, now) else old(db)
    {
      var r := CompleteJob(k, JobFailed, None, now);
    }

    /** One turn of a heartbeat loop: refresh every running job of the run. */
    method BeatRun(runId: int, now: int)
      modifies `db
      ensures db == BeatTx(old(db), runId, now)
    {
      var rows := set k | k in db.jobs && k.runId == runId && db.jobs[k].status == JobRunning;
      ghost var target := BeatTx(db, runId, now);
      while rows != {}
        invariant rows <= db.jobs.Keys == old(db).jobs.Keys && db.steps == old(db).steps
        invariant forall k | k in rows :: k.runId == runId && old(db).jobs[k].status == JobRunning
        invariant forall k | k in db.jobs :: db.jobs[k] == if k in rows then old(db).jobs[k] else target.jobs[k]
      {
        var k :| k in rows;
        PutJob(k, db.jobs[k].(heartbeatAt := Some(now)));
        rows := rows - {k};
      }
      assert db.jobs == target.jobs;
    }

    /** The sweep: silent jobs one row at a time with their steps, then orphaned steps one at a time. */
    method RecoverStaleJobs(now: int, staleAfter: int) returns (recovered: nat)
      requires KeysMatch(db)
      modifies `db
      ensures db == SweepTx(old(db), now, staleAfter)
      ensures recovered == Recoveries(old(db), now, staleAfter)
    {
      var cutoff := Cutoff(now, staleAfter);
      ghost var start := db;
      var jobsPass := SweepSilentJobs(cutoff, now);
      ghost var mid := db;
      var stepsPass := SweepOrphanSteps(cutoff);
      recovered := jobsPass + stepsPass;
      PassesAddUp(start, mid, db, jobsPass, stepsPass, cutoff, now, staleAfter);
    }

    method SweepSilentJobs(cutoff: int, now: int) returns (recovered: nat)
      requires KeysMatch(db)
      modifies `db
      ensures db == SweepJobs(old(db), cutoff, now)
      ensures recovered == |Followed(old(db), cutoff)|
    {
      var rows := set k | k in db.jobs && Silent(db.jobs[k], cutoff);
      ghost var start := db;
      JobsStart(start, rows, cutoff, now);
      recovered := 0;
      while rows != {}
        invariant JobsMidway(start, db, rows, recovered, cutoff, now)
      {
        var k :| k in rows;
        JobsStep(start, db, rows, recovered, cutoff, now, k);
        var moved := RecoverRow(k, cutoff, now);
        recovered := recovered + if moved then 1 else 0;
        rows := rows - {k};
      }
      JobsEnd(start, db, recovered, cutoff, now);
    }

    method RecoverRow(k: JobKey, cutoff: int, now: int) returns (moved: bool)
      requires k in db.jobs && k.stepId in db.steps && Silent(db.jobs[k], cutoff)
      modifies `db
      ensures db == Db(old(db).steps[k.stepId := FollowedStep(old(db).steps[k.stepId], old(db).jobs[k], cutoff, now)],
                       old(db).jobs[k := SweptJob(old(db).jobs[k], cutoff)])
      ensures moved == (old(db).steps[k.stepId].status == StepRunning)
    {
      var i, step := k.stepId, db.steps[k.stepId];
      moved := step.status == StepRunning;
      if db.jobs[k].attempt >= MAX_RETRY_ATTEMPTS {
        PutJob(k, db.jobs[k].(status := JobFailed));
        if moved {
          step := step.(status := StepFailed, finishedAt := Some(now));
        }
      } else {
        PutJob(k, db.jobs[k].(status := JobStale));
        if moved {
          step := Reopened(step);
        }
      }
      PutStep(i, step);
    }

    method SweepOrphanSteps(cutoff: int) returns (recovered: nat)
      modifies `db
      ensures db == SweepOrphans(old(db), cutoff)
      ensures recovered == |Orphans(old(db), cutoff)|
    {
      var rows := set i | i in db.steps && db.steps[i].status == StepRunning && Before(db.steps[i].startedAt, cutoff);
      ghost var start := db;
      StepsStart(start, rows, cutoff);
      recovered := 0;
      while rows != {}
        invariant StepsMidway(start, db, rows, recovered, cutoff)
      {
        var i :| i in rows;
        StepsStep(start, db, rows, recovered, cutoff, i);
        var live := exists k | k in db.jobs :: k.stepId == i && LiveJob(db.jobs[k], cutoff);
        if !live {
          PutStep(i, Reopened(db.steps[i]));
          recovered := recovered + 1;
        }
        rows := rows - {i};
      }
      StepsEnd(start, db, recovered, cutoff);
    }
  }

  /** The silent jobs whose step is running, and so moves with them. */
  ghost function Followed(db: Db, cutoff: int): set<JobKey> {
    set k | k in db.jobs && Silent(db.jobs[k], cutoff)
            && k.stepId in db.steps && db.steps[k.stepId].status == StepRunning
  }

  /** How many steps the sweep moves: those that follow a silent job, and the orphans left after that. */
  ghost function Recoveries(db: Db, now: int, staleAfter: int): nat {
    var cutoff := Cutoff(now, staleAfter);
    |Followed(db, cutoff)| + |Orphans(SweepJobs(db, cutoff, now), cutoff)|
  }

  ghost function Orphans(db: Db, cutoff: int): set<StepId> {
    set i | i in db.steps && Orphan(db, i, cutoff)
  }

  predicate Waiting(step: Step, runId: int) {
    step.runId == runId && step.status == StepPending
  }

  /** The step to claim next: waiting, not locked and of least index; none exactly when no step is. */
  ghost predicate FirstOf(db: Db, runId: int, locked: set<StepId>, id: Option<StepId>) {
    match id
    case None => forall i | i in db.steps && i !in locked :: !Waiting(db.steps[i], runId)
    case Some(first) =>
      && first in db.steps && first !in locked && Waiting(db.steps[first], runId)
      && forall i | i in db.steps && i !in locked && Waiting(db.steps[i], runId) ::
           db.steps[first].index <= db.steps[i].index
  }

  /** The action a claim must be allowed; a step without one counts as a plain claim. */
  function ActionOf(step: Step): string {
    if step.action == "" then "CLAIM_STEP" else step.action
  }

  /** The runs once a step of this one is claimed. */
  function Entered(runs: map<int, string>, runId: int): map<int, string>
    requires runId in runs
  {
    if runs[runId] == "PLANNING" then runs[runId := "RUNNING"] else runs
  }

  function Started(db: Db, i: StepId, now: int): Db
    requires i in db.steps
  {
    db.(steps := db.steps[i := db.steps[i].(status := StepRunning, startedAt := Some(now))])
  }

  // ---- Partial sweeps, for the loop that does them row by row ----

  /** The tables once the silent jobs in `done` have been recovered. */
  ghost function SweepSome(db: Db, done: set<JobKey>, cutoff: int, now: int): Db {
    Db(map i | i in db.steps ::
         var k := KeyOf(i, db.steps[i]);
         if k in db.jobs && k in done then FollowedStep(db.steps[i], db.jobs[k], cutoff, now) else db.steps[i],
       map k | k in db.jobs :: if k in done then SweptJob(db.jobs[k], cutoff) else db.jobs[k])
  }

  /** The two passes, with what each counted, make one sweep. */
  lemma PassesAddUp(start: Db, mid: Db, end: Db, jobsPass: nat, stepsPass: nat, cutoff: int, now: int, staleAfter: int)
    requires cutoff == Cutoff(now, staleAfter)
    requires mid == SweepJobs(start, cutoff, now) && jobsPass == |Followed(start, cutoff)|
    requires end == SweepOrphans(mid, cutoff) && stepsPass == |Orphans(mid, cutoff)|
    ensures end == SweepTx(start, now, staleAfter) && jobsPass + stepsPass == Recoveries(start, now, staleAfter)
  {
  }

  lemma SweepNone(db: Db, cutoff: int, now: int)
    ensures SweepSome(db, {}, cutoff, now) == db
  {
    assert SweepSome(db, {}, cutoff, now).steps == db.steps;
    assert SweepSome(db, {}, cutoff, now).jobs == db.jobs;
  }

  lemma SweepOneMore(db: Db, done: set<JobKey>, k: JobKey, cutoff: int, now: int)
    requires KeysMatch(db) && k in db.jobs && k !in done
    ensures var before, after := SweepSome(db, done, cutoff, now), SweepSome(db, done + {k}, cutoff, now);
            && before.jobs[k] == db.jobs[k] && before.steps[k.stepId] == db.steps[k.stepId]
            && after.jobs == before.jobs[k := SweptJob(db.jobs[k], cutoff)]
            && after.steps == before.steps[k.stepId := FollowedStep(db.steps[k.stepId], db.jobs[k], cutoff, now)]
  {
  }

  lemma SweepAll(db: Db, done: set<JobKey>, cutoff: int, now: int)
    requires done == set k | k in db.jobs && Silent(db.jobs[k], cutoff)
    ensures SweepSome(db, done, cutoff, now) == SweepJobs(db, cutoff, now)
  {
    assert SweepSome(db, done, cutoff, now).steps == SweepJobs(db, cutoff, now).steps;
    assert SweepSome(db, done, cutoff, now).jobs == SweepJobs(db, cutoff, now).jobs;
  }

  // ---- The two loops of the sweep ----

  ghost function SilentKeys(db: Db, cutoff: int): set<JobKey> {
    set k | k in db.jobs && Silent(db.jobs[k], cutoff)
  }

  /** The state of the first loop while the silent jobs in rows are still to come. */
  ghost predicate JobsMidway(start: Db, db: Db, rows: set<JobKey>, recovered: nat, cutoff: int, now: int) {
    && KeysMatch(start) && rows <= SilentKeys(start, cutoff)
    && db == SweepSome(start, SilentKeys(start, cutoff) - rows, cutoff, now)
    && recovered == |Followed(start, cutoff) - rows|
  }

  lemma JobsStart(db: Db, rows: set<JobKey>, cutoff: int, now: int)
    requires KeysMatch(db) && rows == SilentKeys(db, cutoff)
    ensures JobsMidway(db, db, rows, 0, cutoff, now)
  {
    SweepNone(db, cutoff, now);
    assert Followed(db, cutoff) - rows == {} && rows - rows == {};
  }

  lemma JobsStep(start: Db, db: Db, rows: set<JobKey>, recovered: nat, cutoff: int, now: int, k: JobKey)
    requires JobsMidway(start, db, rows, recovered, cutoff, now) && k in rows
    ensures k in db.jobs && k.stepId in db.steps && Silent(db.jobs[k], cutoff)
    ensures JobsMidway(start,
                       Db(db.steps[k.stepId := FollowedStep(db.steps[k.stepId], db.jobs[k], cutoff, now)],
                          db.jobs[k := SweptJob(db.jobs[k], cutoff)]),
                       rows - {k}, recovered + (if db.steps[k.stepId].status == StepRunning then 1 else 0), cutoff, now)
  {
    var done := SilentKeys(start, cutoff) - rows;
    SweepOneMore(start, done, k, cutoff, now);
    assert SilentKeys(start, cutoff) - (rows - {k}) == done + {k};
    CountsOneMore(Followed(start, cutoff), rows, k);
  }

  lemma JobsEnd(start: Db, db: Db, recovered: nat, cutoff: int, now: int)
    requires JobsMidway(start, db, {}, recovered, cutoff, now)
    ensures db == SweepJobs(start, cutoff, now) && recovered == |Followed(start, cutoff)|
  {
    assert SilentKeys(start, cutoff) - {} == SilentKeys(start, cutoff);
    assert Followed(start, cutoff) - {} == Followed(start, cutoff);
    SweepAll(start, SilentKeys(start, cutoff), cutoff, now);
  }

  lemma CountsOneMore<T>(wanted: set<T>, rows: set<T>, x: T)
    requires x in rows
    ensures |wanted - (rows - {x})| == |wanted - rows| + if x in wanted then 1 else 0
  {
    if x in wanted {
      assert wanted - (rows - {x}) == wanted - rows + {x};
    } else {
      assert wanted - (rows - {x}) == wanted - rows;
    }
  }

  /** The state of the second loop while the steps in rows are still to come. */
  ghost predicate StepsMidway(start: Db, db: Db, rows: set<StepId>, recovered: nat, cutoff: int) {
    && rows <= LongRunning(start, cutoff) && db == ReopenSome(start, Orphans(start, cutoff) - rows)
    && recovered == |Orphans(start, cutoff) - rows|
  }

  /** The running steps that started before the cutoff. */
  ghost function LongRunning(db: Db, cutoff: int): set<StepId> {
    set i | i in db.steps && db.steps[i].status == StepRunning && Before(db.steps[i].startedAt, cutoff)
  }

  ghost function ReopenSome(db: Db, done: set<StepId>): Db {
    db.(steps := map i | i in db.steps :: if i in done then Reopened(db.steps[i]) else db.steps[i])
  }

  lemma StepsStart(db: Db, rows: set<StepId>, cutoff: int)
    requires rows == LongRunning(db, cutoff)
    ensures StepsMidway(db, db, rows, 0, cutoff)
  {
    assert Orphans(db, cutoff) - rows == {};
    assert ReopenSome(db, {}).steps == db.steps;
  }

  lemma StepsStep(start: Db, db: Db, rows: set<StepId>, recovered: nat, cutoff: int, i: StepId)
    requires StepsMidway(start, db, rows, recovered, cutoff) && i in rows
    ensures i in db.steps && db.jobs == start.jobs
    ensures StepsMidway(start,
                        if i in Orphans(start, cutoff)
                        then db.(steps := db.steps[i := Reopened(db.steps[i])]) else db,
                        rows - {i}, recovered + (if i in Orphans(start, cutoff) then 1 else 0), cutoff)
  {
    var orphans := Orphans(start, cutoff);
    var done := orphans - rows;
    CountsOneMore(orphans, rows, i);
    if i in orphans {
      assert orphans - (rows - {i}) == done + {i};
      ReopenOneMore(start, done, i);
    } else {
      assert orphans - (rows - {i}) == done;
    }
  }

  lemma ReopenOneMore(db: Db, done: set<StepId>, i: StepId)
    requires i in db.steps && i !in done
    ensures var before := ReopenSome(db, done);
            before.steps[i] == db.steps[i]
            && ReopenSome(db, done + {i}) == before.(steps := before.steps[i := Reopened(db.steps[i])])
  {
    var before := ReopenSome(db, done);
    assert ReopenSome(db, done + {i}).steps == before.steps[i := Reopened(db.steps[i])];
  }

  lemma StepsEnd(start: Db, db: Db, recovered: nat, cutoff: int)
    requires StepsMidway(start, db, {}, recovered, cutoff)
    ensures db == SweepOrphans(start, cutoff) && recovered == |Orphans(start, cutoff)|
  {
    assert Orphans(start, cutoff) - {} == Orphans(start, cutoff);
    assert db.steps == SweepOrphans(start, cutoff).steps;
  }
}
