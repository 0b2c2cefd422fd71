/**
 What the transactions do to the rows, told from the fields themselves: which result gives which status,
 which error texts are retried, which rows a sweep, a claim or a heartbeat touches.
 */
module JobFacts {
  import opened Basics
  import opened Texts
  import opened JobRows
  import opened Protocol

  // ---- Results ----

  /** The error of a failed result is retried: fewer than three attempts, and a retryable text. */
  predicate Retried(o: Outcome, attempt: nat) {
    o.status == ResultFailed && attempt < 3 && IsRetryableError(o.error)
  }

  /**
   What a committed result leaves behind. A failed one leaves job and step FAILED, or waiting for a retry, and
   never a success; the job is SUCCEEDED exactly for a canonical success or lack of data; the step keeps the
   three results apart. Only a retry clears the finish times.
   */
  lemma ResultDecides(s: Sys, w: Token, o: Outcome)
    requires Inv(s) && Enabled(s, Finish(w, o))
    ensures var t, f := Apply(s, Finish(w, o)), FlightOf(s, w);
            && f.key in t.db.jobs && f.key.stepId in t.db.steps
            && var job, step := t.db.jobs[f.key], t.db.steps[f.key.stepId];
            && (Retried(o, f.attempt) ==> job.status == JobRetryWait && step.status == StepPending)
            && (o.status == ResultFailed && !Retried(o, f.attempt) ==>
                  job.status == JobFailed && step.status == StepFailed)
            && (job.status == JobSucceeded <==>
                  o.canonical && (o.status == ResultSucceeded || o.status == ResultInsufficientData))
            && (!o.canonical && o.status != ResultFailed ==> job.status == JobFailed)
            && (o.status == ResultSucceeded ==> step.status == StepSucceeded)
            && (o.status == ResultInsufficientData ==> step.status == StepSkipped)
            && (var finished := if Retried(o, f.attempt) then None else Some(s.now);
                job.finishedAt == finished && step.finishedAt == finished)
            && job.heartbeatAt == Some(s.now)
  {
    assert FlightOk(s, w);
  }

  /** A result is refused exactly when its worker passes a token and the row carries another one. */
  lemma RefusedExactly(s: Sys, w: Token, o: Outcome)
    requires Inv(s) && InFlight(s, w)
    ensures var owner := s.db.jobs[FlightOf(s, w).key].owner;
            !Enabled(s, Finish(w, o)) <==> s.sessions[w].named && owner.Some? && owner.value != w
  {
    assert FlightOk(s, w);
  }

  /** The event carries a canonical success or lack of data for job k. */
  predicate Delivers(s: Sys, e: Event, k: JobKey) {
    && e.Finish? && InFlight(s, e.w) && FlightOf(s, e.w).key == k
    && e.outcome.canonical && (e.outcome.status == ResultSucceeded || e.outcome.status == ResultInsufficientData)
  }

  /** Claims, completions and sweeps apart, no event changes the status of a job row or adds one. */
  lemma QuietStatus(s: Sys, e: Event, k: JobKey)
    requires Enabled(s, e) && !e.Sweep? && !Claims(s, e, k) && !Finishes(s, e, k) && !FailsJob(s, e, k)
    ensures k in Apply(s, e).db.jobs <==> k in s.db.jobs
    ensures k in s.db.jobs ==> Apply(s, e).db.jobs[k].status == s.db.jobs[k].status
  {
  }

  lemma SweptStatus(s: Sys, k: JobKey)
    ensures k in Apply(s, Sweep).db.jobs <==> k in s.db.jobs
    ensures k in s.db.jobs && Apply(s, Sweep).db.jobs[k].status != s.db.jobs[k].status ==>
              Apply(s, Sweep).db.jobs[k].status == if s.db.jobs[k].attempt < 3 then JobStale else JobFailed
  {
  }

  /** Why a job row changes its status. */
  lemma StatusStep(s: Sys, e: Event, k: JobKey)
    requires Inv(s) && Enabled(s, e) && k in Apply(s, e).db.jobs
    requires k in s.db.jobs ==> Apply(s, e).db.jobs[k].status != s.db.jobs[k].status
    ensures var status := Apply(s, e).db.jobs[k].status;
            && (status == JobRunning <==> Claims(s, e, k))
            && (status == JobSucceeded ==> Delivers(s, e, k))
            && (status == JobRetryWait ==> Finishes(s, e, k) && Retried(e.outcome, FlightOf(s, e.w).attempt))
            && (status == JobStale ==> e.Sweep? && k in s.db.jobs && s.db.jobs[k].attempt < 3)
            && (status == JobFailed ==>
                  || Finishes(s, e, k) || FailsJob(s, e, k)
                  || (e.Sweep? && k in s.db.jobs && s.db.jobs[k].attempt >= 3))
            && status != JobQueued && status != JobCancelled
  {
    if e.Sweep? {
      SweptStatus(s, k);
    } else if Finishes(s, e, k) {
      ResultDecides(s, e.w, e.outcome);
    } else if !Claims(s, e, k) && !FailsJob(s, e, k) {
      QuietStatus(s, e, k);
    }
  }

  ghost predicate HasSucceeded(s: Sys, k: JobKey) {
    k in s.db.jobs && s.db.jobs[k].status == JobSucceeded
  }

  lemma DeliveryStep(s: Sys, e: Event, k: JobKey)
    requires Inv(s) && Enabled(s, e) && HasSucceeded(Apply(s, e), k)
    ensures HasSucceeded(s, k) || Delivers(s, e, k)
  {
    if !HasSucceeded(s, k) { StatusStep(s, e, k); }
  }

  /** A job is SUCCEEDED only if some event delivered a canonical success or lack of data for it. */
  lemma {:induction false} SuccessWasDelivered(ss: seq<Sys>, es: seq<Event>, k: JobKey, n: nat)
    requires Behaviour(ss, es) && n <= |es| && HasSucceeded(ss[n], k)
    ensures exists j | 0 <= j < n :: Delivers(ss[j], es[j], k)
  {
    if n == 0 {
    } else {
      InvAt(ss, es, n - 1);
      DeliveryStep(ss[n - 1], es[n - 1], k);
      if HasSucceeded(ss[n - 1], k) { SuccessWasDelivered(ss, es, k, n - 1); }
    }
  }

  // ---- Retryable texts ----

  /** The marker stands at position i of the text, whatever the case of the text's letters. */
  predicate Occurs(text: string, marker: string, i: int) {
    0 <= i && i + |marker| <= |text| && forall j | 0 <= j < |marker| :: LowerChar(text[i + j]) == marker[j]
  }

  lemma NotSpace(c: char)
    ensures IsSpace(LowerChar(c)) <==> IsSpace(c)
  {
  }

  lemma OccursInside(pre: string, body: string, post: string, marker: string, i: int)
    requires AllSpace(pre) && AllSpace(post) && marker != "" && Trimmed(marker)
    requires Occurs(pre + body + post, marker, i)
    ensures StandsAt(Lower(body), marker, i - |pre|)
  {
    var text := pre + body + post;
    assert LowerChar(text[i + 0]) == marker[0];
    assert LowerChar(text[i + (|marker| - 1)]) == marker[|marker| - 1];
    NotSpace(text[i]);
    NotSpace(text[i + (|marker| - 1)]);
    assert i >= |pre| && i + |marker| <= |pre| + |body|;
    LowerAt(body);
    var low, k := Lower(body), i - |pre|;
    forall j | 0 <= j < |marker| ensures low[k + j] == marker[j] { assert text[i + j] == body[k + j]; }
    assert low[k..k + |marker|] == marker;
  }

  lemma StandsOutside(pre: string, body: string, post: string, marker: string, k: int)
    requires StandsAt(Lower(body), marker, k)
    ensures Occurs(pre + body + post, marker, |pre| + k)
  {
    LowerAt(body);
    var text, low := pre + body + post, Lower(body);
    forall j | 0 <= j < |marker| ensures LowerChar(text[|pre| + k + j]) == marker[j] {
      assert low[k..k + |marker|][j] == low[k + j];
    }
  }

  lemma MarkerFound(text: string, marker: string)
    requires marker != "" && Trimmed(marker)
    ensures Contains(Lower(Strip(text)), marker) <==> exists i: int :: Occurs(text, marker, i)
  {
    var pre, post := StripSplits(text);
    ContainsExactly(Lower(Strip(text)), marker);
    if Contains(Lower(Strip(text)), marker) {
      var k: int :| StandsAt(Lower(Strip(text)), marker, k);
      StandsOutside(pre, Strip(text), post, marker, k);
    }
    if exists i: int :: Occurs(text, marker, i) {
      var i: int :| Occurs(text, marker, i);
      OccursInside(pre, Strip(text), post, marker, i);
    }
  }

  const MARKERS: seq<string> := [
    "timeout", "timed out", "connection", "temporarily", "temporary", "429", "502", "503", "504", "rate limit",
    "deadlock", "too many connections", "service unavailable"]

  lemma MarkersListed(m: string)
    ensures m in RETRYABLE_ERROR_MARKERS <==> m in MARKERS
  {
  }

  lemma GraphicIsNoSpace(c: char)
    requires '!' <= c <= '~'
    ensures !IsSpace(c)
  {
  }

  lemma MarkerEnds(m: string)
    requires m in MARKERS
    ensures m != "" && '!' <= m[0] <= '~' && '!' <= m[|m| - 1] <= '~'
  {
  }

  lemma MarkerTrimmed(m: string)
    requires m in MARKERS
    ensures m != "" && Trimmed(m)
  {
    MarkerEnds(m);
    GraphicIsNoSpace(m[0]);
    GraphicIsNoSpace(m[|m| - 1]);
  }

  /** An error is retryable exactly when one of the thirteen markers stands in it, in any case. */
  lemma RetryableExactly(error: Option<string>)
    ensures IsRetryableError(error) <==>
            error.Some? && exists m, i: int | m in MARKERS :: Occurs(error.value, m, i)
  {
    forall m ensures m in RETRYABLE_ERROR_MARKERS <==> m in MARKERS { MarkersListed(m); }
    if error.Some? {
      forall m | m in MARKERS
        ensures Contains(Lower(Strip(error.value)), m) <==> exists i: int :: Occurs(error.value, m, i)
      {
        MarkerTrimmed(m);
        MarkerFound(error.value, m);
      }
    }
  }

  // ---- Sweeps, claims and heartbeats ----

  /** The job was last heard of before the instant: by its heartbeat or, without one, by its start. */
  predicate LastHeardBefore(job: Job, instant: int) {
    match job.heartbeatAt
    case Some(h) => h < instant
    case None => job.startedAt.Some? && job.startedAt.value < instant
  }

  /**
   The sweep moves exactly the running jobs not heard of for 300 seconds, by their attempts, and only their
   status.
   */
  lemma SweepExactly(s: Sys, k: JobKey)
    requires k in s.db.jobs
    ensures k in Apply(s, Sweep).db.jobs
    ensures var job, next := s.db.jobs[k], Apply(s, Sweep).db.jobs[k];
            next == if job.status == JobRunning && LastHeardBefore(job, s.now - 300_000_000)
                    then job.(status := if job.attempt < 3 then JobStale else JobFailed) else job
  {
  }

  /**
   The step of a swept job follows it; a running step whose job was not swept is reopened exactly when it
   started more than 300 seconds ago and no running job of it was heard of since. Other steps stay.
   */
  lemma SweptStepExactly(s: Sys, i: StepId)
    requires Inv(s) && i in s.db.steps
    ensures i in Apply(s, Sweep).db.steps
    ensures var step, next, k := s.db.steps[i], Apply(s, Sweep).db.steps[i], KeyOf(i, s.db.steps[i]);
            var instant := s.now - 300_000_000;
            var reopened := step.(status := StepPending, finishedAt := None);
            && (step.status != StepRunning ==> next == step)
            && (step.status == StepRunning && k in s.db.jobs && s.db.jobs[k].status == JobRunning ==>
                  next == if !LastHeardBefore(s.db.jobs[k], instant) then step
                          else if s.db.jobs[k].attempt < 3 then reopened
                          else step.(status := StepFailed, finishedAt := Some(s.now)))
            && (step.status == StepRunning && (k in s.db.jobs ==> s.db.jobs[k].status != JobRunning) ==>
                  next == if step.startedAt.Some? && step.startedAt.value < instant then reopened else step)
  {
    var cutoff := Cutoff(s.now, STALE_AFTER);
    var mid := SweepJobs(s.db, cutoff, s.now);
    var k := KeyOf(i, s.db.steps[i]);
    forall j | j in mid.jobs && j.stepId == i ensures j == k { }
  }

  /** A claim by raw fields: one more attempt, the worker's token, a fresh heartbeat; the first claim sets the start. */
  lemma ClaimExactly(s: Sys, w: Token, i: StepId)
    requires Enabled(s, Claim(w, i))
    ensures var t, k := Apply(s, Claim(w, i)), KeyOf(i, s.db.steps[i]);
            && k in t.db.jobs && i in t.db.steps
            && var job, step := t.db.jobs[k], t.db.steps[i];
            && job.status == JobRunning && job.heartbeatAt == Some(s.now)
            && job.owner == (if s.sessions[w].named then Some(w) else None)
            && (k !in s.db.jobs ==> job.attempt == 1 && job.startedAt == Some(s.now) && job.finishedAt == None)
            && (k in s.db.jobs ==>
                  && job.attempt == s.db.jobs[k].attempt + 1 && job.finishedAt == s.db.jobs[k].finishedAt
                  && (s.db.jobs[k].startedAt.Some? ==> job.startedAt == s.db.jobs[k].startedAt)
                  && (s.db.jobs[k].startedAt.None? ==> job.startedAt == Some(s.now)))
            && step == s.db.steps[i].(status := StepRunning, startedAt := Some(s.now))
  {
  }

  /** A beat moves the heartbeat of exactly the running jobs of the worker's run, whoever owns them. */
  lemma BeatExactly(s: Sys, w: Token, k: JobKey)
    requires Enabled(s, Beat(w)) && k in s.db.jobs
    ensures Apply(s, Beat(w)).db.steps == s.db.steps && k in Apply(s, Beat(w)).db.jobs
    ensures var job, next := s.db.jobs[k], Apply(s, Beat(w)).db.jobs[k];
            next == if job.status == JobRunning && k.runId == s.sessions[w].runId
                    then job.(heartbeatAt := Some(s.now)) else job
  {
  }

  /** Closing a step as invalid fails that step and touches no job. */
  lemma CloseExactly(s: Sys, w: Token, i: StepId)
    requires Enabled(s, CloseInvalid(w, i))
    ensures var t := Apply(s, CloseInvalid(w, i));
            && t.db.jobs == s.db.jobs && i in t.db.steps && t.db.steps[i].status == StepFailed
            && t.db.steps[i].finishedAt == Some(s.now)
            && forall j | j in s.db.steps && j != i :: j in t.db.steps && t.db.steps[j] == s.db.steps[j]
  {
  }

  /** A failure handler fails its own job, at that moment, and touches no other row. */
  lemma HandlerExactly(s: Sys, w: Token)
    requires Enabled(s, Fail(w))
    ensures var t, k := Apply(s, Fail(w)), FlightOf(s, w).key;
            && t.db.steps == s.db.steps && k in t.db.jobs
            && t.db.jobs[k].status == JobFailed && t.db.jobs[k].finishedAt == Some(s.now)
            && t.db.jobs[k].owner == s.db.jobs[k].owner && t.db.jobs[k].attempt == s.db.jobs[k].attempt
            && forall j | j in s.db.jobs && j != k :: j in t.db.jobs && t.db.jobs[j] == s.db.jobs[j]
  {
  }

  /** Over behaviours: a job's start is the moment of its first claim, and nothing moves it afterwards. */
  lemma {:induction false} StartIsFirstClaim(ss: seq<Sys>, es: seq<Event>, k: JobKey, n: nat)
    requires Behaviour(ss, es) && n <= |es|
    ensures AdapterRuns(ss, es, k, n) == 0 ==> JobFor(ss[n].db, k).startedAt == None
    ensures AdapterRuns(ss, es, k, n) > 0 ==>
              exists j | 0 <= j < n :: FirstClaims(ss, es, k, j) && JobFor(ss[n].db, k).startedAt == Some(ss[j].now)
  {
    if n == 0 {
    } else {
      StartIsFirstClaim(ss, es, k, n - 1);
      RunsAreAttempts(ss, es, k, n - 1);
      StartStep(ss[n - 1], es[n - 1], k);
      if AdapterRuns(ss, es, k, n) > 0 && AdapterRuns(ss, es, k, n - 1) == 0 {
        assert FirstClaims(ss, es, k, n - 1);
      }
    }
  }

  /** Event j claims job k, for the first time. */
  ghost predicate FirstClaims(ss: seq<Sys>, es: seq<Event>, k: JobKey, j: nat)
    requires Behaviour(ss, es)
  {
    j < |es| && Claims(ss[j], es[j], k) && AdapterRuns(ss, es, k, j) == 0
  }

  lemma StartStep(s: Sys, e: Event, k: JobKey)
    requires Enabled(s, e)
    ensures var before, after := JobFor(s.db, k).startedAt, JobFor(Apply(s, e).db, k).startedAt;
            after == if Claims(s, e, k) && before.None? then Some(s.now) else before
  {
  }
}
