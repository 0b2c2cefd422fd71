# Verified model of PolyFlip's AI Lab core

A Dafny model of the parts of PolyFlip where several processes or several statements have to agree:
the AI Lab's job, lease and step protocol, the configuration overlays that adjust PAPER settings, the
canonical manifests, two programs that repair tables, and the accumulator of shadow evidence.

## What is modelled

- **Job protocol** (`JobRows`, `JobStore`, `Protocol`, `JobFacts`, `Leases`, `Coupling`, `ProtocolLimits`,
  `Anonymity`). `JobRows` gives each database transaction on the step and job tables as a function from tables to tables. The class
  `JobStore.Store` performs the same transactions row by row, with the loops and the roll-backs of the source,
  and is proved to compute those functions. `Protocol` turns them, the leases, the clock and any number of
  workers into a state machine: one event per committed transaction, in any order. A worker that lost its lease
  or whose job was swept keeps going, the failure handler that passes no owner token is an event like any other, and
  workers without an owner token take part too. The theorems are about every behaviour of that machine.
- **Overlays** (`OverlayRules`, `OverlayLimits`, `Overlays`, `OverlayHistories`, `OverlayScope`, `TimeLeftOrder`). Validation, the lifecycle of the
  overlay table as one transition function that the table's methods compute, and the fold that resolves settings;
  then theorems over every history of calls.
- **Manifests** (`Tags`, `CanonicalJson`, `Manifests`). The normaliser, the compact ASCII printer with a parser
  that inverts it, and the self-hashing builder. The hash is an arbitrary function with non-empty results.
- **Table repair** (`PaperRepair`, `Backfill`). The PAPER fill migration as ordered updates over five tables, and
  the keyset-paged model-key backfill as a loop that changes the rows it pages over.
- **Shadow evidence** (`ShadowEvidence`, `EvidenceFacts`). The pass over telemetry rows with its parallel lists, and the arithmetic
  of its scores over reals.

The modules `JobFacts`, `OverlayLimits`, `OverlayScope` and `EvidenceFacts`, and the sections "told from the columns",
say what the operations do in terms of the raw fields and texts (with `Texts` for white space and case), without the
definitions the operations themselves are built from.

Where the code does not do what one would expect, the model follows the code, shows an input and proves when
the expected property does hold:

- Without an owner token the fence of `complete_job` is off. One such worker is enough for two SUCCEEDED commits of
  one job (`Anonymity.AnonymousSucceedsAgain`) and for a fourth start of its adapter (`Anonymity.FourthAttempt`);
  the endpoint `POST /runs/{run_id}/worker/lgbm` is one. Both guarantees hold for a run exactly when nobody works on
  it without a token (`Anonymity.AtMostOnceExactly`, `Anonymity.RetryBoundExactly`).
- A superseded worker is refused by the fence, but its failure handler then marks the job FAILED, whatever its
  successor committed (`ProtocolLimits.SuccessIsOverwritten`). A success is final exactly when no worker is in flight
  on the job any more (`Protocol.SuccessIsFinalExactly`).
- The failure handler of the job's owner leaves its step running; the orphan sweep then turns it into a pending
  step that no worker will ever claim (`ProtocolLimits.HandlerStrandsStep`, `Coupling.StrandedForever`).
- "A terminal step has a terminal job or none" fails when a step is closed as INVALID_STEP_INPUT after an earlier
  attempt left it a claimable job (`ProtocolLimits.InvalidCloseLeavesJobOpen`). `Coupling.ClosedExactly` gives the
  exact condition for one event. Over a run the property can come back, because a swept owner may still commit
  its result; `Coupling.PairToldAt` gives the exact condition for runs, and the same for the coupling that the failure
  handler breaks.
- Overlays that are valid one by one can put the minimum time left above the maximum, by being applied together
  or by one being rolled back (`TimeLeftOrder.TimeOrderCanBreak`, `TimeLeftOrder.RollbackCanBreakTimeOrder`);
  `TimeLeftOrder.TimeOrderExactly` says exactly for which tables this cannot happen.
- Mapping keys with equal string forms can make the normal form depend on their order
  (`Manifests.CollidingKeysDependOnOrder`); `Manifests.OrderFreeExactly` says exactly when they do not.
- The last two statements of the PAPER migration also act on requests an earlier recovery rejected
  (`PaperRepair.EarlierRecoveryIsCaught`); `PaperRepair.FailedExactly` and `PaperRepair.ReleasedExactly` give the
  exact conditions for trades and reservations.

## Model

| member | source | states |
|---|---|---|
| `JobStore.Store.ClaimNextStep` | polyflip/ai_lab/orchestrator.py:834-869 | raises for an unknown run and for a step the run may not perform, and then changes nothing; otherwise takes a pending unlocked step of least index, or none exactly when there is none, and moves a planned run to running |
| `JobStore.Store.EnsureJob` | polyflip/ai_lab/jobs.py:50-92 | finds the job of a key or inserts one queued row, leaving every other row alone |
| `JobStore.Store.ClaimJob` | polyflip/ai_lab/jobs.py:95-119 | succeeds exactly on a claimable row, which becomes running with one more attempt and the caller's token; otherwise nothing changes |
| `JobStore.Store.CompleteJob` | polyflip/ai_lab/jobs.py:122-145 | refused exactly for a missing job, a foreign owner token or an unsupported status; otherwise sets the status whatever it was before |
| `JobStore.Store.HeartbeatJob` | polyflip/ai_lab/jobs.py:148-161 | accepted exactly on a running job, fenced by the token when one is given; only the heartbeat moves |
| `JobStore.Store.BeginStep` | polyflip/ai_lab/executor.py:253-369 | the claiming transaction as a whole is the claim of step and job together, the closing of an invalid step, or nothing (a roll-back restores step, job and run) |
| `JobStore.Store.CommitResult` | polyflip/ai_lab/executor.py:396-442 | recording, completing and reopening on retry take effect together, or the fence rolls all of it back |
| `JobStore.Store.HandleFailure` | polyflip/ai_lab/executor.py:443-456 | whoever owns the job and whatever its status, the handler marks it FAILED and touches no step |
| `JobStore.Store.BeatRun` | polyflip/ai_lab/agent_runner.py:86-97 | the row loop refreshes every running job of the run, whoever owns it, and nothing else |
| `JobStore.Store.RecoverStaleJobs` | polyflip/ai_lab/jobs.py:164-240 | the two row loops equal the set-wise sweep, and the counter is the number of steps that followed a silent job plus the number of orphans reopened |
| `JobStore.Store.SweepSilentJobs` | polyflip/ai_lab/jobs.py:169-207 | the loop over silent jobs equals the set-wise first pass and counts the running steps it moved |
| `JobStore.Store.SweepOrphanSteps` | polyflip/ai_lab/jobs.py:209-237 | the loop over long-running steps reopens exactly those without a live job and counts them |
| `JobFacts.ResultDecides` | polyflip/ai_lab/executor.py:396-442 | from the result's own fields: a FAILED one leaves job and step FAILED, or RETRY_WAIT and PENDING, and never a success; the job is SUCCEEDED exactly for a canonical success or lack of data; the step keeps the three results apart; only a retry clears the finish times |
| `JobFacts.RefusedExactly` | polyflip/ai_lab/jobs.py:132-135 | a result is refused exactly when its worker passes a token and the row carries another one |
| `JobFacts.StatusStep` | polyflip/ai_lab/jobs.py:95-240 | every change of a job's status has its cause: a claim, a result of the right kind, a handler, or a sweep with the right number of attempts |
| `JobFacts.SuccessWasDelivered` | polyflip/ai_lab/executor.py:424-434 | in every behaviour a job is SUCCEEDED only if some result for it was a canonical success or lack of data |
| `JobFacts.RetryableExactly` | polyflip/ai_lab/jobs.py:16-47 | an error is retryable exactly when one of the thirteen markers stands in it, in any case |
| `JobFacts.SweepExactly` | polyflip/ai_lab/jobs.py:164-207 | the sweep moves exactly the running jobs not heard of for 300 seconds, to STALE below three attempts and to FAILED otherwise, and changes only their status |
| `JobFacts.SweptStepExactly` | polyflip/ai_lab/jobs.py:186-237 | the step of a swept job follows it; a running step without a running job is reopened exactly when it started more than 300 seconds ago; other steps stay |
| `JobFacts.ClaimExactly` | polyflip/ai_lab/jobs.py:95-119 | a claim by its fields: attempt, token, heartbeat, and a start that is only ever set once |
| `JobFacts.StartIsFirstClaim` | polyflip/ai_lab/jobs.py:108-116 | in every behaviour a job's start is the moment of its first claim |
| `JobFacts.BeatExactly` | polyflip/ai_lab/agent_runner.py:86-97 | a beat moves the heartbeat of exactly the running jobs of the worker's run |
| `JobFacts.CloseExactly` | polyflip/ai_lab/executor.py:274-300 | closing as invalid fails that one step and touches no job |
| `JobFacts.HandlerExactly` | polyflip/ai_lab/executor.py:443-456 | a failure handler fails its own job at that moment and touches no other row |
| `Protocol.InvAt` | polyflip/ai_lab/executor.py:338-456 | in every reachable state, workers without a token included, a running job has an attempt and a heartbeat, and a named worker that still owns a row holds that row's attempt number |
| `Protocol.FencedAt` | polyflip/ai_lab/jobs.py:108-135 | on a run that no worker without a token has joined, every job stays within its attempt budget and every claimed job has an owner |
| `Protocol.CommitSettles` | polyflip/ai_lab/executor.py:424-442 | on such a run, after a committed success the job is terminal and the fence refuses every worker in flight on it |
| `Protocol.RowStep` | polyflip/ai_lab/jobs.py:95-145 | job rows never disappear, and only a claim of a claimable row changes owner and attempt |
| `Protocol.SettledStep` | polyflip/ai_lab/jobs.py:108-145 | no event revives a settled job, claims it or commits it again, and its status changes only through a failure handler, to FAILED |
| `Protocol.AtMostOneSuccess` | polyflip/ai_lab/executor.py:338-456 | in every interleaving two different events never both commit the same job as SUCCEEDED, as long as no worker without a token has joined the job's run |
| `Anonymity.AtMostOnceExactly` | polyflip/ai_lab/executor.py:485-495 | whichever workers pass no token on which runs: the jobs of a run succeed at most once in every behaviour if and only if nobody works on that run without a token |
| `Anonymity.AtMostOnceEverywhere` | polyflip/ai_lab/executor.py:485-495 | over all runs: if and only if every worker passes a token |
| `Anonymity.AnonymousSucceedsAgain` | polyflip/api/ai_lab.py:1172-1192 | for any worker without a token and any other worker, a behaviour of nine events in which both commit the same job as SUCCEEDED |
| `Protocol.SuccessIsFinalExactly` | polyflip/ai_lab/executor.py:424-456 | from any state with a SUCCEEDED job, it stays SUCCEEDED after every continuation if and only if no worker is in flight on it |
| `Protocol.SuccessLasts` | polyflip/ai_lab/executor.py:424-456 | the trace form: a committed success is still SUCCEEDED later if and only if no failure handler of a worker in flight on the job has run since |
| `Protocol.RunsAreAttempts` | polyflip/ai_lab/jobs.py:108-119 | the attempt number of a job is the number of times an adapter was started for it |
| `Protocol.RetryBound` | polyflip/ai_lab/jobs.py:45-47 | on a run that no worker without a token has joined, every adapter starts at most three times per job, and a claimable job has attempts left |
| `Anonymity.RetryBoundExactly` | polyflip/ai_lab/executor.py:420-434 | the adapters of a run's jobs start at most three times in every behaviour if and only if nobody works on that run without a token |
| `Anonymity.FourthAttempt` | polyflip/ai_lab/executor.py:420-434 | for any worker without a token and any other worker, a behaviour in which a retry decided on a stale copy leads to a fourth start |
| `ProtocolLimits.SupersededWorkerOverwrites` | polyflip/ai_lab/executor.py:443-456 | a worker that lost its row can commit no result, while its failure handler always marks the row FAILED and leaves owner and step alone |
| `ProtocolLimits.SuccessIsOverwritten` | polyflip/ai_lab/executor.py:443-456 | a reachable run: a swept worker's successor commits SUCCEEDED, and the swept worker's handler turns the job FAILED |
| `ProtocolLimits.HandlerStrandsStep` | polyflip/ai_lab/jobs.py:209-237 | a reachable run: the owner's failure handler, 301 seconds and a sweep leave a stranded step |
| `ProtocolLimits.InvalidCloseLeavesJobOpen` | polyflip/ai_lab/executor.py:274-310 | a reachable run without the handler: append, claim, retryable failure, close as invalid; the step is failed and its job waits for a retry |
| `Leases.LeaseTable.AcquireLease` | polyflip/ai_lab/agent_runner.py:37-64 | granted exactly on a missing, own or expired row; a grant runs for the full term, a refusal changes nothing |
| `Leases.LeaseTable.ReleaseLease` | polyflip/ai_lab/agent_runner.py:66-77 | deletes the caller's own row only |
| `Leases.HonouredAt` | polyflip/ai_lab/agent_runner.py:58-63 | a grant stays in the row until it lapses, unless its holder lets it go |
| `Leases.LeaseExclusion` | polyflip/ai_lab/agent_runner.py:37-77 | grants of one run to different workers never overlap in time unless the earlier holder released in between |
| `Leases.SweepSparesFlights` | polyflip/ai_lab/jobs.py:164-189 | the 120 second term and the 300 second cutoff together keep the job of a worker in flight out of the sweep while those in flight on its run are punctual |
| `Leases.OthersKeepJob` | polyflip/ai_lab/jobs.py:95-145 | under the same condition nobody else claims, finishes or fails that job, late idle workers of the run included |
| `Leases.TimersCompose` | polyflip/ai_lab/agent_runner.py:27-97 | while every worker in flight on one run renews in time, no two are in flight on one of its jobs and no two named ones on the run, no completion of theirs is refused and the sweep takes no job away; idle workers and other runs may be late |
| `Coupling.OrphanSweepIdle` | polyflip/ai_lab/jobs.py:209-237 | with steps and jobs coupled, the orphan pass changes nothing |
| `Coupling.CoupledStep` | polyflip/ai_lab/executor.py:253-442 | every event but the failure handler keeps steps and jobs coupled |
| `Coupling.ClosedExactly` | polyflip/ai_lab/executor.py:274-310 | from tables where terminal steps have terminal jobs or none, any event keeps that if and only if it does not close a step that has an open job as invalid |
| `Coupling.PairToldAt` | polyflip/ai_lab/executor.py:253-456 | in every behaviour, failure handlers included: a step is coupled to its job if and only if no handler left it adrift, and closed together with it if and only if it was not left open |
| `Coupling.StepsFollowJobs` | polyflip/ai_lab/executor.py:253-456 | in every behaviour: unless left adrift, a pending step has no job or a claimable one and a step runs exactly when its job does; a step left adrift is open with a FAILED job; a terminal step has a terminal job or none exactly when it was not left open |
| `Coupling.DriftNeedsHandler` | polyflip/ai_lab/executor.py:443-456 | only a failure handler on its own job can leave a step adrift |
| `Coupling.CoupledAt` | polyflip/ai_lab/executor.py:253-442 | in every behaviour without the failure handler all steps stay coupled |
| `Coupling.OrphanSweepNeverActs` | polyflip/ai_lab/jobs.py:209-237 | in every behaviour without the failure handler the orphan sweep changes nothing |
| `Coupling.OrphansAreAdrift` | polyflip/ai_lab/jobs.py:209-237 | in every behaviour the orphan sweep reopens only steps that a failure handler left adrift |
| `Coupling.HandlerKeepsCoupling` | polyflip/ai_lab/executor.py:443-456 | the failure handler keeps the coupling if and only if the step is already terminal |
| `Coupling.HandlerSettles` | polyflip/ai_lab/executor.py:443-456 | after the owner's handler the step is as it was, and the job is failed for good if and only if no worker without a token is in flight on it |
| `Coupling.OrphanSweepStrands` | polyflip/ai_lab/jobs.py:209-237 | the orphan sweep hands such a step out again as pending |
| `Coupling.StrandedForever` | polyflip/ai_lab/executor.py:360-366 | over every later run a stranded step is never claimed, and stays pending exactly until it is closed as invalid |
| `OverlayRules.ValidateOverlayChanges` | polyflip/ai_lab/agent_tools.py:320-357 | the loop accepts exactly the valid proposals, and what it returns touches declared keys only, inside their limits, with both pairs in order |
| `OverlayRules.ValidatedIsDeclared` | polyflip/ai_lab/agent_tools.py:52-93 | every accepted change is of its declared type and inside its declared limits |
| `OverlayRules.LastItemWins` | polyflip/ai_lab/agent_tools.py:323-350 | of several items with the same stripped key the last decides |
| `OverlayLimits.NumericItemExactly` | polyflip/ai_lab/agent_tools.py:334-348 | a numeric key takes exactly the finite numbers inside its literal range, ends included, the two time keys only whole ones, and stores them as they are |
| `OverlayLimits.OtherItemExactly` | polyflip/ai_lab/agent_tools.py:325-350 | the sizing mode takes exactly its four words in any case; every other key is refused |
| `OverlayLimits.CleanedExactly` | polyflip/ai_lab/agent_tools.py:322-350 | the loop over the items succeeds exactly when each item passes by itself |
| `OverlayLimits.TimePairExactly` | polyflip/ai_lab/agent_tools.py:354-356 | a proposal of both time limits is accepted exactly when the minimum does not exceed the maximum |
| `Overlays.Table.CreateConfigOverlay` | polyflip/ai_lab/agent_tools.py:360-415 | appends one pending overlay whose life is capped at 86400 seconds, or raises and appends none |
| `Overlays.Table.ApplyShadowOverlay` | polyflip/ai_lab/agent_tools.py:418-428 | pending to applied, and only from pending |
| `Overlays.Table.RollbackOverlay` | polyflip/ai_lab/agent_tools.py:431-442 | pending or applied to rolled back, and only from these |
| `Overlays.Table.ExpireOverlays` | polyflip/ai_lab/agent_tools.py:445-467 | the loop expires exactly the overdue open rows and returns their number |
| `Overlays.Table.ResolvePaperRuntimeSettings` | polyflip/ai_lab/paper_overlay.py:32-91 | expiring first and folding the rest gives the settings, and the ids, of the table as it was before expiry |
| `Overlays.ExpiryIsInvisible` | polyflip/ai_lab/paper_overlay.py:39-71 | marking overdue rows never changes what is in force |
| `Overlays.TopSetterWins` | polyflip/ai_lab/paper_overlay.py:82-91 | a key's effective value is the change of the highest-id active in-scope overlay that sets it |
| `Overlays.NoSetterKeepsBase` | polyflip/ai_lab/paper_overlay.py:82-91 | without such an overlay the base value, or its absence, stands |
| `OverlayHistories.TableOkAfter` | polyflip/ai_lab/agent_tools.py:360-467 | after any history every overlay holds valid changes and expires within a day of its creation |
| `OverlayHistories.OnlyDeclaredKeysMove` | polyflip/ai_lab/agent_tools.py:52-93 | over any history a setting that differs from the base belongs to a declared key and lies inside its limits |
| `OverlayLimits.LimitsNeverLeft` | polyflip/ai_lab/agent_tools.py:52-93 | over any history an effective number that is not the base's lies inside the literal range of its key |
| `OverlayHistories.UndeclaredKeysNeverMove` | polyflip/ai_lab/agent_tools.py:52-93 | the three allow-listed edge keys without limits never differ from the base |
| `OverlayHistories.PriceOrderKept` | polyflip/ai_lab/agent_tools.py:72-85 | with base prices on their sides of one half, effective prices stay there under any history |
| `TimeLeftOrder.TimeOrderExactly` | polyflip/ai_lab/agent_tools.py:351-356 | from any table the time-left pair is ordered after every history of applying, rolling back, expiring and waiting if and only if no source of the minimum exceeds a source of the maximum that can be decisive together with it |
| `TimeLeftOrder.TimeOrderCanBreak` | polyflip/ai_lab/agent_tools.py:351-356 | a history from the empty table: two overlays, valid one by one, put the minimum time above the maximum |
| `TimeLeftOrder.RollbackCanBreakTimeOrder` | polyflip/ai_lab/agent_tools.py:431-442 | a history from the empty table: two overlays keep the pair ordered, and rolling the first one back breaks it |
| `OverlayHistories.EraseCommutesAll` | polyflip/ai_lab/agent_tools.py:418-467 | every history acts the same on the other rows whether or not one row exists |
| `OverlayHistories.IdleOverlayLeavesNoTrace` | polyflip/ai_lab/paper_overlay.py:39-91 | after any history an overlay that is not active for a query is to it as if never created |
| `OverlayHistories.Erasure` | polyflip/ai_lab/agent_tools.py:418-467 | an overlay once rolled back or expired is as if never created, for every later history and query |
| `OverlayScope.InForceExactly` | polyflip/ai_lab/paper_overlay.py:27-91 | from any table and for texts in any case, with white space, alone or as a USDT pair: an overlay created for some texts and applied is among the ids and settings resolved for others exactly when its asset and regime cover theirs and its life, capped at 86400 seconds, has not run out |
| `OverlayScope.OtherScopeNeverSeen` | polyflip/ai_lab/paper_overlay.py:41-71 | over every history, an overlay written for another asset, or for a regime the query does not write, never affects the query |
| `OverlayScope.TargetExactly` | polyflip/ai_lab/paper_overlay.py:57-59 | a row counts as a PAPER one exactly when its target is blank or writes one of three names |
| `OverlayScope.LifecycleExactly` | polyflip/ai_lab/agent_tools.py:418-467 | what each call does to the status of one row; nothing else of an existing row ever changes |
| `OverlayScope.CreationExactly` | polyflip/ai_lab/agent_tools.py:360-415 | a creation adds one pending row with its capped expiry, or nothing; no other call adds rows |
| `OverlayHistories.BoundedEffect` | polyflip/ai_lab/agent_tools.py:373 | once 86400 seconds pass without a creation, the settings in force are the base settings |
| `Tags.SortForgetsOrder` | polyflip/ai_lab/manifests.py:19-22 | sorting by string form gives the same sequence for any order of distinctly named items |
| `Tags.CollapseIsStrict` | polyflip/ai_lab/manifests.py:19-22 | filling a dictionary from sorted items leaves strictly sorted keys, each with its last item |
| `CanonicalJson.CharsBack` | polyflip/ai_lab/manifests.py:52-58 | escaped strings are read back, surrogate pairs included |
| `CanonicalJson.DecimalBack` | polyflip/ai_lab/manifests.py:52-58 | a printed integer is read back and is never taken for a float |
| `CanonicalJson.ParsePrint` | polyflip/ai_lab/manifests.py:52-58 | parsing a printed value gives the value back and leaves exactly the text after it |
| `CanonicalJson.PrintInjective` | polyflip/ai_lab/manifests.py:52-58 | two values in front of two texts print the same if and only if values and texts are equal |
| `CanonicalJson.PrintAppends` | polyflip/ai_lab/manifests.py:52-58 | printing in front of a text is the value's own text followed by it |
| `CanonicalJson.PrintAscii` | polyflip/ai_lab/manifests.py:52-58 | the whole text is printable ASCII, whatever the value holds |
| `CanonicalJson.EscapeForms` | polyflip/ai_lab/manifests.py:52-58 | which characters are written as themselves, as two-character escapes, and as one or two \\u escapes |
| `CanonicalJson.NoLeadingZero` | polyflip/ai_lab/manifests.py:52-58 | integers are written without leading zeros |
| `Manifests.NormalizeIsNormal` | polyflip/ai_lab/manifests.py:17-44 | every normalised value has strictly sorted keys at every depth, so the printer's key sort has nothing to do |
| `Manifests.NormalizeIdempotent` | polyflip/ai_lab/manifests.py:17-44 | normalising a normal form changes nothing |
| `Manifests.MapLookup` | polyflip/ai_lab/manifests.py:18-22 | a normalised mapping holds under each string form the last item with that form, and nothing else |
| `Manifests.KeyOrderIrrelevant` | polyflip/ai_lab/manifests.py:18-26 | reordering mappings and sets with distinct string forms, at every depth, changes neither the result nor the error |
| `Manifests.CollidingKeysDependOnOrder` | polyflip/ai_lab/manifests.py:18-22 | two items under one string form give different objects in the two orders |
| `Manifests.SameObjectExactly` | polyflip/ai_lab/manifests.py:18-22 | two mappings normalise to the same object if and only if the last items under every string form have the same normal form |
| `Manifests.OrderFreeExactly` | polyflip/ai_lab/manifests.py:18-22 | every order of a mapping's items gives the same result if and only if items that share a string form share a normal form or, where an item is refused, the refused items with the lowest string form are refused alike |
| `Manifests.CanonicalTextDecides` | polyflip/ai_lab/manifests.py:47-58 | two payloads have the same canonical text if and only if their normalised forms are equal |
| `Manifests.CanonicalTextParses` | polyflip/ai_lab/manifests.py:47-58 | the normal form can be read back from the canonical text |
| `Manifests.RefusedExactly` | polyflip/ai_lab/manifests.py:27-44 | normalisation fails exactly on a value that holds, at some depth, a non-finite float, a naive datetime or an unsupported type |
| `Manifests.TypedValues` | polyflip/ai_lab/manifests.py:27-36 | dates and datetimes normalise as the mappings that spell them out, a decimal as its text |
| `Manifests.BuildRefusedExactly` | polyflip/ai_lab/manifests.py:72-81 | a build fails exactly when a required key is absent, None or empty, or something outside hash and kind is refused |
| `Manifests.RequiredKeys` | polyflip/ai_lab/manifests.py:84-109 | the keys each builder requires |
| `Manifests.ManifestHolds` | polyflip/ai_lab/manifests.py:75-81 | beside its hash a manifest holds exactly its kind, the payload's schema version or "2", and the normal form of every other key |
| `Manifests.ManifestSelfVerifies` | polyflip/ai_lab/manifests.py:61-81 | a manifest without its hash field hashes to the hash it stores |
| `Manifests.RebuildChangesNothing` | polyflip/ai_lab/manifests.py:66-81 | building a manifest from a manifest, under the same kind and required keys, gives it back |
| `Manifests.CallerHashIrrelevant` | polyflip/ai_lab/manifests.py:74-81 | payloads that differ only in order and in a supplied hash build the same manifest, or fail alike |
| `Manifests.BuildersIgnoreCallerHash` | polyflip/ai_lab/manifests.py:84-109 | neither builder looks at a hash in its payload |
| `PaperRepair.EarliestFillSurvives` | alembic/versions/c4d5e6f7a8b9_repair_paper_fill_idempotency.py:41-58 | of the fills with one non-null provider key exactly the earliest by timestamp and id survives |
| `PaperRepair.DeduplicatedIsUnique` | alembic/versions/c4d5e6f7a8b9_repair_paper_fill_idempotency.py:41-68 | after deduplication the unique constraint holds, and no fill without a key was deleted |
| `PaperRepair.IndexesKept` | alembic/versions/b3c4d5e6f7a8_merge_execution_heads.py:78-85 | an update that activates no request keeps both partial unique indexes |
| `PaperRepair.Database.FailBrokenAttempts` | alembic/versions/c4d5e6f7a8b9_repair_paper_fill_idempotency.py:72-92 | fails exactly the attempts of stuck PAPER requests with neither a provider order nor a fill, keeping a finish time that is there |
| `PaperRepair.Database.ReadyRecentRequests` | alembic/versions/c4d5e6f7a8b9_repair_paper_fill_idempotency.py:94-129 | readies exactly the recent never-executed stuck requests, and both indexes hold afterwards |
| `PaperRepair.Database.RejectStuckRequests` | alembic/versions/c4d5e6f7a8b9_repair_paper_fill_idempotency.py:133-158 | rejects exactly the never-executed requests still stuck, and both indexes hold afterwards |
| `PaperRepair.Database.FailTrades` | alembic/versions/c4d5e6f7a8b9_repair_paper_fill_idempotency.py:160-174 | fails exactly the trades of rejected PAPER OPEN requests, with the reason of one of them |
| `PaperRepair.Database.ReleaseReservations` | alembic/versions/c4d5e6f7a8b9_repair_paper_fill_idempotency.py:176-186 | releases exactly the reservations of requests with a recovery rejection, keeping a release time that is there |
| `PaperRepair.TwoUpdatesPartition` | alembic/versions/c4d5e6f7a8b9_repair_paper_fill_idempotency.py:72-158 | the three updates together put every stuck never-executed request to READY or REJECTED by age and leave all others alone |
| `PaperRepair.Database.Upgrade` | alembic/versions/c4d5e6f7a8b9_repair_paper_fill_idempotency.py:35-186 | the whole migration, each request told from its columns: one that hangs and that no venue saw goes to READY if created in the last fifteen minutes and to REJECTED otherwise, every other one keeps its row; unique fills, both indexes, trades and reservations settled with the requests; nothing changes when the constraint cannot be built |
| `PaperRepair.SeenRequestsStay` | alembic/versions/c4d5e6f7a8b9_repair_paper_fill_idempotency.py:108-121 | a request with a provider order, or with a fill that survived, keeps its row whatever its state and age |
| `PaperRepair.AttemptFailedExactly` | alembic/versions/c4d5e6f7a8b9_repair_paper_fill_idempotency.py:72-92 | an attempt is failed exactly when its request hangs and it left neither a provider order nor a fill |
| `PaperRepair.SettledExactly` | alembic/versions/c4d5e6f7a8b9_repair_paper_fill_idempotency.py:160-186 | from the columns: which trades fail and with which reason, which reservations are released and when |
| `PaperRepair.ActiveExactly` | alembic/versions/41c8d1f7c5e2_fix_state_indexes.py:20-32 | the states the two partial indexes cover |
| `PaperRepair.IndexesExactly` | alembic/versions/b3c4d5e6f7a8_merge_execution_heads.py:78-85 | from the columns: which pairs of requests the two partial unique indexes forbid |
| `PaperRepair.RecoveredExactly` | alembic/versions/c4d5e6f7a8b9_repair_paper_fill_idempotency.py:160-186 | the last two statements act on the requests rejected here and on those an earlier recovery rejected, and on no others |
| `PaperRepair.OnlyOwnRejections` | alembic/versions/c4d5e6f7a8b9_repair_paper_fill_idempotency.py:160-186 | they act on exactly the requests rejected here if and only if no request carried a recovery reason before |
| `PaperRepair.FailedExactly` | alembic/versions/c4d5e6f7a8b9_repair_paper_fill_idempotency.py:160-174 | in general, a trade fails if and only if one of its PAPER OPEN requests was rejected here or by an earlier recovery |
| `PaperRepair.EarlierRecoveryIsCaught` | alembic/versions/c4d5e6f7a8b9_repair_paper_fill_idempotency.py:160-186 | tables in which nothing is rejected here, yet the trade and the reservation of an earlier recovery change |
| `PaperRepair.RecoveryIsConsistent` | alembic/versions/c4d5e6f7a8b9_repair_paper_fill_idempotency.py:160-186 | without an earlier recovery, reservations are released and OPEN trades failed exactly for the requests rejected here; those of requests put back to READY keep their rows |
| `PaperRepair.ReleasedExactly` | alembic/versions/c4d5e6f7a8b9_repair_paper_fill_idempotency.py:176-186 | in general, an open reservation is released if and only if its request was rejected here or by an earlier recovery |
| `Backfill.AttributeTrade` | scripts/backfill_model_keys.py:90-161 | the branches of the loop body give the attribution and counters of the specification |
| `Backfill.KeyExactly` | scripts/backfill_model_keys.py:90-156 | a selected row gets a key exactly when it is the row's candidate, by its metadata or as the only model its decisions within 30 seconds speak for, and the registry pairs it with the row's version |
| `Backfill.TwoModelsAreAmbiguous` | scripts/backfill_model_keys.py:118-138 | two decisions that speak for different models leave a row without a metadata model ambiguous |
| `Backfill.OneModelIsCandidate` | scripts/backfill_model_keys.py:118-138 | decisions that all speak for one model make it the candidate |
| `Backfill.ConfirmExactly` | scripts/backfill_model_keys.py:103-161 | the confirming columns change exactly for a registered pair in the metadata, and to that pair |
| `Backfill.ChangedExactly` | scripts/backfill_model_keys.py:65-75 | which rows a pass changes, by their columns |
| `Backfill.CountedExactly` | scripts/backfill_model_keys.py:141-151 | a row with a candidate counts as reconstructed or as invalid, by the registry |
| `Backfill.AmbiguousExactly` | scripts/backfill_model_keys.py:152-156 | a row without one counts as ambiguous |
| `Backfill.ConfirmCounted` | scripts/backfill_model_keys.py:105-111 | a registered confirming pair is counted whatever becomes of the key |
| `Backfill.TradeTable.SelectBatch` | scripts/backfill_model_keys.py:63-84 | a page lists qualifying rows above the cursor in id order without passing one over, and has as many rows as the limit or leaves none behind |
| `Backfill.QuerySeesTheRest` | scripts/backfill_model_keys.py:63-84 | part way, in either mode, the query sees exactly the unvisited rows that were selected at the start |
| `Backfill.TradeTable.RunBackfill` | scripts/backfill_model_keys.py:54-167 | for any batch size the paged loop ends with the table, counters and visited ids of one unpaged pass; a dry run changes no row and counts the same |
| `Backfill.VisitsAreExact` | scripts/backfill_model_keys.py:63-84 | the visited ids are those of the selected rows, each once, ascending |
| `Backfill.StatsBalance` | scripts/backfill_model_keys.py:90-167 | processed equals reconstructed plus ambiguous plus invalid, and equals the number of selected rows |
| `Backfill.WrittenKeysAreRegistered` | scripts/backfill_model_keys.py:90-161 | every written key pairs with the trade's version in the registry, every other selected row is marked ambiguous without a key, and confirm columns change only to a registered pair |
| `Backfill.SecondApplyIsIdle` | scripts/backfill_model_keys.py:65-73 | a second apply processes and changes no row, even if registry or decisions have changed |
| `EvidenceFacts.PnlExactly` | scripts/weighted_policy_shadow_evidence.py:147-174 | a profit exists exactly with a side, an outcome and an ask strictly between 0 and 1; with ask and positive cost added back it is 1 on the winning side and 0 on the other |
| `EvidenceFacts.FlippedOutcome` | scripts/weighted_policy_shadow_evidence.py:173-174 | turning a row's outcome moves its profit by exactly one |
| `EvidenceFacts.RaisedCost` | scripts/weighted_policy_shadow_evidence.py:169-174 | raising a non-negative observed cost by d lowers the profit by d |
| `EvidenceFacts.AskExactly` | scripts/weighted_policy_shadow_evidence.py:117-144 | the cells the ask comes from, in their order |
| `EvidenceFacts.CostExactly` | scripts/weighted_policy_shadow_evidence.py:158-172 | the cells the cost comes from, in their order |
| `EvidenceFacts.SideExactly` | scripts/weighted_policy_shadow_evidence.py:74-80 | the words that write a side |
| `EvidenceFacts.SelectedExactly` | scripts/weighted_policy_shadow_evidence.py:261-285 | the side each arm trades, policy verdict and policy name included |
| `EvidenceFacts.RawExactly` | scripts/weighted_policy_shadow_evidence.py:268-271 | the raw side of the weighted arm |
| `EvidenceFacts.PredictionExactly` | scripts/weighted_policy_shadow_evidence.py:246-257 | the prediction of each arm: its summary's unless zero or missing, else its own cells |
| `EvidenceFacts.ObservedExactly` | scripts/weighted_policy_shadow_evidence.py:258-260 | a row is an observation exactly with a prediction and an outcome, 1 for YES and 0 for NO |
| `EvidenceFacts.EvaluatedExactly` | scripts/weighted_policy_shadow_evidence.py:288-290 | a row is an evaluation exactly with a profit, under its market and day |
| `ShadowEvidence.VisitArm` | scripts/weighted_policy_shadow_evidence.py:237-290 | one arm's share of a row: both parallel lists grow together or not at all, and match the observations entry by entry |
| `ShadowEvidence.Accumulate` | scripts/weighted_policy_shadow_evidence.py:205-290 | the nested loops give each arm the observations, profits and coverage it has over the rows taken alone, and the counters and resolved markets of the rows |
| `ShadowEvidence.SquareOfSum` | scripts/weighted_policy_shadow_evidence.py:292-316 | the square of the summed errors is at most their number times the sum of their squares |
| `ShadowEvidence.CalibrationWithinBrier` | scripts/weighted_policy_shadow_evidence.py:292-316 | the squared calibration error is at most the Brier score |
| `EvidenceFacts.SingleScores` | scripts/weighted_policy_shadow_evidence.py:292-316 | the scores of one observation are its squared error and its error |
| `EvidenceFacts.ScoresAverage` | scripts/weighted_policy_shadow_evidence.py:201-202 | a score over two batches is the mean of theirs weighted by length |
| `EvidenceFacts.CountersExactly` | scripts/weighted_policy_shadow_evidence.py:237-287 | what one more row adds to the counters |
| `EvidenceFacts.CoverageExactly` | scripts/weighted_policy_shadow_evidence.py:241-245 | the coverage of an arm counts the rows with its summary |
| `EvidenceFacts.ResolvedExactly` | scripts/weighted_policy_shadow_evidence.py:235-236 | which markets count as resolved |
| `EvidenceFacts.AllArms` | scripts/weighted_policy_shadow_evidence.py:23-31 | every arm is visited once |
| `ShadowEvidence.EvidenceIsSound` | scripts/weighted_policy_shadow_evidence.py:205-316 | for the lists the loop builds: equal lengths and calibration error within the Brier score |
| `ShadowEvidence.ClusterIsMarketDay` | scripts/weighted_policy_shadow_evidence.py:183-186 | two evaluations share a cluster key if and only if they share market and day |
| `ShadowEvidence.GroupByCluster` | scripts/weighted_policy_shadow_evidence.py:183-189 | the grouping loop gives each cluster once, with exactly its own profits in order |
| `ShadowEvidence.GroupingPreservesPnl` | scripts/weighted_policy_shadow_evidence.py:183-189 | the groups add up to the arm's net profit |

## Left out

- Job protocol: the audit texts, error codes and error messages stored in step and job rows; only status, attempt, owner and times are modelled.
- Job protocol: `record_result` refuses a step that the worker's own session sees as terminal; the session keeps its own RUNNING copy across commits, so that check does not fire here and is not modelled.
- JobStore.Store.ClaimNextStep: the permission check is a predicate on the action; run summaries and start times are not modelled.
- JobStore.Store.CommitResult: models a result that `record_result` accepts; where it refuses one (permission, artifact links, values that are not finite) it raises, which is the `Fail` event of the protocol.
- Job protocol: a worker without a token holds no lease and has no heartbeat loop, as with the endpoint that starts one; no caller in the repository combines a lease with a missing token.
- Job protocol: eventual recovery of a dead worker's job, which the code does not provide, since any heartbeat loop refreshes every running job of the run.
- Job protocol: the polling loop, batching in `execute_steps`, `process_one_run`, `_mark_failed` and the lease rows written by other entry points; they only choose which events happen when.
- Job protocol: `AdapterRegistry` and `validate_for`; an adapter's validated result is an input of the `Finish` event.
- Job protocol: steps are appended in any state but RUNNING; the orchestrator's own planning of steps is not part of this model.
- OverlayRules.ValidateOverlayChanges: error texts are not modelled, and case mapping is that of the ASCII letters.
- Overlays: settings hashes, rollback payloads, the textual rendering of settings and the per-overlay runtime summary.
- Overlays.Table.CreateConfigOverlay: the caller's target is always SHADOW_SIMULATION as in the source; ids are handed out in order by a sequence.
- CanonicalJson: lone surrogates, which a Python string can hold and a Dafny string cannot, and Python's limit on the digits of an integer.
- CanonicalJson.ParsePrint: the parser is the inverse on printed texts; it does not reject every text that RFC 8259 rejects.
- Manifests: equality of normal forms tells integers, floats and booleans apart, where Python's `==` identifies 1, 1.0 and True; float, decimal and date texts are given, not computed; SHA-256 is an arbitrary function.
- Manifests: the error for missing fields does not list them; payload keys of the builder are strings, as its type says.
- PaperRepair.Database.Upgrade: SQLite refuses to add a constraint to an existing table; the model covers databases that can. A constraint that is already there counts as built. The prefix match is case-sensitive.
- PaperRepair.Database.FailTrades: rows are visited one by one, in any order, in place of one set-wise UPDATE; with several rejecting requests any one of them gives the error text.
- Backfill: commits between pages, logging, changes other sessions make during the run, and metadata whose fields are not text or numbers.
- ShadowEvidence: rounding to ten digits, the bootstrap draws and their quantile, date arithmetic for the observed days, and the conversion of raw cells to texts and numbers.
- Everything outside these files (trainers, LLM transport, dashboards, deployment and reporting scripts) is not part of this model.
