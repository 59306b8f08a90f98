# queuectl job store and worker step, in Dafny

This project models the core of `queuectl`, a single-node background job queue.
Clients enqueue shell commands as jobs. Worker processes claim them, run them
under a timeout, record one run per execution, and then either complete the
job or count the attempt and apply exponential backoff, moving the job to the
dead-letter state once its retries are used up.

The model has six modules:

- `Wrappers` (`wrappers.dfy`): `Option` for nullable columns and absent keys, and `Result` for raised errors.
- `Strings` (`strings.dfy`): the lexicographic string order, Python's `str(int)` with its inverse parser, and the UTF-8 length of a string.
- `Jobs` (`jobs.dfy`): the `jobs` row (`Job`), the `job_runs` row (`Run`), and the store (`Queue`: a map from job id to row plus the sequence of runs). It also holds eligibility, the claim order `ORDER BY priority, next_run_at, created_at` with SQLite's NULLs-first rule, the two store invariants, and `base ** n`.
- `Store` (`store.dfy`): each `JobStore` method the worker and the command line use, as one total function. The ones that change the store are `enqueue`, the due-retry sweep `move_failed_to_pending`, `claim_next`, `increment_attempts`, `complete`, `reschedule_or_dead`, `retry_from_dlq` and `record_run`. `stats` only reads it.
- `Worker` (`worker.dfy`): what `WorkerProcess.run` does after a claim, as one pure step. It chooses the timeout, classifies how the command ended, appends one run, and dispatches to complete or to retry/dead-letter. The poll loop is a recursive function over a finite sequence of passes.
- `NullIds` (`nullids.dfy`): the claim as written when the table also holds rows whose id is NULL, next to the keyed claim the rest of the model uses (see Findings).

Timestamps are integer seconds from 1970-01-01T00:00:00Z; a Python `datetime` holds the instants from 0001-01-01T00:00:00 to 9999-12-31T23:59:59 (`Store.EarliestInstant` to `Store.LatestInstant`). How the command ended is an input (`Execution`), and so is the configuration (`Config`). A statement whose `WHERE id=?` matches no row leaves the store unchanged.

There are two store invariants. `WorkerMatchesState` says a job is processing exactly when a worker holds it. `FailedWithinBudget` says a failed job has attempts below its limit.

- Both are kept by the sweep, the claim, `complete`, `retry_from_dlq`, and `enqueue` of a job that starts pending.
- `increment_attempts` keeps only `WorkerMatchesState`. Applied on its own to a failed job at attempts 2 of 3, it leaves that job failed at 3 of 3.
- `reschedule_or_dead` keeps `WorkerMatchesState` always. It keeps `FailedWithinBudget` only when it is passed the row's own attempts and limit, as the worker passes them.
- The worker's step on a claimed job, which counts the attempt and then reschedules, keeps both. So does the whole worker loop when the worker starts holding no job (`Worker.WorkerDrainsBeforeStopping`).

Six behaviours follow the code exactly:

- `enqueue` defaults `max_retries` to the constant 3. The configuration key `max_retries` is seeded but never read by `enqueue`.
- A duplicate id is rejected. The plain `INSERT` into the primary-key column raises, so the store is left unchanged.
- An `attempts`, `max_retries`, `priority` or `timeout_secs` outside SQLite's signed 64-bit INTEGER range is rejected too: binding it raises `OverflowError` before the `INSERT` runs, so the store is left unchanged.
- `complete` does not check the job's current state.
- `backoff_base` is parsed with `int()` only after a failed attempt has been counted. A value `int()` rejects ends the worker there, and the job stays processing under that worker with the extra attempt.
- The retry instant `utcnow() + timedelta(seconds=base ** attempts)` is also formed only after the attempt has been counted. When it falls outside what a `datetime` holds (for base 2, from about the 38th attempt), `reschedule_or_dead` raises `OverflowError` with the same outcome.

The rows of equal priority, `next_run_at` and `created_at` are a full tie. SQLite may return any one of them. The model breaks such ties by the smaller id, so that `ClaimNext` is a function. Every contract about the claim speaks only of the three-column order, so it holds for any tie-break.

## Model

| member | source | states |
|---|---|---|
| `Store.Enqueue` | core/db.py:64-91 | Rejects, with the store unchanged, a request whose integers do not fit SQLite's 64-bit INTEGER, and otherwise a duplicate id. Otherwise it adds exactly one row and leaves every other row and every run alone. The new row stores the caller's command. Its state, attempts, `max_retries`, priority and `created_at` are the caller's when given, and otherwise pending, 0, 3, 100 and now. It has no worker and no error, and `updated_at` is now. Its `next_run_at` is the given `next_run_at`, else `run_at`, else now, so it is never NULL. A missing or zero timeout is stored as NULL, and any other timeout is kept. |
| `Store.EnqueueDefaults` | core/db.py:66-80 | With only id and command given, the job is pending with 0 attempts, 3 retries and priority 100. It was created now, is due now, and has no timeout, worker or error. |
| `Store.EnqueueKeepsInvariants` | core/db.py:69-79 | A job that starts pending keeps both store invariants. |
| `Store.EnqueueAssignsNoWorker` | core/db.py:78 | Enqueue never gives any job a worker. |
| `Store.Sweep` | core/db.py:189-197 | Exactly the failed jobs that are due (NULL or `next_run_at` ≤ now) become pending. Only their state and `updated_at` change, and every other row is unchanged. Afterwards no due failed job is left. |
| `Store.SweepIdempotent` | core/db.py:193-197 | Sweeping twice at the same instant is the same as sweeping once. |
| `Store.SweepKeepsInvariants` | core/db.py:193-197 | The sweep keeps both store invariants. |
| `Store.SweepAssignsNoWorker` | core/db.py:195 | The sweep never gives a job a worker. |
| `Store.Select` | core/db.py:138-144 | Returns nothing exactly when no job is pending and due. Otherwise it returns a pending, due job that sorts no later than any other eligible job under (priority, `next_run_at` with NULL first, `created_at`). |
| `Store.ClaimNext` | core/db.py:127-149 | Sweeps first. The claim is empty exactly when no swept job is eligible, and then the store is the swept store. Otherwise the claimed job was eligible and minimal in claim order among eligible jobs. It becomes processing under the caller's name with `updated_at` = now, and no other row changes. |
| `Store.ClaimNoneLeavesStoreUnchanged` | core/db.py:129-149 | Under the model's single clock instant, a claim that finds nothing leaves the store exactly as it was, sweep included: any failed job the sweep would move is itself claimable. |
| `Store.ConsecutiveClaimsDistinct` | core/db.py:135-145 | Two consecutive successful claims, by any workers at any instants, return different ids. A claimed job is never selected again while it is processing. |
| `Store.ClaimReadBackFindsClaimed` | core/db.py:151-157 | Suppose the worker held no processing job before the claim. Then afterwards the claimed job is the only processing row under its name. So the read-back by worker name returns the claimed row. |
| `Store.ClaimKeepsInvariants` | core/db.py:135-145 | Claiming keeps both store invariants. |
| `Store.IncrementAttempts` | core/db.py:160-164 | An unknown id fails the read-back. Otherwise attempts grows by exactly one and nothing else changes. It returns the new attempts and the row's `max_retries`. |
| `Store.IncrementKeepsWorkerInvariant` | core/db.py:160-164 | Counting an attempt keeps the worker invariant. |
| `Store.IncrementAssignsNoWorker` | core/db.py:162 | Counting an attempt never gives a job a worker. |
| `Store.Complete` | core/db.py:166-169 | The job becomes completed with no worker and `updated_at` = now. Every other column is unchanged: attempts, `next_run_at`, last error, command, limit, priority, `created_at`, `run_at` and timeout. Other rows are untouched, and an unknown id is a no-op. |
| `Store.CompleteKeepsInvariants` | core/db.py:166-169 | Completing keeps both store invariants. |
| `Store.CompleteAssignsNoWorker` | core/db.py:169 | Completing never gives a job a worker. |
| `Store.Backoff` | core/db.py:174-182 | Dead-letters exactly when attempts ≥ `max_retries`. Otherwise it is out of range exactly when now + `base ** attempts` is not a `datetime` instant, and else retries at that instant, which is strictly later than now when base ≥ 1. |
| `Store.RescheduleOrDead` | core/db.py:171-187 | Raises exactly when a retry is due and its instant is not a `datetime` instant, whether or not the row exists. Otherwise: when attempts ≥ `max_retries`, the job goes to dead and `next_run_at` is unchanged. Otherwise it goes to failed with `next_run_at` = now + `base ** attempts`. Both branches clear the worker, record the error and set `updated_at` = now. They keep the stored attempts, command, limit, priority, `created_at`, `run_at` and timeout. Other rows are untouched, and an unknown id is a no-op. |
| `Store.RescheduleNeverMovesRetryEarlier` | core/db.py:179-187 | For a job that was due and a base ≥ 0, a reschedule that does not raise leaves a `next_run_at`, and the new `next_run_at` is never earlier than the old one. |
| `Store.RescheduleKeepsInvariants` | core/db.py:171-187 | When it does not raise, it keeps the worker invariant. It also keeps the retry budget when it is passed the row's own attempts and limit. |
| `Store.RescheduleAssignsNoWorker` | core/db.py:176-185 | A reschedule that does not raise never gives a job a worker. |
| `Store.RetryFromDlq` | core/db.py:118-124 | Only a dead job changes. It becomes pending with 0 attempts, no error, and `next_run_at` = `updated_at` = now. It keeps its worker, command, limit, priority, `created_at`, `run_at` and timeout. Any other state, or an unknown id, is a no-op. |
| `Store.RetriedJobIsClaimable` | core/db.py:118-124 | After a dead job is retried at t, it is eligible at any instant ≥ t, even after the sweep. A claim then claims either it or a job that sorts no later than it. |
| `Store.RetryKeepsInvariants` | core/db.py:118-124 | Retrying from the dead-letter state keeps both store invariants. |
| `Store.RetryAssignsNoWorker` | core/db.py:122 | Retrying never gives a job a worker. |
| `Store.CountStats` | core/db.py:106-116 | Each per-state count is the number of jobs in that state, so none exceeds the number of jobs; the run total is the number of runs. |
| `Store.EnqueueCountedInStats` | core/db.py:106-116 | A successful enqueue of a job that starts pending raises the pending count and the job total by one and leaves every other count as it was. |
| `Store.CompleteCountedInStats` | core/db.py:166-169 | Completing a processing job lowers the processing count by one and raises the completed count by one; the other counts, the job total and the run total are unchanged. |
| `Store.RecordRun` | core/db.py:205-212 | The new run is appended after all earlier runs, which stay as they were, and no job changes. |
| `Store.RecordRunCountedInStats` | core/db.py:106-116 | Recording a run raises the run total of `stats` by one and leaves every job count as it was. |
| `Store.StatsTotalIsJobCount` | core/db.py:106-116 | The five per-state counts sum to the number of jobs, and the run total is the number of runs. |
| `Jobs.BackoffGrows` | core/db.py:181 | With base ≥ 1 the delay is at least one second and never shrinks from one attempt to the next. |
| `Jobs.BackoffNonNegative` | core/db.py:181 | With base ≥ 0 the delay is never negative. |
| `Worker.EffectiveTimeout` | core/worker.py:21-30 | Uses the job's timeout when it is set and non-zero. Otherwise it uses the configured default, and 60 when that is unset. The result is 0 only when the configuration says 0. |
| `Worker.EnqueuedTimeoutHonoured` | core/worker.py:30 | Storing 0 as NULL and reading "0 or NULL" as the default work together. A job that enqueue accepted runs under the timeout it was enqueued with whenever that was given and non-zero. |
| `Worker.Classify` | core/worker.py:52-64 | The exit code is the return code on a normal exit, 124 on a timeout and 1 on any other exception. It is 0 exactly on a clean exit. On a timeout the stdout count is 0 and the stderr count is 16 plus the digits of the timeout. The stderr count always equals the bytes appended to the stderr log. |
| `Worker.ClassifyAsWritten` | core/worker.py:59-63 | On an exception, the stderr count is the character length of `exception: <text>` plus one. |
| `Worker.AsWrittenMiscountsNonAsciiError` | core/worker.py:61-63 | For the exception text `é`, the worker records 13 stderr bytes while 14 bytes are appended. |
| `Worker.AsWrittenExactForAsciiMessages` | core/worker.py:53-63 | The worker's own count equals the byte count for every timeout, and for exceptions whose text is ASCII. |
| `Worker.TimeoutMessageNamesTimeout` | core/worker.py:55-57 | The timeout message is `timeout after <n>s`, and its number reads back as the timeout. |
| `Worker.TimeoutMessageIsAscii` | core/worker.py:55-57 | The timeout message has 15 characters plus the digits of the timeout. It is ASCII, so its UTF-8 length equals its character length. |
| `Worker.ExitErrorNamesCode` | core/worker.py:74 | The recorded error is `exit:<code>`, and its number reads back as the exit code. |
| `Worker.WorkerStep` | core/worker.py:66-74 | Appends exactly one run and keeps the earlier runs as a prefix. The run carries the job id, both timestamps, the classified exit code, the stdout byte count and `Classify`'s UTF-8 stderr byte count. It touches no other job. The step aborts exactly when the exit code is non-zero and either the count's read-back finds no row, or the backoff base does not parse, or the retry instant it gives is not a `datetime` instant. In the first case only the run is added. In the others the job also gains one attempt and nothing else. |
| `Worker.SuccessCompletes` | core/worker.py:69-70 | Exit code 0 completes the job with no worker, without counting an attempt and without moving `next_run_at`. |
| `Worker.FailureCountsOneAttempt` | core/worker.py:71-74 | With a backoff base that parses, a non-zero exit counts exactly one attempt. The step finishes exactly when no retry is due or the retry instant is a `datetime` instant. A finished step records `exit:<code>` and releases the worker. The job goes to dead once attempts reach the limit, keeping `next_run_at`. Otherwise it goes to failed, due `base ** attempts` seconds after the instant taken for the outcome write, with base 2 when it is not configured. |
| `Worker.FollowUpRaiseStrandsJob` | core/worker.py:72-74 | With a backoff base that `int()` rejects, or a retry instant outside `datetime`, a non-zero exit aborts the step. The job keeps its state and worker, its error and its `next_run_at`, and gains one attempt. |
| `Worker.FirstFailureOfSingleRetryJobIsDead` | core/worker.py:71-74 | With a backoff base that parses, the first failure of a job with `max_retries` = 1 sets attempts to 1 and sends the job straight to dead. |
| `Worker.StepSettlesJob` | core/worker.py:69-74 | A step on a present job finishes exactly when the exit code is 0 or the follow-up does not raise: the backoff base parses and any retry instant is a `datetime` instant. A finished step leaves the job completed, failed or dead with no worker. |
| `Worker.StepKeepsInvariants` | core/worker.py:66-74 | A step on a processing job keeps both store invariants, whether it finishes or aborts. |
| `Worker.StepReleasesWorker` | core/worker.py:66-74 | Suppose the worker held only the job being handled. After a finished step it holds nothing. After an aborted step it still holds that job. |
| `Worker.Pass` | core/worker.py:23-74 | One pass of the loop body. A pass that claims nothing does not abort, and under the single clock instant it leaves the store unchanged. A pass that claims a job claims a present one and adds exactly one run for it, keeping the earlier ones. It aborts exactly when it claimed a job, the exit code is non-zero and the follow-up raises for the job's attempts plus one. An aborted pass leaves the claimed job with a failed last run whose follow-up raised. |
| `Worker.PassKeepsInvariants` | core/worker.py:23-74 | Every pass keeps both store invariants, whether its step finishes or aborts. |
| `Worker.PassSettlesClaim` | core/worker.py:23-74 | Unless the pass aborts, the job it claimed is completed, failed or dead with no worker by its end. |
| `Worker.PassEndsIdle` | core/worker.py:23-74 | Start from a worker holding no job, with both invariants holding. After a pass both invariants still hold. Unless the pass aborted, the claimed job is completed, failed or dead and the worker holds no job. After an aborted pass the worker holds exactly the job it claimed. |
| `Worker.PassKeepsReleased` | core/worker.py:23-74 | A pass that does not abort leaves no job processing that was not processing before it. |
| `Worker.RunWorker` | core/worker.py:22-74 | A stop flag set at the head of a pass ends the loop with the store unchanged. The runs added are one per settled job plus one for a stranded job, and earlier runs are kept. A job is left stranded only when its last run failed and its follow-up raised: the backoff base does not parse or the retry instant is not a `datetime` instant. |
| `Worker.WorkerDrainsBeforeStopping` | core/worker.py:22-74 | Start from a worker holding no job, with both invariants holding. When the loop ends, both invariants hold. The worker holds no job, unless an exception stranded one, and then it holds exactly that job. |
| `Worker.LoopReleasesSettledJobs` | core/worker.py:22-74 | When the loop ends without an exception, no job it claimed and handled to the end is processing. |
| `Worker.LoopKeepsReleased` | core/worker.py:22-74 | A loop that ends without an exception leaves no job processing that was not processing before it. |
| `Worker.SingleJobLifecycle` | core/worker.py:23-74 | On an empty store, a default job enqueued at t is claimed by the next claim at or after t. Its run is the only run. Exit 0 completes it with 0 attempts. With a backoff base that parses, any other exit gives it 1 attempt, and leaves it failed and due `base ** 1` seconds after the outcome instant when that is a `datetime` instant, or else aborted and still processing. |
| `Worker.FreshJobIsClaimed` | core/db.py:64-145 | On an empty store, a job enqueued with no overrides at t is taken by the next claim at or after t. It is processing, held by the claiming worker, with 0 attempts and the default limit of 3, and there are no runs. |
| `NullIds.ClaimAsWritten` | core/db.py:135-149 | With NULL-id rows in the table, the claim finds nothing exactly when no keyed job is eligible or an eligible NULL-id row sorts strictly before every eligible keyed job. The store is then the swept store. Otherwise it is the keyed claim. |
| `NullIds.NullIdStallsClaims` | core/db.py:138-149 | With one due pending keyed job `a` at priority 100 and one NULL-id row at priority 0, the claim as written finds nothing, while the keyed claim takes `a`. |

## Findings

| source | as written | input that shows it | evidently intended | confidence | as-written member | corrected member |
|---|---|---|---|---|---|---|
| core/worker.py:61-63 | `bytes_err = len(msg) + 1` counts the characters of the exception message. The log receives `msg.encode("utf-8") + b"\n"`. | An exception whose text is `é`: 13 is recorded while 14 bytes are appended. | `bytes_stderr` is the number of bytes appended to the stderr log, as it is on the normal-exit path. | medium, not executed | `Worker.ClassifyAsWritten` (shown by `Worker.AsWrittenMiscountsNonAsciiError`) | `Worker.Classify` (used by `Worker.WorkerStep`) |
| core/db.py:138-149 | `id TEXT PRIMARY KEY` (core/db.py:8) admits NULL, and `enqueue` stores `job["id"]` unchecked. The sub-select can return a NULL id, and `WHERE id = NULL` matches no row, so the claim returns None. | `enqueue '{"id": null, "command": "true", "priority": 0}'` next to a due pending job `a` at priority 100: every claim finds nothing while that row is first. | A job id is never NULL, so a claim finds nothing only when no job is eligible. | medium, not executed | `NullIds.ClaimAsWritten` (shown by `NullIds.NullIdStallsClaims`) | `Store.ClaimNext` (ids are non-null strings) |

## Left out

- SQLite connections, transactions and the multi-process claim race are not modelled. Each SQL statement is one atomic transition, and "at most one claimer" becomes the sequential fact `Store.ConsecutiveClaimsDistinct`.
- Running the command, capturing its output and appending to the log files are not modelled. How the command ended, and its byte counts, are inputs.
- ISO-8601 timestamp strings and their string comparison are replaced by integer seconds. So are `utcnow` and the float `duration_ms` of `record_run`; the duration is derived from the run's two timestamps.
- Store.ClaimNext: the source reads the clock twice (once for the claim, once slightly later for the sweep). The model uses one instant for both, so a failed job that comes due between the two reads is not modelled.
- Store.ClaimNoneLeavesStoreUnchanged: holds only because the claim and the sweep share one instant. In the source the sweep reads a later clock, possibly after a lock wait of up to 30 seconds. A failed job that comes due between the two reads is moved to pending, while the claim, filtering on the earlier instant, still returns None. So the source can change the store on a claim that finds nothing.
- Store.ClaimNext: full ties in the claim order are broken by id. SQLite returns whichever tied row it meets first.
- Store.ClaimNext: the claim returns the claimed id directly. The source re-reads the newest processing row under the worker's name. The two agree when the worker held no other job (`Store.ClaimReadBackFindsClaimed`), which the worker loop guarantees.
- Store.Enqueue: a `state` outside the five values is not representable. A caller-supplied non-pending state is modelled, but the invariant lemmas assume the job starts pending.
- Store.Enqueue: these raise before the store is touched and are not modelled (the 64-bit range check is): a missing `id` or `command`; an explicit null `command`, `state` or `created_at` (all NOT NULL columns); an explicit null or unparsable `attempts`, `max_retries`, `priority` or `timeout_secs` (`int()` rejects it).
- An explicit null `run_at` or `next_run_at` behaves exactly like an absent key (`.get` and `or`), so the model's `None` covers it.
- Store.Enqueue: an explicit null `id` is not representable, because ids are strings. The source stores it; see Findings and `NullIds.ClaimAsWritten`.
- Store.Enqueue: `next_run_at or run_at or now` also skips an empty string. Timestamps are integers here, so an empty timestamp string has no counterpart.
- Store.Enqueue: `attempts` is a natural number. The source's `int(job.get("attempts", 0))` also accepts a negative count, and that case is not modelled.
- Store.RescheduleOrDead: negative attempts are not modelled (attempts is a natural number). Those would give a fractional `base ** attempts`. The retry-instant `OverflowError` is modelled for a clock reading inside the `datetime` range; the model does not constrain `now` itself.
- NullIds.ClaimAsWritten: a NULL-id row that ties with the first keyed row on all three sort columns is taken to lose. SQLite's choice between tied rows is unspecified, so the source may pick the NULL row and stall in that case too.
- `get`, `list`, `recent_runs` and `log_paths_for` are read-only queries or path conventions. They have no state change worth proving and are not modelled.
- The configuration store (core/config.py) is not part of this model. Its values enter as `Worker.Config`: an unset or empty key is `None` or `Unset`, and a stored "0" stays 0. `config set` stores any text, so a value can fail `int()`.
- A `poll_interval_ms` or `default_timeout_secs` that `int()` rejects raises at the top of `WorkerProcess.run`, before the first claim. The worker then ends without touching the store, the same outcome as a stop flag set before the first pass. The model has no separate case for it.
- `poll_interval_ms` and the sleep between empty polls are not modelled. An empty pass changes nothing under the single claim/sweep instant (see the `Store.ClaimNoneLeavesStoreUnchanged` line).
- A negative `poll_interval_ms` makes `time.sleep` raise `ValueError` on the first pass that claims nothing, ending the worker with no job held. The model keeps polling.
- `backoff_base` is one value for the whole loop. The source re-reads it on every failure.
- Worker.WorkerStep: the run records `Classify`'s stderr count, the number of UTF-8 bytes appended. The source records `ClassifyAsWritten`'s character count, which differs only for an exception text outside ASCII (see Findings and `Worker.AsWrittenExactForAsciiMessages`).
- Worker.WorkerStep: one instant `finishedAt` stands for several clock reads: the `finished` stamp, the `now` of `complete` or `reschedule_or_dead`, and the separate `utcnow()` behind `next_run`. Each sits behind its own connection, which may wait up to 30 seconds for a lock. So "due `base ** attempts` seconds after the outcome instant" is exact only up to those gaps.
- Worker.Pass: a pass that claims nothing leaves the store unchanged only under the single claim/sweep instant. In the source it may have moved failed jobs to pending (see the `Store.ClaimNoneLeavesStoreUnchanged` line).
- Worker.Pass: one instant `at` stands for both the claim's `now` and the run's `started` stamp, which the source reads separately.
- Worker.RunWorker: the loop runs over a finite sequence of passes. An exception raised while writing the synthetic stderr message ends the worker process, and that case is not modelled.
- `WorkerManager` (start, stop, join with a 10-second bound, liveness) is not modelled beyond the shared stop flag read at the head of each pass.
- The command-line interface, the HTML dashboard and the packaging and demo scripts are not part of this model.
