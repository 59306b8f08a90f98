/** The job store of core/db.py: every SQL mutation is one total function from
    the store before the statement to the store after it. A statement whose
    `WHERE id=?` matches no row leaves the store as it was. */
module Store {
  import opened Wrappers
  import opened Jobs

  datatype StoreError =
    | DuplicateId(id: string)    // INSERT into the primary key column refused
    | NoSuchJob(id: string)      // a read-back found no row
    | IntegerOutOfRange          // a bound integer does not fit SQLite's INTEGER
    | RetryTimeOutOfRange        // the retry instant lies outside `datetime`

  /* ---------- enqueue ---------- */

  /** The keys a caller may put in the job dictionary; `None` is an absent key. */
  datatype Request = Request(
    id: string,
    command: string,
    state: Option<State>,
    attempts: Option<nat>,
    maxRetries: Option<int>,
    priority: Option<int>,
    createdAt: Option<int>,
    runAt: Option<int>,
    nextRunAt: Option<int>,
    timeout: Option<int>
  )

  /** SQLite stores an INTEGER in 64 bits; binding a Python int outside that
      range raises before the statement runs. */
  predicate FitsSqliteInteger(n: int) {
    -0x8000_0000_0000_0000 <= n < 0x8000_0000_0000_0000
  }

  /** Every integer the caller supplied can be bound. Timestamps are bound as
      text and have no such limit. */
  predicate RequestFits(req: Request) {
    && FitsSqliteInteger(req.attempts.GetOr(0))
    && FitsSqliteInteger(req.maxRetries.GetOr(0))
    && FitsSqliteInteger(req.priority.GetOr(0))
    && FitsSqliteInteger(req.timeout.GetOr(0))
  }

  const DefaultMaxRetries: int := 3
  const DefaultPriority: int := 100

  /** Only the id and the command are given. */
  predicate NoOverrides(req: Request) {
    && req.state.None? && req.attempts.None? && req.maxRetries.None?
    && req.priority.None? && req.createdAt.None? && req.runAt.None?
    && req.nextRunAt.None? && req.timeout.None?
  }

  /** The caller did not ask for a state other than pending. */
  predicate StartsPending(req: Request) {
    req.state.None? || req.state == Some(Pending)
  }

  /** The row enqueue builds: each absent key takes its default, the first
      present of next_run_at and run_at (else now) becomes next_run_at, and a
      zero timeout is stored as NULL. */
  function NewRow(req: Request, now: int): Job {
    Job(
      command := req.command,
      state := req.state.GetOr(Pending),
      attempts := req.attempts.GetOr(0),
      maxRetries := req.maxRetries.GetOr(DefaultMaxRetries),
      priority := req.priority.GetOr(DefaultPriority),
      createdAt := req.createdAt.GetOr(now),
      updatedAt := now,
      runAt := req.runAt,
      nextRunAt := Some(req.nextRunAt.GetOr(req.runAt.GetOr(now))),
      timeout := if req.timeout.GetOr(0) == 0 then None else req.timeout,
      worker := None,
      lastError := None
    )
  }

  /** The store after `enqueue`, and the row it returns or the error it raises. */
  datatype Enqueued = Enqueued(q: Queue, result: Result<Job, StoreError>)

  function Enqueue(q: Queue, req: Request, now: int): (r: Enqueued)
    ensures r.result.Failure? <==> !RequestFits(req) || req.id in q.jobs
    ensures r.result.Failure? ==> r.q == q
    ensures !RequestFits(req) ==> r.result == Failure(IntegerOutOfRange)
    ensures RequestFits(req) && req.id in q.jobs ==> r.result == Failure(DuplicateId(req.id))
    ensures r.result.Success? ==>
      && r.q.runs == q.runs
      && r.q.jobs.Keys == q.jobs.Keys + {req.id}
      && (forall k :: k in q.jobs ==> r.q.jobs[k] == q.jobs[k])
      && r.q.jobs[req.id] == r.result.value
    ensures r.result.Success? ==>
      var j := r.result.value;
      && j.command == req.command
      && j.state == req.state.GetOr(Pending) && j.attempts == req.attempts.GetOr(0)
      && j.maxRetries == req.maxRetries.GetOr(DefaultMaxRetries)
      && j.priority == req.priority.GetOr(DefaultPriority)
      && j.createdAt == req.createdAt.GetOr(now)
      && j.worker.None? && j.lastError.None? && j.updatedAt == now
      && j.runAt == req.runAt
      && j.nextRunAt.Some?
      && (req.nextRunAt.Some? ==> j.nextRunAt == req.nextRunAt)
      && (req.nextRunAt.None? && req.runAt.Some? ==> j.nextRunAt == req.runAt)
      && (req.nextRunAt.None? && req.runAt.None? ==> j.nextRunAt == Some(now))
      && (j.timeout.None? <==> req.timeout.None? || req.timeout == Some(0))
      && (j.timeout.Some? ==> j.timeout == req.timeout)
  {
    if !RequestFits(req) then Enqueued(q, Failure(IntegerOutOfRange))
    else if req.id in q.jobs then Enqueued(q, Failure(DuplicateId(req.id)))
    else
      var j := NewRow(req, now);
      Enqueued(Queue(q.jobs[req.id := j], q.runs), Success(j))
  }

  /** With no overrides a job starts pending, with no attempts, three retries,
      priority 100, due immediately, no timeout, no worker and no error. */
  lemma EnqueueDefaults(q: Queue, req: Request, now: int)
    requires NoOverrides(req) && req.id !in q.jobs
    ensures Enqueue(q, req, now).result.Success?
    ensures var j := Enqueue(q, req, now).result.value;
      && j.state == Pending && j.attempts == 0
      && j.maxRetries == 3 && j.priority == 100
      && j.createdAt == now && j.nextRunAt == Some(now)
      && j.timeout.None? && j.worker.None? && j.lastError.None?
  {
  }

  /** Enqueueing a job that starts pending keeps both store invariants. */
  lemma EnqueueKeepsInvariants(q: Queue, req: Request, now: int)
    requires StartsPending(req)
    requires WorkerMatchesState(q.jobs) && FailedWithinBudget(q.jobs)
    ensures WorkerMatchesState(Enqueue(q, req, now).q.jobs)
    ensures FailedWithinBudget(Enqueue(q, req, now).q.jobs)
  {
  }

  /* ---------- the due-retry sweep ---------- */

  /** `move_failed_to_pending`: every failed job that is due becomes pending. */
  function Sweep(jobs: map<string, Job>, now: int): (r: map<string, Job>)
    ensures r.Keys == jobs.Keys
    ensures forall k :: k in jobs && DueRetry(jobs[k], now) ==>
      r[k].state == Pending && r[k].updatedAt == now && OnlyStateChanged(jobs[k], r[k])
    ensures forall k :: k in jobs && !DueRetry(jobs[k], now) ==> r[k] == jobs[k]
    ensures forall k :: k in r ==> !DueRetry(r[k], now)
  {
    map k | k in jobs :: if DueRetry(jobs[k], now) then jobs[k].(state := Pending, updatedAt := now) else jobs[k]
  }

  /** Sweeping twice at the same instant is sweeping once. */
  lemma SweepIdempotent(jobs: map<string, Job>, now: int)
    ensures Sweep(Sweep(jobs, now), now) == Sweep(jobs, now)
  {
  }

  lemma SweepKeepsInvariants(jobs: map<string, Job>, now: int)
    requires WorkerMatchesState(jobs) && FailedWithinBudget(jobs)
    ensures WorkerMatchesState(Sweep(jobs, now)) && FailedWithinBudget(Sweep(jobs, now))
  {
  }

  /* ---------- claim_next ---------- */

  /** The id the claim's sub-select returns: the first eligible job under
      `ORDER BY priority, next_run_at, created_at`; rows that agree on all three
      are ranked by id. */
  function Select(jobs: map<string, Job>, now: int): (r: Option<string>)
    ensures r.None? <==> forall k :: k in jobs ==> !Eligible(jobs[k], now)
    ensures r.Some? ==>
      && r.value in jobs && Eligible(jobs[r.value], now)
      && forall k :: k in jobs && Eligible(jobs[k], now) ==> SortsNoLater(jobs[r.value], jobs[k])
  {
    var eligible := set k | k in jobs && Eligible(jobs[k], now);
    if eligible == {} then
      assert forall k :: k in jobs ==> !Eligible(jobs[k], now) by {
        forall k | k in jobs ensures !Eligible(jobs[k], now) {
          assert k !in eligible;
        }
      }
      None
    else
      FirstExists(jobs, eligible);
      FirstUnique(jobs, eligible);
      var k :| IsFirst(jobs, eligible, k);
      assert forall k' :: k' in jobs && Eligible(jobs[k'], now) ==> SortsNoLater(jobs[k], jobs[k']) by {
        forall k' | k' in jobs && Eligible(jobs[k'], now) ensures SortsNoLater(jobs[k], jobs[k']) {
          assert k' in eligible;
          assert RankLe(jobs, k, k');
        }
      }
      Some(k)
  }

  /** The store after `claim_next`, and the id of the job it claimed. */
  datatype Claim = Claim(q: Queue, claimed: Option<string>)

  /** `claim_next(name)`: sweep, then move the first eligible job to
      processing under `name`. */
  function ClaimNext(q: Queue, name: string, now: int): (r: Claim)
    ensures r.q.runs == q.runs && r.q.jobs.Keys == q.jobs.Keys
    ensures var swept := Sweep(q.jobs, now);
      && (r.claimed.None? <==> forall k :: k in swept ==> !Eligible(swept[k], now))
      && (r.claimed.None? ==> r.q.jobs == swept)
    ensures var swept := Sweep(q.jobs, now);
      r.claimed.Some? ==>
        var id := r.claimed.value;
        && id in swept && Eligible(swept[id], now)
        && (forall k :: k in swept && Eligible(swept[k], now) ==> SortsNoLater(swept[id], swept[k]))
        && r.q.jobs[id] == swept[id].(state := Processing, worker := Some(name), updatedAt := now)
        && (forall k :: k in swept && k != id ==> r.q.jobs[k] == swept[k])
  {
    var swept := Sweep(q.jobs, now);
    match Select(swept, now)
    case None => Claim(Queue(swept, q.runs), None)
    case Some(id) =>
      Claim(Queue(swept[id := swept[id].(state := Processing, worker := Some(name), updatedAt := now)], q.runs), Some(id))
  }

  /** At one instant, a claim that finds nothing changes nothing: any job the sweep would have
      moved would itself have been eligible. */
  lemma ClaimNoneLeavesStoreUnchanged(q: Queue, name: string, now: int)
    requires ClaimNext(q, name, now).claimed.None?
    ensures ClaimNext(q, name, now).q == q
  {
    var swept := Sweep(q.jobs, now);
    forall k | k in q.jobs
      ensures !DueRetry(q.jobs[k], now)
    {
      assert !Eligible(swept[k], now);
    }
    assert swept == q.jobs;
  }

  /** A claimed job is processing, so no later claim, by any worker at any
      time, selects it again: two consecutive claims return distinct ids. */
  lemma ConsecutiveClaimsDistinct(q: Queue, a: string, b: string, now1: int, now2: int)
    requires ClaimNext(q, a, now1).claimed.Some?
    requires ClaimNext(ClaimNext(q, a, now1).q, b, now2).claimed.Some?
    ensures ClaimNext(ClaimNext(q, a, now1).q, b, now2).claimed.value != ClaimNext(q, a, now1).claimed.value
  {
    var first := ClaimNext(q, a, now1);
    var id := first.claimed.value;
    assert first.q.jobs[id].state == Processing;
    assert Sweep(first.q.jobs, now2)[id].state == Processing;
  }

  /** When the worker held nothing before, the claimed job is the only
      processing row under its name, so the read-back by worker name returns
      exactly the claimed row. */
  lemma ClaimReadBackFindsClaimed(q: Queue, name: string, now: int)
    requires HeldBy(q.jobs, name) == {}
    requires ClaimNext(q, name, now).claimed.Some?
    ensures HeldBy(ClaimNext(q, name, now).q.jobs, name) == {ClaimNext(q, name, now).claimed.value}
  {
    var r := ClaimNext(q, name, now);
    var swept := Sweep(q.jobs, now);
    forall k | k in r.q.jobs && k != r.claimed.value
      ensures k !in HeldBy(r.q.jobs, name)
    {
      assert k !in HeldBy(q.jobs, name);
      if DueRetry(q.jobs[k], now) {
        assert swept[k].state == Pending;
      } else {
        assert swept[k] == q.jobs[k];
      }
    }
  }

  lemma ClaimKeepsInvariants(q: Queue, name: string, now: int)
    requires WorkerMatchesState(q.jobs) && FailedWithinBudget(q.jobs)
    ensures WorkerMatchesState(ClaimNext(q, name, now).q.jobs)
    ensures FailedWithinBudget(ClaimNext(q, name, now).q.jobs)
  {
    SweepKeepsInvariants(q.jobs, now);
  }

  /* ---------- increment_attempts ---------- */

  /** The store after `increment_attempts`, and the row's new attempts and its
      retry limit as read back. */
  datatype Tally = Tally(q: Queue, attempts: nat, maxRetries: int)

  /** `increment_attempts(id)`: one more attempt; an unknown id makes the
      read-back fail. */
  function IncrementAttempts(q: Queue, id: string): (r: Result<Tally, StoreError>)
    ensures r.Failure? <==> id !in q.jobs
    ensures r.Failure? ==> r.error == NoSuchJob(id)
    ensures r.Success? ==>
      && r.value.attempts == q.jobs[id].attempts + 1
      && r.value.maxRetries == q.jobs[id].maxRetries
      && r.value.q.runs == q.runs
      && r.value.q.jobs.Keys == q.jobs.Keys
      && r.value.q.jobs[id].attempts == r.value.attempts
      && r.value.q.jobs[id] == q.jobs[id].(attempts := r.value.attempts)
      && (forall k :: k in q.jobs && k != id ==> r.value.q.jobs[k] == q.jobs[k])
  {
    if id !in q.jobs then Failure(NoSuchJob(id))
    else
      var j := q.jobs[id].(attempts := q.jobs[id].attempts + 1);
      Success(Tally(Queue(q.jobs[id := j], q.runs), j.attempts, j.maxRetries))
  }

  /* ---------- complete ---------- */

  /** `complete(id)`: the job is completed and released; it does not look at
      the current state. */
  function Complete(q: Queue, id: string, now: int): (r: Queue)
    ensures r.runs == q.runs && r.jobs.Keys == q.jobs.Keys
    ensures id !in q.jobs ==> r == q
    ensures id in q.jobs ==>
      && r.jobs[id].state == Completed && r.jobs[id].worker.None?
      && r.jobs[id].attempts == q.jobs[id].attempts
      && r.jobs[id].nextRunAt == q.jobs[id].nextRunAt
      && r.jobs[id].lastError == q.jobs[id].lastError
      && r.jobs[id].updatedAt == now
      && KeepsDefinition(q.jobs[id], r.jobs[id])
    ensures forall k :: k in q.jobs && k != id ==> r.jobs[k] == q.jobs[k]
  {
    if id !in q.jobs then q
    else Queue(q.jobs[id := q.jobs[id].(state := Completed, updatedAt := now, worker := None)], q.runs)
  }

  /* ---------- reschedule_or_dead ---------- */

  /** The instants a Python `datetime` can hold, in seconds from
      1970-01-01T00:00:00Z: 0001-01-01T00:00:00 to 9999-12-31T23:59:59. */
  const EarliestInstant: int := -62135596800
  const LatestInstant: int := 253402300799

  predicate Representable(t: int) {
    EarliestInstant <= t <= LatestInstant
  }

  /** A retry is due, but its instant `now + base ** attempts` is not a
      `datetime`: `timedelta` or the sum raises `OverflowError` (for a `now`
      the clock can return). */
  predicate RetryOutOfRange(attempts: nat, maxRetries: int, base: int, now: int) {
    attempts < maxRetries && !Representable(now + Pow(base, attempts))
  }

  /** The retry policy's decision after a failed attempt. */
  datatype Verdict = DeadLetter | RetryAt(when: int) | OutOfRange

  /** Dead-letter once the attempts reach the limit, else retry after
      `base ** attempts` seconds when that instant exists. */
  function Backoff(attempts: nat, maxRetries: int, base: int, now: int): (v: Verdict)
    ensures v.DeadLetter? <==> attempts >= maxRetries
    ensures v.OutOfRange? <==> RetryOutOfRange(attempts, maxRetries, base, now)
    ensures v.RetryAt? && base >= 1 ==> v.when > now
    ensures v.RetryAt? ==> v.when - now == Pow(base, attempts) && Representable(v.when)
  {
    if attempts >= maxRetries then DeadLetter
    else if !Representable(now + Pow(base, attempts)) then OutOfRange
    else
      if base >= 1 then BackoffGrows(base, attempts); RetryAt(now + Pow(base, attempts))
      else RetryAt(now + Pow(base, attempts))
  }

  /** `reschedule_or_dead`: dead with next_run_at kept, or failed with the
      retry time; both record the error and release the worker. The decision
      uses the `attempts` and `maxRetries` passed in, not the row's. A retry
      time outside `datetime` raises before the UPDATE, whether or not the
      row exists. */
  function RescheduleOrDead(q: Queue, id: string, error: string, attempts: nat, maxRetries: int, base: int, now: int): (r: Result<Queue, StoreError>)
    ensures r.Failure? <==> RetryOutOfRange(attempts, maxRetries, base, now)
    ensures r.Failure? ==> r.error == RetryTimeOutOfRange
    ensures r.Success? ==> r.value.runs == q.runs && r.value.jobs.Keys == q.jobs.Keys
    ensures r.Success? && id !in q.jobs ==> r.value == q
    ensures r.Success? && id in q.jobs ==>
      var j := r.value.jobs[id];
      && j.worker.None? && j.lastError == Some(error)
      && j.updatedAt == now
      && j.attempts == q.jobs[id].attempts
      && KeepsDefinition(q.jobs[id], j)
      && (attempts >= maxRetries ==> j.state == Dead && j.nextRunAt == q.jobs[id].nextRunAt)
      && (attempts < maxRetries ==> j.state == Failed && j.nextRunAt == Some(now + Pow(base, attempts)))
    ensures r.Success? ==> forall k :: k in q.jobs && k != id ==> r.value.jobs[k] == q.jobs[k]
  {
    var v := Backoff(attempts, maxRetries, base, now);
    if v.OutOfRange? then Failure(RetryTimeOutOfRange)
    else if id !in q.jobs then Success(q)
    else
      var j := q.jobs[id].(updatedAt := now, lastError := Some(error), worker := None);
      if v.DeadLetter? then Success(Queue(q.jobs[id := j.(state := Dead)], q.runs))
      else Success(Queue(q.jobs[id := j.(state := Failed, nextRunAt := Some(v.when))], q.runs))
  }

  /** For a job that was due when claimed and a base of at least zero, a
      failure never schedules the next run earlier than the previous one. */
  lemma RescheduleNeverMovesRetryEarlier(q: Queue, id: string, error: string, attempts: nat, maxRetries: int, base: int, now: int)
    requires id in q.jobs && DueBy(q.jobs[id].nextRunAt, now) && base >= 0
    requires q.jobs[id].nextRunAt.Some?
    ensures var r := RescheduleOrDead(q, id, error, attempts, maxRetries, base, now);
      r.Success? ==> r.value.jobs[id].nextRunAt.Some? && q.jobs[id].nextRunAt.value <= r.value.jobs[id].nextRunAt.value
  {
    BackoffNonNegative(base, attempts);
  }

  /* ---------- retry_from_dlq ---------- */

  /** `retry_from_dlq(id)`: only a dead job changes; it becomes pending, due
      now, with its attempts and error cleared. */
  function RetryFromDlq(q: Queue, id: string, now: int): (r: Queue)
    ensures r.runs == q.runs && r.jobs.Keys == q.jobs.Keys
    ensures !(id in q.jobs && q.jobs[id].state == Dead) ==> r == q
    ensures id in q.jobs && q.jobs[id].state == Dead ==>
      && r.jobs[id].state == Pending && r.jobs[id].attempts == 0
      && r.jobs[id].lastError.None? && r.jobs[id].nextRunAt == Some(now)
      && r.jobs[id].updatedAt == now
      && r.jobs[id].worker == q.jobs[id].worker
      && KeepsDefinition(q.jobs[id], r.jobs[id])
    ensures forall k :: k in q.jobs && k != id ==> r.jobs[k] == q.jobs[k]
  {
    if id in q.jobs && q.jobs[id].state == Dead then
      Queue(q.jobs[id := q.jobs[id].(state := Pending, attempts := 0, nextRunAt := Some(now), updatedAt := now, lastError := None)], q.runs)
    else q
  }

  /** A dead-lettered job, once retried at t, is eligible at any instant from
      t on, so a claim then takes it or a job that sorts no later than it. */
  lemma RetriedJobIsClaimable(q: Queue, id: string, t: int, name: string, now: int)
    requires id in q.jobs && q.jobs[id].state == Dead && t <= now
    ensures var swept := Sweep(RetryFromDlq(q, id, t).jobs, now);
      && id in swept && Eligible(swept[id], now)
      && var c := ClaimNext(RetryFromDlq(q, id, t), name, now);
         && c.claimed.Some?
         && SortsNoLater(swept[c.claimed.value], swept[id])
  {
    var q' := RetryFromDlq(q, id, t);
    var swept := Sweep(q'.jobs, now);
    assert swept[id] == q'.jobs[id];
    assert Eligible(swept[id], now);
  }

  /* ---------- invariant preservation for the outcome writes ---------- */

  lemma IncrementKeepsWorkerInvariant(q: Queue, id: string)
    requires WorkerMatchesState(q.jobs)
    ensures IncrementAttempts(q, id).Success? ==> WorkerMatchesState(IncrementAttempts(q, id).value.q.jobs)
  {
  }

  lemma CompleteKeepsInvariants(q: Queue, id: string, now: int)
    requires WorkerMatchesState(q.jobs) && FailedWithinBudget(q.jobs)
    ensures WorkerMatchesState(Complete(q, id, now).jobs) && FailedWithinBudget(Complete(q, id, now).jobs)
  {
  }

  /** The outcome write keeps the worker invariant; it keeps the retry budget
      when it is given the row's own attempts and limit. */
  lemma RescheduleKeepsInvariants(q: Queue, id: string, error: string, attempts: nat, maxRetries: int, base: int, now: int)
    requires WorkerMatchesState(q.jobs) && FailedWithinBudget(q.jobs)
    ensures var r := RescheduleOrDead(q, id, error, attempts, maxRetries, base, now);
      r.Success? ==> WorkerMatchesState(r.value.jobs)
    ensures var r := RescheduleOrDead(q, id, error, attempts, maxRetries, base, now);
      r.Success? && id in q.jobs && attempts == q.jobs[id].attempts && maxRetries == q.jobs[id].maxRetries ==>
        FailedWithinBudget(r.value.jobs)
  {
  }

  lemma RetryKeepsInvariants(q: Queue, id: string, now: int)
    requires WorkerMatchesState(q.jobs) && FailedWithinBudget(q.jobs)
    ensures WorkerMatchesState(RetryFromDlq(q, id, now).jobs) && FailedWithinBudget(RetryFromDlq(q, id, now).jobs)
  {
  }

  lemma EnqueueAssignsNoWorker(q: Queue, req: Request, now: int)
    ensures NoNewWorker(q.jobs, Enqueue(q, req, now).q.jobs)
  {
    var r := Enqueue(q, req, now);
    forall k | k in r.q.jobs && r.q.jobs[k].worker.Some?
      ensures k in q.jobs && q.jobs[k].worker == r.q.jobs[k].worker
    {
      assert r.result.Success? ==> k != req.id;
    }
  }

  lemma SweepAssignsNoWorker(q: Queue, now: int)
    ensures NoNewWorker(q.jobs, Sweep(q.jobs, now))
  {
  }

  lemma IncrementAssignsNoWorker(q: Queue, id: string)
    ensures IncrementAttempts(q, id).Success? ==> NoNewWorker(q.jobs, IncrementAttempts(q, id).value.q.jobs)
  {
  }

  lemma CompleteAssignsNoWorker(q: Queue, id: string, now: int)
    ensures NoNewWorker(q.jobs, Complete(q, id, now).jobs)
  {
  }

  lemma RescheduleAssignsNoWorker(q: Queue, id: string, error: string, attempts: nat, maxRetries: int, base: int, now: int)
    ensures var r := RescheduleOrDead(q, id, error, attempts, maxRetries, base, now);
      r.Success? ==> NoNewWorker(q.jobs, r.value.jobs)
  {
  }

  lemma RetryAssignsNoWorker(q: Queue, id: string, now: int)
    ensures NoNewWorker(q.jobs, RetryFromDlq(q, id, now).jobs)
  {
  }

  /* ---------- stats ---------- */

  /** The counts `stats` reports. */
  datatype Stats = Stats(pending: nat, processing: nat, completed: nat, failed: nat, dead: nat, totalJobs: nat, totalRuns: nat)

  function InState(jobs: map<string, Job>, s: State): set<string> {
    set k | k in jobs && jobs[k].state == s
  }

  /** `stats()`: jobs per state, their sum, and the number of runs. Each
      count is a count of distinct jobs, so none exceeds the table; that the
      five together make up the table is `StatsTotalIsJobCount`. */
  function CountStats(q: Queue): (r: Stats)
    ensures r.pending == |InState(q.jobs, Pending)| && r.processing == |InState(q.jobs, Processing)|
    ensures r.completed == |InState(q.jobs, Completed)| && r.failed == |InState(q.jobs, Failed)|
    ensures r.dead == |InState(q.jobs, Dead)|
    ensures r.pending <= |q.jobs| && r.processing <= |q.jobs| && r.completed <= |q.jobs|
    ensures r.failed <= |q.jobs| && r.dead <= |q.jobs|
    ensures r.totalRuns == |q.runs|
  {
    InStateWithinJobs(q.jobs, Pending);
    InStateWithinJobs(q.jobs, Processing);
    InStateWithinJobs(q.jobs, Completed);
    InStateWithinJobs(q.jobs, Failed);
    InStateWithinJobs(q.jobs, Dead);
    var p := |InState(q.jobs, Pending)|;
    var pr := |InState(q.jobs, Processing)|;
    var c := |InState(q.jobs, Completed)|;
    var f := |InState(q.jobs, Failed)|;
    var d := |InState(q.jobs, Dead)|;
    Stats(p, pr, c, f, d, p + pr + c + f + d, |q.runs|)
  }

  lemma InStateWithinJobs(jobs: map<string, Job>, s: State)
    ensures |InState(jobs, s)| <= |jobs|
  {
    assert InState(jobs, s) <= jobs.Keys;
    SubsetSize(InState(jobs, s), jobs.Keys);
  }

  lemma {:induction false} SubsetSize(a: set<string>, b: set<string>)
    requires a <= b
    ensures |a| <= |b|
    decreases |a|
  {
    if a != {} {
      var x :| x in a;
      SubsetSize(a - {x}, b - {x});
    }
  }

  /** `record_run`: appends one row to `job_runs` and touches no job. */
  function RecordRun(q: Queue, run: Run): (r: Queue)
    ensures r.jobs == q.jobs
    ensures |r.runs| == |q.runs| + 1 && r.runs[..|q.runs|] == q.runs && r.runs[|q.runs|] == run
  {
    Queue(q.jobs, q.runs + [run])
  }

  /** Recording a run raises the run total by one and leaves every job count
      as it was. */
  lemma RecordRunCountedInStats(q: Queue, run: Run)
    ensures var before := CountStats(q);
      var after := CountStats(RecordRun(q, run));
      && after.totalRuns == before.totalRuns + 1
      && after.(totalRuns := before.totalRuns) == before
  {
  }

  /** A successful enqueue of a job that starts pending raises the pending
      count and the job total by one and leaves every other count as it was. */
  lemma EnqueueCountedInStats(q: Queue, req: Request, now: int)
    requires StartsPending(req)
    ensures var r := Enqueue(q, req, now);
      var before := CountStats(q);
      var after := CountStats(r.q);
      r.result.Success? ==>
        && after.pending == before.pending + 1
        && after.(pending := before.pending, totalJobs := before.totalJobs) == before
        && after.totalJobs == before.totalJobs + 1
  {
    var r := Enqueue(q, req, now);
    if r.result.Success? {
      var id := req.id;
      assert InState(r.q.jobs, Pending) == InState(q.jobs, Pending) + {id};
      assert id !in InState(q.jobs, Pending);
      assert InState(r.q.jobs, Processing) == InState(q.jobs, Processing);
      assert InState(r.q.jobs, Completed) == InState(q.jobs, Completed);
      assert InState(r.q.jobs, Failed) == InState(q.jobs, Failed);
      assert InState(r.q.jobs, Dead) == InState(q.jobs, Dead);
    }
  }

  lemma InStateAfterReplace(jobs: map<string, Job>, id: string, j: Job, s: State)
    requires id in jobs
    ensures InState(jobs[id := j], s) == (InState(jobs, s) - {id}) + (if j.state == s then {id} else {})
  {
  }

  lemma RemoveAddSize(a: set<string>, x: string, add: bool)
    ensures |(a - {x}) + (if add then {x} else {})| + (if x in a then 1 else 0) == |a| + (if add then 1 else 0)
  {
    if x in a {
      assert a == (a - {x}) + {x};
    }
  }

  /** Replacing one row changes each state's count only by the row leaving
      its old state and entering its new one. */
  lemma ReplaceRowCount(jobs: map<string, Job>, id: string, j: Job, s: State)
    requires id in jobs
    ensures |InState(jobs[id := j], s)| + (if jobs[id].state == s then 1 else 0)
         == |InState(jobs, s)| + (if j.state == s then 1 else 0)
  {
    InStateAfterReplace(jobs, id, j, s);
    assert id in InState(jobs, s) <==> jobs[id].state == s;
    RemoveAddSize(InState(jobs, s), id, j.state == s);
  }

  /** Completing a processing job moves it from the processing count to the
      completed count; no other count changes. */
  lemma CompleteCountedInStats(q: Queue, id: string, now: int)
    requires id in q.jobs && q.jobs[id].state == Processing
    ensures var before := CountStats(q);
      var after := CountStats(Complete(q, id, now));
      && after.processing == before.processing - 1
      && after.completed == before.completed + 1
      && after.pending == before.pending && after.failed == before.failed && after.dead == before.dead
      && after.totalJobs == before.totalJobs && after.totalRuns == before.totalRuns
  {
    var j := q.jobs[id].(state := Completed, updatedAt := now, worker := None);
    assert Complete(q, id, now).jobs == q.jobs[id := j];
    ReplaceRowCount(q.jobs, id, j, Pending);
    ReplaceRowCount(q.jobs, id, j, Processing);
    ReplaceRowCount(q.jobs, id, j, Completed);
    ReplaceRowCount(q.jobs, id, j, Failed);
    ReplaceRowCount(q.jobs, id, j, Dead);
  }

  lemma DisjointUnionSize(a: set<string>, b: set<string>)
    requires a !! b
    ensures |a + b| == |a| + |b|
  {
  }

  /** Jobs in different states are in disjoint state sets. */
  lemma StateSetsDisjoint(jobs: map<string, Job>, s: State, t: State)
    requires s != t
    ensures InState(jobs, s) !! InState(jobs, t)
  {
  }

  /** Every job is in one of the five state sets. */
  lemma StatesPartitionJobs(jobs: map<string, Job>)
    ensures jobs.Keys == InState(jobs, Pending) + InState(jobs, Processing) + InState(jobs, Completed)
                         + InState(jobs, Failed) + InState(jobs, Dead)
  {
    forall k | k in jobs
      ensures k in InState(jobs, Pending) + InState(jobs, Processing) + InState(jobs, Completed)
                   + InState(jobs, Failed) + InState(jobs, Dead)
    {
      match jobs[k].state
      case Pending => assert k in InState(jobs, Pending);
      case Processing => assert k in InState(jobs, Processing);
      case Completed => assert k in InState(jobs, Completed);
      case Failed => assert k in InState(jobs, Failed);
      case Dead => assert k in InState(jobs, Dead);
    }
  }

  /** The per-state counts partition the table, so their sum is the number of
      jobs. */
  lemma StatsTotalIsJobCount(q: Queue)
    ensures CountStats(q).totalJobs == |q.jobs|
    ensures CountStats(q).totalRuns == |q.runs|
  {
    var P, Pr, C, F, D := InState(q.jobs, Pending), InState(q.jobs, Processing),
      InState(q.jobs, Completed), InState(q.jobs, Failed), InState(q.jobs, Dead);
    StateSetsDisjoint(q.jobs, Pending, Processing);
    StateSetsDisjoint(q.jobs, Pending, Completed);
    StateSetsDisjoint(q.jobs, Processing, Completed);
    StateSetsDisjoint(q.jobs, Pending, Failed);
    StateSetsDisjoint(q.jobs, Processing, Failed);
    StateSetsDisjoint(q.jobs, Completed, Failed);
    StateSetsDisjoint(q.jobs, Pending, Dead);
    StateSetsDisjoint(q.jobs, Processing, Dead);
    StateSetsDisjoint(q.jobs, Completed, Dead);
    StateSetsDisjoint(q.jobs, Failed, Dead);
    DisjointUnionSize(P, Pr);
    DisjointUnionSize(P + Pr, C);
    DisjointUnionSize(P + Pr + C, F);
    DisjointUnionSize(P + Pr + C + F, D);
    StatesPartitionJobs(q.jobs);
    assert |q.jobs| == |q.jobs.Keys|;
  }
}
