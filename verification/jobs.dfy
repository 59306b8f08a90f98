/** The persisted data of the queue: the `jobs` table (one row per job id),
    the append-only `job_runs` table, the scheduling order among eligible jobs,
    and the invariants the store keeps. Timestamps are integer seconds; a
    nullable column is an `Option`. */
module Jobs {
  import opened Wrappers
  import Strings

  /** The closed set of values of the `state` column. */
  datatype State = Pending | Processing | Completed | Failed | Dead

  /** One row of `jobs`, without its primary key (the key of the map that
      holds it). */
  datatype Job = Job(
    command: string,
    state: State,
    attempts: nat,
    maxRetries: int,
    priority: int,              // lower is scheduled earlier
    createdAt: int,
    updatedAt: int,
    runAt: Option<int>,         // the schedule given at enqueue
    nextRunAt: Option<int>,     // earliest time the job may run next
    timeout: Option<int>,       // per-job timeout in seconds; never Some(0) after enqueue
    worker: Option<string>,     // the worker holding the job
    lastError: Option<string>
  )

  /** One row of `job_runs`; its auto-increment id is its position plus one.
      The millisecond duration is derived from the two timestamps. */
  datatype Run = Run(
    jobId: string,
    startedAt: int,
    finishedAt: int,
    exitCode: int,
    bytesOut: nat,
    bytesErr: nat
  )

  /** The whole store: current job rows by id and every run ever recorded. */
  datatype Queue = Queue(jobs: map<string, Job>, runs: seq<Run>)

  /* ---------- Eligibility and scheduling order ---------- */

  /** A timestamp column that is NULL or not later than `now`. */
  predicate DueBy(t: Option<int>, now: int) {
    t.None? || t.value <= now
  }

  /** A job `claim_next` may pick: pending and due. */
  predicate Eligible(j: Job, now: int) {
    j.state == Pending && DueBy(j.nextRunAt, now)
  }

  /** A job the due-retry sweep moves back to pending: failed and due. */
  predicate DueRetry(j: Job, now: int) {
    j.state == Failed && DueBy(j.nextRunAt, now)
  }

  /** Ascending order of a nullable column as SQLite sorts it: NULL first. */
  predicate NullsFirstLt(a: Option<int>, b: Option<int>) {
    (a.None? && b.Some?) || (a.Some? && b.Some? && a.value < b.value)
  }

  /** `a` sorts strictly before `b` under
      `ORDER BY priority ASC, next_run_at ASC, created_at ASC`. */
  predicate SortsBefore(a: Job, b: Job) {
    || a.priority < b.priority
    || (a.priority == b.priority && NullsFirstLt(a.nextRunAt, b.nextRunAt))
    || (a.priority == b.priority && a.nextRunAt == b.nextRunAt && a.createdAt < b.createdAt)
  }

  /** `a` and `b` agree on every sort column. */
  predicate SortsWith(a: Job, b: Job) {
    a.priority == b.priority && a.nextRunAt == b.nextRunAt && a.createdAt == b.createdAt
  }

  /** `a` sorts no later than `b` under the claim order. */
  predicate SortsNoLater(a: Job, b: Job) {
    SortsBefore(a, b) || SortsWith(a, b)
  }

  /** The claim order extended to a total order on the ids of `jobs`: rows
      that agree on every sort column are ranked by id. */
  predicate RankLe(jobs: map<string, Job>, a: string, b: string)
    requires a in jobs && b in jobs
  {
    SortsBefore(jobs[a], jobs[b]) || (SortsWith(jobs[a], jobs[b]) && Strings.LexLe(a, b))
  }

  /** `k` is the first of the ids in `ks` under the rank order. */
  predicate IsFirst(jobs: map<string, Job>, ks: set<string>, k: string)
    requires ks <= jobs.Keys
  {
    k in ks && forall k' :: k' in ks ==> RankLe(jobs, k, k')
  }

  /* ---------- Invariants ---------- */

  /** A job is processing exactly when a worker holds it. */
  predicate WorkerMatchesState(jobs: map<string, Job>) {
    forall k :: k in jobs ==> (jobs[k].state == Processing <==> jobs[k].worker.Some?)
  }

  /** A failed job still has retries left: reaching the limit means dead. */
  predicate FailedWithinBudget(jobs: map<string, Job>) {
    forall k :: k in jobs && jobs[k].state == Failed ==> jobs[k].attempts < jobs[k].maxRetries
  }

  /** The ids of the processing jobs held by worker `name`. */
  function HeldBy(jobs: map<string, Job>, name: string): set<string> {
    set k | k in jobs && jobs[k].state == Processing && jobs[k].worker == Some(name)
  }

  /** No job gains a worker: every worker assignment in `after` was already in
      `before`. */
  predicate NoNewWorker(before: map<string, Job>, after: map<string, Job>) {
    forall k :: k in after && after[k].worker.Some? ==> k in before && before[k].worker == after[k].worker
  }

  /** `b` keeps the columns that only enqueue writes: the command, the retry
      limit, the priority, the creation stamp, the initial schedule and the
      timeout. No statement after the INSERT sets any of them. */
  predicate KeepsDefinition(a: Job, b: Job) {
    && b.command == a.command && b.maxRetries == a.maxRetries
    && b.priority == a.priority && b.createdAt == a.createdAt
    && b.runAt == a.runAt && b.timeout == a.timeout
  }

  /** `b` is `a` with at most its state and refresh stamp changed. */
  predicate OnlyStateChanged(a: Job, b: Job) {
    b == a.(state := b.state, updatedAt := b.updatedAt)
  }

  /* ---------- Exponential backoff ---------- */

  /** Python's `base ** n` for a non-negative exponent. */
  function Pow(base: int, n: nat): int
    decreases n
  {
    if n == 0 then 1 else base * Pow(base, n - 1)
  }

  /** With a base of at least one the delay is positive and never shrinks from
      one attempt to the next. */
  lemma {:induction false} BackoffGrows(base: int, n: nat)
    requires base >= 1
    ensures 1 <= Pow(base, n) <= Pow(base, n + 1)
    decreases n
  {
    if n > 0 {
      BackoffGrows(base, n - 1);
    }
    assert Pow(base, n + 1) == base * Pow(base, n);
  }

  /** A base of zero or more never yields a negative delay. */
  lemma {:induction false} BackoffNonNegative(base: int, n: nat)
    requires base >= 0
    ensures Pow(base, n) >= 0
    decreases n
  {
    if n > 0 {
      BackoffNonNegative(base, n - 1);
    }
  }

  /* ---------- Facts about the rank order ---------- */

  lemma RankLeTotal(jobs: map<string, Job>, a: string, b: string)
    requires a in jobs && b in jobs
    ensures RankLe(jobs, a, b) || RankLe(jobs, b, a)
  {
    Strings.LexLeTotal(a, b);
  }

  lemma RankLeTransitive(jobs: map<string, Job>, a: string, b: string, c: string)
    requires a in jobs && b in jobs && c in jobs
    requires RankLe(jobs, a, b) && RankLe(jobs, b, c)
    ensures RankLe(jobs, a, c)
  {
    if SortsWith(jobs[a], jobs[b]) && SortsWith(jobs[b], jobs[c]) {
      Strings.LexLeTransitive(a, b, c);
    }
  }

  lemma RankLeAntisymmetric(jobs: map<string, Job>, a: string, b: string)
    requires a in jobs && b in jobs
    requires RankLe(jobs, a, b) && RankLe(jobs, b, a)
    ensures a == b
  {
    Strings.LexLeAntisymmetric(a, b);
  }

  /** Every non-empty set of ids has a first element under the rank order. */
  lemma {:induction false} FirstExists(jobs: map<string, Job>, ks: set<string>)
    requires ks <= jobs.Keys && ks != {}
    ensures exists k :: IsFirst(jobs, ks, k)
    decreases |ks|
  {
    var x :| x in ks;
    var rest := ks - {x};
    if rest == {} {
      assert ks == {x};
      RankLeTotal(jobs, x, x);
      assert IsFirst(jobs, ks, x);
    } else {
      FirstExists(jobs, rest);
      var m :| IsFirst(jobs, rest, m);
      RankLeTotal(jobs, x, m);
      if RankLe(jobs, m, x) {
        assert IsFirst(jobs, ks, m);
      } else {
        forall k' | k' in ks
          ensures RankLe(jobs, x, k')
        {
          if k' == x {
            RankLeTotal(jobs, x, x);
          } else {
            RankLeTransitive(jobs, x, m, k');
          }
        }
        assert IsFirst(jobs, ks, x);
      }
    }
  }

  /** At most one id is first. */
  lemma FirstUnique(jobs: map<string, Job>, ks: set<string>)
    requires ks <= jobs.Keys
    ensures forall a, b :: IsFirst(jobs, ks, a) && IsFirst(jobs, ks, b) ==> a == b
  {
    forall a, b | IsFirst(jobs, ks, a) && IsFirst(jobs, ks, b)
      ensures a == b
    {
      RankLeAntisymmetric(jobs, a, b);
    }
  }
}
