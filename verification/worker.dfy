/** The execution engine of core/worker.py: what a worker does with a job it
    has claimed (choose the timeout, turn the way the command ended into an
    exit code and byte counts, append one run, then complete the job or count
    the attempt and apply the retry policy), and the poll loop around it.
    Running the command and writing the log files are not modelled: how the
    command ended is an input. */
module Worker {
  import opened Wrappers
  import opened Jobs
  import opened Store
  import Strings

  /** A configuration value the worker reads with `int(value or fallback)`:
      unset or empty (the fallback applies), text `int` accepts, or text it
      rejects with a `ValueError`. A stored "0" is present and stays 0. */
  datatype Setting = Unset | Number(n: int) | Malformed {

    /** The number read, or `fallback` for an unset key; meaningful only when
        the text parsed. */
    function ValueOr(fallback: int): int {
      if Number? then n else fallback
    }
  }

  /** The configuration values the step reads. The default timeout is read
      once, before the first claim, and is the parsed value or `None` for an
      unset key; the backoff base is read after each failed attempt. */
  datatype Config = Config(defaultTimeout: Option<int>, backoffBase: Setting)

  const FallbackTimeout: int := 60
  const FallbackBackoffBase: int := 2
  const TimeoutExitCode: int := 124
  const InternalErrorExitCode: int := 1

  /* ---------- timeout ---------- */

  /** The timeout the command runs under: the job's own when set and non-zero,
      else the configured default, else 60 seconds. */
  function EffectiveTimeout(jobTimeout: Option<int>, cfg: Config): (t: int)
    ensures jobTimeout.Some? && jobTimeout.value != 0 ==> t == jobTimeout.value
    ensures jobTimeout.None? || jobTimeout == Some(0) ==> t == cfg.defaultTimeout.GetOr(FallbackTimeout)
    ensures t == 0 ==> cfg.defaultTimeout == Some(0)
  {
    if jobTimeout.GetOr(0) != 0 then jobTimeout.value else cfg.defaultTimeout.GetOr(FallbackTimeout)
  }

  /** Enqueue's "store 0 as NULL" and the worker's "0 means use the default"
      agree: a job runs under the timeout it was enqueued with whenever that
      was given and non-zero, and under the default otherwise. */
  lemma EnqueuedTimeoutHonoured(q: Queue, req: Request, now: int, cfg: Config)
    ensures var r := Enqueue(q, req, now);
      r.result.Success? ==>
      EffectiveTimeout(r.result.value.timeout, cfg) ==
        if req.timeout.Some? && req.timeout.value != 0 then req.timeout.value
        else cfg.defaultTimeout.GetOr(FallbackTimeout)
  {
  }

  /* ---------- how the command ended ---------- */

  /** The three ways `subprocess.run` can end for the worker. */
  datatype Execution =
    | Exited(returnCode: int, stdoutBytes: nat, stderrBytes: nat)  // returned; captured output sizes
    | TimedOut                                                     // the timeout expired
    | Raised(detail: string, stdoutBytes: nat)                     // any other exception; stdout bytes counted before it

  /** What is recorded about the execution. */
  datatype Capture = Capture(exitCode: int, bytesOut: nat, bytesErr: nat)

  function TimeoutMessage(timeout: int): string {
    "timeout after " + Strings.IntToString(timeout) + "s"
  }

  /** The timeout message is ASCII, so it takes one byte per character. */
  lemma TimeoutMessageIsAscii(timeout: int)
    ensures |TimeoutMessage(timeout)| == 15 + |Strings.IntToString(timeout)|
    ensures Strings.Utf8Length(TimeoutMessage(timeout)) == |TimeoutMessage(timeout)|
  {
    var m := TimeoutMessage(timeout);
    var digits := Strings.IntToString(timeout);
    assert Strings.IsAscii(m) by {
      forall i | 0 <= i < |m|
        ensures m[i] as int < 0x80
      {
        if 14 <= i < 14 + |digits| {
          assert m[i] == digits[i - 14];
        }
      }
    }
    Strings.AsciiUtf8Length(m);
  }

  function ExceptionMessage(detail: string): string {
    "exception: " + detail
  }

  /** The number of bytes the execution appends to the job's stderr log: the
      captured stderr, or the UTF-8 encoding of the synthetic message plus a
      newline. */
  function StderrAppended(e: Execution, timeout: int): nat {
    match e
    case Exited(_, _, err) => err
    case TimedOut => Strings.Utf8Length(TimeoutMessage(timeout)) + 1
    case Raised(detail, _) => Strings.Utf8Length(ExceptionMessage(detail)) + 1
  }

  /** The exit code and byte counts as the worker computes them: the return
      code on a normal exit, 124 on a timeout and 1 on any other exception,
      with the synthetic message counted in characters. */
  function ClassifyAsWritten(e: Execution, timeout: int): (c: Capture)
    ensures e.Raised? ==> c.bytesErr == 12 + |e.detail|
  {
    match e
    case Exited(code, out, err) => Capture(code, out, err)
    case TimedOut => Capture(TimeoutExitCode, 0, |TimeoutMessage(timeout)| + 1)
    case Raised(detail, out) => Capture(InternalErrorExitCode, out, |ExceptionMessage(detail)| + 1)
  }

  /** Counting characters under-reports the stderr bytes as soon as the
      exception text holds a character outside ASCII. */
  lemma AsWrittenMiscountsNonAsciiError()
    ensures ClassifyAsWritten(Raised("\U{e9}", 0), FallbackTimeout).bytesErr == 13
    ensures StderrAppended(Raised("\U{e9}", 0), FallbackTimeout) == 14
  {
    var m := ExceptionMessage("\U{e9}");
    assert m[..|m| - 1] == "exception: ";
    Strings.AsciiUtf8Length("exception: ");
  }

  /** The exit code and byte counts recorded for an execution: the return
      code on a normal exit, 124 on a timeout and 1 on any other exception;
      the stderr count is the number of bytes appended to the stderr log. */
  function Classify(e: Execution, timeout: int): (c: Capture)
    ensures e.Exited? ==> c == Capture(e.returnCode, e.stdoutBytes, e.stderrBytes)
    ensures e.TimedOut? ==>
      c.exitCode == TimeoutExitCode && c.bytesOut == 0
      && c.bytesErr == 16 + |Strings.IntToString(timeout)|
    ensures e.Raised? ==> c.exitCode == InternalErrorExitCode && c.bytesOut == e.stdoutBytes
    ensures c.bytesErr == StderrAppended(e, timeout)
    ensures c.exitCode == 0 <==> e.Exited? && e.returnCode == 0
  {
    match e
    case Exited(code, out, err) => Capture(code, out, err)
    case TimedOut =>
      TimeoutMessageIsAscii(timeout);
      Capture(TimeoutExitCode, 0, |TimeoutMessage(timeout)| + 1)
    case Raised(detail, out) => Capture(InternalErrorExitCode, out, Strings.Utf8Length(ExceptionMessage(detail)) + 1)
  }

  /** The worker's own count is exact whenever the synthetic message is
      ASCII: always on a timeout, and on an exception with ASCII text. */
  lemma AsWrittenExactForAsciiMessages(e: Execution, timeout: int)
    requires e.Raised? ==> Strings.IsAscii(e.detail)
    ensures ClassifyAsWritten(e, timeout) == Classify(e, timeout)
  {
    if e.Raised? {
      Strings.AsciiUtf8Length(ExceptionMessage(e.detail));
    }
  }

  /** The timeout message names the timeout it reports: its number reads back
      as the timeout. */
  lemma TimeoutMessageNamesTimeout(timeout: int)
    ensures var m := TimeoutMessage(timeout);
      && m[..14] == "timeout after " && m[|m| - 1] == 's'
      && Strings.IsDecimal(m[14..|m| - 1])
      && Strings.ParseInt(m[14..|m| - 1]) == timeout
  {
    var m := TimeoutMessage(timeout);
    assert m[14..|m| - 1] == Strings.IntToString(timeout);
    Strings.ParseIntRoundTrip(timeout);
  }

  /** The `exit:<code>` text recorded as the job's last error. */
  function ExitError(code: int): string {
    "exit:" + Strings.IntToString(code)
  }

  /** The recorded error identifies the exit code. */
  lemma ExitErrorNamesCode(code: int)
    ensures var m := ExitError(code);
      m[..5] == "exit:" && Strings.IsDecimal(m[5..]) && Strings.ParseInt(m[5..]) == code
  {
    var m := ExitError(code);
    assert m[5..] == Strings.IntToString(code);
    Strings.ParseIntRoundTrip(code);
  }

  /* ---------- the step after a claim ---------- */

  /** The store after handling one claimed job. `Aborted` is an exception
      that ends the worker with the run already recorded: the read-back of
      `increment_attempts` finding no row, or a follow-up that raises after
      the attempt has been counted. */
  datatype Step = Finished(q: Queue) | Aborted(q: Queue)

  /** After a failed attempt, counted as `attempts`, the follow-up raises:
      the backoff base does not parse, or the retry instant it gives is not a
      `datetime`. */
  predicate FollowUpRaises(cfg: Config, attempts: nat, maxRetries: int, now: int) {
    || cfg.backoffBase.Malformed?
    || RetryOutOfRange(attempts, maxRetries, cfg.backoffBase.ValueOr(FallbackBackoffBase), now)
  }

  /** `job`, whose latest run is `run`, was left behind by a failed attempt
      whose follow-up raised. */
  predicate StrandedBy(cfg: Config, job: Job, run: Run) {
    run.exitCode != 0 && FollowUpRaises(cfg, job.attempts, job.maxRetries, run.finishedAt)
  }

  /** Handle the claimed job `id` (whose row, as claimed, is `job`): record
      one run, then complete it on exit code 0, or else count the attempt and
      reschedule or dead-letter it. `finishedAt` stands for every clock read
      from the end of the run to the outcome write. */
  function WorkerStep(q: Queue, id: string, job: Job, e: Execution, cfg: Config, startedAt: int, finishedAt: int): (r: Step)
    ensures |r.q.runs| == |q.runs| + 1 && r.q.runs[..|q.runs|] == q.runs
    ensures var run := r.q.runs[|q.runs|];
      var c := Classify(e, EffectiveTimeout(job.timeout, cfg));
      && run.jobId == id && run.exitCode == c.exitCode
      && run.bytesOut == c.bytesOut && run.bytesErr == c.bytesErr
      && run.startedAt == startedAt && run.finishedAt == finishedAt
    ensures r.q.jobs.Keys == q.jobs.Keys
    ensures forall k :: k in q.jobs && k != id ==> r.q.jobs[k] == q.jobs[k]
    ensures r.Aborted? <==>
      && r.q.runs[|q.runs|].exitCode != 0
      && (id !in q.jobs || FollowUpRaises(cfg, q.jobs[id].attempts + 1, q.jobs[id].maxRetries, finishedAt))
    ensures r.Aborted? && id !in q.jobs ==> r.q.jobs == q.jobs
    ensures r.Aborted? && id in q.jobs ==> r.q.jobs[id] == q.jobs[id].(attempts := q.jobs[id].attempts + 1)
  {
    var c := Classify(e, EffectiveTimeout(job.timeout, cfg));
    var q1 := RecordRun(q, Run(id, startedAt, finishedAt, c.exitCode, c.bytesOut, c.bytesErr));
    if c.exitCode == 0 then Finished(Complete(q1, id, finishedAt))
    else
      match IncrementAttempts(q1, id)
      case Failure(_) => Aborted(q1)
      case Success(t) =>
        if cfg.backoffBase.Malformed? then Aborted(t.q)
        else
          match RescheduleOrDead(t.q, id, ExitError(c.exitCode), t.attempts, t.maxRetries,
                                 cfg.backoffBase.ValueOr(FallbackBackoffBase), finishedAt)
          case Failure(_) => Aborted(t.q)
          case Success(q2) => Finished(q2)
  }

  /** The exit code of one step, as recorded. */
  function StepExitCode(job: Job, e: Execution, cfg: Config): int {
    Classify(e, EffectiveTimeout(job.timeout, cfg)).exitCode
  }

  /** Exit code 0 completes the job and nothing else: the attempt is not
      counted and the schedule is kept. */
  lemma SuccessCompletes(q: Queue, id: string, job: Job, e: Execution, cfg: Config, startedAt: int, finishedAt: int)
    requires id in q.jobs && StepExitCode(job, e, cfg) == 0
    ensures var r := WorkerStep(q, id, job, e, cfg, startedAt, finishedAt);
      && r.Finished?
      && r.q.jobs[id].state == Completed && r.q.jobs[id].worker.None?
      && r.q.jobs[id].attempts == q.jobs[id].attempts
      && r.q.jobs[id].nextRunAt == q.jobs[id].nextRunAt
  {
  }

  /** With a backoff base that parses, a non-zero exit counts exactly one
      attempt. The step then finishes unless the retry instant is not a
      `datetime`; finishing records `exit:<code>`, releases the worker, and
      dead-letters the job once the attempts reach the limit or schedules it
      `base ** attempts` seconds out otherwise. */
  lemma FailureCountsOneAttempt(q: Queue, id: string, job: Job, e: Execution, cfg: Config, startedAt: int, finishedAt: int)
    requires id in q.jobs && StepExitCode(job, e, cfg) != 0
    requires !cfg.backoffBase.Malformed?
    ensures var r := WorkerStep(q, id, job, e, cfg, startedAt, finishedAt);
      var n := q.jobs[id].attempts + 1;
      var base := cfg.backoffBase.ValueOr(FallbackBackoffBase);
      && r.q.jobs[id].attempts == n
      && (r.Finished? <==> !RetryOutOfRange(n, q.jobs[id].maxRetries, base, finishedAt))
      && (r.Finished? ==>
          && r.q.jobs[id].worker.None?
          && r.q.jobs[id].lastError == Some(ExitError(StepExitCode(job, e, cfg)))
          && (n >= q.jobs[id].maxRetries ==> r.q.jobs[id].state == Dead && r.q.jobs[id].nextRunAt == q.jobs[id].nextRunAt)
          && (n < q.jobs[id].maxRetries ==> r.q.jobs[id].state == Failed && r.q.jobs[id].nextRunAt == Some(finishedAt + Pow(base, n))))
  {
    var c := Classify(e, EffectiveTimeout(job.timeout, cfg));
    var q1 := RecordRun(q, Run(id, startedAt, finishedAt, c.exitCode, c.bytesOut, c.bytesErr));
    var t := IncrementAttempts(q1, id).value;
    var rs := RescheduleOrDead(t.q, id, ExitError(c.exitCode), t.attempts, t.maxRetries,
                               cfg.backoffBase.ValueOr(FallbackBackoffBase), finishedAt);
    assert WorkerStep(q, id, job, e, cfg, startedAt, finishedAt)
      == (if rs.Success? then Finished(rs.value) else Aborted(t.q));
  }

  /** The backoff base and the retry instant are worked out only after the
      attempt is counted, so when either raises, a failing job is left
      processing under its worker, with one more attempt, no error recorded
      and its schedule unchanged. */
  lemma FollowUpRaiseStrandsJob(q: Queue, id: string, job: Job, e: Execution, cfg: Config, startedAt: int, finishedAt: int)
    requires id in q.jobs && StepExitCode(job, e, cfg) != 0
    requires FollowUpRaises(cfg, q.jobs[id].attempts + 1, q.jobs[id].maxRetries, finishedAt)
    ensures var r := WorkerStep(q, id, job, e, cfg, startedAt, finishedAt);
      && r.Aborted?
      && r.q.jobs[id].state == q.jobs[id].state && r.q.jobs[id].worker == q.jobs[id].worker
      && r.q.jobs[id].attempts == q.jobs[id].attempts + 1
      && r.q.jobs[id].lastError == q.jobs[id].lastError
      && r.q.jobs[id].nextRunAt == q.jobs[id].nextRunAt
  {
  }

  /** The first failure of a fresh job leaves one attempt; with a limit of one
      the job goes straight to dead, never through a claimable failed state. */
  lemma FirstFailureOfSingleRetryJobIsDead(q: Queue, id: string, job: Job, e: Execution, cfg: Config, startedAt: int, finishedAt: int)
    requires id in q.jobs && q.jobs[id].attempts == 0 && q.jobs[id].maxRetries == 1
    requires StepExitCode(job, e, cfg) != 0 && !cfg.backoffBase.Malformed?
    ensures WorkerStep(q, id, job, e, cfg, startedAt, finishedAt).q.jobs[id].attempts == 1
    ensures WorkerStep(q, id, job, e, cfg, startedAt, finishedAt).q.jobs[id].state == Dead
  {
    FailureCountsOneAttempt(q, id, job, e, cfg, startedAt, finishedAt);
  }

  /** A step on a present job finishes unless it fails and its follow-up
      raises, and a finished step leaves the job completed, failed or dead
      with no worker. */
  lemma StepSettlesJob(q: Queue, id: string, job: Job, e: Execution, cfg: Config, startedAt: int, finishedAt: int)
    requires id in q.jobs
    ensures var r := WorkerStep(q, id, job, e, cfg, startedAt, finishedAt);
      && (r.Finished? <==> StepExitCode(job, e, cfg) == 0
                           || !FollowUpRaises(cfg, q.jobs[id].attempts + 1, q.jobs[id].maxRetries, finishedAt))
      && (r.Finished? ==> r.q.jobs[id].state in {Completed, Failed, Dead} && r.q.jobs[id].worker.None?)
  {
    if StepExitCode(job, e, cfg) == 0 {
      SuccessCompletes(q, id, job, e, cfg, startedAt, finishedAt);
    } else if !cfg.backoffBase.Malformed? {
      FailureCountsOneAttempt(q, id, job, e, cfg, startedAt, finishedAt);
    }
  }

  /** A step on a claimed job keeps both store invariants, whether it
      finishes or aborts. */
  lemma StepKeepsInvariants(q: Queue, id: string, job: Job, e: Execution, cfg: Config, startedAt: int, finishedAt: int)
    requires id in q.jobs && q.jobs[id].state == Processing
    requires WorkerMatchesState(q.jobs) && FailedWithinBudget(q.jobs)
    ensures var r := WorkerStep(q, id, job, e, cfg, startedAt, finishedAt);
      WorkerMatchesState(r.q.jobs) && FailedWithinBudget(r.q.jobs)
  {
    StepSettlesJob(q, id, job, e, cfg, startedAt, finishedAt);
    var r := WorkerStep(q, id, job, e, cfg, startedAt, finishedAt);
    if StepExitCode(job, e, cfg) != 0 && !cfg.backoffBase.Malformed? {
      FailureCountsOneAttempt(q, id, job, e, cfg, startedAt, finishedAt);
    }
    forall k | k in r.q.jobs
      ensures r.q.jobs[k].state == Processing <==> r.q.jobs[k].worker.Some?
      ensures r.q.jobs[k].state == Failed ==> r.q.jobs[k].attempts < r.q.jobs[k].maxRetries
    {
      if k != id {
        assert r.q.jobs[k] == q.jobs[k];
      }
    }
  }

  /** When the worker held only the job being handled, it holds nothing
      after a finished step and still holds that job after an aborted one. */
  lemma StepReleasesWorker(q: Queue, id: string, job: Job, e: Execution, cfg: Config, startedAt: int, finishedAt: int, name: string)
    requires id in q.jobs && HeldBy(q.jobs, name) == {id}
    ensures var r := WorkerStep(q, id, job, e, cfg, startedAt, finishedAt);
      HeldBy(r.q.jobs, name) == (if r.Aborted? then {id} else {})
  {
    StepSettlesJob(q, id, job, e, cfg, startedAt, finishedAt);
    var r := WorkerStep(q, id, job, e, cfg, startedAt, finishedAt);
    assert id in HeldBy(q.jobs, name);
    forall k | k in r.q.jobs
      ensures k in HeldBy(r.q.jobs, name) <==> r.Aborted? && k == id
    {
      if k != id {
        assert k !in HeldBy(q.jobs, name);
        assert r.q.jobs[k] == q.jobs[k];
      }
    }
  }

  /* ---------- the poll loop ---------- */

  /** One pass of the loop: whether the stop flag was set at its head, the
      instant of the claim (and of the run's start), how the command ended
      if a job was claimed, and the instant the run finished. */
  datatype Tick = Tick(stopSet: bool, at: int, exec: Execution, finishedAt: int)

  /** The store after one pass that got past the stop check, the job it
      claimed, and whether the step aborted. */
  datatype PassEnd = PassEnd(q: Queue, claimed: Option<string>, aborted: bool)

  /** One pass of the loop body: claim; if nothing was claimed, sleep;
      otherwise handle the claimed job to the end. */
  function Pass(q: Queue, name: string, cfg: Config, t: Tick): (r: PassEnd)
    ensures |r.q.runs| == |q.runs| + (if r.claimed.Some? then 1 else 0) && r.q.runs[..|q.runs|] == q.runs
    ensures r.q.jobs.Keys == q.jobs.Keys
    ensures r.claimed.None? ==> r.q == q && !r.aborted
    ensures r.claimed.Some? ==> r.claimed.value in q.jobs && r.q.runs[|q.runs|].jobId == r.claimed.value
    ensures r.aborted <==>
      && r.claimed.Some? && r.q.runs[|q.runs|].exitCode != 0
      && FollowUpRaises(cfg, q.jobs[r.claimed.value].attempts + 1, q.jobs[r.claimed.value].maxRetries, t.finishedAt)
    ensures r.aborted ==> StrandedBy(cfg, r.q.jobs[r.claimed.value], r.q.runs[|r.q.runs| - 1])
  {
    var c := ClaimNext(q, name, t.at);
    match c.claimed
    case None =>
      ClaimNoneLeavesStoreUnchanged(q, name, t.at);
      PassEnd(c.q, None, false)
    case Some(id) =>
      assert c.q.jobs[id].attempts == q.jobs[id].attempts && c.q.jobs[id].maxRetries == q.jobs[id].maxRetries;
      match WorkerStep(c.q, id, c.q.jobs[id], t.exec, cfg, t.at, t.finishedAt)
      case Aborted(q') => PassEnd(q', Some(id), true)
      case Finished(q') => PassEnd(q', Some(id), false)
  }

  /** The worker holds no job, and both store invariants hold. */
  predicate Idle(jobs: map<string, Job>, name: string) {
    HeldBy(jobs, name) == {} && WorkerMatchesState(jobs) && FailedWithinBudget(jobs)
  }

  /** A pass that claims a job ends with the store its step leaves, and
      aborts exactly when that step aborts. */
  lemma PassRunsStep(q: Queue, name: string, cfg: Config, t: Tick)
    requires ClaimNext(q, name, t.at).claimed.Some?
    ensures var c := ClaimNext(q, name, t.at);
      var id := c.claimed.value;
      var s := WorkerStep(c.q, id, c.q.jobs[id], t.exec, cfg, t.at, t.finishedAt);
      Pass(q, name, cfg, t) == PassEnd(s.q, Some(id), s.Aborted?)
  {
  }

  /** Every pass keeps both store invariants, whether its step finishes or
      aborts. */
  lemma PassKeepsInvariants(q: Queue, name: string, cfg: Config, t: Tick)
    requires WorkerMatchesState(q.jobs) && FailedWithinBudget(q.jobs)
    ensures WorkerMatchesState(Pass(q, name, cfg, t).q.jobs) && FailedWithinBudget(Pass(q, name, cfg, t).q.jobs)
  {
    var c := ClaimNext(q, name, t.at);
    ClaimKeepsInvariants(q, name, t.at);
    if c.claimed.Some? {
      var id := c.claimed.value;
      PassRunsStep(q, name, cfg, t);
      StepKeepsInvariants(c.q, id, c.q.jobs[id], t.exec, cfg, t.at, t.finishedAt);
    }
  }

  /** Every id in `ks` names a job that is not processing. */
  predicate Released(jobs: map<string, Job>, ks: seq<string>) {
    forall i :: 0 <= i < |ks| ==> ks[i] in jobs && jobs[ks[i]].state != Processing
  }

  lemma ReleasedConcat(jobs: map<string, Job>, a: seq<string>, b: seq<string>)
    requires Released(jobs, a) && Released(jobs, b)
    ensures Released(jobs, a + b)
  {
    forall i | 0 <= i < |a + b|
      ensures (a + b)[i] in jobs && jobs[(a + b)[i]].state != Processing
    {
      if i >= |a| {
        assert (a + b)[i] == b[i - |a|];
      }
    }
  }

  /** Unless a pass aborts, the job it claimed is completed, failed or dead
      with no worker by its end. */
  lemma PassSettlesClaim(q: Queue, name: string, cfg: Config, t: Tick)
    ensures var r := Pass(q, name, cfg, t);
      && (r.claimed.Some? && !r.aborted ==>
            r.q.jobs[r.claimed.value].state in {Completed, Failed, Dead} && r.q.jobs[r.claimed.value].worker.None?)
      && (!r.aborted ==> Released(r.q.jobs, if r.claimed.Some? then [r.claimed.value] else []))
  {
    var c := ClaimNext(q, name, t.at);
    if c.claimed.Some? {
      var id := c.claimed.value;
      PassRunsStep(q, name, cfg, t);
      StepSettlesJob(c.q, id, c.q.jobs[id], t.exec, cfg, t.at, t.finishedAt);
    }
  }

  /** A pass that starts with the worker idle keeps both invariants. Unless
      it aborts, the job it claims is completed, failed or dead by its end
      and the worker is idle again; an aborted pass leaves the worker holding
      exactly the job it claimed. */
  lemma PassEndsIdle(q: Queue, name: string, cfg: Config, t: Tick)
    requires Idle(q.jobs, name)
    ensures var r := Pass(q, name, cfg, t);
      && WorkerMatchesState(r.q.jobs) && FailedWithinBudget(r.q.jobs)
      && (r.claimed.Some? && !r.aborted ==> r.q.jobs[r.claimed.value].state in {Completed, Failed, Dead})
      && HeldBy(r.q.jobs, name) == (if r.aborted then {r.claimed.value} else {})
  {
    PassKeepsInvariants(q, name, cfg, t);
    PassSettlesClaim(q, name, cfg, t);
    var c := ClaimNext(q, name, t.at);
    if c.claimed.Some? {
      var id := c.claimed.value;
      PassRunsStep(q, name, cfg, t);
      ClaimReadBackFindsClaimed(q, name, t.at);
      StepReleasesWorker(c.q, id, c.q.jobs[id], t.exec, cfg, t.at, t.finishedAt, name);
    } else {
      ClaimNoneLeavesStoreUnchanged(q, name, t.at);
    }
  }

  /** A pass that does not abort leaves no job processing that was not
      processing before it. */
  lemma PassKeepsReleased(q: Queue, name: string, cfg: Config, t: Tick, ks: seq<string>)
    requires Released(q.jobs, ks)
    ensures !Pass(q, name, cfg, t).aborted ==> Released(Pass(q, name, cfg, t).q.jobs, ks)
  {
    var c := ClaimNext(q, name, t.at);
    if c.claimed.Some? && !Pass(q, name, cfg, t).aborted {
      var id := c.claimed.value;
      PassSettlesClaim(q, name, cfg, t);
      PassRunsStep(q, name, cfg, t);
      var s := WorkerStep(c.q, id, c.q.jobs[id], t.exec, cfg, t.at, t.finishedAt);
      forall i | 0 <= i < |ks| && ks[i] != id
        ensures s.q.jobs[ks[i]].state != Processing
      {
        assert c.q.jobs[ks[i]] == Sweep(q.jobs, t.at)[ks[i]];
      }
    }
  }

  /** The store when the loop exits, the jobs it claimed and handled to the
      end, in order, and the job it was handling when an exception ended
      it. */
  datatype LoopEnd = LoopEnd(q: Queue, settled: seq<string>, stranded: Option<string>)

  /** `WorkerProcess.run` over a finite sequence of passes: the stop flag is
      read only at the head of a pass, a claimed job is handled to the end
      before the next pass, and an aborted step ends the worker. */
  function RunWorker(q: Queue, name: string, cfg: Config, ticks: seq<Tick>): (r: LoopEnd)
    ensures |r.q.runs| == |q.runs| + |r.settled| + (if r.stranded.Some? then 1 else 0)
    ensures q.runs <= r.q.runs
    ensures r.q.jobs.Keys == q.jobs.Keys
    ensures |ticks| > 0 && ticks[0].stopSet ==> r == LoopEnd(q, [], None)
    ensures r.stranded.Some? ==>
      && r.stranded.value in r.q.jobs && |r.q.runs| > 0
      && StrandedBy(cfg, r.q.jobs[r.stranded.value], r.q.runs[|r.q.runs| - 1])
    decreases |ticks|
  {
    if |ticks| == 0 || ticks[0].stopSet then LoopEnd(q, [], None)
    else
      var p := Pass(q, name, cfg, ticks[0]);
      if p.aborted then LoopEnd(p.q, [], p.claimed)
      else
        var rest := RunWorker(p.q, name, cfg, ticks[1..]);
        assert q.runs <= p.q.runs;
        LoopEnd(rest.q, (if p.claimed.Some? then [p.claimed.value] else []) + rest.settled, rest.stranded)
  }

  /** Graceful drain: a worker that starts holding no job ends holding no
      job, whenever the stop flag is seen, because each job it claims is
      handled to the end before the flag is read again. Only a failed attempt
      whose follow-up raises ends it early, and then it holds exactly the job
      it was handling. Both store invariants hold at the
      end. */
  lemma {:induction false} WorkerDrainsBeforeStopping(q: Queue, name: string, cfg: Config, ticks: seq<Tick>)
    requires Idle(q.jobs, name)
    ensures var r := RunWorker(q, name, cfg, ticks);
      && WorkerMatchesState(r.q.jobs) && FailedWithinBudget(r.q.jobs)
      && HeldBy(r.q.jobs, name) == (if r.stranded.Some? then {r.stranded.value} else {})
    decreases |ticks|
  {
    if |ticks| > 0 && !ticks[0].stopSet {
      var p := Pass(q, name, cfg, ticks[0]);
      PassEndsIdle(q, name, cfg, ticks[0]);
      if !p.aborted {
        WorkerDrainsBeforeStopping(p.q, name, cfg, ticks[1..]);
      }
    }
  }

  /** A pass that does not abort is followed by the rest of the loop, and
      the job it claimed heads the settled jobs. */
  lemma RunWorkerContinues(q: Queue, name: string, cfg: Config, ticks: seq<Tick>)
    requires |ticks| > 0 && !ticks[0].stopSet && !Pass(q, name, cfg, ticks[0]).aborted
    ensures var p := Pass(q, name, cfg, ticks[0]);
      var rest := RunWorker(p.q, name, cfg, ticks[1..]);
      RunWorker(q, name, cfg, ticks)
        == LoopEnd(rest.q, (if p.claimed.Some? then [p.claimed.value] else []) + rest.settled, rest.stranded)
  {
  }

  /** A loop that ends without an exception leaves no job processing that
      was not processing before it. */
  lemma {:induction false} LoopKeepsReleased(q: Queue, name: string, cfg: Config, ticks: seq<Tick>, ks: seq<string>)
    requires Released(q.jobs, ks)
    ensures RunWorker(q, name, cfg, ticks).stranded.None? ==> Released(RunWorker(q, name, cfg, ticks).q.jobs, ks)
    decreases |ticks|
  {
    if |ticks| > 0 && !ticks[0].stopSet && !Pass(q, name, cfg, ticks[0]).aborted {
      var p := Pass(q, name, cfg, ticks[0]);
      PassKeepsReleased(q, name, cfg, ticks[0], ks);
      LoopKeepsReleased(p.q, name, cfg, ticks[1..], ks);
      RunWorkerContinues(q, name, cfg, ticks);
    }
  }

  /** No job the worker claimed and handled to the end is left processing
      when the loop ends without an exception: each is released within its
      own pass and stays released. */
  lemma {:induction false} LoopReleasesSettledJobs(q: Queue, name: string, cfg: Config, ticks: seq<Tick>)
    ensures var r := RunWorker(q, name, cfg, ticks);
      r.stranded.None? ==> Released(r.q.jobs, r.settled)
    decreases |ticks|
  {
    if |ticks| > 0 && !ticks[0].stopSet && !Pass(q, name, cfg, ticks[0]).aborted {
      var p := Pass(q, name, cfg, ticks[0]);
      var head := if p.claimed.Some? then [p.claimed.value] else [];
      var rest := RunWorker(p.q, name, cfg, ticks[1..]);
      RunWorkerContinues(q, name, cfg, ticks);
      LoopReleasesSettledJobs(p.q, name, cfg, ticks[1..]);
      PassSettlesClaim(q, name, cfg, ticks[0]);
      LoopKeepsReleased(p.q, name, cfg, ticks[1..], head);
      if rest.stranded.None? {
        ReleasedConcat(rest.q.jobs, head, rest.settled);
      }
    }
  }

  /* ---------- a whole job life ---------- */

  /** On an empty store, a job enqueued with no overrides is the one the next
      due claim takes, with no attempts, the default limit and no runs. */
  lemma FreshJobIsClaimed(req: Request, t: int, name: string, now: int)
    requires NoOverrides(req) && t <= now
    ensures var c := ClaimNext(Enqueue(Queue(map[], []), req, t).q, name, now);
      && c.claimed == Some(req.id)
      && c.q.runs == []
      && c.q.jobs[req.id].worker == Some(name) && c.q.jobs[req.id].state == Processing
      && c.q.jobs[req.id].attempts == 0 && c.q.jobs[req.id].maxRetries == DefaultMaxRetries
  {
    var q0 := Queue(map[], []);
    EnqueueDefaults(q0, req, t);
    var q1 := Enqueue(q0, req, t).q;
    assert q1.jobs.Keys == {req.id};
    var swept := Sweep(q1.jobs, now);
    assert Eligible(swept[req.id], now);
  }

  /** On an empty store, a job enqueued with no overrides is the one the next
      due claim takes; its run is the first run; exit code 0 completes it, and
      any other exit, under a backoff base that parses, leaves one attempt and
      a retry `base ** 1` seconds out, since three retries are allowed by
      default. */
  lemma SingleJobLifecycle(req: Request, t: int, name: string, e: Execution, cfg: Config, now: int, finishedAt: int)
    requires NoOverrides(req) && t <= now
    ensures var q1 := Enqueue(Queue(map[], []), req, t).q;
      var c := ClaimNext(q1, name, now);
      && c.claimed == Some(req.id)
      && c.q.jobs[req.id].worker == Some(name)
      && var r := WorkerStep(c.q, req.id, c.q.jobs[req.id], e, cfg, now, finishedAt);
         var code := StepExitCode(c.q.jobs[req.id], e, cfg);
         && |r.q.runs| == 1 && r.q.runs[0].jobId == req.id && r.q.runs[0].exitCode == code
         && (code == 0 ==> r.q.jobs[req.id].state == Completed && r.q.jobs[req.id].attempts == 0)
         && (code != 0 && !cfg.backoffBase.Malformed? ==>
               var base := cfg.backoffBase.ValueOr(FallbackBackoffBase);
               && r.q.jobs[req.id].attempts == 1
               && (Representable(finishedAt + base) ==>
                     r.q.jobs[req.id].state == Failed && r.q.jobs[req.id].nextRunAt == Some(finishedAt + base))
               && (!Representable(finishedAt + base) ==>
                     r.Aborted? && r.q.jobs[req.id].state == Processing))
  {
    FreshJobIsClaimed(req, t, name, now);
    var c := ClaimNext(Enqueue(Queue(map[], []), req, t).q, name, now);
    FirstStepOutcome(c.q, req.id, c.q.jobs[req.id], e, cfg, now, finishedAt);
  }

  /** The first step on a job with no attempts and the default limit, in a
      store with no runs. */
  lemma FirstStepOutcome(q: Queue, id: string, job: Job, e: Execution, cfg: Config, startedAt: int, finishedAt: int)
    requires id in q.jobs && q.runs == []
    requires q.jobs[id].attempts == 0 && q.jobs[id].maxRetries == DefaultMaxRetries
    ensures var r := WorkerStep(q, id, job, e, cfg, startedAt, finishedAt);
      var code := StepExitCode(job, e, cfg);
      && |r.q.runs| == 1 && r.q.runs[0].jobId == id && r.q.runs[0].exitCode == code
      && (code == 0 ==> r.q.jobs[id].state == Completed && r.q.jobs[id].attempts == 0)
      && (code != 0 && !cfg.backoffBase.Malformed? ==>
            var base := cfg.backoffBase.ValueOr(FallbackBackoffBase);
            && r.q.jobs[id].attempts == 1
            && (Representable(finishedAt + base) ==>
                  r.q.jobs[id].state == Failed && r.q.jobs[id].nextRunAt == Some(finishedAt + base))
            && (!Representable(finishedAt + base) ==>
                  r.Aborted? && r.q.jobs[id].state == q.jobs[id].state))
  {
    var r := WorkerStep(q, id, job, e, cfg, startedAt, finishedAt);
    assert r.q.runs[0] == r.q.runs[|q.runs|];
    if StepExitCode(job, e, cfg) == 0 {
      SuccessCompletes(q, id, job, e, cfg, startedAt, finishedAt);
    } else if !cfg.backoffBase.Malformed? {
      var base := cfg.backoffBase.ValueOr(FallbackBackoffBase);
      assert Pow(base, 1) == base;
      if Representable(finishedAt + base) {
        FailureCountsOneAttempt(q, id, job, e, cfg, startedAt, finishedAt);
      } else {
        FollowUpRaiseStrandsJob(q, id, job, e, cfg, startedAt, finishedAt);
      }
    }
  }
}
