/**
 * The deadline watchdog of `main`: the deadline option is checked, the worker
 * thread is joined with a timeout of `deadline` minutes (no timeout for 0),
 * and a timeout is reported when the worker is still running afterwards. A
 * timeout too large for the join raises `OverflowError`, which ends `main`.
 * Time is whole seconds; the worker is described by how long it runs.
 */
module Watchdog {
  import opened Wrappers

  const DeadlineError: string := "DEADLINE has to be greater than (or equal to if you want to disable) zero!\n"
  const TimeoutMessage: string := "Timeout!\n"

  /** The check of `parse_args`: a negative deadline ends the program with its message. */
  function CheckDeadline(deadline: int): (r: Result<nat, string>)
    ensures r.Failure? <==> deadline < 0
    ensures r.Success? ==> r.value == deadline
    ensures r.Failure? ==> r.error == DeadlineError
  {
    if !(deadline >= 0) then Failure(DeadlineError) else Success(deadline)
  }

  /** `args.deadline * 60 if args.deadline else None`: the join timeout in seconds. */
  function JoinTimeout(deadline: nat): (t: Option<nat>)
    ensures t.None? <==> deadline == 0
    ensures t.Some? ==> t.value == 60 * deadline && t.value >= 60
  {
    if deadline != 0 then Some(deadline * 60) else None
  }

  /**
   * The largest whole-second timeout `join` accepts. CPython converts the
   * timeout to a signed 64-bit count of nanoseconds (and checks it against
   * `PY_TIMEOUT_MAX`, 2^63 - 1 nanoseconds as well); 9223372037 seconds and
   * more raise `OverflowError`.
   */
  const JoinLimit: nat := 9_223_372_036
  const JoinOverflowMessage: string := "OverflowError: timeout value is too large\n"

  /**
   * `join(timeout)` of a worker that needs `runtime` seconds, followed by
   * `is_alive()`: the join raises for a timeout over the limit, and otherwise
   * the result says whether the worker is still running.
   */
  function Join(timeout: Option<nat>, runtime: nat): (r: Result<bool, string>)
    ensures r.Failure? <==> timeout.Some? && timeout.value > JoinLimit
    ensures r.Failure? ==> r.error == JoinOverflowMessage
    ensures r.Success? && timeout.None? ==> !r.value
    ensures r.Success? && timeout.Some? ==> (r.value <==> runtime > timeout.value)
  {
    match timeout
    case None => Success(false)
    case Some(t) => if t > JoinLimit then Failure(JoinOverflowMessage) else Success(runtime > t)
  }

  /** The largest deadline, in minutes, whose join timeout is accepted. */
  const LargestDeadline: nat := 153_722_867

  /** A positive deadline joins without error exactly up to `LargestDeadline` minutes. */
  lemma JoinAcceptsDeadline(deadline: nat, runtime: nat)
    requires deadline > 0
    ensures Join(JoinTimeout(deadline), runtime).Success? <==> deadline <= LargestDeadline
  {
    assert 60 * LargestDeadline <= JoinLimit < 60 * (LargestDeadline + 1);
  }

  /** `args.deadline and main_thread.is_alive()`. */
  function TimedOut(deadline: nat, alive: bool): (timedOut: bool)
    ensures timedOut ==> alive && deadline > 0
  {
    deadline != 0 && alive
  }

  /**
   * How the process ends: refused by the deadline check, the join raising,
   * the timeout message, a finished run, or (only in the corrected `main`)
   * the worker's own failure message.
   */
  datatype Verdict =
    | Rejected(message: string)
    | JoinFailed(message: string)
    | Timeout(message: string)
    | Finished
    | WorkerFailed(message: string)

  /**
   * Exit status of the process: `sys.exit("...")` and an uncaught exception
   * are 1, `sys.exit(0)` is 0.
   */
  function ExitStatus(v: Verdict): (status: nat)
    ensures status == 0 <==> v.Finished?
    ensures !v.Finished? ==> status == 1
  {
    if v.Finished? then 0 else 1
  }

  /** The supervision of `main`, from the deadline option to the verdict. */
  function Supervise(deadline: int, runtime: nat): (v: Verdict) {
    match CheckDeadline(deadline)
    case Failure(message) => Rejected(message)
    case Success(d) =>
      match Join(JoinTimeout(d), runtime)
      case Failure(message) => JoinFailed(message)
      case Success(alive) => if TimedOut(d, alive) then Timeout(TimeoutMessage) else Finished
  }

  /** A negative deadline is refused before any work starts. */
  lemma NegativeDeadlineRejected(deadline: int, runtime: nat)
    requires deadline < 0
    ensures Supervise(deadline, runtime) == Rejected(DeadlineError)
    ensures ExitStatus(Supervise(deadline, runtime)) == 1
  {
  }

  /** Deadline 0 waits for the worker however long it runs, and never times out. */
  lemma ZeroDeadlineNeverTimesOut(runtime: nat)
    ensures Supervise(0, runtime) == Finished
    ensures ExitStatus(Supervise(0, runtime)) == 0
  {
  }

  /**
   * A positive deadline d up to `LargestDeadline` times out exactly when the
   * worker needs more than d minutes.
   */
  lemma PositiveDeadline(deadline: int, runtime: nat)
    requires 0 < deadline <= LargestDeadline
    ensures Supervise(deadline, runtime) == Timeout(TimeoutMessage) <==> runtime > 60 * deadline
    ensures Supervise(deadline, runtime) == Finished <==> runtime <= 60 * deadline
  {
    JoinAcceptsDeadline(deadline, runtime);
  }

  /** A deadline over `LargestDeadline` makes the join raise, whatever the worker does. */
  lemma HugeDeadlineCrashes(deadline: int, runtime: nat)
    requires deadline > LargestDeadline
    ensures Supervise(deadline, runtime) == JoinFailed(JoinOverflowMessage)
    ensures ExitStatus(Supervise(deadline, runtime)) == 1
  {
    JoinAcceptsDeadline(deadline, runtime);
  }

  /** Waiting longer, within the join limit, never turns a finished run into a timeout. */
  lemma LongerDeadlineNoWorse(d1: int, d2: int, runtime: nat)
    requires 0 < d1 <= d2 <= LargestDeadline
    ensures Supervise(d1, runtime) == Finished ==> Supervise(d2, runtime) == Finished
  {
    PositiveDeadline(d1, runtime);
    PositiveDeadline(d2, runtime);
  }

  /** How the worker thread ended: it ran to the end, or it called `sys.exit(message)` or raised. */
  datatype WorkerEnd = Completed | Exited(message: string)

  /**
   * `main` as written: `sys.exit` inside the worker only ends that thread, so
   * the verdict ignores how the worker ended.
   */
  function SuperviseAsWritten(deadline: int, runtime: nat, end: WorkerEnd): (v: Verdict) {
    Supervise(deadline, runtime)
  }

  /** An unreadable composite-over image ends the worker early, yet the process exits with status 0. */
  lemma WorkerFailureExitsZero()
    ensures ExitStatus(SuperviseAsWritten(6, 10, Exited("Unable to open --composite-over image!\n"))) == 0
  {
  }

  /** `main` with the worker's failure carried to the process exit, as the worker's messages intend. */
  function SuperviseReportingWorker(deadline: int, runtime: nat, end: WorkerEnd): (v: Verdict) {
    match Supervise(deadline, runtime)
    case Finished => if end.Exited? then WorkerFailed(end.message) else Finished
    case other => other
  }

  /** With the correction the process exits 0 exactly when the deadline is valid, met, and the worker completed. */
  lemma ReportingWorkerExitStatus(deadline: int, runtime: nat, end: WorkerEnd)
    ensures ExitStatus(SuperviseReportingWorker(deadline, runtime, end)) == 0 <==>
      deadline >= 0 && (deadline == 0 || (deadline <= LargestDeadline && runtime <= 60 * deadline)) &&
      end == Completed
  {
    if deadline > 0 {
      JoinAcceptsDeadline(deadline, runtime);
    }
  }
}
