/** From a handler's behaviour to the settlement the worker writes: the type-erased run of the
    registry, then the worker's outcome routing with the failure backstop. */
module Routing {
  import opened Records

  datatype PanicPolicy = RetryPanics | KillPanics

  datatype Outcome =
    | Completed(note: Option<string>)
    | Paused(resumeIn: Duration, note: Option<string>)
    | Failed(permanent: bool, message: Note)

  datatype RunReport = RunReport(result: Outcome, carry: Json, attachment: Option<Json>)

  /** What one execution of user code amounts to, as the registry observes it. */
  datatype Behaviour =
    | Undecodable(message: string)
    | Panicked(message: string)
    | Returned(result: Outcome, encodedCarry: Result<Json, string>, attachment: Option<Json>)

  /** The registry's erased run: a panic discards the handler's context and reports the carry the
      run started with; an unencodable carry becomes a permanent failure. */
  function ErasedRun(carryBefore: Json, b: Behaviour, policy: PanicPolicy): Result<RunReport, string> {
    match b
    case Undecodable(message) => Err(message)
    case Panicked(message) =>
      Ok(RunReport(Failed(policy.KillPanics?, Said(message)), carryBefore, None))
    case Returned(result, Ok(carry), attachment) => Ok(RunReport(result, carry, attachment))
    case Returned(result, Err(error), attachment) =>
      Ok(RunReport(Failed(true, CarryNotEncodable(error)), Null, attachment))
  }

  /** Schedule a retryable failure after `delay`, or force it dead at the backstop. */
  function RetryOrBackstop(
    backstop: Option<nat>, report: RunReport, now: Timestamp, nextFailures: int, delay: Duration): Settlement
  {
    var attempt := if nextFailures < 0 then 0 else nextFailures;
    if backstop.Some? && attempt >= backstop.value then GiveUp(now, nextFailures)
    else Retry(AddDuration(now, delay), nextFailures, report.carry)
  }

  function SettlementFor(
    backstop: Option<nat>, report: RunReport, now: Timestamp, nextFailures: int, delay: Duration): Settlement
  {
    match report.result
    case Completed(_) => Complete(now)
    case Paused(resumeIn, _) => Pause(AddDuration(now, resumeIn), report.carry)
    case Failed(permanent, _) =>
      if permanent then GiveUp(now, nextFailures)
      else RetryOrBackstop(backstop, report, now, nextFailures, delay)
  }

  function OutcomeFor(s: Settlement): JournalOutcome {
    match s
    case Complete(_) => RunCompleted
    case Pause(_, _) => RunPaused
    case Retry(_, _, _) => RunRetried
    case GiveUp(_, _) => RunDead
    case Release(_) => RunReleased
  }

  function Words(note: Option<string>): Option<Note> {
    if note.Some? then Some(Said(note.value)) else None
  }

  function NoteFor(result: Outcome): Option<Note> {
    match result
    case Completed(note) => Words(note)
    case Paused(_, note) => Words(note)
    case Failed(_, message) => Some(message)
  }

  /** The settlement a worker computes for a finished run, from the failure count its claim saw. */
  function SettlementOf(
    backstop: Option<nat>, report: Result<RunReport, string>, now: Timestamp, failureCount: int,
    delay: Duration): Settlement
  {
    match report
    case Err(_) => GiveUp(now, SaturatingIncrement(failureCount))
    case Ok(r) => SettlementFor(backstop, r, now, SaturatingIncrement(failureCount), delay)
  }

  /** The journal entry written with it. */
  function SettleEntry(
    run: JobRecord, s: Settlement, report: Result<RunReport, string>, now: Timestamp): JournalAppend
  {
    var note := match report case Err(message) => Some(Said(message)) case Ok(r) => NoteFor(r.result);
    var attachment := match report case Err(_) => None case Ok(r) => r.attachment;
    JournalAppend(run.kind, run.runCount, now, OutcomeFor(s), note, attachment)
  }

  function ReleaseEntry(kind: string, runNo: nat, now: Timestamp): JournalAppend {
    JournalAppend(kind, runNo, now, RunReleased, Some(ReleasedAtShutdown), None)
  }

  function StaleEntry(job: JobRecord, now: Timestamp): JournalAppend {
    JournalAppend(job.kind, job.runCount, now, StaleRecovered,
                  Some(LeaseExpired(job.claimedBy)), None)
  }

  function MergeEntry(candidate: JobRecord, now: Timestamp): JournalAppend {
    JournalAppend(candidate.kind, candidate.runCount, now, Merged,
                  Some(EnqueueMerged), None)
  }

  /** A failure that may be retried is given up on exactly when its total reaches the backstop. */
  lemma RetryableDiesOnlyAtBackstop(
    backstop: Option<nat>, report: RunReport, now: Timestamp, failureCount: int, delay: Duration)
    requires report.result.Failed? && !report.result.permanent
    requires 0 <= failureCount < I32_MAX
    ensures var s := SettlementOf(backstop, Ok(report), now, failureCount, delay);
      && (s.GiveUp? <==> backstop.Some? && failureCount + 1 >= backstop.value)
      && (s.Retry? <==> !s.GiveUp?)
      && s.failureCount == failureCount + 1
  {
  }

  /** A panic under the retry policy keeps the carry its run was claimed with. */
  lemma PanicKeepsCarry(
    backstop: Option<nat>, carry: Json, message: string, now: Timestamp, failureCount: int, delay: Duration)
    ensures var s := SettlementOf(
        backstop, ErasedRun(carry, Panicked(message), RetryPanics), now, failureCount, delay);
      s.GiveUp? || (s.Retry? && s.carry == carry)
  {
  }
}
