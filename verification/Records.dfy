/** The value types that cross the storage boundary, and the few pure functions on them. */
module Records {

  datatype Option<+T> = None | Some(value: T)

  datatype Result<+T, +E> = Ok(value: T) | Err(error: E)

  /** Instants and durations, in nanoseconds. */
  type Timestamp = int
  type Duration = nat

  /** A 128-bit job identity, ordered as a number. */
  type Ulid = id: int | 0 <= id < 0x1_0000_0000_0000_0000_0000_0000_0000_0000

  /** Payloads and carries are opaque documents; only `null` is told apart. */
  datatype Json = Null | Doc(text: string)

  const I32_MAX: int := 0x7FFF_FFFF

  // ------------------------------------------------------------------ lifecycle

  datatype Status = Pending | Claimed | Completed | Dead

  predicate Terminal(s: Status) {
    s.Completed? || s.Dead?
  }

  function StatusText(s: Status): string {
    match s
    case Pending => "pending"
    case Claimed => "claimed"
    case Completed => "completed"
    case Dead => "dead"
  }

  function StatusFromText(text: string): Option<Status> {
    if text == "pending" then Some(Pending)
    else if text == "claimed" then Some(Claimed)
    else if text == "completed" then Some(Completed)
    else if text == "dead" then Some(Dead)
    else None
  }

  /** What is written to the `status` column reads back as the same state, so distinct states
      have distinct texts. */
  lemma StatusTextRoundTrip(s: Status)
    ensures StatusFromText(StatusText(s)) == Some(s)
  {
    assert "pending"[0] == 'p' && "claimed"[1] == 'l' && "completed"[1] == 'o' && "dead"[0] == 'd';
  }

  datatype Priority = High | Normal | Low

  function Tier(p: Priority): int {
    match p
    case High => 0
    case Normal => 1
    case Low => 2
  }

  datatype JournalOutcome =
    | RunCompleted | RunPaused | RunRetried | RunDead | StaleRecovered | RunReleased | Merged

  /** The outcomes that count toward the failure backstop. */
  const FAILURES: set<JournalOutcome> := {RunRetried, RunDead, StaleRecovered}

  /** The outcomes that record an execution, as opposed to a merge. */
  const EXECUTIONS: set<JournalOutcome> :=
    {RunCompleted, RunPaused, RunRetried, RunDead, StaleRecovered, RunReleased}

  // -------------------------------------------------------------------- records

  datatype JobRecord = JobRecord(
    id: Ulid,
    kind: string,
    payload: Json,
    priority: int,
    status: Status,
    createdAt: Timestamp,
    visibleAt: Timestamp,
    claimExpiresAt: Option<Timestamp>,
    claimedBy: Option<string>,
    finishedAt: Option<Timestamp>,
    runCount: nat,
    failureCount: int,
    carry: Json,
    dedupKey: Option<string>)

  /** A journal note: the handler's own words, or one of the fixed texts the system writes. */
  datatype Note =
    | Said(text: string)
    | LeaseExpired(owner: Option<string>)
    | ReleasedAtShutdown
    | EnqueueMerged
    | CarryNotEncodable(error: string)

  datatype JournalRecord = JournalRecord(
    entryId: int,
    jobId: Ulid,
    kind: string,
    runNo: nat,
    recordedAt: Timestamp,
    outcome: JournalOutcome,
    note: Option<Note>,
    attachment: Option<Json>)

  datatype JournalAppend = JournalAppend(
    kind: string,
    runNo: nat,
    recordedAt: Timestamp,
    outcome: JournalOutcome,
    note: Option<Note>,
    attachment: Option<Json>)

  datatype NewJob = NewJob(
    id: Ulid,
    kind: string,
    payload: Json,
    priority: int,
    createdAt: Timestamp,
    visibleAt: Timestamp,
    carry: Json,
    dedupKey: Option<string>)

  datatype Settlement =
    | Complete(finishedAt: Timestamp)
    | Retry(visibleAt: Timestamp, failureCount: int, carry: Json)
    | Pause(visibleAt: Timestamp, carry: Json)
    | GiveUp(finishedAt: Timestamp, failureCount: int)
    | Release(visibleAt: Timestamp)

  datatype MergePayload = MergePayload(payload: Json, carry: Json, priority: int)

  datatype CleanupCriteria = CleanupCriteria(
    finishedBefore: Timestamp, kind: Option<string>, status: Option<Status>)

  datatype StoreError = InvalidPriority(priority: int)

  // ----------------------------------------------------------------- arithmetic

  /** chrono's `DateTime::<Utc>::MAX_UTC` and `MIN_UTC`, and the largest representable
      `chrono::Duration` (`i64::MAX` milliseconds). */
  const MAX_UTC: Timestamp := 8210266876799999999999
  const MIN_UTC: Timestamp := -8334601228800000000000
  const MAX_DELTA: Duration := 9223372036854775807000000

  /** An instant plus a delay, saturating to the far future: an overflowing delay never collapses
      to `now`, which would make a paused job eligible again at once. */
  function AddDuration(now: Timestamp, delta: Duration): (at: Timestamp)
    ensures MIN_UTC <= now <= MAX_UTC ==> now <= at <= MAX_UTC
    ensures MIN_UTC <= now <= MAX_UTC ==> (at == now + delta <==> now + delta <= MAX_UTC)
  {
    if delta > MAX_DELTA then MAX_UTC
    else if now + delta > MAX_UTC then MAX_UTC
    else now + delta
  }

  /** `i32::saturating_add(1)`. */
  function SaturatingIncrement(n: int): (r: int)
    ensures r <= n + 1 && (r == n + 1 <==> n < I32_MAX)
  {
    if n >= I32_MAX then n else n + 1
  }
}
