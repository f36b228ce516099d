/** The store calls as functions on the database value: what each one writes, and when its guard
    lets it write at all. The in-memory store and the protocol both speak of these functions. */
module StoreSteps {
  import opened Records
  import opened Journal

  datatype Db = Db(jobs: map<Ulid, JobRecord>, journal: seq<JournalRecord>, nextJournalId: int)

  const EMPTY: Db := Db(map[], [], 0)

  /** Rows are stored under their own id. */
  ghost predicate Keyed(jobs: map<Ulid, JobRecord>) {
    forall id :: id in jobs ==> jobs[id].id == id
  }

  /** Overwrite one row. */
  function Put(db: Db, job: JobRecord): Db {
    db.(jobs := db.jobs[job.id := job])
  }

  function Entry(entryId: int, jobId: Ulid, e: JournalAppend): JournalRecord {
    JournalRecord(entryId, jobId, e.kind, e.runNo, e.recordedAt, e.outcome, e.note, e.attachment)
  }

  /** Overwrite one row and append one journal entry for it, in one transaction. */
  function PutAndLog(db: Db, job: JobRecord, e: JournalAppend): Db {
    Db(db.jobs[job.id := job],
       db.journal + [Entry(db.nextJournalId, job.id, e)],
       db.nextJournalId + 1)
  }

  // -------------------------------------------------------------------- enqueue

  predicate ValidPriority(priority: int) {
    0 <= priority <= 2
  }

  function FreshRow(job: NewJob): JobRecord {
    JobRecord(job.id, job.kind, job.payload, job.priority, Pending, job.createdAt, job.visibleAt,
              None, None, None, 0, 0, job.carry, job.dedupKey)
  }

  // ---------------------------------------------------------------------- claim

  predicate Eligible(j: JobRecord, now: Timestamp, kinds: seq<string>, floor: int) {
    j.status.Pending? && j.visibleAt <= now && j.priority >= floor && j.kind in kinds
  }

  /** Claim order: priority tier, then age. Ties are left to the store. */
  predicate NoLater(a: JobRecord, b: JobRecord) {
    a.priority < b.priority || (a.priority == b.priority && a.createdAt <= b.createdAt)
  }

  /** A row the claim statement may return: eligible, and no eligible row comes before it. */
  predicate ClaimTarget(db: Db, now: Timestamp, kinds: seq<string>, floor: int, id: Ulid) {
    && id in db.jobs
    && Eligible(db.jobs[id], now, kinds, floor)
    && (forall other :: other in db.jobs && Eligible(db.jobs[other], now, kinds, floor)
          ==> NoLater(db.jobs[id], db.jobs[other]))
  }

  function ClaimedRow(j: JobRecord, now: Timestamp, lease: Duration, owner: string): JobRecord {
    j.(status := Claimed, claimedBy := Some(owner), claimExpiresAt := Some(AddDuration(now, lease)),
       runCount := j.runCount + 1)
  }

  // ------------------------------------------------------------- settle, extend

  /** Row `id` is claimed at epoch `runNo`, whoever holds it. */
  predicate ClaimedAt(db: Db, id: Ulid, runNo: nat) {
    id in db.jobs && db.jobs[id].status.Claimed? && db.jobs[id].runCount == runNo
  }

  /** The ownership guard of `settle` and `extend_lease`. */
  predicate Owns(db: Db, id: Ulid, owner: string, runNo: nat) {
    ClaimedAt(db, id, runNo) && db.jobs[id].claimedBy == Some(owner)
  }

  function SettledRow(j: JobRecord, settlement: Settlement): JobRecord {
    var free := j.(claimedBy := None, claimExpiresAt := None);
    match settlement
    case Complete(at) => free.(status := Completed, finishedAt := Some(at))
    case Retry(at, failures, carry) =>
      free.(status := Pending, visibleAt := at, failureCount := failures, carry := carry)
    case Pause(at, carry) => free.(status := Pending, visibleAt := at, carry := carry)
    case GiveUp(at, failures) =>
      free.(status := Dead, finishedAt := Some(at), failureCount := failures)
    case Release(at) => free.(status := Pending, visibleAt := at)
  }

  function Settle(db: Db, id: Ulid, owner: string, runNo: nat, s: Settlement, e: JournalAppend): (Db, bool) {
    if Owns(db, id, owner, runNo) then (PutAndLog(db, SettledRow(db.jobs[id], s), e), true)
    else (db, false)
  }

  function ExtendLease(db: Db, now: Timestamp, id: Ulid, owner: string, runNo: nat, lease: Duration): (Db, bool) {
    if Owns(db, id, owner, runNo)
    then (Put(db, db.jobs[id].(claimExpiresAt := Some(AddDuration(now, lease)))), true)
    else (db, false)
  }

  // -------------------------------------------------------------------- recover

  predicate Stale(j: JobRecord, now: Timestamp) {
    j.status.Claimed? && j.claimExpiresAt.Some? && j.claimExpiresAt.value < now
  }

  function RecoveredRow(j: JobRecord, visibleAt: Timestamp, failures: int): JobRecord {
    j.(status := Pending, visibleAt := visibleAt, failureCount := failures,
       claimedBy := None, claimExpiresAt := None)
  }

  predicate Recoverable(db: Db, now: Timestamp, id: Ulid, runNo: nat) {
    ClaimedAt(db, id, runNo) && Stale(db.jobs[id], now)
  }

  function Recover(db: Db, now: Timestamp, id: Ulid, visibleAt: Timestamp, failures: int, runNo: nat,
                   e: JournalAppend): (Db, bool) {
    if Recoverable(db, now, id, runNo)
    then (PutAndLog(db, RecoveredRow(db.jobs[id], visibleAt, failures), e), true)
    else (db, false)
  }

  // ---------------------------------------------------------------------- dedup

  predicate Sibling(j: JobRecord, kind: string, key: string) {
    j.status.Pending? && j.kind == kind && j.dedupKey == Some(key)
  }

  /** A row the candidate lookup may return: an oldest pending row of `(kind, key)`. */
  predicate DedupCandidate(db: Db, kind: string, key: string, id: Ulid) {
    && id in db.jobs
    && Sibling(db.jobs[id], kind, key)
    && (forall other :: other in db.jobs && Sibling(db.jobs[other], kind, key)
          ==> db.jobs[id].createdAt <= db.jobs[other].createdAt)
  }

  predicate NoSibling(db: Db, kind: string, key: string) {
    forall id :: id in db.jobs ==> !Sibling(db.jobs[id], kind, key)
  }

  function MergedRow(j: JobRecord, update: Option<MergePayload>): JobRecord {
    match update
    case None => j
    case Some(m) => j.(payload := m.payload, carry := m.carry, priority := m.priority)
  }

  function MergeInto(db: Db, id: Ulid, update: Option<MergePayload>, e: JournalAppend): (Db, bool) {
    if id in db.jobs && db.jobs[id].status.Pending?
    then (PutAndLog(db, MergedRow(db.jobs[id], update), e), true)
    else (db, false)
  }

  // -------------------------------------------------------------------- cleanup

  predicate Swept(j: JobRecord, c: CleanupCriteria) {
    && j.finishedAt.Some? && j.finishedAt.value < c.finishedBefore
    && (c.kind.Some? ==> j.kind == c.kind.value)
    && (c.status.Some? ==> j.status == c.status.value)
  }

  function SweptIds(db: Db, c: CleanupCriteria): set<Ulid> {
    set id | id in db.jobs && Swept(db.jobs[id], c)
  }

  /** Delete rows, cascading to their journal entries. */
  function Delete(db: Db, ids: set<Ulid>): Db {
    db.(jobs := db.jobs - ids, journal := Without(db.journal, ids))
  }

  function Cleanup(db: Db, c: CleanupCriteria): (Db, nat) {
    (Delete(db, SweptIds(db, c)), |SweptIds(db, c)|)
  }
}
