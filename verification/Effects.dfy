/** What each step writes, column by column, in terms of what its caller asked for: the meaning of the
    rows and entries that the rest of the protocol carries along. */
module Effects {
  import opened Records
  import opened Journal
  import opened StoreSteps
  import opened Routing
  import opened Protocol
  import opened Invariant
  import opened Lifecycle

  /** No job but `id` is touched. */
  ghost predicate OthersKept(before: Db, after: Db, id: Ulid) {
    forall other :: other != id ==>
      && (other in after.jobs <==> other in before.jobs)
      && (other in after.jobs ==> after.jobs[other] == before.jobs[other])
  }

  // ---------------------------------------------------------------------- submits

  /** The row of a job just submitted: its work, its tier, its two instants, and no history. */
  predicate AsSubmitted(task: Task, createdAt: Timestamp, visibleAt: Timestamp, row: JobRecord) {
    && row.kind == task.kind && row.payload == task.payload && row.carry == task.defaultCarry
    && row.dedupKey == task.dedupKey
    && row.priority == (if task.priority.High? then 0 else if task.priority.Normal? then 1 else 2)
    && row.createdAt == createdAt && row.visibleAt == visibleAt
    && row.status.Pending? && row.runCount == 0 && row.failureCount == 0
    && row.claimedBy.None? && row.claimExpiresAt.None? && row.finishedAt.None?
  }

  /** The step inserts a new job for a producer. */
  predicate Inserts(s: Sys, step: Step) {
    step.InsertCall? && step.pid in s.producers && s.producers[step.pid].MustInsert? && step.id !in s.issued
  }

  lemma InsertLands(s: Sys, step: Step)
    requires Inserts(s, step)
    ensures var t, p := Apply(s, step), s.producers[step.pid];
      && step.id in t.db.jobs && t.db.jobs[step.id].id == step.id
      && AsSubmitted(p.task, p.createdAt, p.visibleAt, t.db.jobs[step.id])
      && OthersKept(s.db, t.db, step.id) && t.db.journal == s.db.journal
  {
  }

  /** Distinct tiers are distinct numbers, the higher the earlier. */
  lemma TiersInOrder(p: Priority, q: Priority)
    ensures Tier(High) < Tier(Normal) < Tier(Low)
    ensures ValidPriority(Tier(p)) && (Tier(p) == Tier(q) <==> p == q)
  {
  }

  /** A job submitted for an instant has no run before the database clock gets there, whatever anyone
      does meanwhile. */
  lemma SubmittedNeverRunsEarly(s: Sys, step: Step, steps: seq<Step>)
    requires Inv(s) && Inserts(s, step)
    requires Exec(Apply(s, step), steps).now < s.producers[step.pid].visibleAt
    ensures var t := Exec(Apply(s, step), steps);
      && StillWaits(t, step.id, s.producers[step.pid].visibleAt, 0)
      && forall r :: r in t.runs ==> r.id != step.id
  {
    var after := Apply(s, step);
    var t := Exec(after, steps);
    InsertLands(s, step);
    StepKeepsInv(s, step);
    NeverRunEarly(after, steps, step.id);
    RunKeepsInv(after, steps);
    RunsAreNumbered(s, step, steps);
    forall r | r in t.runs
      ensures r.id != step.id
    {
      assert SnapshotOk(t, r);
    }
  }

  /** A new job has no runs yet, and those it gets are numbered from 1. */
  lemma {:induction false} RunsAreNumbered(s: Sys, step: Step, steps: seq<Step>)
    requires Inv(s) && Inserts(s, step)
    ensures forall r :: r in Exec(Apply(s, step), steps).runs && r.id == step.id ==> r.runCount >= 1
  {
    if steps == [] {
      forall r | r in s.runs
        ensures r.id != step.id
      {
        assert SnapshotOk(s, r);
      }
    } else {
      RunsAreNumbered(s, step, steps[..|steps| - 1]);
    }
  }

  /** A job waiting that a keyed task may merge into. */
  predicate MayMergeInto(j: JobRecord, task: Task) {
    j.status.Pending? && j.kind == task.kind && task.dedupKey.Some? && j.dedupKey == task.dedupKey
  }

  /** A lookup holds the very row it found: a pending job of the task's kind and key, none older. It
      goes on to insert only if there is none, or the task has no key. */
  lemma ProbeReads(s: Sys, step: Step)
    requires step.Probe? && step.pid !in s.producers && step.pid in Apply(s, step).producers
    ensures var p := Apply(s, step).producers[step.pid];
      && p.task == step.task && (p.MustInsert? || p.Probed?)
      && p.createdAt == step.createdAt && p.visibleAt == step.visibleAt
      && (p.MustInsert? ==> forall id :: id in s.db.jobs ==> !MayMergeInto(s.db.jobs[id], step.task))
      && (p.Probed? ==>
            && step.found.Some? && step.found.value in s.db.jobs && p.candidate == s.db.jobs[step.found.value]
            && MayMergeInto(p.candidate, step.task)
            && (forall id :: id in s.db.jobs && MayMergeInto(s.db.jobs[id], step.task) ==>
                  p.candidate.createdAt <= s.db.jobs[id].createdAt))
    ensures Apply(s, step).db == s.db
  {
    forall id | id in s.db.jobs && step.task.dedupKey.Some?
      ensures MayMergeInto(s.db.jobs[id], step.task)
          <==> Sibling(s.db.jobs[id], step.task.kind, step.task.dedupKey.value)
    {
    }
  }

  /** What a merge leaves, by the producer's decision: nothing changed; the incoming task's work, default
      carry and tier; or the merged ones. */
  predicate AsMerged(task: Task, d: Decision, before: JobRecord, row: JobRecord) {
    && SameJob(before, row) && row.runCount == before.runCount && row.failureCount == before.failureCount
    && row.status == before.status && row.visibleAt == before.visibleAt
    && row.claimedBy == before.claimedBy && row.claimExpiresAt == before.claimExpiresAt
    && row.finishedAt == before.finishedAt
    && match d
       case Independent => false
       case Keep => row.payload == before.payload && row.carry == before.carry && row.priority == before.priority
       case Replace =>
         row.payload == task.payload && row.carry == task.defaultCarry && row.priority == Tier(task.priority)
       case With(payload, carry, priority) =>
         row.payload == payload && row.carry == carry && row.priority == Tier(priority)
  }

  lemma MergeLands(s: Sys, step: Step, id: Ulid)
    requires Keyed(s.db.jobs) && MergesInto(s, step, id)
    ensures id in Apply(s, step).db.jobs
    ensures AsMerged(s.producers[step.pid].task, step.decision, s.db.jobs[id], Apply(s, step).db.jobs[id])
    ensures OthersKept(s.db, Apply(s, step).db, id)
  {
  }

  // ----------------------------------------------------------------------- claims

  /** Everything of a job but what a claim is about. */
  predicate SameButClaim(a: JobRecord, b: JobRecord) {
    && SameJob(a, b) && a.payload == b.payload && a.priority == b.priority && a.carry == b.carry
    && a.failureCount == b.failureCount && a.visibleAt == b.visibleAt && a.finishedAt == b.finishedAt
  }

  /** A claim that applies hands out a due, pending job of a wanted kind and tier, and changes nothing of
      it but that it is now claimed, by whom, in which run and until when: for the lease from now. */
  lemma ClaimLands(s: Sys, claim: Step)
    requires Inv(s) && claim.ClaimCall? && Apply(s, claim) != s
    ensures var t, id := Apply(s, claim), claim.id;
      && id in s.db.jobs && id in t.db.jobs
      && s.db.jobs[id].status.Pending? && s.db.jobs[id].visibleAt <= s.now
      && s.db.jobs[id].kind in claim.kinds && s.db.jobs[id].priority >= claim.floor
      && SameButClaim(s.db.jobs[id], t.db.jobs[id])
      && t.db.jobs[id].status.Claimed? && t.db.jobs[id].claimedBy == Some(claim.owner)
      && t.db.jobs[id].runCount == s.db.jobs[id].runCount + 1
      && t.db.jobs[id].claimExpiresAt == Some(AddDuration(s.now, claim.lease))
      && t.runs == s.runs + {t.db.jobs[id]}
      && OthersKept(s.db, t.db, id) && t.db.journal == s.db.journal && t.now == s.now
  {
    RowAt(s.db, claim.id);
  }

  /** The run just claimed is leased for as long as was asked. */
  lemma ClaimIsLeased(s: Sys, claim: Step)
    requires Inv(s) && claim.ClaimCall? && Apply(s, claim) != s
    requires MIN_UTC <= s.now && s.now + claim.lease <= MAX_UTC
    ensures var t, id := Apply(s, claim), claim.id;
      id in t.db.jobs && LeasedUntil(t, id, t.db.jobs[id].runCount, s.now + claim.lease)
  {
    ClaimLands(s, claim);
  }

  /** So from the claim on: for as long as was asked, whatever the others do, nobody but the run itself
      ends it, and the settlement it makes by then applies. */
  lemma ClaimSettlesInTime(s: Sys, claim: Step, steps: seq<Step>, settle: Step)
    requires Inv(s) && claim.ClaimCall? && Apply(s, claim) != s
    requires MIN_UTC <= s.now && s.now + claim.lease <= MAX_UTC
    requires Exec(Apply(s, claim), steps).now <= s.now + claim.lease
    requires claim.id in Apply(s, claim).db.jobs && settle.SettleCall? && settle.run == Apply(s, claim).db.jobs[claim.id]
    requires forall i :: 0 <= i < |steps| ==>
      && !OwnConclusion(steps[i], claim.id, settle.run.runCount)
      && !CutsLease(At(Apply(s, claim), steps, i), steps[i], claim.id, settle.run.runCount, s.now + claim.lease)
    ensures var t := Exec(Apply(s, claim), steps);
      LeasedUntil(t, claim.id, settle.run.runCount, s.now + claim.lease)
      && Applies(t, settle, claim.id, settle.run.runCount)
  {
    var t := Apply(s, claim);
    ClaimLands(s, claim);
    ClaimIsLeased(s, claim);
    StepKeepsInv(s, claim);
    RowAt(t.db, claim.id);
    SettleByExpiryApplies(t, steps, claim.id, settle.run.runCount, s.now + claim.lease, settle);
  }

  /** A renewal by the run sets its lease to end exactly the asked time from now, and nothing else. */
  lemma ExtendLands(s: Sys, step: Step)
    requires Inv(s) && step.ExtendCall? && step.run in s.runs && ClaimedAt(s.db, step.run.id, step.run.runCount)
    ensures var t, id := Apply(s, step), step.run.id;
      && id in t.db.jobs && t.db.jobs[id].claimExpiresAt == Some(AddDuration(s.now, step.lease))
      && SameClaim(t.db.jobs[id], s.db.jobs[id])
      && OthersKept(s.db, t.db, id) && t.db.journal == s.db.journal
  {
    assert SnapshotOk(s, step.run);
    RowAt(s.db, step.run.id);
  }

  // ------------------------------------------------------------ the end of a claim

  /** Back in the queue, with the same work and the same carry, due at the given instant. */
  predicate Repended(run: JobRecord, row: JobRecord, visibleAt: Timestamp, failures: int) {
    && SameWork(run, row) && row.carry == run.carry && row.status.Pending?
    && row.claimedBy.None? && row.claimExpiresAt.None? && row.finishedAt.None?
    && row.visibleAt == visibleAt && row.failureCount == failures
  }

  /** A released job is due at once, and not charged a failure. */
  lemma ReleaseLands(s: Sys, step: Step, id: Ulid)
    requires Inv(s) && step.ReleaseCall? && Concludes(s, step, id, step.run.runCount)
    ensures id in Apply(s, step).db.jobs
    ensures Repended(step.run, Apply(s, step).db.jobs[id], step.at, step.run.failureCount)
    ensures OthersKept(s.db, Apply(s, step).db, id)
  {
    ConclusionWrites(s, step);
    assert SnapshotOk(s, step.run);
    RowAt(s.db, id);
  }

  /** A recovered job is due after its delay, charged one failure. */
  lemma RecoveryLands(s: Sys, step: Step)
    requires Inv(s) && step.RecoverCall? && Concludes(s, step, step.snapshot.id, step.snapshot.runCount)
    ensures var t, id := Apply(s, step), step.snapshot.id;
      && id in t.db.jobs
      && Repended(step.snapshot, t.db.jobs[id], AddDuration(step.at, step.delay), step.snapshot.failureCount + 1)
      && OthersKept(s.db, t.db, id)
  {
    assert SnapshotOk(s, step.snapshot);
    RowAt(s.db, step.snapshot.id);
  }

  /** What a handler's execution leaves of the job, from the run it was claimed with: a handler that
      returned decides, its carry kept on pauses and retries; one whose carry cannot be encoded, or whose
      job cannot be decoded, is given up on; a panic is a failure that keeps the old carry. */
  ghost predicate HandlerLanded(
    run: JobRecord, b: Behaviour, policy: PanicPolicy, backstop: Option<nat>, at: Timestamp, delay: Duration,
    row: JobRecord)
  {
    match b
    case Undecodable(_) => GivenUp(run, at, row)
    case Panicked(_) =>
      if policy.KillPanics? then GivenUp(run, at, row) else RetriedOrDead(run, run.carry, backstop, at, delay, row)
    case Returned(_, Err(_), _) => GivenUp(run, at, row)
    case Returned(Completed(_), Ok(_), _) =>
      Finished(run, at, Status.Completed, run.failureCount, row)
    case Returned(Paused(resumeIn, _), Ok(carry), _) =>
      Repended(run.(carry := carry), row, AddDuration(at, resumeIn), run.failureCount)
    case Returned(Failed(permanent, _), Ok(carry), _) =>
      if permanent then GivenUp(run, at, row) else RetriedOrDead(run, carry, backstop, at, delay, row)
  }

  /** For good, at this instant, with the work, the carry and the schedule it had. */
  predicate Finished(run: JobRecord, at: Timestamp, status: Status, failures: int, row: JobRecord) {
    && SameWork(run, row) && row.carry == run.carry && row.visibleAt == run.visibleAt
    && row.status == status && row.finishedAt == Some(at) && row.failureCount == failures
    && row.claimedBy.None? && row.claimExpiresAt.None?
  }

  predicate GivenUp(run: JobRecord, at: Timestamp, row: JobRecord) {
    Finished(run, at, Dead, run.failureCount + 1, row)
  }

  predicate RetriedOrDead(
    run: JobRecord, carry: Json, backstop: Option<nat>, at: Timestamp, delay: Duration, row: JobRecord)
  {
    if backstop.Some? && run.failureCount + 1 >= backstop.value then GivenUp(run, at, row)
    else Repended(run.(carry := carry), row, AddDuration(at, delay), run.failureCount + 1)
  }

  /** From handler to row: a settlement of the run that applies, with the report of what its handler did,
      leaves exactly that. */
  lemma HandlerLands(s: Sys, settle: Step, id: Ulid, b: Behaviour, policy: PanicPolicy)
    requires Inv(s) && settle.SettleCall? && Concludes(s, settle, id, settle.run.runCount)
    requires settle.report == ErasedRun(settle.run.carry, b, policy)
    ensures id in Apply(s, settle).db.jobs
    ensures HandlerLanded(
      settle.run, b, policy, settle.backstop, settle.at, settle.delay, Apply(s, settle).db.jobs[id])
    ensures OthersKept(s.db, Apply(s, settle).db, id)
  {
    SettlementLands(s, settle, id);
    ConclusionWrites(s, settle);
    assert SnapshotOk(s, settle.run);
  }

  /** The handler paused, or failed in a way worth a retry, and left this carry. */
  predicate LeavesCarry(b: Behaviour, carry: Json) {
    && b.Returned? && b.encodedCarry == Ok(carry)
    && (b.result.Paused? || (b.result.Failed? && !b.result.permanent))
  }

  /** The next run starts from what the handler left: unless the backstop ended the job, the next claim
      is handed exactly the handler's carry, whatever happens in between short of a write to it. */
  lemma NextRunGetsHandlersCarry(
    s: Sys, settle: Step, rest: seq<Step>, claim: Step, id: Ulid, b: Behaviour, policy: PanicPolicy, carry: Json)
    requires Inv(s) && settle.SettleCall? && Concludes(s, settle, id, settle.run.runCount)
    requires settle.report == ErasedRun(settle.run.carry, b, policy) && LeavesCarry(b, carry)
    requires id in Apply(s, settle).db.jobs && !Apply(s, settle).db.jobs[id].status.Dead?
    requires forall i :: 0 <= i < |rest| ==> !WritesCarry(At(Apply(s, settle), rest, i), rest[i], id)
    requires claim.ClaimCall? && claim.id == id
    requires Apply(Exec(Apply(s, settle), rest), claim) != Exec(Apply(s, settle), rest)
    ensures var t := Apply(Exec(Apply(s, settle), rest), claim);
      id in t.db.jobs && t.db.jobs[id] in t.runs && t.db.jobs[id].carry == carry
      && t.db.jobs[id].runCount > settle.run.runCount
  {
    ReportKeepsCarry(settle.run.carry, b, policy, carry);
    NotDeadIsRepended(s, settle, id);
    NextRunResumes(s, settle, rest, claim, id);
  }

  lemma ReportKeepsCarry(before: Json, b: Behaviour, policy: PanicPolicy, carry: Json)
    requires LeavesCarry(b, carry)
    ensures var r := ErasedRun(before, b, policy);
      r.Ok? && r.value.result == b.result && r.value.carry == carry && r.value.attachment == b.attachment
  {
  }

  lemma NotDeadIsRepended(s: Sys, settle: Step, id: Ulid)
    requires Inv(s) && settle.SettleCall? && Concludes(s, settle, id, settle.run.runCount)
    requires settle.report.Ok? && !settle.report.value.result.Completed?
    requires id in Apply(s, settle).db.jobs && !Apply(s, settle).db.jobs[id].status.Dead?
    ensures StepSettlement(settle).Pause? || StepSettlement(settle).Retry?
  {
    ConclusionWrites(s, settle);
  }

  // -------------------------------------------------------------------- the journal

  /** The last entry of the journal, with its id and the job it is about. */
  predicate LastEntry(db: Db, entryId: int, id: Ulid, run: JobRecord, at: Timestamp, outcome: JournalOutcome,
                      note: Option<Note>, attachment: Option<Json>)
  {
    && db.journal != []
    && db.journal[|db.journal| - 1]
       == JournalRecord(entryId, id, run.kind, run.runCount, at, outcome, note, attachment)
  }

  /** The handler's own words. */
  function Noted(note: Option<string>): Option<Note> {
    match note
    case None => None
    case Some(text) => Some(Said(text))
  }

  /** The outcome a handler's execution is recorded with. */
  function RecordedOutcome(run: JobRecord, b: Behaviour, policy: PanicPolicy, backstop: Option<nat>): JournalOutcome {
    var failed := if backstop.Some? && run.failureCount + 1 >= backstop.value then RunDead else RunRetried;
    match b
    case Undecodable(_) => RunDead
    case Panicked(_) => if policy.KillPanics? then RunDead else failed
    case Returned(_, Err(_), _) => RunDead
    case Returned(Completed(_), _, _) => RunCompleted
    case Returned(Paused(_, _), _, _) => RunPaused
    case Returned(Failed(permanent, _), _, _) => if permanent then RunDead else failed
  }

  /** What is noted of it: the handler's own note, or the reason it failed. */
  function RecordedNote(b: Behaviour): Option<Note> {
    match b
    case Undecodable(message) => Some(Said(message))
    case Panicked(message) => Some(Said(message))
    case Returned(_, Err(error), _) => Some(CarryNotEncodable(error))
    case Returned(Completed(note), _, _) => Noted(note)
    case Returned(Paused(_, note), _, _) => Noted(note)
    case Returned(Failed(_, message), _, _) => Some(message)
  }

  /** From handler to journal: the outcome, the handler's note or the reason of the failure, and the
      attachment of a handler that returned. */
  lemma HandlerLogged(s: Sys, settle: Step, id: Ulid, b: Behaviour, policy: PanicPolicy)
    requires Inv(s) && settle.SettleCall? && Concludes(s, settle, id, settle.run.runCount)
    requires settle.report == ErasedRun(settle.run.carry, b, policy)
    ensures LastEntry(
      Apply(s, settle).db, s.db.nextJournalId, id, settle.run, settle.at,
      RecordedOutcome(settle.run, b, policy, settle.backstop), RecordedNote(b),
      if b.Returned? then b.attachment else None)
  {
    ConclusionWrites(s, settle);
    assert SnapshotOk(s, settle.run);
    RowAt(s.db, id);
  }

  /** A release, a recovery and a merge are recorded as such, with the system's own words. */
  lemma ReleaseLogged(s: Sys, step: Step, id: Ulid)
    requires Inv(s) && step.ReleaseCall? && Concludes(s, step, id, step.run.runCount)
    ensures LastEntry(Apply(s, step).db, s.db.nextJournalId, id, step.run, step.at, RunReleased,
                      Some(ReleasedAtShutdown), None)
  {
    ConclusionWrites(s, step);
  }

  lemma RecoveryLogged(s: Sys, step: Step)
    requires Inv(s) && step.RecoverCall? && Concludes(s, step, step.snapshot.id, step.snapshot.runCount)
    ensures LastEntry(Apply(s, step).db, s.db.nextJournalId, step.snapshot.id, step.snapshot, step.at,
                      StaleRecovered, Some(LeaseExpired(step.snapshot.claimedBy)), None)
  {
    RowAt(s.db, step.snapshot.id);
  }

  lemma MergeLogged(s: Sys, step: Step, id: Ulid)
    requires Keyed(s.db.jobs) && MergesInto(s, step, id)
    ensures LastEntry(Apply(s, step).db, s.db.nextJournalId, id, s.producers[step.pid].candidate, step.at, Merged,
                      Some(EnqueueMerged), None)
  {
  }

  // -------------------------------------------------------------------- the cleanup

  /** A cleanup deletes exactly the matching jobs finished before the instant, leaves the others alone,
      and drops the entries of those it deletes and no others. */
  lemma CleanupSweeps(s: Sys, step: Step, id: Ulid)
    requires step.CleanupCall? && id in s.db.jobs
    ensures var t, j, c := Apply(s, step), s.db.jobs[id], step.criteria;
      && (id !in t.db.jobs <==>
            && j.finishedAt.Some? && j.finishedAt.value < c.finishedBefore
            && (c.kind.None? || c.kind.value == j.kind) && (c.status.None? || c.status.value == j.status))
      && (id in t.db.jobs ==>
            t.db.jobs[id] == j && EntriesOf(t.db.journal, id) == EntriesOf(s.db.journal, id))
      && (id !in t.db.jobs ==> EntriesOf(t.db.journal, id) == [])
  {
    var ids := SweptIds(s.db, step.criteria);
    if id in ids {
      WithoutSound(s.db.journal, ids);
      NoEntries(Without(s.db.journal, ids), id);
    } else {
      EntriesOfWithout(s.db.journal, ids, id);
    }
  }
}
