/** What every step of the protocol keeps. */
module Invariant {
  import opened Records
  import opened Journal
  import opened StoreSteps
  import opened Routing
  import opened Protocol

  // ------------------------------------------------------------------ one row

  /** How many executions of the row have been concluded: all of them, except one in flight. */
  function Concluded(j: JobRecord): int {
    if j.status.Claimed? then j.runCount - 1 else j.runCount
  }

  /** The terminal outcome that matches a status, if it is terminal. */
  predicate Explains(outcome: JournalOutcome, status: Status) {
    && (outcome.RunCompleted? <==> status.Completed?)
    && (outcome.RunDead? <==> status.Dead?)
  }

  /** The executions are numbered 1, 2, ... without a hole, only the last of them may be terminal,
      and it is exactly when the row is. */
  ghost predicate HoleFree(j: JobRecord, runs: seq<JournalRecord>) {
    && |runs| == Concluded(j)
    && (forall i :: 0 <= i < |runs| ==> runs[i].runNo == i + 1)
    && (forall i :: 0 <= i < |runs| - 1 ==> !runs[i].outcome.RunCompleted? && !runs[i].outcome.RunDead?)
    && (runs == [] ==> !Terminal(j.status))
    && (runs != [] ==> Explains(runs[|runs| - 1].outcome, j.status))
  }

  ghost predicate Columns(j: JobRecord) {
    && (j.status.Claimed? <==> j.claimedBy.Some?)
    && (j.status.Claimed? <==> j.claimExpiresAt.Some?)
    && (Terminal(j.status) <==> j.finishedAt.Some?)
    && j.runCount <= I32_MAX
    && ValidPriority(j.priority)
  }

  /** A row agrees with its journal. */
  ghost predicate RowOk(j: JobRecord, entries: seq<JournalRecord>) {
    && Columns(j)
    && HoleFree(j, Executions(entries))
    && j.failureCount == CountIn(entries, FAILURES)
    && (forall e :: e in entries ==> e.kind == j.kind && e.runNo <= j.runCount)
  }

  /** Failures are among the concluded executions, so the count is bounded by the runs and neither
      the saturating add nor the clamp at zero can ever take effect. */
  lemma FailuresBounded(j: JobRecord, entries: seq<JournalRecord>)
    requires RowOk(j, entries)
    ensures 0 <= j.failureCount <= Concluded(j) <= j.runCount <= I32_MAX
    ensures j.status.Claimed? ==> SaturatingIncrement(j.failureCount) == j.failureCount + 1 <= j.runCount
  {
    ExecutionsCounted(entries);
    CountInMonotone(entries, FAILURES, EXECUTIONS);
  }

  /** Writing `k` with entry `e` closes the run in flight on `j`. */
  ghost predicate ClosesRun(j: JobRecord, k: JobRecord, e: JournalAppend) {
    && j.status.Claimed? && !k.status.Claimed? && Columns(k)
    && k.id == j.id && k.kind == j.kind == e.kind && k.runCount == j.runCount == e.runNo
    && !e.outcome.Merged? && Explains(e.outcome, k.status)
    && k.failureCount == j.failureCount + (if e.outcome in FAILURES then 1 else 0)
  }

  lemma ClosingKeepsRowOk(j: JobRecord, entries: seq<JournalRecord>, k: JobRecord, e: JournalAppend, entryId: int)
    requires RowOk(j, entries) && ClosesRun(j, k, e)
    ensures RowOk(k, entries + [Entry(entryId, k.id, e)])
  {
    ExecutionsAppend(entries, Entry(entryId, k.id, e));
    CountInAppend(entries, Entry(entryId, k.id, e), FAILURES);
  }

  lemma MergeKeepsRowOk(j: JobRecord, entries: seq<JournalRecord>, k: JobRecord, e: JournalRecord)
    requires RowOk(j, entries) && Columns(k) && e.outcome.Merged?
    requires k == j.(payload := k.payload, carry := k.carry, priority := k.priority)
    requires e.kind == j.kind && e.runNo <= j.runCount
    ensures RowOk(k, entries + [e])
  {
    ExecutionsAppend(entries, e);
    CountInAppend(entries, e, FAILURES);
  }

  // ------------------------------------------------------------- the database

  /** Every row, taken with its own journal entries, has property `p`. */
  ghost predicate EveryRow(db: Db, p: (JobRecord, seq<JournalRecord>) -> bool) {
    forall id {:trigger EntriesOf(db.journal, id)} :: id in db.jobs ==> p(db.jobs[id], EntriesOf(db.journal, id))
  }

  ghost predicate NoOrphans(db: Db) {
    && (forall e :: e in db.journal ==> e.jobId in db.jobs)
    && Ordered(db.journal, db.nextJournalId)
  }

  ghost predicate DbSatisfies(db: Db, p: (JobRecord, seq<JournalRecord>) -> bool) {
    Keyed(db.jobs) && NoOrphans(db) && EveryRow(db, p)
  }

  lemma PutKeeps(db: Db, j: JobRecord, p: (JobRecord, seq<JournalRecord>) -> bool)
    requires DbSatisfies(db, p) && p(j, EntriesOf(db.journal, j.id))
    ensures DbSatisfies(Put(db, j), p)
  {
  }

  lemma PutAndLogKeepsNoOrphans(db: Db, j: JobRecord, e: JournalAppend)
    requires NoOrphans(db) && j.id in db.jobs
    ensures NoOrphans(PutAndLog(db, j, e))
  {
    var after := PutAndLog(db, j, e);
    assert after.journal[..|db.journal|] == db.journal;
    assert forall r :: r in after.journal ==> r in db.journal || r == after.journal[|db.journal|];
  }

  lemma PutAndLogKeeps(db: Db, j: JobRecord, e: JournalAppend, p: (JobRecord, seq<JournalRecord>) -> bool)
    requires DbSatisfies(db, p) && j.id in db.jobs
    requires p(j, EntriesOf(db.journal, j.id) + [Entry(db.nextJournalId, j.id, e)])
    ensures DbSatisfies(PutAndLog(db, j, e), p)
  {
    var r := Entry(db.nextJournalId, j.id, e);
    PutAndLogKeepsNoOrphans(db, j, e);
    forall id | id in PutAndLog(db, j, e).jobs
      ensures p(PutAndLog(db, j, e).jobs[id], EntriesOf(db.journal + [r], id))
    {
      EntriesOfAppend(db.journal, r, id);
    }
  }

  lemma DeleteKeeps(db: Db, ids: set<Ulid>, p: (JobRecord, seq<JournalRecord>) -> bool)
    requires DbSatisfies(db, p)
    ensures DbSatisfies(Delete(db, ids), p)
  {
    WithoutSound(db.journal, ids);
    WithoutOrdered(db.journal, ids, db.nextJournalId);
    forall id | id in Delete(db, ids).jobs
      ensures p(db.jobs[id], EntriesOf(Delete(db, ids).journal, id))
    {
      EntriesOfWithout(db.journal, ids, id);
    }
  }

  /** Every row agrees with its journal. */
  ghost predicate DbOk(db: Db) {
    DbSatisfies(db, RowOk)
  }

  lemma {:induction false} NoEntries(journal: seq<JournalRecord>, id: Ulid)
    requires forall e :: e in journal ==> e.jobId != id
    ensures EntriesOf(journal, id) == []
  {
    if journal != [] {
      assert journal[|journal| - 1] in journal;
      NoEntries(journal[..|journal| - 1], id);
    }
  }

  // ------------------------------------------------------------- the snapshots

  /** The same claim: every column but the lease expiry agrees. */
  predicate SameClaim(row: JobRecord, snapshot: JobRecord) {
    row.(claimExpiresAt := snapshot.claimExpiresAt) == snapshot
  }

  /** A record once read from a claimed row: it is never ahead of the row, and as long as its epoch
      is live it still equals the row. */
  ghost predicate SnapshotOk(s: Sys, r: JobRecord) {
    && r.status.Claimed? && r.claimedBy.Some? && r.id in s.issued
    && (r.id in s.db.jobs ==> r.runCount <= s.db.jobs[r.id].runCount)
    && (ClaimedAt(s.db, r.id, r.runCount) ==> SameClaim(s.db.jobs[r.id], r))
  }

  /** Identity columns never change. */
  predicate SameJob(a: JobRecord, b: JobRecord) {
    a.id == b.id && a.kind == b.kind && a.dedupKey == b.dedupKey && a.createdAt == b.createdAt
  }

  ghost predicate ProducerOk(s: Sys, p: Producer) {
    match p
    case Probed(task, _, _, c) =>
      && c.id in s.issued && c.kind == task.kind && c.dedupKey == task.dedupKey
      && (c.id in s.db.jobs ==> SameJob(c, s.db.jobs[c.id]) && c.runCount <= s.db.jobs[c.id].runCount)
    case MustInsert(_, _, _) => true
    case Done(task, id) =>
      && id in s.issued
      && (id in s.db.jobs ==> s.db.jobs[id].kind == task.kind && s.db.jobs[id].dedupKey == task.dedupKey)
  }

  ghost predicate OneRunPerEpoch(runs: set<JobRecord>) {
    forall a, b :: a in runs && b in runs && a.id == b.id && a.runCount == b.runCount ==> a == b
  }

  ghost predicate Inv(s: Sys) {
    && DbOk(s.db)
    && s.db.jobs.Keys <= s.issued
    && (forall r {:trigger SnapshotOk(s, r)} :: r in s.runs ==> SnapshotOk(s, r))
    && (forall r {:trigger SnapshotOk(s, r)} :: r in s.stale ==> SnapshotOk(s, r))
    && (forall pid {:trigger ProducerOk(s, s.producers[pid])} :: pid in s.producers ==> ProducerOk(s, s.producers[pid]))
    && OneRunPerEpoch(s.runs)
  }

  // ------------------------------------------------ rows only ever move forward

  ghost predicate RowAdvances(j: JobRecord, k: JobRecord) {
    && SameJob(j, k)
    && j.runCount <= k.runCount
    && (k.status.Claimed? && k.runCount == j.runCount ==> j.status.Claimed? && SameClaim(k, j))
  }

  /** Rows with an id handed out before still exist and have moved forward, or are gone for good. */
  ghost predicate RowsAdvance(issued: set<Ulid>, before: Db, after: Db) {
    forall id :: id in issued && id in after.jobs ==>
      id in before.jobs && RowAdvances(before.jobs[id], after.jobs[id])
  }

  /** No id comes back after deletion, run counts never fall, and a row still claimed at an epoch
      has not been touched since, except for its lease. */
  ghost predicate Advances(s: Sys, t: Sys) {
    && s.issued <= t.issued && s.now <= t.now
    && t.db.jobs.Keys <= t.issued
    && RowsAdvance(s.issued, s.db, t.db)
  }

  lemma PutAdvances(issued: set<Ulid>, db: Db, j: JobRecord, after: Db)
    requires Keyed(db.jobs)
    requires j.id in db.jobs && RowAdvances(db.jobs[j.id], j)
    requires after.jobs == db.jobs[j.id := j]
    ensures RowsAdvance(issued, db, after)
    ensures after.jobs.Keys == db.jobs.Keys
  {
  }

  lemma StepAdvances(s: Sys, step: Step)
    requires Keyed(s.db.jobs) && s.db.jobs.Keys <= s.issued
    ensures Advances(s, Apply(s, step))
  {
    var t := Apply(s, step);
    match step
    case ClaimCall(_, _, lease, owner, id) =>
      if t != s {
        PutAdvances(s.issued, s.db, ClaimedRow(s.db.jobs[id], s.now, lease, owner), t.db);
      }
    case ExtendCall(run, lease) =>
      if run in s.runs && Owns(s.db, run.id, OwnerOf(run), run.runCount) {
        PutAdvances(s.issued, s.db, t.db.jobs[run.id], t.db);
      }
    case SettleCall(run, _, _, _, _) => ConclusionAdvances(s, step);
    case ReleaseCall(run, _) => ConclusionAdvances(s, step);
    case RecoverCall(snap, _, _) =>
      if snap in s.stale && Recoverable(s.db, s.now, snap.id, snap.runCount) {
        PutAdvances(s.issued, s.db, t.db.jobs[snap.id], t.db);
      }
    case MergeCall(pid, _, _) =>
      if t.db != s.db {
        PutAdvances(s.issued, s.db, t.db.jobs[s.producers[pid].candidate.id], t.db);
      }
    case _ =>
  }

  lemma ConclusionAdvances(s: Sys, step: Step)
    requires Keyed(s.db.jobs) && s.db.jobs.Keys <= s.issued
    requires step.SettleCall? || step.ReleaseCall?
    ensures Advances(s, Apply(s, step))
  {
    var run, t := step.run, Apply(s, step);
    if run in s.runs && Owns(s.db, run.id, OwnerOf(run), run.runCount) {
      PutAdvances(s.issued, s.db, SettledRow(s.db.jobs[run.id], StepSettlement(step)), t.db);
    }
  }

  lemma SnapshotStable(s: Sys, t: Sys, r: JobRecord)
    requires SnapshotOk(s, r) && Advances(s, t)
    ensures SnapshotOk(t, r)
  {
  }

  lemma ProducerStable(s: Sys, t: Sys, p: Producer)
    requires ProducerOk(s, p) && Advances(s, t)
    ensures ProducerOk(t, p)
  {
  }

  // ------------------------------------------------------ every step keeps Inv

  /** A settlement computed from a coherent snapshot closes the run and counts its failure once. */
  lemma SettlementCloses(j: JobRecord, step: Step)
    requires Columns(j) && 0 <= j.failureCount < I32_MAX && (step.SettleCall? || step.ReleaseCall?)
    requires j.status.Claimed? && SameClaim(j, step.run)
    ensures ClosesRun(j, SettledRow(j, StepSettlement(step)), StepEntry(step))
  {
  }

  lemma RecoveryCloses(j: JobRecord, step: Step)
    requires Columns(j) && 0 <= j.failureCount < I32_MAX && step.RecoverCall?
    requires j.status.Claimed? && SameClaim(j, step.snapshot)
    ensures ClosesRun(j, StepRecovery(step, j), StaleEntry(step.snapshot, step.at))
  {
  }

  lemma RowAt(db: Db, id: Ulid)
    requires DbOk(db) && id in db.jobs
    ensures db.jobs[id].id == id && Columns(db.jobs[id])
    ensures 0 <= db.jobs[id].failureCount
    ensures db.jobs[id].status.Claimed? ==> db.jobs[id].failureCount < I32_MAX
  {
    FailuresBounded(db.jobs[id], EntriesOf(db.journal, id));
  }

  lemma ClosingKeepsDbOk(db: Db, k: JobRecord, e: JournalAppend)
    requires DbOk(db) && k.id in db.jobs && ClosesRun(db.jobs[k.id], k, e)
    ensures DbOk(PutAndLog(db, k, e))
  {
    ClosingKeepsRowOk(db.jobs[k.id], EntriesOf(db.journal, k.id), k, e, db.nextJournalId);
    PutAndLogKeeps(db, k, e, RowOk);
  }

  lemma MergedRowOk(j: JobRecord, entries: seq<JournalRecord>, task: Task, d: Decision, e: JournalRecord)
    requires RowOk(j, entries) && e.outcome.Merged? && e.kind == j.kind && e.runNo <= j.runCount
    ensures RowOk(MergedRow(j, UpdateFor(task, d)), entries + [e])
  {
    MergeKeepsRowOk(j, entries, MergedRow(j, UpdateFor(task, d)), e);
  }

  lemma ClaimedRowOk(j: JobRecord, entries: seq<JournalRecord>, now: Timestamp, lease: Duration, owner: string)
    requires RowOk(j, entries) && j.status.Pending? && j.runCount < I32_MAX
    ensures RowOk(ClaimedRow(j, now, lease, owner), entries)
  {
  }

  lemma LeasedRowOk(j: JobRecord, entries: seq<JournalRecord>, expiry: Timestamp)
    requires RowOk(j, entries) && j.status.Claimed?
    ensures RowOk(j.(claimExpiresAt := Some(expiry)), entries)
  {
  }

  lemma ConclusionKeepsDbOk(s: Sys, step: Step)
    requires Inv(s) && (step.SettleCall? || step.ReleaseCall?)
    ensures DbOk(Apply(s, step).db)
  {
    var run := step.run;
    if run in s.runs && Owns(s.db, run.id, OwnerOf(run), run.runCount) {
      assert SnapshotOk(s, run);
      RowAt(s.db, run.id);
      SettlementCloses(s.db.jobs[run.id], step);
      ClosingKeepsDbOk(s.db, SettledRow(s.db.jobs[run.id], StepSettlement(step)), StepEntry(step));
    }
  }

  lemma RecoverKeepsDbOk(s: Sys, step: Step)
    requires Inv(s) && step.RecoverCall?
    ensures DbOk(Apply(s, step).db)
  {
    var snap := step.snapshot;
    if snap in s.stale && Recoverable(s.db, s.now, snap.id, snap.runCount) {
      assert SnapshotOk(s, snap);
      RowAt(s.db, snap.id);
      RecoveryCloses(s.db.jobs[snap.id], step);
      ClosingKeepsDbOk(s.db, StepRecovery(step, s.db.jobs[snap.id]), StaleEntry(snap, step.at));
    }
  }

  lemma MergeKeepsDbOk(s: Sys, step: Step)
    requires Inv(s) && step.MergeCall?
    ensures DbOk(Apply(s, step).db)
  {
    if Apply(s, step).db != s.db {
      var p := s.producers[step.pid];
      assert ProducerOk(s, p);
      var j, e := s.db.jobs[p.candidate.id], MergeEntry(p.candidate, step.at);
      MergedRowOk(j, EntriesOf(s.db.journal, j.id), p.task, step.decision,
                  Entry(s.db.nextJournalId, j.id, e));
      PutAndLogKeeps(s.db, MergedRow(j, UpdateFor(p.task, step.decision)), e, RowOk);
    }
  }

  lemma InsertKeepsDbOk(s: Sys, step: Step)
    requires Inv(s) && step.InsertCall?
    ensures DbOk(Apply(s, step).db)
  {
    if step.pid in s.producers && s.producers[step.pid].MustInsert? && step.id !in s.issued {
      NoEntries(s.db.journal, step.id);
      PutKeeps(s.db, NewRow(s.producers[step.pid], step.id), RowOk);
    }
  }

  lemma LeaseKeepsDbOk(s: Sys, step: Step)
    requires Inv(s) && (step.ClaimCall? || step.ExtendCall?)
    ensures DbOk(Apply(s, step).db)
  {
    if Apply(s, step).db != s.db {
      var j := s.db.jobs[if step.ClaimCall? then step.id else step.run.id];
      var entries := EntriesOf(s.db.journal, j.id);
      if step.ClaimCall? {
        ClaimedRowOk(j, entries, s.now, step.lease, step.owner);
        PutKeeps(s.db, ClaimedRow(j, s.now, step.lease, step.owner), RowOk);
      } else {
        LeasedRowOk(j, entries, AddDuration(s.now, step.lease));
        PutKeeps(s.db, j.(claimExpiresAt := Some(AddDuration(s.now, step.lease))), RowOk);
      }
    }
  }

  lemma StepKeepsDbOk(s: Sys, step: Step)
    requires Inv(s)
    ensures DbOk(Apply(s, step).db)
  {
    match step
    case Tick(_) =>
    case Probe(_, _, _, _, _) =>
    case FindStale(_) =>
    case MergeCall(_, _, _) => MergeKeepsDbOk(s, step);
    case InsertCall(_, _) => InsertKeepsDbOk(s, step);
    case ClaimCall(_, _, _, _, _) => LeaseKeepsDbOk(s, step);
    case ExtendCall(_, _) => LeaseKeepsDbOk(s, step);
    case SettleCall(_, _, _, _, _) => ConclusionKeepsDbOk(s, step);
    case ReleaseCall(_, _) => ConclusionKeepsDbOk(s, step);
    case RecoverCall(_, _, _) => RecoverKeepsDbOk(s, step);
    case CleanupCall(c) => DeleteKeeps(s.db, SweptIds(s.db, c), RowOk);
  }

  /** The claims and stale scans a step adds describe the state it leaves. */
  lemma StepAddsSoundSnapshots(s: Sys, step: Step, r: JobRecord)
    requires Inv(s)
    requires r in Apply(s, step).runs + Apply(s, step).stale - s.runs - s.stale
    ensures SnapshotOk(Apply(s, step), r)
  {
    if step.FindStale? {
      RowAt(s.db, r.id);
    }
  }

  lemma MergeAddsSoundProducer(s: Sys, step: Step)
    requires step.MergeCall? && step.pid in s.producers && ProducerOk(s, s.producers[step.pid])
    requires Keyed(s.db.jobs)
    ensures ProducerOk(Apply(s, step), Apply(s, step).producers[step.pid])
  {
  }

  /** The submits a step starts or moves along describe the state it leaves. */
  lemma StepAddsSoundProducer(s: Sys, step: Step, pid: nat)
    requires Keyed(s.db.jobs) && s.db.jobs.Keys <= s.issued
    requires pid in s.producers ==> ProducerOk(s, s.producers[pid])
    requires pid in Apply(s, step).producers
    requires pid !in s.producers || Apply(s, step).producers[pid] != s.producers[pid]
    ensures ProducerOk(Apply(s, step), Apply(s, step).producers[pid])
  {
    if step.MergeCall? {
      MergeAddsSoundProducer(s, step);
    }
  }

  lemma StepKeepsOneRunPerEpoch(s: Sys, step: Step)
    requires Inv(s)
    ensures OneRunPerEpoch(Apply(s, step).runs)
  {
    if step.ClaimCall? && Apply(s, step).runs != s.runs {
      assert forall r :: r in s.runs && r.id == step.id ==> SnapshotOk(s, r);
    }
  }

  lemma StepKeepsInv(s: Sys, step: Step)
    requires Inv(s)
    ensures Inv(Apply(s, step))
  {
    var t := Apply(s, step);
    StepAdvances(s, step);
    StepKeepsDbOk(s, step);
    StepKeepsOneRunPerEpoch(s, step);
    forall r | r in t.runs || r in t.stale
      ensures SnapshotOk(t, r)
    {
      if r in s.runs || r in s.stale {
        SnapshotStable(s, t, r);
      } else {
        StepAddsSoundSnapshots(s, step, r);
      }
    }
    forall pid | pid in t.producers
      ensures ProducerOk(t, t.producers[pid])
    {
      if pid in s.producers && t.producers[pid] == s.producers[pid] {
        ProducerStable(s, t, s.producers[pid]);
      } else {
        StepAddsSoundProducer(s, step, pid);
      }
    }
  }

  /** The invariant holds in every state of every run. */
  lemma {:induction false} RunKeepsInv(s: Sys, steps: seq<Step>)
    requires Inv(s)
    ensures Inv(Exec(s, steps))
  {
    if steps != [] {
      RunKeepsInv(s, steps[..|steps| - 1]);
      StepKeepsInv(Exec(s, steps[..|steps| - 1]), steps[|steps| - 1]);
    }
  }

  lemma Reachable(now: Timestamp, steps: seq<Step>)
    ensures Inv(Exec(Init(now), steps))
  {
    RunKeepsInv(Init(now), steps);
  }

  /** From a good state, a whole run moves rows forward, as one step does. */
  lemma {:induction false} RunAdvances(s: Sys, steps: seq<Step>)
    requires Inv(s)
    ensures Advances(s, Exec(s, steps))
  {
    if steps != [] {
      var front := steps[..|steps| - 1];
      RunAdvances(s, front);
      RunKeepsInv(s, front);
      StepAdvances(Exec(s, front), steps[|steps| - 1]);
    }
  }
}
