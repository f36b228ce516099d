/** What the protocol guarantees over whole runs: the journal, fencing, leases, the backstop and
    the carried state. */
module Lifecycle {
  import opened Records
  import opened Journal
  import opened StoreSteps
  import opened Routing
  import opened Protocol
  import opened Invariant

  // ------------------------------------------------------- the journal of a job

  /** Runs 1, 2, ..., m with no hole and no repeat, where m is the run count, less the run in flight;
      merges never ahead of the row; and a terminal row is one whose last execution says so. */
  ghost predicate CompleteHistory(row: JobRecord, entries: seq<JournalRecord>) {
    var runs := Executions(entries);
    && |runs| == (if row.status.Claimed? then row.runCount - 1 else row.runCount)
    && (forall i :: 0 <= i < |runs| ==> runs[i].runNo == i + 1)
    && (forall e :: e in entries ==> e.runNo <= row.runCount && e.kind == row.kind)
    && (forall i :: 0 <= i < |runs| && runs[i].outcome in {RunCompleted, RunDead} ==> i == |runs| - 1)
    && (row.status.Completed? <==> |runs| > 0 && runs[|runs| - 1].outcome.RunCompleted?)
    && (row.status.Dead? <==> |runs| > 0 && runs[|runs| - 1].outcome.RunDead?)
  }

  lemma RowHistory(row: JobRecord, entries: seq<JournalRecord>)
    requires RowOk(row, entries)
    ensures CompleteHistory(row, entries)
  {
  }

  /** In every reachable state of any interleaving, every job's journal is a hole-free log. */
  lemma HoleFreeJournal(now: Timestamp, steps: seq<Step>, id: Ulid)
    requires id in Exec(Init(now), steps).db.jobs
    ensures var db := Exec(Init(now), steps).db; CompleteHistory(db.jobs[id], EntriesOf(db.journal, id))
  {
    Reachable(now, steps);
    var db := Exec(Init(now), steps).db;
    RowHistory(db.jobs[id], EntriesOf(db.journal, id));
  }

  /** Although every writer stores an absolute count computed from its own old snapshot, no failure
      is lost or counted twice, and no counter can leave the 32-bit range. */
  lemma NoLostFailure(now: Timestamp, steps: seq<Step>, id: Ulid)
    requires id in Exec(Init(now), steps).db.jobs
    ensures var db := Exec(Init(now), steps).db;
      var row := db.jobs[id];
      && row.failureCount == CountIn(EntriesOf(db.journal, id), FAILURES)
      && 0 <= row.failureCount <= row.runCount <= I32_MAX
      && (row.status.Claimed? ==> SaturatingIncrement(row.failureCount) == row.failureCount + 1)
  {
    Reachable(now, steps);
    var db := Exec(Init(now), steps).db;
    FailuresBounded(db.jobs[id], EntriesOf(db.journal, id));
  }

  /** The entries of one job come back ordered by entry id, which is how the store sorts them. */
  lemma {:induction false} JournalInOrder(journal: seq<JournalRecord>, next: int, id: Ulid)
    requires Ordered(journal, next)
    ensures Ordered(EntriesOf(journal, id), next)
  {
    if journal != [] {
      var front, last := journal[..|journal| - 1], journal[|journal| - 1];
      assert Ordered(front, last.entryId);
      JournalInOrder(front, last.entryId, id);
    }
  }

  // -------------------------------------------------------- what one step logs

  /** The step concludes epoch `runNo` of job `id`: a settlement, a release or a recovery whose guard
      holds. */
  predicate Concludes(s: Sys, step: Step, id: Ulid, runNo: nat) {
    match step
    case SettleCall(run, _, _, _, _) =>
      run in s.runs && run.id == id && run.runCount == runNo && Owns(s.db, id, OwnerOf(run), runNo)
    case ReleaseCall(run, _) =>
      run in s.runs && run.id == id && run.runCount == runNo && Owns(s.db, id, OwnerOf(run), runNo)
    case RecoverCall(snap, _, _) =>
      snap in s.stale && snap.id == id && snap.runCount == runNo && Recoverable(s.db, s.now, id, runNo)
    case _ => false
  }

  /** The step merges a submit into job `id`. */
  predicate MergesInto(s: Sys, step: Step, id: Ulid) {
    && step.MergeCall? && step.pid in s.producers && s.producers[step.pid].Probed?
    && !step.decision.Independent? && s.producers[step.pid].candidate.id == id
    && id in s.db.jobs && s.db.jobs[id].status.Pending?
  }

  /** The run a step would conclude. */
  function RunNoOf(step: Step): nat {
    match step
    case SettleCall(run, _, _, _, _) => run.runCount
    case ReleaseCall(run, _) => run.runCount
    case RecoverCall(snap, _, _) => snap.runCount
    case _ => 0
  }

  predicate Logs(s: Sys, step: Step, id: Ulid) {
    Concludes(s, step, id, RunNoOf(step)) || MergesInto(s, step, id)
  }

  function EntryOf(s: Sys, step: Step): JournalAppend
    requires step.MergeCall? ==> step.pid in s.producers && s.producers[step.pid].Probed?
    requires step.MergeCall? || step.SettleCall? || step.ReleaseCall? || step.RecoverCall?
  {
    match step
    case MergeCall(pid, _, at) => MergeEntry(s.producers[pid].candidate, at)
    case RecoverCall(snap, at, _) => StaleEntry(snap, at)
    case _ => StepEntry(step)
  }

  lemma LogHistory(db: Db, k: JobRecord, e: JournalAppend, id: Ulid)
    ensures EntriesOf(PutAndLog(db, k, e).journal, id)
         == if k.id == id then EntriesOf(db.journal, id) + [Entry(db.nextJournalId, id, e)]
            else EntriesOf(db.journal, id)
  {
    EntriesOfAppend(db.journal, Entry(db.nextJournalId, k.id, e), id);
  }

  /** What one step does to the history of job `id`. */
  ghost predicate HistoryGrows(s: Sys, step: Step, id: Ulid) {
    var before, after := EntriesOf(s.db.journal, id), EntriesOf(Apply(s, step).db.journal, id);
    if Logs(s, step, id) then after == before + [Entry(s.db.nextJournalId, id, EntryOf(s, step))]
    else id in Apply(s, step).db.jobs ==> after == before
  }

  /** A settlement or release either concludes its run or changes nothing. */
  lemma ConclusionWrites(s: Sys, step: Step)
    requires Keyed(s.db.jobs) && (step.SettleCall? || step.ReleaseCall?)
    ensures Apply(s, step).db
         == if Concludes(s, step, step.run.id, step.run.runCount)
            then PutAndLog(s.db, SettledRow(s.db.jobs[step.run.id], StepSettlement(step)), StepEntry(step))
            else s.db
    ensures Concludes(s, step, step.run.id, step.run.runCount) ==> s.db.jobs[step.run.id].id == step.run.id
  {
  }

  lemma ConclusionHistory(s: Sys, step: Step, id: Ulid)
    requires Keyed(s.db.jobs) && (step.SettleCall? || step.ReleaseCall?)
    ensures HistoryGrows(s, step, id)
  {
    ConclusionWrites(s, step);
    if Concludes(s, step, step.run.id, step.run.runCount) {
      LogHistory(s.db, SettledRow(s.db.jobs[step.run.id], StepSettlement(step)), StepEntry(step), id);
    }
  }

  lemma RecoveryHistory(s: Sys, step: Step, id: Ulid)
    requires Keyed(s.db.jobs) && step.RecoverCall?
    ensures HistoryGrows(s, step, id)
  {
    var snap := step.snapshot;
    if snap in s.stale && Recoverable(s.db, s.now, snap.id, snap.runCount) {
      LogHistory(s.db, StepRecovery(step, s.db.jobs[snap.id]), StaleEntry(snap, step.at), id);
    }
  }

  lemma MergeHistory(s: Sys, step: Step, id: Ulid)
    requires Keyed(s.db.jobs) && step.MergeCall?
    ensures HistoryGrows(s, step, id)
  {
    if step.pid in s.producers && s.producers[step.pid].Probed? {
      var p := s.producers[step.pid];
      if MergesInto(s, step, p.candidate.id) {
        LogHistory(s.db, MergedRow(s.db.jobs[p.candidate.id], UpdateFor(p.task, step.decision)),
                   MergeEntry(p.candidate, step.at), id);
      }
    }
  }

  /** A step appends to a job's history exactly when it concludes a run of it or merges into it, and
      then one entry; a surviving job's history never changes otherwise. */
  lemma StepHistory(s: Sys, step: Step, id: Ulid)
    requires Keyed(s.db.jobs)
    ensures HistoryGrows(s, step, id)
  {
    match step
    case SettleCall(_, _, _, _, _) => ConclusionHistory(s, step, id);
    case ReleaseCall(_, _) => ConclusionHistory(s, step, id);
    case RecoverCall(_, _, _) => RecoveryHistory(s, step, id);
    case MergeCall(_, _, _) => MergeHistory(s, step, id);
    case CleanupCall(c) =>
      if id in Apply(s, step).db.jobs {
        EntriesOfWithout(s.db.journal, SweptIds(s.db, c), id);
      }
    case _ =>
  }

  // -------------------------------------------------------------------- fencing

  /** Epoch `runNo` of job `id` is behind us: the row is gone, past it, or no longer claimed. */
  predicate EpochOver(s: Sys, id: Ulid, runNo: nat) {
    && id in s.issued
    && (id in s.db.jobs ==>
          s.db.jobs[id].runCount > runNo || (s.db.jobs[id].runCount == runNo && !s.db.jobs[id].status.Claimed?))
  }

  lemma EpochStaysOver(s: Sys, t: Sys, id: Ulid, runNo: nat)
    requires Advances(s, t) && EpochOver(s, id, runNo)
    ensures EpochOver(t, id, runNo)
  {
  }

  lemma ConclusionEndsEpoch(s: Sys, step: Step, id: Ulid, runNo: nat)
    requires Inv(s) && Concludes(s, step, id, runNo)
    ensures EpochOver(Apply(s, step), id, runNo)
    ensures ClaimedAt(s.db, id, runNo)
  {
    RowAt(s.db, id);
  }

  lemma EpochOverFromConclusion(now: Timestamp, steps: seq<Step>, i: nat, j: nat, id: Ulid, runNo: nat)
    requires i < j <= |steps|
    requires Concludes(At(Init(now), steps, i), steps[i], id, runNo)
    ensures EpochOver(At(Init(now), steps, j), id, runNo)
  {
    Reachable(now, steps[..i]);
    Reachable(now, steps[..i + 1]);
    AtNext(Init(now), steps, i);
    ConclusionEndsEpoch(At(Init(now), steps, i), steps[i], id, runNo);
    AtLater(Init(now), steps, i + 1, j);
    RunAdvances(At(Init(now), steps, i + 1), steps[i + 1..j]);
    EpochStaysOver(At(Init(now), steps, i + 1), At(Init(now), steps, j), id, runNo);
  }

  /** Over a whole run each (job, run number) is concluded at most once, by whichever of settlement,
      release and recovery comes first, even after the row has been cleaned up. */
  lemma ConcludedAtMostOnce(now: Timestamp, steps: seq<Step>, i: nat, j: nat, id: Ulid, runNo: nat)
    requires i < |steps| && j < |steps|
    requires Concludes(At(Init(now), steps, i), steps[i], id, runNo)
    requires Concludes(At(Init(now), steps, j), steps[j], id, runNo)
    ensures i == j
  {
    if i < j {
      EpochOverFromConclusion(now, steps, i, j, id, runNo);
    } else if j < i {
      EpochOverFromConclusion(now, steps, j, i, id, runNo);
    }
  }

  /** A call made at a superseded epoch reports that it did not apply and changes neither rows nor
      journal, whatever identity strings the workers share and whatever it was asked to write. */
  lemma SupersededCallsAreNoOps(s: Sys, r: JobRecord, step: Step)
    requires EpochOver(s, r.id, r.runCount)
    ensures forall owner, settlement, e ::
      Settle(s.db, r.id, owner, r.runCount, settlement, e) == (s.db, false)
    ensures forall owner, lease ::
      ExtendLease(s.db, s.now, r.id, owner, r.runCount, lease) == (s.db, false)
    ensures forall at, failures, e ::
      Recover(s.db, s.now, r.id, at, failures, r.runCount, e) == (s.db, false)
    ensures
      || (step.SettleCall? && step.run == r)
      || (step.ReleaseCall? && step.run == r)
      || (step.ExtendCall? && step.run == r)
      || (step.RecoverCall? && step.snapshot == r)
      ==> Apply(s, step) == s
  {
  }

  /** In reachable states the epoch alone decides ownership: a run may write exactly when its epoch
      is live, and only one run ever holds a given epoch. */
  lemma EpochDecidesOwnership(now: Timestamp, steps: seq<Step>, r: JobRecord)
    requires r in Exec(Init(now), steps).runs
    ensures var s := Exec(Init(now), steps);
      && (Owns(s.db, r.id, OwnerOf(r), r.runCount) <==> ClaimedAt(s.db, r.id, r.runCount))
      && (ClaimedAt(s.db, r.id, r.runCount) <==> !EpochOver(s, r.id, r.runCount))
      && (forall q :: q in s.runs && q.id == r.id && q.runCount == r.runCount ==> q == r)
      && 1 <= r.runCount <= I32_MAX
  {
    Reachable(now, steps);
    ClaimsAreNumbered(now, steps, r);
    assert SnapshotOk(Exec(Init(now), steps), r);
  }

  /** Claimed records carry run numbers that fit the database's signed column. */
  lemma {:induction false} ClaimsAreNumbered(now: Timestamp, steps: seq<Step>, r: JobRecord)
    requires r in Exec(Init(now), steps).runs
    ensures 1 <= r.runCount <= I32_MAX
  {
    if steps != [] && r in Exec(Init(now), steps[..|steps| - 1]).runs {
      ClaimsAreNumbered(now, steps[..|steps| - 1], r);
    }
  }

  /** While its epoch is live, what a run was handed is still what the row holds. */
  lemma SnapshotCoherence(now: Timestamp, steps: seq<Step>, r: JobRecord)
    requires r in Exec(Init(now), steps).runs + Exec(Init(now), steps).stale
    requires ClaimedAt(Exec(Init(now), steps).db, r.id, r.runCount)
    ensures var row := Exec(Init(now), steps).db.jobs[r.id];
      && row.payload == r.payload && row.carry == r.carry && row.priority == r.priority
      && row.failureCount == r.failureCount && row.claimedBy == r.claimedBy && row.kind == r.kind
  {
    Reachable(now, steps);
    assert SnapshotOk(Exec(Init(now), steps), r);
  }

  /** An attempted settlement or release leaves its epoch over, whether its own guard held or
      someone else had concluded the run first. */
  lemma AttemptConcludes(s: Sys, step: Step)
    requires Inv(s) && (step.SettleCall? || step.ReleaseCall?) && step.run in s.runs
    ensures EpochOver(Apply(s, step), step.run.id, step.run.runCount)
  {
    assert SnapshotOk(s, step.run);
    if ClaimedAt(s.db, step.run.id, step.run.runCount) {
      ConclusionEndsEpoch(s, step, step.run.id, step.run.runCount);
    }
  }

  /** Only a conclusion ends an epoch. */
  lemma OnlyConclusionsEndEpochs(s: Sys, step: Step, id: Ulid, runNo: nat)
    requires Inv(s) && ClaimedAt(s.db, id, runNo) && !Concludes(s, step, id, runNo)
    ensures ClaimedAt(Apply(s, step).db, id, runNo)
  {
    RowAt(s.db, id);
    if step.SettleCall? || step.ReleaseCall? {
      OtherConclusion(s, step, id, runNo);
    }
  }

  lemma OtherConclusion(s: Sys, step: Step, id: Ulid, runNo: nat)
    requires Keyed(s.db.jobs) && ClaimedAt(s.db, id, runNo) && !Concludes(s, step, id, runNo)
    requires step.SettleCall? || step.ReleaseCall?
    ensures ClaimedAt(Apply(s, step).db, id, runNo)
  {
  }

  /** The one step of a run that concluded a claim: a settlement or release of that very claim, or the
      recovery of its expired lease. */
  ghost predicate ConcludedBy(now: Timestamp, steps: seq<Step>, r: JobRecord, i: nat) {
    && i < |steps|
    && Concludes(At(Init(now), steps, i), steps[i], r.id, r.runCount)
    && (steps[i].RecoverCall? || ((steps[i].SettleCall? || steps[i].ReleaseCall?) && steps[i].run == r))
  }

  lemma ConcludesOwnClaim(now: Timestamp, steps: seq<Step>, i: nat, r: JobRecord)
    requires i < |steps| && r in At(Init(now), steps, i).runs
    requires Concludes(At(Init(now), steps, i), steps[i], r.id, r.runCount)
    ensures ConcludedBy(now, steps, r, i)
  {
    Reachable(now, steps[..i]);
  }

  /** A claim that is over was concluded by exactly one step of the run. */
  lemma {:induction false} OverMeansConcluded(now: Timestamp, steps: seq<Step>, r: JobRecord) returns (i: nat)
    requires r in Exec(Init(now), steps).runs
    requires EpochOver(Exec(Init(now), steps), r.id, r.runCount)
    ensures ConcludedBy(now, steps, r, i)
    ensures forall j :: ConcludedBy(now, steps, r, j) ==> j == i
  {
    var n := |steps| - 1;
    var front, before := steps[..n], Exec(Init(now), steps[..n]);
    Reachable(now, front);
    ClaimsStartLive(before, steps[n], r);
    assert SnapshotOk(before, r);
    if EpochOver(before, r.id, r.runCount) {
      i := OverMeansConcluded(now, front, r);
      AtPrefix(Init(now), steps, n, i);
    } else {
      i := n;
      if !Concludes(before, steps[n], r.id, r.runCount) {
        OnlyConclusionsEndEpochs(before, steps[n], r.id, r.runCount);
      }
      ConcludesOwnClaim(now, steps, n, r);
    }
    forall j | ConcludedBy(now, steps, r, j)
      ensures j == i
    {
      ConcludedAtMostOnce(now, steps, i, j, r.id, r.runCount);
    }
  }

  lemma ClaimsStartLive(s: Sys, step: Step, r: JobRecord)
    requires r in Apply(s, step).runs && EpochOver(Apply(s, step), r.id, r.runCount)
    ensures r in s.runs
  {
  }

  /** An attempted recovery leaves its epoch over, unless the lease has been renewed since the scan. */
  lemma RecoveryHeals(s: Sys, step: Step)
    requires Inv(s) && step.RecoverCall? && step.snapshot in s.stale
    ensures var t := Apply(s, step);
      var id, runNo := step.snapshot.id, step.snapshot.runCount;
      EpochOver(t, id, runNo) <==> (ClaimedAt(s.db, id, runNo) ==> Stale(s.db.jobs[id], s.now))
  {
    assert SnapshotOk(s, step.snapshot);
    if Concludes(s, step, step.snapshot.id, step.snapshot.runCount) {
      ConclusionEndsEpoch(s, step, step.snapshot.id, step.snapshot.runCount);
    }
  }

  // --------------------------------------------------------------------- leases

  /** The claim is live and its current lease has not passed. */
  predicate Held(s: Sys, id: Ulid, runNo: nat) {
    ClaimedAt(s.db, id, runNo) && !Stale(s.db.jobs[id], s.now)
  }

  /** A settlement or release by the run that holds the epoch. */
  predicate OwnConclusion(step: Step, id: Ulid, runNo: nat) {
    (step.SettleCall? || step.ReleaseCall?) && step.run.id == id && step.run.runCount == runNo
  }

  lemma HeldClaimSurvives(s: Sys, step: Step, id: Ulid, runNo: nat)
    requires Inv(s) && Held(s, id, runNo) && !OwnConclusion(step, id, runNo)
    ensures var t := Apply(s, step);
      && ClaimedAt(t.db, id, runNo) && SameClaim(t.db.jobs[id], s.db.jobs[id])
      && (forall r :: r in t.runs && r.id == id ==> r in s.runs)
  {
    RowAt(s.db, id);
    if step.SettleCall? || step.ReleaseCall? {
      OtherConclusionLeavesClaim(s, step, id, runNo);
    } else if step.MergeCall? {
      assert Apply(s, step).runs == s.runs;
    }
  }

  lemma OtherConclusionLeavesClaim(s: Sys, step: Step, id: Ulid, runNo: nat)
    requires Inv(s) && ClaimedAt(s.db, id, runNo) && !OwnConclusion(step, id, runNo)
    requires step.SettleCall? || step.ReleaseCall?
    ensures id in Apply(s, step).db.jobs && Apply(s, step).db.jobs[id] == s.db.jobs[id]
    ensures Apply(s, step).runs == s.runs
  {
  }

  /** The run itself does not conclude, and the clock does not pass the lease the row has, if the
      claim is still there to have one. */
  ghost predicate LeftAlone(s: Sys, steps: seq<Step>, id: Ulid, runNo: nat) {
    forall i :: 0 <= i < |steps| ==>
      && !OwnConclusion(steps[i], id, runNo)
      && (ClaimedAt(At(s, steps, i).db, id, runNo) ==> !Stale(At(s, steps, i).db.jobs[id], At(s, steps, i).now))
  }

  lemma LeftAlonePrefix(s: Sys, steps: seq<Step>, id: Ulid, runNo: nat, n: nat)
    requires LeftAlone(s, steps, id, runNo) && n <= |steps|
    ensures LeftAlone(s, steps[..n], id, runNo)
  {
    forall i | 0 <= i < n
      ensures At(s, steps[..n], i) == At(s, steps, i) && steps[..n][i] == steps[i]
    {
      AtPrefix(s, steps, n, i);
    }
  }

  /** What survives of a claim: the epoch, every column but the lease, and its being the last run. */
  ghost predicate Survives(s: Sys, t: Sys, id: Ulid, runNo: nat)
    requires ClaimedAt(s.db, id, runNo)
  {
    && ClaimedAt(t.db, id, runNo) && SameClaim(t.db.jobs[id], s.db.jobs[id])
    && (forall r :: r in t.runs && r.id == id ==> r in s.runs)
  }

  lemma {:induction false} HeldClaimOutlastsRun(s: Sys, steps: seq<Step>, id: Ulid, runNo: nat)
    requires Inv(s) && ClaimedAt(s.db, id, runNo) && LeftAlone(s, steps, id, runNo)
    ensures Survives(s, Exec(s, steps), id, runNo)
  {
    if steps != [] {
      var front := steps[..|steps| - 1];
      LeftAlonePrefix(s, steps, id, runNo, |front|);
      HeldClaimOutlastsRun(s, front, id, runNo);
      RunKeepsInv(s, front);
      assert Held(At(s, steps, |front|), id, runNo);
      HeldClaimSurvives(Exec(s, front), steps[|front|], id, runNo);
    }
  }

  /** The run's own settlement finds its claim and applies. */
  ghost predicate Applies(t: Sys, settle: Step, id: Ulid, runNo: nat)
    requires settle.SettleCall? && ClaimedAt(t.db, id, runNo)
  {
    && Concludes(t, settle, id, runNo)
    && Apply(t, settle).db == PutAndLog(t.db, SettledRow(t.db.jobs[id], StepSettlement(settle)), StepEntry(settle))
  }

  lemma SurvivorSettles(s: Sys, steps: seq<Step>, id: Ulid, runNo: nat, settle: Step)
    requires Inv(s) && settle.SettleCall? && settle.run in s.runs && OwnConclusion(settle, id, runNo)
    requires ClaimedAt(Exec(s, steps).db, id, runNo)
    ensures Applies(Exec(s, steps), settle, id, runNo)
  {
    RunKeepsInv(s, steps);
    RunKeepsRuns(s, steps);
    assert SnapshotOk(Exec(s, steps), settle.run);
    ConclusionWrites(Exec(s, steps), settle);
  }

  /** Until the row's current lease expires, nothing but the run's own settlement can end a claim or
      start another run of the job, whatever everyone else does; so the run's settlement, issued by
      then, applies. */
  lemma LeaseExclusivity(s: Sys, steps: seq<Step>, id: Ulid, runNo: nat, settle: Step)
    requires Inv(s) && ClaimedAt(s.db, id, runNo) && LeftAlone(s, steps, id, runNo)
    requires settle.SettleCall? && settle.run in s.runs && OwnConclusion(settle, id, runNo)
    ensures Survives(s, Exec(s, steps), id, runNo) && Applies(Exec(s, steps), settle, id, runNo)
  {
    HeldClaimOutlastsRun(s, steps, id, runNo);
    SurvivorSettles(s, steps, id, runNo, settle);
  }

  /** A renewal by the run that would let its lease end before `until`. */
  predicate CutsLease(s: Sys, step: Step, id: Ulid, runNo: nat, until: Timestamp) {
    && step.ExtendCall? && step.run.id == id && step.run.runCount == runNo
    && AddDuration(s.now, step.lease) < until
  }

  /** The claim is leased at least until then. */
  predicate LeasedUntil(s: Sys, id: Ulid, runNo: nat, until: Timestamp) {
    && ClaimedAt(s.db, id, runNo)
    && s.db.jobs[id].claimExpiresAt.Some? && until <= s.db.jobs[id].claimExpiresAt.value
  }

  lemma LeaseKept(s: Sys, step: Step, id: Ulid, runNo: nat, until: Timestamp)
    requires Inv(s) && LeasedUntil(s, id, runNo, until) && s.now <= until
    requires !OwnConclusion(step, id, runNo) && !CutsLease(s, step, id, runNo, until)
    ensures LeasedUntil(Apply(s, step), id, runNo, until)
  {
    HeldClaimSurvives(s, step, id, runNo);
    RowAt(s.db, id);
    if step.SettleCall? || step.ReleaseCall? {
      OtherConclusionLeavesClaim(s, step, id, runNo);
    }
  }

  /** The same from what the run can see at the start: it is leased until some instant, neither
      concludes nor shortens its lease below that, and the clock has not passed it when the last of
      the others' steps is taken. */
  lemma {:induction false} LeaseHoldsUntil(s: Sys, steps: seq<Step>, id: Ulid, runNo: nat, until: Timestamp)
    requires Inv(s) && LeasedUntil(s, id, runNo, until)
    requires steps != [] ==> At(s, steps, |steps| - 1).now <= until
    requires forall i :: 0 <= i < |steps| ==>
      !OwnConclusion(steps[i], id, runNo) && !CutsLease(At(s, steps, i), steps[i], id, runNo, until)
    ensures LeasedUntil(Exec(s, steps), id, runNo, until) && Survives(s, Exec(s, steps), id, runNo)
  {
    if steps != [] {
      var front, n := steps[..|steps| - 1], |steps| - 1;
      var before := Exec(s, front);
      forall i | 0 <= i <= n
        ensures At(s, front, i) == At(s, steps, i)
      {
        AtPrefix(s, steps, n, i);
      }
      RunKeepsInv(s, front);
      if front != [] {
        RunKeepsInv(s, front[..n - 1]);
        AtNext(s, steps, n - 1);
        StepAdvances(At(s, steps, n - 1), steps[n - 1]);
      }
      LeaseHoldsUntil(s, front, id, runNo, until);
      LeaseKept(before, steps[n], id, runNo, until);
      HeldClaimSurvives(before, steps[n], id, runNo);
    }
  }

  /** So a settlement issued no later than an expiry the run knows of always applies. */
  lemma SettleByExpiryApplies(
    s: Sys, steps: seq<Step>, id: Ulid, runNo: nat, until: Timestamp, settle: Step)
    requires Inv(s) && LeasedUntil(s, id, runNo, until) && Exec(s, steps).now <= until
    requires forall i :: 0 <= i < |steps| ==>
      !OwnConclusion(steps[i], id, runNo) && !CutsLease(At(s, steps, i), steps[i], id, runNo, until)
    requires settle.SettleCall? && settle.run in s.runs && OwnConclusion(settle, id, runNo)
    ensures LeasedUntil(Exec(s, steps), id, runNo, until) && Applies(Exec(s, steps), settle, id, runNo)
  {
    if steps != [] {
      RunKeepsInv(s, steps[..|steps| - 1]);
      StepAdvances(Exec(s, steps[..|steps| - 1]), steps[|steps| - 1]);
    }
    LeaseHoldsUntil(s, steps, id, runNo, until);
    SurvivorSettles(s, steps, id, runNo, settle);
  }

  lemma {:induction false} RunKeepsRuns(s: Sys, steps: seq<Step>)
    ensures s.runs <= Exec(s, steps).runs
  {
    if steps != [] {
      RunKeepsRuns(s, steps[..|steps| - 1]);
    }
  }

  // ------------------------------------------------------------------- backstop

  /** A settling worker has a backstop of at most `n`. */
  predicate Backstopped(step: Step, n: nat) {
    step.SettleCall? ==> step.backstop.Some? && step.backstop.value <= n
  }

  function RetryLimit(n: nat): nat {
    if n == 0 then 0 else n - 1
  }

  lemma RetriesBoundedAppend(before: seq<JournalRecord>, e: JournalRecord, limit: nat)
    requires CountIn(before, {RunRetried}) <= limit
    requires e.outcome.RunRetried? ==> CountIn(before, {RunRetried}) < limit
    ensures CountIn(before + [e], {RunRetried}) <= limit
  {
    CountInAppend(before, e, {RunRetried});
  }

  lemma LoggedRetriesBounded(s: Sys, step: Step, id: Ulid, n: nat)
    requires Inv(s) && Backstopped(step, n) && Logs(s, step, id)
    requires CountIn(EntriesOf(s.db.journal, id), {RunRetried}) <= RetryLimit(n)
    ensures CountIn(EntriesOf(s.db.journal, id) + [Entry(s.db.nextJournalId, id, EntryOf(s, step))], {RunRetried})
         <= RetryLimit(n)
  {
    if step.SettleCall? {
      RetriedEntryBelowBackstop(s, step, id, n);
      CountInMonotone(EntriesOf(s.db.journal, id), {RunRetried}, FAILURES);
    }
    RetriesBoundedAppend(
      EntriesOf(s.db.journal, id), Entry(s.db.nextJournalId, id, EntryOf(s, step)), RetryLimit(n));
  }

  lemma RetriesBoundedStep(s: Sys, step: Step, id: Ulid, n: nat)
    requires Inv(s) && Backstopped(step, n)
    requires id in Apply(s, step).db.jobs
    requires id in s.db.jobs ==> CountIn(EntriesOf(s.db.journal, id), {RunRetried}) <= RetryLimit(n)
    ensures CountIn(EntriesOf(Apply(s, step).db.journal, id), {RunRetried}) <= RetryLimit(n)
  {
    StepHistory(s, step, id);
    if Logs(s, step, id) {
      LoggedRetriesBounded(s, step, id, n);
    } else if id !in s.db.jobs {
      NoEntries(s.db.journal, id);
    }
  }

  /** A retry is written only while the new failure total is below the backstop. */
  lemma RetriedEntryBelowBackstop(s: Sys, step: Step, id: Ulid, n: nat)
    requires Inv(s) && step.SettleCall? && Concludes(s, step, id, step.run.runCount)
    requires step.backstop.Some? && step.backstop.value <= n
    ensures EntryOf(s, step).outcome.RunRetried? ==> CountIn(EntriesOf(s.db.journal, id), FAILURES) + 1 < n
  {
    assert SnapshotOk(s, step.run);
    FailuresBounded(s.db.jobs[id], EntriesOf(s.db.journal, id));
  }

  /** When every worker's backstop is at most `n`, no job ever gets more than n-1 `Retried` entries,
      however pauses, releases, merges and recoveries interleave. */
  lemma {:induction false} BackstopOverWholeRuns(now: Timestamp, steps: seq<Step>, id: Ulid, n: nat)
    requires forall i :: 0 <= i < |steps| ==> Backstopped(steps[i], n)
    requires id in Exec(Init(now), steps).db.jobs
    ensures CountIn(EntriesOf(Exec(Init(now), steps).db.journal, id), {RunRetried}) <= RetryLimit(n)
  {
    if steps != [] {
      var front, last := steps[..|steps| - 1], steps[|steps| - 1];
      Reachable(now, front);
      if id in Exec(Init(now), front).db.jobs {
        BackstopOverWholeRuns(now, front, id, n);
      }
      RetriesBoundedStep(Exec(Init(now), front), last, id, n);
    }
  }

  /** A retryable failure leaves the job dead exactly when its logged failures have reached the
      worker's backstop. */
  lemma DeadOnlyAtBackstop(s: Sys, step: Step, id: Ulid)
    requires Inv(s) && step.SettleCall? && Concludes(s, step, id, step.run.runCount)
    requires step.report.Ok? && step.report.value.result.Failed? && !step.report.value.result.permanent
    ensures var t := Apply(s, step);
      var failures := CountIn(EntriesOf(t.db.journal, id), FAILURES);
      && t.db.jobs[id].failureCount == failures
      && (t.db.jobs[id].status.Dead? <==> step.backstop.Some? && failures >= step.backstop.value)
      && (t.db.jobs[id].status.Pending? <==> !t.db.jobs[id].status.Dead?)
  {
    assert SnapshotOk(s, step.run);
    RowAt(s.db, id);
    RetryableDiesOnlyAtBackstop(
      step.backstop, step.report.value, step.at, step.run.failureCount, step.delay);
    StepKeepsInv(s, step);
    FailuresAt(Apply(s, step).db, id);
  }

  lemma FailuresAt(db: Db, id: Ulid)
    requires DbOk(db) && id in db.jobs
    ensures db.jobs[id].failureCount == CountIn(EntriesOf(db.journal, id), FAILURES)
  {
  }

  // ---------------------------------------------------------------------- carry

  /** The step stores a carry for job `id`: a live-epoch pause or retry, or a merge that updates. */
  predicate WritesCarry(s: Sys, step: Step, id: Ulid) {
    || (&& step.SettleCall? && Concludes(s, step, id, step.run.runCount)
        && (StepSettlement(step).Pause? || StepSettlement(step).Retry?))
    || (MergesInto(s, step, id) && UpdateFor(s.producers[step.pid].task, step.decision).Some?)
  }

  lemma CarryKeptByStep(s: Sys, step: Step, id: Ulid)
    requires Keyed(s.db.jobs) && s.db.jobs.Keys <= s.issued
    requires id in s.db.jobs && id in Apply(s, step).db.jobs && !WritesCarry(s, step, id)
    ensures Apply(s, step).db.jobs[id].carry == s.db.jobs[id].carry
  {
  }

  /** A row's carry changes only at pauses, retries and updating merges. */
  lemma {:induction false} CarryKept(s: Sys, steps: seq<Step>, id: Ulid)
    requires Inv(s) && id in s.db.jobs && id in Exec(s, steps).db.jobs
    requires forall i :: 0 <= i < |steps| ==> !WritesCarry(At(s, steps, i), steps[i], id)
    ensures Exec(s, steps).db.jobs[id].carry == s.db.jobs[id].carry
  {
    if steps != [] {
      var front := steps[..|steps| - 1];
      forall i | 0 <= i < |front|
        ensures !WritesCarry(At(s, front, i), front[i], id)
      {
        AtPrefix(s, steps, |front|, i);
      }
      RunKeepsInv(s, front);
      RunAdvances(s, front);
      StepAdvances(Exec(s, front), steps[|front|]);
      CarryKept(s, front, id);
      AtPrefix(s, steps, |front|, 0);
      CarryKeptByStep(Exec(s, front), steps[|front|], id);
    }
  }

  /** A run that ended without a say: recovered, released, or a panic under the retry policy. */
  ghost predicate EndsWithoutCarry(step: Step, run: JobRecord) {
    || (step.RecoverCall? && step.snapshot.id == run.id)
    || (step.ReleaseCall? && step.run == run)
    || (step.SettleCall? && step.run == run && step.report.Ok?
        && exists message :: step.report == ErasedRun(run.carry, Panicked(message), RetryPanics))
  }

  /** After such an end the job resumes from exactly the carry its run was claimed with, until a
      later pause, retry or merge writes another. */
  lemma ResumesFromClaimedCarry(s: Sys, run: JobRecord, end: Step, rest: seq<Step>)
    requires Inv(s) && run in s.runs && ClaimedAt(s.db, run.id, run.runCount)
    requires EndsWithoutCarry(end, run)
    requires run.id in Exec(Apply(s, end), rest).db.jobs
    requires forall i :: 0 <= i < |rest| ==> !WritesCarry(At(Apply(s, end), rest, i), rest[i], run.id)
    ensures Exec(Apply(s, end), rest).db.jobs[run.id].carry == run.carry
  {
    var t := Apply(s, end);
    StepKeepsInv(s, end);
    RunAdvances(t, rest);
    StepAdvances(s, end);
    assert SnapshotOk(s, run);
    EndKeepsCarry(s, run, end);
    CarryKept(t, rest, run.id);
  }

  lemma EndKeepsCarry(s: Sys, run: JobRecord, end: Step)
    requires Inv(s) && run in s.runs && ClaimedAt(s.db, run.id, run.runCount)
    requires EndsWithoutCarry(end, run)
    ensures run.id in Apply(s, end).db.jobs && Apply(s, end).db.jobs[run.id].carry == run.carry
  {
    assert SnapshotOk(s, run);
    if end.SettleCall? {
      var message :| end.report == ErasedRun(run.carry, Panicked(message), RetryPanics);
      PanicKeepsCarry(end.backstop, run.carry, message, end.at, run.failureCount, end.delay);
    }
  }

  /** A pause or retry stores what the handler left: the row after it holds the reported carry. */
  lemma StoredCarry(s: Sys, settle: Step, id: Ulid)
    requires Keyed(s.db.jobs) && settle.SettleCall? && Concludes(s, settle, id, settle.run.runCount)
    requires StepSettlement(settle).Pause? || StepSettlement(settle).Retry?
    ensures settle.report.Ok? && id in Apply(s, settle).db.jobs
    ensures Apply(s, settle).db.jobs[id].carry == settle.report.value.carry
    ensures Apply(s, settle).db.jobs[id].runCount == settle.run.runCount
  {
    ConclusionWrites(s, settle);
  }

  /** The same job with the same work to do, in the same run. */
  predicate SameWork(a: JobRecord, b: JobRecord) {
    SameJob(a, b) && a.payload == b.payload && a.priority == b.priority && a.runCount == b.runCount
  }

  /** What each outcome does to the job, relative to what its run was handed: completion and pauses are
      not failures, only pauses and retries touch the carry, only terminal outcomes finish the job. */
  ghost predicate Landed(
    run: JobRecord, backstop: Option<nat>, report: Result<RunReport, string>, at: Timestamp, delay: Duration,
    row: JobRecord)
  {
    && SameWork(run, row) && row.claimedBy.None? && row.claimExpiresAt.None?
    && (if Terminal(row.status) then row.finishedAt == Some(at) else row.finishedAt.None?)
    && match report
       case Err(_) => row.status.Dead? && row.failureCount == run.failureCount + 1 && row.carry == run.carry
       case Ok(RunReport(Completed(_), _, _)) =>
         row.status.Completed? && row.failureCount == run.failureCount && row.carry == run.carry
       case Ok(RunReport(Paused(resumeIn, _), carry, _)) =>
         row.status.Pending? && row.failureCount == run.failureCount && row.carry == carry
         && row.visibleAt == AddDuration(at, resumeIn)
       case Ok(RunReport(Failed(permanent, _), carry, _)) =>
         row.failureCount == run.failureCount + 1
         && (row.status.Dead? <==> permanent || (backstop.Some? && row.failureCount >= backstop.value))
         && (row.status.Dead? || (row.status.Pending? && row.carry == carry && row.visibleAt == AddDuration(at, delay)))
         && (row.status.Dead? ==> row.carry == run.carry)
  }

  /** In any good state, a settlement that applies leaves the job exactly as its report asks. */
  lemma SettlementLands(s: Sys, settle: Step, id: Ulid)
    requires Inv(s) && settle.SettleCall? && Concludes(s, settle, id, settle.run.runCount)
    ensures id in Apply(s, settle).db.jobs
    ensures Landed(settle.run, settle.backstop, settle.report, settle.at, settle.delay, Apply(s, settle).db.jobs[id])
  {
    ConclusionWrites(s, settle);
    assert SnapshotOk(s, settle.run);
    RowAt(s.db, id);
    RowLands(s.db.jobs[id], settle);
  }

  lemma RowLands(j: JobRecord, settle: Step)
    requires settle.SettleCall? && Columns(j) && j.status.Claimed? && SameClaim(j, settle.run)
    requires 0 <= j.failureCount < I32_MAX
    ensures Landed(settle.run, settle.backstop, settle.report, settle.at, settle.delay, SettledRow(j, StepSettlement(settle)))
  {
  }

  /** The next run starts where the last one stopped: whatever happens in between, short of another
      write to the carry, the next claim of the job is handed exactly the carry that the handler
      reported, under a later epoch. */
  lemma NextRunResumes(s: Sys, settle: Step, rest: seq<Step>, claim: Step, id: Ulid)
    requires Inv(s) && settle.SettleCall? && Concludes(s, settle, id, settle.run.runCount)
    requires StepSettlement(settle).Pause? || StepSettlement(settle).Retry?
    requires forall i :: 0 <= i < |rest| ==> !WritesCarry(At(Apply(s, settle), rest, i), rest[i], id)
    requires claim.ClaimCall? && claim.id == id
    requires Apply(Exec(Apply(s, settle), rest), claim) != Exec(Apply(s, settle), rest)
    ensures var t := Apply(Exec(Apply(s, settle), rest), claim);
      && id in t.db.jobs && t.db.jobs[id] in t.runs
      && settle.report.Ok? && t.db.jobs[id].carry == settle.report.value.carry
      && t.db.jobs[id].runCount > settle.run.runCount
  {
    var after := Apply(s, settle);
    StoredCarry(s, settle, id);
    StepKeepsInv(s, settle);
    RunKeepsInv(after, rest);
    ClaimHandsOver(Exec(after, rest), claim);
    CarriedAlong(after, rest, id);
  }

  /** A claim hands out the row as it is, one run later. */
  lemma ClaimHandsOver(s: Sys, claim: Step)
    requires Inv(s) && claim.ClaimCall? && Apply(s, claim) != s
    ensures claim.id in s.db.jobs && claim.id in Apply(s, claim).db.jobs
    ensures Apply(s, claim).db.jobs[claim.id] in Apply(s, claim).runs
    ensures Apply(s, claim).db.jobs[claim.id].carry == s.db.jobs[claim.id].carry
    ensures Apply(s, claim).db.jobs[claim.id].runCount == s.db.jobs[claim.id].runCount + 1
  {
    RowAt(s.db, claim.id);
  }

  lemma CarriedAlong(s: Sys, rest: seq<Step>, id: Ulid)
    requires Inv(s) && id in s.db.jobs && id in Exec(s, rest).db.jobs
    requires forall i :: 0 <= i < |rest| ==> !WritesCarry(At(s, rest, i), rest[i], id)
    ensures Exec(s, rest).db.jobs[id].carry == s.db.jobs[id].carry
    ensures Exec(s, rest).db.jobs[id].runCount >= s.db.jobs[id].runCount
  {
    CarryKept(s, rest, id);
    RunAdvances(s, rest);
  }

  // ----------------------------------------------------------------- eligibility

  /** Pending, with nothing about its turn changed. */
  predicate StillWaits(s: Sys, id: Ulid, visibleAt: Timestamp, runNo: nat) {
    && id in s.db.jobs && s.db.jobs[id].status.Pending?
    && s.db.jobs[id].visibleAt == visibleAt && s.db.jobs[id].runCount == runNo
  }

  lemma WaitsOrIsDue(s: Sys, step: Step, id: Ulid, visibleAt: Timestamp, runNo: nat)
    requires Inv(s) && StillWaits(s, id, visibleAt, runNo)
    ensures StillWaits(Apply(s, step), id, visibleAt, runNo) || visibleAt <= Apply(s, step).now
  {
    RowAt(s.db, id);
    if step.SettleCall? || step.ReleaseCall? {
      ConclusionWrites(s, step);
    }
  }

  /** A job that waits until `visibleAt` is not touched before the database clock gets there: as long
      as it has not, the job is still pending, with the same turn and no further run. */
  lemma {:induction false} NeverRunEarly(s: Sys, steps: seq<Step>, id: Ulid)
    requires Inv(s) && id in s.db.jobs && s.db.jobs[id].status.Pending?
    ensures var row := s.db.jobs[id];
      Exec(s, steps).now < row.visibleAt ==> StillWaits(Exec(s, steps), id, row.visibleAt, row.runCount)
  {
    if steps != [] {
      var front := steps[..|steps| - 1];
      var before := Exec(s, front);
      NeverRunEarly(s, front, id);
      RunKeepsInv(s, front);
      if before.now < s.db.jobs[id].visibleAt {
        WaitsOrIsDue(before, steps[|front|], id, s.db.jobs[id].visibleAt, s.db.jobs[id].runCount);
      } else {
        StepAdvances(before, steps[|front|]);
      }
    }
  }

  // -------------------------------------------------------------------- cleanup

  /** Work that is not finished is never deleted. */
  lemma LiveWorkIsNeverDeleted(now: Timestamp, steps: seq<Step>, step: Step, id: Ulid)
    requires id in Exec(Init(now), steps).db.jobs
    requires !Terminal(Exec(Init(now), steps).db.jobs[id].status)
    ensures id in Apply(Exec(Init(now), steps), step).db.jobs
  {
    Reachable(now, steps);
    RowAt(Exec(Init(now), steps).db, id);
  }
}
