/** The job-lifecycle protocol: one shared database, any number of workers, recoverers and
    producers, each holding snapshots that may be arbitrarily old. A step is one store call; a run
    is any sequence of steps. A step whose guard fails, or that uses a snapshot nobody holds,
    changes nothing. */
module Protocol {
  import opened Records
  import opened StoreSteps
  import opened Routing

  /** A task as the producer sees it: identity and enqueue-time policy. */
  datatype Task = Task(
    kind: string, payload: Json, priority: Priority, dedupKey: Option<string>, defaultCarry: Json)

  datatype Decision =
    | Independent | Keep | Replace
    | With(payload: Json, carry: Json, priority: Priority)

  /** Where one `submit` stands. */
  datatype Producer =
    | Probed(task: Task, createdAt: Timestamp, visibleAt: Timestamp, candidate: JobRecord)
    | MustInsert(task: Task, createdAt: Timestamp, visibleAt: Timestamp)
    | Done(task: Task, id: Ulid)

  /** The database and its clock, the ids ever generated, and everyone's local knowledge: the
      records returned by claims, the records returned by stale scans, and the submits. Snapshots
      are never forgotten, so a slow participant may act on one at any later time. */
  datatype Sys = Sys(
    db: Db,
    now: Timestamp,
    issued: set<Ulid>,
    runs: set<JobRecord>,
    stale: set<JobRecord>,
    producers: map<nat, Producer>)

  function Init(now: Timestamp): Sys {
    Sys(EMPTY, now, {}, {}, {}, map[])
  }

  datatype Step =
    | Tick(to: Timestamp)
    | Probe(pid: nat, task: Task, createdAt: Timestamp, visibleAt: Timestamp, found: Option<Ulid>)
    | MergeCall(pid: nat, decision: Decision, at: Timestamp)
    | InsertCall(pid: nat, id: Ulid)
    | ClaimCall(kinds: seq<string>, floor: int, lease: Duration, owner: string, id: Ulid)
    | ExtendCall(run: JobRecord, lease: Duration)
    | SettleCall(run: JobRecord, backstop: Option<nat>, report: Result<RunReport, string>,
                 at: Timestamp, delay: Duration)
    | ReleaseCall(run: JobRecord, at: Timestamp)
    | FindStale(ids: set<Ulid>)
    | RecoverCall(snapshot: JobRecord, at: Timestamp, delay: Duration)
    | CleanupCall(criteria: CleanupCriteria)

  function OwnerOf(run: JobRecord): string {
    if run.claimedBy.Some? then run.claimedBy.value else ""
  }

  /** The row a producer inserts. */
  function NewRow(p: Producer, id: Ulid): JobRecord
    requires p.MustInsert?
  {
    FreshRow(NewJob(id, p.task.kind, p.task.payload, Tier(p.task.priority), p.createdAt, p.visibleAt,
                    p.task.defaultCarry, p.task.dedupKey))
  }

  function UpdateFor(task: Task, d: Decision): Option<MergePayload> {
    match d
    case Replace => Some(MergePayload(task.payload, task.defaultCarry, Tier(task.priority)))
    case With(payload, carry, priority) => Some(MergePayload(payload, carry, Tier(priority)))
    case _ => None
  }

  function StepSettlement(step: Step): Settlement
    requires step.SettleCall? || step.ReleaseCall?
  {
    if step.ReleaseCall? then Release(step.at)
    else SettlementOf(step.backstop, step.report, step.at, step.run.failureCount, step.delay)
  }

  function StepEntry(step: Step): JournalAppend
    requires step.SettleCall? || step.ReleaseCall?
  {
    if step.ReleaseCall? then ReleaseEntry(step.run.kind, step.run.runCount, step.at)
    else SettleEntry(step.run, StepSettlement(step), step.report, step.at)
  }

  /** The row a recovery writes, from the failure count its snapshot saw. */
  function StepRecovery(step: Step, j: JobRecord): JobRecord
    requires step.RecoverCall?
  {
    RecoveredRow(j, AddDuration(step.at, step.delay), SaturatingIncrement(step.snapshot.failureCount))
  }

  // ------------------------------------------------------------- the step function

  function ApplyProbe(s: Sys, step: Step): Sys
    requires step.Probe?
  {
    var Probe(pid, task, createdAt, visibleAt, found) := step;
    if pid in s.producers then s
    else if task.dedupKey.None? then
      s.(producers := s.producers[pid := MustInsert(task, createdAt, visibleAt)])
    else if found.None? then
      if NoSibling(s.db, task.kind, task.dedupKey.value)
      then s.(producers := s.producers[pid := MustInsert(task, createdAt, visibleAt)])
      else s
    else if DedupCandidate(s.db, task.kind, task.dedupKey.value, found.value) then
      s.(producers := s.producers[pid := Probed(task, createdAt, visibleAt, s.db.jobs[found.value])])
    else s
  }

  function ApplyMerge(s: Sys, step: Step): Sys
    requires step.MergeCall?
  {
    var MergeCall(pid, decision, at) := step;
    if pid !in s.producers || !s.producers[pid].Probed? then s
    else
      var Probed(task, createdAt, visibleAt, c) := s.producers[pid];
      var insertNext := s.producers[pid := MustInsert(task, createdAt, visibleAt)];
      if decision.Independent? then s.(producers := insertNext)
      else
        var (db, applied) := MergeInto(s.db, c.id, UpdateFor(task, decision), MergeEntry(c, at));
        if applied then s.(db := db, producers := s.producers[pid := Done(task, c.id)])
        else s.(producers := insertNext)
  }

  function ApplyInsert(s: Sys, step: Step): Sys
    requires step.InsertCall?
  {
    var InsertCall(pid, id) := step;
    if pid !in s.producers || !s.producers[pid].MustInsert? || id in s.issued then s
    else
      s.(db := Put(s.db, NewRow(s.producers[pid], id)),
         issued := s.issued + {id},
         producers := s.producers[pid := Done(s.producers[pid].task, id)])
  }

  /** PostgreSQL refuses a claim that would overflow the `integer` run count. */
  function ApplyClaim(s: Sys, step: Step): Sys
    requires step.ClaimCall?
  {
    var ClaimCall(kinds, floor, lease, owner, id) := step;
    if ClaimTarget(s.db, s.now, kinds, floor, id) && s.db.jobs[id].runCount < I32_MAX then
      var row := ClaimedRow(s.db.jobs[id], s.now, lease, owner);
      s.(db := Put(s.db, row), runs := s.runs + {row})
    else s
  }

  function ApplyConclusion(s: Sys, step: Step): Sys
    requires step.SettleCall? || step.ReleaseCall?
  {
    if step.run !in s.runs then s
    else
      s.(db := Settle(s.db, step.run.id, OwnerOf(step.run), step.run.runCount,
                      StepSettlement(step), StepEntry(step)).0)
  }

  /** What a scan for expired claims reports, from whichever rows it gets to look at. */
  function StaleAmong(s: Sys, ids: set<Ulid>): set<JobRecord> {
    set id | id in ids && id in s.db.jobs && Stale(s.db.jobs[id], s.now) :: s.db.jobs[id]
  }

  function ApplyRecover(s: Sys, step: Step): Sys
    requires step.RecoverCall?
  {
    var RecoverCall(snap, at, delay) := step;
    if snap !in s.stale then s
    else
      s.(db := Recover(s.db, s.now, snap.id, AddDuration(at, delay),
                       SaturatingIncrement(snap.failureCount), snap.runCount, StaleEntry(snap, at)).0)
  }

  function Apply(s: Sys, step: Step): Sys {
    match step
    case Tick(to) => if to > s.now then s.(now := to) else s
    case Probe(_, _, _, _, _) => ApplyProbe(s, step)
    case MergeCall(_, _, _) => ApplyMerge(s, step)
    case InsertCall(_, _) => ApplyInsert(s, step)
    case ClaimCall(_, _, _, _, _) => ApplyClaim(s, step)
    case ExtendCall(run, lease) =>
      if run !in s.runs then s
      else s.(db := ExtendLease(s.db, s.now, run.id, OwnerOf(run), run.runCount, lease).0)
    case SettleCall(_, _, _, _, _) => ApplyConclusion(s, step)
    case ReleaseCall(_, _) => ApplyConclusion(s, step)
    case FindStale(ids) =>
      s.(stale := s.stale + StaleAmong(s, ids))
    case RecoverCall(_, _, _) => ApplyRecover(s, step)
    case CleanupCall(c) => s.(db := Cleanup(s.db, c).0)
  }

  /** The state after a run of steps. */
  function Exec(s: Sys, steps: seq<Step>): Sys {
    if steps == [] then s
    else Apply(Exec(s, steps[..|steps| - 1]), steps[|steps| - 1])
  }

  /** The state before the `i`-th step of a run. */
  function At(s: Sys, steps: seq<Step>, i: nat): Sys
    requires i <= |steps|
  {
    Exec(s, steps[..i])
  }

  lemma AtNext(s: Sys, steps: seq<Step>, i: nat)
    requires i < |steps|
    ensures At(s, steps, i + 1) == Apply(At(s, steps, i), steps[i])
  {
    assert steps[..i + 1][..i] == steps[..i];
  }

  lemma AtPrefix(s: Sys, steps: seq<Step>, n: nat, i: nat)
    requires i <= n <= |steps|
    ensures At(s, steps[..n], i) == At(s, steps, i)
    ensures At(s, steps, n) == Exec(s, steps[..n])
  {
    assert steps[..n][..i] == steps[..i];
  }

  lemma {:induction false} ExecAppend(s: Sys, first: seq<Step>, second: seq<Step>)
    ensures Exec(s, first + second) == Exec(Exec(s, first), second)
  {
    if second == [] {
      assert first + second == first;
    } else {
      var front := second[..|second| - 1];
      ExecAppend(s, first, front);
      assert (first + second)[..|first + second| - 1] == first + front;
    }
  }

  lemma ExecOne(s: Sys, step: Step)
    ensures Exec(s, [step]) == Apply(s, step)
  {
    assert [step][..0] == [];
  }

  lemma ExecTwo(s: Sys, first: Step, second: Step)
    ensures Exec(s, [first, second]) == Apply(Apply(s, first), second)
  {
    assert [first, second][..1] == [first];
    ExecOne(s, first);
  }

  /** Later states of a run are runs from earlier ones. */
  lemma AtLater(s: Sys, steps: seq<Step>, i: nat, j: nat)
    requires i <= j <= |steps|
    ensures At(s, steps, j) == Exec(At(s, steps, i), steps[i..j])
  {
    assert steps[..j] == steps[..i] + steps[i..j];
    ExecAppend(s, steps[..i], steps[i..j]);
  }
}
