/** Deduplicating submits over whole runs: no submit is lost or counted twice. */
module Dedup {
  import opened Records
  import opened Journal
  import opened StoreSteps
  import opened Protocol
  import opened Invariant
  import opened Lifecycle

  /** The submits that returned successfully. */
  function Successful(producers: map<nat, Producer>): set<nat> {
    set pid | pid in producers && producers[pid].Done?
  }

  /** The submits that returned the id of job `id`. */
  function Named(producers: map<nat, Producer>, id: Ulid): set<nat> {
    set pid | pid in producers && producers[pid].Done? && producers[pid].id == id
  }

  /** Where a submit lands, the moment it returns: in a brand-new pending row holding the incoming
      task, or in a row of the same kind and key that is pending at that very write. */
  lemma SubmitLands(s: Sys, step: Step, pid: nat)
    requires Inv(s)
    requires pid in Successful(Apply(s, step).producers) && pid !in Successful(s.producers)
    ensures var t := Apply(s, step); var id := t.producers[pid].id; var task := t.producers[pid].task;
      && id in t.db.jobs && t.db.jobs[id].status.Pending?
      && t.db.jobs[id].kind == task.kind && t.db.jobs[id].dedupKey == task.dedupKey
      && (|| (step.InsertCall? && id !in s.issued && id !in s.db.jobs
              && t.db.jobs[id].payload == task.payload && t.db.jobs[id].carry == task.defaultCarry
              && t.db.jobs[id].runCount == 0 && t.db.journal == s.db.journal)
          || (MergesInto(s, step, id) && |t.db.journal| == |s.db.journal| + 1
              && t.db.journal[|s.db.journal|].outcome.Merged? && t.db.journal[|s.db.journal|].jobId == id))
  {
    if step.MergeCall? {
      assert ProducerOk(s, s.producers[step.pid]);
      RowAt(s.db, s.producers[step.pid].candidate.id);
    }
  }

  /** The two ways a step can add a successful submit. */
  lemma SuccessByInsertOrMerge(s: Sys, step: Step)
    ensures var t := Apply(s, step);
      if step.InsertCall? && t.issued != s.issued then
        Successful(t.producers) == Successful(s.producers) + {step.pid} && step.pid !in Successful(s.producers)
        && t.issued == s.issued + {step.id} && step.id !in s.issued
      else if step.MergeCall? && step.pid in s.producers && s.producers[step.pid].Probed?
              && MergesInto(s, step, s.producers[step.pid].candidate.id) then
        Successful(t.producers) == Successful(s.producers) + {step.pid} && step.pid !in Successful(s.producers)
        && t.issued == s.issued
      else Successful(t.producers) == Successful(s.producers) && t.issued == s.issued
  {
  }

  /** How many merges a run recorded. */
  function MergesRecorded(s: Sys, steps: seq<Step>): nat {
    if steps == [] then 0
    else
      var front, step := steps[..|steps| - 1], steps[|steps| - 1];
      var before := Exec(s, front);
      MergesRecorded(s, front)
      + if step.MergeCall? && step.pid in before.producers && before.producers[step.pid].Probed?
           && MergesInto(before, step, before.producers[step.pid].candidate.id) then 1 else 0
  }

  /** Conservation: successful submits = rows ever created + merges ever recorded, whatever claims,
      settlements, sweeps and racing submits interleave with the three calls of each submit. */
  lemma {:induction false} SubmitsConserved(now: Timestamp, steps: seq<Step>)
    ensures var s := Exec(Init(now), steps);
      |Successful(s.producers)| == |s.issued| + MergesRecorded(Init(now), steps)
  {
    if steps != [] {
      SubmitsConserved(now, steps[..|steps| - 1]);
      SuccessByInsertOrMerge(Exec(Init(now), steps[..|steps| - 1]), steps[|steps| - 1]);
    }
  }

  // ----------------------------------------------------- a merge may lag behind

  const TASK: Task := Task("k", Null, High, Some("key"), Null)

  function CandidateRow(): JobRecord {
    FreshRow(NewJob(0, "k", Null, 0, 0, 0, Null, Some("key")))
  }

  /** A second submit has read the only job, which has been run `runs` times since. */
  predicate ReadBefore(s: Sys, runs: nat) {
    && s.now == 0 && 1 in s.producers && s.producers[1] == Probed(TASK, 0, 0, CandidateRow())
    && s.db.jobs.Keys == {0} && s.db.jobs[0].(visibleAt := 0, runCount := 0) == CandidateRow()
    && s.db.jobs[0].runCount == runs && s.db.jobs[0].visibleAt == 0 && |s.db.journal| == runs
  }

  lemma CandidateRead() returns (steps: seq<Step>)
    ensures ReadBefore(Exec(Init(0), steps), 0)
  {
    var first, insert, second := Probe(0, TASK, 0, 0, None), InsertCall(0, 0), Probe(1, TASK, 0, 0, Some(0));
    var s := Apply(Apply(Init(0), first), insert);
    assert s.db.jobs == map[0 := CandidateRow()];
    ExecTwo(Init(0), first, insert);
    ExecOne(s, second);
    ExecAppend(Init(0), [first, insert], [second]);
    steps := [first, insert] + [second];
  }

  lemma CandidateRunAndReleased(s: Sys) returns (steps: seq<Step>)
    requires ReadBefore(s, 0)
    ensures ReadBefore(Exec(s, steps), 1)
  {
    var claim := ClaimCall(["k"], 0, 0, "w", 0);
    var run := ClaimedRow(s.db.jobs[0], 0, 0, "w");
    var claimed := Apply(s, claim);
    assert claimed.db.jobs[0] == run && claimed.db.jobs.Keys == {0} && run in claimed.runs;
    var release := ReleaseCall(run, 0);
    assert Apply(claimed, release).db.jobs[0] == SettledRow(run, Release(0));
    ExecTwo(s, claim, release);
    steps := [claim, release];
  }

  /** A merge is logged with the run number its producer saw. */
  lemma MergeLogsRunSeen(s: Sys, step: Step, id: Ulid)
    requires MergesInto(s, step, id)
    ensures |Apply(s, step).db.journal| == |s.db.journal| + 1
    ensures Apply(s, step).db.journal[|s.db.journal|].outcome.Merged?
    ensures Apply(s, step).db.journal[|s.db.journal|].runNo == s.producers[step.pid].candidate.runCount
    ensures id in Apply(s, step).db.jobs
    ensures Keyed(s.db.jobs) ==> Apply(s, step).db.jobs[id].runCount == s.db.jobs[id].runCount
  {
  }

  /** So it may lag behind the row: here the candidate is read before its first run and merged into
      after it. */
  lemma MergedEntryMayLag() returns (steps: seq<Step>)
    ensures var db := Exec(Init(0), steps).db;
      0 in db.jobs && |db.journal| == 2 && db.journal[1].outcome.Merged? && db.journal[1].runNo < db.jobs[0].runCount
  {
    var read := CandidateRead();
    var s := Exec(Init(0), read);
    var ran := CandidateRunAndReleased(s);
    var t, merge := Exec(s, ran), MergeCall(1, Keep, 0);
    MergeLogsRunSeen(t, merge, 0);
    ExecAppend(Init(0), read, ran);
    ExecOne(t, merge);
    ExecAppend(Init(0), read + ran, [merge]);
    steps := read + ran + [merge];
  }

  // ------------------------------------------------------------- row by row

  /** A row accounts for every submit that names it: one that created it, and one per merge logged. */
  ghost predicate Accounted(s: Sys, id: Ulid) {
    |Named(s.producers, id)| == 1 + CountIn(EntriesOf(s.db.journal, id), {Merged})
  }

  lemma MergeNames(s: Sys, step: Step, id: Ulid)
    requires MergesInto(s, step, id)
    ensures |Named(Apply(s, step).producers, id)| == |Named(s.producers, id)| + 1
  {
    assert Named(Apply(s, step).producers, id) == Named(s.producers, id) + {step.pid};
  }

  lemma LoggedStepNames(s: Sys, step: Step, id: Ulid)
    requires Logs(s, step, id)
    ensures |Named(Apply(s, step).producers, id)|
         == |Named(s.producers, id)| + (if EntryOf(s, step).outcome.Merged? then 1 else 0)
  {
    if step.MergeCall? {
      MergeNames(s, step, id);
    } else {
      assert Apply(s, step).producers == s.producers;
    }
  }

  lemma AccountedStep(s: Sys, step: Step, id: Ulid)
    requires Inv(s) && id in Apply(s, step).db.jobs
    requires id in s.db.jobs ==> Accounted(s, id)
    ensures Accounted(Apply(s, step), id)
  {
    StepHistory(s, step, id);
    if id !in s.db.jobs {
      NoEntries(s.db.journal, id);
      NewRowNamedOnce(s, step, id);
    } else if Logs(s, step, id) {
      CountInAppend(EntriesOf(s.db.journal, id), Entry(s.db.nextJournalId, id, EntryOf(s, step)), {Merged});
      LoggedStepNames(s, step, id);
    } else {
      NamedUnchanged(s, step, id);
    }
  }

  lemma NewRowNamedOnce(s: Sys, step: Step, id: Ulid)
    requires Inv(s) && id in Apply(s, step).db.jobs && id !in s.db.jobs
    ensures |Named(Apply(s, step).producers, id)| == 1
    ensures !Logs(s, step, id)
  {
    assert step.InsertCall? && step.id == id && id !in s.issued;
    forall pid | pid in s.producers && s.producers[pid].Done?
      ensures s.producers[pid].id != id
    {
      assert ProducerOk(s, s.producers[pid]);
    }
    assert Named(Apply(s, step).producers, id) == {step.pid};
  }

  lemma NamedUnchanged(s: Sys, step: Step, id: Ulid)
    requires Inv(s) && id in s.db.jobs && !Logs(s, step, id)
    ensures Named(Apply(s, step).producers, id) == Named(s.producers, id)
  {
  }

  lemma AccountedLater(s: Sys, step: Step, t: Sys, id: Ulid)
    requires Inv(s) && t == Apply(s, step) && id in t.db.jobs && (id in s.db.jobs ==> Accounted(s, id))
    ensures Accounted(t, id)
  {
    AccountedStep(s, step, id);
  }

  /** In every reachable state, each surviving row is named by exactly one submit more than it has
      `Merged` entries. */
  lemma {:induction false} RowsAccountForSubmits(now: Timestamp, steps: seq<Step>, id: Ulid)
    requires id in Exec(Init(now), steps).db.jobs
    ensures Accounted(Exec(Init(now), steps), id)
  {
    if steps != [] {
      var front := steps[..|steps| - 1];
      Reachable(now, front);
      if id in Exec(Init(now), front).db.jobs {
        RowsAccountForSubmits(now, front, id);
      }
      AccountedLater(Exec(Init(now), front), steps[|front|], Exec(Init(now), steps), id);
    }
  }
}
