/** Whether the failure backstop caps a job's failures, as the worker's setting promises: exactly on the
    runs in which no expired lease is recovered at the last failure the cap allows. */
module FailureCap {
  import opened Records
  import opened Journal
  import opened StoreSteps
  import opened Routing
  import opened Protocol
  import opened Invariant
  import opened Lifecycle

  /** The failures a backstop of `n` allows; a job has to fail once to be given up on. */
  function Cap(n: nat): nat {
    if n == 0 then 1 else n
  }

  predicate WithinCap(j: JobRecord, n: nat) {
    j.failureCount <= Cap(n) && (j.failureCount == Cap(n) ==> j.status.Dead?)
  }

  /** No job has failed more than `n` times, and one that has failed `n` times is dead. */
  ghost predicate Honoured(db: Db, n: nat) {
    forall id {:trigger WithinCap(db.jobs[id], n)} :: id in db.jobs ==> WithinCap(db.jobs[id], n)
  }

  /** The recovery of an expired lease on a job with one failure left: the case recovery does not check. */
  predicate RecoversAtLimit(s: Sys, step: Step, n: nat) {
    && step.RecoverCall? && Concludes(s, step, step.snapshot.id, step.snapshot.runCount)
    && s.db.jobs[step.snapshot.id].failureCount + 1 >= Cap(n)
  }

  // ------------------------------------------------------------------- one step

  /** Only a conclusion counts a failure, and nothing brings a dead job back. */
  lemma OnlyConclusionsFail(s: Sys, step: Step, id: Ulid)
    requires Keyed(s.db.jobs) && s.db.jobs.Keys <= s.issued
    requires id in s.db.jobs && id in Apply(s, step).db.jobs
    requires !Concludes(s, step, id, RunNoOf(step))
    ensures Apply(s, step).db.jobs[id].failureCount == s.db.jobs[id].failureCount
    ensures s.db.jobs[id].status.Dead? ==> Apply(s, step).db.jobs[id].status.Dead?
  {
    if step.SettleCall? || step.ReleaseCall? {
      ConclusionWrites(s, step);
    }
  }

  lemma ReleaseKeepsFailures(s: Sys, step: Step, id: Ulid)
    requires Keyed(s.db.jobs) && step.ReleaseCall? && Concludes(s, step, id, RunNoOf(step))
    ensures id in Apply(s, step).db.jobs
    ensures Apply(s, step).db.jobs[id].failureCount == s.db.jobs[id].failureCount
  {
    ConclusionWrites(s, step);
  }

  /** What a recovery does to the failure count: one more, from the row it finds. */
  lemma RecoveryFails(s: Sys, step: Step)
    requires Inv(s) && step.RecoverCall? && Concludes(s, step, step.snapshot.id, step.snapshot.runCount)
    ensures var id := step.snapshot.id;
      && id in s.db.jobs && id in Apply(s, step).db.jobs && Apply(s, step).db.jobs[id].status.Pending?
      && Apply(s, step).db.jobs[id].failureCount == s.db.jobs[id].failureCount + 1
  {
    RowAt(s.db, step.snapshot.id);
    assert SnapshotOk(s, step.snapshot);
  }

  /** A settlement under the backstop leaves the cap respected. */
  lemma SettlementWithinCap(s: Sys, step: Step, id: Ulid, n: nat)
    requires Inv(s) && step.SettleCall? && Concludes(s, step, id, RunNoOf(step)) && Backstopped(step, n)
    requires WithinCap(s.db.jobs[id], n)
    ensures id in Apply(s, step).db.jobs && WithinCap(Apply(s, step).db.jobs[id], n)
  {
    SettlementLands(s, step, id);
    assert SnapshotOk(s, step.run);
  }

  lemma StepWithinCap(s: Sys, step: Step, id: Ulid, n: nat)
    requires Inv(s) && Backstopped(step, n) && !RecoversAtLimit(s, step, n)
    requires id in s.db.jobs && WithinCap(s.db.jobs[id], n) && id in Apply(s, step).db.jobs
    ensures WithinCap(Apply(s, step).db.jobs[id], n)
  {
    if !Concludes(s, step, id, RunNoOf(step)) {
      OnlyConclusionsFail(s, step, id);
    } else if step.SettleCall? {
      SettlementWithinCap(s, step, id, n);
    } else if step.ReleaseCall? {
      ReleaseKeepsFailures(s, step, id);
    } else {
      RecoveryFails(s, step);
    }
  }

  lemma NewRowWithinCap(s: Sys, step: Step, id: Ulid, n: nat)
    requires Inv(s) && id !in s.db.jobs && id in Apply(s, step).db.jobs
    ensures WithinCap(Apply(s, step).db.jobs[id], n)
  {
    if step.SettleCall? || step.ReleaseCall? {
      ConclusionWrites(s, step);
    }
  }

  lemma StepHonours(s: Sys, step: Step, n: nat)
    requires Inv(s) && Backstopped(step, n) && Honoured(s.db, n)
    ensures Honoured(Apply(s, step).db, n) <==> !RecoversAtLimit(s, step, n)
  {
    if RecoversAtLimit(s, step, n) {
      RecoveryFails(s, step);
      assert !WithinCap(Apply(s, step).db.jobs[step.snapshot.id], n);
    } else {
      var db := Apply(s, step).db;
      forall id | id in db.jobs
        ensures WithinCap(db.jobs[id], n)
      {
        if id in s.db.jobs {
          assert WithinCap(s.db.jobs[id], n);
          StepWithinCap(s, step, id, n);
        } else {
          NewRowWithinCap(s, step, id, n);
        }
      }
    }
  }

  // ------------------------------------------------------------------ whole runs

  ghost predicate HonouredThroughout(now: Timestamp, steps: seq<Step>, n: nat) {
    forall j: nat {:trigger At(Init(now), steps, j)} :: j <= |steps| ==> Honoured(At(Init(now), steps, j).db, n)
  }

  ghost predicate NeverRecoversAtLimit(now: Timestamp, steps: seq<Step>, n: nat) {
    forall i: nat {:trigger At(Init(now), steps, i)} ::
      i < |steps| ==> !RecoversAtLimit(At(Init(now), steps, i), steps[i], n)
  }

  lemma {:induction false} HonouredUpTo(now: Timestamp, steps: seq<Step>, n: nat, j: nat)
    requires forall i :: 0 <= i < |steps| ==> Backstopped(steps[i], n)
    requires NeverRecoversAtLimit(now, steps, n) && j <= |steps|
    ensures Honoured(At(Init(now), steps, j).db, n)
  {
    if j > 0 {
      HonouredUpTo(now, steps, n, j - 1);
      AtNext(Init(now), steps, j - 1);
      Reachable(now, steps[..j - 1]);
      StepHonours(At(Init(now), steps, j - 1), steps[j - 1], n);
    }
  }

  /** With backstops of at most `n`, a run keeps every job within `n` failures, dead at the n-th, if and
      only if it never recovers an expired lease on a job with one failure left. */
  lemma BackstopCapsFailures(now: Timestamp, steps: seq<Step>, n: nat)
    requires forall i :: 0 <= i < |steps| ==> Backstopped(steps[i], n)
    ensures HonouredThroughout(now, steps, n) <==> NeverRecoversAtLimit(now, steps, n)
  {
    if HonouredThroughout(now, steps, n) {
      forall i: nat | i < |steps|
        ensures !RecoversAtLimit(At(Init(now), steps, i), steps[i], n)
      {
        AtNext(Init(now), steps, i);
        Reachable(now, steps[..i]);
        assert Honoured(At(Init(now), steps, i + 1).db, n);
        StepHonours(At(Init(now), steps, i), steps[i], n);
      }
    } else if NeverRecoversAtLimit(now, steps, n) {
      forall j: nat | j <= |steps|
        ensures Honoured(At(Init(now), steps, j).db, n)
      {
        HonouredUpTo(now, steps, n, j);
      }
    }
  }

  // ---------------------------------------------------------------- the failing runs

  /** The only job is pending and due, and has failed every one of its `k` runs. */
  predicate FailedSoFar(s: Sys, k: nat) {
    && s.db.jobs.Keys == {0} && 0 in s.issued && s.now >= 0
    && var j := s.db.jobs[0];
       j.id == 0 && j.kind == "k" && j.priority == 0 && j.status.Pending? && j.visibleAt <= 0
       && j.runCount == k && j.failureCount == k
  }

  function RunOf(s: Sys): JobRecord
    requires 0 in s.db.jobs
  {
    ClaimedRow(s.db.jobs[0], s.now, 0, "w")
  }

  /** Claim, let the lease expire, recover: one failure more, and pending again. */
  lemma OneMoreFailure(s: Sys, k: nat) returns (steps: seq<Step>)
    requires FailedSoFar(s, k) && k + 1 < I32_MAX
    ensures FailedSoFar(Exec(s, steps), k + 1) && forall i :: 0 <= i < |steps| ==> !steps[i].SettleCall?
  {
    var run := RunOf(s);
    var claim, tick := ClaimCall(["k"], 0, 0, "w", 0), Tick(s.now + 1);
    var scan, recover := FindStale({0}), RecoverCall(run, 0, 0);
    var claimed := Apply(s, claim);
    assert claimed.db.jobs[0] == run && claimed.db.jobs.Keys == {0};
    var later := Apply(claimed, tick);
    assert Stale(later.db.jobs[0], later.now);
    var scanned := Apply(later, scan);
    assert run in StaleAmong(later, {0});
    var recovered := Apply(scanned, recover);
    assert Recoverable(scanned.db, scanned.now, 0, run.runCount);
    assert recovered.db.jobs[0] == RecoveredRow(run, 0, k + 1);
    steps := [claim, tick] + [scan, recover];
    ExecTwo(s, claim, tick);
    ExecTwo(later, scan, recover);
    ExecAppend(s, [claim, tick], [scan, recover]);
  }

  /** Recovery alone drives failures past any backstop: a run without a single settlement, so within
      every backstop, leaves a job pending after `k` failures. */
  lemma {:induction false} RecoveryIgnoresBackstop(k: nat) returns (steps: seq<Step>)
    requires k < I32_MAX
    ensures FailedSoFar(Exec(Init(0), steps), k)
    ensures forall i, n :: 0 <= i < |steps| ==> Backstopped(steps[i], n)
    ensures forall i :: 0 <= i < |steps| ==> !steps[i].SettleCall?
  {
    if k == 0 {
      var probe, insert := Probe(0, Task("k", Null, High, None, Null), 0, 0, None), InsertCall(0, 0);
      ExecTwo(Init(0), probe, insert);
      steps := [probe, insert];
    } else {
      var front := RecoveryIgnoresBackstop(k - 1);
      var more := OneMoreFailure(Exec(Init(0), front), k - 1);
      ExecAppend(Init(0), front, more);
      steps := front + more;
    }
  }
}
