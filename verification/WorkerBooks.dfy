/** The books of a worker: its claims, and what became of each of them in the run of the whole system. */
module WorkerBooks {
  import opened Records
  import opened StoreSteps
  import opened Routing
  import opened Protocol
  import opened Invariant
  import opened Lifecycle
  import opened Effects
  import opened Scheduler
  import opened Backoff
  import opened WorkerSlots

  // -------------------------------------------------------------- the worker's books

  /** The run of the whole system so far and where it has led; this worker's claims, numbered by
      task; the tasks it tracks and those still in its join set; the step of the run by which it
      ended each claim, and the store call that took it; the tasks that joined with a result, those it had to abort, and those it lost
      sight of. Then its claim attempts, with the moment of the run at which each met the database. */
  datatype Books = Books(
    start: Timestamp,
    trace: seq<Step>,
    sys: Sys,
    claims: seq<JobRecord>,
    inflight: map<nat, Inflight>,
    running: map<nat, JobRecord>,
    ends: map<nat, nat>,
    endCalls: map<nat, nat>,
    joined: set<nat>,
    aborted: set<nat>,
    lost: set<nat>,
    attempts: seq<Attempt>,
    moments: seq<nat>)

  /** A handler that finished is settled with its own report, a retry waiting the delay drawn for it; only
      an aborted one is released. Either is written for the time the worker's clock read for the very
      call that made it. */
  ghost predicate ProperEnd(
    cfg: Config, oracle: Oracle, b: Books, task: nat, run: JobRecord, step: Step, call: nat)
  {
    || (step.SettleCall? && step.run == run && task in b.joined && step.backstop == cfg.backstop
        && step.report == ReportOf(cfg, oracle, task, run) && step.at == oracle.clock(call)
        && OwnDelay(CurveOf(cfg, oracle, task), cfg.jitter, run, step.delay))
    || (step.ReleaseCall? && step.run == run && task in b.aborted && step.at == oracle.clock(call))
  }

  /** Tracking agrees with the claim, and the join set with the tracking. */
  predicate Tracking(b: Books, t: nat) {
    && (t in b.inflight ==> t < |b.claims| && b.inflight[t] == Tracked(b.claims[t]))
    && (t in b.running ==> t in b.inflight && b.running[t] == b.claims[t])
  }

  /** How this worker ended the claim of task `t`. */
  ghost predicate Ended(cfg: Config, oracle: Oracle, b: Books, t: nat)
    requires t < |b.claims|
  {
    && t in b.ends && b.ends[t] < |b.trace| && t in b.endCalls && !oracle.outage(b.endCalls[t])
    && ProperEnd(cfg, oracle, b, t, b.claims[t], b.trace[b.ends[t]], b.endCalls[t])
    && EpochOver(b.sys, b.claims[t].id, b.claims[t].runCount)
  }

  /** Task `t` is in order: its claim is the worker's own, and it is exactly one of tracked, being
      ended right now (`open`), lost, and properly ended. */
  ghost predicate TaskOk(cfg: Config, oracle: Oracle, b: Books, open: set<nat>, t: nat) {
    && Tracking(b, t)
    && (t in b.inflight ==> t !in open)
    && (t in b.aborted ==> !oracle.finished(t) && t < |b.claims| && t !in b.running)
    && (t in b.joined ==> t < |b.claims| && t !in b.inflight && t !in b.aborted)
    && (t in b.inflight || t in open || t >= |b.claims| ==> t !in b.ends && t !in b.lost)
    && (t < |b.claims| ==>
          && b.claims[t].claimedBy == Some(cfg.owner) && b.claims[t] in b.sys.runs && Countable(b.claims[t])
          && (t in b.inflight || t in open || t in b.lost || Ended(cfg, oracle, b, t)))
  }

  predicate OtherEpoch(a: JobRecord, b: JobRecord) {
    a.id != b.id || a.runCount != b.runCount
  }

  /** No two tasks run the same claim. */
  ghost predicate Apart(claims: seq<JobRecord>) {
    forall t, u {:trigger OtherEpoch(claims[t], claims[u])} ::
      0 <= t < u < |claims| ==> OtherEpoch(claims[t], claims[u])
  }

  /** The system has run as the trace says, and every task is in order. */
  ghost predicate Orderly(cfg: Config, oracle: Oracle, b: Books, open: set<nat>) {
    && b.sys == Exec(Init(b.start), b.trace)
    && Apart(b.claims)
    && (forall t {:trigger TaskOk(cfg, oracle, b, open, t)} :: TaskOk(cfg, oracle, b, open, t))
  }

  /** The step does not settle or release one of these claims. */
  predicate LeavesAlone(step: Step, claims: seq<JobRecord>) {
    step.SettleCall? || step.ReleaseCall? ==> step.run !in claims
  }

  ghost predicate AllLeaveAlone(steps: seq<Step>, claims: seq<JobRecord>) {
    forall i {:trigger LeavesAlone(steps[i], claims)} :: 0 <= i < |steps| ==> LeavesAlone(steps[i], claims)
  }

  /** A record is known only to the worker whose claim returned it, so nobody else settles or
      releases it. */
  ghost predicate HandsOff(oracle: Oracle, claims: seq<JobRecord>) {
    forall n {:trigger AllLeaveAlone(oracle.others(n), claims)} :: AllLeaveAlone(oracle.others(n), claims)
  }

  /** The claim of task `t` was concluded by no step but the worker's own, or by a recovery. */
  ghost predicate SoleEnder(start: Timestamp, trace: seq<Step>, ends: map<nat, nat>, t: nat, run: JobRecord) {
    forall i: nat {:trigger ConcludedBy(start, trace, run, i)} ::
      ConcludedBy(start, trace, run, i) ==> trace[i].RecoverCall? || (t in ends && ends[t] == i)
  }

  /** Nobody meddling, the claim of task `t`, if there is one, was concluded as it should be. */
  ghost predicate Guarded(
    oracle: Oracle, start: Timestamp, trace: seq<Step>, ends: map<nat, nat>, claims: seq<JobRecord>, t: nat)
  {
    HandsOff(oracle, claims) && t < |claims| ==> SoleEnder(start, trace, ends, t, claims[t])
  }

  ghost predicate Undisturbed(
    oracle: Oracle, start: Timestamp, trace: seq<Step>, ends: map<nat, nat>, claims: seq<JobRecord>)
  {
    forall t: nat {:trigger Guarded(oracle, start, trace, ends, claims, t)} ::
      Guarded(oracle, start, trace, ends, claims, t)
  }

  function LastOf(moments: seq<nat>): nat {
    if moments == [] then 0 else moments[|moments| - 1]
  }

  /** The `k`-th attempt, if there is one, met the state of the run at its moment, no earlier than the
      attempt before. */
  ghost predicate Met(start: Timestamp, trace: seq<Step>, attempts: seq<Attempt>, moments: seq<nat>, k: nat) {
    && |attempts| == |moments|
    && (k < |attempts| ==>
          && moments[k] <= |trace| && (k > 0 ==> moments[k - 1] <= moments[k])
          && attempts[k].db == At(Init(start), trace, moments[k]).db
          && attempts[k].now == At(Init(start), trace, moments[k]).now)
  }

  ghost predicate Witnessed(start: Timestamp, trace: seq<Step>, attempts: seq<Attempt>, moments: seq<nat>) {
    forall k: nat {:trigger Met(start, trace, attempts, moments, k)} :: Met(start, trace, attempts, moments, k)
  }

  lemma LastIsPast(start: Timestamp, trace: seq<Step>, attempts: seq<Attempt>, moments: seq<nat>)
    requires Witnessed(start, trace, attempts, moments)
    ensures LastOf(moments) <= |trace| && |attempts| == |moments|
  {
    assert Met(start, trace, attempts, moments, if attempts == [] then 0 else |attempts| - 1);
  }

  /** The books balance: the tasks are in order, nobody meddled with the claims, and the attempts are
      those of this run. */
  ghost predicate Balanced(cfg: Config, oracle: Oracle, b: Books, open: set<nat>) {
    && Orderly(cfg, oracle, b, open)
    && Undisturbed(oracle, b.start, b.trace, b.ends, b.claims)
    && Witnessed(b.start, b.trace, b.attempts, b.moments)
  }

  function Advanced(b: Books, steps: seq<Step>): Books {
    b.(sys := Exec(b.sys, steps), trace := b.trace + steps)
  }

  lemma OrderlyAdvanced(cfg: Config, oracle: Oracle, b: Books, open: set<nat>, steps: seq<Step>)
    requires Orderly(cfg, oracle, b, open)
    ensures Orderly(cfg, oracle, Advanced(b, steps), open)
  {
    var after := Advanced(b, steps);
    ExecAppend(Init(b.start), b.trace, steps);
    Reachable(b.start, b.trace);
    RunAdvances(b.sys, steps);
    RunKeepsRuns(b.sys, steps);
    forall t: nat
      ensures TaskOk(cfg, oracle, after, open, t)
    {
      assert TaskOk(cfg, oracle, b, open, t);
      TaskAdvances(cfg, oracle, b, open, t, steps);
    }
  }

  lemma TaskAdvances(cfg: Config, oracle: Oracle, b: Books, open: set<nat>, t: nat, steps: seq<Step>)
    requires TaskOk(cfg, oracle, b, open, t)
    requires Advances(b.sys, Exec(b.sys, steps)) && b.sys.runs <= Exec(b.sys, steps).runs
    ensures TaskOk(cfg, oracle, Advanced(b, steps), open, t)
  {
    if t < |b.claims| && Ended(cfg, oracle, b, t) {
      EpochStaysOver(b.sys, Exec(b.sys, steps), b.claims[t].id, b.claims[t].runCount);
    }
  }

  /** What a run did before it was extended, it still did. */
  lemma AtExtended(start: Timestamp, trace: seq<Step>, longer: seq<Step>, i: nat)
    requires trace <= longer && i <= |trace|
    ensures At(Init(start), trace, i) == At(Init(start), longer, i)
  {
    assert trace[..i] == longer[..i];
  }

  lemma ConclusionIsOld(start: Timestamp, trace: seq<Step>, steps: seq<Step>, run: JobRecord, i: nat)
    requires i < |trace|
    ensures ConcludedBy(start, trace + steps, run, i) <==> ConcludedBy(start, trace, run, i)
  {
    AtExtended(start, trace, trace + steps, i);
  }

  lemma WitnessedLonger(
    start: Timestamp, trace: seq<Step>, longer: seq<Step>, attempts: seq<Attempt>, moments: seq<nat>)
    requires Witnessed(start, trace, attempts, moments) && trace <= longer
    ensures Witnessed(start, longer, attempts, moments)
  {
    forall k: nat
      ensures Met(start, longer, attempts, moments, k)
    {
      assert Met(start, trace, attempts, moments, k);
      if k < |attempts| {
        AtExtended(start, trace, longer, moments[k]);
      }
    }
  }

  /** A longer run in which no added step but one at `end` settles or releases the claim. */
  lemma SoleEnderLonger(
    start: Timestamp, trace: seq<Step>, steps: seq<Step>, before: map<nat, nat>, after: map<nat, nat>, t: nat, run: JobRecord)
    requires SoleEnder(start, trace, before, t, run)
    requires t in before ==> t in after && after[t] == before[t]
    requires forall i {:trigger steps[i]} :: 0 <= i < |steps| && (steps[i].SettleCall? || steps[i].ReleaseCall?) ==>
      steps[i].run != run || (t in after && after[t] == |trace| + i)
    ensures SoleEnder(start, trace + steps, after, t, run)
  {
    forall i: nat | ConcludedBy(start, trace + steps, run, i)
      ensures (trace + steps)[i].RecoverCall? || (t in after && after[t] == i)
    {
      if i < |trace| {
        ConclusionIsOld(start, trace, steps, run, i);
      } else {
        assert (trace + steps)[i] == steps[i - |trace|];
      }
    }
  }

  lemma UndisturbedAdvanced(
    oracle: Oracle, start: Timestamp, trace: seq<Step>, ends: map<nat, nat>, claims: seq<JobRecord>, steps: seq<Step>)
    requires Undisturbed(oracle, start, trace, ends, claims)
    requires HandsOff(oracle, claims) ==> AllLeaveAlone(steps, claims)
    ensures Undisturbed(oracle, start, trace + steps, ends, claims)
  {
    forall t: nat
      ensures Guarded(oracle, start, trace + steps, ends, claims, t)
    {
      assert Guarded(oracle, start, trace, ends, claims, t);
      if HandsOff(oracle, claims) && t < |claims| {
        forall i | 0 <= i < |steps|
          ensures LeavesAlone(steps[i], claims)
        {
        }
        SoleEnderLonger(start, trace, steps, ends, ends, t, claims[t]);
      }
    }
  }

  lemma BalancedAdvanced(cfg: Config, oracle: Oracle, b: Books, open: set<nat>, steps: seq<Step>)
    requires Balanced(cfg, oracle, b, open)
    requires HandsOff(oracle, b.claims) ==> AllLeaveAlone(steps, b.claims)
    ensures Balanced(cfg, oracle, Advanced(b, steps), open)
  {
    OrderlyAdvanced(cfg, oracle, b, open, steps);
    UndisturbedAdvanced(oracle, b.start, b.trace, b.ends, b.claims, steps);
    WitnessedLonger(b.start, b.trace, b.trace + steps, b.attempts, b.moments);
  }

  /** Stop tracking a task in order to end it; `clean` if it joined with a result. */
  function Untracked(b: Books, task: nat, clean: bool): Books {
    b.(inflight := b.inflight - {task}, running := b.running - {task},
       joined := if clean then b.joined + {task} else b.joined)
  }

  lemma BalancedUntracked(cfg: Config, oracle: Oracle, b: Books, task: nat, clean: bool)
    requires Balanced(cfg, oracle, b, {}) && task in b.inflight && (clean ==> task in b.running)
    ensures task < |b.claims| && b.inflight[task] == Tracked(b.claims[task])
    ensures task in b.running ==> b.running[task] == b.claims[task]
    ensures Balanced(cfg, oracle, Untracked(b, task, clean), {task})
  {
    var after := Untracked(b, task, clean);
    assert TaskOk(cfg, oracle, b, {}, task);
    forall t: nat
      ensures TaskOk(cfg, oracle, after, {task}, t)
    {
      assert TaskOk(cfg, oracle, b, {}, t);
    }
  }

  /** An aborted task leaves the join set but stays tracked. */
  lemma BalancedAborted(cfg: Config, oracle: Oracle, b: Books, task: nat)
    requires Balanced(cfg, oracle, b, {}) && task in b.running && !oracle.finished(task)
    ensures Balanced(cfg, oracle, b.(running := b.running - {task}, aborted := b.aborted + {task}), {})
  {
    var after := b.(running := b.running - {task}, aborted := b.aborted + {task});
    assert TaskOk(cfg, oracle, b, {}, task);
    forall t: nat
      ensures TaskOk(cfg, oracle, after, {}, t)
    {
      assert TaskOk(cfg, oracle, b, {}, t);
    }
  }

  /** Give up on the task being ended. */
  lemma BalancedLost(cfg: Config, oracle: Oracle, b: Books, task: nat)
    requires Balanced(cfg, oracle, b, {task}) && task < |b.claims|
    ensures Balanced(cfg, oracle, b.(lost := b.lost + {task}), {})
  {
    var after := b.(lost := b.lost + {task});
    forall t: nat
      ensures TaskOk(cfg, oracle, after, {}, t)
    {
      assert TaskOk(cfg, oracle, b, {task}, t);
    }
  }

  lemma UndisturbedEnded(
    oracle: Oracle, start: Timestamp, trace: seq<Step>, ends: map<nat, nat>, claims: seq<JobRecord>, task: nat, step: Step)
    requires Undisturbed(oracle, start, trace, ends, claims)
    requires Apart(claims) && task < |claims| && task !in ends
    requires (step.SettleCall? || step.ReleaseCall?) && step.run == claims[task]
    ensures Undisturbed(oracle, start, trace + [step], ends[task := |trace|], claims)
  {
    var after, ended := trace + [step], ends[task := |trace|];
    forall t: nat
      ensures Guarded(oracle, start, after, ended, claims, t)
    {
      assert Guarded(oracle, start, trace, ends, claims, t);
      if HandsOff(oracle, claims) && t < |claims| {
        if t < task {
          assert OtherEpoch(claims[t], claims[task]);
        } else if task < t {
          assert OtherEpoch(claims[task], claims[t]);
        }
        SoleEnderLonger(start, trace, [step], ends, ended, t, claims[t]);
      }
    }
  }

  function EndedBy(b: Books, task: nat, step: Step, call: nat): Books {
    Advanced(b, [step]).(ends := b.ends[task := |b.trace|], endCalls := b.endCalls[task := call])
  }

  /** End a claim. Whether this write applies or someone else's did, the claim is over afterwards. */
  lemma OrderlyEnded(cfg: Config, oracle: Oracle, b: Books, task: nat, step: Step, call: nat)
    requires Orderly(cfg, oracle, b, {task}) && task < |b.claims|
    requires ProperEnd(cfg, oracle, b, task, b.claims[task], step, call) && !oracle.outage(call)
    ensures task !in b.ends
    ensures Orderly(cfg, oracle, EndedBy(b, task, step, call), {})
  {
    var now, after := Advanced(b, [step]), EndedBy(b, task, step, call);
    OrderlyAdvanced(cfg, oracle, b, {task}, [step]);
    assert TaskOk(cfg, oracle, now, {task}, task);
    EndConcludes(cfg, oracle, b, task, step);
    forall t: nat
      ensures TaskOk(cfg, oracle, after, {}, t)
    {
      assert TaskOk(cfg, oracle, now, {task}, t);
      if t == task {
        assert after.trace[after.ends[task]] == step;
        EndedTaskOk(cfg, oracle, now, task, step, call, |b.trace|);
      }
    }
  }

  lemma CountableClaim(cfg: Config, oracle: Oracle, b: Books, open: set<nat>, task: nat)
    requires Balanced(cfg, oracle, b, open) && task < |b.claims|
    ensures Countable(b.claims[task])
  {
    assert TaskOk(cfg, oracle, b, open, task);
  }

  lemma EndConcludes(cfg: Config, oracle: Oracle, b: Books, task: nat, step: Step)
    requires Orderly(cfg, oracle, b, {task}) && task < |b.claims|
    requires (step.SettleCall? || step.ReleaseCall?) && step.run == b.claims[task]
    ensures EpochOver(Exec(b.sys, [step]), b.claims[task].id, b.claims[task].runCount)
  {
    assert TaskOk(cfg, oracle, b, {task}, task);
    Reachable(b.start, b.trace);
    AttemptConcludes(b.sys, step);
    ExecOne(b.sys, step);
  }

  lemma EndedTaskOk(cfg: Config, oracle: Oracle, b: Books, task: nat, step: Step, call: nat, at: nat)
    requires TaskOk(cfg, oracle, b, {task}, task) && task < |b.claims| && at < |b.trace| && b.trace[at] == step
    requires ProperEnd(cfg, oracle, b, task, b.claims[task], step, call) && !oracle.outage(call)
    requires EpochOver(b.sys, b.claims[task].id, b.claims[task].runCount)
    ensures TaskOk(cfg, oracle, b.(ends := b.ends[task := at], endCalls := b.endCalls[task := call]), {}, task)
  {
  }

  lemma BalancedEnded(cfg: Config, oracle: Oracle, b: Books, task: nat, step: Step, call: nat)
    requires Balanced(cfg, oracle, b, {task}) && task < |b.claims|
    requires ProperEnd(cfg, oracle, b, task, b.claims[task], step, call) && !oracle.outage(call)
    ensures Balanced(cfg, oracle, EndedBy(b, task, step, call), {})
  {
    OrderlyEnded(cfg, oracle, b, task, step, call);
    UndisturbedEnded(oracle, b.start, b.trace, b.ends, b.claims, task, step);
    WitnessedLonger(b.start, b.trace, b.trace + [step], b.attempts, b.moments);
  }

  lemma ClaimStaysApart(cfg: Config, oracle: Oracle, b: Books, step: Step)
    requires Orderly(cfg, oracle, b, {}) && step.ClaimCall? && step.id in b.sys.db.jobs
    ensures Apart(b.claims + [ClaimedRow(b.sys.db.jobs[step.id], b.sys.now, step.lease, step.owner)])
  {
    var row := ClaimedRow(b.sys.db.jobs[step.id], b.sys.now, step.lease, step.owner);
    var claims := b.claims + [row];
    Reachable(b.start, b.trace);
    RowAt(b.sys.db, step.id);
    forall t, u | 0 <= t < u < |claims|
      ensures OtherEpoch(claims[t], claims[u])
    {
      if u < |b.claims| {
        assert OtherEpoch(b.claims[t], b.claims[u]);
      } else {
        assert TaskOk(cfg, oracle, b, {}, t);
        assert SnapshotOk(b.sys, b.claims[t]);
      }
    }
  }

  lemma ClaimIsCountable(start: Timestamp, trace: seq<Step>, id: Ulid)
    requires id in Exec(Init(start), trace).db.jobs
    requires Exec(Init(start), trace).db.jobs[id].runCount < I32_MAX || Exec(Init(start), trace).db.jobs[id].status.Claimed?
    ensures Countable(Exec(Init(start), trace).db.jobs[id])
  {
    NoLostFailure(start, trace, id);
    Reachable(start, trace);
    RowAt(Exec(Init(start), trace).db, id);
  }

  /** A claim hands out a record to a task yet to be spawned. */
  lemma OrderlyClaimed(cfg: Config, oracle: Oracle, b: Books, step: Step)
    requires Orderly(cfg, oracle, b, {}) && step.ClaimCall? && step.owner == cfg.owner
    requires ClaimTarget(b.sys.db, b.sys.now, step.kinds, step.floor, step.id)
    requires b.sys.db.jobs[step.id].runCount < I32_MAX
    ensures var row := ClaimedRow(b.sys.db.jobs[step.id], b.sys.now, step.lease, step.owner);
      Orderly(cfg, oracle, Advanced(b, [step]).(claims := b.claims + [row]), {|b.claims|})
  {
    var row := ClaimedRow(b.sys.db.jobs[step.id], b.sys.now, step.lease, step.owner);
    var now := Advanced(b, [step]);
    ClaimStaysApart(cfg, oracle, b, step);
    ClaimIsCountable(b.start, b.trace, step.id);
    ExecOne(b.sys, step);
    OrderlyAdvanced(cfg, oracle, b, {}, [step]);
    var after := now.(claims := b.claims + [row]);
    forall t: nat
      ensures TaskOk(cfg, oracle, after, {|b.claims|}, t)
    {
      assert TaskOk(cfg, oracle, now, {}, t);
    }
  }

  /** A claim about to be made has not been concluded yet. */
  lemma NotConcludedBefore(start: Timestamp, trace: seq<Step>, id: Ulid, run: JobRecord, i: nat)
    requires id in Exec(Init(start), trace).db.jobs && run.id == id
    requires run.runCount > Exec(Init(start), trace).db.jobs[id].runCount
    ensures !ConcludedBy(start, trace, run, i)
  {
    assert trace[..|trace|] == trace;
    if ConcludedBy(start, trace, run, i) {
      EpochOverFromConclusion(start, trace, i, |trace|, run.id, run.runCount);
    }
  }

  lemma FewerHandsOff(oracle: Oracle, claims: seq<JobRecord>, more: seq<JobRecord>)
    requires HandsOff(oracle, claims + more)
    ensures HandsOff(oracle, claims)
  {
    forall n
      ensures AllLeaveAlone(oracle.others(n), claims)
    {
      assert AllLeaveAlone(oracle.others(n), claims + more);
      forall i | 0 <= i < |oracle.others(n)|
        ensures LeavesAlone(oracle.others(n)[i], claims)
      {
        assert LeavesAlone(oracle.others(n)[i], claims + more);
      }
    }
  }

  lemma UndisturbedClaimed(
    oracle: Oracle, start: Timestamp, trace: seq<Step>, ends: map<nat, nat>, claims: seq<JobRecord>, row: JobRecord)
    requires Undisturbed(oracle, start, trace, ends, claims)
    requires SoleEnder(start, trace, ends, |claims|, row)
    ensures Undisturbed(oracle, start, trace, ends, claims + [row])
  {
    var after := claims + [row];
    forall t: nat
      ensures Guarded(oracle, start, trace, ends, after, t)
    {
      if HandsOff(oracle, after) && t < |claims| {
        FewerHandsOff(oracle, claims, [row]);
        assert Guarded(oracle, start, trace, ends, claims, t);
      }
    }
  }

  lemma BalancedClaimed(cfg: Config, oracle: Oracle, b: Books, step: Step)
    requires Balanced(cfg, oracle, b, {}) && step.ClaimCall? && step.owner == cfg.owner
    requires ClaimTarget(b.sys.db, b.sys.now, step.kinds, step.floor, step.id)
    requires b.sys.db.jobs[step.id].runCount < I32_MAX
    ensures |b.claims| !in b.joined + b.aborted
    ensures var row := ClaimedRow(b.sys.db.jobs[step.id], b.sys.now, step.lease, step.owner);
      Balanced(cfg, oracle, Advanced(b, [step]).(claims := b.claims + [row]), {|b.claims|})
  {
    var row := ClaimedRow(b.sys.db.jobs[step.id], b.sys.now, step.lease, step.owner);
    assert TaskOk(cfg, oracle, b, {}, |b.claims|);
    OrderlyClaimed(cfg, oracle, b, step);
    RowsKeyed(b.start, b.trace);
    forall i: nat
      ensures !ConcludedBy(b.start, b.trace, row, i)
    {
      NotConcludedBefore(b.start, b.trace, step.id, row, i);
    }
    UndisturbedClaimed(oracle, b.start, b.trace, b.ends, b.claims, row);
    UndisturbedAdvanced(oracle, b.start, b.trace, b.ends, b.claims + [row], [step]);
    WitnessedLonger(b.start, b.trace, b.trace + [step], b.attempts, b.moments);
  }

  function Spawned(b: Books, task: nat): Books
    requires task < |b.claims|
  {
    b.(inflight := b.inflight[task := Tracked(b.claims[task])], running := b.running[task := b.claims[task]])
  }

  lemma BalancedSpawned(cfg: Config, oracle: Oracle, b: Books, task: nat)
    requires Balanced(cfg, oracle, b, {task}) && task < |b.claims| && task !in b.joined + b.aborted
    ensures task !in b.running && task !in b.inflight
    ensures Balanced(cfg, oracle, Spawned(b, task), {})
  {
    assert TaskOk(cfg, oracle, b, {task}, task);
    forall t: nat
      ensures TaskOk(cfg, oracle, Spawned(b, task), {}, t)
    {
      assert TaskOk(cfg, oracle, b, {task}, t);
    }
  }

  /** Log an attempt made no earlier than the ones before it. */
  lemma BalancedAttempted(cfg: Config, oracle: Oracle, b: Books, open: set<nat>, a: Attempt, at: nat)
    requires Balanced(cfg, oracle, b, open) && LastOf(b.moments) <= at <= |b.trace|
    requires a.db == At(Init(b.start), b.trace, at).db && a.now == At(Init(b.start), b.trace, at).now
    ensures Balanced(cfg, oracle, b.(attempts := b.attempts + [a], moments := b.moments + [at]), open)
  {
    var after := b.(attempts := b.attempts + [a], moments := b.moments + [at]);
    forall t: nat
      ensures TaskOk(cfg, oracle, after, open, t)
    {
      assert TaskOk(cfg, oracle, b, open, t);
    }
    forall k: nat
      ensures Met(b.start, b.trace, after.attempts, after.moments, k)
    {
      LastIsPast(b.start, b.trace, b.attempts, b.moments);
      assert Met(b.start, b.trace, b.attempts, b.moments, k);
    }
  }

  lemma MomentsInOrder(
    start: Timestamp, trace: seq<Step>, attempts: seq<Attempt>, moments: seq<nat>, m: nat, u: nat)
    requires Witnessed(start, trace, attempts, moments) && m <= u < |attempts|
    ensures |attempts| == |moments| && moments[m] <= moments[u] <= |trace|
    decreases u
  {
    assert Met(start, trace, attempts, moments, u);
    if m < u {
      MomentsInOrder(start, trace, attempts, moments, m, u - 1);
    }
  }

  /** A job keeps its kind from one attempt to a later one. */
  lemma KindKept(
    start: Timestamp, trace: seq<Step>, attempts: seq<Attempt>, moments: seq<nat>, m: nat, u: nat, id: Ulid)
    requires Witnessed(start, trace, attempts, moments) && m <= u < |attempts|
    requires id in attempts[m].db.jobs && id in attempts[u].db.jobs
    ensures attempts[u].db.jobs[id].kind == attempts[m].db.jobs[id].kind
  {
    MomentsInOrder(start, trace, attempts, moments, m, u);
    assert Met(start, trace, attempts, moments, m) && Met(start, trace, attempts, moments, u);
    var i, j := moments[m], moments[u];
    AtLater(Init(start), trace, i, j);
    Reachable(start, trace[..i]);
    RunAdvances(At(Init(start), trace, i), trace[i..j]);
  }

  lemma RowsKeyed(start: Timestamp, trace: seq<Step>)
    ensures Keyed(Exec(Init(start), trace).db.jobs)
    ensures ValidTiers(Exec(Init(start), trace).db)
  {
    Reachable(start, trace);
    var db := Exec(Init(start), trace).db;
    forall id | id in db.jobs
      ensures db.jobs[id].id == id && ValidPriority(db.jobs[id].priority)
    {
      RowAt(db, id);
    }
  }

  // ------------------------------------------------------------ what a run achieves

  /** Task `t`'s claim was concluded exactly once in the run. The worker ended it: by a settlement with
      the handler's own report exactly if the task joined with a result, by a release exactly if it had
      to be aborted unfinished. And nobody else meddling, it was this end that concluded it, unless its
      lease had run out and it was recovered first. */
  ghost predicate EndedOnce(cfg: Config, oracle: Oracle, b: Books, t: nat)
    requires t < |b.claims|
  {
    && Ended(cfg, oracle, b, t)
    && (t in b.joined <==> b.trace[b.ends[t]].SettleCall?)
    && (t in b.aborted <==> b.trace[b.ends[t]].ReleaseCall?)
    && (t in b.aborted ==> !oracle.finished(t))
    && (exists i: nat :: ConcludedBy(b.start, b.trace, b.claims[t], i))
    && (forall i: nat, j: nat ::
          ConcludedBy(b.start, b.trace, b.claims[t], i) && ConcludedBy(b.start, b.trace, b.claims[t], j) ==> i == j)
    && (HandsOff(oracle, b.claims) ==>
          forall i: nat :: ConcludedBy(b.start, b.trace, b.claims[t], i) ==>
            i == b.ends[t] || b.trace[i].RecoverCall?)
  }

  /** When the worker's settlement is what concluded the claim, the job is left, and the journal written,
      just as the handler's execution asks: for the time the worker's clock read for that very call, a
      retry waiting the delay drawn for it. */
  lemma SettledTaskLands(cfg: Config, oracle: Oracle, b: Books, t: nat)
    requires Balanced(cfg, oracle, b, {}) && t in b.joined && t !in b.lost && t in b.ends
    requires t < |b.claims| ==> ConcludedBy(b.start, b.trace, b.claims[t], b.ends[t])
    ensures t < |b.claims| && t in b.endCalls && b.ends[t] < |b.trace|
    ensures TaskLanded(
      cfg, oracle, t, b.claims[t], oracle.clock(b.endCalls[t]), b.trace[b.ends[t]],
      At(Init(b.start), b.trace, b.ends[t]), At(Init(b.start), b.trace, b.ends[t] + 1))
  {
    assert TaskOk(cfg, oracle, b, {}, t);
    var i := b.ends[t];
    Reachable(b.start, b.trace[..i]);
    AtNext(Init(b.start), b.trace, i);
    SettlementTaskLands(cfg, oracle, t, oracle.clock(b.endCalls[t]), b.trace[i], At(Init(b.start), b.trace, i));
  }

  /** The step `settle`, from `s` to `after`, did with the task's job what its handler's execution asks. */
  ghost predicate TaskLanded(
    cfg: Config, oracle: Oracle, t: nat, run: JobRecord, at: Timestamp, settle: Step, s: Sys, after: Sys)
  {
    && settle.SettleCall? && OwnDelay(CurveOf(cfg, oracle, t), cfg.jitter, run, settle.delay)
    && run.id in after.db.jobs
    && HandlerLanded(run, oracle.behaviour(t), cfg.policy, cfg.backstop, at, settle.delay, after.db.jobs[run.id])
    && LastEntry(after.db, s.db.nextJournalId, run.id, run, at,
                 RecordedOutcome(run, oracle.behaviour(t), cfg.policy, cfg.backstop),
                 RecordedNote(oracle.behaviour(t)),
                 if oracle.behaviour(t).Returned? then oracle.behaviour(t).attachment else None)
  }

  lemma SettlementTaskLands(cfg: Config, oracle: Oracle, t: nat, at: Timestamp, settle: Step, s: Sys)
    requires Inv(s) && settle.SettleCall? && Concludes(s, settle, settle.run.id, settle.run.runCount)
    requires settle.at == at && settle.backstop == cfg.backstop
    requires settle.report == ReportOf(cfg, oracle, t, settle.run)
    requires OwnDelay(CurveOf(cfg, oracle, t), cfg.jitter, settle.run, settle.delay)
    ensures TaskLanded(cfg, oracle, t, settle.run, at, settle, s, Apply(s, settle))
  {
    HandlerLands(s, settle, settle.run.id, oracle.behaviour(t), cfg.policy);
    HandlerLogged(s, settle, settle.run.id, oracle.behaviour(t), cfg.policy);
  }

  /** A claim that is no longer tracked joined with a result, was aborted or was lost. */
  lemma UntrackedOtherwise(cfg: Config, oracle: Oracle, b: Books, t: nat)
    requires Balanced(cfg, oracle, b, {}) && t < |b.claims| && t !in b.inflight
    ensures t in b.joined || t in b.aborted || t in b.lost
  {
    assert TaskOk(cfg, oracle, b, {}, t);
  }

  /** Whatever becomes of storage, a claim whose task joined with a result is lost or was settled with
      that result. */
  lemma JoinedIsSettled(cfg: Config, oracle: Oracle, b: Books, t: nat)
    requires Balanced(cfg, oracle, b, {}) && t in b.joined
    ensures t < |b.claims|
    ensures t in b.lost || (Ended(cfg, oracle, b, t) && b.trace[b.ends[t]].SettleCall?)
  {
    assert TaskOk(cfg, oracle, b, {}, t);
  }

  /** A clean shutdown concludes everything. */
  lemma CleanShutdown(cfg: Config, oracle: Oracle, b: Books, t: nat)
    requires Balanced(cfg, oracle, b, {}) && b.inflight == map[] && b.lost == {}
    requires t < |b.claims|
    ensures EndedOnce(cfg, oracle, b, t)
  {
    assert TaskOk(cfg, oracle, b, {}, t);
    var i := OverMeansConcluded(b.start, b.trace, b.claims[t]);
    if HandsOff(oracle, b.claims) {
      assert Guarded(oracle, b.start, b.trace, b.ends, b.claims, t);
    }
  }
}
