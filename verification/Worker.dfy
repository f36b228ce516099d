/** The worker loop: filling slots under per-kind caps, reaping, draining and the forced finish, run
    against the shared database while everyone else's steps interleave arbitrarily with its calls. */
module Worker {
  import opened Records
  import opened StoreSteps
  import opened Protocol
  import opened Lifecycle
  import opened Routing
  import opened Scheduler
  import opened FakeStore
  import opened Words
  import opened Backoff
  import opened WorkerSlots
  import opened WorkerBooks
  import opened WorkerTurns

  class Loop {
    const cfg: Config
    const oracle: Oracle

    var sys: Sys
    var calls: nat
    var polls: nat
    var running: map<nat, JobRecord>
    var inflight: map<nat, Inflight>
    var byKind: map<string, nat>
    var claimCounter: nat
    var nextTask: nat

    ghost const start: Timestamp
    ghost var attempts: seq<Attempt>
    ghost var moments: seq<nat>
    ghost var trace: seq<Step>
    ghost var claims: seq<JobRecord>
    ghost var ends: map<nat, nat>
    ghost var endCalls: map<nat, nat>
    ghost var joined: set<nat>
    ghost var aborted: set<nat>
    ghost var lost: set<nat>

    ghost function Now(): Books
      reads this
    {
      Books(start, trace, sys, claims, inflight, running, ends, endCalls, joined, aborted, lost, attempts, moments)
    }

    /** The books balance, except for the tasks being ended right now. */
    ghost predicate BalancedBut(open: set<nat>)
      reads this
    {
      Balanced(cfg, oracle, Now(), open)
    }

    /** The attempts account for every claim and follow the rotation. */
    ghost predicate OnRotation()
      reads this
    {
      Rotation(cfg, oracle, claimCounter, attempts, claims)
    }

    /** The loop-head invariant: the books balance and the slots agree. */
    ghost predicate Valid()
      reads this
    {
      BalancedBut({}) && Slots(cfg, running, inflight, byKind) && nextTask == |claims|
    }

    constructor (cfg: Config, oracle: Oracle, start: Timestamp, past: seq<Step>)
      ensures Valid() && OnRotation() && claims == [] && joined == aborted == lost == {} && running == map[]
      ensures this.cfg == cfg && this.oracle == oracle && this.start == start && trace == past
    {
      this.cfg, this.oracle, this.start := cfg, oracle, start;
      trace, sys := past, Exec(Init(start), past);
      calls, polls, claimCounter, nextTask, attempts, moments := 0, 0, 0, 0, [], [];
      running, inflight, byKind := map[], map[], map[];
      claims, ends, endCalls, joined, aborted, lost := [], map[], map[], {}, {}, {};
    }

    /** Reach the store: others take their steps first, and the call may fail. */
    method Yield(ghost open: set<nat>) returns (up: bool)
      requires BalancedBut(open)
      modifies this`sys, this`trace, this`calls
      ensures BalancedBut(open)
      ensures Now() == Advanced(old(Now()), oracle.others(old(calls))) && calls == old(calls) + 1
      ensures up == !oracle.outage(old(calls))
    {
      assert HandsOff(oracle, claims) ==> AllLeaveAlone(oracle.others(calls), claims);
      BalancedAdvanced(cfg, oracle, Now(), open, oracle.others(calls));
      trace := trace + oracle.others(calls);
      sys := Exec(sys, oracle.others(calls));
      up := !oracle.outage(calls);
      calls := calls + 1;
    }

    /** Take a step of the worker's own that neither claims nor ends anything. */
    method Do(step: Step, ghost open: set<nat>)
      requires BalancedBut(open) && !step.SettleCall? && !step.ReleaseCall?
      modifies this`sys, this`trace
      ensures BalancedBut(open) && trace == old(trace) + [step] && sys == Apply(old(sys), step)
    {
      BalancedAdvanced(cfg, oracle, Now(), open, [step]);
      ExecOne(sys, step);
      sys := Apply(sys, step);
      trace := trace + [step];
    }

    // ------------------------------------------------------------ filling the slots

    /** Claim one row at or below a tier, whichever of the first in line the database picks. The call
        meets the state `met`, at moment `at` of the run. */
    method ClaimNext(kinds: seq<string>, floor: int)
      returns (r: Result<Option<JobRecord>, string>, ghost met: Sys, ghost at: nat)
      requires BalancedBut({})
      modifies this`sys, this`trace, this`calls, this`claims
      ensures Claims(old(claims), r, kinds) && MetAt(old(trace), met, at)
      ensures Answers(met, kinds, floor, r)
      ensures r == Ok(None) ==> met == sys
      ensures IdOf(r).Some? ==> LeasedTo(r.value.value, met.now)
      ensures r.Err? ==> met == sys && (oracle.outage(old(calls)) || Overflowing(met.db, met.now, kinds))
      ensures calls == old(calls) + 1
    {
      var up := Yield({});
      met, at := sys, |trace|;
      assert trace[..at] == trace;
      if !up {
        return Err("storage unavailable"), met, at;
      }
      RowsKeyed(start, trace);
      var best := SelectClaim(sys.db.jobs, sys.now, kinds, floor);
      if best.None? {
        return Ok(None), met, at;
      }
      ClaimChoiceUnique(sys.db, sys.now, kinds, floor, best, best);
      var pick := oracle.pick(calls);
      var id := if ClaimTarget(sys.db, sys.now, kinds, floor, pick) then pick else best.value;
      if sys.db.jobs[id].runCount >= I32_MAX {
        return Err("integer out of range"), met, at;
      }
      var row := TakeRow(kinds, floor, id);
      assert trace[..at] == old(trace) + oracle.others(old(calls));
      return Ok(Some(row)), met, at;
    }

    /** The call was made in this run, after `before`, and met this state. */
    ghost predicate MetAt(before: seq<Step>, met: Sys, at: nat)
      reads this
    {
      before <= trace && |before| <= at <= |trace| && met == At(Init(start), trace, at)
    }

    /** The record is this worker's, for its configured lease from `now` on. */
    predicate LeasedTo(row: JobRecord, now: Timestamp) {
      row.status.Claimed? && row.claimedBy == Some(cfg.owner) && row.claimExpiresAt == Some(AddDuration(now, cfg.lease))
    }

    /** The claim statement itself. */
    method TakeRow(kinds: seq<string>, floor: int, id: Ulid) returns (row: JobRecord)
      requires BalancedBut({}) && ClaimTarget(sys.db, sys.now, kinds, floor, id)
      requires sys.db.jobs[id].runCount < I32_MAX
      modifies this`sys, this`trace, this`claims
      ensures claims == old(claims) + [row] && BalancedBut({|old(claims)|}) && |old(claims)| !in joined + aborted
      ensures LeasedTo(row, old(sys).now)
      ensures row.id == id && row.kind in kinds && |trace| == |old(trace)| + 1 && old(trace) <= trace
    {
      var step := ClaimCall(kinds, floor, cfg.lease, cfg.owner, id);
      BalancedClaimed(cfg, oracle, Now(), step);
      ExecOne(sys, step);
      RowsKeyed(start, trace);
      row := ClaimedRow(sys.db.jobs[id], sys.now, cfg.lease, cfg.owner);
      sys := Apply(sys, step);
      trace := trace + [step];
      claims := claims + [row];
    }

    /** What a claim attempt may leave: one more claim, of a wanted kind and about to be spawned, or
        none. */
    ghost predicate Claims(before: seq<JobRecord>, r: Result<Option<JobRecord>, string>, kinds: seq<string>)
      reads this
    {
      match r
      case Ok(Some(job)) =>
        claims == before + [job] && BalancedBut({|before|}) && |before| !in joined + aborted && job.kind in kinds
      case Ok(None) => claims == before && BalancedBut({})
      case Err(_) => claims == before && BalancedBut({})
    }

    /** Claim at `floor`, and failing that without a floor. The first call meets `met`, and goes through if
        `ok`; the second, if there is one, meets `again`. */
    method ClaimWithFallback(kinds: seq<string>, floor: int)
      returns (r: Result<Option<JobRecord>, string>, ghost met: Sys, ghost again: Sys, ghost at: nat, ghost ok: bool)
      requires BalancedBut({})
      modifies this`sys, this`trace, this`calls, this`claims
      ensures Claims(old(claims), r, kinds) && MetAt(old(trace), met, at)
      ensures AnswersWithFallback(met, again, kinds, floor, r)
      ensures r == Ok(None) ==> again == sys && NothingReady(sys, kinds)
      ensures r.Err? ==> Failing(oracle, calls, sys, kinds)
      ensures MadeAt(oracle, Attempt(met.db, met.now, kinds, IdOf(r), old(calls), ok), floor)
    {
      r, met, at := ClaimNext(kinds, floor);
      again, ok := met, r.Ok?;
      ghost var first := trace;
      if r.Err? || r.value.Some? || floor == FLOOR_ALL {
        FloorAllAdmitsAll(start, trace, kinds);
        return r, met, again, at, ok;
      }
      ghost var later;
      r, again, later := ClaimNext(kinds, FLOOR_ALL);
      AtExtended(start, first, trace, at);
      FloorAllAdmitsAll(start, trace, kinds);
    }

    /** Turn the rotation by one, wrapping. */
    method NextFloor() returns (floor: int)
      requires claimCounter == |attempts| % TWO_64
      modifies this`claimCounter
      ensures claimCounter == (|attempts| + 1) % TWO_64
      ensures floor == FloorFor(CounterAt(0, |attempts|), cfg.ratio)
    {
      NextTurn(|attempts|);
      claimCounter := (claimCounter + 1) % TWO_64;
      floor := FloorFor(claimCounter, cfg.ratio);
    }

    /** Turn to the next floor, and so that the attempt to come keeps to the rotation. */
    method TakeTurn() returns (floor: int)
      requires OnRotation()
      modifies this`claimCounter
      ensures claimCounter == (|attempts| + 1) % TWO_64 && InTurn(cfg, oracle, attempts, floor)
    {
      floor := NextFloor();
      forall a: Attempt | Offers(cfg, a.kinds) && MadeAt(oracle, a, floor)
        ensures Rotating(cfg, oracle, attempts + [a])
      {
        RotationAdvances(cfg, oracle, attempts, a, floor);
      }
    }

    /** One attempt of the fill loop, at the next floor of the rotation. */
    method TryClaim(kinds: seq<string>) returns (r: Result<Option<JobRecord>, string>)
      requires BalancedBut({}) && OnRotation() && Offers(cfg, kinds)
      modifies this`sys, this`trace, this`calls, this`claims, this`claimCounter, this`attempts, this`moments
      ensures Claims(old(claims), r, kinds) && OnRotation() && old(trace) <= trace
      ensures |attempts| == |old(attempts)| + 1 && old(attempts) <= attempts
      ensures attempts[|old(attempts)|].kinds == kinds && attempts[|old(attempts)|].claimed == IdOf(r)
      ensures attempts[|old(attempts)|].call == old(calls)
      ensures r == Ok(None) ==> NothingReady(sys, kinds)
      ensures r.Err? ==> Failing(oracle, calls, sys, kinds)
    {
      LastIsPast(start, trace, attempts, moments);
      ghost var a, at;
      r, a, at := ClaimInTurn(kinds);
      LogAttempt(if IdOf(r).Some? then {|old(claims)|} else {}, a, at, old(claims));
    }

    /** Make the attempt, to be written down next. */
    method ClaimInTurn(kinds: seq<string>) returns (r: Result<Option<JobRecord>, string>, ghost a: Attempt, ghost at: nat)
      requires BalancedBut({}) && OnRotation() && Offers(cfg, kinds)
      modifies this`sys, this`trace, this`calls, this`claims, this`claimCounter
      ensures Claims(old(claims), r, kinds)
      ensures old(trace) <= trace && |old(trace)| <= at <= |trace|
      ensures a.db == At(Init(start), trace, at).db && a.now == At(Init(start), trace, at).now
      ensures a.kinds == kinds && a.claimed == IdOf(r) && a.call == old(calls) && Adds(old(claims), a, claims)
      ensures claimCounter == (|attempts| + 1) % TWO_64 && Rotating(cfg, oracle, attempts + [a])
      ensures r == Ok(None) ==> NothingReady(sys, kinds)
      ensures r.Err? ==> Failing(oracle, calls, sys, kinds)
    {
      var floor := TakeTurn();
      r, a, at := ClaimAt(kinds, floor);
      if IdOf(r).Some? {
        ClaimAdds(old(claims), a, r.value.value);
      }
    }

    method ClaimAt(kinds: seq<string>, floor: int)
      returns (r: Result<Option<JobRecord>, string>, ghost a: Attempt, ghost at: nat)
      requires BalancedBut({})
      modifies this`sys, this`trace, this`calls, this`claims
      ensures Claims(old(claims), r, kinds)
      ensures old(trace) <= trace && |old(trace)| <= at <= |trace|
      ensures a.db == At(Init(start), trace, at).db && a.now == At(Init(start), trace, at).now
      ensures a.kinds == kinds && a.claimed == IdOf(r) && a.call == old(calls) && MadeAt(oracle, a, floor)
      ensures r == Ok(None) ==> NothingReady(sys, kinds)
      ensures r.Err? ==> Failing(oracle, calls, sys, kinds)
    {
      ghost var met, again, ok;
      r, met, again, at, ok := ClaimWithFallback(kinds, floor);
      a := Attempt(met.db, met.now, kinds, IdOf(r), old(calls), ok);
    }

    /** Write an attempt down, with the claim it made if any. */
    ghost method LogAttempt(open: set<nat>, a: Attempt, at: nat, before: seq<JobRecord>)
      requires BalancedBut(open) && LastOf(moments) <= at <= |trace|
      requires a.db == At(Init(start), trace, at).db && a.now == At(Init(start), trace, at).now
      requires claimCounter == (|attempts| + 1) % TWO_64 && Rotating(cfg, oracle, attempts + [a])
      requires Taken(attempts) == Ids(before) && Adds(before, a, claims)
      modifies this`attempts, this`moments
      ensures BalancedBut(open) && OnRotation() && attempts == old(attempts) + [a]
    {
      BalancedAttempted(cfg, oracle, Now(), open, a, at);
      TakenAddUp(attempts, a, before, claims);
      attempts, moments := attempts + [a], moments + [at];
    }

    /** A task's own lease replaces the worker's default after the claim. */
    method ApplyTaskLease(job: JobRecord, ghost open: set<nat>)
      requires BalancedBut(open)
      modifies this`sys, this`trace, this`calls
      ensures BalancedBut(open) && old(trace) <= trace && LeaseSet(cfg, oracle, job, calls, trace)
    {
      var lease := oracle.leaseOf(job);
      if lease.None? || ClampLease(lease.value) == cfg.lease {
        return;
      }
      var up := Yield(open);
      if up {
        Do(ExtendCall(job, ClampLease(lease.value)), open);
      }
    }

    /** Track a claimed job and start its handler. */
    method Spawn(job: JobRecord)
      requires |claims| == nextTask + 1 && claims[nextTask] == job && BalancedBut({nextTask})
      requires nextTask !in joined + aborted
      requires Slots(cfg, running, inflight, byKind) && |running| < cfg.concurrency
      requires BelowCap(cfg.caps, byKind, job.kind)
      modifies this`running, this`inflight, this`byKind, this`nextTask
      ensures Valid() && |running| == |old(running)| + 1
    {
      ghost var b := Now();
      BalancedSpawned(cfg, oracle, b, nextTask);
      SlotsTaken(cfg, running, inflight, byKind, nextTask, job);
      byKind := byKind[job.kind := CountOf(byKind, job.kind) + 1];
      inflight := inflight[nextTask := Tracked(job)];
      running := running[nextTask := job];
      assert Now() == Spawned(b, nextTask);
      nextTask := nextTask + 1;
    }

    method Start(job: JobRecord)
      requires |claims| == nextTask + 1 && claims[nextTask] == job && BalancedBut({nextTask})
      requires nextTask !in joined + aborted
      requires Slots(cfg, running, inflight, byKind) && |running| < cfg.concurrency
      requires BelowCap(cfg.caps, byKind, job.kind)
      modifies this`sys, this`trace, this`calls, this`running, this`inflight, this`byKind, this`nextTask
      ensures claimCounter == old(claimCounter) && attempts == old(attempts) && claims == old(claims)
      ensures Valid() && old(trace) <= trace && LeaseSet(cfg, oracle, job, calls, trace)
      ensures |running| == |old(running)| + 1
    {
      ApplyTaskLease(job, {nextTask});
      Spawn(job);
    }

    /** Fill every free slot, one claimed row each, until shutdown, an error, or nothing claimable.
        Left to itself it stops only with every slot taken or no work for the kinds below their cap. */
    method Fill() returns (stop: bool, failed: bool)
      requires Valid() && OnRotation()
      modifies this`sys, this`trace, this`calls, this`polls, this`claims, this`claimCounter, this`attempts,
               this`moments, this`running, this`inflight, this`byKind, this`nextTask
      ensures Valid() && OnRotation() && old(trace) <= trace
      ensures Watched(oracle, old(polls), polls, stop)
      ensures |old(running)| < cfg.concurrency ==> old(polls) < polls
      ensures failed ==> Failing(oracle, calls, sys, cfg.kinds)
      ensures !stop && !failed ==> Filled(cfg, sys, running, byKind)
    {
      SlotsAgree(cfg, running, inflight, byKind);
      while |running| < cfg.concurrency
        invariant |running| <= cfg.concurrency
        invariant Valid() && OnRotation() && old(trace) <= trace
        invariant Watched(oracle, old(polls), polls, false)
        invariant polls == old(polls) + |running| - |old(running)|
        decreases cfg.concurrency - |running|
      {
        var filled;
        WatchedNext(oracle, old(polls), polls, oracle.cancelled(polls + 1));
        filled, stop, failed := FillNext();
        SlotsAgree(cfg, running, inflight, byKind);
        if !filled {
          return;
        }
      }
      return false, false;
    }

    /** Fill the next slot, unless shutdown is observed or no kind is below its cap. */
    method FillNext() returns (filled: bool, stop: bool, failed: bool)
      requires Valid() && OnRotation() && |running| < cfg.concurrency
      modifies this`sys, this`trace, this`calls, this`polls, this`claims, this`claimCounter, this`attempts,
               this`moments, this`running, this`inflight, this`byKind, this`nextTask
      ensures Valid() && OnRotation() && old(trace) <= trace
      ensures |running| == |old(running)| + (if filled then 1 else 0)
      ensures polls == old(polls) + 1 && stop == oracle.cancelled(polls) && (filled ==> !stop && !failed)
      ensures failed ==> Failing(oracle, calls, sys, cfg.kinds)
      ensures !filled && !stop && !failed ==> NothingReady(sys, Claimable(cfg.kinds, cfg.caps, byKind))
    {
      polls := polls + 1;
      if oracle.cancelled(polls) {
        return false, true, false;
      }
      var open := Claimable(cfg.kinds, cfg.caps, byKind);
      if open == [] {
        return false, false, false;
      }
      var r := FillOne(open);
      return IdOf(r).Some?, false, r.Err?;
    }

    /** Fill one slot: claim, apply the task's lease, start the handler. */
    method FillOne(open: seq<string>) returns (r: Result<Option<JobRecord>, string>)
      requires Valid() && OnRotation() && |running| < cfg.concurrency
      requires Offers(cfg, open) && forall k :: k in open ==> BelowCap(cfg.caps, byKind, k)
      modifies this`sys, this`trace, this`calls, this`claims, this`claimCounter, this`attempts, this`moments,
               this`running, this`inflight, this`byKind, this`nextTask
      ensures Valid() && OnRotation() && old(trace) <= trace
      ensures |running| == |old(running)| + (if IdOf(r).Some? then 1 else 0)
      ensures IdOf(r).Some? ==> LeaseSet(cfg, oracle, r.value.value, calls, trace)
      ensures r.Err? ==> Failing(oracle, calls, sys, open)
      ensures r == Ok(None) ==> byKind == old(byKind) && NothingReady(sys, open)
    {
      r := TryClaim(open);
      assert IdOf(r).Some? ==> BelowCap(cfg.caps, byKind, r.value.value.kind);
      Launch(r, old(claims), open);
    }

    /** Start the handler of the job an attempt claimed, if it claimed one. */
    method Launch(r: Result<Option<JobRecord>, string>, ghost before: seq<JobRecord>, ghost kinds: seq<string>)
      requires Claims(before, r, kinds) && |before| == nextTask
      requires Slots(cfg, running, inflight, byKind) && |running| < cfg.concurrency
      requires IdOf(r).Some? ==> BelowCap(cfg.caps, byKind, r.value.value.kind)
      modifies this`sys, this`trace, this`calls, this`running, this`inflight, this`byKind, this`nextTask
      ensures Valid() && old(trace) <= trace
      ensures claimCounter == old(claimCounter) && attempts == old(attempts) && claims == old(claims)
      ensures |running| == |old(running)| + (if IdOf(r).Some? then 1 else 0)
      ensures IdOf(r).None? ==> sys == old(sys) && byKind == old(byKind) && calls == old(calls)
      ensures IdOf(r).Some? ==> LeaseSet(cfg, oracle, r.value.value, calls, trace)
    {
      if IdOf(r).Some? {
        Start(r.value.value);
      }
    }

    // ------------------------------------------------------------ expired claims

    /** Re-pend the expired claims a scan reports. Unless the scan's own call fails, it reports what it
        should; each reported claim has a recovery made by a call of its own, and unless that fails its
        epoch is over afterwards, or its lease was renewed since the scan. */
    method RecoverStale() returns (ghost scan: nat, ghost via: map<JobRecord, nat>)
      requires BalancedBut({})
      modifies this`sys, this`trace, this`calls
      ensures BalancedBut({}) && old(trace) <= trace && old(calls) < calls
      ensures oracle.outage(old(calls)) || (Scanned(start, trace, scan, via.Keys) && |old(trace)| <= scan)
      ensures HandledBy(cfg, oracle, start, trace, scan, via, old(calls), calls)
    {
      var up := Yield({});
      scan, via := |trace|, map[];
      if !up {
        return;
      }
      var reported := Scan();
      ghost var scanned := trace;
      via := RecoverAll(reported, oracle.clock(calls), scan, old(calls));
      ScannedLonger(start, scanned, trace, scan, reported);
    }

    /** Scan for expired claims: the database reports all of them, or a full batch of its choice. */
    method Scan() returns (found: set<JobRecord>)
      requires BalancedBut({})
      modifies this`sys, this`trace
      ensures BalancedBut({}) && old(trace) <= trace && found <= sys.stale
      ensures Scanned(start, trace, |old(trace)|, found) && forall r :: r in found ==> Countable(r)
    {
      var batch := oracle.expired(calls);
      var ids := if FullScan(sys, StaleAmong(sys, batch)) then batch else sys.db.jobs.Keys;
      found := StaleAmong(sys, ids);
      FoundAreCountable(start, trace, ids);
      ScanIsRecorded(start, trace, ids);
      Do(FindStale(ids), {});
    }

    method RecoverAll(found: set<JobRecord>, now: Timestamp, ghost scan: nat, ghost from: nat)
      returns (ghost via: map<JobRecord, nat>)
      requires BalancedBut({}) && found <= sys.stale && scan <= |trace|
      requires from < calls && now == oracle.clock(from + 1) && forall r :: r in found ==> Countable(r)
      modifies this`sys, this`trace, this`calls
      ensures BalancedBut({}) && old(trace) <= trace && old(calls) <= calls
      ensures via.Keys == found && HandledBy(cfg, oracle, start, trace, scan, via, from, calls)
    {
      var todo := found;
      via := map[];
      while todo != {}
        invariant BalancedBut({}) && old(trace) <= trace && todo <= found <= sys.stale && old(calls) <= calls
        invariant via.Keys == found - todo && HandledBy(cfg, oracle, start, trace, scan, via, from, calls)
        decreases |todo|
      {
        var snapshot :| snapshot in todo;
        via := RecoverNext(snapshot, now, scan, from, via);
        todo := todo - {snapshot};
      }
    }

    method RecoverNext(snapshot: JobRecord, now: Timestamp, ghost scan: nat, ghost from: nat, ghost via: map<JobRecord, nat>)
      returns (ghost after: map<JobRecord, nat>)
      requires BalancedBut({}) && snapshot in sys.stale && scan <= |trace| && Countable(snapshot)
      requires from < calls && now == oracle.clock(from + 1) && snapshot !in via
      requires HandledBy(cfg, oracle, start, trace, scan, via, from, calls)
      modifies this`sys, this`trace, this`calls
      ensures BalancedBut({}) && old(trace) <= trace && old(calls) < calls && old(sys).stale <= sys.stale
      ensures after == via[snapshot := old(calls)] && HandledBy(cfg, oracle, start, trace, scan, after, from, calls)
    {
      RecoverOne(snapshot, now, scan);
      OneMoreHandled(cfg, oracle, start, old(trace), trace, scan, via, from, old(calls), snapshot);
      after := via[snapshot := old(calls)];
    }

    method RecoverOne(snapshot: JobRecord, now: Timestamp, ghost scan: nat)
      requires BalancedBut({}) && snapshot in sys.stale && scan <= |trace| && Countable(snapshot)
      modifies this`sys, this`trace, this`calls
      ensures BalancedBut({}) && old(trace) <= trace && old(sys).stale <= sys.stale
      ensures calls == old(calls) + 1 && RecoveredBy(cfg, oracle, now, start, trace, scan, snapshot, old(calls))
    {
      var up := Yield({});
      RunKeepsStale(old(sys), oracle.others(old(calls)));
      if up {
        var delay := DrawDelay(WorkerCurve(cfg), snapshot);
        var step := RecoveryStep(snapshot, now, delay);
        RecoveryHandles(cfg, now, start, trace, scan, step);
        Do(step, {});
      }
    }

    /** The recovery the worker attempts for an expired claim at this time. */
    method RecoveryStep(snapshot: JobRecord, now: Timestamp, delay: Duration) returns (step: Step)
      ensures step.RecoverCall? && step.snapshot == snapshot && step.at == now && step.delay == delay
    {
      step := RecoverCall(snapshot, now, delay);
    }

    // ------------------------------------------------------------- ending a claim

    /** End a claim, in call `call`, by a step that leads to `after`. */
    method Conclude(task: nat, ghost step: Step, ghost call: nat, after: Sys)
      requires BalancedBut({task}) && task < |claims| && !oracle.outage(call)
      requires ProperEnd(cfg, oracle, Now(), task, claims[task], step, call) && after == Apply(sys, step)
      modifies this`sys, this`trace, this`ends, this`endCalls
      ensures BalancedBut({}) && trace == old(trace) + [step]
      ensures ends == old(ends)[task := |old(trace)|] && endCalls == old(endCalls)[task := call]
    {
      ghost var b := Now();
      BalancedEnded(cfg, oracle, b, task, step, call);
      ExecOne(sys, step);
      ends, endCalls := ends[task := |trace|], endCalls[task := call];
      trace := trace + [step];
      sys := after;
      assert Now() == EndedBy(b, task, step, call);
    }

    /** The call that should have ended a claim failed. */
    ghost method LoseSight(task: nat)
      requires BalancedBut({task}) && task < |claims|
      modifies this`lost
      ensures BalancedBut({}) && lost == old(lost) + {task}
    {
      BalancedLost(cfg, oracle, Now(), task);
      lost := lost + {task};
    }

    /** The claim of `task` has been ended in call `call` by a settlement with its own report, written for
        the time the clock read for that call, which would schedule a retry after the delay drawn for it. */
    ghost predicate SettledWithReport(task: nat, job: JobRecord, call: nat)
      reads this
    {
      && task in ends && ends[task] < |trace| && task in endCalls && endCalls[task] == call
      && trace[ends[task]].SettleCall?
      && IsSettlement(task, job, oracle.clock(call), trace[ends[task]].delay, trace[ends[task]])
      && OwnDelay(CurveOf(cfg, oracle, task), cfg.jitter, job, trace[ends[task]].delay)
    }

    predicate IsSettlement(task: nat, job: JobRecord, at: Timestamp, delay: Duration, step: Step) {
      && step.SettleCall? && step.run == job && step.backstop == cfg.backstop && step.at == at
      && step.report == ErasedRun(job.carry, oracle.behaviour(task), cfg.policy) && step.delay == delay
    }

    /** Settle a finished run with its own report, unless the call fails. */
    method Settle(task: nat, job: JobRecord)
      requires BalancedBut({task}) && task < |claims| && claims[task] == job && task in joined
      modifies this`sys, this`trace, this`calls, this`ends, this`endCalls, this`lost
      ensures BalancedBut({}) && old(trace) <= trace
      ensures if oracle.outage(old(calls)) then lost == old(lost) + {task}
              else lost == old(lost) && SettledWithReport(task, job, old(calls))
      ensures calls == old(calls) + 1
    {
      CountableClaim(cfg, oracle, Now(), {task}, task);
      var delay := DrawDelay(CurveOf(cfg, oracle, task), job);
      var step := SettlementStep(task, job, oracle.clock(calls), delay);
      var up := Yield({task});
      if !up {
        LoseSight(task);
        return;
      }
      Conclude(task, step, old(calls), Apply(sys, step));
    }

    /** The settlement the worker makes for a finished run at this time, for a retry after this delay. */
    method SettlementStep(task: nat, job: JobRecord, now: Timestamp, delay: Duration) returns (step: Step)
      ensures IsSettlement(task, job, now, delay, step)
    {
      step := SettleCall(job, cfg.backstop, ReportOf(cfg, oracle, task, job), now, delay);
    }

    /** The delay a retry of the run waits on this curve. */
    method DrawDelay(curve: Curve, run: JobRecord) returns (delay: Duration)
      requires curve.Valid() && Countable(run)
      ensures OwnDelay(curve, cfg.jitter, run, delay)
    {
      delay := RetryDelay(curve, cfg.jitter, NextFailure(run), run.id);
    }

    /** What was tracked about a claim is enough to release it. */
    lemma TrackedSuffices(task: nat, job: Inflight, now: Timestamp)
      requires BalancedBut({task}) && task < |claims| && job == Tracked(claims[task])
      ensures Apply(sys, ReleaseCall(claims[task], now)) == Released(job, now)
    {
      assert TaskOk(cfg, oracle, Now(), {task}, task);
    }

    function Released(job: Inflight, now: Timestamp): Sys
      reads this
    {
      sys.(db := StoreSteps.Settle(sys.db, job.id, cfg.owner, job.runNo, Records.Release(now),
                                   ReleaseEntry(job.kind, job.runNo, now)).0)
    }

    /** Release a job abandoned by the forced finish, knowing only what was tracked about it. */
    method Release(task: nat, job: Inflight)
      requires BalancedBut({task}) && task < |claims| && job == Tracked(claims[task])
      requires task in aborted
      modifies this`sys, this`trace, this`calls, this`ends, this`endCalls, this`lost
      ensures BalancedBut({}) && old(trace) <= trace
      ensures if oracle.outage(old(calls)) then lost == old(lost) + {task}
              else lost == old(lost) && ReleasedAt(task, old(calls))
      ensures calls == old(calls) + 1
    {
      var now := oracle.clock(calls);
      var up := Yield({task});
      if !up {
        LoseSight(task);
        return;
      }
      ReleaseNow(task, job, now, old(calls));
    }

    /** The claim of `task` has been ended in call `call` by a release, for the time the clock read for
        that call. */
    ghost predicate ReleasedAt(task: nat, call: nat)
      reads this
    {
      && task in ends && ends[task] < |trace| && task in endCalls && endCalls[task] == call
      && trace[ends[task]].ReleaseCall? && trace[ends[task]].at == oracle.clock(call)
    }

    method ReleaseNow(task: nat, job: Inflight, now: Timestamp, ghost call: nat)
      requires BalancedBut({task}) && task < |claims| && job == Tracked(claims[task]) && task in aborted
      requires !oracle.outage(call) && now == oracle.clock(call)
      modifies this`sys, this`trace, this`ends, this`endCalls
      ensures BalancedBut({}) && old(trace) <= trace
      ensures ReleasedAt(task, call)
    {
      TrackedSuffices(task, job, now);
      Conclude(task, ReleaseCall(claims[task], now), call, Released(job, now));
    }

    /** Drop a task's tracking and its slot. */
    method Untrack(task: nat, ghost clean: bool) returns (job: JobRecord)
      requires Valid() && task in running
      modifies this`running, this`inflight, this`byKind, this`joined
      ensures BalancedBut({task}) && Slots(cfg, running, inflight, byKind)
      ensures running == old(running) - {task} && joined == if clean then old(joined) + {task} else old(joined)
      ensures task < |claims| && claims[task] == job
    {
      job := running[task];
      SlotsReleased(cfg, running, inflight, byKind, task);
      BalancedUntracked(cfg, oracle, Now(), task, clean);
      byKind := ReleaseSlot(byKind, inflight[task].kind);
      inflight := inflight - {task};
      running := running - {task};
      joined := if clean then joined + {task} else joined;
    }

    /** A task has joined: forget it and free its slot, then settle what it returned. If it returned
        nothing, its claim is left for its lease to run out. */
    method Reap(task: nat, clean: bool)
      requires Valid() && task in running
      modifies this`sys, this`trace, this`calls, this`running, this`inflight, this`byKind, this`ends, this`endCalls,
               this`joined, this`lost
      ensures Valid() && running == old(running) - {task}
      ensures old(trace) <= trace && joined == if clean then old(joined) + {task} else old(joined)
      ensures calls == old(calls) + (if clean then 1 else 0)
      ensures clean && !oracle.outage(old(calls)) ==> lost == old(lost)
    {
      if clean {
        ReapResult(task);
      } else {
        ReapError(task);
      }
    }

    method ReapResult(task: nat)
      requires Valid() && task in running
      modifies this`sys, this`trace, this`calls, this`running, this`inflight, this`byKind, this`ends, this`endCalls,
               this`joined, this`lost
      ensures Valid() && running == old(running) - {task}
      ensures old(trace) <= trace && joined == old(joined) + {task} && calls == old(calls) + 1
      ensures !oracle.outage(old(calls)) ==> lost == old(lost)
    {
      var job := Untrack(task, true);
      EndJoined(task, job);
    }

    method EndJoined(task: nat, job: JobRecord)
      requires BalancedBut({task}) && Slots(cfg, running, inflight, byKind) && nextTask == |claims|
      requires task < |claims| && claims[task] == job && task in joined
      modifies this`sys, this`trace, this`calls, this`ends, this`endCalls, this`lost
      ensures Valid() && old(trace) <= trace && calls == old(calls) + 1
      ensures !oracle.outage(old(calls)) ==> lost == old(lost)
    {
      Settle(task, job);
    }

    method ReapError(task: nat)
      requires Valid() && task in running
      modifies this`running, this`inflight, this`byKind, this`joined, this`lost
      ensures Valid() && running == old(running) - {task} && joined == old(joined)
    {
      var job := Untrack(task, false);
      LoseSight(task);
    }

    // ------------------------------------------------------------------- shutdown

    /** Reap what joins before the deadline, then finish by force. */
    method Drain(joins: seq<Wake>)
      requires Valid()
      modifies this`sys, this`trace, this`calls, this`running, this`inflight, this`byKind, this`ends, this`endCalls,
               this`joined, this`aborted, this`lost
      ensures claimCounter == old(claimCounter) && attempts == old(attempts) && claims == old(claims)
      ensures BalancedBut({}) && running == map[] && inflight == map[] && old(trace) <= trace
      ensures old(joined) <= joined && aborted <= old(aborted) + old(running).Keys
      ensures Explained(oracle, joined, old(joined), joins)
      ensures AllClean(joins) ==> AllReaped(joins, old(running).Keys, joined)
      ensures old(calls) <= calls && (Up(oracle, old(calls), calls) && AllClean(joins) ==> lost == old(lost))
    {
      ReapAll(joins);
      ReapingDone(oracle, joins, old(running).Keys, old(joined), running.Keys, joined);
      ghost var reaped := joined;
      SlotsAgree(cfg, running, inflight, byKind);
      ForceFinish();
      ExplainedByAbort(oracle, joins, old(joined), reaped, joined);
    }

    method ReapAll(joins: seq<Wake>)
      requires Valid()
      modifies this`sys, this`trace, this`calls, this`running, this`inflight, this`byKind, this`ends, this`endCalls,
               this`joined, this`lost
      ensures Valid() && old(trace) <= trace
      ensures Reaping(oracle, joins, |joins|, old(running).Keys, old(joined), running.Keys, joined)
      ensures old(calls) <= calls && (Up(oracle, old(calls), calls) && AllClean(joins) ==> lost == old(lost))
    {
      for i := 0 to |joins|
        invariant Valid() && old(trace) <= trace && old(calls) <= calls
        invariant Up(oracle, old(calls), calls) && AllClean(joins) ==> lost == old(lost)
        invariant Reaping(oracle, joins, i, old(running).Keys, old(joined), running.Keys, joined)
      {
        ReapingNext(oracle, joins, i, old(running).Keys, old(joined), running, joined);
        HandleWake(joins[i]);
      }
    }

    /** Abort what is left: a handler that had finished all the same is settled, the others are
        released. */
    method ForceFinish()
      requires BalancedBut({}) && running.Keys == inflight.Keys
      modifies this`sys, this`trace, this`calls, this`running, this`inflight, this`ends, this`endCalls, this`joined,
               this`aborted, this`lost
      ensures BalancedBut({}) && running == map[] && inflight == map[] && old(trace) <= trace
      ensures old(calls) <= calls && (Up(oracle, old(calls), calls) ==> lost == old(lost))
      ensures aborted <= old(aborted) + old(running).Keys
      ensures old(joined) <= joined && Explained(oracle, joined, old(joined), [])
    {
      JoinAll();
      ReleaseAll();
    }

    method JoinAll()
      requires BalancedBut({}) && running.Keys == inflight.Keys
      modifies this`sys, this`trace, this`calls, this`running, this`inflight, this`ends, this`endCalls, this`joined,
               this`aborted, this`lost
      ensures BalancedBut({}) && running == map[] && old(trace) <= trace
      ensures old(calls) <= calls && (Up(oracle, old(calls), calls) ==> lost == old(lost))
      ensures Aborting(oracle, old(running).Keys, old(joined), old(aborted), {}, inflight.Keys, joined, aborted)
    {
      while running != map[]
        invariant BalancedBut({}) && old(trace) <= trace
        invariant old(calls) <= calls && (Up(oracle, old(calls), calls) ==> lost == old(lost))
        invariant Aborting(oracle, old(running).Keys, old(joined), old(aborted),
                           running.Keys, inflight.Keys, joined, aborted)
        decreases running.Keys
      {
        var task :| task in running;
        AbortingNext(oracle, old(running).Keys, old(joined), old(aborted),
                     running.Keys, inflight.Keys, joined, aborted, task);
        JoinAborted(task, running[task]);
      }
    }

    /** A task joins after the abort: with its result if it had finished, cancelled otherwise. */
    method JoinAborted(task: nat, job: JobRecord)
      requires BalancedBut({}) && task in running && task in inflight && running[task] == job
      modifies this`sys, this`trace, this`calls, this`running, this`inflight, this`ends, this`endCalls, this`joined,
               this`aborted, this`lost
      ensures BalancedBut({}) && old(trace) <= trace && running == old(running) - {task}
      ensures if oracle.finished(task)
              then inflight == old(inflight) - {task} && aborted == old(aborted) && joined == old(joined) + {task}
              else inflight == old(inflight) && aborted == old(aborted) + {task} && joined == old(joined)
      ensures old(calls) <= calls && (Up(oracle, old(calls), calls) ==> lost == old(lost))
    {
      if oracle.finished(task) {
        BalancedUntracked(cfg, oracle, Now(), task, true);
        running, inflight, joined := running - {task}, inflight - {task}, joined + {task};
        Settle(task, job);
      } else {
        BalancedAborted(cfg, oracle, Now(), task);
        running, aborted := running - {task}, aborted + {task};
      }
    }

    method ReleaseAll()
      requires BalancedBut({}) && running == map[] && OnlyAbortedLeft(aborted, {}, inflight.Keys)
      modifies this`sys, this`trace, this`calls, this`inflight, this`ends, this`endCalls, this`lost
      ensures BalancedBut({}) && inflight == map[] && old(trace) <= trace
      ensures old(calls) <= calls && (Up(oracle, old(calls), calls) ==> lost == old(lost))
    {
      while inflight != map[]
        invariant BalancedBut({}) && old(trace) <= trace
        invariant old(calls) <= calls && (Up(oracle, old(calls), calls) ==> lost == old(lost))
        invariant OnlyAbortedLeft(aborted, {}, inflight.Keys)
        decreases inflight.Keys
      {
        var task :| task in inflight;
        var job := inflight[task];
        BalancedUntracked(cfg, oracle, Now(), task, false);
        assert running - {task} == running;
        inflight := inflight - {task};
        Release(task, job);
      }
    }

    method HandleWake(wake: Wake)
      requires Valid()
      modifies this`sys, this`trace, this`calls, this`running, this`inflight, this`byKind, this`ends, this`endCalls,
               this`joined, this`lost
      ensures claimCounter == old(claimCounter) && attempts == old(attempts) && claims == old(claims)
      ensures Valid() && old(trace) <= trace
      ensures running == AfterWake(wake, old(running))
      ensures joined == if Reaps(wake, old(running)) then old(joined) + {wake.task} else old(joined)
      ensures old(calls) <= calls <= old(calls) + 1
      ensures CleanJoin(wake) && !oracle.outage(old(calls)) ==> lost == old(lost)
      ensures CleanJoin(wake) && Up(oracle, old(calls), calls) ==> lost == old(lost)
    {
      if wake.Joined? && wake.task in running {
        Reap(wake.task, wake.clean);
      }
    }

    /** Recover what others abandoned, then fill the slots. */
    method Refill() returns (stop: bool, ghost turn: Turn)
      requires Valid() && OnRotation()
      modifies this`sys, this`trace, this`calls, this`polls, this`claims, this`claimCounter, this`attempts,
               this`moments, this`running, this`inflight, this`byKind, this`nextTask
      ensures Valid() && OnRotation() && old(trace) <= trace
      ensures TurnOk(cfg, oracle, turn) && turn.stop == stop && turn.calls == calls
      ensures turn.books == Now() && turn.byKind == byKind
    {
      ghost var scan, via := RecoverStale();
      ghost var before, first, upto := trace, polls, calls;
      var failed;
      stop, failed := Fill();
      turn := Turn(Now(), byKind, old(calls), scan, via, upto, first, polls, calls, stop, failed);
      TurnRecovered(turn, before);
    }

    /** What the turn's recoveries did still holds after its filling. */
    lemma TurnRecovered(turn: Turn, before: seq<Step>)
      requires oracle.outage(turn.call) || Scanned(turn.books.start, before, turn.scan, turn.via.Keys)
      requires HandledBy(cfg, oracle, turn.books.start, before, turn.scan, turn.via, turn.call, turn.upto)
      requires before <= turn.books.trace
      ensures oracle.outage(turn.call) || Scanned(turn.books.start, turn.books.trace, turn.scan, turn.via.Keys)
      ensures HandledBy(cfg, oracle, turn.books.start, turn.books.trace, turn.scan, turn.via, turn.call, turn.upto)
    {
      if !oracle.outage(turn.call) {
        ScannedLonger(turn.books.start, before, turn.books.trace, turn.scan, turn.via.Keys);
      }
      HandledByLonger(
        cfg, oracle, turn.books.start, before, turn.books.trace, turn.scan, turn.via, turn.call, turn.upto);
    }

    /** One turn of the loop: refill, then wait, and take in what joined. */
    method Iterate(wake: Wake) returns (stop: bool, ghost turn: Turn)
      requires Valid() && OnRotation()
      modifies this`sys, this`trace, this`calls, this`polls, this`claims, this`claimCounter, this`attempts,
               this`moments, this`running, this`inflight, this`byKind, this`nextTask, this`ends, this`endCalls, this`joined, this`lost
      ensures Valid() && OnRotation() && old(trace) <= turn.books.trace <= trace
      ensures TurnOk(cfg, oracle, turn)
      ensures stop == (wake.Shutdown? || turn.stop)
      ensures running == if stop then turn.books.running else AfterWake(wake, turn.books.running)
      ensures joined == if !stop && Reaps(wake, turn.books.running) then old(joined) + {wake.task} else old(joined)
      ensures CleanJoin(wake) && UpNext(oracle, turn) ==> lost == old(lost)
    {
      stop, turn := Refill();
      if stop || wake.Shutdown? {
        return true, turn;
      }
      HandleWake(wake);
    }

    /** The whole life of a worker, for any waits and any joins during the drain. It turns once per
        wait until shutdown, and every turn does its work; `left` are the tasks still running when the
        drain began. When it returns nothing is running or tracked. A task that joined with a result,
        before the drain or during it, is one of `joined`, and those are settled; nobody else is, but
        tasks found finished when they were aborted. Every claim has been ended or lost sight of; and if
        the calls that settle what joined after a turn and those of the drain go through, and no task
        ends in a join error, none is lost. */
    method Run(waits: seq<Wake>, joins: seq<Wake>)
      returns (ghost turns: seq<Turn>, ghost left: set<nat>, ghost drain: nat)
      requires Valid() && OnRotation() && running == map[] && joined == aborted == lost == {}
      modifies this
      ensures BalancedBut({}) && OnRotation() && running == map[] && inflight == map[]
      ensures cfg.kinds != [] ==> Lasted(waits, turns)
      ensures TurnsOk(cfg, oracle, turns, trace) && TurnsReap(turns, waits, joined)
      ensures AllClean(joins) ==> AllReaped(joins, left, joined)
      ensures aborted <= left && NoneMissing() && AllExplained(oracle, waits, joins, joined) && JoinedSettled()
      ensures UpAfter(oracle, turns) && Up(oracle, drain, calls) && AllClean(waits) && AllClean(joins) ==>
        lost == {} && AllEnded()
    {
      turns, left, drain := [], {}, 0;
      SlotsAgree(cfg, running, inflight, byKind);
      assert inflight.Keys == {};
      if cfg.kinds != [] {
        turns, left, drain := Work(waits, joins);
      }
      Conclusions();
    }

    /** The life of a worker that has kinds to claim. */
    method Work(waits: seq<Wake>, joins: seq<Wake>)
      returns (ghost turns: seq<Turn>, ghost left: set<nat>, ghost drain: nat)
      requires Valid() && OnRotation() && joined == aborted == {}
      modifies this
      ensures BalancedBut({}) && OnRotation() && running == map[] && inflight == map[]
      ensures Lasted(waits, turns)
      ensures TurnsOk(cfg, oracle, turns, trace) && TurnsReap(turns, waits, joined)
      ensures AllClean(joins) ==> AllReaped(joins, left, joined)
      ensures aborted <= left && AllExplained(oracle, waits, joins, joined)
      ensures drain <= calls
      ensures UpAfter(oracle, turns) && Up(oracle, drain, calls) && AllClean(waits) && AllClean(joins) ==>
        lost == old(lost)
    {
      turns := Turns(waits);
      ghost var before, reaped := trace, joined;
      left, drain := running.Keys, calls;
      Drain(joins);
      TurnsOkLonger(cfg, oracle, turns, before, trace);
      TurnsReapLonger(turns, waits, reaped, joined);
      ExplainedInTurn(oracle, waits, joins, reaped, joined);
    }

    /** Turn once per wait, until shutdown. */
    method Turns(waits: seq<Wake>) returns (ghost turns: seq<Turn>)
      requires Valid() && OnRotation()
      modifies this`sys, this`trace, this`calls, this`polls, this`claims, this`claimCounter, this`attempts,
               this`moments, this`running, this`inflight, this`byKind, this`nextTask, this`ends, this`endCalls, this`joined, this`lost
      ensures Valid() && OnRotation() && Lasted(waits, turns)
      ensures Turned(cfg, oracle, turns, waits, trace, old(joined), joined, old(lost), lost)
    {
      turns := [];
      for i := 0 to |waits|
        invariant Valid() && OnRotation() && |turns| == i
        invariant Turned(cfg, oracle, turns, waits, trace, old(joined), joined, old(lost), lost)
      {
        var stop;
        stop, turns := TurnOnce(waits, i, turns, old(joined), old(lost));
        if stop {
          return;
        }
      }
    }

    /** The `i`-th turn, after the `turns` before it. */
    method TurnOnce(waits: seq<Wake>, i: nat, ghost turns: seq<Turn>, ghost joined0: set<nat>, ghost lost0: set<nat>)
      returns (stop: bool, ghost after: seq<Turn>)
      requires Valid() && OnRotation() && i == |turns| < |waits|
      requires Turned(cfg, oracle, turns, waits, trace, joined0, joined, lost0, lost)
      modifies this`sys, this`trace, this`calls, this`polls, this`claims, this`claimCounter, this`attempts,
               this`moments, this`running, this`inflight, this`byKind, this`nextTask, this`ends, this`endCalls, this`joined, this`lost
      ensures Valid() && OnRotation()
      ensures Turned(cfg, oracle, after, waits, trace, joined0, joined, lost0, lost)
      ensures |after| == i + 1 && stop == (waits[i].Shutdown? || after[i].stop)
    {
      ghost var before, reaped, missed := trace, joined, lost;
      ghost var turn;
      stop, turn := Iterate(waits[i]);
      TurnedOnce(cfg, oracle, turns, waits, before, joined0, reaped, lost0, missed, turn, stop, trace, joined, lost);
      after := turns + [turn];
    }

    /** Every task joined with a result, was aborted, or was lost sight of. */
    ghost predicate NoneMissing()
      reads this
    {
      forall t: nat :: t < |claims| ==> t in joined || t in aborted || t in lost
    }

    /** The claim of task `t` is lost, or was ended by a settlement with the handler's own report. */
    ghost predicate LostOrSettled(t: nat)
      reads this
    {
      t < |claims| && (t in lost || (Ended(cfg, oracle, Now(), t) && trace[ends[t]].SettleCall?))
    }

    ghost predicate JoinedSettled()
      reads this
    {
      forall t {:trigger LostOrSettled(t)} :: t in joined ==> LostOrSettled(t)
    }

    /** Every claim this worker made has exactly one conclusion, and a proper one. */
    ghost predicate AllEnded()
      reads this
    {
      forall t {:trigger EndedOnce(cfg, oracle, Now(), t)} :: 0 <= t < |claims| ==> EndedOnce(cfg, oracle, Now(), t)
    }

    // -------------------------------------------------------------- bounded waiting

    /** Kinds do not change in the course of a run. */
    lemma KindMet(m: nat, u: nat, target: Ulid)
      requires BalancedBut({}) && m <= u < |attempts|
      requires target in attempts[m].db.jobs && target in attempts[u].db.jobs
      ensures attempts[u].db.jobs[target].kind == attempts[m].db.jobs[target].kind
    {
      KindKept(start, trace, attempts, moments, m, u, target);
    }

    /** The worker serves the lower tiers in bounded time. From any of its attempts on, a due job of tier
        Low (Normal) and a registered kind, holding its place with k due jobs of its tier and of the
        registered kinds ahead of it in the states the attempts meet, is taken within (k+f+1) windows if
        f of the attempts in them fail: it is one of this worker's claims, the one that attempt made.
        If the kind is capped, it has to be below its cap. */
    lemma ServesLowerTiers(m: nat, n: nat, r: nat, target: Ulid, tier: int, k: nat, f: nat) returns (t: nat, c: nat)
      requires BalancedBut({}) && OnRotation() && cfg.ratio == Some(r) && Ratio(r) && LowerTier(tier)
      requires m < n <= |attempts| && n - m >= (k + f + 1) * Window(r, tier) && Failures(attempts[m..n]) <= f
      requires target in attempts[m].db.jobs && |Ahead(attempts[m], cfg.kinds, target, tier)| <= k
      requires attempts[m].db.jobs[target].kind in cfg.kinds
      requires forall u: nat :: u < n - m ==> HoldsPlace(attempts[m..n], cfg.kinds, target, tier, u)
      requires attempts[m].db.jobs[target].kind in cfg.caps ==>
        forall a :: a in attempts[m..n] ==> attempts[m].db.jobs[target].kind in a.kinds
      ensures m <= t < m + (k + f + 1) * Window(r, tier) && t < |attempts| && attempts[t].claimed == Some(target)
      ensures c == |Taken(attempts[..t])| && c < |claims|
      ensures claims[c].id == target && claims[c].claimedBy == Some(cfg.owner) && claims[c] in sys.runs
    {
      forall u: nat | u < n - m
        ensures KeepsLine(attempts[m..n], cfg.kinds, target, tier, u)
      {
        PlaceKept(m, n, u, target, tier);
      }
      t := AttemptsServe(cfg, oracle, attempts, m, n, r, target, tier, k, f);
      c := |Taken(attempts[..t])|;
      TakenAt(attempts, t);
      assert TaskOk(cfg, oracle, Now(), {}, c);
    }

    /** An attempt fails only by an outage of its own call, or by an exhausted run count. */
    lemma FailuresHaveCauses(t: nat)
      requires OnRotation() && t < |attempts| && !attempts[t].ok
      ensures var a := attempts[t]; oracle.outage(a.call) || Overflowing(a.db, a.now, a.kinds)
    {
      assert AttemptOk(cfg, oracle, t, attempts[t]);
    }

    lemma PlaceKept(m: nat, n: nat, u: nat, target: Ulid, tier: int)
      requires BalancedBut({}) && OnRotation() && m < n <= |attempts| && u < n - m
      requires target in attempts[m].db.jobs && attempts[m].db.jobs[target].kind in cfg.kinds
      requires HoldsPlace(attempts[m..n], cfg.kinds, target, tier, u)
      requires attempts[m].db.jobs[target].kind in cfg.caps ==>
        attempts[m].db.jobs[target].kind in attempts[m..n][u].kinds
      ensures KeepsLine(attempts[m..n], cfg.kinds, target, tier, u)
    {
      assert attempts[m..n][u] == attempts[m + u];
      assert AttemptOk(cfg, oracle, m + u, attempts[m + u]);
      if target in attempts[m + u].db.jobs {
        KindMet(m, m + u, target);
      }
      OfferedPlaceIsKept(attempts[m..n], cfg.kinds, target, tier, u);
    }

    lemma Conclusions()
      requires BalancedBut({}) && inflight == map[]
      ensures JoinedSettled() && NoneMissing() && (lost == {} ==> AllEnded())
    {
      forall t: nat | t < |claims|
        ensures t in joined || t in aborted || t in lost
      {
        UntrackedOtherwise(cfg, oracle, Now(), t);
      }
      forall t | t in joined
        ensures LostOrSettled(t)
      {
        JoinedIsSettled(cfg, oracle, Now(), t);
      }
      if lost == {} {
        forall t | 0 <= t < |claims|
          ensures EndedOnce(cfg, oracle, Now(), t)
        {
          CleanShutdown(cfg, oracle, Now(), t);
        }
      }
    }
  }
}
