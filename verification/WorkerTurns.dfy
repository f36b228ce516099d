/** What the turns of a worker's loop amount to: claim attempts along the rotation, expired claims dealt
    with, slots filled. */
module WorkerTurns {
  import opened Records
  import opened StoreSteps
  import opened Protocol
  import opened Invariant
  import opened Lifecycle
  import opened Scheduler
  import opened Words
  import opened Backoff
  import opened WorkerSlots
  import opened WorkerBooks

  // ---------------------------------------------------------------- claim attempts

  /** There is no row of these kinds to claim at or below the tier. */
  predicate NothingEligible(s: Sys, kinds: seq<string>, floor: int) {
    forall id :: id in s.db.jobs ==> !Eligible(s.db.jobs[id], s.now, kinds, floor)
  }

  /** Pending and visible, of one of these kinds, at whatever tier. */
  predicate Ready(j: JobRecord, now: Timestamp, kinds: seq<string>) {
    j.status.Pending? && j.visibleAt <= now && j.kind in kinds
  }

  predicate NothingReady(s: Sys, kinds: seq<string>) {
    forall id :: id in s.db.jobs ==> !Ready(s.db.jobs[id], s.now, kinds)
  }

  /** Some row that could be claimed has been run as often as the run count can say. */
  predicate Overflowing(db: Db, now: Timestamp, kinds: seq<string>) {
    exists id :: id in db.jobs && Ready(db.jobs[id], now, kinds) && db.jobs[id].runCount >= I32_MAX
  }

  /** The lowest floor admits every tier. */
  lemma FloorAllAdmitsAll(start: Timestamp, trace: seq<Step>, kinds: seq<string>)
    ensures var s := Exec(Init(start), trace); NothingEligible(s, kinds, FLOOR_ALL) <==> NothingReady(s, kinds)
  {
    RowsKeyed(start, trace);
    var s := Exec(Init(start), trace);
    if NothingEligible(s, kinds, FLOOR_ALL) {
      forall id | id in s.db.jobs
        ensures !Ready(s.db.jobs[id], s.now, kinds)
      {
        assert !Eligible(s.db.jobs[id], s.now, kinds, FLOOR_ALL) && ValidPriority(s.db.jobs[id].priority);
      }
    }
  }

  /** What one claim call may answer in the state it met: nothing exactly when nothing is eligible at
      the floor, otherwise a row that is, with none before it. */
  predicate Answers(met: Sys, kinds: seq<string>, floor: int, r: Result<Option<JobRecord>, string>) {
    r.Ok? ==>
      && (r.value.None? <==> NothingEligible(met, kinds, floor))
      && (r.value.Some? ==> ClaimTarget(met.db, met.now, kinds, floor, r.value.value.id))
  }

  /** What an attempt with its fallback may answer: nothing exactly when the first call met nothing at
      the floor and the second nothing at all; otherwise a first row at the floor, or, only if there
      was none, a first row without it. */
  predicate AnswersWithFallback(
    met: Sys, again: Sys, kinds: seq<string>, floor: int, r: Result<Option<JobRecord>, string>)
  {
    r.Ok? ==>
      && (r.value.None? <==> NothingEligible(met, kinds, floor) && NothingEligible(again, kinds, FLOOR_ALL))
      && (r.value.Some? ==>
            || ClaimTarget(met.db, met.now, kinds, floor, r.value.value.id)
            || (&& NothingEligible(met, kinds, floor)
                && ClaimTarget(again.db, again.now, kinds, FLOOR_ALL, r.value.value.id)))
  }

  /** So a reserved slot is never wasted: with nobody interfering between the two calls, an attempt
      comes back empty exactly when there is no work of those kinds at any tier. */
  lemma NoWastedSlot(
    start: Timestamp, trace: seq<Step>, kinds: seq<string>, floor: int, r: Result<Option<JobRecord>, string>)
    requires AnswersWithFallback(
      Exec(Init(start), trace), Exec(Init(start), trace), kinds, floor, r)
    requires r.Ok? && floor >= FLOOR_ALL
    ensures r.value.None? <==> NothingReady(Exec(Init(start), trace), kinds)
  {
    FloorAllAdmitsAll(start, trace, kinds);
  }

  function IdOf(r: Result<Option<JobRecord>, string>): Option<Ulid> {
    if r.Ok? && r.value.Some? then Some(r.value.value.id) else None
  }

  /** The attempt was made at the floor: it took a first row there, if there was one to take, or its call
      failed, which takes an outage or an exhausted run count. */
  predicate MadeAt(oracle: Oracle, a: Attempt, floor: int) {
    if a.ok then FloorClaim(a.db, a.now, a.kinds, floor, a.claimed)
    else oracle.outage(a.call) || Overflowing(a.db, a.now, a.kinds)
  }

  /** Registered kinds were on offer, and all of those without a cap. */
  predicate Offers(cfg: Config, kinds: seq<string>) {
    && (forall k :: k in cfg.kinds && k !in cfg.caps ==> k in kinds)
    && (forall k :: k in kinds ==> k in cfg.kinds)
  }

  /** The `t`-th attempt offered the kinds it should and was made at the floor of its turn. */
  predicate AttemptOk(cfg: Config, oracle: Oracle, t: nat, a: Attempt) {
    Offers(cfg, a.kinds) && MadeAt(oracle, a, FloorFor(CounterAt(0, t), cfg.ratio))
  }

  ghost predicate Rotating(cfg: Config, oracle: Oracle, attempts: seq<Attempt>) {
    forall t: nat {:trigger AttemptOk(cfg, oracle, t, attempts[t])} ::
      t < |attempts| ==> AttemptOk(cfg, oracle, t, attempts[t])
  }

  lemma NextTurn(n: nat)
    ensures (n % TWO_64 + 1) % TWO_64 == (n + 1) % TWO_64 == CounterAt(0, n)
  {
  }

  lemma RotationAdvances(cfg: Config, oracle: Oracle, attempts: seq<Attempt>, a: Attempt, floor: int)
    requires floor == FloorFor(CounterAt(0, |attempts|), cfg.ratio)
    requires Rotating(cfg, oracle, attempts) && Offers(cfg, a.kinds) && MadeAt(oracle, a, floor)
    ensures Rotating(cfg, oracle, attempts + [a])
  {
    var after := attempts + [a];
    forall t: nat | t < |after|
      ensures AttemptOk(cfg, oracle, t, after[t])
    {
      if t < |attempts| {
        assert AttemptOk(cfg, oracle, t, attempts[t]);
      }
    }
  }

  /** It is the turn of this floor: an attempt made at it now keeps to the rotation. */
  ghost predicate InTurn(cfg: Config, oracle: Oracle, attempts: seq<Attempt>, floor: int) {
    forall a: Attempt {:trigger Rotating(cfg, oracle, attempts + [a])} ::
      Offers(cfg, a.kinds) && MadeAt(oracle, a, floor) ==> Rotating(cfg, oracle, attempts + [a])
  }

  /** The ids the attempts took, in order. */
  function Taken(attempts: seq<Attempt>): seq<Ulid> {
    if attempts == [] then []
    else
      var a := attempts[|attempts| - 1];
      Taken(attempts[..|attempts| - 1]) + (if a.claimed.Some? then [a.claimed.value] else [])
  }

  function Ids(claims: seq<JobRecord>): (ids: seq<Ulid>)
    ensures |ids| == |claims| && forall c :: 0 <= c < |claims| ==> ids[c] == claims[c].id
  {
    if claims == [] then [] else Ids(claims[..|claims| - 1]) + [claims[|claims| - 1].id]
  }

  lemma TakenGrows(attempts: seq<Attempt>, a: Attempt)
    ensures Taken(attempts + [a]) == Taken(attempts) + (if a.claimed.Some? then [a.claimed.value] else [])
  {
    assert (attempts + [a])[..|attempts|] == attempts;
  }

  lemma IdsGrow(claims: seq<JobRecord>, job: JobRecord)
    ensures Ids(claims + [job]) == Ids(claims) + [job.id]
  {
    assert (claims + [job])[..|claims|] == claims;
  }

  /** The claims after an attempt: the one it made, if it made one, at the end. */
  predicate Adds(before: seq<JobRecord>, a: Attempt, claims: seq<JobRecord>) {
    if a.claimed.None? then claims == before
    else |claims| == |before| + 1 && claims[..|before|] == before && claims[|before|].id == a.claimed.value
  }

  lemma ClaimAdds(before: seq<JobRecord>, a: Attempt, job: JobRecord)
    requires a.claimed == Some(job.id)
    ensures Adds(before, a, before + [job])
  {
  }

  lemma TakenAddUp(attempts: seq<Attempt>, a: Attempt, before: seq<JobRecord>, claims: seq<JobRecord>)
    requires Taken(attempts) == Ids(before) && Adds(before, a, claims)
    ensures Taken(attempts + [a]) == Ids(claims)
  {
    TakenGrows(attempts, a);
    if a.claimed.Some? {
      IdsGrow(before, claims[|before|]);
      assert claims == before + [claims[|before|]];
    }
  }

  /** The row an attempt took is the claim numbered by the takings before it. */
  lemma {:induction false} TakenAt(attempts: seq<Attempt>, t: nat)
    requires t < |attempts| && attempts[t].claimed.Some?
    ensures |Taken(attempts[..t])| < |Taken(attempts)|
    ensures Taken(attempts)[|Taken(attempts[..t])|] == attempts[t].claimed.value
    decreases |attempts|
  {
    var front := attempts[..|attempts| - 1];
    if t < |front| {
      TakenAt(front, t);
      assert front[..t] == attempts[..t];
    }
  }

  /** The attempts account for every claim, in order, and keep to the rotation. */
  ghost predicate Rotation(cfg: Config, oracle: Oracle, counter: nat, attempts: seq<Attempt>, claims: seq<JobRecord>) {
    && counter == |attempts| % TWO_64
    && Taken(attempts) == Ids(claims)
    && Rotating(cfg, oracle, attempts)
  }

  /** If the job asks for a lease other than the worker's, the last call set it, clamped, or failed. */
  predicate LeaseSet(cfg: Config, oracle: Oracle, job: JobRecord, calls: nat, trace: seq<Step>) {
    var asked := oracle.leaseOf(job);
    asked.Some? && ClampLease(asked.value) != cfg.lease ==>
      && calls > 0
      && (oracle.outage(calls - 1)
          || (trace != [] && trace[|trace| - 1] == ExtendCall(job, ClampLease(asked.value))))
  }

  // ------------------------------------------------------------ expired claims

  /** The claim is still there and its lease is in force. */
  predicate Renewed(s: Sys, r: JobRecord) {
    ClaimedAt(s.db, r.id, r.runCount) && !Stale(s.db.jobs[r.id], s.now)
  }

  ghost predicate RenewedSince(start: Timestamp, trace: seq<Step>, scan: nat, r: JobRecord) {
    exists i :: scan <= i <= |trace| && Renewed(At(Init(start), trace, i), r)
  }

  /** A recovery of the claim at this time, re-pending it after the delay drawn for its new failure total. */
  ghost predicate Recovery(cfg: Config, now: Timestamp, r: JobRecord, step: Step) {
    && step.RecoverCall? && step.snapshot == r && step.at == now
    && OwnDelay(WorkerCurve(cfg), cfg.jitter, r, step.delay)
  }

  ghost predicate Attempted(cfg: Config, now: Timestamp, r: JobRecord, trace: seq<Step>) {
    exists i :: 0 <= i < |trace| && Recovery(cfg, now, r, trace[i])
  }

  /** A reported claim has been dealt with: its recovery was attempted, and its epoch is over, unless
      its lease was renewed after the scan. */
  ghost predicate Handled(cfg: Config, now: Timestamp, start: Timestamp, trace: seq<Step>, scan: nat, r: JobRecord) {
    && Attempted(cfg, now, r, trace)
    && (EpochOver(Exec(Init(start), trace), r.id, r.runCount) || RenewedSince(start, trace, scan, r))
  }

  /** The claim's recovery was made by call `call`: it is dealt with, unless that call failed. */
  ghost predicate RecoveredBy(
    cfg: Config, oracle: Oracle, now: Timestamp, start: Timestamp, trace: seq<Step>, scan: nat, r: JobRecord,
    call: nat)
  {
    oracle.outage(call) || Handled(cfg, now, start, trace, scan, r)
  }

  predicate OtherCall(a: nat, b: nat) {
    a != b
  }

  /** Each of these claims had a recovery made by a call of its own, after `from` and before `upto`, for the
      time the worker's clock read after the scan, which is call `from`. */
  ghost predicate HandledBy(
    cfg: Config, oracle: Oracle, start: Timestamp, trace: seq<Step>, scan: nat, via: map<JobRecord, nat>,
    from: nat, upto: nat)
  {
    && (forall r {:trigger RecoveredBy(cfg, oracle, oracle.clock(from + 1), start, trace, scan, r, via[r])} :: r in via ==>
          from < via[r] < upto && RecoveredBy(cfg, oracle, oracle.clock(from + 1), start, trace, scan, r, via[r]))
    && (forall a, b {:trigger OtherCall(via[a], via[b])} ::
          a in via && b in via && a != b ==> OtherCall(via[a], via[b]))
  }

  /** How many expired claims a scan reports at most. */
  const SCAN_LIMIT := 100

  function Expiry(r: JobRecord): Timestamp {
    if r.claimExpiresAt.Some? then r.claimExpiresAt.value else 0
  }

  function AllExpired(s: Sys): set<JobRecord> {
    StaleAmong(s, s.db.jobs.Keys)
  }

  /** A scan reports all the expired claims, or as many as its limit allows, those expired longest. */
  predicate FullScan(s: Sys, found: set<JobRecord>) {
    || found == AllExpired(s)
    || (&& |found| == SCAN_LIMIT && found <= AllExpired(s)
        && (forall a, b :: a in found && b in AllExpired(s) && b !in found ==> Expiry(a) <= Expiry(b)))
  }

  /** What the scan at step `scan` of the run reported. */
  ghost predicate Scanned(start: Timestamp, trace: seq<Step>, scan: nat, found: set<JobRecord>) {
    && scan < |trace| && trace[scan].FindStale?
    && found == StaleAmong(At(Init(start), trace, scan), trace[scan].ids)
    && FullScan(At(Init(start), trace, scan), found)
  }

  lemma ScanIsRecorded(start: Timestamp, trace: seq<Step>, ids: set<Ulid>)
    requires FullScan(Exec(Init(start), trace), StaleAmong(Exec(Init(start), trace), ids))
    ensures Scanned(start, trace + [FindStale(ids)], |trace|, StaleAmong(Exec(Init(start), trace), ids))
  {
    assert (trace + [FindStale(ids)])[..|trace|] == trace;
  }

  lemma FoundAreCountable(start: Timestamp, trace: seq<Step>, ids: set<Ulid>)
    ensures forall r :: r in StaleAmong(Exec(Init(start), trace), ids) ==> Countable(r)
  {
    var s := Exec(Init(start), trace);
    forall id | id in ids && id in s.db.jobs && Stale(s.db.jobs[id], s.now)
      ensures Countable(s.db.jobs[id])
    {
      ClaimIsCountable(start, trace, id);
    }
  }

  lemma ScannedLonger(start: Timestamp, trace: seq<Step>, longer: seq<Step>, scan: nat, found: set<JobRecord>)
    requires Scanned(start, trace, scan, found) && trace <= longer
    ensures Scanned(start, longer, scan, found)
  {
    AtExtended(start, trace, longer, scan);
  }

  lemma HandledLonger(cfg: Config, now: Timestamp, start: Timestamp, trace: seq<Step>, longer: seq<Step>, scan: nat, r: JobRecord)
    requires Handled(cfg, now, start, trace, scan, r) && trace <= longer
    ensures Handled(cfg, now, start, longer, scan, r)
  {
    var i :| 0 <= i < |trace| && Recovery(cfg, now, r, trace[i]);
    assert longer[i] == trace[i];
    if EpochOver(Exec(Init(start), trace), r.id, r.runCount) {
      var rest := longer[|trace|..];
      assert longer == trace + rest;
      ExecAppend(Init(start), trace, rest);
      Reachable(start, trace);
      RunAdvances(Exec(Init(start), trace), rest);
      EpochStaysOver(Exec(Init(start), trace), Exec(Init(start), longer), r.id, r.runCount);
    } else {
      var k :| scan <= k <= |trace| && Renewed(At(Init(start), trace, k), r);
      AtExtended(start, trace, longer, k);
    }
  }

  lemma HandledByLonger(
    cfg: Config, oracle: Oracle, start: Timestamp, trace: seq<Step>, longer: seq<Step>, scan: nat,
    via: map<JobRecord, nat>, from: nat, upto: nat)
    requires HandledBy(cfg, oracle, start, trace, scan, via, from, upto) && trace <= longer
    ensures HandledBy(cfg, oracle, start, longer, scan, via, from, upto)
  {
    forall r | r in via
      ensures from < via[r] < upto && RecoveredBy(cfg, oracle, oracle.clock(from + 1), start, longer, scan, r, via[r])
    {
      assert RecoveredBy(cfg, oracle, oracle.clock(from + 1), start, trace, scan, r, via[r]);
      if Handled(cfg, oracle.clock(from + 1), start, trace, scan, r) {
        HandledLonger(cfg, oracle.clock(from + 1), start, trace, longer, scan, r);
      }
    }
  }

  lemma OneMoreHandled(
    cfg: Config, oracle: Oracle, start: Timestamp, before: seq<Step>, trace: seq<Step>, scan: nat,
    via: map<JobRecord, nat>, from: nat, call: nat, r: JobRecord)
    requires HandledBy(cfg, oracle, start, before, scan, via, from, call) && before <= trace
    requires r !in via && from < call && RecoveredBy(cfg, oracle, oracle.clock(from + 1), start, trace, scan, r, call)
    ensures HandledBy(cfg, oracle, start, trace, scan, via[r := call], from, call + 1)
  {
    HandledByLonger(cfg, oracle, start, before, trace, scan, via, from, call);
    var after := via[r := call];
    forall q | q in after
      ensures from < after[q] < call + 1 && RecoveredBy(cfg, oracle, oracle.clock(from + 1), start, trace, scan, q, after[q])
    {
      assert q != r ==> RecoveredBy(cfg, oracle, oracle.clock(from + 1), start, trace, scan, q, via[q]);
    }
    forall a, b | a in after && b in after && a != b
      ensures OtherCall(after[a], after[b])
    {
      if a != r && b != r {
        assert OtherCall(via[a], via[b]);
      } else if a != r {
        assert RecoveredBy(cfg, oracle, oracle.clock(from + 1), start, trace, scan, a, via[a]);
      } else {
        assert RecoveredBy(cfg, oracle, oracle.clock(from + 1), start, trace, scan, b, via[b]);
      }
    }
  }

  lemma RecoveryHandles(cfg: Config, now: Timestamp, start: Timestamp, trace: seq<Step>, scan: nat, step: Step)
    requires scan <= |trace| && step.RecoverCall? && step.snapshot in Exec(Init(start), trace).stale
    requires Recovery(cfg, now, step.snapshot, step)
    ensures Handled(cfg, now, start, trace + [step], scan, step.snapshot)
  {
    var after := trace + [step];
    var s := Exec(Init(start), trace);
    assert after[|trace|] == step && after[..|trace|] == trace;
    Reachable(start, trace);
    RecoveryHeals(s, step);
    ExecAppend(Init(start), trace, [step]);
    ExecOne(s, step);
    if !EpochOver(Exec(Init(start), after), step.snapshot.id, step.snapshot.runCount) {
      assert Renewed(At(Init(start), after, |trace|), step.snapshot);
    }
  }

  lemma {:induction false} RunKeepsStale(s: Sys, steps: seq<Step>)
    ensures s.stale <= Exec(s, steps).stale
  {
    if steps != [] {
      RunKeepsStale(s, steps[..|steps| - 1]);
    }
  }

  // ------------------------------------------------------------- when work comes back

  /** The job is pending again and due after a delay in the jitter band of its failure total. */
  ghost predicate BackOff(row: JobRecord, curve: Curve, jitter: real, at: Timestamp, delay: Duration) {
    && row.status.Pending? && row.visibleAt == AddDuration(at, delay) && row.failureCount >= 0
    && WithinBand(curve, jitter, row.failureCount, delay)
  }

  /** A retry, settled the way the worker settles, waits as long as its failure total asks for. */
  lemma RetryBacksOff(s: Sys, settle: Step, id: Ulid, curve: Curve, jitter: real)
    requires Inv(s) && settle.SettleCall? && Concludes(s, settle, id, settle.run.runCount)
    requires OwnDelay(curve, jitter, settle.run, settle.delay)
    requires settle.report.Ok? && settle.report.value.result.Failed?
    ensures id in Apply(s, settle).db.jobs
    ensures var row := Apply(s, settle).db.jobs[id];
      row.status.Dead? || BackOff(row, curve, jitter, settle.at, settle.delay)
  {
    SettlementLands(s, settle, id);
    OwnDelayInBand(curve, jitter, settle.run, settle.delay);
    assert SnapshotOk(s, settle.run);
    RowAt(s.db, id);
    assert Apply(s, settle).db.jobs[id].failureCount == settle.run.failureCount + 1;
  }

  /** So does a recovered job, on the worker's own curve. */
  lemma RecoveryBacksOff(s: Sys, cfg: Config, step: Step)
    requires Inv(s) && step.RecoverCall? && Recovery(cfg, step.at, step.snapshot, step)
    requires Concludes(s, step, step.snapshot.id, step.snapshot.runCount)
    ensures step.snapshot.id in Apply(s, step).db.jobs
    ensures BackOff(Apply(s, step).db.jobs[step.snapshot.id], WorkerCurve(cfg), cfg.jitter, step.at, step.delay)
  {
    OwnDelayInBand(WorkerCurve(cfg), cfg.jitter, step.snapshot, step.delay);
    assert SnapshotOk(s, step.snapshot);
    RowAt(s.db, step.snapshot.id);
    assert Apply(s, step).db.jobs[step.snapshot.id] == StepRecovery(step, s.db.jobs[step.snapshot.id]);
    assert Apply(s, step).db.jobs[step.snapshot.id].failureCount == step.snapshot.failureCount + 1;
  }

  // -------------------------------------------------------------- turns of the loop

  /** What one turn of the loop left before it waited: the books and counts; the call and the step of its
      scan, and by which call, before `upto`, each reported claim was recovered; which checks for shutdown
      it made; the calls made by the end of it, and why its filling ended. */
  datatype Turn = Turn(
    books: Books, byKind: map<string, nat>, call: nat, scan: nat, via: map<JobRecord, nat>, upto: nat,
    first: nat, polls: nat, calls: nat, stop: bool, failed: bool)

  /** Of the checks after `first` up to `polls`, only the last saw shutdown, and only if it stopped. */
  ghost predicate Watched(oracle: Oracle, first: nat, polls: nat, stop: bool) {
    && first <= polls
    && (forall p :: first < p < polls ==> !oracle.cancelled(p))
    && (first < polls ==> stop == oracle.cancelled(polls))
    && (first == polls ==> !stop)
  }

  /** The slots were filled: all are taken, or there is no work for the kinds below their cap. */
  predicate Filled(cfg: Config, s: Sys, running: map<nat, JobRecord>, byKind: map<string, nat>) {
    |running| == cfg.concurrency || NothingReady(s, Claimable(cfg.kinds, cfg.caps, byKind))
  }

  /** Claiming ended with an error, which takes an outage of the last call or an exhausted run count. */
  predicate Failing(oracle: Oracle, calls: nat, s: Sys, kinds: seq<string>) {
    (calls > 0 && oracle.outage(calls - 1)) || Overflowing(s.db, s.now, kinds)
  }

  /** A turn did its work: unless the call of its scan failed, all expired claims were reported, or a
      full batch; each reported claim was dealt with, unless the call of its recovery failed; and the
      filling ended with the slots filled, unless shutdown was observed or a claim failed. */
  ghost predicate TurnOk(cfg: Config, oracle: Oracle, turn: Turn) {
    var b := turn.books;
    && b.sys == Exec(Init(b.start), b.trace)
    && (oracle.outage(turn.call) || Scanned(b.start, b.trace, turn.scan, turn.via.Keys))
    && HandledBy(cfg, oracle, b.start, b.trace, turn.scan, turn.via, turn.call, turn.upto)
    && Watched(oracle, turn.first, turn.polls, turn.stop)
    && (turn.failed ==> Failing(oracle, turn.calls, b.sys, cfg.kinds))
    && (!turn.stop && !turn.failed ==> Filled(cfg, b.sys, b.running, turn.byKind))
  }

  /** The run up to the `k`-th turn is part of the run up to the next. */
  predicate InOrder(turns: seq<Turn>, k: nat, trace: seq<Step>)
    requires k < |turns|
  {
    turns[k].books.trace <= (if k + 1 < |turns| then turns[k + 1].books.trace else trace)
  }

  /** These were turns of this run, one after the other. */
  ghost predicate TurnsOk(cfg: Config, oracle: Oracle, turns: seq<Turn>, trace: seq<Step>) {
    && (forall k {:trigger TurnOk(cfg, oracle, turns[k])} :: 0 <= k < |turns| ==> TurnOk(cfg, oracle, turns[k]))
    && (forall k {:trigger InOrder(turns, k, trace)} :: 0 <= k < |turns| ==> InOrder(turns, k, trace))
  }

  lemma OneMoreTurn(
    cfg: Config, oracle: Oracle, turns: seq<Turn>, trace: seq<Step>, turn: Turn, after: seq<Step>)
    requires TurnsOk(cfg, oracle, turns, trace) && TurnOk(cfg, oracle, turn)
    requires trace <= turn.books.trace <= after
    ensures TurnsOk(cfg, oracle, turns + [turn], after)
  {
    var all := turns + [turn];
    forall k | 0 <= k < |all|
      ensures TurnOk(cfg, oracle, all[k])
      ensures InOrder(all, k, after)
    {
      if k < |turns| {
        assert TurnOk(cfg, oracle, turns[k]) && InOrder(turns, k, trace);
      }
    }
  }

  lemma TurnsOkLonger(
    cfg: Config, oracle: Oracle, turns: seq<Turn>, trace: seq<Step>, longer: seq<Step>)
    requires TurnsOk(cfg, oracle, turns, trace) && trace <= longer
    ensures TurnsOk(cfg, oracle, turns, longer)
  {
    forall k | 0 <= k < |turns|
      ensures InOrder(turns, k, longer)
    {
      assert InOrder(turns, k, trace);
    }
  }

  /** The loop turned once per wait, unless the last turn was the one that met shutdown. */
  predicate Lasted(waits: seq<Wake>, turns: seq<Turn>) {
    && |turns| <= |waits|
    && (|turns| < |waits| ==>
          turns != [] && (waits[|turns| - 1].Shutdown? || turns[|turns| - 1].stop))
  }

  /** The wait ended with the result of a running task. */
  predicate Reaps(wake: Wake, running: map<nat, JobRecord>) {
    wake.Joined? && wake.clean && wake.task in running
  }

  /** What is still running after a wait. */
  function AfterWake(wake: Wake, running: map<nat, JobRecord>): map<nat, JobRecord> {
    if wake.Joined? && wake.task in running then running - {wake.task} else running
  }

  predicate JoinsCleanly(wakes: seq<Wake>, t: nat) {
    exists i :: 0 <= i < |wakes| && wakes[i] == Joined(t, true)
  }

  /** These tasks were known, joined with a result in one of the waits, or had finished when they were
      aborted. */
  ghost predicate Explained(oracle: Oracle, tasks: set<nat>, known: set<nat>, wakes: seq<Wake>) {
    forall t :: t in tasks ==> t in known || JoinsCleanly(wakes, t) || oracle.finished(t)
  }

  /** A task that joined with a result, of those running at that turn, is taken for joined. */
  predicate TurnReaps(turn: Turn, wake: Wake, joined: set<nat>) {
    !turn.stop && Reaps(wake, turn.books.running) ==> wake.task in joined
  }

  ghost predicate TurnsReap(turns: seq<Turn>, waits: seq<Wake>, joined: set<nat>) {
    forall k {:trigger TurnReaps(turns[k], waits[k], joined)} ::
      0 <= k < |turns| && k < |waits| ==> TurnReaps(turns[k], waits[k], joined)
  }

  lemma TurnsReapMore(turns: seq<Turn>, waits: seq<Wake>, joined: set<nat>, turn: Turn, more: set<nat>)
    requires TurnsReap(turns, waits, joined) && |turns| < |waits| && joined <= more
    requires TurnReaps(turn, waits[|turns|], more)
    ensures TurnsReap(turns + [turn], waits, more)
  {
    var all := turns + [turn];
    forall k | 0 <= k < |all| && k < |waits|
      ensures TurnReaps(all[k], waits[k], more)
    {
      if k < |turns| {
        assert TurnReaps(turns[k], waits[k], joined);
      }
    }
  }

  lemma TurnsReapLonger(turns: seq<Turn>, waits: seq<Wake>, joined: set<nat>, more: set<nat>)
    requires TurnsReap(turns, waits, joined) && joined <= more
    ensures TurnsReap(turns, waits, more)
  {
    forall k | 0 <= k < |turns| && k < |waits|
      ensures TurnReaps(turns[k], waits[k], more)
    {
      assert TurnReaps(turns[k], waits[k], joined);
    }
  }

  /** The tasks of these joins that were still running are taken for joined. */
  predicate AllReaped(joins: seq<Wake>, running: set<nat>, joined: set<nat>) {
    forall i :: 0 <= i < |joins| && joins[i].Joined? && joins[i].task in running ==> joins[i].task in joined
  }

  /** Where the reaping of joins stands after the first `i` of them, from `running0` and `joined0`. */
  ghost predicate Reaping(
    oracle: Oracle, joins: seq<Wake>, i: nat, running0: set<nat>, joined0: set<nat>, running: set<nat>, joined: set<nat>)
    requires i <= |joins|
  {
    && joined0 <= joined && running <= running0 && Explained(oracle, joined, joined0, joins)
    && (AllClean(joins) ==> forall t :: t in running0 ==> t in running || t in joined)
    && (forall k :: 0 <= k < i && joins[k].Joined? ==> joins[k].task !in running)
  }

  lemma ReapingNext(
    oracle: Oracle, joins: seq<Wake>, i: nat, running0: set<nat>, joined0: set<nat>, running: map<nat, JobRecord>,
    joined: set<nat>)
    requires i < |joins| && Reaping(oracle, joins, i, running0, joined0, running.Keys, joined)
    ensures var w := joins[i];
      Reaping(oracle, joins, i + 1, running0, joined0,
              AfterWake(w, running).Keys,
              if Reaps(w, running) then joined + {w.task} else joined)
  {
    assert AllClean(joins) ==> CleanJoin(joins[i]);
    if Reaps(joins[i], running) {
      assert joins[i] == Joined(joins[i].task, true);
      assert JoinsCleanly(joins, joins[i].task);
    }
  }

  lemma ReapingDone(
    oracle: Oracle, joins: seq<Wake>, running0: set<nat>, joined0: set<nat>, running: set<nat>, joined: set<nat>)
    requires Reaping(oracle, joins, |joins|, running0, joined0, running, joined)
    ensures AllClean(joins) ==> AllReaped(joins, running0, joined)
  {
  }

  lemma ExplainedByWait(
    oracle: Oracle, waits: seq<Wake>, i: nat, running: map<nat, JobRecord>, joined0: set<nat>, joined: set<nat>, after: set<nat>)
    requires i < |waits| && Explained(oracle, joined, joined0, waits)
    requires after == joined || (Reaps(waits[i], running) && after == joined + {waits[i].task})
    ensures Explained(oracle, after, joined0, waits)
  {
    if after != joined {
      assert waits[i] == Joined(waits[i].task, true);
    }
  }

  /** What the turns for these waits have done, from the tasks `joined0` known to have joined and `lost0`
      lost sight of. */
  ghost predicate Turned(
    cfg: Config, oracle: Oracle, turns: seq<Turn>, waits: seq<Wake>, trace: seq<Step>,
    joined0: set<nat>, joined: set<nat>, lost0: set<nat>, lost: set<nat>)
  {
    && (UpAfter(oracle, turns) && AllClean(waits) ==> lost == lost0)
    && TurnsOk(cfg, oracle, turns, trace) && TurnsReap(turns, waits, joined)
    && Explained(oracle, joined, joined0, waits)
  }

  lemma TurnedOnce(
    cfg: Config, oracle: Oracle, turns: seq<Turn>, waits: seq<Wake>, trace: seq<Step>,
    joined0: set<nat>, joined: set<nat>, lost0: set<nat>, lost: set<nat>, turn: Turn, stop: bool, after: seq<Step>,
    more: set<nat>, lostNow: set<nat>)
    requires Turned(cfg, oracle, turns, waits, trace, joined0, joined, lost0, lost) && |turns| < |waits|
    requires CleanJoin(waits[|turns|]) && UpNext(oracle, turn) ==> lostNow == lost
    requires TurnOk(cfg, oracle, turn) && trace <= turn.books.trace <= after
    requires stop == (waits[|turns|].Shutdown? || turn.stop)
    requires more == if !stop && Reaps(waits[|turns|], turn.books.running) then joined + {waits[|turns|].task} else joined
    ensures Turned(cfg, oracle, turns + [turn], waits, after, joined0, more, lost0, lostNow)
  {
    if UpAfter(oracle, turns + [turn]) && AllClean(waits) {
      UpAfterOneMore(oracle, turns, turn);
      assert CleanJoin(waits[|turns|]);
    }
    OneMoreTurn(cfg, oracle, turns, trace, turn, after);
    TurnsReapMore(turns, waits, joined, turn, more);
    ExplainedByWait(oracle, waits, |turns|, turn.books.running, joined0, joined, more);
  }

  /** Whoever is taken for joined did join with a result, or had finished when it was aborted. */
  ghost predicate AllExplained(oracle: Oracle, waits: seq<Wake>, joins: seq<Wake>, joined: set<nat>) {
    forall t :: t in joined ==> JoinsCleanly(waits, t) || JoinsCleanly(joins, t) || oracle.finished(t)
  }

  lemma ExplainedInTurn(oracle: Oracle, waits: seq<Wake>, joins: seq<Wake>, reaped: set<nat>, joined: set<nat>)
    requires Explained(oracle, reaped, {}, waits) && Explained(oracle, joined, reaped, joins)
    ensures AllExplained(oracle, waits, joins, joined)
  {
  }

  lemma ExplainedByAbort(oracle: Oracle, joins: seq<Wake>, known: set<nat>, reaped: set<nat>, joined: set<nat>)
    requires Explained(oracle, reaped, known, joins) && Explained(oracle, joined, reaped, [])
    ensures Explained(oracle, joined, known, joins)
  {
  }

  /** Where the forced finish stands, from `running0`, `joined0` and `aborted0`. */
  ghost predicate Aborting(
    oracle: Oracle, running0: set<nat>, joined0: set<nat>, aborted0: set<nat>,
    running: set<nat>, tracked: set<nat>, joined: set<nat>, aborted: set<nat>)
  {
    && running <= running0 && running <= tracked && OnlyAbortedLeft(aborted, running, tracked)
    && aborted <= aborted0 + running0 && joined0 <= joined && Explained(oracle, joined, joined0, [])
  }

  lemma AbortingNext(
    oracle: Oracle, running0: set<nat>, joined0: set<nat>, aborted0: set<nat>,
    running: set<nat>, tracked: set<nat>, joined: set<nat>, aborted: set<nat>, task: nat)
    requires Aborting(oracle, running0, joined0, aborted0, running, tracked, joined, aborted) && task in running
    ensures if oracle.finished(task)
            then Aborting(oracle, running0, joined0, aborted0, running - {task}, tracked - {task}, joined + {task}, aborted)
            else Aborting(oracle, running0, joined0, aborted0, running - {task}, tracked, joined, aborted + {task})
  {
  }

  lemma WatchedNext(oracle: Oracle, first: nat, polls: nat, stop: bool)
    requires Watched(oracle, first, polls, false) && stop == oracle.cancelled(polls + 1)
    ensures Watched(oracle, first, polls + 1, stop)
  {
  }

  /** The store calls from number `from` up to `upto` go through. */
  ghost predicate Up(oracle: Oracle, from: nat, upto: nat) {
    forall n :: from <= n < upto ==> !oracle.outage(n)
  }

  /** So does the call after the turn, which settles what joined. */
  predicate UpNext(oracle: Oracle, turn: Turn) {
    !oracle.outage(turn.calls)
  }

  ghost predicate UpAfter(oracle: Oracle, turns: seq<Turn>) {
    forall k {:trigger UpNext(oracle, turns[k])} :: 0 <= k < |turns| ==> UpNext(oracle, turns[k])
  }

  lemma UpAfterOneMore(oracle: Oracle, turns: seq<Turn>, turn: Turn)
    requires UpAfter(oracle, turns + [turn])
    ensures UpAfter(oracle, turns) && UpNext(oracle, turn)
  {
    var all := turns + [turn];
    assert all[|turns|] == turn && UpNext(oracle, all[|turns|]);
    forall k | 0 <= k < |turns|
      ensures UpNext(oracle, turns[k])
    {
      assert all[k] == turns[k] && UpNext(oracle, all[k]);
    }
  }

  predicate CleanJoin(wake: Wake) {
    wake.Joined? ==> wake.clean
  }

  /** No task ends in a join error. */
  predicate AllClean(wakes: seq<Wake>) {
    forall i :: 0 <= i < |wakes| ==> CleanJoin(wakes[i])
  }

  /** The tracked tasks that have left the join set are those that were aborted. */
  predicate OnlyAbortedLeft(aborted: set<nat>, running: set<nat>, tracked: set<nat>) {
    forall t :: t in tracked && t !in running ==> t in aborted
  }

  lemma AttemptsFair(
    cfg: Config, oracle: Oracle, attempts: seq<Attempt>, m: nat, n: nat, r: nat, target: Ulid, tier: int)
    requires Rotating(cfg, oracle, attempts) && cfg.ratio == Some(r) && m <= n <= |attempts|
    requires forall u: nat :: u < n - m ==> KeepsLine(attempts[m..n], cfg.kinds, target, tier, u)
    ensures FairLine(attempts[m..n], m % TWO_64, r, cfg.kinds, target, tier)
  {
    var run := attempts[m..n];
    forall u: nat | u < |run|
      ensures FairAttempt(run, m % TWO_64, r, cfg.kinds, target, tier, u)
    {
      assert KeepsLine(run, cfg.kinds, target, tier, u) && run[u] == attempts[m + u];
      assert AttemptOk(cfg, oracle, m + u, attempts[m + u]);
      CounterSuffix(0, m, u);
    }
  }

  /** Attempts along the rotation, from the `m`-th to the `n`-th, of which `f` fail and which keep the
      line, take the target within (k+f+1) windows. */
  lemma AttemptsServe(
    cfg: Config, oracle: Oracle, attempts: seq<Attempt>, m: nat, n: nat, r: nat, target: Ulid, tier: int,
    k: nat, f: nat)
    returns (t: nat)
    requires Rotating(cfg, oracle, attempts) && cfg.ratio == Some(r) && Ratio(r) && LowerTier(tier)
    requires m < n <= |attempts| && n - m >= (k + f + 1) * Window(r, tier)
    requires forall u: nat :: u < n - m ==> KeepsLine(attempts[m..n], cfg.kinds, target, tier, u)
    requires Failures(attempts[m..n]) <= f
    requires target in attempts[m].db.jobs && |Ahead(attempts[m], cfg.kinds, target, tier)| <= k
    ensures m <= t < m + (k + f + 1) * Window(r, tier) && t < |attempts| && attempts[t].claimed == Some(target)
  {
    var run := attempts[m..n];
    AttemptsFair(cfg, oracle, attempts, m, n, r, target, tier);
    assert KeepsLine(run, cfg.kinds, target, tier, 0);
    t := BoundedWaiting(run, m % TWO_64, r, cfg.kinds, target, tier, k, f);
    t := m + t;
  }
}
