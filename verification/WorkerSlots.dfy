/** What a worker is configured with, what it does not control, and the three collections it keeps:
    the tasks in its join set, what it tracks about each, and how many of each kind there are. */
module WorkerSlots {
  import opened Records
  import opened Routing
  import opened Protocol
  import opened Backoff

  // ------------------------------------------------------------------ bookkeeping

  /** All that is kept per task besides the task itself: enough to write a release without the record. */
  datatype Inflight = Inflight(id: Ulid, kind: string, runNo: nat)

  function Tracked(job: JobRecord): Inflight {
    Inflight(job.id, job.kind, job.runCount)
  }

  /** The in-flight tasks of one kind. */
  function TasksOf(inflight: map<nat, Inflight>, kind: string): set<nat> {
    set t | t in inflight && inflight[t].kind == kind
  }

  function CountOf(byKind: map<string, nat>, kind: string): nat {
    if kind in byKind then byKind[kind] else 0
  }

  /** The count of a kind is exact, never a zero entry, and within the cap if there is one. */
  predicate KindOk(caps: map<string, nat>, inflight: map<nat, Inflight>, byKind: map<string, nat>, kind: string) {
    && CountOf(byKind, kind) == |TasksOf(inflight, kind)|
    && (kind in byKind ==> byKind[kind] > 0)
    && (kind in byKind && kind in caps ==> byKind[kind] <= caps[kind])
  }

  /** One task fewer of a kind; a kind without tasks has no entry. */
  function ReleaseSlot(byKind: map<string, nat>, kind: string): map<string, nat> {
    if kind !in byKind then byKind
    else if byKind[kind] <= 1 then byKind - {kind}
    else byKind[kind := byKind[kind] - 1]
  }

  predicate BelowCap(caps: map<string, nat>, byKind: map<string, nat>, kind: string) {
    kind in caps ==> CountOf(byKind, kind) < caps[kind]
  }

  /** The kinds whose jobs may be claimed now. */
  function Claimable(kinds: seq<string>, caps: map<string, nat>, byKind: map<string, nat>): (open: seq<string>)
    ensures forall k :: k in open <==> k in kinds && BelowCap(caps, byKind, k)
  {
    if kinds == [] then []
    else
      var rest := Claimable(kinds[1..], caps, byKind);
      if BelowCap(caps, byKind, kinds[0]) then [kinds[0]] + rest else rest
  }

  // ------------------------------------------------------------------- the outside

  datatype Config = Config(
    concurrency: nat, lease: Duration, backstop: Option<nat>, base: StdDuration, cap: StdDuration, jitter: real,
    ratio: Option<nat>, policy: PanicPolicy, owner: string, kinds: seq<string>, caps: map<string, nat>)

  const MIN_LEASE: Duration := 1_000_000_000
  const MAX_LEASE: Duration := 365 * 24 * 60 * 60 * 1_000_000_000

  /** The lease nearest to the asked one in the supported range. */
  function ClampLease(lease: Duration): (r: Duration)
    ensures MIN_LEASE <= r <= MAX_LEASE
    ensures MIN_LEASE <= lease <= MAX_LEASE ==> r == lease
    ensures lease < MIN_LEASE ==> r == MIN_LEASE
    ensures lease > MAX_LEASE ==> r == MAX_LEASE
  {
    if lease < MIN_LEASE then MIN_LEASE else if lease > MAX_LEASE then MAX_LEASE else lease
  }

  /** Everything the worker does not decide, by the number of the store call it precedes: what the
      others do meanwhile, whether the call fails, which of several equally good rows the database
      picks, which expired claims a limited scan reports, and what the worker's clock reads just before
      it makes the call. Then, when shutdown
      is observed, what each task's handler does, the backoff it asks for instead of the worker's, and
      whether it had finished by the time it was aborted. */
  datatype Oracle = Oracle(
    others: nat -> seq<Step>,
    outage: nat -> bool,
    pick: nat -> Ulid,
    expired: nat -> set<Ulid>,
    clock: nat -> Timestamp,
    cancelled: nat -> bool,
    behaviour: nat -> Behaviour,
    backoffOf: nat -> Option<(StdDuration, StdDuration)>,
    finished: nat -> bool,
    leaseOf: JobRecord -> Option<Duration>)

  /** Why a wait ended: shutdown, a task joining (with its result, or with a join error), or neither
      of these. */
  datatype Wake = Shutdown | Joined(task: nat, clean: bool) | Poll

  function ReportOf(cfg: Config, oracle: Oracle, task: nat, job: JobRecord): Result<RunReport, string> {
    ErasedRun(job.carry, oracle.behaviour(task), cfg.policy)
  }

  /** The worker's own retry curve. */
  function WorkerCurve(cfg: Config): Curve {
    NewCurve(cfg.base, cfg.cap)
  }

  /** The curve a task asks for, and the worker's own if it asks for none. */
  function CurveOf(cfg: Config, oracle: Oracle, task: nat): (c: Curve)
    ensures c.Valid()
    ensures oracle.backoffOf(task).None? ==> c == NewCurve(cfg.base, cfg.cap)
    ensures var asked := oracle.backoffOf(task);
      asked.Some? ==> c == NewCurve(asked.value.0, asked.value.1)
  {
    if oracle.backoffOf(task).None? then WorkerCurve(cfg)
    else NewCurve(oracle.backoffOf(task).value.0, oracle.backoffOf(task).value.1)
  }

  /** The number of the failure this run would add. */
  function NextFailure(run: JobRecord): nat {
    var next := SaturatingIncrement(run.failureCount);
    if next < 0 then 0 else next
  }

  predicate Countable(run: JobRecord) {
    0 <= run.failureCount < I32_MAX
  }

  /** The delay a retry of the run would wait: the one its id draws for its new failure total. */
  ghost predicate OwnDelay(c: Curve, jitter: real, run: JobRecord, delay: Duration) {
    c.Valid() && Countable(run) && delay == DrawnDelay(c, jitter, run.failureCount + 1, run.id)
  }

  lemma OwnDelayInBand(c: Curve, jitter: real, run: JobRecord, delay: Duration)
    requires OwnDelay(c, jitter, run, delay)
    ensures WithinBand(c, jitter, run.failureCount + 1, delay)
  {
    DrawnInBand(c, jitter, run.failureCount + 1, run.id);
  }

  // ------------------------------------------------------------------- the slots

  /** The three collections agree with each other and with the limits: one tracked job per unjoined
      task, at most `concurrency` of them, the counts exact, every cap respected. */
  predicate SlotOk(
    cfg: Config, running: map<nat, JobRecord>, inflight: map<nat, Inflight>, byKind: map<string, nat>, kind: string)
  {
    && running.Keys == inflight.Keys
    && |running| <= cfg.concurrency
    && KindOk(cfg.caps, inflight, byKind, kind)
  }

  ghost predicate Slots(
    cfg: Config, running: map<nat, JobRecord>, inflight: map<nat, Inflight>, byKind: map<string, nat>)
  {
    forall k {:trigger SlotOk(cfg, running, inflight, byKind, k)} :: SlotOk(cfg, running, inflight, byKind, k)
  }

  lemma SlotsAgree(
    cfg: Config, running: map<nat, JobRecord>, inflight: map<nat, Inflight>, byKind: map<string, nat>)
    requires Slots(cfg, running, inflight, byKind)
    ensures running.Keys == inflight.Keys && |running| <= cfg.concurrency
  {
    assert SlotOk(cfg, running, inflight, byKind, "");
  }

  lemma SlotsReleased(
    cfg: Config, running: map<nat, JobRecord>, inflight: map<nat, Inflight>, byKind: map<string, nat>, task: nat)
    requires Slots(cfg, running, inflight, byKind) && task in running
    ensures task in inflight
    ensures Slots(cfg, running - {task}, inflight - {task}, ReleaseSlot(byKind, inflight[task].kind))
  {
    SlotsAgree(cfg, running, inflight, byKind);
    var kind, tracked, counts := inflight[task].kind, inflight - {task}, ReleaseSlot(byKind, inflight[task].kind);
    assert |(running - {task}).Keys| == |running.Keys| - 1;
    forall k
      ensures SlotOk(cfg, running - {task}, tracked, counts, k)
    {
      assert SlotOk(cfg, running, inflight, byKind, k);
      assert TasksOf(tracked, k) == if k == kind then TasksOf(inflight, k) - {task} else TasksOf(inflight, k);
      assert k == kind ==> task in TasksOf(inflight, k);
    }
  }

  lemma KindTaken(
    caps: map<string, nat>, inflight: map<nat, Inflight>, byKind: map<string, nat>,
    task: nat, job: Inflight, k: string)
    requires KindOk(caps, inflight, byKind, k) && task !in inflight
    requires BelowCap(caps, byKind, job.kind)
    ensures KindOk(caps, inflight[task := job], byKind[job.kind := CountOf(byKind, job.kind) + 1], k)
  {
    assert TasksOf(inflight[task := job], k)
        == if k == job.kind then TasksOf(inflight, k) + {task} else TasksOf(inflight, k);
  }

  lemma SlotsTaken(
    cfg: Config, running: map<nat, JobRecord>, inflight: map<nat, Inflight>, byKind: map<string, nat>,
    task: nat, job: JobRecord)
    requires Slots(cfg, running, inflight, byKind) && task !in running && |running| < cfg.concurrency
    requires BelowCap(cfg.caps, byKind, job.kind)
    ensures |running[task := job]| == |running| + 1
    ensures Slots(cfg, running[task := job], inflight[task := Tracked(job)],
                  byKind[job.kind := CountOf(byKind, job.kind) + 1])
  {
    var after, tracked := running[task := job], inflight[task := Tracked(job)];
    var counts := byKind[job.kind := CountOf(byKind, job.kind) + 1];
    SlotsAgree(cfg, running, inflight, byKind);
    TaskAdded(running, inflight, task, job);
    forall k
      ensures SlotOk(cfg, after, tracked, counts, k)
    {
      assert SlotOk(cfg, running, inflight, byKind, k);
      KindTaken(cfg.caps, inflight, byKind, task, Tracked(job), k);
    }
  }

  lemma TaskAdded(running: map<nat, JobRecord>, inflight: map<nat, Inflight>, task: nat, job: JobRecord)
    requires running.Keys == inflight.Keys && task !in running
    ensures |running[task := job]| == |running| + 1
    ensures running[task := job].Keys == inflight[task := Tracked(job)].Keys
  {
    assert running[task := job].Keys == running.Keys + {task};
  }
}
