# Venturi: the job-lifecycle protocol, verified

Venturi is a durable job queue: producers enqueue jobs into a shared table, workers claim them under
a lease, run them and write back a settlement, and everyone recovers the claims of workers that died.
The project models that protocol in Dafny and proves what it guarantees over every run.

How the model is organised:

- `Records`, `Journal`, `StoreSteps`: the records, the append-only journal, and every store call as a
  function on the database value (its guard, what it writes, what it logs).
- `Routing`: from a handler's behaviour to the settlement a worker writes.
- `Protocol`: the shared database and its clock together with everyone's old snapshots. A step is one
  store call; a run is *any* sequence of steps, by any number of workers, recoverers and producers,
  whose identity strings may coincide. A step whose guard fails is a no-op, so every theorem is a
  for-all over sequences of steps.
- `Effects`: what each step writes, column by column, in terms of what its caller or the handler did.
- `Invariant`, `Lifecycle`, `FailureCap`, `Dedup`: the inductive invariant and the theorems over whole runs.
- `FakeStore`: the in-memory store as a class; each method is proved equal to its function in
  `StoreSteps`.
- `Scheduler`: the floor rotation and bounded waiting.
- `WorkerSlots`, `WorkerBooks`, `WorkerTurns`, `Worker`: the worker loop as a class; every store call it
  makes is preceded by an arbitrary burst of other participants' steps. The whole run of the system is
  kept as a sequence of protocol steps, and what became of each claim is stated about that sequence.
- `Words`, `Backoff`: the retry curve, the jitter and the 64-bit mixer.
- `History`, `SqlQuery`, `UlidText`, `Paging`: the history filter, the SQL that PostgreSQL is sent for
  it, and keyset paging over a table that changes between pages.

`dafny verify dfyconfig.toml` checks everything.

Where the code and its documentation differ, the model follows the code:

- The backstop is documented to cap a job at n failed executions, but lease recovery never consults it.
  `FailureCap` shows runs that pass any cap, and that the cap holds exactly on the runs that never
  recover a job with one failure left. `Retried` entries are bounded on every run.
- A `Merged` entry carries the run number of the candidate snapshot, which may be older than the row's
  (`Dedup.MergedEntryMayLag`);
  the hole-free numbering is therefore stated over executions, and merges are bounded by the run count.
- `extend_lease` sets the expiry and may move it earlier; lease exclusivity is stated for the row's
  current expiry at each step.
- `fib_minus_one` saturates at u64::MAX - 1, one below what its comment says; this cannot be observed.
- The rotation counter is a wrapping 64-bit integer. A reserved claim comes within r² attempts for Low
  even across the wrap; for Normal the wrap can stretch a gap beyond 2r (`Scheduler.WrapStretchesGap`),
  and 3r attempts always suffice.

## Model

| member | source | states |
|---|---|---|
| `Records.AddDuration` | src/worker/mod.rs:888-895 | An overflowing delay saturates at the far future and never moves an instant back; within range the sum is exact, and only then. |
| `Records.StatusTextRoundTrip` | src/store.rs:45-68 | The text written for a status reads back as that status. |
| `Routing.RetryableDiesOnlyAtBackstop` | src/worker/mod.rs:784-809 | A retryable failure is given up on exactly when its new total reaches the backstop, otherwise retried; either way it is counted once. |
| `Routing.PanicKeepsCarry` | src/worker/registry.rs:225-242 | A panic under the retry policy retries with exactly the carry the run was claimed with, unless the backstop ends the job. |
| `Invariant.StepKeepsInv` | src/postgres/mod.rs:257-550 | Every store call, made from any held snapshot however old, keeps rows consistent with their journals and every live-epoch snapshot equal to its row. |
| `Invariant.Reachable` | src/store.rs:323-482 | The invariant holds in every state of every interleaving. |
| `Invariant.RunAdvances` | src/test_support.rs:111-474 | Over any run no id returns after deletion, run counts never fall, identity columns never change, and a row still claimed at an epoch is untouched but for its lease. |
| `Invariant.FailuresBounded` | src/worker/mod.rs:705-708 | 0 <= failures <= concluded runs <= run count <= i32::MAX, so the saturating add never saturates on a claimed row. |
| `Lifecycle.HoleFreeJournal` | src/postgres/mod.rs:298-422 | In every reachable state a job's executions are numbered 1..m without hole or repeat, m the run count less the run in flight; merges never exceed the run count; a row is terminal exactly when its last execution says so, and no earlier one does. |
| `Lifecycle.NoLostFailure` | src/worker/mod.rs:535-583 | Although writers store absolute counts from old snapshots, the failure count always equals the failure entries in the journal and stays in range. |
| `Lifecycle.JournalInOrder` | src/test_support.rs:226-236 | One job's entries come back strictly ordered by entry id. |
| `Lifecycle.StepHistory` | src/postgres/mod.rs:467-526 | A step appends exactly one entry to a job's history when it concludes a run of it or merges into it, and otherwise leaves a surviving job's history alone. |
| `Lifecycle.ConcludedAtMostOnce` | src/test_support.rs:165-173 | Over a whole run each (job, run number) is concluded by at most one step, whichever of settlement, release and recovery comes first. |
| `Lifecycle.OverMeansConcluded` | src/test_support.rs:152-224 | A claim that is over was concluded by exactly one step: a settlement or release of that very claim, or the recovery of its lease. |
| `Lifecycle.SupersededCallsAreNoOps` | src/postgres/mod.rs:306-311 | At a superseded epoch settle, extend and recover return false and leave the database as it is, whatever owner, values and entry they are given; so such a step of the protocol changes nothing at all. |
| `Lifecycle.EpochDecidesOwnership` | src/worker/mod.rs:1095-1177 | In reachable states the ownership guard holds exactly when the epoch is live, and one run only ever holds an epoch, even when workers share an identity. |
| `Lifecycle.SnapshotCoherence` | src/worker/mod.rs:610-649 | While its epoch is live, the payload, carry, priority and failure count a run (or a stale scan) holds equal the row's. |
| `Lifecycle.AttemptConcludes` | src/worker/mod.rs:683-753 | An attempted settlement or release leaves its epoch over, whoever got there first. |
| `Lifecycle.RecoveryHeals` | src/test_support.rs:363-405 | After an attempted recovery the epoch is over if and only if the claim had not been renewed since the scan. |
| `Lifecycle.LeaseExclusivity` | src/postgres/mod.rs:528-550 | As long as the clock has not passed the lease the row currently has, no step but the run's own settlement ends the claim or starts another run, over any run of steps, so that settlement applies. That the claim is still there is derived, not assumed. |
| `Lifecycle.LeaseHoldsUntil` | src/postgres/mod.rs:264-284 | From what the run knows at the start: leased until some instant, and not cutting its own lease below it, it keeps the claim, columns and all, over any steps taken up to that instant. |
| `Lifecycle.SettleByExpiryApplies` | src/postgres/mod.rs:485-491 | A settlement issued no later than an expiry the run knows of always applies. |
| `Lifecycle.BackstopOverWholeRuns` | src/worker/mod.rs:784-809 | With backstops of at most n, no job ever gets more than n-1 `Retried` entries, however everything interleaves. |
| `Lifecycle.DeadOnlyAtBackstop` | src/worker/mod.rs:761-780 | A retryable failure leaves the job dead exactly when its logged failures have reached the worker's backstop, and pending otherwise. |
| `FailureCap.BackstopCapsFailures` | src/worker/mod.rs:228-237 | With backstops of at most n, a run keeps every job within n failures, dead at the n-th (a backstop of 0 acts as 1), if and only if it never recovers an expired lease on a job with one failure left. |
| `FailureCap.RecoveryIgnoresBackstop` | src/worker/mod.rs:535-583 | The promise fails otherwise: for every k there is a run without a single settlement, so within any backstop, that leaves a job pending after k failures. |
| `Lifecycle.CarryKept` | src/test_support.rs:175-209 | Over any run a row's carry changes only at live-epoch pauses and retries and at updating merges. |
| `Lifecycle.ResumesFromClaimedCarry` | src/worker/registry.rs:159-170 | A run that was recovered, released or panicked resumes from exactly the carry it was claimed with. |
| `Lifecycle.SettlementLands` | src/worker/mod.rs:705-780 | From handler report to row: a settlement that applies leaves the job with exactly the status, failures, carry and visibility its report and the backstop ask for, relative to what the run was handed. |
| `Lifecycle.NextRunResumes` | src/test_support.rs:180-193 | Across any run of steps that does not write the carry again, the next claim of a paused or retried job is handed exactly the carry its handler reported. |
| `Lifecycle.NeverRunEarly` | src/test_support.rs:121-135 | Over any run, a job pending until a given instant is still pending with no further run as long as the database clock has not reached it. |
| `Lifecycle.LiveWorkIsNeverDeleted` | src/test_support.rs:296-315 | No step ever deletes a job that is not finished. |
| `Effects.InsertLands` | src/queue.rs:229-250 | A submit that inserts leaves one new pending row with the task's work, key, default carry and tier (0, 1, 2 for High, Normal, Low), created and due when the producer said, with no history; nothing else changes. |
| `Effects.SubmittedNeverRunsEarly` | src/queue.rs:52-58 | A job submitted for an instant has no run before the database clock gets there, over any run of steps. |
| `Effects.ProbeReads` | src/postgres/mod.rs:700-716 | A dedup lookup holds the row it found: pending, of the task's kind and key, none older; the submit goes on to insert only if there is none or the task has no key. |
| `Effects.MergeLands` | src/queue.rs:144-190 | By decision: Keep leaves the row as it is, Replace leaves the incoming task's payload, default carry and tier, With leaves its own three; every other column and every other row stays. |
| `Effects.ClaimLands` | src/test_support.rs:121-149 | A claim that applies takes a due pending row of a wanted kind and tier, and changes nothing of it but that it is claimed, by whom, in its next run, and until when: exactly the asked lease from now. |
| `Effects.ClaimSettlesInTime` | src/postgres/mod.rs:264-284 | From the claim itself: for as long as was asked, whatever the others do, nobody but the run ends it, and the settlement it makes by then applies. |
| `Effects.ExtendLands` | src/postgres/mod.rs:528-550 | A renewal at a live epoch sets the lease to end exactly the asked time from now, and nothing else. |
| `Effects.ReleaseLands` | src/worker/mod.rs:683-701 | A released job is pending again at once, with the same work and carry, charged no failure. |
| `Effects.RecoveryLands` | src/test_support.rs:363-405 | A recovered job is pending again after its delay, with the same work and carry, charged one failure. |
| `Effects.HandlerLands` | src/worker/registry.rs:153-246 | From what a handler did to its row, case by case: a return decides, its carry kept on pauses and retries; an undecodable job, an unencodable carry and a panic under the dead policy are given up on; another panic is a failure with the old carry; the backstop, the instants and the other columns included. |
| `Effects.NextRunGetsHandlersCarry` | src/worker/registry.rs:198-213 | Unless the backstop ended the job, the next claim is handed exactly the carry the handler left at its pause or retryable failure. |
| `Effects.HandlerLogged` | src/worker/mod.rs:705-753 | The entry written with it: the outcome of that execution, the handler's note or the reason of the failure, and the attachment of a handler that returned, at that instant. |
| `Effects.ReleaseLogged` | src/worker/mod.rs:683-692 | A release is recorded as such. |
| `Effects.RecoveryLogged` | src/worker/mod.rs:554-566 | A recovery is recorded as such, naming the worker presumed dead. |
| `Effects.MergeLogged` | src/queue.rs:210-217 | A merge is recorded as such, with the run number its producer saw. |
| `Effects.CleanupSweeps` | src/postgres/mod.rs:630-656 | A cleanup deletes exactly the matching jobs finished before the instant, with their entries, and touches no other job or entry. |
| `Dedup.SubmitLands` | src/queue.rs:201-250 | A submit that succeeds at a step either inserted one fresh pending row or appended one `Merged` entry to a row of its kind and key that is pending, and returns that row's id. |
| `Dedup.SubmitsConserved` | src/queue.rs:107-194 | Over any run, successful submits = ids ever created + merges recorded. |
| `Dedup.RowsAccountForSubmits` | src/postgres/mod.rs:718-782 | In every reachable state each surviving row is named by exactly one submit more than it has `Merged` entries. |
| `Dedup.MergedEntryMayLag` | src/queue.rs:210-217 | A run in which a `Merged` entry carries an older run number than its row. |
| `FakeStore.SelectClaim` | src/test_support.rs:121-150 | The best-key loop returns the first eligible row in (priority, created_at, id) order, or None exactly when nothing is eligible. |
| `FakeStore.ClaimChoiceUnique` | src/test_support.rs:121-150 | That choice does not depend on the iteration order, and is one the SQL claim may make. |
| `FakeStore.SelectCandidate` | src/test_support.rs:429-446 | The candidate is the oldest pending row of the kind and key, None exactly when there is none. |
| `FakeStore.SelectPage` | src/test_support.rs:256-284 | Filter, sort and truncate give the newest matching rows beyond the cursor, all of them or exactly the limit. |
| `FakeStore.Store.constructor` | src/test_support.rs:40-45 | A new store is empty. |
| `FakeStore.Store.Enqueue` | src/test_support.rs:85-109 | A valid tier inserts a pending row holding the job as enqueued, created and due when it says; any other is refused and nothing changes. |
| `FakeStore.Store.ClaimNext` | src/test_support.rs:111-150 | The first eligible row is handed out in its next run, leased to the owner for the asked time from now, otherwise as it was; with none eligible nothing changes. |
| `FakeStore.Store.Settle` | src/test_support.rs:152-224 | Refines the guarded settle: row and entry written together, or nothing. |
| `FakeStore.Store.ExtendLease` | src/test_support.rs:407-427 | Refines the guarded lease renewal: the lease ends exactly the asked time from now. |
| `FakeStore.Store.FindStale` | src/test_support.rs:348-361 | Exactly the expired claims, each once. |
| `FakeStore.Store.Recover` | src/test_support.rs:363-405 | Refines the guarded recovery at the observed epoch. |
| `FakeStore.Store.DedupCandidate` | src/test_support.rs:429-446 | A candidate the dedup lookup may return, or proof that there is none. |
| `FakeStore.Store.MergeInto` | src/test_support.rs:448-493 | Refines the guarded merge: work, carry and tier superseded by the update, if any, all else kept; the one-shot test seam makes one call miss and nothing else. |
| `FakeStore.Store.Cleanup` | src/test_support.rs:296-315 | The loop deletes exactly the matching finished rows with their journal entries, and counts them. |
| `FakeStore.Store.JournalOf` | src/test_support.rs:226-236 | The entries of one job, in order. |
| `FakeStore.Store.QueryJobs` | src/test_support.rs:256-284 | The page the filter determines, over the store's current rows. |
| `Scheduler.RotationShares` | src/worker/mod.rs:855-869 | Any r² consecutive counters hold exactly one Low-only, r-1 Normal-floor and r²-r unconstrained claims. |
| `Scheduler.FloorsAdmitTiers` | src/worker/mod.rs:74-78 | The floors admit what they are named after: every tier, all but High, and Low only. |
| `Scheduler.ReservedClaimInWindow` | src/worker/mod.rs:356-359 | From any counter value, across the 64-bit wrap too, a claim reserved for Low comes within r² attempts and one for Normal within 3r. |
| `Scheduler.WrapStretchesGap` | src/worker/mod.rs:855-869 | With r = 7 the counter's wrap leaves fifteen attempts without a Normal floor, more than the 2r that suffice elsewhere. |
| `Scheduler.BoundedWaiting` | src/worker/mod.rs:846-869 | A waiting Low (Normal) job with k due jobs of its tier and of the worker's kinds ahead is claimed within (k+f+1) windows if f of the attempts fail, whatever High work, and work of other kinds, arrives. |
| `Scheduler.StrictPriorityStarves` | src/worker/mod.rs:240-249 | Without a ratio of at least 2 a lower tier is never served while High work is eligible. |
| `WorkerSlots.Claimable` | src/worker/mod.rs:412-421 | Exactly the registered kinds below their cap, uncapped ones always. |
| `WorkerSlots.SlotsTaken` | src/worker/mod.rs:365-381 | Tracking a claimed job keeps one tracked job per task, the concurrency limit, exact counts and every cap. |
| `WorkerSlots.SlotsReleased` | src/worker/mod.rs:872-879 | Dropping a task and its slot keeps the same, with no zero entry left behind. |
| `Worker.Loop.ClaimNext` | src/postgres/mod.rs:257-296 | Answers None exactly when nothing is eligible at the floor in the state the call met, otherwise a row that is, with none before it in claim order, leased to this worker for its configured lease from that moment; an error only from that call's outage or an exhausted run count among the rows ready to be claimed. |
| `Worker.Loop.ClaimWithFallback` | src/worker/mod.rs:425-440 | Answers None exactly when the first call met nothing at the floor and the second nothing at all; otherwise a first row at the floor, or, only if there was none, a first row without it. None means that no tier has work. |
| `WorkerTurns.NoWastedSlot` | src/worker/mod.rs:422-440 | With nobody interfering between the two calls, the attempt comes back empty exactly when no tier has a ready job of those kinds. |
| `Worker.Loop.NextFloor` | src/worker/mod.rs:356-357 | The n-th attempt uses the floor of counter n, wrapping. |
| `Worker.Loop.TryClaim` | src/worker/mod.rs:356-359 | One call makes and logs exactly one attempt, with its call number, the kinds it was given and the row it took. The ids taken by the attempts are, in order, exactly the ids claimed. Each attempt offered registered kinds, among them all without a cap, met a state of the run, in order, and took a first row at the floor of its turn if there was one, unless its own first call failed. |
| `Worker.Loop.ApplyTaskLease` | src/worker/mod.rs:591-607 | If the task asks for another lease than the worker's, the call made for it sets that lease, clamped, unless it fails. |
| `Worker.Loop.Fill` | src/worker/mod.rs:343-384 | Keeps the bookkeeping invariant at every loop head and, unless shut down or failing, stops only with every slot taken or nothing claimable for the kinds below their cap. |
| `Worker.Loop.RecoverStale` | src/worker/mod.rs:535-583 | Unless the scan's own call fails, it reports every expired claim, or the 100 expired longest. Each one reported has a recovery made by a call of its own, for the time read after the scan and with the delay drawn for its failure total; unless that call fails the epoch is over afterwards, or its lease was renewed since the scan. |
| `Worker.Loop.Settle` | src/worker/mod.rs:705-753 | If this call goes through, the claim of a task that joined is ended by a settlement with the handler's own report, written for the time the clock read for this very call, and the retry delay drawn by the job's id for its failure total; only if this call fails is the claim lost. |
| `Worker.Loop.Release` | src/worker/mod.rs:683-701 | Knowing only the tracked id, kind and run number, an aborted task's claim is released, for the time the clock read for this very call; only if this call fails is it lost. |
| `Worker.Loop.HandleWake` | src/worker/mod.rs:389-403 | A join removes exactly the joined task from the running set, and one with a result puts it among the joined; any other wakeup leaves both alone. |
| `Worker.Loop.Refill` | src/worker/mod.rs:339-384 | A turn's work, whatever other calls fail: the scan and each recovery as above, call by call; then the slots are filled, unless the last check saw shutdown or claiming ended in an error, which takes an outage of its last call or an exhausted run count. |
| `Worker.Loop.Iterate` | src/worker/mod.rs:339-405 | One turn does that work, then takes in the wakeup: what joined leaves the running set, and with a result is among the joined. It stops exactly on shutdown. |
| `Worker.Loop.Reap` | src/worker/mod.rs:653-679 | A joined task leaves all three collections consistent and is settled; a join error leaves it to lease recovery. |
| `Worker.Loop.Drain` | src/worker/mod.rs:463-487 | Every task that joins before the deadline is reaped, whoever is aborted was running and had not finished, and nothing is running or tracked afterwards; nothing was lost if the drain's own calls went through and joins were clean. |
| `Worker.Loop.ForceFinish` | src/worker/mod.rs:497-517 | A handler that had finished is settled; only tasks still running and unfinished are aborted and released. |
| `Worker.Loop.Run` | src/worker/mod.rs:312-407 | For any waits, outages and interference: the loop turns once per wait until shutdown, and every turn does its work as far as its own calls go through. Every task that joined with a result, in a turn or in the drain, is among the joined, nobody else is but tasks found finished at the abort, and each of them is settled with its own report, a retry waiting the delay drawn for its failure total, or lost. On return no task is running or tracked; if the calls that settle what joined and those of the drain went through and joins were clean, no claim is lost and each is ended once. |
| `WorkerBooks.CleanShutdown` | src/worker/mod.rs:489-517 | With nothing lost, every claim the worker made has exactly one conclusion in the run. The worker settled it with the handler's own report exactly if the task joined with a result, and released it exactly if it was aborted unfinished; and as nobody else settles or releases its claims, the conclusion is that very step, or the recovery of an expired lease. |
| `WorkerBooks.JoinedIsSettled` | src/worker/mod.rs:653-666 | Whatever becomes of storage, the claim of a task that joined with a result is lost or was settled with that result, never released. |
| `WorkerBooks.SettledTaskLands` | src/worker/mod.rs:705-780 | When the worker's settlement is what concluded a claim of its run, the row and the journal entry after it are what the handler's execution asks, at the time the worker's clock read for that call: a task that paused for d at T is due at T + d, a retry at T plus the delay drawn for it. |
| `WorkerTurns.RetryBacksOff` | src/worker/mod.rs:784-809 | A retryable failure settled by the worker leaves the job dead, or pending and due after a delay in the jitter band of its failure total. |
| `WorkerTurns.RecoveryBacksOff` | src/worker/mod.rs:545-575 | So does a recovery, on the worker's own curve. |
| `Worker.Loop.ServesLowerTiers` | src/worker/mod.rs:345-359 | Of the worker itself, from any of its attempts on: a due Low (Normal) job of a registered kind, holding its place with k due jobs of its tier and of registered kinds ahead, is taken within (k+f+1) windows of its attempts if f of those fail, and is one of its claims, the one that attempt made. That its kind is on offer is assumed only of capped kinds. |
| `Worker.Loop.FailuresHaveCauses` | src/worker/mod.rs:378-383 | An attempt fails only by an outage of its own first call, or because a job it could claim has exhausted its run count. |
| `Backoff.NewCurve` | src/backoff.rs:38-42 | Every constructible curve has a positive base and a cap no smaller than it. |
| `Backoff.FibMinusOne` | src/backoff.rs:112-123 | The saturating loop returns min(Fib(n), u64::MAX) - 1 for every n >= 1, and 0 for n <= 2. |
| `Backoff.BaseDelay` | src/backoff.rs:99-107 | The delay is min(base·(Fib(n)-1), cap, u64::MAX ns) over unbounded integers: saturation is unobservable. |
| `Backoff.DelayMonotone` | src/backoff.rs:99-107 | The delay never falls as attempts grow. |
| `Backoff.SplitMix64Bijective` | src/backoff.rs:141-147 | The mixer is a bijection on 64-bit words, with an explicit inverse. |
| `Backoff.DistinctAttemptsDistinctWords` | src/backoff.rs:130-138 | For one job, distinct attempts give distinct mixed words. |
| `Backoff.DistinctJobsDistinctWords` | src/backoff.rs:130-138 | For one attempt, jobs whose ids differ in just one half give distinct mixed words. |
| `Backoff.JitterIsTopBits` | src/backoff.rs:136-138 | A job's sample is its mixed word's top 53 bits, as a fraction of 2^53. |
| `Backoff.JitterBounds` | src/backoff.rs:82-96 | In real arithmetic the jittered delay lies in [floor(delay·(1-f)), delay]. |
| `Backoff.RetryDelay` | src/backoff.rs:82-96 | The realized delay is the one the job's id draws for this attempt; it lies in the jitter band, never exceeds the cap and is zero for the first two attempts. |
| `UlidText.EncodeOrdered` | src/postgres/mod.rs:578-592 | The 26-character text of an id compares exactly as the id does, so the text column sorts like the id. |
| `SqlQuery.CursorClauseMeans` | src/postgres/mod.rs:578-592 | The row-value comparison with the cursor selects exactly the rows older than it. |
| `SqlQuery.BuildQuery` | src/postgres/mod.rs:552-617 | For every filter the clauses, with each `$i` bound at the index it names, select under three-valued logic exactly the rows of the reference predicate, with the same limit. |
| `SqlQuery.StoresAgree` | src/postgres/mod.rs:552-617 | PostgreSQL's answer and the in-memory store's page are the same sequence of rows. |
| `SqlQuery.BuildCleanup` | src/postgres/mod.rs:630-656 | The cleanup statement deletes exactly the rows the criteria name. |
| `History.PageUnique` | src/store.rs:497-520 | A table and a filter determine the page. |
| `Paging.PageAll` | tests/pagination.rs:46-66 | Following the cursor over a changing table terminates, never repeats a row, yields strictly descending (created_at, id), shows only rows that matched when read, and shows every row that stays present and matching throughout. |
| `Paging.DistinctIds` | src/test_support.rs:256-284 | No job appears twice among the rows shown, even when the table changed between pages. |
| `Paging.QueueHistoryCoherent` | src/store.rs:509-515 | Whatever states of a protocol run the queries meet, ids keep their creation time for life and never come back: so paging is exact over the real table, whatever everyone does to it between pages. |

## Left out

- Pool, TLS, connection and migration code; advisory lock and prefix validation.
- Row decoding and JSON shapes: payloads and carries are opaque, and a payload or carry that cannot be decoded is one of a handler's possible behaviours.
- The internals of `FOR UPDATE SKIP LOCKED` and of transactions: each store call is one atomic step, and any row with the smallest (priority, created_at) may be claimed.
- Floating-point rounding of the jitter: the delay is computed over reals and floored.
- tokio scheduling, `select!`, the real clock and the notifier: they appear as arbitrary waits, joins and interleavings. `wait_duration` and `next_visible_at` only choose how long to sleep and are not modelled.
- The LISTEN/NOTIFY channel and which settlements notify: a missed wakeup costs latency up to the poll interval, which the model does not measure.
- Observability, statistics, error formatting and the builder's setters.
- Loading a job's journal for the handler: the handler's behaviour is arbitrary, so what it reads does not matter.
- A storage failure is a call that had no effect; a call that commits and then reports an error is not modelled.
- Meddling: that a claim is concluded by the worker's own step (or a recovery) assumes that nobody else settles or releases a record this worker was handed (`HandsOff`); nothing else about the other participants is assumed.
- Note texts: the fixed journal notes are constructors, not strings.
- Fresh ids: the protocol assumes that a generated ULID has not been generated before. The in-memory store would overwrite a row on a repeated id where PostgreSQL refuses it.
- Run counts: claiming a row whose run count is at the `integer` limit is an error, as in PostgreSQL; the in-memory store has no such limit before u32 overflow.
- `find_stale`: in the protocol a scan may report any subset of the expired claims; the worker's scan reports all of them or the 100 expired longest, which covers both stores.
- A negative history limit: the in-memory store treats it as zero, which is modelled; PostgreSQL rejects it, which is not.
- Text columns are compared by code point, as under the C collation.
