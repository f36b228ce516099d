/** The in-memory store: the executable meaning of every store call. Each method is proved against
    the function of the same call on the database value. */
module FakeStore {
  import opened Records
  import opened Journal
  import opened StoreSteps
  import opened History

  // ------------------------------------------------------------------ selection

  /** The deterministic claim order of this store: tier, age, then id. */
  predicate ClaimsBefore(a: JobRecord, b: JobRecord) {
    || a.priority < b.priority
    || (a.priority == b.priority && a.createdAt < b.createdAt)
    || (a.priority == b.priority && a.createdAt == b.createdAt && a.id < b.id)
  }

  /** `best` is the first row in claim order among those of `among` that are eligible. */
  ghost predicate FirstEligible(
    jobs: map<Ulid, JobRecord>, among: set<Ulid>, now: Timestamp, kinds: seq<string>, floor: int, best: Option<Ulid>)
  {
    && (best.None? <==> forall id :: id in among && id in jobs ==> !Eligible(jobs[id], now, kinds, floor))
    && (best.Some? ==>
          && best.value in among && best.value in jobs && Eligible(jobs[best.value], now, kinds, floor)
          && (forall id :: id in among && id in jobs && id != best.value && Eligible(jobs[id], now, kinds, floor)
                ==> ClaimsBefore(jobs[best.value], jobs[id])))
  }

  /** The best-key loop of the claim, over the rows in any order. */
  method SelectClaim(jobs: map<Ulid, JobRecord>, now: Timestamp, kinds: seq<string>, floor: int)
    returns (best: Option<Ulid>)
    requires Keyed(jobs)
    ensures FirstEligible(jobs, jobs.Keys, now, kinds, floor, best)
  {
    best := None;
    var todo := jobs.Keys;
    ghost var seen: set<Ulid> := {};
    while todo != {}
      invariant seen + todo == jobs.Keys && seen !! todo
      invariant FirstEligible(jobs, seen, now, kinds, floor, best)
      decreases |todo|
    {
      var id :| id in todo;
      if Eligible(jobs[id], now, kinds, floor)
         && (best.None? || ClaimsBefore(jobs[id], jobs[best.value]))
      {
        best := Some(id);
      }
      todo, seen := todo - {id}, seen + {id};
    }
  }

  /** The choice does not depend on the iteration order, and is one the claim statement may make. */
  lemma ClaimChoiceUnique(
    db: Db, now: Timestamp, kinds: seq<string>, floor: int, a: Option<Ulid>, b: Option<Ulid>)
    requires FirstEligible(db.jobs, db.jobs.Keys, now, kinds, floor, a)
    requires FirstEligible(db.jobs, db.jobs.Keys, now, kinds, floor, b)
    ensures a == b
    ensures a.Some? ==> ClaimTarget(db, now, kinds, floor, a.value)
  {
    if a.Some? && b.Some? && a != b {
      assert false;
    }
  }

  /** `best` is the oldest pending row of `(kind, key)` among `among`, by creation time then id. */
  ghost predicate OldestSibling(
    jobs: map<Ulid, JobRecord>, among: set<Ulid>, kind: string, key: string, best: Option<Ulid>)
  {
    && (best.None? <==> forall id :: id in among && id in jobs ==> !Sibling(jobs[id], kind, key))
    && (best.Some? ==>
          && best.value in among && best.value in jobs && Sibling(jobs[best.value], kind, key)
          && (forall id :: id in among && id in jobs && id != best.value && Sibling(jobs[id], kind, key)
                ==> Older(KeyOf(jobs[best.value]), KeyOf(jobs[id]))))
  }

  method SelectCandidate(jobs: map<Ulid, JobRecord>, kind: string, key: string) returns (best: Option<Ulid>)
    requires Keyed(jobs)
    ensures OldestSibling(jobs, jobs.Keys, kind, key, best)
  {
    best := None;
    var todo := jobs.Keys;
    ghost var seen: set<Ulid> := {};
    while todo != {}
      invariant seen + todo == jobs.Keys && seen !! todo
      invariant OldestSibling(jobs, seen, kind, key, best)
      decreases |todo|
    {
      var id :| id in todo;
      if Sibling(jobs[id], kind, key) && (best.None? || Older(KeyOf(jobs[id]), KeyOf(jobs[best.value]))) {
        best := Some(id);
      }
      todo, seen := todo - {id}, seen + {id};
    }
  }

  /** Every expired claim among `among`, once each, in no particular order. */
  ghost predicate StaleRows(jobs: map<Ulid, JobRecord>, among: set<Ulid>, now: Timestamp, rows: seq<JobRecord>) {
    && (forall r :: r in rows <==> r.id in among && r.id in jobs && jobs[r.id] == r && Stale(r, now))
    && (forall i, j :: 0 <= i < j < |rows| ==> rows[i].id != rows[j].id)
  }

  lemma StaleRowsGrow(jobs: map<Ulid, JobRecord>, among: set<Ulid>, now: Timestamp, rows: seq<JobRecord>, id: Ulid)
    requires StaleRows(jobs, among, now, rows) && id in jobs && id !in among && jobs[id].id == id
    ensures StaleRows(jobs, among + {id}, now, if Stale(jobs[id], now) then rows + [jobs[id]] else rows)
  {
    assert forall i :: 0 <= i < |rows| ==> rows[i] in rows;
  }

  // ---------------------------------------------------------------- sorted rows

  /** Insert a row into a newest-first sequence. */
  function Inserted(rows: seq<JobRecord>, j: JobRecord): seq<JobRecord> {
    if rows == [] then [j]
    else if Older(KeyOf(rows[|rows| - 1]), KeyOf(j)) then Inserted(rows[..|rows| - 1], j) + [rows[|rows| - 1]]
    else rows + [j]
  }

  lemma {:induction false} InsertedMembers(rows: seq<JobRecord>, j: JobRecord)
    ensures forall r :: r in Inserted(rows, j) <==> r in rows || r == j
  {
    if rows != [] {
      InsertedMembers(rows[..|rows| - 1], j);
      assert rows == rows[..|rows| - 1] + [rows[|rows| - 1]];
    }
  }

  lemma {:induction false} InsertedSorted(rows: seq<JobRecord>, j: JobRecord)
    requires NewestFirst(rows) && forall r :: r in rows ==> r.id != j.id
    ensures NewestFirst(Inserted(rows, j))
  {
    if rows != [] && Older(KeyOf(rows[|rows| - 1]), KeyOf(j)) {
      var front, last := rows[..|rows| - 1], rows[|rows| - 1];
      InsertedSorted(front, j);
      InsertedMembers(front, j);
      forall i | 0 <= i < |Inserted(front, j)|
        ensures Older(KeyOf(last), KeyOf(Inserted(front, j)[i]))
      {
        assert Inserted(front, j)[i] in Inserted(front, j);
      }
    } else if rows != [] {
      assert rows[|rows| - 1] in rows;
    }
  }

  /** Truncating the full sorted answer gives the page. */
  lemma TruncatedPage(table: map<Ulid, JobRecord>, wanted: JobRecord -> bool, all: seq<JobRecord>, n: nat)
    requires TopRows(table, wanted, None, all) && n <= |all|
    ensures TopRows(table, wanted, Some(n), all[..n])
  {
    forall id | id in table && wanted(table[id]) && table[id] !in all[..n]
      ensures forall r :: r in all[..n] ==> Older(KeyOf(table[id]), KeyOf(r))
    {
      assert table[id] in all;
    }
  }

  lemma ShortPage(table: map<Ulid, JobRecord>, wanted: JobRecord -> bool, all: seq<JobRecord>, n: nat)
    requires TopRows(table, wanted, None, all) && |all| <= n
    ensures TopRows(table, wanted, Some(n), all)
  {
  }

  /** The matching rows among `among`, newest first. */
  ghost predicate Collected(jobs: map<Ulid, JobRecord>, among: set<Ulid>, f: HistoryFilter, rows: seq<JobRecord>) {
    && NewestFirst(rows)
    && (forall r :: r in rows <==> r.id in among && r.id in jobs && jobs[r.id] == r && Matches(f, r))
  }

  lemma CollectedGrows(jobs: map<Ulid, JobRecord>, among: set<Ulid>, f: HistoryFilter, rows: seq<JobRecord>, id: Ulid)
    requires Collected(jobs, among, f, rows) && id in jobs && id !in among && jobs[id].id == id
    ensures Collected(jobs, among + {id}, f, if Matches(f, jobs[id]) then Inserted(rows, jobs[id]) else rows)
  {
    if Matches(f, jobs[id]) {
      InsertedSorted(rows, jobs[id]);
      InsertedMembers(rows, jobs[id]);
    }
  }

  /** Filter, sort newest first, truncate. */
  method SelectPage(jobs: map<Ulid, JobRecord>, f: HistoryFilter) returns (page: seq<JobRecord>)
    requires Keyed(jobs)
    ensures IsPage(jobs, f, page)
  {
    page := [];
    var todo := jobs.Keys;
    ghost var seen: set<Ulid> := {};
    while todo != {}
      invariant seen + todo == jobs.Keys && seen !! todo
      invariant Collected(jobs, seen, f, page)
      decreases |todo|
    {
      var id :| id in todo;
      CollectedGrows(jobs, seen, f, page, id);
      if Matches(f, jobs[id]) {
        page := Inserted(page, jobs[id]);
      }
      todo, seen := todo - {id}, seen + {id};
    }
    ghost var wanted := (j: JobRecord) => Matches(f, j);
    assert TopRows(jobs, wanted, None, page);
    if f.limit.Some? {
      var limit := if f.limit.value < 0 then 0 else f.limit.value;
      if limit <= |page| {
        TruncatedPage(jobs, wanted, page, limit);
        page := page[..limit];
      } else {
        ShortPage(jobs, wanted, page, limit);
      }
    }
  }

  // ------------------------------------------------------------------ the store

  /** The row holds the job as it was enqueued, due when it should be, and nothing has happened to it. */
  predicate Holds(row: JobRecord, job: NewJob) {
    && row.id == job.id && row.kind == job.kind && row.payload == job.payload && row.carry == job.carry
    && row.priority == job.priority && row.createdAt == job.createdAt && row.visibleAt == job.visibleAt
    && row.dedupKey == job.dedupKey && row.status.Pending? && row.runCount == 0 && row.failureCount == 0
    && row.claimedBy.None? && row.claimExpiresAt.None? && row.finishedAt.None?
  }

  /** The row as it was, but in its next run, which `owner` holds until the given instant. */
  predicate HandedOut(before: JobRecord, row: JobRecord, until: Timestamp, owner: string) {
    && row.status.Claimed? && row.runCount == before.runCount + 1
    && row.claimedBy == Some(owner) && row.claimExpiresAt == Some(until)
    && row.payload == before.payload && row.carry == before.carry && row.priority == before.priority
    && row.failureCount == before.failureCount && row.visibleAt == before.visibleAt
    && KeyOf(row) == KeyOf(before) && row.kind == before.kind && row.dedupKey == before.dedupKey
  }

  /** The row with its work, carry and tier superseded, if there is anything to supersede them. */
  predicate Superseded(before: JobRecord, update: Option<MergePayload>, row: JobRecord) {
    && row.payload == (if update.Some? then update.value.payload else before.payload)
    && row.carry == (if update.Some? then update.value.carry else before.carry)
    && row.priority == (if update.Some? then update.value.priority else before.priority)
    && row.status == before.status && row.visibleAt == before.visibleAt
    && row.runCount == before.runCount && row.failureCount == before.failureCount
    && KeyOf(row) == KeyOf(before) && row.kind == before.kind && row.dedupKey == before.dedupKey
  }

  class Store {
    var jobs: map<Ulid, JobRecord>
    var journal: seq<JournalRecord>
    var nextJournalId: int
    var missNextMerge: bool

    ghost predicate Valid()
      reads this
    {
      Keyed(jobs) && Ordered(journal, nextJournalId)
    }

    function Contents(): Db
      reads this
    {
      Db(jobs, journal, nextJournalId)
    }

    constructor ()
      ensures Valid() && Contents() == EMPTY && !missNextMerge
    {
      jobs, journal, nextJournalId, missNextMerge := map[], [], 0, false;
    }

    /** Insert a pending row; a tier outside 0..2 is refused before it reaches storage. */
    method Enqueue(job: NewJob) returns (r: Result<(), StoreError>)
      requires Valid()
      modifies this
      ensures Valid() && missNextMerge == old(missNextMerge)
      ensures r.Ok? <==> ValidPriority(job.priority)
      ensures Contents() == if r.Ok? then Put(old(Contents()), FreshRow(job)) else old(Contents())
      ensures r.Ok? ==> job.id in jobs && Holds(jobs[job.id], job)
    {
      if !ValidPriority(job.priority) {
        return Err(InvalidPriority(job.priority));
      }
      jobs := jobs[job.id := FreshRow(job)];
      return Ok(());
    }

    /** Claim the first eligible row, or report that there is none. */
    method ClaimNext(now: Timestamp, kinds: seq<string>, floor: int, lease: Duration, owner: string)
      returns (claimed: Option<JobRecord>)
      requires Valid()
      modifies this
      ensures Valid() && missNextMerge == old(missNextMerge)
      ensures FirstEligible(old(jobs), old(jobs).Keys, now, kinds, floor,
                            if claimed.Some? then Some(claimed.value.id) else None)
      ensures claimed.Some? ==>
        && claimed.value == ClaimedRow(old(jobs)[claimed.value.id], now, lease, owner)
        && Contents() == Put(old(Contents()), claimed.value)
        && HandedOut(old(jobs)[claimed.value.id], claimed.value, AddDuration(now, lease), owner)
      ensures claimed.None? ==> Contents() == old(Contents())
    {
      var best := SelectClaim(jobs, now, kinds, floor);
      if best.None? {
        return None;
      }
      var row := ClaimedRow(jobs[best.value], now, lease, owner);
      jobs := jobs[best.value := row];
      return Some(row);
    }

    method Log(id: Ulid, e: JournalAppend)
      requires Ordered(journal, nextJournalId)
      modifies this`journal, this`nextJournalId
      ensures journal == old(journal) + [Entry(old(nextJournalId), id, e)]
      ensures nextJournalId == old(nextJournalId) + 1
      ensures Ordered(journal, nextJournalId)
    {
      journal := journal + [Entry(nextJournalId, id, e)];
      nextJournalId := nextJournalId + 1;
    }

    method Settle(id: Ulid, owner: string, runNo: nat, settlement: Settlement, e: JournalAppend)
      returns (applied: bool)
      requires Valid()
      modifies this
      ensures Valid() && missNextMerge == old(missNextMerge)
      ensures (Contents(), applied) == StoreSteps.Settle(old(Contents()), id, owner, runNo, settlement, e)
    {
      if id !in jobs || !jobs[id].status.Claimed? || jobs[id].claimedBy != Some(owner) || jobs[id].runCount != runNo {
        return false;
      }
      jobs := jobs[id := SettledRow(jobs[id], settlement)];
      Log(id, e);
      return true;
    }

    method ExtendLease(now: Timestamp, id: Ulid, owner: string, runNo: nat, lease: Duration)
      returns (applied: bool)
      requires Valid()
      modifies this
      ensures Valid() && missNextMerge == old(missNextMerge)
      ensures (Contents(), applied) == StoreSteps.ExtendLease(old(Contents()), now, id, owner, runNo, lease)
      ensures applied ==> id in jobs && jobs[id].claimExpiresAt == Some(AddDuration(now, lease))
    {
      if id !in jobs || !jobs[id].status.Claimed? || jobs[id].claimedBy != Some(owner) || jobs[id].runCount != runNo {
        return false;
      }
      jobs := jobs[id := jobs[id].(claimExpiresAt := Some(AddDuration(now, lease)))];
      return true;
    }

    method FindStale(now: Timestamp) returns (stale: seq<JobRecord>)
      requires Valid()
      ensures StaleRows(jobs, jobs.Keys, now, stale)
    {
      stale := [];
      var todo := jobs.Keys;
      ghost var seen: set<Ulid> := {};
      while todo != {}
        invariant seen + todo == jobs.Keys && seen !! todo
        invariant StaleRows(jobs, seen, now, stale)
        decreases |todo|
      {
        var id :| id in todo;
        StaleRowsGrow(jobs, seen, now, stale, id);
        if Stale(jobs[id], now) {
          stale := stale + [jobs[id]];
        }
        todo, seen := todo - {id}, seen + {id};
      }
    }

    method Recover(now: Timestamp, id: Ulid, visibleAt: Timestamp, failures: int, runNo: nat, e: JournalAppend)
      returns (applied: bool)
      requires Valid()
      modifies this
      ensures Valid() && missNextMerge == old(missNextMerge)
      ensures (Contents(), applied) == StoreSteps.Recover(old(Contents()), now, id, visibleAt, failures, runNo, e)
    {
      if id !in jobs {
        return false;
      }
      var expired := jobs[id].status.Claimed? && jobs[id].runCount == runNo
        && jobs[id].claimExpiresAt.Some? && jobs[id].claimExpiresAt.value < now;
      if !expired {
        return false;
      }
      jobs := jobs[id := RecoveredRow(jobs[id], visibleAt, failures)];
      Log(id, e);
      return true;
    }

    method DedupCandidate(kind: string, key: string) returns (candidate: Option<JobRecord>)
      requires Valid()
      ensures candidate.None? ==> NoSibling(Contents(), kind, key)
      ensures candidate.Some? ==>
        && StoreSteps.DedupCandidate(Contents(), kind, key, candidate.value.id)
        && jobs[candidate.value.id] == candidate.value
    {
      var best := SelectCandidate(jobs, kind, key);
      candidate := if best.Some? then Some(jobs[best.value]) else None;
    }

    /** Apply a merge to a row that is still pending. The one-shot test seam makes the next call
        miss, as if the candidate had just been claimed. */
    method MergeInto(id: Ulid, update: Option<MergePayload>, e: JournalAppend) returns (applied: bool)
      requires Valid()
      modifies this
      ensures Valid() && !missNextMerge
      ensures (Contents(), applied)
           == if old(missNextMerge) then (old(Contents()), false)
              else StoreSteps.MergeInto(old(Contents()), id, update, e)
      ensures applied ==> id in jobs && id in old(jobs) && Superseded(old(jobs)[id], update, jobs[id])
    {
      if missNextMerge {
        missNextMerge := false;
        return false;
      }
      if id !in jobs || !jobs[id].status.Pending? {
        return false;
      }
      jobs := jobs[id := MergedRow(jobs[id], update)];
      Log(id, e);
      return true;
    }

    /** Delete the finished jobs that match, one by one, cascading to their journal entries. */
    method Cleanup(c: CleanupCriteria) returns (deleted: nat)
      requires Valid()
      modifies this
      ensures Valid() && missNextMerge == old(missNextMerge)
      ensures (Contents(), deleted) == StoreSteps.Cleanup(old(Contents()), c)
    {
      var doomed := set id | id in jobs && Swept(jobs[id], c);
      deleted := |doomed|;
      ghost var before := Contents();
      ghost var gone: set<Ulid> := {};
      WithoutNothing(journal);
      while doomed != {}
        invariant gone + doomed == SweptIds(before, c) && gone !! doomed
        invariant jobs == before.jobs - gone
        invariant journal == Without(before.journal, gone)
        invariant nextJournalId == before.nextJournalId && missNextMerge == old(missNextMerge)
        decreases |doomed|
      {
        var id :| id in doomed;
        WithoutTwice(before.journal, gone, id);
        jobs := jobs - {id};
        journal := Without(journal, {id});
        gone := gone + {id};
        doomed := doomed - {id};
        assert jobs == before.jobs - gone;
      }
      assert gone == SweptIds(before, c);
      WithoutOrdered(before.journal, gone, nextJournalId);
    }

    /** One job's journal, in entry order. */
    method JournalOf(id: Ulid) returns (entries: seq<JournalRecord>)
      requires Valid()
      ensures entries == EntriesOf(journal, id)
    {
      entries := [];
      for i := 0 to |journal|
        invariant entries == EntriesOf(journal[..i], id)
      {
        EntriesOfAppend(journal[..i], journal[i], id);
        assert journal[..i + 1] == journal[..i] + [journal[i]];
        if journal[i].jobId == id {
          entries := entries + [journal[i]];
        }
      }
      assert journal[..|journal|] == journal;
    }

    method QueryJobs(f: HistoryFilter) returns (page: seq<JobRecord>)
      requires Valid()
      ensures IsPage(jobs, f, page)
    {
      page := SelectPage(jobs, f);
    }
  }
}
