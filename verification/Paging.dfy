/** Following the keyset cursor through a history that changes between pages. */
module Paging {
  import opened Records
  import opened StoreSteps
  import opened Protocol
  import opened Invariant
  import opened History
  import opened FakeStore

  /** The table as each successive query finds it. */
  type Timeline = nat -> map<Ulid, JobRecord>

  /** Rows are keyed by id, keep their creation time for life, and only finitely many ever exist. */
  ghost predicate Coherent(tables: Timeline, universe: set<Key>) {
    && (forall i: nat :: Keyed(tables(i)))
    && (forall i: nat, id :: id in tables(i) ==> KeyOf(tables(i)[id]) in universe)
    && OneKeyPerId(universe)
  }

  /** Job `id` is present and matching at each of the first `n` queries. */
  ghost predicate Steady(tables: Timeline, f: HistoryFilter, n: nat, id: Ulid) {
    forall i: nat :: i < n ==> id in tables(i) && Matches(f, tables(i)[id])
  }

  ghost predicate Shown(rows: seq<JobRecord>, id: Ulid) {
    exists k :: 0 <= k < |rows| && rows[k].id == id
  }

  /** The row was read from the table of one of the first `n` queries, where it matched. */
  ghost predicate SourcedRow(tables: Timeline, f: HistoryFilter, n: nat, r: JobRecord) {
    exists i: nat :: i < n && r.id in tables(i) && tables(i)[r.id] == r && Matches(f, r)
  }

  ghost predicate Sourced(tables: Timeline, f: HistoryFilter, n: nat, rows: seq<JobRecord>) {
    forall k :: 0 <= k < |rows| ==> SourcedRow(tables, f, n, rows[k])
  }

  /** `k` has not been passed by the cursor yet. */
  predicate Beyond(k: Key, cursor: Option<Key>) {
    cursor.None? || Older(k, cursor.value)
  }

  /** What the loop has done after `n` queries: pages newest first down to the cursor, and every
      steady job either shown or still beyond the cursor. */
  ghost predicate Progress(
    tables: Timeline, f: HistoryFilter, n: nat, rows: seq<JobRecord>, cursor: Option<Key>)
  {
    && NewestFirst(rows)
    && (cursor.None? <==> rows == [])
    && (rows != [] ==> cursor == Some(KeyOf(rows[|rows| - 1])))
    && Sourced(tables, f, n, rows)
    && (forall id :: id in tables(0) && Steady(tables, f, n, id) && !Shown(rows, id) ==>
          Beyond(KeyOf(tables(0)[id]), cursor))
  }

  function PageFilter(f: HistoryFilter, cursor: Option<Key>, limit: int): HistoryFilter {
    f.(createdBefore := cursor, limit := Some(limit))
  }

  lemma PageExtends(
    tables: Timeline, universe: set<Key>, f: HistoryFilter, limit: int, n: nat, rows: seq<JobRecord>,
    cursor: Option<Key>, page: seq<JobRecord>)
    requires Coherent(tables, universe) && f.createdBefore.None?
    requires Progress(tables, f, n, rows, cursor)
    requires IsPage(tables(n), PageFilter(f, cursor, limit), page) && page != []
    ensures Progress(tables, f, n + 1, rows + page, Some(KeyOf(page[|page| - 1])))
    ensures Beyond(KeyOf(page[|page| - 1]), cursor) && KeyOf(page[|page| - 1]) in universe
  {
    assert page[|page| - 1] in page;
    PageBeyond(tables, f, limit, n, cursor, page);
    SortedExtends(rows, cursor, page);
    SourcedExtends(tables, f, n, rows, page, cursor, limit);
    var last := page[|page| - 1];
    forall id | id in tables(0) && Steady(tables, f, n + 1, id) && !Shown(rows + page, id)
      ensures Beyond(KeyOf(tables(0)[id]), Some(KeyOf(last)))
    {
      NotShownParts(rows, page, id);
      assert Steady(tables, f, n, id);
      SteadyRow(tables, universe, f, n, id);
      assert tables(n)[id] !in page;
    }
  }

  lemma PageBeyond(
    tables: Timeline, f: HistoryFilter, limit: int, n: nat, cursor: Option<Key>, page: seq<JobRecord>)
    requires f.createdBefore.None? && IsPage(tables(n), PageFilter(f, cursor, limit), page)
    ensures forall k :: 0 <= k < |page| ==> Beyond(KeyOf(page[k]), cursor)
  {
    assert forall k :: 0 <= k < |page| ==> page[k] in page;
  }

  lemma SortedExtends(rows: seq<JobRecord>, cursor: Option<Key>, page: seq<JobRecord>)
    requires NewestFirst(rows) && NewestFirst(page)
    requires rows != [] ==> cursor == Some(KeyOf(rows[|rows| - 1]))
    requires forall k :: 0 <= k < |page| ==> Beyond(KeyOf(page[k]), cursor)
    ensures NewestFirst(rows + page)
  {
  }

  /** A steady job is the same row, as far as its key goes, at every query. */
  lemma SteadyRow(tables: Timeline, universe: set<Key>, f: HistoryFilter, n: nat, id: Ulid)
    requires Coherent(tables, universe) && Steady(tables, f, n + 1, id)
    ensures id in tables(0) && id in tables(n) && Matches(f, tables(n)[id])
    ensures tables(n)[id].id == id && KeyOf(tables(n)[id]) == KeyOf(tables(0)[id])
  {
    assert 0 < n + 1 && n < n + 1;
    assert Keyed(tables(n)) && Keyed(tables(0));
  }

  lemma NotShownParts(rows: seq<JobRecord>, page: seq<JobRecord>, id: Ulid)
    requires !Shown(rows + page, id)
    ensures !Shown(rows, id) && forall r :: r in page ==> r.id != id
  {
    forall k | 0 <= k < |rows|
      ensures rows[k].id != id
    {
      assert (rows + page)[k] == rows[k];
    }
    forall k | 0 <= k < |page|
      ensures page[k].id != id
    {
      assert (rows + page)[|rows| + k] == page[k];
    }
  }

  lemma SourcedExtends(
    tables: Timeline, f: HistoryFilter, n: nat, rows: seq<JobRecord>, page: seq<JobRecord>,
    cursor: Option<Key>, limit: int)
    requires Sourced(tables, f, n, rows) && f.createdBefore.None?
    requires IsPage(tables(n), PageFilter(f, cursor, limit), page)
    ensures Sourced(tables, f, n + 1, rows + page)
  {
    forall k | 0 <= k < |rows + page|
      ensures SourcedRow(tables, f, n + 1, (rows + page)[k])
    {
      if k < |rows| {
        assert SourcedRow(tables, f, n, rows[k]);
      } else {
        assert page[k - |rows|] in page;
        assert n < n + 1;
      }
    }
  }

  /** Page through the whole history, following the cursor. The loop ends; its rows are strictly
      newest first, so none repeats; each was a matching row of the table some query met; and every
      job present and matching throughout is shown, exactly once, whatever is inserted, deleted or
      changed between the pages. A limit below one shows nothing. */
  method PageAll(tables: Timeline, f: HistoryFilter, limit: int, ghost universe: set<Key>)
    returns (rows: seq<JobRecord>, queries: nat)
    requires Coherent(tables, universe) && f.createdBefore.None?
    ensures queries >= 1
    ensures NewestFirst(rows) && Sourced(tables, f, queries, rows)
    ensures forall k, m :: 0 <= k < m < |rows| ==> rows[k].id != rows[m].id
    ensures limit >= 1 ==> forall id :: Steady(tables, f, queries, id) ==> Shown(rows, id)
    ensures limit < 1 ==> rows == []
  {
    rows := [];
    queries := 0;
    var cursor: Option<Key> := None;
    ghost var ahead := universe;
    while true
      invariant Progress(tables, f, queries, rows, cursor)
      invariant limit < 1 ==> rows == []
      invariant forall k :: k in universe && Beyond(k, cursor) ==> k in ahead
      decreases |ahead|
    {
      var page := SelectPage(tables(queries), PageFilter(f, cursor, limit));
      if page == [] {
        EmptyPageEnds(tables, universe, f, limit, queries, rows, cursor, page);
        queries := queries + 1;
        break;
      }
      PageExtends(tables, universe, f, limit, queries, rows, cursor, page);
      var last := page[|page| - 1];
      ghost var next := set k | k in ahead && Older(k, KeyOf(last));
      StrictlyFewer(ahead, next, KeyOf(last));
      cursor := Some(KeyOf(last));
      rows := rows + page;
      ahead := next;
      queries := queries + 1;
    }
    DistinctIds(tables, universe, f, queries, rows);
  }

  lemma EmptyPageEnds(
    tables: Timeline, universe: set<Key>, f: HistoryFilter, limit: int, n: nat, rows: seq<JobRecord>,
    cursor: Option<Key>, page: seq<JobRecord>)
    requires Coherent(tables, universe) && f.createdBefore.None?
    requires Progress(tables, f, n, rows, cursor)
    requires IsPage(tables(n), PageFilter(f, cursor, limit), page) && page == []
    ensures Sourced(tables, f, n + 1, rows)
    ensures limit >= 1 ==> forall id :: Steady(tables, f, n + 1, id) ==> Shown(rows, id)
  {
    SourcedExtends(tables, f, n, rows, page, cursor, limit);
    assert rows + page == rows;
    if limit >= 1 {
      forall id | Steady(tables, f, n + 1, id)
        ensures Shown(rows, id)
      {
        SteadyRow(tables, universe, f, n, id);
        assert Steady(tables, f, n, id);
        assert tables(n)[id] !in page;
      }
    }
  }

  lemma StrictlyFewer(ahead: set<Key>, next: set<Key>, k: Key)
    requires next <= ahead && k in ahead && k !in next
    ensures |next| < |ahead|
  {
    assert ahead == next + (ahead - next);
    assert k in ahead - next;
    assert |ahead| == |next| + |ahead - next|;
  }

  lemma DistinctIds(tables: Timeline, universe: set<Key>, f: HistoryFilter, n: nat, rows: seq<JobRecord>)
    requires Coherent(tables, universe) && NewestFirst(rows) && Sourced(tables, f, n, rows)
    ensures forall k, m :: 0 <= k < m < |rows| ==> rows[k].id != rows[m].id
  {
    forall k | 0 <= k < |rows|
      ensures KeyOf(rows[k]) in universe
    {
      assert SourcedRow(tables, f, n, rows[k]);
    }
  }

  // ------------------------------------------------------- the history of the queue

  function KeysIn(jobs: map<Ulid, JobRecord>): set<Key> {
    set id | id in jobs :: KeyOf(jobs[id])
  }

  /** The keys of all the rows there have ever been in a run of the queue. */
  function KeysEver(start: Timestamp, steps: seq<Step>): set<Key> {
    (if steps == [] then {} else KeysEver(start, steps[..|steps| - 1])) + KeysIn(Exec(Init(start), steps).db.jobs)
  }

  lemma {:induction false} KeysOfState(start: Timestamp, steps: seq<Step>, i: nat)
    requires i <= |steps|
    ensures KeysIn(At(Init(start), steps, i).db.jobs) <= KeysEver(start, steps)
    decreases |steps|
  {
    if i < |steps| {
      KeysOfState(start, steps[..|steps| - 1], i);
      AtPrefix(Init(start), steps, |steps| - 1, i);
    } else {
      assert steps[..i] == steps;
    }
  }

  /** The key an id was created with is the only one it ever has, and is never handed out again. */
  ghost predicate KeyKept(s: Sys, k: Key) {
    k.id in s.issued && (k.id in s.db.jobs ==> KeyOf(s.db.jobs[k.id]) == k)
  }

  ghost predicate AllKept(s: Sys, keys: set<Key>) {
    forall k {:trigger KeyKept(s, k)} :: k in keys ==> KeyKept(s, k)
  }

  ghost predicate OneKeyPerId(keys: set<Key>) {
    forall a, b :: a in keys && b in keys && a.id == b.id ==> a == b
  }

  lemma KeysKeptByStep(s: Sys, t: Sys, keys: set<Key>)
    requires AllKept(s, keys) && OneKeyPerId(keys) && Advances(s, t) && Keyed(t.db.jobs)
    ensures AllKept(t, keys + KeysIn(t.db.jobs)) && OneKeyPerId(keys + KeysIn(t.db.jobs))
  {
    forall k | k in keys
      ensures KeyKept(t, k)
    {
      assert KeyKept(s, k);
    }
    forall k | k in KeysIn(t.db.jobs)
      ensures KeyKept(t, k)
    {
    }
  }

  lemma LastStepAdvances(start: Timestamp, steps: seq<Step>)
    requires steps != []
    ensures Advances(Exec(Init(start), steps[..|steps| - 1]), Exec(Init(start), steps))
    ensures Keyed(Exec(Init(start), steps).db.jobs)
  {
    Reachable(start, steps[..|steps| - 1]);
    Reachable(start, steps);
    StepAdvances(Exec(Init(start), steps[..|steps| - 1]), steps[|steps| - 1]);
  }

  lemma {:induction false} KeysLastForLife(start: Timestamp, steps: seq<Step>)
    ensures AllKept(Exec(Init(start), steps), KeysEver(start, steps)) && OneKeyPerId(KeysEver(start, steps))
  {
    if steps != [] {
      var front := steps[..|steps| - 1];
      KeysLastForLife(start, front);
      LastStepAdvances(start, steps);
      KeysKeptByStep(Exec(Init(start), front), Exec(Init(start), steps), KeysEver(start, front));
    }
  }

  /** Whatever states of a run of the queue the queries happen to meet, their tables are coherent: so
      paging is exact over the real table, whatever everyone does to it between the pages. */
  lemma QueueHistoryCoherent(start: Timestamp, steps: seq<Step>, met: nat -> nat, tables: Timeline)
    requires forall n: nat :: met(n) <= |steps| && tables(n) == At(Init(start), steps, met(n)).db.jobs
    ensures Coherent(tables, KeysEver(start, steps))
  {
    KeysLastForLife(start, steps);
    forall n: nat
      ensures Keyed(tables(n))
      ensures forall id :: id in tables(n) ==> KeyOf(tables(n)[id]) in KeysEver(start, steps)
    {
      Reachable(start, steps[..met(n)]);
      KeysOfState(start, steps, met(n));
      assert forall id :: id in tables(n) ==> KeyOf(tables(n)[id]) in KeysIn(tables(n));
    }
  }
}
