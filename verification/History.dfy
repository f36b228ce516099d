/** The history query: which rows match a filter, and what a page of them is. */
module History {
  import opened Records

  /** A position in the history order: creation time, then id. */
  datatype Key = Key(createdAt: Timestamp, id: Ulid)

  datatype HistoryFilter = HistoryFilter(
    kind: Option<string>,
    status: Option<Status>,
    finishedSince: Option<Timestamp>,
    finishedUntil: Option<Timestamp>,
    createdBefore: Option<Key>,
    limit: Option<int>)

  function KeyOf(j: JobRecord): Key {
    Key(j.createdAt, j.id)
  }

  /** Strictly older: later in the `created_at DESC, id DESC` order. */
  predicate Older(a: Key, b: Key) {
    a.createdAt < b.createdAt || (a.createdAt == b.createdAt && a.id < b.id)
  }

  predicate Matches(f: HistoryFilter, j: JobRecord) {
    && (f.kind.Some? ==> j.kind == f.kind.value)
    && (f.status.Some? ==> j.status == f.status.value)
    && (f.finishedSince.Some? ==> j.finishedAt.Some? && j.finishedAt.value >= f.finishedSince.value)
    && (f.finishedUntil.Some? ==> j.finishedAt.Some? && j.finishedAt.value < f.finishedUntil.value)
    && (f.createdBefore.Some? ==> Older(KeyOf(j), f.createdBefore.value))
  }

  ghost predicate NewestFirst(rows: seq<JobRecord>) {
    forall i, j :: 0 <= i < j < |rows| ==> Older(KeyOf(rows[j]), KeyOf(rows[i]))
  }

  /** The newest `limit` rows (all of them without a limit) that satisfy `wanted`, newest first. */
  ghost predicate TopRows(
    table: map<Ulid, JobRecord>, wanted: JobRecord -> bool, limit: Option<nat>, page: seq<JobRecord>)
  {
    && NewestFirst(page)
    && (forall r :: r in page ==> r.id in table && table[r.id] == r && wanted(r))
    && (limit.Some? ==> |page| <= limit.value)
    && (forall id :: id in table && wanted(table[id]) && table[id] !in page ==>
          && limit.Some? && |page| == limit.value
          && (forall r :: r in page ==> Older(KeyOf(table[id]), KeyOf(r))))
  }

  /** A negative limit is read as zero. */
  function PageLimit(limit: Option<int>): Option<nat> {
    match limit
    case None => None
    case Some(n) => Some(if n < 0 then 0 else n)
  }

  ghost predicate IsPage(table: map<Ulid, JobRecord>, f: HistoryFilter, page: seq<JobRecord>) {
    TopRows(table, (j: JobRecord) => Matches(f, j), PageLimit(f.limit), page)
  }

  // ----------------------------------------------- a query has only one answer

  /** If two answers agree up to `i` and the first goes on, the second goes on with that row or a
      newer one. */
  lemma NextRowNoOlder(
    table: map<Ulid, JobRecord>, wanted: JobRecord -> bool, limit: Option<nat>,
    p: seq<JobRecord>, q: seq<JobRecord>, i: nat)
    requires TopRows(table, wanted, limit, p) && TopRows(table, wanted, limit, q)
    requires i < |p| && i <= |q| && p[..i] == q[..i]
    ensures i < |q| && (q[i] == p[i] || Older(KeyOf(p[i]), KeyOf(q[i])))
  {
    assert forall m :: 0 <= m < i ==> p[m] == p[..i][m] == q[m];
    assert p[i] in p;
    if p[i] in q {
      var k :| 0 <= k < |q| && q[k] == p[i];
    } else {
      assert table[p[i].id] == p[i];
      assert q[i] in q;
    }
  }

  lemma {:induction false} SamePrefix(
    table: map<Ulid, JobRecord>, wanted: JobRecord -> bool, limit: Option<nat>,
    p: seq<JobRecord>, q: seq<JobRecord>, i: nat)
    requires TopRows(table, wanted, limit, p) && TopRows(table, wanted, limit, q)
    requires i <= |p|
    ensures i <= |q| && p[..i] == q[..i]
  {
    if i > 0 {
      SamePrefix(table, wanted, limit, p, q, i - 1);
      NextRowNoOlder(table, wanted, limit, p, q, i - 1);
      NextRowNoOlder(table, wanted, limit, q, p, i - 1);
      assert p[..i] == p[..i - 1] + [p[i - 1]] && q[..i] == q[..i - 1] + [q[i - 1]];
    }
  }

  /** Two stores that answer the same query on the same table return the same page. */
  lemma PageUnique(
    table: map<Ulid, JobRecord>, wanted: JobRecord -> bool, limit: Option<nat>,
    p: seq<JobRecord>, q: seq<JobRecord>)
    requires TopRows(table, wanted, limit, p) && TopRows(table, wanted, limit, q)
    ensures p == q
  {
    SamePrefix(table, wanted, limit, p, q, |p|);
    SamePrefix(table, wanted, limit, q, p, |q|);
    assert p[..|p|] == p && q[..|q|] == q;
  }
}
