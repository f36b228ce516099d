/** The dynamic SQL of the history query and of the cleanup: clauses over positional parameters,
    evaluated under SQL's three-valued logic, against the reference predicates. */
module SqlQuery {
  import opened Records
  import opened StoreSteps
  import opened History
  import opened UlidText

  // ------------------------------------------------------------- the SQL fragment

  datatype Column = KindCol | StatusCol | FinishedAtCol | CreatedAtCol | IdCol

  datatype Value = Text(s: string) | Time(t: Timestamp) | Number(n: int) | NullValue

  /** An operand: a column of the row or a positional parameter, counted from 1. */
  datatype Operand = Col(c: Column) | Param(index: nat)

  datatype Clause =
    | Equal(left: Operand, right: Operand)
    | AtLeast(left: Operand, right: Operand)
    | Below(left: Operand, right: Operand)
    | RowBelow(left1: Operand, left2: Operand, right1: Operand, right2: Operand)
    | IsNotNull(left: Operand)

  datatype Truth = True | False | Unknown

  /** A WHERE clause (a conjunction; empty means no WHERE), the parameters, and the index of the
      LIMIT parameter, if any. */
  datatype Query = Query(clauses: seq<Clause>, params: seq<Value>, limit: Option<nat>)

  function ColumnOf(j: JobRecord, c: Column): Value {
    match c
    case KindCol => Text(j.kind)
    case StatusCol => Text(StatusText(j.status))
    case FinishedAtCol => if j.finishedAt.Some? then Time(j.finishedAt.value) else NullValue
    case CreatedAtCol => Time(j.createdAt)
    case IdCol => Text(Encode(j.id))
  }

  /** A parameter outside the bound ones is an error, which fails the whole query. */
  function OperandOf(j: JobRecord, params: seq<Value>, o: Operand): Option<Value> {
    match o
    case Col(c) => Some(ColumnOf(j, c))
    case Param(i) => if 1 <= i <= |params| then Some(params[i - 1]) else None
  }

  /** Compare two values: an error across types, unknown if either is null. */
  function Compare(a: Value, b: Value, wanted: Order): Option<Truth> {
    match (a, b)
    case (NullValue, _) => Some(Unknown)
    case (_, NullValue) => Some(Unknown)
    case (Text(s), Text(t)) => Some(Holds(wanted, s == t, TextBelow(s, t)))
    case (Time(s), Time(t)) => Some(Holds(wanted, s == t, s < t))
    case (Number(s), Number(t)) => Some(Holds(wanted, s == t, s < t))
    case _ => None
  }

  datatype Order = Same | Less | NoLess

  function Holds(wanted: Order, same: bool, less: bool): Truth {
    var yes := match wanted case Same => same case Less => less case NoLess => !less;
    if yes then True else False
  }

  function And(a: Truth, b: Truth): Truth {
    if a.False? || b.False? then False else if a.True? && b.True? then True else Unknown
  }

  function Or(a: Truth, b: Truth): Truth {
    if a.True? || b.True? then True else if a.False? && b.False? then False else Unknown
  }

  function EvalCompare(j: JobRecord, params: seq<Value>, a: Operand, b: Operand, wanted: Order): Option<Truth> {
    var x, y := OperandOf(j, params, a), OperandOf(j, params, b);
    if x.Some? && y.Some? then Compare(x.value, y.value, wanted) else None
  }

  /** A row-value comparison is lexicographic. */
  function EvalClause(j: JobRecord, params: seq<Value>, c: Clause): Option<Truth> {
    match c
    case Equal(a, b) => EvalCompare(j, params, a, b, Same)
    case AtLeast(a, b) => EvalCompare(j, params, a, b, NoLess)
    case Below(a, b) => EvalCompare(j, params, a, b, Less)
    case RowBelow(a1, a2, b1, b2) =>
      var lt1, eq1, lt2 := EvalCompare(j, params, a1, b1, Less), EvalCompare(j, params, a1, b1, Same),
                           EvalCompare(j, params, a2, b2, Less);
      if lt1.Some? && eq1.Some? && lt2.Some? then Some(Or(lt1.value, And(eq1.value, lt2.value))) else None
    case IsNotNull(a) =>
      var x := OperandOf(j, params, a);
      if x.None? then None else Some(if x.value.NullValue? then False else True)
  }

  function EvalWhere(j: JobRecord, params: seq<Value>, clauses: seq<Clause>): Option<Truth> {
    if clauses == [] then Some(True)
    else
      var before := EvalWhere(j, params, clauses[..|clauses| - 1]);
      var last := EvalClause(j, params, clauses[|clauses| - 1]);
      if before.Some? && last.Some? then Some(And(before.value, last.value)) else None
  }

  /** A row is selected when its WHERE clause is true: neither false nor unknown. */
  predicate Selects(clauses: seq<Clause>, params: seq<Value>, j: JobRecord) {
    EvalWhere(j, params, clauses) == Some(True)
  }

  // -------------------------------------------------------- growing a WHERE clause

  /** The clauses built so far never fail on any row, and select exactly the rows `wanted` accepts. */
  ghost predicate Selecting(clauses: seq<Clause>, params: seq<Value>, wanted: JobRecord -> bool) {
    forall j :: EvalWhere(j, params, clauses).Some? && (Selects(clauses, params, j) <==> wanted(j))
  }

  lemma MoreParams(j: JobRecord, params: seq<Value>, extra: seq<Value>, c: Clause)
    requires EvalClause(j, params, c).Some?
    ensures EvalClause(j, params + extra, c) == EvalClause(j, params, c)
  {
  }

  lemma {:induction false} MoreParamsWhere(j: JobRecord, params: seq<Value>, extra: seq<Value>, clauses: seq<Clause>)
    requires EvalWhere(j, params, clauses).Some?
    ensures EvalWhere(j, params + extra, clauses) == EvalWhere(j, params, clauses)
  {
    if clauses != [] {
      MoreParamsWhere(j, params, extra, clauses[..|clauses| - 1]);
      MoreParams(j, params, extra, clauses[|clauses| - 1]);
    }
  }

  /** On every row the clause evaluates, and `narrower` is `wanted` and the clause being true. */
  ghost predicate Narrows(c: Clause, params: seq<Value>, wanted: JobRecord -> bool, narrower: JobRecord -> bool) {
    forall j ::
      && EvalClause(j, params, c).Some?
      && (narrower(j) <==> wanted(j) && EvalClause(j, params, c) == Some(True))
  }

  /** Pushing parameters and one clause narrows the selection by exactly that clause's test. */
  lemma Narrow(
    clauses: seq<Clause>, params: seq<Value>, wanted: JobRecord -> bool,
    extra: seq<Value>, c: Clause, narrower: JobRecord -> bool)
    requires Selecting(clauses, params, wanted) && Narrows(c, params + extra, wanted, narrower)
    ensures Selecting(clauses + [c], params + extra, narrower)
  {
    assert (clauses + [c])[..|clauses|] == clauses;
    forall j
      ensures EvalWhere(j, params + extra, clauses + [c]).Some?
      ensures Selects(clauses + [c], params + extra, j) <==> narrower(j)
    {
      MoreParamsWhere(j, params, extra, clauses);
      assert Selects(clauses, params, j) <==> wanted(j);
    }
  }

  // ------------------------------------------------------------- the history query

  /** The reference predicate of a filter. */
  function Wants(f: HistoryFilter): JobRecord -> bool {
    (j: JobRecord) => Matches(f, j)
  }

  const UNFILTERED: HistoryFilter := HistoryFilter(None, None, None, None, None, None)

  lemma StatusTextDistinct(s: Status, t: Status)
    ensures StatusText(s) == StatusText(t) <==> s == t
  {
    StatusTextRoundTrip(s);
    StatusTextRoundTrip(t);
  }

  /** The keyset bound: a row-value comparison on `(created_at, id)` as text is the history order. */
  lemma CursorClauseMeans(j: JobRecord, params: seq<Value>, key: Key)
    requires |params| >= 2
    requires params[|params| - 2] == Time(key.createdAt) && params[|params| - 1] == Text(Encode(key.id))
    ensures EvalClause(
        j, params, RowBelow(Col(CreatedAtCol), Col(IdCol), Param(|params| - 1), Param(|params|)))
      == Some(if Older(KeyOf(j), key) then True else False)
  {
    EncodeOrdered(j.id, key.id);
  }

  method PushKindAndStatus(f: HistoryFilter) returns (clauses: seq<Clause>, params: seq<Value>)
    ensures Selecting(clauses, params, Wants(UNFILTERED.(kind := f.kind, status := f.status)))
  {
    clauses, params := [], [];
    if f.kind.Some? {
      params := params + [Text(f.kind.value)];
      clauses := clauses + [Equal(Col(KindCol), Param(|params|))];
      Narrow([], [], Wants(UNFILTERED), [Text(f.kind.value)], Equal(Col(KindCol), Param(1)),
             Wants(UNFILTERED.(kind := f.kind)));
    }
    assert Selecting(clauses, params, Wants(UNFILTERED.(kind := f.kind)));
    if f.status.Some? {
      ghost var clauses0, params0 := clauses, params;
      params := params + [Text(StatusText(f.status.value))];
      clauses := clauses + [Equal(Col(StatusCol), Param(|params|))];
      forall j: JobRecord
        ensures StatusText(j.status) == StatusText(f.status.value) <==> j.status == f.status.value
      {
        StatusTextDistinct(j.status, f.status.value);
      }
      Narrow(clauses0, params0, Wants(UNFILTERED.(kind := f.kind)), [Text(StatusText(f.status.value))],
             Equal(Col(StatusCol), Param(|params|)), Wants(UNFILTERED.(kind := f.kind, status := f.status)));
    }
  }

  method PushFinishedRange(f: HistoryFilter, clauses0: seq<Clause>, params0: seq<Value>)
    returns (clauses: seq<Clause>, params: seq<Value>)
    requires Selecting(clauses0, params0, Wants(UNFILTERED.(kind := f.kind, status := f.status)))
    ensures Selecting(clauses, params, Wants(f.(createdBefore := None, limit := None)))
  {
    clauses, params := clauses0, params0;
    ghost var since := UNFILTERED.(kind := f.kind, status := f.status, finishedSince := f.finishedSince);
    if f.finishedSince.Some? {
      params := params + [Time(f.finishedSince.value)];
      clauses := clauses + [AtLeast(Col(FinishedAtCol), Param(|params|))];
      Narrow(clauses0, params0, Wants(UNFILTERED.(kind := f.kind, status := f.status)),
             [Time(f.finishedSince.value)], AtLeast(Col(FinishedAtCol), Param(|params|)), Wants(since));
    }
    assert Selecting(clauses, params, Wants(since));
    if f.finishedUntil.Some? {
      ghost var clauses1, params1 := clauses, params;
      params := params + [Time(f.finishedUntil.value)];
      clauses := clauses + [Below(Col(FinishedAtCol), Param(|params|))];
      Narrow(clauses1, params1, Wants(since), [Time(f.finishedUntil.value)],
             Below(Col(FinishedAtCol), Param(|params|)), Wants(f.(createdBefore := None, limit := None)));
    }
  }

  method PushCursor(f: HistoryFilter, clauses0: seq<Clause>, params0: seq<Value>)
    returns (clauses: seq<Clause>, params: seq<Value>)
    requires Selecting(clauses0, params0, Wants(f.(createdBefore := None, limit := None)))
    ensures Selecting(clauses, params, Wants(f.(limit := None)))
  {
    clauses, params := clauses0, params0;
    if f.createdBefore.Some? {
      var key := f.createdBefore.value;
      params := params + [Time(key.createdAt)];
      var tsIndex := |params|;
      params := params + [Text(Encode(key.id))];
      var idIndex := |params|;
      var c := RowBelow(Col(CreatedAtCol), Col(IdCol), Param(tsIndex), Param(idIndex));
      clauses := clauses + [c];
      ghost var extra := [Time(key.createdAt), Text(Encode(key.id))];
      assert params == params0 + extra;
      forall j
        ensures EvalClause(j, params, c) == Some(if Older(KeyOf(j), key) then True else False)
      {
        CursorClauseMeans(j, params, key);
      }
      Narrow(clauses0, params0, Wants(f.(createdBefore := None, limit := None)), extra, c,
             Wants(f.(limit := None)));
    }
  }

  /** Build the query the way the adapter does, field by field: push the parameter, then name it by
      the number of parameters pushed so far. On every row the generated WHERE clause evaluates
      without error and is true exactly where the reference predicate holds, and the limit is bound
      at the index its clause names. */
  method BuildQuery(f: HistoryFilter) returns (q: Query)
    ensures forall j :: EvalWhere(j, q.params, q.clauses).Some? && (Selects(q.clauses, q.params, j) <==> Matches(f, j))
    ensures f.limit.None? ==> q.limit.None?
    ensures f.limit.Some? ==>
      q.limit.Some? && 1 <= q.limit.value <= |q.params| && q.params[q.limit.value - 1] == Number(f.limit.value)
  {
    var clauses, params := PushKindAndStatus(f);
    clauses, params := PushFinishedRange(f, clauses, params);
    clauses, params := PushCursor(f, clauses, params);
    ghost var before, unlimited := params, f.(limit := None);
    var limit: Option<nat> := None;
    if f.limit.Some? {
      params := params + [Number(f.limit.value)];
      limit := Some(|params|);
    }
    q := Query(clauses, params, limit);
    forall j
      ensures EvalWhere(j, params, clauses).Some? && (Selects(clauses, params, j) <==> Matches(f, j))
    {
      MoreParamsWhere(j, before, params[|before|..], clauses);
      assert before + params[|before|..] == params;
      assert Selects(clauses, before, j) <==> Wants(unlimited)(j);
    }
  }

  /** What PostgreSQL answers to a query: `SELECT ... WHERE ... ORDER BY created_at DESC, id DESC
      LIMIT ...`, when no clause fails and the limit is not negative. */
  ghost predicate Answers(table: map<Ulid, JobRecord>, q: Query, page: seq<JobRecord>) {
    && (q.limit.Some? ==> 1 <= q.limit.value <= |q.params| && q.params[q.limit.value - 1].Number?
                          && q.params[q.limit.value - 1].n >= 0)
    && TopRows(table, (j: JobRecord) => Selects(q.clauses, q.params, j),
               if q.limit.Some? then Some(q.params[q.limit.value - 1].n) else None, page)
  }

  lemma TopRowsSameTest(
    table: map<Ulid, JobRecord>, p: JobRecord -> bool, q: JobRecord -> bool, limit: Option<nat>, page: seq<JobRecord>)
    requires forall j :: p(j) <==> q(j)
    ensures TopRows(table, p, limit, page) <==> TopRows(table, q, limit, page)
  {
  }

  /** For every filter with a non-negative limit the two stores return the same page: what PostgreSQL
      answers to a query that selects what the filter matches is what the reference returns. */
  lemma StoresAgree(table: map<Ulid, JobRecord>, f: HistoryFilter, q: Query, page: seq<JobRecord>, reference: seq<JobRecord>)
    requires forall j :: Selects(q.clauses, q.params, j) <==> Matches(f, j)
    requires f.limit.None? ==> q.limit.None?
    requires f.limit.Some? ==>
      f.limit.value >= 0 && q.limit.Some? && 1 <= q.limit.value <= |q.params|
      && q.params[q.limit.value - 1] == Number(f.limit.value)
    requires Answers(table, q, page) && IsPage(table, f, reference)
    ensures page == reference
  {
    var selects, matches := (j: JobRecord) => Selects(q.clauses, q.params, j), (j: JobRecord) => Matches(f, j);
    TopRowsSameTest(table, selects, matches, PageLimit(f.limit), page);
    PageUnique(table, matches, PageLimit(f.limit), page, reference);
  }

  // ------------------------------------------------------------------- the cleanup

  function Sweeps(c: CleanupCriteria): JobRecord -> bool {
    (j: JobRecord) => Swept(j, c)
  }

  /** The DELETE of the cleanup removes exactly the rows the reference sweep removes. */
  method BuildCleanup(c: CleanupCriteria) returns (q: Query)
    ensures forall j :: EvalWhere(j, q.params, q.clauses).Some? && (Selects(q.clauses, q.params, j) <==> Swept(j, c))
    ensures q.limit.None?
  {
    var params := [Time(c.finishedBefore)];
    var clauses := [IsNotNull(Col(FinishedAtCol)), Below(Col(FinishedAtCol), Param(1))];
    ghost var any := c.(kind := None, status := None);
    assert Selecting([], params, (j: JobRecord) => true);
    Narrow([], params, (j: JobRecord) => true, [], clauses[0], (j: JobRecord) => j.finishedAt.Some?);
    assert params + [] == params;
    Narrow([clauses[0]], params, (j: JobRecord) => j.finishedAt.Some?, [], clauses[1], Sweeps(any));
    assert [] + [clauses[0]] == [clauses[0]] && [clauses[0]] + [clauses[1]] == clauses;
    if c.kind.Some? {
      ghost var clauses0, params0 := clauses, params;
      params := params + [Text(c.kind.value)];
      clauses := clauses + [Equal(Col(KindCol), Param(|params|))];
      Narrow(clauses0, params0, Sweeps(any), [Text(c.kind.value)], Equal(Col(KindCol), Param(|params|)),
             Sweeps(c.(status := None)));
    }
    assert Selecting(clauses, params, Sweeps(c.(status := None)));
    if c.status.Some? {
      ghost var clauses1, params1 := clauses, params;
      params := params + [Text(StatusText(c.status.value))];
      clauses := clauses + [Equal(Col(StatusCol), Param(|params|))];
      forall j: JobRecord
        ensures StatusText(j.status) == StatusText(c.status.value) <==> j.status == c.status.value
      {
        StatusTextDistinct(j.status, c.status.value);
      }
      Narrow(clauses1, params1, Sweeps(c.(status := None)), [Text(StatusText(c.status.value))],
             Equal(Col(StatusCol), Param(|params|)), Sweeps(c));
    }
    q := Query(clauses, params, None);
    forall j
      ensures EvalWhere(j, params, clauses).Some? && (Selects(clauses, params, j) <==> Swept(j, c))
    {
      assert Selects(clauses, params, j) <==> Sweeps(c)(j);
    }
  }
}
