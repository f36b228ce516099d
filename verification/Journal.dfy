/** Reading the append-only journal: the entries of one job, its executions, and outcome counts. */
module Journal {
  import opened Records

  /** The entries of job `id`, in the order they were appended. */
  function EntriesOf(journal: seq<JournalRecord>, id: Ulid): seq<JournalRecord> {
    if journal == [] then []
    else
      var last := journal[|journal| - 1];
      var before := EntriesOf(journal[..|journal| - 1], id);
      if last.jobId == id then before + [last] else before
  }

  /** The journal with every entry of the jobs `ids` dropped (the cascade of a delete). */
  function Without(journal: seq<JournalRecord>, ids: set<Ulid>): seq<JournalRecord> {
    if journal == [] then []
    else
      var last := journal[|journal| - 1];
      var before := Without(journal[..|journal| - 1], ids);
      if last.jobId in ids then before else before + [last]
  }

  /** The entries that record an execution rather than a merge. */
  function Executions(entries: seq<JournalRecord>): seq<JournalRecord> {
    if entries == [] then []
    else
      var last := entries[|entries| - 1];
      var before := Executions(entries[..|entries| - 1]);
      if last.outcome.Merged? then before else before + [last]
  }

  /** How many entries have one of the given outcomes. */
  function CountIn(entries: seq<JournalRecord>, outcomes: set<JournalOutcome>): nat {
    if entries == [] then 0
    else
      CountIn(entries[..|entries| - 1], outcomes)
      + (if entries[|entries| - 1].outcome in outcomes then 1 else 0)
  }

  lemma EntriesOfAppend(journal: seq<JournalRecord>, e: JournalRecord, id: Ulid)
    ensures EntriesOf(journal + [e], id)
         == if e.jobId == id then EntriesOf(journal, id) + [e] else EntriesOf(journal, id)
  {
    assert (journal + [e])[..|journal|] == journal;
  }

  lemma ExecutionsAppend(entries: seq<JournalRecord>, e: JournalRecord)
    ensures Executions(entries + [e])
         == if e.outcome.Merged? then Executions(entries) else Executions(entries) + [e]
  {
    assert (entries + [e])[..|entries|] == entries;
  }

  lemma CountInAppend(entries: seq<JournalRecord>, e: JournalRecord, outcomes: set<JournalOutcome>)
    ensures CountIn(entries + [e], outcomes)
         == CountIn(entries, outcomes) + (if e.outcome in outcomes then 1 else 0)
  {
    assert (entries + [e])[..|entries|] == entries;
  }

  lemma {:induction false} CountInMonotone(
    entries: seq<JournalRecord>, small: set<JournalOutcome>, large: set<JournalOutcome>)
    requires small <= large
    ensures CountIn(entries, small) <= CountIn(entries, large)
  {
    if entries != [] {
      CountInMonotone(entries[..|entries| - 1], small, large);
    }
  }

  lemma {:induction false} ExecutionsCounted(entries: seq<JournalRecord>)
    ensures |Executions(entries)| == CountIn(entries, EXECUTIONS)
  {
    if entries != [] {
      ExecutionsCounted(entries[..|entries| - 1]);
    }
  }

  lemma {:induction false} WithoutSound(journal: seq<JournalRecord>, ids: set<Ulid>)
    ensures forall e :: e in Without(journal, ids) <==> e in journal && e.jobId !in ids
  {
    if journal != [] {
      var front := journal[..|journal| - 1];
      WithoutSound(front, ids);
      assert journal == front + [journal[|journal| - 1]];
    }
  }

  /** Dropping other jobs' entries leaves a job's own history alone. */
  lemma {:induction false} EntriesOfWithout(journal: seq<JournalRecord>, ids: set<Ulid>, id: Ulid)
    requires id !in ids
    ensures EntriesOf(Without(journal, ids), id) == EntriesOf(journal, id)
  {
    if journal != [] {
      var front := journal[..|journal| - 1];
      EntriesOfWithout(front, ids, id);
      EntriesOfAppend(Without(front, ids), journal[|journal| - 1], id);
    }
  }

  /** Deleting job by job drops the same entries as deleting all at once. */
  lemma {:induction false} WithoutTwice(journal: seq<JournalRecord>, ids: set<Ulid>, id: Ulid)
    ensures Without(Without(journal, ids), {id}) == Without(journal, ids + {id})
  {
    if journal != [] {
      var front, last := journal[..|journal| - 1], journal[|journal| - 1];
      WithoutTwice(front, ids, id);
      if last.jobId !in ids {
        assert (Without(front, ids) + [last])[..|Without(front, ids)|] == Without(front, ids);
      }
    }
  }

  lemma {:induction false} WithoutNothing(journal: seq<JournalRecord>)
    ensures Without(journal, {}) == journal
  {
    if journal != [] {
      WithoutNothing(journal[..|journal| - 1]);
    }
  }

  /** Entry ids grow along the journal and stay below the next id to hand out. */
  ghost predicate Ordered(journal: seq<JournalRecord>, next: int) {
    && (forall i, j :: 0 <= i < j < |journal| ==> journal[i].entryId < journal[j].entryId)
    && (forall i :: 0 <= i < |journal| ==> journal[i].entryId < next)
  }

  lemma {:induction false} WithoutOrdered(journal: seq<JournalRecord>, ids: set<Ulid>, next: int)
    requires Ordered(journal, next)
    ensures Ordered(Without(journal, ids), next)
  {
    if journal != [] {
      var front, last := journal[..|journal| - 1], journal[|journal| - 1];
      assert Ordered(front, last.entryId);
      WithoutOrdered(front, ids, last.entryId);
    }
  }
}
