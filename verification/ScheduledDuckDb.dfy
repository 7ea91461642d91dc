/** What a DuckDB destination holds after a windowed write phase, for every schedule of its concurrent writes. */
module ScheduledDuckDb {
  import opened Wrappers
  import opened Failures
  import opened Sequences
  import opened Chunks
  import opened Sessions
  import opened Upserts
  import opened DuckDbSessions
  import opened Interleavings

  // ----- DuckDB full refresh -----

  function RefreshPhase<R>(table: Option<seq<R>>, chunks: seq<seq<R>>, sourceFailure: Option<Code>, size: nat,
    executes: nat -> bool, commits: bool, closes: bool): Phase<Refresh<R>, R>
  {
    Phase(RefreshWriter(executes, commits, closes), BeginRefresh(table), chunks, sourceFailure, size)
  }

  predicate AllIn(order: seq<nat>, holds: nat -> bool) {
    order == [] || (AllIn(order[..|order| - 1], holds) && holds(order[|order| - 1]))
  }

  lemma {:induction false} AllInListed(order: seq<nat>, holds: nat -> bool, k: nat)
    requires AllIn(order, holds) && k in order
    ensures holds(k)
  {
    if k != order[|order| - 1] {
      AllInListed(order[..|order| - 1], holds, k);
    }
  }

  lemma {:induction false} AllInBelow(order: seq<nat>, holds: nat -> bool, n: nat)
    requires Below(order, n) && AllExecute(holds, 0, n)
    ensures AllIn(order, holds)
  {
    if order != [] {
      AllInBelow(order[..|order| - 1], holds, n);
    }
  }

  lemma ListedExecute(order: seq<nat>, executes: nat -> bool, n: nat)
    requires Lists(order, n) && AllIn(order, executes)
    ensures AllExecute(executes, 0, n)
  {
    forall k: nat | k < n ensures executes(k) {
      AllInListed(order, executes, k);
    }
  }

  lemma {:induction false} RefreshAfter<R>(table: Option<seq<R>>, chunks: seq<seq<R>>, sourceFailure: Option<Code>,
    size: nat, executes: nat -> bool, commits: bool, closes: bool, order: seq<nat>)
    requires Below(order, |chunks|)
    ensures var p := RefreshPhase(table, chunks, sourceFailure, size, executes, commits, closes);
      var s, rows := SessionAfter(p, order), WrittenRows(chunks, order);
      && s.table == table
      && (AllAnsweredWell(p, order) <==> AllIn(order, executes))
      && (AllIn(order, executes) ==>
            && s.writtenChunks == |order| && s.writtenRecords == |rows|
            && (order != [] ==> s.working == Some(rows)))
  {
    if order != [] {
      assert [] + chunks[order[0]] == chunks[order[0]];
      RefreshAfter(table, chunks, sourceFailure, size, executes, commits, closes, order[..|order| - 1]);
    }
  }

  /** Every chunk written, in whatever order, the open transaction holds exactly the chunks' rows, and all are counted. */
  lemma RefreshAfterAll<R>(table: Option<seq<R>>, chunks: seq<seq<R>>, sourceFailure: Option<Code>,
    size: nat, executes: nat -> bool, commits: bool, closes: bool, order: seq<nat>)
    requires chunks != [] && Lists(order, |chunks|) && AllIn(order, executes)
    ensures var s := SessionAfter(
        RefreshPhase(table, chunks, sourceFailure, size, executes, commits, closes), order);
      && s.table == table && s.working.Some? && multiset(s.working.value) == multiset(Flatten(chunks))
      && s.writtenChunks == |chunks| && s.writtenRecords == |Flatten(chunks)|
  {
    assert 0 in order;
    RefreshAfter(table, chunks, sourceFailure, size, executes, commits, closes, order);
    ListedRowsAreAllRows(chunks, order);
    ListsEach(order, |chunks|);
    SameSize(WrittenRows(chunks, order), Flatten(chunks));
  }

  lemma SameSize<R>(a: seq<R>, b: seq<R>)
    requires multiset(a) == multiset(b)
    ensures |a| == |b|
  {
    assert |a| == |multiset(a)| && |b| == |multiset(b)|;
  }

  /** How a full refresh ends, up to the order of its rows: what it leaves, and what it reports of that. */
  ghost predicate RefreshEndsUnordered<R>(table: Option<seq<R>>, s': Refresh<R>, delivery: Delivery, chunks: seq<seq<R>>,
    reached: bool, commits: bool, closes: bool)
  {
    && (if reached && commits then s'.table.Some? && multiset(s'.table.value) == multiset(Flatten(chunks))
        else s'.table == table)
    && (delivery.Committed? <==> reached && commits && closes)
    && (delivery.Committed? ==> delivery.chunks == |chunks|)
    && (delivery.Failed? ==>
          && delivery.failure.committedChunks == (if reached && commits then |chunks| else 0)
          && delivery.failure.writtenRecords == (if reached && commits then |Flatten(chunks)| else 0))
  }

  /**
   * A windowed DuckDB full refresh, for every schedule: the table becomes exactly the chunks' rows, in some
   * order, when the source ends well, every write executes and COMMIT happens, and is untouched otherwise; what
   * it reports is what the table then holds of this load.
   */
  lemma RefreshUnderAnySchedule<R(!new)>(table: Option<seq<R>>, chunks: seq<seq<R>>, sourceFailure: Option<Code>,
    size: nat, executes: nat -> bool, commits: bool, closes: bool, states: seq<Live<Refresh<R>>>, w: Live<Refresh<R>>)
    requires chunks != [] && Drained(w)
    requires Reaches(RefreshPhase(table, chunks, sourceFailure, size, executes, commits, closes), states, w)
    ensures w.halted <==> sourceFailure.Some? || !AllExecute(executes, 0, |chunks|)
    ensures var (s', delivery) := Ended(RefreshPhase(table, chunks, sourceFailure, size, executes, commits, closes), w);
      RefreshEndsUnordered(table, s', delivery, chunks, !w.halted, commits, closes)
  {
    var p := RefreshPhase(table, chunks, sourceFailure, size, executes, commits, closes);
    DrainedPhase(p, states, w);
    SurfacedIsLowest(p, states, w);
    RefreshAfter(table, chunks, sourceFailure, size, executes, commits, closes, w.order);
    if AllExecute(executes, 0, |chunks|) {
      AllInBelow(w.order, executes, |chunks|);
    }
    if !w.halted {
      ListedExecute(w.order, executes, |chunks|);
      RefreshAfterAll(table, chunks, sourceFailure, size, executes, commits, closes, w.order);
    }
  }

  // ----- Append -----

  function AppendPhase<R>(table: seq<R>, chunks: seq<seq<R>>, sourceFailure: Option<Code>, size: nat,
    outcomes: nat -> InsertOutcome, closes: bool): Phase<Append<R>, R>
  {
    Phase(AppendWriter(outcomes, closes), Append(table, 0, 0), chunks, sourceFailure, size)
  }

  lemma {:induction false} AppendAfter<R>(table: seq<R>, chunks: seq<seq<R>>, sourceFailure: Option<Code>, size: nat,
    outcomes: nat -> InsertOutcome, closes: bool, order: seq<nat>)
    requires Below(order, |chunks|)
    ensures var p := AppendPhase(table, chunks, sourceFailure, size, outcomes, closes);
      var kept := Accepted(p, order);
      SessionAfter(p, order) == Append(table + WrittenRows(chunks, kept), |kept|, |WrittenRows(chunks, kept)|)
  {
    var p := AppendPhase(table, chunks, sourceFailure, size, outcomes, closes);
    if order == [] {
      assert table + [] == table;
    } else {
      var last := |order| - 1;
      AppendAfter(table, chunks, sourceFailure, size, outcomes, closes, order[..last]);
      KeepingOneMore(p, order);
      var kept := Accepted(p, order[..last]);
      ConcatAssociates(table, WrittenRows(chunks, kept), chunks[order[last]]);
    }
  }

  lemma AppendAnswers<R>(table: seq<R>, chunks: seq<seq<R>>, sourceFailure: Option<Code>, size: nat,
    outcomes: nat -> InsertOutcome, closes: bool, order: seq<nat>, k: nat)
    requires Below(order, |chunks|) && k in order
    ensures k in Accepted(AppendPhase(table, chunks, sourceFailure, size, outcomes, closes), order) <==> outcomes(k).Inserts?
  {
    var p := AppendPhase(table, chunks, sourceFailure, size, outcomes, closes);
    if k in Accepted(p, order) {
      AcceptedAreWritten(p, order, k);
    }
    var i :| 0 <= i < |order| && order[i] == k;
    AcceptedOrRefused(p, order, i);
  }

  /** Exactly these chunks are committed, each once, and nothing else was added; the counters count them. */
  ghost predicate HoldsCommitted<R>(
    table: seq<R>, after: seq<R>, chunks: seq<seq<R>>, kept: seq<nat>, committedChunks: nat, writtenRecords: nat)
  {
    && Distinct(kept) && Below(kept, |chunks|)
    && after == table + WrittenRows(chunks, kept)
    && committedChunks == |kept| && writtenRecords == |WrittenRows(chunks, kept)|
  }

  /**
   * A windowed DuckDB append, for every schedule: the table gained exactly the dispatched chunks whose
   * INSERT executed, each once, and a failure reports exactly that; every chunk below the one whose failure
   * surfaces is among them.
   */
  lemma AppendUnderAnySchedule<R(!new)>(table: seq<R>, chunks: seq<seq<R>>, sourceFailure: Option<Code>, size: nat,
    outcomes: nat -> InsertOutcome, closes: bool, states: seq<Live<Append<R>>>, w: Live<Append<R>>)
    requires Drained(w)
    requires Reaches(AppendPhase(table, chunks, sourceFailure, size, outcomes, closes), states, w)
    ensures Below(w.order, |chunks|)
    ensures var p := AppendPhase(table, chunks, sourceFailure, size, outcomes, closes);
      var kept, (s', delivery) := Accepted(p, w.order), Ended(p, w);
      && HoldsCommitted(table, s'.table, chunks, kept, s'.committedChunks, s'.writtenRecords)
      && (forall k: nat :: k < w.dispatched ==> (k in kept <==> outcomes(k).Inserts?))
      && (forall k: nat :: k < BelowSurfaced(w) ==> k in kept)
      && (delivery.Committed? <==> !w.halted && closes) && (delivery.Committed? ==> delivery.chunks == |chunks|)
      && (delivery.Failed? ==>
            && delivery.failure.committedChunks == s'.committedChunks
            && delivery.failure.writtenRecords == s'.writtenRecords)
  {
    var p := AppendPhase(table, chunks, sourceFailure, size, outcomes, closes);
    DrainedPhase(p, states, w);
    SurfacedIsLowest(p, states, w);
    AppendAfter(table, chunks, sourceFailure, size, outcomes, closes, w.order);
    AcceptedDistinct(p, w.order);
    forall k: nat | k < w.dispatched ensures k in Accepted(p, w.order) <==> outcomes(k).Inserts? {
      AppendAnswers(table, chunks, sourceFailure, size, outcomes, closes, w.order, k);
    }
  }

  // ----- Merge -----

  function MergePhase<Cell(==, !new)>(keys: Keys, table: seq<Row<Cell>>, chunks: seq<seq<Row<Cell>>>,
    sourceFailure: Option<Code>, size: nat, stages: nat -> bool, outcome: MergeOutcome): Phase<OpenMerge<Cell>, Row<Cell>>
    requires keys.Valid() && Rows(keys, table)
  {
    Phase(MergeWriter(stages, outcome), BeginMerge(keys, table), chunks, sourceFailure, size)
  }

  /** Whether chunk `k` of a merge aligns and is staged. */
  function StagedAt<Cell>(keys: Keys, chunks: seq<seq<Row<Cell>>>, stages: nat -> bool): nat -> bool {
    (k: nat) => k < |chunks| && Rows(keys, chunks[k]) && stages(k)
  }

  lemma {:induction false} AllStagedByIndex<Cell>(keys: Keys, chunks: seq<seq<Row<Cell>>>, stages: nat -> bool, n: nat)
    requires n <= |chunks|
    ensures AllStaged(keys, chunks[n..], stages, n) <==> AllExecute(StagedAt(keys, chunks, stages), n, |chunks| - n)
    decreases |chunks| - n
  {
    if n < |chunks| {
      AllStagedByIndex(keys, chunks, stages, n + 1);
      assert chunks[n..][0] == chunks[n] && chunks[n..][1..] == chunks[n + 1..];
      var holds := StagedAt(keys, chunks, stages);
      assert AllExecute(holds, n, |chunks| - n) <==> holds(n) && AllExecute(holds, n + 1, |chunks| - n - 1);
    }
  }

  lemma {:induction false} MergeAfter<Cell(!new)>(keys: Keys, table: seq<Row<Cell>>, chunks: seq<seq<Row<Cell>>>,
    sourceFailure: Option<Code>, size: nat, stages: nat -> bool, outcome: MergeOutcome, order: seq<nat>)
    requires keys.Valid() && Rows(keys, table) && Below(order, |chunks|)
    ensures var p := MergePhase(keys, table, chunks, sourceFailure, size, stages, outcome);
      var s := SessionAfter(p, order);
      && s.keys == keys && s.table == table
      && (AllAnsweredWell(p, order) <==> AllIn(order, StagedAt(keys, chunks, stages)))
      && (AllAnsweredWell(p, order) ==> s.stage == WrittenRows(chunks, order) && s.stagedChunks == |order|)
  {
    if order != [] {
      MergeAfter(keys, table, chunks, sourceFailure, size, stages, outcome, order[..|order| - 1]);
    }
  }

  /** How a merge ends, up to the order of the rows it inserts: what it leaves, and what it reports of that. */
  ghost predicate MergeEndsUnordered<Cell(!new)>(keys: Keys, table: seq<Row<Cell>>, s': OpenMerge<Cell>,
    delivery: Delivery, chunks: seq<seq<Row<Cell>>>, reached: bool, outcome: MergeOutcome)
    requires keys.Valid() && Rows(keys, table) && (reached ==> Rows(keys, Flatten(chunks)))
  {
    var staged := Flatten(chunks);
    var committed := reached && DistinctKeys(keys, staged) && MergeCommits(outcome);
    && (if committed then multiset(s'.table) == multiset(MergeInto(keys, table, staged)) else s'.table == table)
    && (delivery.Committed? <==> committed && outcome.Completes?)
    && (delivery.Committed? ==>
          && delivery.chunks == |chunks| && delivery.facts.Merged?
          && delivery.facts.updated == MatchedCount(keys, table, staged)
          && delivery.facts.updated + delivery.facts.inserted == |staged|)
    && (delivery.Failed? ==>
          && delivery.failure.writtenRecords == (if committed then |staged| else 0)
          && delivery.failure.committedChunks == (if committed then |chunks| else 0))
  }

  /** Committing a stage that holds the chunks' rows in some order ends as committing them in source order does. */
  lemma StagedInSomeOrder<Cell(!new)>(s: OpenMerge<Cell>, staged: seq<Row<Cell>>, outcome: MergeOutcome)
    requires multiset(s.stage) == multiset(staged)
    ensures Rows(s.keys, staged) && |s.stage| == |staged|
    ensures DistinctKeys(s.keys, s.stage) <==> DistinctKeys(s.keys, staged)
    ensures MatchedCount(s.keys, s.table, s.stage) == MatchedCount(s.keys, s.table, staged)
    ensures DistinctKeys(s.keys, staged) ==>
      multiset(MergeInto(s.keys, s.table, s.stage)) == multiset(MergeInto(s.keys, s.table, staged))
  {
    RowsIgnoreOrder(s.keys, s.stage, staged);
    MatchedIgnoresOrder(s.keys, s.table, s.stage, staged);
    if DistinctKeys(s.keys, s.stage) {
      MergeIgnoresStagingOrder(s.keys, s.table, s.stage, staged);
    } else if DistinctKeys(s.keys, staged) {
      DistinctKeysIgnoreOrder(s.keys, staged, s.stage);
    }
  }

  /**
   * A windowed DuckDB merge, for every schedule: it halts exactly when the source fails or a chunk is not staged;
   * it leaves, up to the order of the inserted rows, what merging the chunks in source order would, or the
   * target untouched; and it reports the same counts as in source order.
   */
  lemma MergeUnderAnySchedule<Cell(!new)>(keys: Keys, table: seq<Row<Cell>>, chunks: seq<seq<Row<Cell>>>,
    sourceFailure: Option<Code>, size: nat, stages: nat -> bool, outcome: MergeOutcome,
    states: seq<Live<OpenMerge<Cell>>>, w: Live<OpenMerge<Cell>>)
    requires keys.Valid() && Rows(keys, table) && Drained(w)
    requires Reaches(MergePhase(keys, table, chunks, sourceFailure, size, stages, outcome), states, w)
    ensures w.halted <==> sourceFailure.Some? || !AllStaged(keys, chunks, stages, 0)
    ensures !w.halted ==> Rows(keys, Flatten(chunks))
    ensures var (s', delivery) := Ended(MergePhase(keys, table, chunks, sourceFailure, size, stages, outcome), w);
      MergeEndsUnordered(keys, table, s', delivery, chunks, !w.halted, outcome)
  {
    var p, holds := MergePhase(keys, table, chunks, sourceFailure, size, stages, outcome), StagedAt(keys, chunks, stages);
    DrainedPhase(p, states, w);
    SurfacedIsLowest(p, states, w);
    MergeAfter(keys, table, chunks, sourceFailure, size, stages, outcome, w.order);
    AllStagedByIndex(keys, chunks, stages, 0);
    assert chunks[0..] == chunks;
    if AllExecute(holds, 0, |chunks|) {
      AllInBelow(w.order, holds, |chunks|);
    }
    if !w.halted {
      ListedExecute(w.order, holds, |chunks|);
      ListedRowsAreAllRows(chunks, w.order);
      ListsEach(w.order, |chunks|);
      StagedInSomeOrder(w.session, Flatten(chunks), outcome);
      MergeIsAtomicUpsert(w.session, outcome);
    }
  }
}
