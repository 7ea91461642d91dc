/** What a SQL Server destination holds after a windowed write phase, for every schedule of its concurrent writes. */
module ScheduledSqlServer {
  import opened Wrappers
  import opened Failures
  import opened Sequences
  import opened Chunks
  import opened Sessions
  import opened Upserts
  import opened SqlServerSessions
  import opened Interleavings

  /** What the server does: per chunk's write, per rollback after it, and at the end. */
  datatype Faults = Faults(writes: nat -> WriteFault, rollbackReaches: nat -> bool, commit: CommitFault)

  function SqlPhase<Cell(==, !new)>(mode: Mode, keys: Keys, table: Option<seq<Row<Cell>>>, chunks: seq<seq<Row<Cell>>>,
    sourceFailure: Option<Code>, size: nat, faults: Faults): Phase<OpenSql<Cell>, Row<Cell>>
    requires BeginSql(mode, keys, table).Valid()
  {
    Phase(SqlWriter(faults.writes, faults.rollbackReaches, faults.commit), BeginSql(mode, keys, table), chunks,
      sourceFailure, size)
  }

  // ----- Full refresh -----

  /** The writes of an order as the session meets them. */
  function CallsIn<Cell>(chunks: seq<seq<Row<Cell>>>, faults: Faults, order: seq<nat>): (r: seq<SqlCall<Cell>>)
    requires Below(order, |chunks|)
    ensures |r| == |order|
  {
    if order == [] then []
    else
      var k := order[|order| - 1];
      CallsIn(chunks, faults, order[..|order| - 1]) + [SqlCall(chunks[k], faults.writes(k), faults.rollbackReaches(k))]
  }

  lemma {:induction false} SqlWritesSnoc<Cell(!new)>(s: OpenSql<Cell>, calls: seq<SqlCall<Cell>>, call: SqlCall<Cell>)
    ensures SqlWrites(s, calls + [call])
         == SqlWrite(SqlWrites(s, calls), call.rows, call.fault, call.rollbackReaches).0
    decreases calls
  {
    if calls == [] {
      assert ([] + [call])[1..] == [];
    } else {
      assert (calls + [call])[1..] == calls[1..] + [call];
      SqlWritesSnoc(SqlWrite(s, calls[0].rows, calls[0].fault, calls[0].rollbackReaches).0, calls[1..], call);
    }
  }

  lemma {:induction false} AfterIsWrites<Cell(!new)>(mode: Mode, keys: Keys, table: Option<seq<Row<Cell>>>,
    chunks: seq<seq<Row<Cell>>>, sourceFailure: Option<Code>, size: nat, faults: Faults, order: seq<nat>)
    requires BeginSql(mode, keys, table).Valid() && Below(order, |chunks|)
    ensures SessionAfter(SqlPhase(mode, keys, table, chunks, sourceFailure, size, faults), order)
         == SqlWrites(BeginSql(mode, keys, table), CallsIn(chunks, faults, order))
  {
    if order != [] {
      var earlier, k := order[..|order| - 1], order[|order| - 1];
      AfterIsWrites(mode, keys, table, chunks, sourceFailure, size, faults, earlier);
      SqlWritesSnoc(BeginSql(mode, keys, table), CallsIn(chunks, faults, earlier),
        SqlCall(chunks[k], faults.writes(k), faults.rollbackReaches(k)));
    }
  }

  lemma {:induction false} RefreshAfter<Cell(!new)>(keys: Keys, table: Option<seq<Row<Cell>>>,
    chunks: seq<seq<Row<Cell>>>, sourceFailure: Option<Code>, size: nat, faults: Faults, order: seq<nat>)
    requires keys.Valid() && Below(order, |chunks|)
    requires AllAnsweredWell(SqlPhase(FullRefresh, keys, table, chunks, sourceFailure, size, faults), order)
    ensures var s := SessionAfter(SqlPhase(FullRefresh, keys, table, chunks, sourceFailure, size, faults), order);
      if order == [] then s == BeginSql(FullRefresh, keys, table)
      else Refreshing(s, table, WrittenRows(chunks, order))
  {
    if order != [] {
      var rows := chunks[order[|order| - 1]];
      var earlier := WrittenRows(chunks, order[..|order| - 1]);
      assert [] + rows == rows;
      assert rows == [] ==> earlier + rows == earlier;
      RefreshAfter(keys, table, chunks, sourceFailure, size, faults, order[..|order| - 1]);
    }
  }

  /**
   * A windowed SQL Server full refresh that reaches its COMMIT, for every schedule: the table holds exactly the
   * chunks' rows, in some order, when COMMIT happens, and is untouched when it is refused. It reports success
   * exactly when COMMIT is acknowledged, else nothing committed, which is what the table holds of this load
   * unless COMMIT went unheard.
   */
  lemma CommittedRefreshUnderAnySchedule<Cell(!new)>(keys: Keys, table: Option<seq<Row<Cell>>>,
    chunks: seq<seq<Row<Cell>>>, sourceFailure: Option<Code>, size: nat, faults: Faults,
    states: seq<Live<OpenSql<Cell>>>, w: Live<OpenSql<Cell>>)
    requires keys.Valid() && chunks != [] && Drained(w) && !w.halted
    requires Reaches(SqlPhase(FullRefresh, keys, table, chunks, sourceFailure, size, faults), states, w)
    ensures var (s', delivery) := Ended(SqlPhase(FullRefresh, keys, table, chunks, sourceFailure, size, faults), w);
      && (if faults.commit.Commits() then s'.table.Some? && multiset(s'.table.value) == multiset(Flatten(chunks))
          else s'.table == table)
      && (delivery.Committed? <==> faults.commit.CommitAcknowledged?)
      && (delivery.Committed? ==> delivery.chunks == |chunks|)
      && (delivery.Failed? ==> delivery.failure.committedChunks == 0 && delivery.failure.writtenRecords == 0)
  {
    EndsCommitted(SqlPhase(FullRefresh, keys, table, chunks, sourceFailure, size, faults), states, w);
    assert 0 in w.order;
    RefreshAfter(keys, table, chunks, sourceFailure, size, faults, w.order);
    ListedRowsAreAllRows(chunks, w.order);
  }

  /** A halted full refresh or merge is abandoned, and reports nothing committed. */
  lemma HaltedReportsNothing<Cell(!new)>(mode: Mode, keys: Keys, table: Option<seq<Row<Cell>>>,
    chunks: seq<seq<Row<Cell>>>, sourceFailure: Option<Code>, size: nat, faults: Faults,
    states: seq<Live<OpenSql<Cell>>>, w: Live<OpenSql<Cell>>)
    requires BeginSql(mode, keys, table).Valid() && !mode.Append? && Drained(w) && w.halted
    requires Reaches(SqlPhase(mode, keys, table, chunks, sourceFailure, size, faults), states, w)
    ensures var (s', delivery) := Ended(SqlPhase(mode, keys, table, chunks, sourceFailure, size, faults), w);
      && s' == SqlAbandon(w.session).0 && delivery.Failed?
      && delivery.failure.committedChunks == 0 && delivery.failure.writtenRecords == 0
  {
    var p := SqlPhase(mode, keys, table, chunks, sourceFailure, size, faults);
    DrainedPhase(p, states, w);
    SurfacedIsLowest(p, states, w);
    AfterIsWrites(mode, keys, table, chunks, sourceFailure, size, faults, w.order);
    OnlyAppendCounts(BeginSql(mode, keys, table), CallsIn(chunks, faults, w.order));
  }

  /**
   * A windowed SQL Server full refresh of an existing table that is abandoned, for every schedule: the table
   * gained exactly the stray rows of the order its writes took, and none of them is reported.
   */
  lemma AbandonedRefreshLeaksStrayRows<Cell(!new)>(keys: Keys, table: seq<Row<Cell>>, chunks: seq<seq<Row<Cell>>>,
    sourceFailure: Option<Code>, size: nat, faults: Faults, states: seq<Live<OpenSql<Cell>>>, w: Live<OpenSql<Cell>>)
    requires keys.Valid() && Drained(w) && w.halted
    requires Reaches(SqlPhase(FullRefresh, keys, Some(table), chunks, sourceFailure, size, faults), states, w)
    ensures Below(w.order, |chunks|)
    ensures var (s', delivery) :=
        Ended(SqlPhase(FullRefresh, keys, Some(table), chunks, sourceFailure, size, faults), w);
      && s'.table == Some(table + StrayRows(CallsIn(chunks, faults, w.order)))
      && delivery.Failed? && delivery.failure.committedChunks == 0 && delivery.failure.writtenRecords == 0
  {
    DrainedPhase(SqlPhase(FullRefresh, keys, Some(table), chunks, sourceFailure, size, faults), states, w);
    HaltedReportsNothing(FullRefresh, keys, Some(table), chunks, sourceFailure, size, faults, states, w);
    AfterIsWrites(FullRefresh, keys, Some(table), chunks, sourceFailure, size, faults, w.order);
    RefreshLeaksExactlyStrayRows(BeginSql(FullRefresh, keys, Some(table)), CallsIn(chunks, faults, w.order));
  }

  /**
   * A windowed SQL Server full refresh that would create its table and is abandoned leaves none and reports
   * nothing committed, for every schedule.
   */
  lemma AbandonedRefreshOfNewTable<Cell(!new)>(keys: Keys, chunks: seq<seq<Row<Cell>>>,
    sourceFailure: Option<Code>, size: nat, faults: Faults, states: seq<Live<OpenSql<Cell>>>, w: Live<OpenSql<Cell>>)
    requires keys.Valid() && Drained(w) && w.halted
    requires Reaches(SqlPhase<Cell>(FullRefresh, keys, None, chunks, sourceFailure, size, faults), states, w)
    ensures var (s', delivery) := Ended(SqlPhase<Cell>(FullRefresh, keys, None, chunks, sourceFailure, size, faults), w);
      && s'.table.None? && delivery.Failed?
      && delivery.failure.committedChunks == 0 && delivery.failure.writtenRecords == 0
  {
    DrainedPhase(SqlPhase<Cell>(FullRefresh, keys, None, chunks, sourceFailure, size, faults), states, w);
    HaltedReportsNothing<Cell>(FullRefresh, keys, None, chunks, sourceFailure, size, faults, states, w);
    AfterIsWrites(FullRefresh, keys, None, chunks, sourceFailure, size, faults, w.order);
    NewTableNeverLeaks(BeginSql(FullRefresh, keys, None), CallsIn(chunks, faults, w.order));
  }

  /** Before a last write, no accepted write can have failed in its bulk send. */
  lemma {:induction false} AcceptedDoNotStray<Cell(!new)>(keys: Keys, table: Option<seq<Row<Cell>>>,
    chunks: seq<seq<Row<Cell>>>, sourceFailure: Option<Code>, size: nat, faults: Faults, order: seq<nat>, i: nat)
    requires keys.Valid() && Below(order, |chunks|) && i < |order|
    requires AllAnsweredWell(SqlPhase(FullRefresh, keys, table, chunks, sourceFailure, size, faults), order)
    ensures !CallsIn(chunks, faults, order)[i].fault.FailsSend(CallsIn(chunks, faults, order)[i].rows)
  {
    var last := |order| - 1;
    if i < last {
      AcceptedDoNotStray(keys, table, chunks, sourceFailure, size, faults, order[..last], i);
    }
  }

  /** Through a window of one, the limit every shipped destination declares, an abandoned full refresh leaves the table untouched. */
  lemma SerialRefreshLeaksNothing<Cell(!new)>(keys: Keys, table: seq<Row<Cell>>, chunks: seq<seq<Row<Cell>>>,
    sourceFailure: Option<Code>, faults: Faults, states: seq<Live<OpenSql<Cell>>>, w: Live<OpenSql<Cell>>)
    requires keys.Valid() && Drained(w) && w.halted
    requires Reaches(SqlPhase(FullRefresh, keys, Some(table), chunks, sourceFailure, 1, faults), states, w)
    ensures Ended(SqlPhase(FullRefresh, keys, Some(table), chunks, sourceFailure, 1, faults), w).0.table == Some(table)
  {
    AbandonedRefreshLeaksStrayRows(keys, table, chunks, sourceFailure, 1, faults, states, w);
    WindowOfOneIsSerial(SqlPhase(FullRefresh, keys, Some(table), chunks, sourceFailure, 1, faults), states, w);
    var calls := CallsIn(chunks, faults, w.order);
    forall i | 0 <= i < |calls| - 1 ensures !calls[i].fault.FailsSend(calls[i].rows) {
      AcceptedDoNotStray(keys, Some(table), chunks, sourceFailure, 1, faults, w.order[..|w.order| - 1], i);
    }
    SerialWritesLeakNothing(calls);
    assert table + [] == table;
  }

  /** The first write fails in its bulk send; the second does not. */
  function FirstSendFails(): Faults {
    Faults((k: nat) => if k == 0 then BulkFails else NoFault, (k: nat) => true, CommitAcknowledged)
  }

  /** Through a window of two, a load that fails and is abandoned can leave rows in the table. */
  lemma WindowOfTwoCanLeak<Cell(!new)>(keys: Keys, row: Row<Cell>)
    requires keys.Valid()
    ensures exists states, w: Live<OpenSql<Cell>> ::
      && Reaches(SqlPhase(FullRefresh, keys, Some([]), [[row], [row]], None, 2, FirstSendFails()), states, w)
      && Drained(w) && w.halted
      && Ended(SqlPhase(FullRefresh, keys, Some([]), [[row], [row]], None, 2, FirstSendFails()), w).0.table == Some([row])
  {
    var chunks, faults := [[row], [row]], FirstSendFails();
    var states, w := SecondFollowsRefusedFirst(SqlPhase(FullRefresh, keys, Some([]), chunks, None, 2, faults));
    AbandonedRefreshLeaksStrayRows(keys, [], chunks, None, 2, faults, states, w);
    assert [0, 1][..1] == [0] && [0][..0] == [];
    assert CallsIn(chunks, faults, [0]) == [SqlCall([row], BulkFails, true)];
    var rest := [SqlCall([row], NoFault, true)];
    var calls := CallsIn(chunks, faults, [0, 1]);
    assert calls == [SqlCall([row], BulkFails, true)] + rest && calls[1..] == rest && rest[1..] == [];
    assert AppliedRows(rest) == [row] + AppliedRows<Cell>([]) == [row];
    assert [] + [row] == [row];
  }

  // ----- Merge -----

  lemma {:induction false} MergeAfter<Cell(!new)>(keys: Keys, table: seq<Row<Cell>>, chunks: seq<seq<Row<Cell>>>,
    sourceFailure: Option<Code>, size: nat, faults: Faults, order: seq<nat>)
    requires keys.Valid() && Rows(keys, table) && Below(order, |chunks|)
    requires AllAnsweredWell(SqlPhase(Merge, keys, Some(table), chunks, sourceFailure, size, faults), order)
    ensures var s := SessionAfter(SqlPhase(Merge, keys, Some(table), chunks, sourceFailure, size, faults), order);
      && s.keys == keys
      && if order == [] then s == BeginSql(Merge, keys, Some(table)) else Merging(s, table, WrittenRows(chunks, order))
  {
    if order != [] {
      var rows := chunks[order[|order| - 1]];
      var earlier := WrittenRows(chunks, order[..|order| - 1]);
      assert [] + rows == rows;
      assert rows == [] ==> earlier + rows == earlier;
      MergeAfter(keys, table, chunks, sourceFailure, size, faults, order[..|order| - 1]);
    }
  }

  lemma MergeStaysUntouched<Cell(!new)>(keys: Keys, table: seq<Row<Cell>>, chunks: seq<seq<Row<Cell>>>,
    sourceFailure: Option<Code>, size: nat, faults: Faults, order: seq<nat>)
    requires keys.Valid() && Rows(keys, table) && Below(order, |chunks|)
    ensures SessionAfter(SqlPhase(Merge, keys, Some(table), chunks, sourceFailure, size, faults), order).table == Some(table)
  {
    AfterIsWrites(Merge, keys, Some(table), chunks, sourceFailure, size, faults, order);
    MergeWritesStayStaged(BeginSql(Merge, keys, Some(table)), CallsIn(chunks, faults, order));
  }

  /** How a merge ends, up to the order of the rows it inserts: what it leaves, and what it reports. */
  ghost predicate MergeEndsUnordered<Cell(!new)>(keys: Keys, table: seq<Row<Cell>>, s': SqlSession<Cell>,
    delivery: Delivery, chunks: seq<seq<Row<Cell>>>, reached: bool, fault: CommitFault)
    requires keys.Valid() && Rows(keys, table) && (reached ==> Rows(keys, Flatten(chunks)))
  {
    var staged := Flatten(chunks);
    var committed := reached && DistinctKeys(keys, staged) && fault.Commits();
    && (if committed then s'.table.Some? && multiset(s'.table.value) == multiset(MergeInto(keys, table, staged))
        else s'.table == Some(table))
    && (delivery.Committed? <==> committed && fault.CommitAcknowledged?)
    && (delivery.Committed? ==>
          && delivery.chunks == |chunks| && delivery.facts.Merged?
          && delivery.facts.updated == MatchedCount(keys, table, staged)
          && delivery.facts.updated + delivery.facts.inserted == |staged|)
    && (delivery.Failed? ==> delivery.failure.committedChunks == 0 && delivery.failure.writtenRecords == 0)
  }

  /** The commit of a merge of these rows: the table up to the order of what it inserts, and the exact report. */
  ghost predicate CommitsAsInOrder<Cell(!new)>(keys: Keys, table: seq<Row<Cell>>, staged: seq<Row<Cell>>,
    fault: CommitFault, s': OpenSql<Cell>, r: Result<Facts, SessionFailure>)
    requires keys.Valid() && Rows(keys, table) && Rows(keys, staged)
  {
    var committed := DistinctKeys(keys, staged) && fault.Commits();
    && (if committed then s'.table.Some? && multiset(s'.table.value) == multiset(MergeInto(keys, table, staged))
        else s'.table == Some(table))
    && (r.Success? <==> committed && fault.CommitAcknowledged?)
    && (r.Success? ==>
          && r.value.Merged? && r.value.updated == MatchedCount(keys, table, staged)
          && r.value.updated + r.value.inserted == |staged|)
    && (r.Failure? ==> r.error.committedChunks == 0 && r.error.writtenRecords == 0)
  }

  /** Committing a stage that holds these rows in some order ends as committing them in order does. */
  lemma StagedInSomeOrder<Cell(!new)>(
    s: OpenSql<Cell>, table: seq<Row<Cell>>, stage: seq<Row<Cell>>, staged: seq<Row<Cell>>, fault: CommitFault)
    requires Merging(s, table, stage) && multiset(stage) == multiset(staged)
    ensures Rows(s.keys, staged)
    ensures CommitsAsInOrder(s.keys, table, staged, fault, SqlCommit(s, fault).0, SqlCommit(s, fault).1)
  {
    MergeCommitEnds(s, table, stage, fault);
    RowsIgnoreOrder(s.keys, stage, staged);
    MatchedIgnoresOrder(s.keys, table, stage, staged);
    if DistinctKeys(s.keys, stage) {
      MergeIgnoresStagingOrder(s.keys, table, stage, staged);
    } else if DistinctKeys(s.keys, staged) {
      DistinctKeysIgnoreOrder(s.keys, staged, stage);
    }
  }

  lemma CommitEndsMerge<Cell(!new)>(keys: Keys, table: seq<Row<Cell>>, chunks: seq<seq<Row<Cell>>>,
    fault: CommitFault, s': OpenSql<Cell>, r: Result<Facts, SessionFailure>)
    requires keys.Valid() && Rows(keys, table) && Rows(keys, Flatten(chunks))
    requires CommitsAsInOrder(keys, table, Flatten(chunks), fault, s', r)
    ensures r.Success? ==> MergeEndsUnordered(keys, table, s', Committed(r.value, |chunks|), chunks, true, fault)
    ensures r.Failure? ==> MergeEndsUnordered(keys, table, s'.Dropped(), Failed(r.error), chunks, true, fault)
  {
  }

  /** Committing a session that staged every chunk, in whatever order, ends as staging them in source order does. */
  lemma StagedEveryChunk<Cell(!new)>(keys: Keys, table: seq<Row<Cell>>, chunks: seq<seq<Row<Cell>>>,
    sourceFailure: Option<Code>, size: nat, faults: Faults, order: seq<nat>)
    requires keys.Valid() && Rows(keys, table) && chunks != [] && Lists(order, |chunks|)
    requires AllAnsweredWell(SqlPhase(Merge, keys, Some(table), chunks, sourceFailure, size, faults), order)
    ensures Rows(keys, Flatten(chunks))
    ensures var p := SqlPhase(Merge, keys, Some(table), chunks, sourceFailure, size, faults);
      var (s', delivery) := CommitOf(p, SessionAfter(p, order));
      MergeEndsUnordered(keys, table, s', delivery, chunks, true, faults.commit)
  {
    assert 0 in order;
    MergeAfter(keys, table, chunks, sourceFailure, size, faults, order);
    ListedRowsAreAllRows(chunks, order);
    var s := SessionAfter(SqlPhase(Merge, keys, Some(table), chunks, sourceFailure, size, faults), order);
    StagedInSomeOrder(s, table, WrittenRows(chunks, order), Flatten(chunks), faults.commit);
    var (s', r) := SqlCommit(s, faults.commit);
    CommitEndsMerge(keys, table, chunks, faults.commit, s', r);
  }

  lemma HaltedMergeEnds<Cell(!new)>(keys: Keys, table: seq<Row<Cell>>, chunks: seq<seq<Row<Cell>>>,
    sourceFailure: Option<Code>, size: nat, faults: Faults, states: seq<Live<OpenSql<Cell>>>, w: Live<OpenSql<Cell>>)
    requires keys.Valid() && Rows(keys, table) && Drained(w) && w.halted
    requires Reaches(SqlPhase(Merge, keys, Some(table), chunks, sourceFailure, size, faults), states, w)
    ensures var (s', delivery) := Ended(SqlPhase(Merge, keys, Some(table), chunks, sourceFailure, size, faults), w);
      MergeEndsUnordered(keys, table, s', delivery, chunks, false, faults.commit)
  {
    DrainedPhase(SqlPhase(Merge, keys, Some(table), chunks, sourceFailure, size, faults), states, w);
    HaltedReportsNothing(Merge, keys, Some(table), chunks, sourceFailure, size, faults, states, w);
    MergeStaysUntouched(keys, table, chunks, sourceFailure, size, faults, w.order);
  }

  lemma CommittedMergeEnds<Cell(!new)>(keys: Keys, table: seq<Row<Cell>>, chunks: seq<seq<Row<Cell>>>,
    sourceFailure: Option<Code>, size: nat, faults: Faults, states: seq<Live<OpenSql<Cell>>>, w: Live<OpenSql<Cell>>)
    requires keys.Valid() && Rows(keys, table) && chunks != [] && Drained(w) && !w.halted
    requires Reaches(SqlPhase(Merge, keys, Some(table), chunks, sourceFailure, size, faults), states, w)
    ensures Rows(keys, Flatten(chunks))
    ensures var (s', delivery) := Ended(SqlPhase(Merge, keys, Some(table), chunks, sourceFailure, size, faults), w);
      MergeEndsUnordered(keys, table, s', delivery, chunks, true, faults.commit)
  {
    EndsCommitted(SqlPhase(Merge, keys, Some(table), chunks, sourceFailure, size, faults), states, w);
    StagedEveryChunk(keys, table, chunks, sourceFailure, size, faults, w.order);
  }

  /**
   * A windowed SQL Server merge into an existing table, for every schedule: abandoned, the target is
   * untouched; committed, it holds what merging the chunks in source order would leave, up to the order of
   * the inserted rows, exactly when their keys are distinct and COMMIT happens. It reports the counts of
   * that merge, or nothing committed.
   */
  lemma MergeUnderAnySchedule<Cell(!new)>(keys: Keys, table: seq<Row<Cell>>, chunks: seq<seq<Row<Cell>>>,
    sourceFailure: Option<Code>, size: nat, faults: Faults, states: seq<Live<OpenSql<Cell>>>, w: Live<OpenSql<Cell>>)
    requires keys.Valid() && Rows(keys, table) && chunks != [] && Drained(w)
    requires Reaches(SqlPhase(Merge, keys, Some(table), chunks, sourceFailure, size, faults), states, w)
    ensures !w.halted ==> Rows(keys, Flatten(chunks))
    ensures var (s', delivery) := Ended(SqlPhase(Merge, keys, Some(table), chunks, sourceFailure, size, faults), w);
      MergeEndsUnordered(keys, table, s', delivery, chunks, !w.halted, faults.commit)
  {
    if w.halted {
      HaltedMergeEnds(keys, table, chunks, sourceFailure, size, faults, states, w);
    } else {
      CommittedMergeEnds(keys, table, chunks, sourceFailure, size, faults, states, w);
    }
  }

  // ----- Append -----

  function AppendPhase<Cell(==, !new)>(keys: Keys, table: seq<Row<Cell>>, chunks: seq<seq<Row<Cell>>>,
    sourceFailure: Option<Code>, size: nat, faults: Faults): Phase<OpenSql<Cell>, Row<Cell>>
    requires keys.Valid()
  {
    SqlPhase(Append, keys, Some(table), chunks, sourceFailure, size, faults)
  }

  /** The writes of an order the server applied: those the session accepted, and those that lost only their reply. */
  function AppliedIn<Cell(==, !new)>(p: Phase<OpenSql<Cell>, Row<Cell>>, faults: Faults, order: seq<nat>): (r: seq<nat>)
    requires Below(order, |p.chunks|)
    ensures Below(r, |p.chunks|)
  {
    if order == [] then []
    else
      var last := |order| - 1;
      var k := order[last];
      AppliedIn(p, faults, order[..last])
        + if AnswerAt(p, order, last).None? || faults.writes(k).LosesReply(p.chunks[k]) then [k] else []
  }

  lemma ApplyingOneMore<Cell(!new)>(p: Phase<OpenSql<Cell>, Row<Cell>>, faults: Faults, order: seq<nat>)
    requires Below(order, |p.chunks|) && order != []
    ensures var last := |order| - 1;
      var before, after, k := AppliedIn(p, faults, order[..last]), AppliedIn(p, faults, order), order[last];
      if AnswerAt(p, order, last).None? || faults.writes(k).LosesReply(p.chunks[k]) then
        WrittenRows(p.chunks, after) == WrittenRows(p.chunks, before) + p.chunks[k]
      else after == before
  {
    var before := AppliedIn(p, faults, order[..|order| - 1]);
    assert (before + [order[|order| - 1]])[..|before|] == before;
  }

  /** The table holds what the server applied, and the counters count what the session accepted. */
  ghost predicate AppendHolds<Cell(!new)>(s: OpenSql<Cell>, table: seq<Row<Cell>>, p: Phase<OpenSql<Cell>, Row<Cell>>,
    faults: Faults, order: seq<nat>)
    requires Below(order, |p.chunks|)
  {
    var kept := Accepted(p, order);
    && s.mode.Append? && !s.transaction && (!s.prepared ==> kept == [])
    && s.table == Some(table + WrittenRows(p.chunks, AppliedIn(p, faults, order)))
    && s.committedChunks == |kept| && s.writtenRecords == |WrittenRows(p.chunks, kept)|
  }

  lemma {:induction false} AppendAfter<Cell(!new)>(keys: Keys, table: seq<Row<Cell>>,
    chunks: seq<seq<Row<Cell>>>, sourceFailure: Option<Code>, size: nat, faults: Faults, order: seq<nat>)
    requires keys.Valid() && Below(order, |chunks|)
    ensures var p := AppendPhase(keys, table, chunks, sourceFailure, size, faults);
      AppendHolds(SessionAfter(p, order), table, p, faults, order)
  {
    var p := AppendPhase(keys, table, chunks, sourceFailure, size, faults);
    if order == [] {
      assert table + [] == table;
    } else {
      var earlier, k := order[..|order| - 1], order[|order| - 1];
      AppendAfter(keys, table, chunks, sourceFailure, size, faults, earlier);
      KeepingOneMore(p, order);
      ApplyingOneMore(p, faults, order);
      AppendOneWrite(SessionAfter(p, earlier), chunks[k], faults.writes(k), faults.rollbackReaches(k));
      var applied := WrittenRows(chunks, AppliedIn(p, faults, earlier));
      ConcatAssociates(table, applied, chunks[k]);
      assert (table + applied) + [] == table + applied;
    }
  }

  /** No write of this order lost its reply. */
  predicate EveryReplyHeard<Cell>(chunks: seq<seq<Row<Cell>>>, faults: Faults, order: seq<nat>)
    requires Below(order, |chunks|)
  {
    order == [] ||
    (EveryReplyHeard(chunks, faults, order[..|order| - 1]) &&
     !faults.writes(order[|order| - 1]).LosesReply(chunks[order[|order| - 1]]))
  }

  /** The server applied at least what the session counted, and more exactly when a reply was lost. */
  lemma {:induction false} LostRepliesGoUncounted<Cell(!new)>(
    keys: Keys, table: seq<Row<Cell>>, chunks: seq<seq<Row<Cell>>>, sourceFailure: Option<Code>, size: nat, faults: Faults,
    order: seq<nat>)
    requires keys.Valid() && Below(order, |chunks|)
    ensures var p := AppendPhase(keys, table, chunks, sourceFailure, size, faults);
      var counted, applied := |WrittenRows(chunks, Accepted(p, order))|, |WrittenRows(chunks, AppliedIn(p, faults, order))|;
      counted <= applied && (counted == applied <==> EveryReplyHeard(chunks, faults, order))
  {
    if order != [] {
      var p := AppendPhase(keys, table, chunks, sourceFailure, size, faults);
      var earlier, k := order[..|order| - 1], order[|order| - 1];
      LostRepliesGoUncounted(keys, table, chunks, sourceFailure, size, faults, earlier);
      AppendAfter(keys, table, chunks, sourceFailure, size, faults, earlier);
      AppendOneWrite(SessionAfter(p, earlier), chunks[k], faults.writes(k), faults.rollbackReaches(k));
      KeepingOneMore(p, order);
      ApplyingOneMore(p, faults, order);
    }
  }

  /**
   * A windowed SQL Server append to an existing table, for every schedule: the table gained exactly the chunks
   * the session accepted, each once, and those whose write lost only its reply; every chunk below the one
   * whose failure surfaces was accepted. A failure reports the accepted chunks alone, which is what the table
   * gained exactly when every reply was heard.
   */
  lemma AppendUnderAnySchedule<Cell(!new)>(keys: Keys, table: seq<Row<Cell>>, chunks: seq<seq<Row<Cell>>>,
    sourceFailure: Option<Code>, size: nat, faults: Faults, states: seq<Live<OpenSql<Cell>>>, w: Live<OpenSql<Cell>>)
    requires keys.Valid() && Drained(w)
    requires Reaches(AppendPhase(keys, table, chunks, sourceFailure, size, faults), states, w)
    ensures Lists(w.order, w.dispatched) && w.dispatched <= |chunks|
    ensures var p := AppendPhase(keys, table, chunks, sourceFailure, size, faults);
      var kept, (s', delivery) := Accepted(p, w.order), Ended(p, w);
      && Distinct(kept) && (forall k: nat :: k < BelowSurfaced(w) ==> k in kept)
      && s'.table == Some(table + WrittenRows(chunks, AppliedIn(p, faults, w.order)))
      && (delivery.Committed? <==> !w.halted) && (delivery.Committed? ==> delivery.chunks == |chunks|)
      && (delivery.Failed? ==>
            && delivery.failure.committedChunks == |kept|
            && delivery.failure.writtenRecords == |WrittenRows(chunks, kept)|
            && (delivery.failure.writtenRecords == |s'.table.value| - |table| <==>
                  EveryReplyHeard(chunks, faults, w.order)))
  {
    var p := AppendPhase(keys, table, chunks, sourceFailure, size, faults);
    DrainedPhase(p, states, w);
    SurfacedIsLowest(p, states, w);
    AppendAfter(keys, table, chunks, sourceFailure, size, faults, w.order);
    AcceptedDistinct(p, w.order);
    LostRepliesGoUncounted(keys, table, chunks, sourceFailure, size, faults, w.order);
  }
}
