/** A whole load joined to its destination: it reports success exactly when its session commits, and what the table then holds. */
module LoadedTables {
  import opened Wrappers
  import opened Failures
  import opened Records
  import opened Schemas
  import opened Inputs
  import opened SourceReads
  import opened Chunks
  import opened Streams
  import opened Replays
  import opened Dispatch
  import opened Sessions
  import opened Upserts
  import opened Deliveries
  import opened Loads
  import Duck = DuckDbSessions
  import Sql = SqlServerSessions

  /** The code a commit from this state fails with, if it does. */
  function CommitCode<S, R>(w: Writer<S, R>, s: S): Option<Code> {
    match w.commit(s).1
    case Success(_) => None
    case Failure(failure) => Some(failure.code)
  }

  /** What surrounds the load is what this session answers: it opens, takes writes and commits as the load is told. */
  ghost predicate Answered<S, R>(around: Surroundings, w: Writer<S, R>, s: S, chunks: seq<seq<R>>)
    requires around.Valid()
  {
    && Terminal(around.setting.policy, around.begin).None?
    && Drives(around.setting, w, s, chunks)
    && around.commitFailure == CommitCode(w, AfterWrites(w, s, chunks, |chunks|))
  }

  /** A load ends as its session is delivered: loaded exactly when the session commits, else over the session's failure. */
  lemma LoadEndsAsDelivered<S, R>(read: SourceRead, run: Yields, around: Surroundings, w: Writer<S, R>, s: S,
    chunks: seq<seq<R>>)
    requires around.Valid() && read.rejectedCount <= read.sourceRows && |chunks| == |run.batches|
    requires Answered(around, w, s, chunks)
    ensures var delivery := Deliver(w, s, chunks, 0, run.failure).1;
      var end := EndOfPhase(read, PhaseOf(around.setting, around.begin, run), around.commitFailure);
      && (delivery.Committed? ==>
            && end == Loaded(RowCounts(read.sourceRows, read.sourceRows - read.rejectedCount, read.rejectedCount), |chunks|)
            && delivery.chunks == |chunks|)
      && (delivery.Failed? ==> end == Interrupted(delivery.failure.code))
  {
    DeliveryIsTheSerialEnding(around.setting, w, s, chunks, run);
  }

  /** A load over an unmodified source that reaches a session giving the answers that surround the load. */
  ghost predicate Joins<S, Cell>(d: Definition, file: SourceFile, around: Surroundings, read: SourceRead, end: LoadEnd,
    cellOf: ArrowValue -> Cell, w: Writer<S, Row<Cell>>, s: S)
  {
    && d.Fits(file) && around.Valid() && Reads(d, file, Success(read)) && Proceeds(d, Success(read), around)
    && Ends(d, file, file, around, Success(read), end) && Handed(d, file, read) && LinesDecide(d, file, read)
    && read.plan.ItemsUsable(SecondPassOf(file, file).items)
    && Answered(around, w, s, RowChunks(read, file, cellOf))
  }

  /** The chunks of rows pass 2 of a load hands to its session. */
  function RowChunks<Cell>(read: SourceRead, file: SourceFile, cellOf: ArrowValue -> Cell): seq<seq<Row<Cell>>>
    requires read.plan.ItemsUsable(SecondPassOf(file, file).items)
  {
    AllRows(RunOf(read, file, file).batches, cellOf)
  }

  /** The rows a load is to leave: its surviving records', in source order. */
  ghost function SurvivorRows<Cell>(d: Definition, file: SourceFile, read: SourceRead, cellOf: ArrowValue -> Cell)
    : seq<Row<Cell>>
    requires d.InputOf(file).Readable() && d.InputOf(file).Checks().Some?
    requires AllMaterialize(read.resolution.fields, d.InputOf(file).Survivors())
  {
    RecordRows(read.resolution.fields, d.InputOf(file).Survivors(), cellOf)
  }

  /** The load reports exactly what its session delivered: every survivor written, every other row rejected. */
  ghost predicate Reports(read: SourceRead, end: LoadEnd, delivery: Delivery, survivors: nat, chunks: nat) {
    && (end.Loaded? <==> delivery.Committed?)
    && (end.Loaded? ==>
          && end == Loaded(RowCounts(read.sourceRows, survivors, read.rejectedCount), chunks)
          && read.sourceRows == survivors + read.rejectedCount && delivery.chunks == chunks)
    && (delivery.Failed? ==> end == Interrupted(delivery.failure.code))
  }

  /** What every destination's load shares: the rows handed over, and the report. */
  lemma JoinedLoad<S, Cell>(d: Definition, file: SourceFile, around: Surroundings, read: SourceRead, end: LoadEnd,
    cellOf: ArrowValue -> Cell, w: Writer<S, Row<Cell>>, s: S)
    requires Joins(d, file, around, read, end, cellOf, w, s)
    ensures d.InputOf(file).Readable() && d.InputOf(file).Checks().Some?
    ensures AllMaterialize(read.resolution.fields, d.InputOf(file).Survivors())
    ensures RunOf(read, file, file).failure.None?
    ensures var chunks, rows := RowChunks(read, file, cellOf), SurvivorRows(d, file, read, cellOf);
      && chunks != [] && Flatten(chunks) == rows
      && |chunks| == |Chunked(d.InputOf(file).Survivors(), d.chunkRows)|
      && Reports(read, end, Deliver(w, s, chunks, 0, None).1, |rows|, |chunks|)
  {
    UnmodifiedReplays(d, file, read);
    SurvivorsMaterialize(d.InputOf(file));
    RowsReadAddUp(d, file, read);
    var run := RunOf(read, file, file);
    DeliveredInOrder(run, read.plan, d.InputOf(file).Survivors(), cellOf);
    LoadEndsAsDelivered(read, run, around, w, s, RowChunks(read, file, cellOf));
  }

  /** A DuckDB full refresh: loaded exactly when every write executes, COMMIT happens and the session closes. */
  lemma RefreshLoads<Cell>(d: Definition, file: SourceFile, around: Surroundings, read: SourceRead, end: LoadEnd,
    cellOf: ArrowValue -> Cell, table: Option<seq<Row<Cell>>>, executes: nat -> bool, commits: bool, closes: bool)
    requires Joins(d, file, around, read, end, cellOf, Duck.RefreshWriter(executes, commits, closes), Duck.BeginRefresh(table))
    ensures d.InputOf(file).Readable() && d.InputOf(file).Checks().Some?
    ensures AllMaterialize(read.resolution.fields, d.InputOf(file).Survivors())
    ensures var chunks, rows := RowChunks(read, file, cellOf), SurvivorRows(d, file, read, cellOf);
      var (s', delivery) :=
        Deliver(Duck.RefreshWriter(executes, commits, closes), Duck.BeginRefresh(table), chunks, 0, None);
      var taken := Duck.AllExecute(executes, 0, |chunks|);
      && Reports(read, end, delivery, |rows|, |chunks|)
      && s'.table == (if taken && commits then Some(rows) else table)
      && (end.Loaded? <==> taken && commits && closes)
  {
    JoinedLoad(d, file, around, read, end, cellOf, Duck.RefreshWriter(executes, commits, closes), Duck.BeginRefresh(table));
    RefreshDelivers(table, RowChunks(read, file, cellOf), executes, commits, closes);
  }

  lemma RefreshDelivers<R>(table: Option<seq<R>>, chunks: seq<seq<R>>, executes: nat -> bool, commits: bool, closes: bool)
    requires chunks != []
    ensures var (s', delivery) :=
        Deliver(Duck.RefreshWriter(executes, commits, closes), Duck.BeginRefresh(table), chunks, 0, None);
      var taken := Duck.AllExecute(executes, 0, |chunks|);
      && s'.table == (if taken && commits then Some(Flatten(chunks)) else table)
      && (delivery.Committed? <==> taken && commits && closes)
  {
    Duck.RefreshIsAtomic(table, chunks, None, executes, commits, closes);
    assert [] + Flatten(chunks) == Flatten(chunks);
  }

  /** A DuckDB append: loaded exactly when every chunk inserts and the session closes; the table gained the chunks before the first that fails. */
  lemma AppendLoads<Cell>(d: Definition, file: SourceFile, around: Surroundings, read: SourceRead, end: LoadEnd,
    cellOf: ArrowValue -> Cell, table: seq<Row<Cell>>, outcomes: nat -> Duck.InsertOutcome, closes: bool)
    requires Joins(d, file, around, read, end, cellOf, Duck.AppendWriter(outcomes, closes), Duck.Append(table, 0, 0))
    ensures d.InputOf(file).Readable() && d.InputOf(file).Checks().Some?
    ensures AllMaterialize(read.resolution.fields, d.InputOf(file).Survivors())
    ensures var chunks, rows := RowChunks(read, file, cellOf), SurvivorRows(d, file, read, cellOf);
      var (s', delivery) := Deliver(Duck.AppendWriter(outcomes, closes), Duck.Append(table, 0, 0), chunks, 0, None);
      var n := Duck.Prefix(outcomes, 0, |chunks|);
      && Reports(read, end, delivery, |rows|, |chunks|)
      && s'.table == table + Flatten(chunks[..n]) && (n == |chunks| ==> s'.table == table + rows)
      && (end.Loaded? <==> n == |chunks| && closes)
  {
    JoinedLoad(d, file, around, read, end, cellOf, Duck.AppendWriter(outcomes, closes), Duck.Append(table, 0, 0));
    AppendDelivers(table, RowChunks(read, file, cellOf), outcomes, closes);
  }

  lemma AppendDelivers<R>(table: seq<R>, chunks: seq<seq<R>>, outcomes: nat -> Duck.InsertOutcome, closes: bool)
    ensures var (s', delivery) := Deliver(Duck.AppendWriter(outcomes, closes), Duck.Append(table, 0, 0), chunks, 0, None);
      var n := Duck.Prefix(outcomes, 0, |chunks|);
      && s'.table == table + Flatten(chunks[..n]) && (n == |chunks| ==> s'.table == table + Flatten(chunks))
      && (delivery.Committed? <==> n == |chunks| && closes)
  {
    Duck.AppendKeepsThePrefix(Duck.Append(table, 0, 0), chunks, None, outcomes, closes);
    assert chunks[..|chunks|] == chunks;
  }

  /** A SQL Server full refresh: loaded exactly when every chunk is accepted and COMMIT is acknowledged. */
  lemma SqlRefreshLoads<Cell(!new)>(d: Definition, file: SourceFile, around: Surroundings, read: SourceRead, end: LoadEnd,
    cellOf: ArrowValue -> Cell, table: Option<seq<Row<Cell>>>, faults: nat -> Sql.WriteFault, rollbackReaches: nat -> bool,
    fault: Sql.CommitFault)
    requires Joins(d, file, around, read, end, cellOf,
      Sql.SqlWriter(faults, rollbackReaches, fault), Sql.BeginSql(Sql.FullRefresh, Keys(0, []), table))
    ensures d.InputOf(file).Readable() && d.InputOf(file).Checks().Some?
    ensures AllMaterialize(read.resolution.fields, d.InputOf(file).Survivors())
    ensures var chunks, rows := RowChunks(read, file, cellOf), SurvivorRows(d, file, read, cellOf);
      var (s', delivery) := Deliver(Sql.SqlWriter(faults, rollbackReaches, fault),
        Sql.BeginSql(Sql.FullRefresh, Keys(0, []), table), chunks, 0, None);
      var taken := Sql.AllAccepted(chunks, faults);
      && Reports(read, end, delivery, |rows|, |chunks|)
      && s'.table == (if taken && fault.Commits() then Some(rows) else table)
      && (end.Loaded? <==> taken && fault.CommitAcknowledged?)
  {
    var s: Sql.OpenSql<Cell> := Sql.BeginSql(Sql.FullRefresh, Keys(0, []), table);
    JoinedLoad(d, file, around, read, end, cellOf, Sql.SqlWriter(faults, rollbackReaches, fault), s);
    Sql.SqlRefreshIsAtomic(Keys(0, []), table, RowChunks(read, file, cellOf), None, faults, rollbackReaches, fault);
  }

  /**
   * A SQL Server append to an existing table: loaded exactly when every chunk is counted. A failed one leaves
   * the counted chunks, and one more when only its reply was lost.
   */
  lemma SqlAppendLoads<Cell(!new)>(d: Definition, file: SourceFile, around: Surroundings, read: SourceRead, end: LoadEnd,
    cellOf: ArrowValue -> Cell, table: seq<Row<Cell>>, faults: nat -> Sql.WriteFault, rollbackReaches: nat -> bool,
    fault: Sql.CommitFault)
    requires Joins(d, file, around, read, end, cellOf,
      Sql.SqlWriter(faults, rollbackReaches, fault), Sql.BeginSql(Sql.Append, Keys(0, []), Some(table)))
    ensures d.InputOf(file).Readable() && d.InputOf(file).Checks().Some?
    ensures AllMaterialize(read.resolution.fields, d.InputOf(file).Survivors())
    ensures var chunks, rows := RowChunks(read, file, cellOf), SurvivorRows(d, file, read, cellOf);
      var (s', delivery) := Deliver(Sql.SqlWriter(faults, rollbackReaches, fault),
        Sql.BeginSql(Sql.Append, Keys(0, []), Some(table)), chunks, 0, None);
      var n := Sql.SqlPrefix(false, chunks, faults, 0);
      && Reports(read, end, delivery, |rows|, |chunks|)
      && s'.table == Some(table + Flatten(chunks[..n]) + Sql.Uncounted(chunks, faults, 0, n))
      && (end.Loaded? <==> n == |chunks|) && (end.Loaded? ==> s'.table == Some(table + rows))
  {
    var s: Sql.OpenSql<Cell> := Sql.BeginSql(Sql.Append, Keys(0, []), Some(table));
    JoinedLoad(d, file, around, read, end, cellOf, Sql.SqlWriter(faults, rollbackReaches, fault), s);
    SqlAppendDelivers(table, RowChunks(read, file, cellOf), faults, rollbackReaches, fault);
  }

  lemma SqlAppendDelivers<Cell(!new)>(table: seq<Row<Cell>>, chunks: seq<seq<Row<Cell>>>, faults: nat -> Sql.WriteFault,
    rollbackReaches: nat -> bool, fault: Sql.CommitFault)
    ensures var (s', delivery) := Deliver(Sql.SqlWriter(faults, rollbackReaches, fault),
        Sql.BeginSql(Sql.Append, Keys(0, []), Some(table)), chunks, 0, None);
      var n := Sql.SqlPrefix(false, chunks, faults, 0);
      && s'.table == Some(table + Flatten(chunks[..n]) + Sql.Uncounted(chunks, faults, 0, n))
      && (delivery.Committed? <==> n == |chunks|) && (n == |chunks| ==> s'.table == Some(table + Flatten(chunks)))
  {
    Sql.SqlAppendKeepsThePrefix(
      Sql.BeginSql(Sql.Append, Keys(0, []), Some(table)), chunks, 0, None, faults, rollbackReaches, fault);
    assert chunks[..|chunks|] == chunks && table + Flatten(chunks) + [] == table + Flatten(chunks);
  }

  /** The chunks handed over have the dataset's columns, and no surviving record holds a null in a merge key. */
  lemma MergeKeysJoin<Cell(!new)>(d: Definition, file: SourceFile, read: SourceRead, cellOf: ArrowValue -> Cell, keys: Keys)
    requires d.Fits(file) && Reads(d, file, Success(read)) && Handed(d, file, read) && LinesDecide(d, file, read)
    requires read.plan.ItemsUsable(SecondPassOf(file, file).items)
    requires KeysNamed(read.resolution.fields, d.mergeKeys) && keys == KeysIn(read.resolution.fields, d.mergeKeys)
    ensures d.InputOf(file).Readable() && d.InputOf(file).Checks().Some?
    ensures AllMaterialize(read.resolution.fields, d.InputOf(file).Survivors())
    ensures var rows := SurvivorRows(d, file, read, cellOf);
      Rows(keys, rows) && StagedKeysPresent(keys, rows)
    ensures Aligned(keys, RowChunks(read, file, cellOf))
  {
    ReadResolves(d, file, read);
    SurvivingKeysPresent(d.InputOf(file), cellOf);
    UnmodifiedReplays(d, file, read);
    DeliveredChunksAlign(RunOf(read, file, file), read.plan, d.InputOf(file).Survivors(), cellOf, keys);
  }

  /**
   * A DuckDB merge into a table of the dataset's columns: loaded exactly when the survivors' keys are distinct,
   * every chunk is staged and the session completes. The target takes their upsert or stays, the counts are
   * those of that upsert, and loading the same source again then changes nothing.
   */
  lemma MergeLoads<Cell(!new)>(d: Definition, file: SourceFile, around: Surroundings, read: SourceRead, end: LoadEnd,
    cellOf: ArrowValue -> Cell, target: seq<Row<Cell>>, stages: nat -> bool, outcome: Duck.MergeOutcome)
    requires KeysNamed(read.resolution.fields, d.mergeKeys) && Rows(KeysIn(read.resolution.fields, d.mergeKeys), target)
    requires Joins(d, file, around, read, end, cellOf, Duck.MergeWriter(stages, outcome),
      Duck.BeginMerge(KeysIn(read.resolution.fields, d.mergeKeys), target))
    ensures d.InputOf(file).Readable() && d.InputOf(file).Checks().Some?
    ensures AllMaterialize(read.resolution.fields, d.InputOf(file).Survivors())
    ensures var chunks, rows := RowChunks(read, file, cellOf), SurvivorRows(d, file, read, cellOf);
      var keys := KeysIn(read.resolution.fields, d.mergeKeys);
      var (s', delivery) := Deliver(Duck.MergeWriter(stages, outcome), Duck.BeginMerge(keys, target), chunks, 0, None);
      && Rows(keys, rows) && Reports(read, end, delivery, |rows|, |chunks|)
      && var committed := DistinctKeys(keys, rows) && Duck.AllExecute(stages, 0, |chunks|) && Duck.MergeCommits(outcome);
         && s'.table == (if committed then MergeInto(keys, target, rows) else target)
         && (end.Loaded? <==> committed && outcome.Completes?)
         && (end.Loaded? ==>
               && delivery.facts.Merged? && delivery.facts.updated == MatchedCount(keys, target, rows)
               && delivery.facts.updated + delivery.facts.inserted == |rows|
               && MergeInto(keys, s'.table, rows) == s'.table)
  {
    var keys := KeysIn(read.resolution.fields, d.mergeKeys);
    var s: Duck.OpenMerge<Cell> := Duck.BeginMerge(keys, target);
    var w := Duck.MergeWriter<Cell>(stages, outcome);
    JoinedLoad(d, file, around, read, end, cellOf, w, s);
    MergeKeysJoin(d, file, read, cellOf, keys);
    var chunks, rows := RowChunks(read, file, cellOf), SurvivorRows(d, file, read, cellOf);
    AlignedStage(keys, chunks, stages, 0);
    Duck.MergePhaseIsAtomic(s, chunks, None, stages, outcome);
    assert [] + Flatten(chunks) == rows;
    if DistinctKeys(keys, rows) {
      MergingAgainChangesNothing(keys, target, rows);
    }
  }

  lemma {:induction false} AlignedStage<Cell>(keys: Keys, chunks: seq<seq<Row<Cell>>>, stages: nat -> bool, first: nat)
    requires Aligned(keys, chunks)
    ensures Duck.AllStaged(keys, chunks, stages, first) <==> Duck.AllExecute(stages, first, |chunks|)
    decreases chunks
  {
    if chunks != [] {
      AlignedStage(keys, chunks[1..], stages, first + 1);
      assert Duck.AllExecute(stages, first, |chunks|) <==>
        stages(first) && Duck.AllExecute(stages, first + 1, |chunks| - 1);
    }
  }

  /**
   * A SQL Server merge into an existing table of the dataset's columns: loaded exactly when the survivors' keys
   * are distinct, every chunk is accepted and COMMIT is acknowledged. The target takes their upsert exactly
   * when COMMIT happens.
   */
  lemma SqlMergeLoads<Cell(!new)>(d: Definition, file: SourceFile, around: Surroundings, read: SourceRead, end: LoadEnd,
    cellOf: ArrowValue -> Cell, target: seq<Row<Cell>>, faults: nat -> Sql.WriteFault, rollbackReaches: nat -> bool,
    fault: Sql.CommitFault)
    requires KeysNamed(read.resolution.fields, d.mergeKeys) && Rows(KeysIn(read.resolution.fields, d.mergeKeys), target)
    requires Joins(d, file, around, read, end, cellOf, Sql.SqlWriter(faults, rollbackReaches, fault),
      Sql.BeginSql(Sql.Merge, KeysIn(read.resolution.fields, d.mergeKeys), Some(target)))
    ensures d.InputOf(file).Readable() && d.InputOf(file).Checks().Some?
    ensures AllMaterialize(read.resolution.fields, d.InputOf(file).Survivors())
    ensures var chunks, rows := RowChunks(read, file, cellOf), SurvivorRows(d, file, read, cellOf);
      var keys := KeysIn(read.resolution.fields, d.mergeKeys);
      var (s', delivery) := Deliver(Sql.SqlWriter(faults, rollbackReaches, fault),
        Sql.BeginSql(Sql.Merge, keys, Some(target)), chunks, 0, None);
      && Rows(keys, rows) && Reports(read, end, delivery, |rows|, |chunks|)
      && var committed := DistinctKeys(keys, rows) && Sql.AllAccepted(chunks, faults) && fault.Commits();
         && s'.table == Some(if committed then MergeInto(keys, target, rows) else target)
         && (end.Loaded? <==> committed && fault.CommitAcknowledged?)
         && (end.Loaded? ==>
               && delivery.facts.Merged? && delivery.facts.updated == MatchedCount(keys, target, rows)
               && delivery.facts.updated + delivery.facts.inserted == |rows|)
  {
    var keys := KeysIn(read.resolution.fields, d.mergeKeys);
    var s: Sql.OpenSql<Cell> := Sql.BeginSql(Sql.Merge, keys, Some(target));
    var w := Sql.SqlWriter<Cell>(faults, rollbackReaches, fault);
    JoinedLoad(d, file, around, read, end, cellOf, w, s);
    MergeKeysJoin(d, file, read, cellOf, keys);
    var chunks := RowChunks(read, file, cellOf);
    AlignedSend(keys, chunks, faults, 0);
    Sql.SqlMergeIsAtomic(keys, target, chunks, None, faults, rollbackReaches, fault);
  }

  lemma {:induction false} AlignedSend<Cell>(keys: Keys, chunks: seq<seq<Row<Cell>>>, faults: nat -> Sql.WriteFault, first: nat)
    requires Aligned(keys, chunks)
    ensures Sql.AllSent(keys, chunks, faults, first) <==> Sql.NoneFails(chunks, faults, first)
    decreases chunks
  {
    if chunks != [] {
      AlignedSend(keys, chunks[1..], faults, first + 1);
    }
  }
}
