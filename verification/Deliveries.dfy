/** From records to rows: what the delivered chunks put into a destination table, and what its merge keys hold. */
module Deliveries {
  import opened Wrappers
  import opened Failures
  import opened Sequences
  import opened FieldTypes
  import opened Records
  import opened Transforms
  import opened Schemas
  import opened Observations
  import opened Inputs
  import opened Materialization
  import opened Chunks
  import opened Streams
  import opened StreamGuarantees
  import opened Replays
  import opened Sessions
  import opened Upserts
  import opened DuckDbSessions
  import Sql = SqlServerSessions

  /** How a destination stores a materialized value: null as null, anything else as its own cell. */
  function Stored<Cell>(value: ArrowValue, cellOf: ArrowValue -> Cell): Option<Cell> {
    if value.Null? then None else Some(cellOf(value))
  }

  function BatchRow<Cell>(batch: Batch, cellOf: ArrowValue -> Cell, i: nat): Row<Cell> {
    seq(|batch.columns|, f requires 0 <= f < |batch.columns| =>
      if i < |batch.columns[f]| then Stored(batch.columns[f][i], cellOf) else None)
  }

  /** The rows of a batch, read across its columns. */
  function BatchRows<Cell>(batch: Batch, cellOf: ArrowValue -> Cell): seq<Row<Cell>> {
    seq(batch.rows, i requires 0 <= i < batch.rows => BatchRow(batch, cellOf, i))
  }

  function AllRows<Cell>(batches: seq<Batch>, cellOf: ArrowValue -> Cell): (r: seq<seq<Row<Cell>>>)
    ensures |r| == |batches| && forall i :: 0 <= i < |r| ==> r[i] == BatchRows(batches[i], cellOf)
  {
    seq(|batches|, i requires 0 <= i < |batches| => BatchRows(batches[i], cellOf))
  }

  /** The row one record gives: each field's value, or null where the record has none. */
  function RecordRow<Cell>(fields: seq<PlannedField>, record: SourceRecord, cellOf: ArrowValue -> Cell): (r: Row<Cell>)
    requires AllMaterialize(fields, [record])
    ensures |r| == |fields|
  {
    seq(|fields|, f requires 0 <= f < |fields| =>
      assert Materializes(fields[f], [record][0]);
      Stored(Cell(fields[f], record).value, cellOf))
  }

  lemma OneMaterializes(fields: seq<PlannedField>, records: seq<SourceRecord>, i: nat)
    requires AllMaterialize(fields, records) && i < |records|
    ensures AllMaterialize(fields, [records[i]])
  {
    forall f, k | 0 <= f < |fields| && 0 <= k < 1 ensures Materializes(fields[f], [records[i]][k]) {
      assert Materializes(fields[f], records[i]);
    }
  }

  function RecordRows<Cell>(fields: seq<PlannedField>, records: seq<SourceRecord>, cellOf: ArrowValue -> Cell)
    : (r: seq<Row<Cell>>)
    requires AllMaterialize(fields, records)
    ensures |r| == |records|
  {
    seq(|records|, i requires 0 <= i < |records| =>
      OneMaterializes(fields, records, i);
      RecordRow(fields, records[i], cellOf))
  }

  lemma RecordRowsSplit<Cell>(fields: seq<PlannedField>, a: seq<SourceRecord>, b: seq<SourceRecord>,
    cellOf: ArrowValue -> Cell)
    requires AllMaterialize(fields, a + b)
    ensures AllMaterialize(fields, a) && AllMaterialize(fields, b)
    ensures RecordRows(fields, a + b, cellOf) == RecordRows(fields, a, cellOf) + RecordRows(fields, b, cellOf)
  {
    PartsMaterialize(fields, a, b);
    forall i | 0 <= i < |a| + |b|
      ensures RecordRows(fields, a + b, cellOf)[i]
           == (RecordRows(fields, a, cellOf) + RecordRows(fields, b, cellOf))[i]
    {
      assert (a + b)[i] == if i < |a| then a[i] else b[i - |a|];
    }
  }

  lemma PartsMaterialize(fields: seq<PlannedField>, a: seq<SourceRecord>, b: seq<SourceRecord>)
    requires AllMaterialize(fields, a + b)
    ensures AllMaterialize(fields, a) && AllMaterialize(fields, b)
  {
    forall f, i | 0 <= f < |fields| && 0 <= i < |a| ensures Materializes(fields[f], a[i]) {
      assert (a + b)[i] == a[i];
    }
    forall f, i | 0 <= f < |fields| && 0 <= i < |b| ensures Materializes(fields[f], b[i]) {
      assert (a + b)[|a| + i] == b[i];
    }
  }

  /** A built batch read across its columns gives the rows of its records. */
  lemma BuiltRows<Cell>(fields: seq<PlannedField>, records: seq<SourceRecord>, cellOf: ArrowValue -> Cell)
    requires CanBuild(fields, records) && BuiltChunk(fields, records).Success? && AllMaterialize(fields, records)
    ensures BatchRows(BuiltChunk(fields, records).value, cellOf) == RecordRows(fields, records, cellOf)
  {
    var batch := BuiltChunk(fields, records).value;
    forall i | 0 <= i < |records| ensures BatchRow(batch, cellOf, i) == RecordRows(fields, records, cellOf)[i] {
      OneMaterializes(fields, records, i);
      forall f | 0 <= f < |fields|
        ensures BatchRow(batch, cellOf, i)[f] == RecordRow(fields, records[i], cellOf)[f]
      {
        assert Cell(fields[f], records[i]) == Success(Column(fields[f], records)[i]);
      }
    }
  }

  /** The batches of all chunks hold, in order, one row for each record. */
  lemma {:induction false} DeliveredRows<Cell>(plan: StreamPlan, chunks: seq<seq<SourceRecord>>, cellOf: ArrowValue -> Cell)
    requires ChunksUsable(plan, chunks) && BuildAll(plan, chunks).Some? && AllMaterialize(plan.fields, Flatten(chunks))
    ensures Flatten(AllRows(BuildAll(plan, chunks).value, cellOf)) == RecordRows(plan.fields, Flatten(chunks), cellOf)
    decreases chunks
  {
    if chunks != [] {
      var rest := chunks[1..];
      var batch := BuiltChunk(plan.fields, chunks[0]).value;
      var later := BuildAll(plan, rest).value;
      RecordRowsSplit(plan.fields, chunks[0], Flatten(rest), cellOf);
      BuiltRows(plan.fields, chunks[0], cellOf);
      DeliveredRows(plan, rest, cellOf);
      assert AllRows([batch] + later, cellOf)[1..] == AllRows(later, cellOf);
      assert AllRows([batch] + later, cellOf)[0] == BatchRows(batch, cellOf);
    }
  }

  /** A run that delivers its survivors delivers their rows in source order, in at least one chunk. */
  lemma DeliveredInOrder<Cell>(run: Yields, plan: StreamPlan, survivors: seq<SourceRecord>, cellOf: ArrowValue -> Cell)
    requires Delivers(run, plan, survivors) && AllMaterialize(plan.fields, survivors)
    ensures run.batches != [] && |run.batches| == |Chunked(survivors, plan.chunkRows)|
    ensures Flatten(AllRows(run.batches, cellOf)) == RecordRows(plan.fields, survivors, cellOf)
  {
    var chunks := Chunked(survivors, plan.chunkRows);
    ChunksConcatenate(survivors, plan.chunkRows);
    ChunkSizes(survivors, plan.chunkRows);
    DeliveredRows(plan, chunks, cellOf);
    BatchPerChunk(plan, chunks);
  }

  lemma {:induction false} BatchPerChunk(plan: StreamPlan, chunks: seq<seq<SourceRecord>>)
    requires ChunksUsable(plan, chunks) && BuildAll(plan, chunks).Some?
    ensures |BuildAll(plan, chunks).value| == |chunks|
    decreases chunks
  {
    if chunks != [] {
      BatchPerChunk(plan, chunks[1..]);
    }
  }

  /** A DuckDB full refresh of what a run delivers leaves exactly the survivors' rows, in order, or nothing new. */
  lemma RefreshHoldsDelivered<Cell>(run: Yields, plan: StreamPlan, survivors: seq<SourceRecord>,
    cellOf: ArrowValue -> Cell, table: Option<seq<Row<Cell>>>, executes: nat -> bool, commits: bool, closes: bool)
    requires Delivers(run, plan, survivors) && AllMaterialize(plan.fields, survivors) && run.failure.None?
    ensures var chunks := AllRows(run.batches, cellOf);
      var s' := Deliver(RefreshWriter(executes, commits, closes), BeginRefresh(table), chunks, 0, run.failure).0;
      s'.table == if AllExecute(executes, 0, |chunks|) && commits then Some(RecordRows(plan.fields, survivors, cellOf))
                  else table
  {
    var chunks := AllRows(run.batches, cellOf);
    DeliveredInOrder(run, plan, survivors, cellOf);
    RefreshIsAtomic(table, chunks, run.failure, executes, commits, closes);
    assert [] + Flatten(chunks) == Flatten(chunks);
  }

  /** A SQL Server full refresh of what a run delivers does the same, however its statements fail. */
  lemma SqlRefreshHoldsDelivered<Cell(!new)>(run: Yields, plan: StreamPlan, survivors: seq<SourceRecord>,
    cellOf: ArrowValue -> Cell, table: Option<seq<Row<Cell>>>, faults: nat -> Sql.WriteFault, rollbackReaches: nat -> bool,
    fault: Sql.CommitFault)
    requires Delivers(run, plan, survivors) && AllMaterialize(plan.fields, survivors) && run.failure.None?
    ensures var chunks := AllRows(run.batches, cellOf);
      var s' := Deliver(Sql.SqlWriter(faults, rollbackReaches, fault),
                        Sql.BeginSql(Sql.FullRefresh, Keys(0, []), table), chunks, 0, run.failure).0;
      s'.table == if Sql.AllAccepted(chunks, faults) && fault.Commits()
                  then Some(RecordRows(plan.fields, survivors, cellOf)) else table
  {
    DeliveredInOrder(run, plan, survivors, cellOf);
    Sql.SqlRefreshIsAtomic(
      Keys(0, []), table, AllRows(run.batches, cellOf), run.failure, faults, rollbackReaches, fault);
  }

  lemma {:induction false} AlignedChunksStage<Cell>(keys: Keys, batches: seq<Batch>, cellOf: ArrowValue -> Cell,
    stages: nat -> bool, first: nat)
    requires forall i :: 0 <= i < |batches| ==> |batches[i].columns| == keys.width
    ensures AllStaged(keys, AllRows(batches, cellOf), stages, first) <==> AllExecute(stages, first, |batches|)
    decreases |batches|
  {
    if batches != [] {
      assert AllRows(batches, cellOf)[1..] == AllRows(batches[1..], cellOf);
      AlignedChunksStage(keys, batches[1..], cellOf, stages, first + 1);
      assert AllExecute(stages, first, |batches|) <==> stages(first) && AllExecute(stages, first + 1, |batches| - 1);
    }
  }

  lemma {:induction false} BatchesHaveColumns(plan: StreamPlan, chunks: seq<seq<SourceRecord>>)
    requires ChunksUsable(plan, chunks) && BuildAll(plan, chunks).Some?
    ensures var batches := BuildAll(plan, chunks).value;
      forall i :: 0 <= i < |batches| ==> |batches[i].columns| == |plan.fields|
    decreases chunks
  {
    if chunks != [] {
      BatchesHaveColumns(plan, chunks[1..]);
    }
  }

  /** The chunks have the table's columns. */
  ghost predicate Aligned<Cell>(keys: Keys, chunks: seq<seq<Row<Cell>>>) {
    forall i :: 0 <= i < |chunks| ==> Rows(keys, chunks[i])
  }

  lemma DeliveredChunksAlign<Cell>(run: Yields, plan: StreamPlan, survivors: seq<SourceRecord>,
    cellOf: ArrowValue -> Cell, keys: Keys)
    requires Delivers(run, plan, survivors) && keys.width == |plan.fields|
    ensures Aligned(keys, AllRows(run.batches, cellOf))
  {
    BatchesHaveColumns(plan, Chunked(survivors, plan.chunkRows));
  }

  /** A DuckDB merge of what a run delivers upserts exactly the survivors' rows, or leaves the target untouched. */
  lemma MergeHoldsDelivered<Cell(!new)>(run: Yields, plan: StreamPlan, survivors: seq<SourceRecord>,
    cellOf: ArrowValue -> Cell, keys: Keys, target: seq<Row<Cell>>, stages: nat -> bool, outcome: MergeOutcome)
    requires Delivers(run, plan, survivors) && AllMaterialize(plan.fields, survivors) && run.failure.None?
    requires keys.Valid() && keys.width == |plan.fields| && Rows(keys, target)
    ensures Rows(keys, RecordRows(plan.fields, survivors, cellOf))
    ensures var rows, chunks := RecordRows(plan.fields, survivors, cellOf), AllRows(run.batches, cellOf);
      Deliver(MergeWriter(stages, outcome), BeginMerge(keys, target), chunks, 0, run.failure).0.table
        == (if DistinctKeys(keys, rows) && AllExecute(stages, 0, |chunks|) && MergeCommits(outcome)
            then MergeInto(keys, target, rows) else target)
  {
    var rows, chunks := RecordRows(plan.fields, survivors, cellOf), AllRows(run.batches, cellOf);
    DeliveredInOrder(run, plan, survivors, cellOf);
    BatchesHaveColumns(plan, Chunked(survivors, plan.chunkRows));
    AlignedChunksStage(keys, run.batches, cellOf, stages, 0);
    MergePhaseIsAtomic(BeginMerge(keys, target), chunks, run.failure, stages, outcome);
    assert [] + Flatten(chunks) == rows;
    forall i | 0 <= i < |rows| ensures |rows[i]| == keys.width {
      OneMaterializes(plan.fields, survivors, i);
    }
  }

  // ----- Merge keys -----

  function FieldNames(fields: seq<PlannedField>): (r: seq<string>)
    ensures |r| == |fields| && forall i :: 0 <= i < |r| ==> r[i] == fields[i].name
  {
    seq(|fields|, i requires 0 <= i < |fields| => fields[i].name)
  }

  predicate KeysNamed(fields: seq<PlannedField>, mergeKeys: seq<string>) {
    forall i :: 0 <= i < |mergeKeys| ==> mergeKeys[i] in FieldNames(fields)
  }

  /** The table columns of a merge's keys. */
  function KeysIn(fields: seq<PlannedField>, mergeKeys: seq<string>): (r: Keys)
    requires KeysNamed(fields, mergeKeys)
    ensures r.Valid() && r.width == |fields| && |r.positions| == |mergeKeys|
    ensures forall i :: 0 <= i < |r.positions| ==> IndexOf(FieldNames(fields), mergeKeys[i]) == Some(r.positions[i])
  {
    Keys(|fields|, seq(|mergeKeys|, i requires 0 <= i < |mergeKeys| => IndexOf(FieldNames(fields), mergeKeys[i]).value))
  }

  lemma ColumnNamedCons(column: DatasetColumn, rest: seq<DatasetColumn>, name: string)
    requires column.datasetName == name || name in DatasetNames(rest)
    ensures name in DatasetNames([column] + rest)
    ensures ColumnNamed([column] + rest, name) == if column.datasetName == name then column else ColumnNamed(rest, name)
  {
    assert DatasetNames([column] + rest) == [column.datasetName] + DatasetNames(rest);
    IndexOfCons(column.datasetName, DatasetNames(rest), name);
  }

  lemma IndexOfCons(first: string, rest: seq<string>, name: string)
    requires first == name || name in rest
    ensures name in [first] + rest
    ensures IndexOf([first] + rest, name) == if first == name then Some(0) else Some(IndexOf(rest, name).value + 1)
  {
    assert ([first] + rest)[0] == first && ([first] + rest)[1..] == rest;
  }

  lemma KeepsFirstStep(head: DatasetColumn, rest: seq<DatasetColumn>, added: seq<DatasetColumn>, pinned: seq<string>,
    name: string)
    requires name !in pinned
    requires head.datasetName != name ==>
      && name in DatasetNames(rest) && name in DatasetNames(added) && ColumnNamed(added, name) == ColumnNamed(rest, name)
    ensures var longer := (if head.datasetName in pinned then [] else [head]) + added;
      && name in DatasetNames([head] + rest) && name in DatasetNames(longer)
      && ColumnNamed(longer, name) == ColumnNamed([head] + rest, name)
  {
    ColumnNamedCons(head, rest, name);
    if head.datasetName in pinned {
      assert [] + added == added;
    } else {
      ColumnNamedCons(head, added, name);
    }
  }

  /** Leaving out pinned columns keeps the first column of every other name. */
  lemma {:induction false} AddedKeepsFirst(columns: seq<DatasetColumn>, pinned: seq<string>, name: string)
    requires name in DatasetNames(columns) && name !in pinned
    ensures name in DatasetNames(AddedColumns(columns, pinned))
    ensures ColumnNamed(AddedColumns(columns, pinned), name) == ColumnNamed(columns, name)
  {
    var i :| 0 <= i < |columns| && columns[i].datasetName == name;
    if columns[0].datasetName != name {
      assert DatasetNames(columns[1..])[i - 1] == name;
      AddedKeepsFirst(columns[1..], pinned, name);
    }
    KeepsFirstStep(columns[0], columns[1..], AddedColumns(columns[1..], pinned), pinned, name);
    assert [columns[0]] + columns[1..] == columns;
  }

  lemma FirstAt(s: seq<string>, name: string, i: nat)
    requires i < |s| && s[i] == name && name !in s[..i]
    ensures name in s && IndexOf(s, name) == Some(i)
  {
    forall k | 0 <= k < i ensures s[k] != name {
      assert s[..i][k] == s[k];
    }
  }

  lemma IndexOfConcat(a: seq<string>, b: seq<string>, name: string)
    requires name in a || name in b
    ensures name in a + b
    ensures IndexOf(a + b, name) == if name in a then IndexOf(a, name) else Some(|a| + IndexOf(b, name).value)
  {
    var k := if name in a then IndexOf(a, name).value else IndexOf(b, name).value;
    if name in a {
      assert (a + b)[..k] == a[..k];
      FirstAt(a + b, name, k);
    } else {
      assert (a + b)[..|a| + k] == a + b[..k];
      FirstAt(a + b, name, |a| + k);
    }
  }

  lemma PinnedKeyField(columns: seq<DatasetColumn>, pin: seq<PinnedField>, added: seq<PlannedField>, outside: seq<string>,
    name: string)
    requires AllNamed(columns, PinNames(pin)) && name in PinNames(pin)
    requires FieldNames(MatchedFields(pin, columns) + added) == PinNames(pin) + outside
    ensures var fields := MatchedFields(pin, columns) + added;
      && name in FieldNames(fields) && name in DatasetNames(columns)
      && var field := fields[IndexOf(FieldNames(fields), name).value];
         field.source == ColumnNamed(columns, name).source && field.observedIndex == ColumnNamed(columns, name).observedIndex
  {
    IndexOfConcat(PinNames(pin), outside, name);
    var i := IndexOf(PinNames(pin), name).value;
    assert (MatchedFields(pin, columns) + added)[i] == MatchedFields(pin, columns)[i];
  }

  lemma OutsideKeyField(matched: seq<PlannedField>, outside: seq<DatasetColumn>, types: seq<InferredType>,
    overrides: seq<FieldOverride>, pinned: seq<string>, name: string)
    requires InRange(outside, |types|) && name !in pinned && name in DatasetNames(outside) && |matched| == |pinned|
    requires FieldNames(matched + InferredFields(outside, types, overrides)) == pinned + DatasetNames(outside)
    ensures var fields := matched + InferredFields(outside, types, overrides);
      && name in FieldNames(fields)
      && var field := fields[IndexOf(FieldNames(fields), name).value];
         field.source == ColumnNamed(outside, name).source && field.observedIndex == ColumnNamed(outside, name).observedIndex
  {
    IndexOfConcat(pinned, DatasetNames(outside), name);
    var i := IndexOf(DatasetNames(outside), name).value;
    var added := InferredFields(outside, types, overrides);
    assert (matched + added)[|pinned| + i] == added[i];
  }

  /** The first field of a key's name reads the column the key's check reads. */
  lemma KeyFieldReadsKeyColumn(t: SchemaTransform, fieldNames: seq<string>, pin: seq<PinnedField>,
    overrides: seq<FieldOverride>, types: seq<InferredType>, name: string)
    requires AllKnown(t, fieldNames) && AllNamed(Columns(t, fieldNames), PinNames(pin))
    requires InRange(OutsideColumns(Columns(t, fieldNames), pin), |types|)
    requires name in DatasetNames(Columns(t, fieldNames))
    ensures var fields := FieldsOver(t, fieldNames, pin, overrides, types);
      var column := ColumnNamed(Columns(t, fieldNames), name);
      && name in FieldNames(fields)
      && var field := fields[IndexOf(FieldNames(fields), name).value];
         field.source == column.source && field.observedIndex == column.observedIndex
  {
    var columns := Columns(t, fieldNames);
    var outside := OutsideColumns(columns, pin);
    var matched, added := MatchedFields(pin, columns), InferredFields(outside, types, overrides);
    PlannedNames(matched, added, PinNames(pin), DatasetNames(outside));
    if name in PinNames(pin) {
      PinnedKeyField(columns, pin, added, DatasetNames(outside), name);
    } else {
      AddedKeepsFirst(columns, PinNames(pin), name);
      OutsideKeyField(matched, outside, types, overrides, PinNames(pin), name);
    }
  }

  lemma PlannedNames(matched: seq<PlannedField>, added: seq<PlannedField>, first: seq<string>, second: seq<string>)
    requires |matched| == |first| && forall i :: 0 <= i < |first| ==> matched[i].name == first[i]
    requires |added| == |second| && forall i :: 0 <= i < |second| ==> added[i].name == second[i]
    ensures FieldNames(matched + added) == first + second
  {
  }

  lemma KeyFieldIsChecked(directive: Directive, mergeKeys: seq<string>, fieldNames: seq<string>,
    all: seq<InferredType>, types: seq<InferredType>, k: nat)
    requires |all| == |types| == ShapeWidth(directive, fieldNames) && k < |mergeKeys|
    requires ResolvePlan(directive, mergeKeys, fieldNames, all, types).Success?
    ensures var resolution := ResolvePlan(directive, mergeKeys, fieldNames, all, types).value;
      && mergeKeys[k] in FieldNames(resolution.fields)
      && var field := resolution.fields[IndexOf(FieldNames(resolution.fields), mergeKeys[k]).value];
         exists c :: c in resolution.checks && c.required.Some? && c.source == field.source
                     && c.observedIndex == field.observedIndex
  {
    PlanShape(directive, mergeKeys, fieldNames, all, types);
    var t, columns := directive.transform, Columns(directive.transform, fieldNames);
    KeyFieldReadsKeyColumn(t, fieldNames, PinUsed(directive), directive.overrides, types, mergeKeys[k]);
    var check := MergeKeyChecks(mergeKeys, columns)[k];
    assert check in MergeKeyChecks(mergeKeys, columns);
  }

  /** No surviving record has a null in a merge key, whatever the directive made of the key's field. */
  lemma SurvivingKeysPresent<Cell(!new)>(input: Input, cellOf: ArrowValue -> Cell)
    requires input.Readable() && input.Resolution().Success?
    ensures input.Checks().Some?
    ensures var fields := input.Resolution().value.fields;
      && AllMaterialize(fields, input.Survivors()) && KeysNamed(fields, input.mergeKeys)
      && var keys, rows := KeysIn(fields, input.mergeKeys), RecordRows(fields, input.Survivors(), cellOf);
         Rows(keys, rows) && StagedKeysPresent(keys, rows)
  {
    SurvivorsMaterialize(input);
    var fields, survivors := input.Resolution().value.fields, input.Survivors();
    forall k | 0 <= k < |input.mergeKeys| ensures input.mergeKeys[k] in FieldNames(fields) {
      ResolvedKeyIsChecked(input, k);
    }
    var keys, rows := KeysIn(fields, input.mergeKeys), RecordRows(fields, survivors, cellOf);
    forall i, k | 0 <= i < |rows| && 0 <= k < |input.mergeKeys| ensures KeyOf(keys, rows[i])[k].Some? {
      KeyCellPresent(input, cellOf, i, k);
    }
  }

  lemma ResolvedKeyIsChecked(input: Input, k: nat)
    requires input.Readable() && input.Resolution().Success? && k < |input.mergeKeys|
    ensures var resolution := input.Resolution().value;
      && input.mergeKeys[k] in FieldNames(resolution.fields)
      && var field := resolution.fields[IndexOf(FieldNames(resolution.fields), input.mergeKeys[k]).value];
         exists c :: c in resolution.checks && c.required.Some? && c.source == field.source
                     && c.observedIndex == field.observedIndex
  {
    var t := input.directive.transform;
    SurvivorsAreShaped(input);
    var survivors := if input.Checks().Some? then input.Survivors() else [];
    KeyFieldIsChecked(input.directive, input.mergeKeys, input.fieldNames,
      ObservedTypes(input.records, t, input.fieldNames), ObservedTypes(survivors, t, input.fieldNames), k);
  }

  lemma KeyCellPresent<Cell>(input: Input, cellOf: ArrowValue -> Cell, i: nat, k: nat)
    requires input.Readable() && input.Resolution().Success? && input.Checks().Some?
    requires AllMaterialize(input.Resolution().value.fields, input.Survivors())
    requires i < |input.Survivors()| && k < |input.mergeKeys|
    ensures var fields := input.Resolution().value.fields;
      && input.mergeKeys[k] in FieldNames(fields)
      && RecordRows(fields, input.Survivors(), cellOf)[i][IndexOf(FieldNames(fields), input.mergeKeys[k]).value].Some?
  {
    ResolvedKeyIsChecked(input, k);
    ResolutionHasChecks(input);
    ChecksReadable(input);
    var resolution, record := input.Resolution().value, input.Survivors()[i];
    var f := IndexOf(FieldNames(resolution.fields), input.mergeKeys[k]).value;
    var c :| c in resolution.checks && c.required.Some? && c.source == resolution.fields[f].source
             && c.observedIndex == resolution.fields[f].observedIndex;
    SurvivorPasses(input.records, input.Checks().value, i);
    PassingCheck(record, resolution.checks, c);
    assert Materializes(resolution.fields[f], record);
  }
}
