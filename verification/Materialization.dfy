/** Building chunks: over surviving records every column builder returns a value for each record. */
module Materialization {
  import opened Wrappers
  import opened Failures
  import opened Sequences
  import opened FieldTypes
  import opened Records
  import opened Transforms
  import opened Schemas
  import opened Observations
  import opened Inputs

  /** One materialized chunk: its schema's fields, and one column of cells per field. */
  datatype Batch = Batch(fields: seq<PlannedField>, columns: seq<seq<ArrowValue>>, rows: nat)

  predicate CanBuild(fields: seq<PlannedField>, records: seq<SourceRecord>) {
    forall f, i :: 0 <= f < |fields| && 0 <= i < |records| ==>
      CanRead(records[i], fields[f].source, fields[f].observedIndex)
  }

  function Cell(field: PlannedField, record: SourceRecord): Result<ArrowValue, Code>
    requires CanRead(record, field.source, field.observedIndex)
  {
    BuildCell(field.materializedType, ReadField(record, field.source, field.observedIndex))
  }

  predicate ColumnCoerces(field: PlannedField, records: seq<SourceRecord>)
    requires forall i :: 0 <= i < |records| ==> CanRead(records[i], field.source, field.observedIndex)
  {
    forall i :: 0 <= i < |records| ==> Cell(field, records[i]).Success?
  }

  function Column(field: PlannedField, records: seq<SourceRecord>): (r: seq<ArrowValue>)
    requires forall i :: 0 <= i < |records| ==> CanRead(records[i], field.source, field.observedIndex)
    requires ColumnCoerces(field, records)
    ensures |r| == |records| && forall i :: 0 <= i < |r| ==> Cell(field, records[i]) == Success(r[i])
  {
    seq(|records|, i requires 0 <= i < |records| => Cell(field, records[i]).value)
  }

  /** Builds one column; the first cell that fails to coerce fails the column. */
  method BuildColumn(field: PlannedField, records: seq<SourceRecord>) returns (r: Result<seq<ArrowValue>, Code>)
    requires forall i :: 0 <= i < |records| ==> CanRead(records[i], field.source, field.observedIndex)
    ensures r == if ColumnCoerces(field, records) then Success(Column(field, records)) else Failure(SchemaCoercionFailed)
  {
    var built: seq<ArrowValue> := [];
    for i := 0 to |records|
      invariant |built| == i && forall k :: 0 <= k < i ==> Cell(field, records[k]) == Success(built[k])
    {
      var cell := Cell(field, records[i]);
      if cell.Failure? {
        return Failure(SchemaCoercionFailed);
      }
      built := built + [cell.value];
    }
    assert ColumnCoerces(field, records) && built == Column(field, records);
    return Success(built);
  }

  /** A chunk assembles when it has a column and no non-nullable field holds a null. */
  predicate Assembles(batch: Batch) {
    && batch.columns != [] && |batch.columns| == |batch.fields|
    && forall f :: 0 <= f < |batch.columns| ==>
         |batch.columns[f]| == batch.rows && (Null in batch.columns[f] ==> batch.fields[f].nullable)
  }

  /** What a chunk of records builds to: every column in turn, then the assembled batch. */
  function BuiltChunk(fields: seq<PlannedField>, records: seq<SourceRecord>): Result<Batch, Code>
    requires CanBuild(fields, records)
  {
    if exists f :: 0 <= f < |fields| && !ColumnCoerces(fields[f], records) then Failure(SchemaCoercionFailed)
    else
      var batch := Batch(fields, seq(|fields|, f requires 0 <= f < |fields| => Column(fields[f], records)), |records|);
      if Assembles(batch) then Success(batch) else Failure(RecordBatchCreationFailed)
  }

  method BuildChunk(fields: seq<PlannedField>, records: seq<SourceRecord>) returns (r: Result<Batch, Code>)
    requires CanBuild(fields, records)
    ensures r == BuiltChunk(fields, records)
  {
    var columns: seq<seq<ArrowValue>> := [];
    for f := 0 to |fields|
      invariant |columns| == f
      invariant forall g :: 0 <= g < f ==> ColumnCoerces(fields[g], records) && columns[g] == Column(fields[g], records)
    {
      var column := BuildColumn(fields[f], records);
      if column.Failure? {
        return Failure(column.error);
      }
      columns := columns + [column.value];
    }
    var batch := Batch(fields, columns, |records|);
    assert columns == seq(|fields|, f requires 0 <= f < |fields| => Column(fields[f], records));
    return if Assembles(batch) then Success(batch) else Failure(RecordBatchCreationFailed);
  }

  /** The cell builds, and is a null only where the field allows one. */
  predicate CellAllowed(field: PlannedField, record: SourceRecord)
    requires CanRead(record, field.source, field.observedIndex)
  {
    Cell(field, record).Success? && (Cell(field, record).value.Null? ==> field.nullable)
  }

  predicate Buildable(fields: seq<PlannedField>, records: seq<SourceRecord>)
    requires CanBuild(fields, records)
  {
    && fields != []
    && forall f, i :: 0 <= f < |fields| && 0 <= i < |records| ==> CellAllowed(fields[f], records[i])
  }

  /** A chunk builds exactly when the plan has a field and every cell builds, null only where allowed. */
  lemma BuildsIffBuildable(fields: seq<PlannedField>, records: seq<SourceRecord>)
    requires CanBuild(fields, records)
    ensures BuiltChunk(fields, records).Success? <==> Buildable(fields, records)
    ensures BuiltChunk(fields, records).Success? ==> BuiltChunk(fields, records).value.rows == |records|
  {
    if forall f :: 0 <= f < |fields| ==> ColumnCoerces(fields[f], records) {
      forall f | 0 <= f < |fields|
        ensures (Null in Column(fields[f], records) ==> fields[f].nullable) <==>
          forall i :: 0 <= i < |records| ==> CellAllowed(fields[f], records[i])
      {
        var column := Column(fields[f], records);
        if Null in column && !fields[f].nullable {
          var i :| 0 <= i < |column| && column[i] == Null;
          assert !CellAllowed(fields[f], records[i]);
        }
        forall i | 0 <= i < |records| && !CellAllowed(fields[f], records[i]) ensures Null in column && !fields[f].nullable {
          assert column[i] == Null;
        }
      }
    } else {
      var f :| 0 <= f < |fields| && !ColumnCoerces(fields[f], records);
      var i :| 0 <= i < |records| && Cell(fields[f], records[i]).Failure?;
      assert !CellAllowed(fields[f], records[i]);
    }
  }

  lemma PassingCheck(record: SourceRecord, checks: seq<FieldCheck>, c: FieldCheck)
    requires Schemas.Readable(record, checks) && !RecordViolates(record, checks) && c in checks
    ensures CanRead(record, c.source, c.observedIndex) && !CheckFails(record, c)
  {
    var i :| 0 <= i < |checks| && checks[i] == c;
  }

  /** The record's value fits the field and builds; it builds to a null only when absent, which the field must allow. */
  ghost predicate Materializes(field: PlannedField, record: SourceRecord) {
    && CanRead(record, field.source, field.observedIndex)
    && (var reading := ReadField(record, field.source, field.observedIndex);
        reading.Some? ==> ValueFits(reading.value, field.materializedType))
    && Cell(field, record).Success?
    && (Cell(field, record).value.Null? <==> ReadField(record, field.source, field.observedIndex).None?)
    && (Cell(field, record).value.Null? ==> field.nullable)
  }

  lemma PinnedFieldMaterializes(field: PlannedField, pinned: PinnedField, record: SourceRecord)
    requires CanRead(record, field.source, field.observedIndex)
    requires !CheckFails(record, PinnedCheck(pinned, field.source, field.observedIndex))
    requires field.materializedType == pinned.fieldType && field.nullable == pinned.nullable
    ensures Materializes(field, record)
  {
    var reading := ReadField(record, field.source, field.observedIndex);
    if reading.Some? {
      FittingValueBuilds(reading.value, pinned.fieldType);
    }
  }

  lemma InferredFieldMaterializes(
    column: DatasetColumn, types: seq<InferredType>, overrides: seq<FieldOverride>, record: SourceRecord)
    requires column.observedIndex < |types| && CanRead(record, column.source, column.observedIndex)
    requires Records.Observe(ReadField(record, column.source, column.observedIndex)).Widens(types[column.observedIndex])
    requires var o := GetOverride(overrides, column.datasetName);
      o.Some? ==> !CheckFails(record, OverrideCheck(o.value, column.datasetName, column.source, column.observedIndex))
    ensures Materializes(InferredField(column, types, overrides), record)
  {
    var field := InferredField(column, types, overrides);
    var reading := ReadField(record, column.source, column.observedIndex);
    var o := GetOverride(overrides, column.datasetName);
    if reading.Some? {
      if !(o.Some? && o.value.fieldType.Some?) {
        WidenedValueFits(reading.value, types[column.observedIndex]);
      }
      FittingValueBuilds(reading.value, field.materializedType);
    }
  }

  /** Records that pass every check, and the observed types they give each slot. */
  ghost predicate PassAll(records: seq<SourceRecord>, checks: seq<FieldCheck>) {
    forall i :: 0 <= i < |records| ==> Schemas.Readable(records[i], checks) && !RecordViolates(records[i], checks)
  }

  lemma InferredColumnMaterializes(survivors: seq<SourceRecord>, t: SchemaTransform, fieldNames: seq<string>,
    column: DatasetColumn, overrides: seq<FieldOverride>, checks: seq<FieldCheck>, i: nat)
    requires Shaped(survivors, t, fieldNames) && AllKnown(t, fieldNames) && column in Columns(t, fieldNames)
    requires PassAll(survivors, checks) && i < |survivors|
    requires forall c :: IsOverrideCheck(c, column, overrides) ==> c in checks
    ensures column.observedIndex < |ObservedTypes(survivors, t, fieldNames)|
    ensures Materializes(InferredField(column, ObservedTypes(survivors, t, fieldNames), overrides), survivors[i])
  {
    ColumnsReadSlots(t, fieldNames, column);
    SlotReadable(survivors, t, fieldNames, column.observedIndex);
    ValueWidensToColumn(survivors, column.source, column.observedIndex, i);
    var o := GetOverride(overrides, column.datasetName);
    if o.Some? {
      var check := OverrideCheck(o.value, column.datasetName, column.source, column.observedIndex);
      assert IsOverrideCheck(check, column, overrides);
      PassingCheck(survivors[i], checks, check);
    }
    InferredFieldMaterializes(column, ObservedTypes(survivors, t, fieldNames), overrides, survivors[i]);
  }

  lemma PassParts(records: seq<SourceRecord>, a: seq<FieldCheck>, b: seq<FieldCheck>)
    requires PassAll(records, a + b)
    ensures PassAll(records, a) && PassAll(records, b)
  {
    forall i | 0 <= i < |records|
      ensures Schemas.Readable(records[i], a) && !RecordViolates(records[i], a)
      ensures Schemas.Readable(records[i], b) && !RecordViolates(records[i], b)
    {
      assert forall k :: 0 <= k < |a| ==> (a + b)[k] == a[k];
      assert forall k :: 0 <= k < |b| ==> (a + b)[|a| + k] == b[k];
    }
  }

  /** The record materializes in every one of these fields. */
  ghost predicate MaterializesAll(fields: seq<PlannedField>, record: SourceRecord) {
    forall f :: 0 <= f < |fields| ==> Materializes(fields[f], record)
  }

  lemma PinnedColumnsMaterialize(pin: seq<PinnedField>, matched: seq<PlannedField>, record: SourceRecord)
    requires |matched| == |pin|
    requires forall f :: 0 <= f < |pin| ==>
      matched[f].materializedType == pin[f].fieldType && matched[f].nullable == pin[f].nullable
    requires Schemas.Readable(record, PinnedChecks(pin, matched)) && !RecordViolates(record, PinnedChecks(pin, matched))
    ensures MaterializesAll(matched, record)
  {
    forall f | 0 <= f < |matched| ensures Materializes(matched[f], record) {
      assert !CheckFails(record, PinnedChecks(pin, matched)[f]);
      PinnedFieldMaterializes(matched[f], pin[f], record);
    }
  }

  lemma OutsideColumnMaterializes(survivors: seq<SourceRecord>, t: SchemaTransform, fieldNames: seq<string>,
    outside: seq<DatasetColumn>, overrides: seq<FieldOverride>, k: nat, i: nat)
    requires Shaped(survivors, t, fieldNames) && AllKnown(t, fieldNames)
    requires k < |outside| && outside[k] in Columns(t, fieldNames)
    requires PassAll(survivors, OverrideChecks(overrides, outside)) && i < |survivors|
    ensures outside[k].observedIndex < |ObservedTypes(survivors, t, fieldNames)|
    ensures Materializes(InferredField(outside[k], ObservedTypes(survivors, t, fieldNames), overrides), survivors[i])
  {
    forall c | IsOverrideCheck(c, outside[k], overrides) ensures c in OverrideChecks(overrides, outside) {
      OverrideCheckMember(c, overrides, outside);
    }
    InferredColumnMaterializes(
      survivors, t, fieldNames, outside[k], overrides, OverrideChecks(overrides, outside), i);
  }

  lemma OutsideColumnsMaterialize(survivors: seq<SourceRecord>, t: SchemaTransform, fieldNames: seq<string>,
    outside: seq<DatasetColumn>, overrides: seq<FieldOverride>, types: seq<InferredType>, i: nat)
    requires Shaped(survivors, t, fieldNames) && AllKnown(t, fieldNames) && types == ObservedTypes(survivors, t, fieldNames)
    requires forall k :: 0 <= k < |outside| ==> outside[k] in Columns(t, fieldNames)
    requires PassAll(survivors, OverrideChecks(overrides, outside)) && i < |survivors| && InRange(outside, |types|)
    ensures MaterializesAll(InferredFields(outside, types, overrides), survivors[i])
  {
    forall k | 0 <= k < |outside| ensures Materializes(InferredFields(outside, types, overrides)[k], survivors[i]) {
      OutsideColumnMaterializes(survivors, t, fieldNames, outside, overrides, k, i);
    }
  }

  lemma AllOfBoth(a: seq<PlannedField>, b: seq<PlannedField>, record: SourceRecord)
    requires MaterializesAll(a, record) && MaterializesAll(b, record)
    ensures MaterializesAll(a + b, record)
  {
  }

  lemma OutsideAreColumns(columns: seq<DatasetColumn>, pin: seq<PinnedField>)
    ensures var outside := OutsideColumns(columns, pin); forall k :: 0 <= k < |outside| ==> outside[k] in columns
  {
    forall k | 0 <= k < |OutsideColumns(columns, pin)| ensures OutsideColumns(columns, pin)[k] in columns {
      assert OutsideColumns(columns, pin)[k] in OutsideColumns(columns, pin);
    }
  }

  lemma FieldsOverMaterialize(t: SchemaTransform, fieldNames: seq<string>, pin: seq<PinnedField>,
    overrides: seq<FieldOverride>, survivors: seq<SourceRecord>, types: seq<InferredType>, i: nat)
    requires Shaped(survivors, t, fieldNames) && i < |survivors| && types == ObservedTypes(survivors, t, fieldNames)
    requires AllKnown(t, fieldNames) && AllNamed(Columns(t, fieldNames), PinNames(pin))
    requires InRange(OutsideColumns(Columns(t, fieldNames), pin), |types|)
    requires PassAll(survivors, PinnedChecks(pin, MatchedFields(pin, Columns(t, fieldNames))))
    requires PassAll(survivors, OverrideChecks(overrides, OutsideColumns(Columns(t, fieldNames), pin)))
    ensures MaterializesAll(FieldsOver(t, fieldNames, pin, overrides, types), survivors[i])
  {
    var columns := Columns(t, fieldNames);
    var matched, outside := MatchedFields(pin, columns), OutsideColumns(columns, pin);
    OutsideAreColumns(columns, pin);
    PinnedColumnsMaterialize(pin, matched, survivors[i]);
    OutsideColumnsMaterialize(survivors, t, fieldNames, outside, overrides, types, i);
    AllOfBoth(matched, InferredFields(outside, types, overrides), survivors[i]);
  }

  /** Every record that passes the resolved checks materializes in every planned field. */
  lemma PassingRecordMaterializes(directive: Directive, mergeKeys: seq<string>, fieldNames: seq<string>,
    all: seq<InferredType>, survivors: seq<SourceRecord>, types: seq<InferredType>, i: nat)
    requires Shaped(survivors, directive.transform, fieldNames) && |all| == ShapeWidth(directive, fieldNames)
    requires types == ObservedTypes(survivors, directive.transform, fieldNames) && i < |survivors|
    requires var r := ResolvePlan(directive, mergeKeys, fieldNames, all, types);
      r.Success? && PassAll(survivors, r.value.checks)
    ensures MaterializesAll(ResolvePlan(directive, mergeKeys, fieldNames, all, types).value.fields, survivors[i])
  {
    var t, pin, overrides := directive.transform, PinUsed(directive), directive.overrides;
    PlanShape(directive, mergeKeys, fieldNames, all, types);
    var columns := Columns(t, fieldNames);
    var keys, pinned := MergeKeyChecks(mergeKeys, columns), PinnedChecks(pin, MatchedFields(pin, columns));
    var others := OverrideChecks(overrides, OutsideColumns(columns, pin));
    PassParts(survivors, keys, pinned + others);
    PassParts(survivors, pinned, others);
    FieldsOverMaterialize(t, fieldNames, pin, overrides, survivors, types, i);
  }

  lemma SurvivorsPassAll(records: seq<SourceRecord>, checks: seq<FieldCheck>)
    requires AllReadable(records, checks)
    ensures PassAll(Survivors(records, checks), checks)
  {
    forall i | 0 <= i < |Survivors(records, checks)|
      ensures Schemas.Readable(Survivors(records, checks)[i], checks)
      ensures !RecordViolates(Survivors(records, checks)[i], checks)
    {
      SurvivorPasses(records, checks, i);
    }
  }

  /** Materialization never fails: survivors build in every field, with nulls only where the plan allows them. */
  lemma MaterializationIsInfallible(input: Input, f: nat, i: nat)
    requires input.Readable() && input.Resolution().Success?
    ensures input.Checks().Some? && input.Resolution().value.fields != []
    ensures f < |input.Resolution().value.fields| && i < |input.Survivors()| ==>
      Materializes(input.Resolution().value.fields[f], input.Survivors()[i])
  {
    ResolutionHasChecks(input);
    ChecksReadable(input);
    SurvivorsAreShaped(input);
    var all := ObservedTypes(input.records, input.directive.transform, input.fieldNames);
    var types := ObservedTypes(input.Survivors(), input.directive.transform, input.fieldNames);
    PlanHasFields(input.directive, input.mergeKeys, input.fieldNames, all, types);
    if f < |input.Resolution().value.fields| && i < |input.Survivors()| {
      SurvivorsPassAll(input.records, input.Checks().value);
      PassingRecordMaterializes(input.directive, input.mergeKeys, input.fieldNames, all, input.Survivors(), types, i);
    }
  }

  /** A resolved plan has at least one field, because the source shape, a selection and a pin all do. */
  lemma PlanHasFields(directive: Directive, mergeKeys: seq<string>, fieldNames: seq<string>,
    all: seq<InferredType>, types: seq<InferredType>)
    requires directive.Valid() && fieldNames != [] && |all| == |types| == ShapeWidth(directive, fieldNames)
    requires ResolvePlan(directive, mergeKeys, fieldNames, all, types).Success?
    ensures ResolvePlan(directive, mergeKeys, fieldNames, all, types).value.fields != []
  {
    PlanShape(directive, mergeKeys, fieldNames, all, types);
    if !directive.Pinned? {
      NothingPinned(Columns(directive.transform, fieldNames));
    }
  }
}
