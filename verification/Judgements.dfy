/** What a resolved plan rejects: null merge keys, and values the pin and the overrides do not allow. */
module Judgements {
  import opened Wrappers
  import opened Sequences
  import opened FieldTypes
  import opened Records
  import opened Transforms
  import opened Schemas
  import opened Observations
  import opened Readings
  import opened CellMeanings
  import opened PlanMeanings

  /** The address finds nothing in the record. */
  ghost predicate Absent(record: SourceRecord, source: SourceAddress, index: nat) {
    forall value :: !Finds(record, source, index, value)
  }

  /** The address finds a value the type has no cell for, or would take zeros from. */
  ghost predicate Misfits(record: SourceRecord, source: SourceAddress, index: nat, t: FieldType) {
    exists value :: Finds(record, source, index, value) && !(HasCell(value, t) && !LosesZeros(value, t))
  }

  lemma ReadIsAbsent(record: SourceRecord, source: SourceAddress, index: nat)
    requires CanRead(record, source, index)
    ensures ReadField(record, source, index).None? <==> Absent(record, source, index)
  {
    var reading := ReadField(record, source, index);
    if reading.Some? {
      ReadFieldFinds(record, source, index, reading.value);
    }
    if value :| Finds(record, source, index, value) {
      ReadFieldFinds(record, source, index, value);
    }
  }

  lemma ReadMisfits(record: SourceRecord, source: SourceAddress, index: nat, t: FieldType)
    requires CanRead(record, source, index)
    ensures Misfits(record, source, index, t) <==>
      var reading := ReadField(record, source, index); reading.Some? && !ValueFits(reading.value, t)
  {
    var reading := ReadField(record, source, index);
    if reading.Some? {
      ReadFieldFinds(record, source, index, reading.value);
      FitsIffDenoted(reading.value, t);
    }
    if Misfits(record, source, index, t) {
      var value :| Finds(record, source, index, value) && !(HasCell(value, t) && !LosesZeros(value, t));
      ReadFieldFinds(record, source, index, value);
    }
  }

  /** A record fails a check by lacking a required value, or by a value that does not fit. */
  ghost predicate Breaks(record: SourceRecord, source: SourceAddress, index: nat, required: bool, t: Option<FieldType>) {
    (required && Absent(record, source, index)) || (t.Some? && Misfits(record, source, index, t.value))
  }

  lemma CheckFailsIff(record: SourceRecord, c: FieldCheck)
    requires CanRead(record, c.source, c.observedIndex)
    ensures CheckFails(record, c) <==>
      Breaks(record, c.source, c.observedIndex, c.required.Some?,
             match c.expected case None => None case Some(e) => Some(e.0))
  {
    ReadIsAbsent(record, c.source, c.observedIndex);
    if c.expected.Some? {
      ReadMisfits(record, c.source, c.observedIndex, c.expected.value.0);
    }
  }

  // ----- Which records are rejected -----

  /** The first column of this name. */
  predicate FirstNamed(columns: seq<DatasetColumn>, i: nat, name: string) {
    i < |columns| && columns[i].datasetName == name && forall j :: 0 <= j < i ==> columns[j].datasetName != name
  }

  lemma NamedIsFirst(columns: seq<DatasetColumn>, name: string) returns (i: nat)
    requires name in DatasetNames(columns)
    ensures FirstNamed(columns, i, name) && ColumnNamed(columns, name) == columns[i]
    ensures forall j :: FirstNamed(columns, j, name) ==> j == i
  {
    i := IndexOf(DatasetNames(columns), name).value;
    assert forall j :: 0 <= j < i ==> DatasetNames(columns)[j] != name;
  }

  ghost predicate KeyMissing(record: SourceRecord, columns: seq<DatasetColumn>, key: string) {
    exists i: nat :: FirstNamed(columns, i, key) && Absent(record, columns[i].source, columns[i].observedIndex)
  }

  ghost predicate PinBroken(record: SourceRecord, columns: seq<DatasetColumn>, p: PinnedField) {
    exists i: nat :: FirstNamed(columns, i, p.name)
      && Breaks(record, columns[i].source, columns[i].observedIndex, !p.nullable, Some(p.fieldType))
  }

  ghost predicate OverrideBroken(record: SourceRecord, column: DatasetColumn, o: FieldOverride) {
    column.datasetName == o.name
      && Breaks(record, column.source, column.observedIndex, o.nullable == Some(false), o.fieldType)
  }

  ghost predicate AnyKeyMissing(record: SourceRecord, columns: seq<DatasetColumn>, mergeKeys: seq<string>) {
    exists k :: 0 <= k < |mergeKeys| && KeyMissing(record, columns, mergeKeys[k])
  }

  ghost predicate AnyPinBroken(record: SourceRecord, columns: seq<DatasetColumn>, pin: seq<PinnedField>) {
    exists f :: 0 <= f < |pin| && PinBroken(record, columns, pin[f])
  }

  ghost predicate AnyOverrideBroken(record: SourceRecord, columns: seq<DatasetColumn>, pin: seq<PinnedField>,
    overrides: seq<FieldOverride>)
  {
    exists i, o :: 0 <= i < |columns| && 0 <= o < |overrides|
      && !InPin(pin, columns[i].datasetName) && OverrideBroken(record, columns[i], overrides[o])
  }

  lemma ViolatesConcat(record: SourceRecord, a: seq<FieldCheck>, b: seq<FieldCheck>)
    requires Readable(record, a + b)
    ensures Readable(record, a) && Readable(record, b)
    ensures RecordViolates(record, a + b) <==> RecordViolates(record, a) || RecordViolates(record, b)
  {
    assert forall i :: 0 <= i < |a| ==> (a + b)[i] == a[i];
    assert forall i :: 0 <= i < |b| ==> (a + b)[|a| + i] == b[i];
  }

  lemma KeyChecksMean(record: SourceRecord, columns: seq<DatasetColumn>, mergeKeys: seq<string>)
    requires AllNamed(columns, mergeKeys) && Readable(record, MergeKeyChecks(mergeKeys, columns))
    ensures RecordViolates(record, MergeKeyChecks(mergeKeys, columns)) <==> AnyKeyMissing(record, columns, mergeKeys)
  {
    forall k | 0 <= k < |mergeKeys|
      ensures CheckFails(record, MergeKeyChecks(mergeKeys, columns)[k]) <==> KeyMissing(record, columns, mergeKeys[k])
    {
      KeyCheckMeans(record, columns, mergeKeys, k);
    }
  }

  lemma KeyCheckMeans(record: SourceRecord, columns: seq<DatasetColumn>, mergeKeys: seq<string>, k: nat)
    requires AllNamed(columns, mergeKeys) && Readable(record, MergeKeyChecks(mergeKeys, columns)) && k < |mergeKeys|
    ensures CheckFails(record, MergeKeyChecks(mergeKeys, columns)[k]) <==> KeyMissing(record, columns, mergeKeys[k])
  {
    var i := NamedIsFirst(columns, mergeKeys[k]);
    CheckFailsIff(record, MergeKeyChecks(mergeKeys, columns)[k]);
  }

  lemma PinChecksMean(record: SourceRecord, columns: seq<DatasetColumn>, pin: seq<PinnedField>)
    requires AllNamed(columns, PinNames(pin)) && Readable(record, PinnedChecks(pin, MatchedFields(pin, columns)))
    ensures RecordViolates(record, PinnedChecks(pin, MatchedFields(pin, columns))) <==> AnyPinBroken(record, columns, pin)
  {
    var checks := PinnedChecks(pin, MatchedFields(pin, columns));
    forall f | 0 <= f < |pin| ensures CheckFails(record, checks[f]) <==> PinBroken(record, columns, pin[f]) {
      var i := NamedIsFirst(columns, PinNames(pin)[f]);
      CheckFailsIff(record, checks[f]);
    }
  }

  lemma OverrideCheckMeans(record: SourceRecord, column: DatasetColumn, o: FieldOverride)
    requires column.datasetName == o.name && CanRead(record, column.source, column.observedIndex)
    ensures CheckFails(record, OverrideCheck(o, column.datasetName, column.source, column.observedIndex)) <==>
      OverrideBroken(record, column, o)
  {
    CheckFailsIff(record, OverrideCheck(o, column.datasetName, column.source, column.observedIndex));
  }

  lemma OverrideChecksMean(record: SourceRecord, columns: seq<DatasetColumn>, pin: seq<PinnedField>,
    overrides: seq<FieldOverride>)
    requires Distinct(OverrideNames(overrides)) && Readable(record, OverrideChecks(overrides, OutsideColumns(columns, pin)))
    ensures RecordViolates(record, OverrideChecks(overrides, OutsideColumns(columns, pin))) <==>
      AnyOverrideBroken(record, columns, pin, overrides)
  {
    var outside := OutsideColumns(columns, pin);
    var checks := OverrideChecks(overrides, outside);
    if RecordViolates(record, checks) {
      var k :| 0 <= k < |checks| && CheckFails(record, checks[k]);
      FailedOverrideFound(record, columns, pin, overrides, checks[k]);
    }
    if AnyOverrideBroken(record, columns, pin, overrides) {
      var i, o :| 0 <= i < |columns| && 0 <= o < |overrides|
        && !InPin(pin, columns[i].datasetName) && OverrideBroken(record, columns[i], overrides[o]);
      BrokenOverrideFails(record, columns, pin, overrides, i, o);
    }
  }

  lemma FailedOverrideFound(record: SourceRecord, columns: seq<DatasetColumn>, pin: seq<PinnedField>,
    overrides: seq<FieldOverride>, c: FieldCheck)
    requires Distinct(OverrideNames(overrides)) && c in OverrideChecks(overrides, OutsideColumns(columns, pin))
    requires CanRead(record, c.source, c.observedIndex) && CheckFails(record, c)
    ensures AnyOverrideBroken(record, columns, pin, overrides)
  {
    var outside := OutsideColumns(columns, pin);
    OverrideCheckMember(c, overrides, outside);
    var j :| 0 <= j < |outside| && IsOverrideCheck(c, outside[j], overrides);
    var i :| 0 <= i < |columns| && columns[i] == outside[j];
    InPinIff(pin, columns[i].datasetName);
    var o :| 0 <= o < |overrides| && overrides[o] == GetOverride(overrides, columns[i].datasetName).value;
    OverrideCheckMeans(record, columns[i], overrides[o]);
  }

  lemma {:induction false} BrokenOverrideFails(record: SourceRecord, columns: seq<DatasetColumn>, pin: seq<PinnedField>,
    overrides: seq<FieldOverride>, i: nat, o: nat)
    requires Distinct(OverrideNames(overrides)) && Readable(record, OverrideChecks(overrides, OutsideColumns(columns, pin)))
    requires i < |columns| && o < |overrides|
    requires !InPin(pin, columns[i].datasetName) && OverrideBroken(record, columns[i], overrides[o])
    ensures RecordViolates(record, OverrideChecks(overrides, OutsideColumns(columns, pin)))
  {
    var outside := OutsideColumns(columns, pin);
    var checks := OverrideChecks(overrides, outside);
    InPinIff(pin, columns[i].datasetName);
    GetOverrideAt(overrides, o);
    var j :| 0 <= j < |outside| && outside[j] == columns[i];
    var c := OverrideCheck(overrides[o], columns[i].datasetName, columns[i].source, columns[i].observedIndex);
    assert IsOverrideCheck(c, outside[j], overrides);
    OverrideCheckMember(c, overrides, outside);
    var k :| 0 <= k < |checks| && checks[k] == c;
    OverrideCheckMeans(record, columns[i], overrides[o]);
  }

  /**
   * A plan rejects exactly the records with a null merge key, a pinned field the pin does not allow, or an
   * overridden field outside the pin that its override does not allow.
   */
  lemma JudgementMeans(record: SourceRecord, directive: Directive, mergeKeys: seq<string>, fieldNames: seq<string>,
    all: seq<InferredType>, types: seq<InferredType>)
    requires directive.Valid() && |all| == |types| == ShapeWidth(directive, fieldNames)
    requires ResolvePlan(directive, mergeKeys, fieldNames, all, types).Success?
    requires Readable(record, ResolvePlan(directive, mergeKeys, fieldNames, all, types).value.checks)
    ensures ResolveTransform(directive.transform, fieldNames).Success?
    ensures var columns := ResolveTransform(directive.transform, fieldNames).value;
      RecordViolates(record, ResolvePlan(directive, mergeKeys, fieldNames, all, types).value.checks) <==>
        || AnyKeyMissing(record, columns, mergeKeys) || AnyPinBroken(record, columns, PinUsed(directive))
        || AnyOverrideBroken(record, columns, PinUsed(directive), directive.overrides)
  {
    PlanShape(directive, mergeKeys, fieldNames, all, types);
    var columns, pin, overrides := Columns(directive.transform, fieldNames), PinUsed(directive), directive.overrides;
    var keys, pinned := MergeKeyChecks(mergeKeys, columns), PinnedChecks(pin, MatchedFields(pin, columns));
    var others := OverrideChecks(overrides, OutsideColumns(columns, pin));
    assert ResolvePlan(directive, mergeKeys, fieldNames, all, types).value.checks == keys + (pinned + others);
    ViolatesConcat(record, keys, pinned + others);
    ViolatesConcat(record, pinned, others);
    KeyChecksMean(record, columns, mergeKeys);
    PinChecksMean(record, columns, pin);
    OverrideChecksMean(record, columns, pin, overrides);
  }

  // ----- What a rejection says -----

  lemma {:induction false} ValidateConcat(record: SourceRecord, a: seq<FieldCheck>, b: seq<FieldCheck>)
    requires Readable(record, a + b)
    ensures Readable(record, a) && Readable(record, b)
    ensures ValidateRecord(record, a + b) ==
      if ValidateRecord(record, a).Some? then ValidateRecord(record, a) else ValidateRecord(record, b)
  {
    assert forall i :: 0 <= i < |a| ==> (a + b)[i] == a[i];
    assert forall i :: 0 <= i < |b| ==> (a + b)[|a| + i] == b[i];
    if a == [] {
      assert a + b == b;
    } else {
      assert (a + b)[1..] == a[1..] + b;
      assert Readable(record, a[1..] + b);
      ValidateConcat(record, a[1..], b);
    }
  }

  /** The rejection is that of the first check the record fails. */
  lemma {:induction false} FirstFailedCheck(record: SourceRecord, checks: seq<FieldCheck>) returns (k: nat)
    requires Readable(record, checks) && ValidateRecord(record, checks).Some?
    ensures k < |checks| && CheckFails(record, checks[k]) && forall j :: 0 <= j < k ==> !CheckFails(record, checks[j])
    ensures ValidateRecord(record, checks) == Some(CheckRejection(record, checks[k]))
  {
    if CheckFails(record, checks[0]) {
      k := 0;
    } else {
      var rest := checks[1..];
      assert forall i :: 0 <= i < |rest| ==> rest[i] == checks[i + 1];
      var j := FirstFailedCheck(record, rest);
      k := j + 1;
      assert forall i :: 1 <= i < k ==> checks[i] == rest[i - 1];
    }
  }

  /** What a rejection says of its record: which rule it broke, and in which dataset field. */
  ghost predicate Explains(rejection: Rejection, record: SourceRecord, columns: seq<DatasetColumn>, mergeKeys: seq<string>) {
    && rejection.line == record.line && rejection.field.Some?
    && match rejection.code
       case NullMergeKey =>
         exists k :: 0 <= k < |mergeKeys| && rejection.field.value == mergeKeys[k] && KeyMissing(record, columns, mergeKeys[k])
           && forall j :: 0 <= j < k ==> !KeyMissing(record, columns, mergeKeys[j])
       case MissingRequiredField =>
         exists i :: 0 <= i < |columns| && columns[i].datasetName == rejection.field.value
           && Absent(record, columns[i].source, columns[i].observedIndex)
       case TypeCoercionFailed =>
         exists i, t :: 0 <= i < |columns| && columns[i].datasetName == rejection.field.value
           && Misfits(record, columns[i].source, columns[i].observedIndex, t)
       case MalformedRecord => false
  }

  lemma KeyRejectionExplains(record: SourceRecord, columns: seq<DatasetColumn>, mergeKeys: seq<string>)
    requires AllNamed(columns, mergeKeys) && Readable(record, MergeKeyChecks(mergeKeys, columns))
    requires ValidateRecord(record, MergeKeyChecks(mergeKeys, columns)).Some?
    ensures var rejection := ValidateRecord(record, MergeKeyChecks(mergeKeys, columns)).value;
      rejection.code == NullMergeKey && Explains(rejection, record, columns, mergeKeys)
  {
    var k := FirstFailedCheck(record, MergeKeyChecks(mergeKeys, columns));
    forall j | 0 <= j <= k
      ensures CheckFails(record, MergeKeyChecks(mergeKeys, columns)[j]) <==> KeyMissing(record, columns, mergeKeys[j])
    {
      KeyCheckMeans(record, columns, mergeKeys, j);
    }
  }

  /** The check guards a dataset column under its name, and is not a merge key's. */
  ghost predicate GuardsColumn(c: FieldCheck, columns: seq<DatasetColumn>) {
    && c.required != Some(MergeKey)
    && exists i :: 0 <= i < |columns| && columns[i].datasetName == c.name
         && columns[i].source == c.source && columns[i].observedIndex == c.observedIndex
  }

  lemma SchemaRejectionExplains(record: SourceRecord, columns: seq<DatasetColumn>, mergeKeys: seq<string>, c: FieldCheck)
    requires GuardsColumn(c, columns) && CanRead(record, c.source, c.observedIndex) && CheckFails(record, c)
    ensures CheckRejection(record, c).code != NullMergeKey
    ensures Explains(CheckRejection(record, c), record, columns, mergeKeys)
  {
    ReadIsAbsent(record, c.source, c.observedIndex);
    if c.expected.Some? {
      ReadMisfits(record, c.source, c.observedIndex, c.expected.value.0);
    }
  }

  ghost predicate AllGuard(checks: seq<FieldCheck>, columns: seq<DatasetColumn>) {
    forall k :: 0 <= k < |checks| ==> GuardsColumn(checks[k], columns)
  }

  lemma PinnedChecksGuard(columns: seq<DatasetColumn>, pin: seq<PinnedField>)
    requires AllNamed(columns, PinNames(pin))
    ensures AllGuard(PinnedChecks(pin, MatchedFields(pin, columns)), columns)
  {
    var checks := PinnedChecks(pin, MatchedFields(pin, columns));
    forall f | 0 <= f < |checks| ensures GuardsColumn(checks[f], columns) {
      var i := NamedIsFirst(columns, PinNames(pin)[f]);
    }
  }

  lemma OverrideChecksGuard(columns: seq<DatasetColumn>, pin: seq<PinnedField>, overrides: seq<FieldOverride>)
    ensures AllGuard(OverrideChecks(overrides, OutsideColumns(columns, pin)), columns)
  {
    var outside := OutsideColumns(columns, pin);
    var checks := OverrideChecks(overrides, outside);
    forall k | 0 <= k < |checks| ensures GuardsColumn(checks[k], columns) {
      OverrideCheckMember(checks[k], overrides, outside);
      var j :| 0 <= j < |outside| && IsOverrideCheck(checks[k], outside[j], overrides);
      var i :| 0 <= i < |columns| && columns[i] == outside[j];
    }
  }

  lemma SchemaRejectionsExplain(record: SourceRecord, columns: seq<DatasetColumn>, mergeKeys: seq<string>,
    checks: seq<FieldCheck>)
    requires AllGuard(checks, columns) && Readable(record, checks) && ValidateRecord(record, checks).Some?
    ensures var rejection := ValidateRecord(record, checks).value;
      rejection.code != NullMergeKey && Explains(rejection, record, columns, mergeKeys)
  {
    var k := FirstFailedCheck(record, checks);
    SchemaRejectionExplains(record, columns, mergeKeys, checks[k]);
  }

  /** Judged by the merge keys' checks and then the others, a rejection names a null key before anything else. */
  lemma JudgedInOrder(record: SourceRecord, columns: seq<DatasetColumn>, mergeKeys: seq<string>, others: seq<FieldCheck>)
    requires AllNamed(columns, mergeKeys) && AllGuard(others, columns)
    requires Readable(record, MergeKeyChecks(mergeKeys, columns) + others)
    requires ValidateRecord(record, MergeKeyChecks(mergeKeys, columns) + others).Some?
    ensures var rejection := ValidateRecord(record, MergeKeyChecks(mergeKeys, columns) + others).value;
      && Explains(rejection, record, columns, mergeKeys)
      && (rejection.code == NullMergeKey <==> AnyKeyMissing(record, columns, mergeKeys))
  {
    var keys := MergeKeyChecks(mergeKeys, columns);
    ValidateConcat(record, keys, others);
    RejectedIffViolates(record, keys);
    KeyChecksMean(record, columns, mergeKeys);
    if ValidateRecord(record, keys).Some? {
      KeyRejectionExplains(record, columns, mergeKeys);
    } else {
      SchemaRejectionsExplain(record, columns, mergeKeys, others);
    }
  }

  /** A rejection names the first null merge key before anything else; otherwise a field that lacks or misfits its value. */
  lemma RejectionExplains(record: SourceRecord, directive: Directive, mergeKeys: seq<string>, fieldNames: seq<string>,
    all: seq<InferredType>, types: seq<InferredType>)
    requires directive.Valid() && |all| == |types| == ShapeWidth(directive, fieldNames)
    requires ResolvePlan(directive, mergeKeys, fieldNames, all, types).Success?
    requires Readable(record, ResolvePlan(directive, mergeKeys, fieldNames, all, types).value.checks)
    requires ValidateRecord(record, ResolvePlan(directive, mergeKeys, fieldNames, all, types).value.checks).Some?
    ensures ResolveTransform(directive.transform, fieldNames).Success?
    ensures var columns := ResolveTransform(directive.transform, fieldNames).value;
      var rejection := ValidateRecord(record, ResolvePlan(directive, mergeKeys, fieldNames, all, types).value.checks).value;
      && Explains(rejection, record, columns, mergeKeys)
      && (rejection.code == NullMergeKey <==> AnyKeyMissing(record, columns, mergeKeys))
  {
    PlanShape(directive, mergeKeys, fieldNames, all, types);
    var columns, pin, overrides := Columns(directive.transform, fieldNames), PinUsed(directive), directive.overrides;
    PinnedChecksGuard(columns, pin);
    OverrideChecksGuard(columns, pin, overrides);
    JudgedInOrder(record, columns, mergeKeys,
      PinnedChecks(pin, MatchedFields(pin, columns)) + OverrideChecks(overrides, OutsideColumns(columns, pin)));
  }

  // ----- Observed types -----

  /** A column's observed type is the least above what every record shows. */
  lemma {:induction false} ColumnTypeIsLeast(records: seq<SourceRecord>, source: SourceAddress, index: nat, t: InferredType)
    requires CanReadAll(records, source, index)
    ensures Below(ColumnType(records, source, index), t) <==>
      forall i :: 0 <= i < |records| ==> Below(Observe(ReadField(records[i], source, index)), t)
  {
    if records != [] {
      var last := |records| - 1;
      ColumnTypeIsLeast(records[..last], source, index, t);
      var before := ColumnType(records[..last], source, index);
      MergeIsLeastUpperBound(before, Observe(ReadField(records[last], source, index)), t);
      assert forall i :: 0 <= i < last ==> records[..last][i] == records[i];
    }
  }

  /** The value has a cell of the type without losing zeros. */
  ghost predicate Holds(record: SourceRecord, source: SourceAddress, index: nat, t: FieldType) {
    forall value :: Finds(record, source, index, value) ==> HasCell(value, t) && !LosesZeros(value, t)
  }

  /** An undeclared column gets the least type that holds every value its survivors have. */
  lemma ColumnTypeHoldsAll(records: seq<SourceRecord>, source: SourceAddress, index: nat, t: InferredType)
    requires CanReadAll(records, source, index) && !t.NullType?
    ensures Below(ColumnType(records, source, index), t) <==>
      forall i :: 0 <= i < |records| ==> Holds(records[i], source, index, t.FieldType())
  {
    ColumnTypeIsLeast(records, source, index, t);
    forall i | 0 <= i < |records|
      ensures Below(Observe(ReadField(records[i], source, index)), t) <==> Holds(records[i], source, index, t.FieldType())
    {
      RecordHolds(records[i], source, index, t);
    }
  }

  lemma RecordHolds(record: SourceRecord, source: SourceAddress, index: nat, t: InferredType)
    requires CanRead(record, source, index) && !t.NullType?
    ensures Below(Observe(ReadField(record, source, index)), t) <==> Holds(record, source, index, t.FieldType())
  {
    var reading := ReadField(record, source, index);
    ReadMisfits(record, source, index, t.FieldType());
    if reading.Some? {
      InferIsNarrowest(reading.value, t);
    }
  }
}
