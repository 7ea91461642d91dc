/** What pass 1 accumulates, as functions of the records it has seen; and what resolution does with it. */
module Observations {
  import opened Wrappers
  import opened Failures
  import opened Sequences
  import opened FieldTypes
  import opened Records
  import opened Transforms
  import opened Schemas

  ghost predicate CanReadAll(records: seq<SourceRecord>, source: SourceAddress, index: nat) {
    forall i :: 0 <= i < |records| ==> CanRead(records[i], source, index)
  }

  /** The narrowest type holding every value a field has across the records. */
  function ColumnType(records: seq<SourceRecord>, source: SourceAddress, index: nat): InferredType
    requires CanReadAll(records, source, index)
  {
    if records == [] then NullType
    else
      var last := |records| - 1;
      ColumnType(records[..last], source, index).Merge(Observe(ReadField(records[last], source, index)))
  }

  /** Every value of a column widens to the column's type. */
  lemma {:induction false} ValueWidensToColumn(records: seq<SourceRecord>, source: SourceAddress, index: nat, i: nat)
    requires CanReadAll(records, source, index) && i < |records|
    ensures Observe(ReadField(records[i], source, index)).Widens(ColumnType(records, source, index))
  {
    var last := |records| - 1;
    var before := ColumnType(records[..last], source, index);
    var observed := Observe(ReadField(records[last], source, index));
    if i < last {
      ValueWidensToColumn(records[..last], source, index, i);
      assert records[..last][i] == records[i];
      WidensOnward(Observe(ReadField(records[i], source, index)), before, observed);
    } else {
      WidensOnward(before, before, observed);
    }
  }

  lemma {:induction false} JsonColumnIgnoresIndex(records: seq<SourceRecord>, source: SourceAddress, i: nat, j: nat)
    requires CanReadAll(records, source, i) && CanReadAll(records, source, j)
    requires forall k :: 0 <= k < |records| ==> records[k].JsonRecord?
    ensures ColumnType(records, source, i) == ColumnType(records, source, j)
  {
    if records != [] {
      JsonColumnIgnoresIndex(records[..|records| - 1], source, i, j);
    }
  }

  /** The address observed-type slot `i` stands for: an observed field, or a flatten path past them. */
  function SlotSource(t: SchemaTransform, fieldNames: seq<string>, i: nat): SourceAddress
    requires i < |fieldNames| + |t.flatten|
  {
    if i < |fieldNames| then Field(fieldNames[i]) else Path(t.flatten[i - |fieldNames|].segments)
  }

  /** Records a source of this shape can produce: full CSV rows without a flatten mapping, or JSON objects. */
  ghost predicate Shaped(records: seq<SourceRecord>, t: SchemaTransform, fieldNames: seq<string>) {
    && (forall i :: 0 <= i < |t.flatten| ==> t.flatten[i].segments != [])
    && forall i :: 0 <= i < |records| ==>
         records[i].Valid(|fieldNames|) && (records[i].TextRecord? ==> t.flatten == [])
  }

  lemma SlotReadable(records: seq<SourceRecord>, t: SchemaTransform, fieldNames: seq<string>, i: nat)
    requires Shaped(records, t, fieldNames) && i < |fieldNames| + |t.flatten|
    ensures CanReadAll(records, SlotSource(t, fieldNames, i), i)
  {
  }

  /** The observed type of every slot of the source shape. */
  function ObservedTypes(records: seq<SourceRecord>, t: SchemaTransform, fieldNames: seq<string>): (r: seq<InferredType>)
    requires Shaped(records, t, fieldNames)
    ensures |r| == |fieldNames| + |t.flatten|
    ensures forall i :: 0 <= i < |r| ==>
      CanReadAll(records, SlotSource(t, fieldNames, i), i) && r[i] == ColumnType(records, SlotSource(t, fieldNames, i), i)
  {
    seq(|fieldNames| + |t.flatten|, i requires 0 <= i < |fieldNames| + |t.flatten| =>
      SlotReadable(records, t, fieldNames, i); ColumnType(records, SlotSource(t, fieldNames, i), i))
  }

  ghost predicate AllReadable(records: seq<SourceRecord>, checks: seq<FieldCheck>) {
    forall i :: 0 <= i < |records| ==> Readable(records[i], checks)
  }

  /** The records that violate no check, in order. */
  function Survivors(records: seq<SourceRecord>, checks: seq<FieldCheck>): seq<SourceRecord>
    requires AllReadable(records, checks)
  {
    if records == [] then []
    else
      var last := |records| - 1;
      Survivors(records[..last], checks) + (if RecordViolates(records[last], checks) then [] else [records[last]])
  }

  /** Every survivor is one of the records, and passes the checks. */
  lemma {:induction false} SurvivorPasses(records: seq<SourceRecord>, checks: seq<FieldCheck>, i: nat)
    requires AllReadable(records, checks) && i < |Survivors(records, checks)|
    ensures var survivor := Survivors(records, checks)[i];
      survivor in records && Readable(survivor, checks) && !RecordViolates(survivor, checks)
  {
    var last := |records| - 1;
    if i < |Survivors(records[..last], checks)| {
      SurvivorPasses(records[..last], checks, i);
    }
  }

  lemma SurvivorsSnoc(records: seq<SourceRecord>, record: SourceRecord, checks: seq<FieldCheck>)
    requires AllReadable(records + [record], checks)
    ensures AllReadable(records, checks) && Readable(record, checks)
    ensures Survivors(records + [record], checks)
         == Survivors(records, checks) + (if RecordViolates(record, checks) then [] else [record])
  {
    var longer := records + [record];
    assert longer[..|records|] == records;
    assert longer[|records|] == record;
    forall i | 0 <= i < |records| ensures Readable(records[i], checks) {
      assert longer[i] == records[i];
    }
  }

  lemma SurvivorsShaped(records: seq<SourceRecord>, checks: seq<FieldCheck>, t: SchemaTransform, fieldNames: seq<string>)
    requires Shaped(records, t, fieldNames) && AllReadable(records, checks)
    ensures Shaped(Survivors(records, checks), t, fieldNames)
  {
    forall i | 0 <= i < |Survivors(records, checks)| ensures Survivors(records, checks)[i] in records {
      SurvivorPasses(records, checks, i);
    }
  }

  lemma {:induction false} SurvivorsAgree(records: seq<SourceRecord>, checks: seq<FieldCheck>, others: seq<FieldCheck>)
    requires AllReadable(records, checks) && AllReadable(records, others)
    requires forall i :: 0 <= i < |records| ==> (RecordViolates(records[i], checks) <==> RecordViolates(records[i], others))
    ensures Survivors(records, checks) == Survivors(records, others)
  {
    if records != [] {
      SurvivorsAgree(records[..|records| - 1], checks, others);
    }
  }

  /** Each resolved column reads the address its observed-type slot stands for. */
  lemma ColumnReadsItsSlot(t: SchemaTransform, fieldNames: seq<string>, i: nat)
    requires AllKnown(t, fieldNames) && i < ColumnCount(t, fieldNames)
    ensures var column := ColumnAt(t, fieldNames, i);
      column.observedIndex < |fieldNames| + |t.flatten|
      && column.source == SlotSource(t, fieldNames, column.observedIndex)
  {
    if t.select.Some? {
      assert Known(t, fieldNames, t.select.OrElse([])[i]);
    }
  }

  lemma ColumnsReadSlots(t: SchemaTransform, fieldNames: seq<string>, column: DatasetColumn)
    requires AllKnown(t, fieldNames) && column in Columns(t, fieldNames)
    ensures column.observedIndex < |fieldNames| + |t.flatten|
    ensures column.source == SlotSource(t, fieldNames, column.observedIndex)
  {
    var i :| 0 <= i < |Columns(t, fieldNames)| && Columns(t, fieldNames)[i] == column;
    ColumnReadsItsSlot(t, fieldNames, i);
  }

  /** A check or a planned field reads a slot of the shape. */
  predicate ReadsSlot(source: SourceAddress, index: nat, t: SchemaTransform, fieldNames: seq<string>) {
    index < |fieldNames| + |t.flatten| && source == SlotSource(t, fieldNames, index)
  }

  lemma CheckReadsSlot(t: SchemaTransform, fieldNames: seq<string>, mergeKeys: seq<string>, pin: seq<PinnedField>,
    overrides: seq<FieldOverride>, c: FieldCheck)
    requires AllKnown(t, fieldNames)
    requires var columns := Columns(t, fieldNames);
      && AllNamed(columns, mergeKeys) && AllNamed(columns, PinNames(pin))
      && c in MergeKeyChecks(mergeKeys, columns)
           + (PinnedChecks(pin, MatchedFields(pin, columns)) + OverrideChecks(overrides, OutsideColumns(columns, pin)))
    ensures ReadsSlot(c.source, c.observedIndex, t, fieldNames)
  {
    var columns := Columns(t, fieldNames);
    if c in MergeKeyChecks(mergeKeys, columns) {
      var i :| 0 <= i < |mergeKeys| && MergeKeyChecks(mergeKeys, columns)[i] == c;
      ColumnsReadSlots(t, fieldNames, ColumnNamed(columns, mergeKeys[i]));
    } else if c in PinnedChecks(pin, MatchedFields(pin, columns)) {
      var i :| 0 <= i < |pin| && PinnedChecks(pin, MatchedFields(pin, columns))[i] == c;
      ColumnsReadSlots(t, fieldNames, ColumnNamed(columns, PinNames(pin)[i]));
    } else {
      var outside := OutsideColumns(columns, pin);
      OverrideCheckMember(c, overrides, outside);
      var i :| 0 <= i < |outside| && IsOverrideCheck(c, outside[i], overrides);
      assert outside[i] in outside;
      ColumnsReadSlots(t, fieldNames, outside[i]);
    }
  }

  /** Every resolved check reads a slot of the shape. */
  lemma ResolvedChecksReadSlots(directive: Directive, mergeKeys: seq<string>, fieldNames: seq<string>,
    allTypes: seq<InferredType>, survivorTypes: seq<InferredType>)
    requires |allTypes| == |survivorTypes| == ShapeWidth(directive, fieldNames)
    requires ResolvePlan(directive, mergeKeys, fieldNames, allTypes, survivorTypes).Success?
    ensures var checks := ResolvePlan(directive, mergeKeys, fieldNames, allTypes, survivorTypes).value.checks;
      forall i :: 0 <= i < |checks| ==>
        ReadsSlot(checks[i].source, checks[i].observedIndex, directive.transform, fieldNames)
  {
    PlanShape(directive, mergeKeys, fieldNames, allTypes, survivorTypes);
    var checks := ResolvePlan(directive, mergeKeys, fieldNames, allTypes, survivorTypes).value.checks;
    forall i | 0 <= i < |checks|
      ensures ReadsSlot(checks[i].source, checks[i].observedIndex, directive.transform, fieldNames)
    {
      CheckReadsSlot(directive.transform, fieldNames, mergeKeys, PinUsed(directive), directive.overrides, checks[i]);
    }
  }

  lemma ResolvedChecksReadable(records: seq<SourceRecord>, directive: Directive, mergeKeys: seq<string>,
    fieldNames: seq<string>, allTypes: seq<InferredType>, survivorTypes: seq<InferredType>)
    requires Shaped(records, directive.transform, fieldNames)
    requires |allTypes| == |survivorTypes| == ShapeWidth(directive, fieldNames)
    requires ResolvePlan(directive, mergeKeys, fieldNames, allTypes, survivorTypes).Success?
    ensures AllReadable(records, ResolvePlan(directive, mergeKeys, fieldNames, allTypes, survivorTypes).value.checks)
  {
    ResolvedChecksReadSlots(directive, mergeKeys, fieldNames, allTypes, survivorTypes);
    var checks := ResolvePlan(directive, mergeKeys, fieldNames, allTypes, survivorTypes).value.checks;
    forall i, k | 0 <= i < |records| && 0 <= k < |checks|
      ensures CanRead(records[i], checks[k].source, checks[k].observedIndex)
    {
      SlotReadable(records, directive.transform, fieldNames, checks[k].observedIndex);
    }
  }

  /**
   * Resolution succeeds or fails, and with which code and which checks, whatever the observed types are:
   * a probe with placeholder types yields exactly the checks the end of input resolves.
   */
  lemma ResolutionIgnoresTypes(directive: Directive, mergeKeys: seq<string>, fieldNames: seq<string>,
    all1: seq<InferredType>, survivors1: seq<InferredType>, all2: seq<InferredType>, survivors2: seq<InferredType>)
    requires |all1| == |survivors1| == |all2| == |survivors2| == ShapeWidth(directive, fieldNames)
    ensures var r1, r2 := ResolvePlan(directive, mergeKeys, fieldNames, all1, survivors1),
                          ResolvePlan(directive, mergeKeys, fieldNames, all2, survivors2);
      && (r1.Success? <==> r2.Success?)
      && (r1.Success? ==> r1.value.checks == r2.value.checks && (r1.value.pinWrite.Some? <==> r2.value.pinWrite.Some?))
      && (r1.Failure? ==> r1.error.code == r2.error.code && |r1.error.undeclared| == |r2.error.undeclared|)
  {
    if ResolveTransform(directive.transform, fieldNames).Success? {
      ColumnsInRange(directive.transform, fieldNames);
      if directive.Pinned? {
        PinnedIgnoresTypes(directive, Columns(directive.transform, fieldNames), all1, survivors1, all2, survivors2);
      }
    }
  }

  lemma PinnedIgnoresTypes(directive: Directive, columns: seq<DatasetColumn>,
    all1: seq<InferredType>, survivors1: seq<InferredType>, all2: seq<InferredType>, survivors2: seq<InferredType>)
    requires |all1| == |survivors1| == |all2| == |survivors2| && directive.Pinned? && InRange(columns, |all1|)
    ensures var r1, r2 := ResolvePinned(directive, columns, all1, survivors1),
                          ResolvePinned(directive, columns, all2, survivors2);
      && (r1.Success? <==> r2.Success?)
      && (r1.Success? ==> r1.value.checks == r2.value.checks && (r1.value.pinWrite.Some? <==> r2.value.pinWrite.Some?))
      && (r1.Failure? ==> r1.error.code == r2.error.code && |r1.error.undeclared| == |r2.error.undeclared|)
  {
    if AllNamed(columns, PinNames(directive.pin)) {
      UndeclaredIgnoresTypes(MatchedFields(directive.pin, columns), directive.overrides, all1, all2);
    }
  }

  lemma {:induction false} UndeclaredIgnoresTypes(
    matched: seq<PlannedField>, overrides: seq<FieldOverride>, all1: seq<InferredType>, all2: seq<InferredType>)
    requires |all1| == |all2| && forall i :: 0 <= i < |matched| ==> matched[i].observedIndex < |all1|
    ensures |UndeclaredFields(matched, overrides, all1)| == |UndeclaredFields(matched, overrides, all2)|
  {
    if matched != [] {
      UndeclaredIgnoresTypes(matched[1..], overrides, all1, all2);
    }
  }
}
