/**
 * What a resolved plan means, stated on the directive and the dataset columns: when a pinned load resolves,
 * which fields it plans, what it writes to the pin, and which records it rejects.
 */
module PlanMeanings {
  import opened Wrappers
  import opened Failures
  import opened Sequences
  import opened FieldTypes
  import opened Records
  import opened Transforms
  import opened Schemas
  import opened Observations
  import opened Inputs
  import opened Readings
  import opened CellMeanings

  // ----- Columns -----

  /** The transform writes this source name as this dataset name: its rename target, or itself. */
  predicate NamedFrom(t: SchemaTransform, name: string, datasetName: string) {
    (name, datasetName) in t.rename || (name !in Firsts(t.rename) && datasetName == name)
  }

  /** The name is a flatten output, read along its path, or else the first observed field of that name. */
  predicate ReadsName(t: SchemaTransform, observed: seq<string>, name: string, column: DatasetColumn) {
    if name in t.Outputs() then
      && |observed| <= column.observedIndex < |observed| + |t.flatten|
      && t.flatten[column.observedIndex - |observed|].output == name
      && column.source == Path(t.flatten[column.observedIndex - |observed|].segments)
    else
      && column.source == Field(name) && column.observedIndex < |observed|
      && observed[column.observedIndex] == name && name !in observed[..column.observedIndex]
  }

  lemma FinalNameIs(t: SchemaTransform, name: string)
    ensures NamedFrom(t, name, t.DatasetName(name))
  {
    var i := IndexOf(Firsts(t.rename), name);
    if i.Some? {
      assert t.rename[i.value] == (name, t.rename[i.value].1);
    }
  }

  /** With a selection, the columns are the selected names in their own order. */
  lemma SelectedColumnsMean(t: SchemaTransform, observed: seq<string>, i: nat)
    requires AllKnown(t, observed) && t.select.Some? && i < |t.select.value|
    ensures |Columns(t, observed)| == |t.select.value|
    ensures var column := Columns(t, observed)[i];
      NamedFrom(t, t.select.value[i], column.datasetName) && ReadsName(t, observed, t.select.value[i], column)
  {
    var name := t.select.value[i];
    assert Known(t, observed, t.select.OrElse([])[i]);
    FinalNameIs(t, name);
    assert Columns(t, observed)[i] == ColumnAt(t, observed, i) == SelectedColumn(t, observed, name);
  }

  /** Without one, every observed field at its own position, and then the flatten outputs along their paths. */
  lemma UnselectedColumnsMean(t: SchemaTransform, observed: seq<string>, i: nat)
    requires AllKnown(t, observed) && t.select.None? && i < |observed| + |t.flatten|
    ensures |Columns(t, observed)| == |observed| + |t.flatten|
    ensures var column := Columns(t, observed)[i];
      && column.observedIndex == i
      && if i < |observed| then NamedFrom(t, observed[i], column.datasetName) && column.source == Field(observed[i])
         else
           && NamedFrom(t, t.flatten[i - |observed|].output, column.datasetName)
           && column.source == Path(t.flatten[i - |observed|].segments)
  {
    FinalNameIs(t, if i < |observed| then observed[i] else t.flatten[i - |observed|].output);
    assert Columns(t, observed)[i] == ColumnAt(t, observed, i);
  }

  // ----- When a plan resolves -----

  predicate HasColumn(columns: seq<DatasetColumn>, name: string) {
    exists i :: 0 <= i < |columns| && columns[i].datasetName == name
  }

  lemma HasColumnIff(columns: seq<DatasetColumn>, name: string)
    ensures HasColumn(columns, name) <==> name in DatasetNames(columns)
  {
    if HasColumn(columns, name) {
      var i :| 0 <= i < |columns| && columns[i].datasetName == name;
      assert DatasetNames(columns)[i] == name;
    }
  }

  ghost predicate AllColumns(columns: seq<DatasetColumn>, names: seq<string>) {
    forall i :: 0 <= i < |names| ==> HasColumn(columns, names[i])
  }

  lemma AllColumnsIff(columns: seq<DatasetColumn>, names: seq<string>)
    ensures AllColumns(columns, names) <==> AllNamed(columns, names)
  {
    forall i | 0 <= i < |names| ensures HasColumn(columns, names[i]) <==> names[i] in DatasetNames(columns) {
      HasColumnIff(columns, names[i]);
    }
  }

  /** The override agrees with the pinned field wherever both speak of a property. */
  predicate Agrees(o: FieldOverride, p: PinnedField) {
    o.name == p.name ==>
      (o.fieldType.Some? ==> o.fieldType.value == p.fieldType) && (o.nullable.Some? ==> o.nullable.value == p.nullable)
  }

  ghost predicate OverridesAgree(overrides: seq<FieldOverride>, pin: seq<PinnedField>) {
    forall i, f :: 0 <= i < |overrides| && 0 <= f < |pin| ==> Agrees(overrides[i], pin[f])
  }

  /** A pinned type that no value shows by itself needs an override that declares it. */
  ghost predicate Redeclared(overrides: seq<FieldOverride>, p: PinnedField) {
    p.fieldType.Timestamp? || p.fieldType.Timestamptz? || p.fieldType.Decimal? ==>
      exists i :: 0 <= i < |overrides| && overrides[i].name == p.name && overrides[i].fieldType.Some?
  }

  ghost predicate AllRedeclared(overrides: seq<FieldOverride>, pin: seq<PinnedField>) {
    forall f :: 0 <= f < |pin| ==> Redeclared(overrides, pin[f])
  }

  predicate InPin(pin: seq<PinnedField>, name: string) {
    exists f :: 0 <= f < |pin| && pin[f].name == name
  }

  lemma InPinIff(pin: seq<PinnedField>, name: string)
    ensures InPin(pin, name) <==> name in PinNames(pin)
  {
    if InPin(pin, name) {
      var f :| 0 <= f < |pin| && pin[f].name == name;
      assert PinNames(pin)[f] == name;
    }
  }

  ghost predicate NothingOutside(columns: seq<DatasetColumn>, pin: seq<PinnedField>) {
    forall i :: 0 <= i < |columns| ==> InPin(pin, columns[i].datasetName)
  }

  /** The shape matches the pin: each name once, every pinned name there, and nothing else unless the policy allows it. */
  ghost predicate ShapeMatches(columns: seq<DatasetColumn>, pin: seq<PinnedField>, policy: DriftPolicy) {
    && Distinct(DatasetNames(columns)) && AllColumns(columns, PinNames(pin))
    && (policy == AllowAdditiveNullable || NothingOutside(columns, pin))
  }

  lemma OverrideConflictsIff(overrides: seq<FieldOverride>, pin: seq<PinnedField>)
    requires Distinct(PinNames(pin))
    ensures OverrideConflicts(overrides, pin) <==> !OverridesAgree(overrides, pin)
  {
    forall i, f | 0 <= i < |overrides| && 0 <= f < |pin| && overrides[i].name == pin[f].name
      ensures IndexOf(PinNames(pin), overrides[i].name) == Some(f)
    {
      IndexOfDistinct(PinNames(pin), f);
    }
    if OverrideConflicts(overrides, pin) {
      var i :| 0 <= i < |overrides| && Contradicts(overrides[i], pin);
      var f :| 0 <= f < |pin| && IndexOf(PinNames(pin), overrides[i].name) == Some(f)
        && ((overrides[i].fieldType.Some? && overrides[i].fieldType.value != pin[f].fieldType)
            || (overrides[i].nullable.Some? && overrides[i].nullable.value != pin[f].nullable));
      assert !Agrees(overrides[i], pin[f]);
    }
    if !OverridesAgree(overrides, pin) {
      var i, f :| 0 <= i < |overrides| && 0 <= f < |pin| && !Agrees(overrides[i], pin[f]);
      assert Contradicts(overrides[i], pin);
    }
  }

  lemma UndeclaredIff(p: PinnedField, field: PlannedField, overrides: seq<FieldOverride>)
    requires Distinct(OverrideNames(overrides)) && field.name == p.name && field.materializedType == p.fieldType
    ensures IsUndeclared(field, overrides) <==> !Redeclared(overrides, p)
  {
    if i :| 0 <= i < |overrides| && overrides[i].name == p.name {
      GetOverrideAt(overrides, i);
      assert forall j :: 0 <= j < |overrides| && overrides[j].name == p.name ==>
        OverrideNames(overrides)[j] == OverrideNames(overrides)[i] && j == i;
    }
  }

  lemma NothingAddedIff(columns: seq<DatasetColumn>, pin: seq<PinnedField>)
    ensures AddedColumns(columns, PinNames(pin)) == [] <==> NothingOutside(columns, pin)
  {
    var added := AddedColumns(columns, PinNames(pin));
    forall i | 0 <= i < |columns| ensures columns[i] in added <==> !InPin(pin, columns[i].datasetName) {
      InPinIff(pin, columns[i].datasetName);
    }
    if added != [] {
      assert added[0] in added;
      var i :| 0 <= i < |columns| && columns[i] == added[0];
    }
  }

  lemma AllRedeclaredIff(overrides: seq<FieldOverride>, pin: seq<PinnedField>, columns: seq<DatasetColumn>,
    all: seq<InferredType>)
    requires Distinct(OverrideNames(overrides)) && AllNamed(columns, PinNames(pin)) && InRange(columns, |all|)
    ensures forall f :: 0 <= f < |pin| ==> MatchedFields(pin, columns)[f].observedIndex < |all|
    ensures UndeclaredFields(MatchedFields(pin, columns), overrides, all) == [] <==> AllRedeclared(overrides, pin)
  {
    var matched := MatchedFields(pin, columns);
    forall f | 0 <= f < |pin| ensures IsUndeclared(matched[f], overrides) <==> !Redeclared(overrides, pin[f]) {
      UndeclaredIff(pin[f], matched[f], overrides);
    }
  }

  /** A pinned load over these columns resolves exactly when the pin allows them. */
  lemma PinnedResolvesIff(directive: Directive, columns: seq<DatasetColumn>, all: seq<InferredType>, types: seq<InferredType>)
    requires directive.Valid() && directive.Pinned? && InRange(columns, |all|) && |types| == |all|
    ensures ResolvePinned(directive, columns, all, types).Success? <==>
      && OverridesAgree(directive.overrides, directive.pin) && ShapeMatches(columns, directive.pin, directive.policy)
      && AllRedeclared(directive.overrides, directive.pin)
  {
    OverrideConflictsIff(directive.overrides, directive.pin);
    AllColumnsIff(columns, PinNames(directive.pin));
    NothingAddedIff(columns, directive.pin);
    if AllNamed(columns, PinNames(directive.pin)) {
      AllRedeclaredIff(directive.overrides, directive.pin, columns, all);
    }
  }

  /** An override at odds with the pin is refused as a conflict, anything else as drift. */
  lemma PinnedRefusal(directive: Directive, columns: seq<DatasetColumn>, all: seq<InferredType>, types: seq<InferredType>)
    requires directive.Valid() && directive.Pinned? && InRange(columns, |all|) && |types| == |all|
    requires ResolvePinned(directive, columns, all, types).Failure?
    ensures ResolvePinned(directive, columns, all, types).error.code
         == if OverridesAgree(directive.overrides, directive.pin) then SchemaDrift else SchemaOverrideConflict
  {
    OverrideConflictsIff(directive.overrides, directive.pin);
  }

  /** The entry names a pinned field that lacks its override, with its pinned type and the one its column shows. */
  ghost predicate ReportsUndeclared(entry: Undeclared, p: PinnedField, columns: seq<DatasetColumn>,
    overrides: seq<FieldOverride>, all: seq<InferredType>)
    requires InRange(columns, |all|)
  {
    && entry.name == p.name && entry.pinnedType == p.fieldType && !Redeclared(overrides, p)
    && exists i :: 0 <= i < |columns| && columns[i].datasetName == p.name
         && MaterializesAs(all[columns[i].observedIndex], entry.effectiveType)
  }

  lemma {:induction false} UndeclaredMeans(matched: seq<PlannedField>, overrides: seq<FieldOverride>, all: seq<InferredType>,
    entry: Undeclared)
    requires forall i :: 0 <= i < |matched| ==> matched[i].observedIndex < |all|
    ensures entry in UndeclaredFields(matched, overrides, all) <==>
      exists i :: 0 <= i < |matched| && IsUndeclared(matched[i], overrides)
        && entry == Undeclared(matched[i].name, matched[i].materializedType, all[matched[i].observedIndex].FieldType())
  {
    if matched != [] {
      UndeclaredMeans(matched[1..], overrides, all, entry);
      assert forall i :: 1 <= i < |matched| ==> matched[i] == matched[1..][i - 1];
    }
  }

  lemma UndeclaredEntryReports(pin: seq<PinnedField>, columns: seq<DatasetColumn>, overrides: seq<FieldOverride>,
    all: seq<InferredType>, f: nat)
    requires AllNamed(columns, PinNames(pin)) && InRange(columns, |all|) && Distinct(OverrideNames(overrides))
    requires f < |pin| && IsUndeclared(MatchedFields(pin, columns)[f], overrides)
    requires MatchedFields(pin, columns)[f].observedIndex < |all|
    ensures var field := MatchedFields(pin, columns)[f];
      ReportsUndeclared(Undeclared(field.name, field.materializedType, all[field.observedIndex].FieldType()),
        pin[f], columns, overrides, all)
  {
    UndeclaredIff(pin[f], MatchedFields(pin, columns)[f], overrides);
    var column := ColumnNamed(columns, PinNames(pin)[f]);
    var i :| 0 <= i < |columns| && columns[i] == column;
  }

  lemma UndeclaredListed(pin: seq<PinnedField>, columns: seq<DatasetColumn>, overrides: seq<FieldOverride>,
    all: seq<InferredType>, entry: Undeclared) returns (f: nat)
    requires AllNamed(columns, PinNames(pin)) && InRange(columns, |all|) && Distinct(OverrideNames(overrides))
    requires forall i :: 0 <= i < |pin| ==> MatchedFields(pin, columns)[i].observedIndex < |all|
    requires entry in UndeclaredFields(MatchedFields(pin, columns), overrides, all)
    ensures f < |pin| && ReportsUndeclared(entry, pin[f], columns, overrides, all)
  {
    var matched := MatchedFields(pin, columns);
    UndeclaredMeans(matched, overrides, all, entry);
    f :| 0 <= f < |matched| && IsUndeclared(matched[f], overrides)
      && entry == Undeclared(matched[f].name, matched[f].materializedType, all[matched[f].observedIndex].FieldType());
    UndeclaredEntryReports(pin, columns, overrides, all, f);
  }

  /** A drift failure over missing re-declarations lists the pinned fields concerned, each with both its types. */
  lemma UndeclaredReported(directive: Directive, columns: seq<DatasetColumn>, all: seq<InferredType>,
    types: seq<InferredType>, entry: Undeclared) returns (f: nat)
    requires directive.Valid() && directive.Pinned? && InRange(columns, |all|) && |types| == |all|
    requires ResolvePinned(directive, columns, all, types).Failure?
    requires entry in ResolvePinned(directive, columns, all, types).error.undeclared
    ensures f < |directive.pin| && ReportsUndeclared(entry, directive.pin[f], columns, directive.overrides, all)
  {
    f := UndeclaredListed(directive.pin, columns, directive.overrides, all, entry);
  }

  /** What a pinned directive asks of the dataset columns. */
  ghost predicate PinHolds(directive: Directive, columns: seq<DatasetColumn>) {
    directive.Pinned? ==>
      && OverridesAgree(directive.overrides, directive.pin) && ShapeMatches(columns, directive.pin, directive.policy)
      && AllRedeclared(directive.overrides, directive.pin)
  }

  /**
   * A plan resolves exactly when the transform does, every override and merge key names a column, and the
   * columns are what the pin and its policy allow. Otherwise the first of these that fails gives the code.
   */
  lemma PlanResolvesIff(directive: Directive, mergeKeys: seq<string>, fieldNames: seq<string>,
    all: seq<InferredType>, types: seq<InferredType>)
    requires directive.Valid() && |all| == |types| == ShapeWidth(directive, fieldNames)
    ensures var transform := ResolveTransform(directive.transform, fieldNames);
      var r := ResolvePlan(directive, mergeKeys, fieldNames, all, types);
      if transform.Failure? then r.Failure? && r.error.code == transform.error
      else
        var columns := transform.value;
        && (r.Success? <==>
              && AllColumns(columns, OverrideNames(directive.overrides)) && AllColumns(columns, mergeKeys)
              && PinHolds(directive, columns))
        && (r.Failure? ==>
              r.error.code ==
                if !AllColumns(columns, OverrideNames(directive.overrides)) then UnknownOverrideField
                else if !AllColumns(columns, mergeKeys) then UnknownMergeKeyField
                else if !OverridesAgree(directive.overrides, directive.pin) then SchemaOverrideConflict
                else SchemaDrift)
  {
    var transform := ResolveTransform(directive.transform, fieldNames);
    if transform.Success? {
      var columns := transform.value;
      ColumnsInRange(directive.transform, fieldNames);
      AllColumnsIff(columns, OverrideNames(directive.overrides));
      AllColumnsIff(columns, mergeKeys);
      assert OverridesKnown(directive.overrides, DatasetNames(columns)) <==>
        AllNamed(columns, OverrideNames(directive.overrides));
      if directive.Pinned? {
        PinnedResolvesIff(directive, columns, all, types);
        if ResolvePinned(directive, columns, all, types).Failure? {
          PinnedRefusal(directive, columns, all, types);
        }
      }
    }
  }

  // ----- What a plan holds -----

  /** Positions in their order, of exactly the columns the pin does not name. */
  ghost predicate OutsideAt(columns: seq<DatasetColumn>, pin: seq<PinnedField>, positions: seq<nat>) {
    && (forall k :: 0 <= k < |positions| ==> positions[k] < |columns|)
    && (forall j, k :: 0 <= j < k < |positions| ==> positions[j] < positions[k])
    && forall i: nat :: i < |columns| ==> (i in positions <==> !InPin(pin, columns[i].datasetName))
  }

  function Moved(positions: seq<nat>): (r: seq<nat>)
    ensures |r| == |positions| && forall k :: 0 <= k < |r| ==> r[k] == positions[k] + 1
  {
    seq(|positions|, k requires 0 <= k < |positions| => positions[k] + 1)
  }

  lemma MovedHas(positions: seq<nat>, i: nat)
    requires i > 0
    ensures i in Moved(positions) <==> i - 1 in positions
  {
    if i - 1 in positions {
      var k :| 0 <= k < |positions| && positions[k] == i - 1;
      assert Moved(positions)[k] == i;
    }
  }

  /** The positions of one more column in front. */
  lemma OutsideCons(columns: seq<DatasetColumn>, pin: seq<PinnedField>, rest: seq<nat>)
    requires columns != [] && OutsideAt(columns[1..], pin, rest)
    ensures OutsideAt(columns, pin, (if InPin(pin, columns[0].datasetName) then [] else [0]) + Moved(rest))
  {
    var first := if InPin(pin, columns[0].datasetName) then [] else [0];
    var positions := first + Moved(rest);
    forall i: nat | i < |columns| ensures i in positions <==> !InPin(pin, columns[i].datasetName) {
      if i > 0 {
        MovedHas(rest, i);
        assert columns[i] == columns[1..][i - 1];
      }
    }
  }

  /** Positions that hold these columns. */
  ghost predicate Located(columns: seq<DatasetColumn>, positions: seq<nat>, found: seq<DatasetColumn>) {
    |positions| == |found| && forall k :: 0 <= k < |positions| ==> positions[k] < |columns| && columns[positions[k]] == found[k]
  }

  lemma LocatedCons(columns: seq<DatasetColumn>, rest: seq<nat>, found: seq<DatasetColumn>)
    requires columns != [] && Located(columns[1..], rest, found)
    ensures Located(columns, Moved(rest), found) && Located(columns, [0] + Moved(rest), [columns[0]] + found)
  {
    forall k | 0 <= k < |rest| ensures columns[Moved(rest)[k]] == found[k] {
      assert columns[Moved(rest)[k]] == columns[1..][rest[k]];
    }
  }

  lemma {:induction false} OutsideFound(columns: seq<DatasetColumn>, pin: seq<PinnedField>) returns (positions: seq<nat>)
    ensures OutsideAt(columns, pin, positions) && Located(columns, positions, OutsideColumns(columns, pin))
    decreases |columns|
  {
    if columns == [] {
      positions := [];
    } else {
      var rest := OutsideFound(columns[1..], pin);
      LocatedCons(columns, rest, OutsideColumns(columns[1..], pin));
      OutsideCons(columns, pin, rest);
      InPinIff(pin, columns[0].datasetName);
      if InPin(pin, columns[0].datasetName) {
        positions := Moved(rest);
        assert [] + Moved(rest) == positions;
        assert OutsideColumns(columns, pin) == OutsideColumns(columns[1..], pin);
      } else {
        positions := [0] + Moved(rest);
      }
    }
  }

  lemma OutsideEmptyIff(columns: seq<DatasetColumn>, pin: seq<PinnedField>, positions: seq<nat>)
    requires OutsideAt(columns, pin, positions)
    ensures positions == [] <==> NothingOutside(columns, pin)
  {
    if positions != [] {
      assert positions[0] in positions;
    }
  }

  /** The field reads this column under its name. */
  predicate ReadsColumn(field: PlannedField, column: DatasetColumn) {
    field.name == column.datasetName && field.source == column.source && field.observedIndex == column.observedIndex
  }

  /** The field carries the pinned field's name, type and nullability, and reads the column of that name. */
  ghost predicate PlansPinned(field: PlannedField, p: PinnedField, columns: seq<DatasetColumn>) {
    && field.name == p.name && field.materializedType == p.fieldType && field.nullable == p.nullable
    && exists i :: 0 <= i < |columns| && ReadsColumn(field, columns[i])
  }

  /** What an observed type materializes as: the field type it is observed from, or text when nothing was. */
  predicate MaterializesAs(observed: InferredType, t: FieldType) {
    t.LatticeType() == Some(if observed.NullType? then Utf8Type else observed)
  }

  /** The field reads the column; its override decides what it sets, and the observations the rest. */
  ghost predicate PlansObserved(field: PlannedField, column: DatasetColumn, overrides: seq<FieldOverride>,
    observed: InferredType)
  {
    && ReadsColumn(field, column)
    && (forall i :: 0 <= i < |overrides| && overrides[i].name == field.name ==>
          && (overrides[i].fieldType.Some? ==> field.materializedType == overrides[i].fieldType.value)
          && (overrides[i].nullable.Some? ==> field.nullable == overrides[i].nullable.value))
    && ((forall i :: 0 <= i < |overrides| && overrides[i].name == field.name ==> overrides[i].fieldType.None?) ==>
          MaterializesAs(observed, field.materializedType))
    && ((forall i :: 0 <= i < |overrides| && overrides[i].name == field.name ==> overrides[i].nullable.None?) ==>
          field.nullable)
  }

  lemma InferredFieldMeans(column: DatasetColumn, types: seq<InferredType>, overrides: seq<FieldOverride>)
    requires column.observedIndex < |types| && Distinct(OverrideNames(overrides))
    ensures PlansObserved(InferredField(column, types, overrides), column, overrides, types[column.observedIndex])
  {
    var o := GetOverride(overrides, column.datasetName);
    forall i | 0 <= i < |overrides| && overrides[i].name == column.datasetName ensures o == Some(overrides[i]) {
      GetOverrideAt(overrides, i);
    }
    if o.Some? {
      var i :| 0 <= i < |overrides| && overrides[i] == o.value;
    }
  }

  /** The pin written lists the fields with their types and nullabilities. */
  predicate Lists(pin: seq<PinnedField>, fields: seq<PlannedField>) {
    && |pin| == |fields|
    && forall f :: 0 <= f < |pin| ==>
         pin[f].name == fields[f].name && pin[f].fieldType == fields[f].materializedType && pin[f].nullable == fields[f].nullable
  }

  /** The fields after the pinned ones plan the columns outside the pin, in their order. */
  ghost predicate PlansOutside(fields: seq<PlannedField>, first: nat, columns: seq<DatasetColumn>, positions: seq<nat>,
    overrides: seq<FieldOverride>, types: seq<InferredType>)
    requires InRange(columns, |types|)
  {
    && |fields| == first + |positions|
    && forall k :: 0 <= k < |positions| ==>
         && positions[k] < |columns|
         && PlansObserved(fields[first + k], columns[positions[k]], overrides, types[columns[positions[k]].observedIndex])
  }

  /** The pinned fields in pin order, then the columns at these positions. */
  ghost predicate FieldsPlanned(fields: seq<PlannedField>, pin: seq<PinnedField>, columns: seq<DatasetColumn>,
    positions: seq<nat>, overrides: seq<FieldOverride>, types: seq<InferredType>)
    requires InRange(columns, |types|)
  {
    && |fields| == |pin| + |positions|
    && (forall f :: 0 <= f < |pin| ==> PlansPinned(fields[f], pin[f], columns))
    && PlansOutside(fields, |pin|, columns, positions, overrides, types)
  }

  /**
   * A plan's fields: the pinned ones in pin order as the pin has them, then the columns outside the pin in
   * their own order, as their overrides or observations say. A pin is written when there was none, or a column lies outside it.
   */
  lemma PlanFieldsMean(directive: Directive, mergeKeys: seq<string>, fieldNames: seq<string>,
    all: seq<InferredType>, types: seq<InferredType>) returns (positions: seq<nat>)
    requires directive.Valid() && |all| == |types| == ShapeWidth(directive, fieldNames)
    requires ResolvePlan(directive, mergeKeys, fieldNames, all, types).Success?
    ensures ResolveTransform(directive.transform, fieldNames).Success?
    ensures InRange(ResolveTransform(directive.transform, fieldNames).value, |types|)
    ensures var columns, pin := ResolveTransform(directive.transform, fieldNames).value, PinUsed(directive);
      var plan := ResolvePlan(directive, mergeKeys, fieldNames, all, types).value;
      && OutsideAt(columns, pin, positions)
      && FieldsPlanned(plan.fields, pin, columns, positions, directive.overrides, types)
      && (plan.pinWrite.Some? <==> directive.PinInferred? || (directive.Pinned? && positions != []))
      && (plan.pinWrite.Some? ==> Lists(plan.pinWrite.value, plan.fields))
  {
    PlanShape(directive, mergeKeys, fieldNames, all, types);
    var t, pin, overrides := directive.transform, PinUsed(directive), directive.overrides;
    ColumnsInRange(t, fieldNames);
    positions := OutsideFound(Columns(t, fieldNames), pin);
    FieldsOverMean(t, fieldNames, pin, overrides, types, positions);
    OutsideEmptyIff(Columns(t, fieldNames), pin, positions);
    PinWriteMeans(directive, mergeKeys, fieldNames, all, types);
  }

  lemma PinWriteMeans(directive: Directive, mergeKeys: seq<string>, fieldNames: seq<string>,
    all: seq<InferredType>, types: seq<InferredType>)
    requires directive.Valid() && |all| == |types| == ShapeWidth(directive, fieldNames)
    requires ResolvePlan(directive, mergeKeys, fieldNames, all, types).Success?
    ensures ResolveTransform(directive.transform, fieldNames).Success?
    ensures var columns := ResolveTransform(directive.transform, fieldNames).value;
      var plan := ResolvePlan(directive, mergeKeys, fieldNames, all, types).value;
      && (plan.pinWrite.Some? <==>
            directive.PinInferred? || (directive.Pinned? && !NothingOutside(columns, directive.pin)))
      && (plan.pinWrite.Some? ==> Lists(plan.pinWrite.value, plan.fields))
  {
    ColumnsInRange(directive.transform, fieldNames);
    if directive.Pinned? {
      NothingAddedIff(Columns(directive.transform, fieldNames), directive.pin);
    }
  }

  lemma FieldsOverMean(t: SchemaTransform, fieldNames: seq<string>, pin: seq<PinnedField>, overrides: seq<FieldOverride>,
    types: seq<InferredType>, positions: seq<nat>)
    requires AllKnown(t, fieldNames) && AllNamed(Columns(t, fieldNames), PinNames(pin)) && Distinct(OverrideNames(overrides))
    requires InRange(Columns(t, fieldNames), |types|) && InRange(OutsideColumns(Columns(t, fieldNames), pin), |types|)
    requires Located(Columns(t, fieldNames), positions, OutsideColumns(Columns(t, fieldNames), pin))
    ensures FieldsPlanned(FieldsOver(t, fieldNames, pin, overrides, types), pin, Columns(t, fieldNames), positions,
                          overrides, types)
  {
    var columns, fields := Columns(t, fieldNames), FieldsOver(t, fieldNames, pin, overrides, types);
    forall f | 0 <= f < |pin| ensures PlansPinned(fields[f], pin[f], columns) {
      FieldOverAt(t, fieldNames, pin, overrides, types, f);
      MatchedFieldMeans(pin, columns, f);
    }
    forall k | 0 <= k < |positions|
      ensures PlansObserved(fields[|pin| + k], columns[positions[k]], overrides, types[columns[positions[k]].observedIndex])
    {
      FieldOverAt(t, fieldNames, pin, overrides, types, |pin| + k);
      InferredFieldMeans(columns[positions[k]], types, overrides);
    }
  }

  lemma MatchedFieldMeans(pin: seq<PinnedField>, columns: seq<DatasetColumn>, f: nat)
    requires AllNamed(columns, PinNames(pin)) && f < |pin|
    ensures PlansPinned(MatchedFields(pin, columns)[f], pin[f], columns)
  {
    var column := ColumnNamed(columns, PinNames(pin)[f]);
    var i :| 0 <= i < |columns| && columns[i] == column;
    assert ReadsColumn(MatchedFields(pin, columns)[f], columns[i]);
  }

  /** Under the failing policy, a pinned load's fields are the pin's, in its order, over columns it names; no pin is written. */
  lemma FailOnDriftKeepsPin(directive: Directive, mergeKeys: seq<string>, fieldNames: seq<string>,
    all: seq<InferredType>, types: seq<InferredType>)
    requires directive.Valid() && directive.Pinned? && directive.policy == FailOnDrift
    requires |all| == |types| == ShapeWidth(directive, fieldNames)
    requires ResolvePlan(directive, mergeKeys, fieldNames, all, types).Success?
    ensures ResolveTransform(directive.transform, fieldNames).Success?
    ensures NothingOutside(ResolveTransform(directive.transform, fieldNames).value, directive.pin)
    ensures var plan := ResolvePlan(directive, mergeKeys, fieldNames, all, types).value;
      && plan.pinWrite.None? && |plan.fields| == |directive.pin|
      && forall f :: 0 <= f < |directive.pin| ==> plan.fields[f].name == PinNames(directive.pin)[f]
  {
    PlanResolvesIff(directive, mergeKeys, fieldNames, all, types);
    var positions := PlanFieldsMean(directive, mergeKeys, fieldNames, all, types);
    OutsideEmptyIff(Columns(directive.transform, fieldNames), directive.pin, positions);
  }
  // ----- Flatten outputs -----

  /** Without a pin and without a selection, each flatten output has its field, after the observed ones, read along its path. */
  lemma FlattenFieldPlanned(directive: Directive, mergeKeys: seq<string>, fieldNames: seq<string>,
    all: seq<InferredType>, types: seq<InferredType>, p: nat)
    requires directive.Valid() && !directive.Pinned? && directive.transform.select.None?
    requires |all| == |types| == ShapeWidth(directive, fieldNames) && p < |directive.transform.flatten|
    requires ResolvePlan(directive, mergeKeys, fieldNames, all, types).Success?
    ensures var fields := ResolvePlan(directive, mergeKeys, fieldNames, all, types).value.fields;
      var entry := directive.transform.flatten[p];
      && |fields| == |fieldNames| + |directive.transform.flatten|
      && NamedFrom(directive.transform, entry.output, fields[|fieldNames| + p].name)
      && fields[|fieldNames| + p].source == Path(entry.segments)
  {
    FlattenColumnMeans(directive.transform, fieldNames, p);
    UnpinnedFields(directive, mergeKeys, fieldNames, all, types);
    var fields := ResolvePlan(directive, mergeKeys, fieldNames, all, types).value.fields;
    assert ReadsColumn(fields[|fieldNames| + p], Columns(directive.transform, fieldNames)[|fieldNames| + p]);
  }

  lemma FlattenColumnMeans(t: SchemaTransform, observed: seq<string>, p: nat)
    requires AllKnown(t, observed) && t.select.None? && p < |t.flatten|
    ensures |Columns(t, observed)| == |observed| + |t.flatten|
    ensures var column := Columns(t, observed)[|observed| + p];
      NamedFrom(t, t.flatten[p].output, column.datasetName) && column.source == Path(t.flatten[p].segments)
  {
    UnselectedColumnsMean(t, observed, |observed| + p);
  }

  /** Without a pin, the fields read the columns one by one. */
  lemma UnpinnedFields(directive: Directive, mergeKeys: seq<string>, fieldNames: seq<string>,
    all: seq<InferredType>, types: seq<InferredType>)
    requires !directive.Pinned? && |all| == |types| == ShapeWidth(directive, fieldNames)
    requires ResolvePlan(directive, mergeKeys, fieldNames, all, types).Success?
    ensures AllKnown(directive.transform, fieldNames)
    ensures var columns := Columns(directive.transform, fieldNames);
      var fields := ResolvePlan(directive, mergeKeys, fieldNames, all, types).value.fields;
      |fields| == |columns| && forall i :: 0 <= i < |columns| ==> ReadsColumn(fields[i], columns[i])
  {
    PlanShape(directive, mergeKeys, fieldNames, all, types);
    InferredShape(directive.transform, fieldNames, types, directive.overrides, mergeKeys);
  }

  /** The whole input's decision, as a plan over its observed types. */
  lemma FailOnDriftKeepsInputPin(input: Input)
    requires input.Readable() && input.Resolution().Success?
    requires input.directive.Pinned? && input.directive.policy == FailOnDrift
    ensures var plan, pin := input.Resolution().value, input.directive.pin;
      plan.pinWrite.None? && |plan.fields| == |pin| && forall f :: 0 <= f < |pin| ==> plan.fields[f].name == pin[f].name
  {
    SurvivorsAreShaped(input);
    var survivors := if input.Checks().Some? then input.Survivors() else [];
    FailOnDriftKeepsPin(input.directive, input.mergeKeys, input.fieldNames,
      ObservedTypes(input.records, input.directive.transform, input.fieldNames),
      ObservedTypes(survivors, input.directive.transform, input.fieldNames));
  }
}
