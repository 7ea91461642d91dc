/**
 * The schema decision of a load: overrides, pins, per-record checks, and the plan resolved from a
 * directive and the observed source shape.
 */
module Schemas {
  import opened Wrappers
  import opened Failures
  import opened Sequences
  import opened FieldTypes
  import opened Records
  import opened Transforms

  // ----- Overrides -----

  /** One override entry as written. */
  datatype OverrideEntry = OverrideEntry(name: string, typeName: Option<string>, nullable: Option<bool>)

  datatype FieldOverride = FieldOverride(name: string, fieldType: Option<FieldType>, nullable: Option<bool>) {
    ghost predicate Valid() {
      (fieldType.Some? || nullable.Some?) && (fieldType.Some? ==> fieldType.value.Valid())
    }
  }

  function OverrideNames(overrides: seq<FieldOverride>): (r: seq<string>)
    ensures |r| == |overrides| && forall i :: 0 <= i < |r| ==> r[i] == overrides[i].name
  {
    seq(|overrides|, i requires 0 <= i < |overrides| => overrides[i].name)
  }

  ghost predicate ValidOverrides(overrides: seq<FieldOverride>) {
    Distinct(OverrideNames(overrides)) && forall i :: 0 <= i < |overrides| ==> overrides[i].Valid()
  }

  function GetOverride(overrides: seq<FieldOverride>, name: string): (r: Option<FieldOverride>)
    ensures r.Some? <==> name in OverrideNames(overrides)
    ensures r.Some? ==> r.value in overrides && r.value.name == name
  {
    match IndexOf(OverrideNames(overrides), name)
    case None => None
    case Some(i) => Some(overrides[i])
  }

  lemma GetOverrideAt(overrides: seq<FieldOverride>, i: nat)
    requires i < |overrides| && Distinct(OverrideNames(overrides))
    ensures GetOverride(overrides, overrides[i].name) == Some(overrides[i])
  {
    IndexOfDistinct(OverrideNames(overrides), i);
  }

  /** What entry `i` earns: the first rule it breaks, given the entries before it, or its override. */
  function AcceptEntry(entries: seq<OverrideEntry>, i: nat): Result<FieldOverride, Code>
    requires i < |entries|
  {
    var entry := entries[i];
    if exists k :: 0 <= k < i && entries[k].name == entry.name then Failure(InvalidSchemaConfig)
    else if entry.typeName.None? && entry.nullable.None? then Failure(InvalidSchemaConfig)
    else match entry.typeName
      case None => Success(FieldOverride(entry.name, None, entry.nullable))
      case Some(typeName) =>
        match ParseTypeName(typeName)
        case None => Failure(UnsupportedOverrideType)
        case Some(t) => Success(FieldOverride(entry.name, Some(t), entry.nullable))
  }

  lemma AcceptedEntryIsValid(entries: seq<OverrideEntry>, i: nat)
    requires i < |entries| && AcceptEntry(entries, i).Success?
    ensures AcceptEntry(entries, i).value.Valid() && AcceptEntry(entries, i).value.name == entries[i].name
  {
    if entries[i].typeName.Some? {
      ParsedNamePrints(entries[i].typeName.value);
    }
  }

  /** Entry `i` is the first to break a rule, and breaks it with this code. */
  predicate FirstRefused(entries: seq<OverrideEntry>, i: nat, code: Code)
    requires i < |entries|
  {
    AcceptEntry(entries, i) == Failure(code) && forall k :: 0 <= k < i ==> AcceptEntry(entries, k).Success?
  }

  /** Validates the overrides in declaration order; the first entry that breaks a rule decides the code. */
  method OverridesFromEntries(entries: seq<OverrideEntry>) returns (r: Result<seq<FieldOverride>, Code>)
    ensures r.Success? ==> ValidOverrides(r.value) && |r.value| == |entries|
    ensures r.Success? ==> forall i :: 0 <= i < |entries| ==> AcceptEntry(entries, i) == Success(r.value[i])
    ensures r.Failure? ==> exists i :: 0 <= i < |entries| && FirstRefused(entries, i, r.error)
  {
    var seen: set<string> := {};
    var overrides: seq<FieldOverride> := [];
    for i := 0 to |entries|
      invariant seen == set k | 0 <= k < i :: entries[k].name
      invariant |overrides| == i
      invariant forall k :: 0 <= k < i ==> AcceptEntry(entries, k) == Success(overrides[k])
    {
      var entry := entries[i];
      if entry.name in seen || (entry.typeName.None? && entry.nullable.None?) {
        assert FirstRefused(entries, i, InvalidSchemaConfig);
        return Failure(InvalidSchemaConfig);
      }
      seen := seen + {entry.name};
      var fieldType := if entry.typeName.None? then None else ParseTypeName(entry.typeName.value);
      if entry.typeName.Some? && fieldType.None? {
        assert FirstRefused(entries, i, UnsupportedOverrideType);
        return Failure(UnsupportedOverrideType);
      }
      overrides := overrides + [FieldOverride(entry.name, fieldType, entry.nullable)];
    }
    AcceptedOverridesAreValid(entries, overrides);
    return Success(overrides);
  }

  lemma AcceptedOverridesAreValid(entries: seq<OverrideEntry>, overrides: seq<FieldOverride>)
    requires |overrides| == |entries|
    requires forall i :: 0 <= i < |entries| ==> AcceptEntry(entries, i) == Success(overrides[i])
    ensures ValidOverrides(overrides)
  {
    forall i | 0 <= i < |entries| ensures overrides[i].Valid() && overrides[i].name == entries[i].name {
      AcceptedEntryIsValid(entries, i);
    }
  }

  // ----- Directives -----

  datatype PinnedField = PinnedField(name: string, fieldType: FieldType, nullable: bool)

  function PinNames(pin: seq<PinnedField>): (r: seq<string>)
    ensures |r| == |pin| && forall i :: 0 <= i < |r| ==> r[i] == pin[i].name
  {
    seq(|pin|, i requires 0 <= i < |pin| => pin[i].name)
  }

  ghost predicate ValidPin(pin: seq<PinnedField>) {
    pin != [] && Distinct(PinNames(pin)) && forall i :: 0 <= i < |pin| ==> pin[i].fieldType.Valid()
  }

  datatype DriftPolicy = FailOnDrift | AllowAdditiveNullable

  /** How a load decides its schema: infer it, infer and pin it, or validate against an existing pin. */
  datatype Directive =
    | Inferred(transform: SchemaTransform, overrides: seq<FieldOverride>)
    | PinInferred(transform: SchemaTransform, overrides: seq<FieldOverride>)
    | Pinned(transform: SchemaTransform, overrides: seq<FieldOverride>, pin: seq<PinnedField>, policy: DriftPolicy)
  {
    ghost predicate Valid() {
      transform.Valid() && ValidOverrides(overrides) && (Pinned? ==> ValidPin(pin))
    }
  }

  // ----- Checks -----

  datatype NonNullRequirement = SchemaRequired | MergeKey

  datatype TypeOrigin = PinnedType | OverriddenType

  /** One per-record check: the field it reads, the type its values must fit, whether null rejects. */
  datatype FieldCheck = FieldCheck(
    name: string,
    source: SourceAddress,
    observedIndex: nat,
    expected: Option<(FieldType, TypeOrigin)>,
    required: Option<NonNullRequirement>)

  function SchemaRequirement(nonNull: bool): Option<NonNullRequirement> {
    if nonNull then Some(SchemaRequired) else None
  }

  function MergeKeyCheck(name: string, source: SourceAddress, index: nat): FieldCheck {
    FieldCheck(name, source, index, None, Some(MergeKey))
  }

  function PinnedCheck(field: PinnedField, source: SourceAddress, index: nat): FieldCheck {
    FieldCheck(field.name, source, index, Some((field.fieldType, PinnedType)), SchemaRequirement(!field.nullable))
  }

  function OverrideCheck(override_: FieldOverride, name: string, source: SourceAddress, index: nat): FieldCheck {
    FieldCheck(name, source, index,
      match override_.fieldType case None => None case Some(t) => Some((t, OverriddenType)),
      SchemaRequirement(override_.nullable == Some(false)))
  }

  predicate Readable(record: SourceRecord, checks: seq<FieldCheck>) {
    forall i :: 0 <= i < |checks| ==> CanRead(record, checks[i].source, checks[i].observedIndex)
  }

  predicate CheckFails(record: SourceRecord, check: FieldCheck)
    requires CanRead(record, check.source, check.observedIndex)
  {
    match ReadField(record, check.source, check.observedIndex)
    case None => check.required.Some?
    case Some(value) => check.expected.Some? && !ValueFits(value, check.expected.value.0)
  }

  /** Whether a record violates any check, whatever their order. */
  predicate RecordViolates(record: SourceRecord, checks: seq<FieldCheck>)
    requires Readable(record, checks)
  {
    exists i :: 0 <= i < |checks| && CheckFails(record, checks[i])
  }

  datatype RejectionCode = MalformedRecord | TypeCoercionFailed | MissingRequiredField | NullMergeKey

  datatype Rejection = Rejection(line: nat, code: RejectionCode, field: Option<string>)

  function CheckRejection(record: SourceRecord, check: FieldCheck): Rejection
    requires CanRead(record, check.source, check.observedIndex)
  {
    match ReadField(record, check.source, check.observedIndex)
    case None =>
      Rejection(record.line, if check.required == Some(MergeKey) then NullMergeKey else MissingRequiredField, Some(check.name))
    case Some(_) => Rejection(record.line, TypeCoercionFailed, Some(check.name))
  }

  /** Judges a record against the checks in order: the first one it fails names the rejection. */
  function ValidateRecord(record: SourceRecord, checks: seq<FieldCheck>): (r: Option<Rejection>)
    requires Readable(record, checks)
  {
    if checks == [] then None
    else if CheckFails(record, checks[0]) then Some(CheckRejection(record, checks[0]))
    else
      assert forall i :: 0 <= i < |checks[1..]| ==> checks[1..][i] == checks[i + 1];
      ValidateRecord(record, checks[1..])
  }

  /** The ordered judgement rejects exactly the records the order-free one does, and keeps their line. */
  lemma {:induction false} RejectedIffViolates(record: SourceRecord, checks: seq<FieldCheck>)
    requires Readable(record, checks)
    ensures ValidateRecord(record, checks).Some? <==> RecordViolates(record, checks)
    ensures ValidateRecord(record, checks).Some? ==> ValidateRecord(record, checks).value.line == record.line
  {
    if checks != [] {
      var rest := checks[1..];
      assert forall i :: 0 <= i < |rest| ==> rest[i] == checks[i + 1];
      RejectedIffViolates(record, rest);
      if RecordViolates(record, rest) {
        var i :| 0 <= i < |rest| && CheckFails(record, rest[i]);
        assert CheckFails(record, checks[i + 1]);
      }
      if RecordViolates(record, checks) && !CheckFails(record, checks[0]) {
        var i :| 0 <= i < |checks| && CheckFails(record, checks[i]);
        assert rest[i - 1] == checks[i];
      }
    }
  }

  /** The address a dataset name reads from, derived from the transform configuration alone. */
  function JsonSourceAddress(t: SchemaTransform, datasetName: string): SourceAddress {
    match IndexOf(FinalNames(t.rename, t.Outputs()), datasetName)
    case Some(position) => Path(t.flatten[position].segments)
    case None =>
      match IndexOf(Seconds(t.rename), datasetName)
      case Some(i) => Field(t.rename[i].0)
      case None => Field(datasetName)
  }

  function KeyChecks(t: SchemaTransform, mergeKeys: seq<string>): (r: seq<FieldCheck>)
    ensures |r| == |mergeKeys|
    ensures forall i :: 0 <= i < |r| ==> r[i] == MergeKeyCheck(mergeKeys[i], JsonSourceAddress(t, mergeKeys[i]), 0)
  {
    seq(|mergeKeys|, i requires 0 <= i < |mergeKeys| =>
      MergeKeyCheck(mergeKeys[i], JsonSourceAddress(t, mergeKeys[i]), 0))
  }

  function PinChecks(t: SchemaTransform, pin: seq<PinnedField>): (r: seq<FieldCheck>)
    ensures |r| == |pin|
    ensures forall i :: 0 <= i < |r| ==> r[i] == PinnedCheck(pin[i], JsonSourceAddress(t, pin[i].name), 0)
  {
    seq(|pin|, i requires 0 <= i < |pin| => PinnedCheck(pin[i], JsonSourceAddress(t, pin[i].name), 0))
  }

  predicate IsOutsidePinCheck(c: FieldCheck, t: SchemaTransform, o: FieldOverride, pinned: seq<string>) {
    o.name !in pinned && c == OverrideCheck(o, o.name, JsonSourceAddress(t, o.name), 0)
  }

  /** The overrides naming no pinned field, as checks in declaration order. */
  function OutsidePinChecks(t: SchemaTransform, overrides: seq<FieldOverride>, pinned: seq<string>): seq<FieldCheck> {
    if overrides == [] then []
    else
      var o := overrides[0];
      var rest := OutsidePinChecks(t, overrides[1..], pinned);
      if o.name in pinned then rest else [OverrideCheck(o, o.name, JsonSourceAddress(t, o.name), 0)] + rest
  }

  lemma {:induction false} OutsidePinCheckMember(
    c: FieldCheck, t: SchemaTransform, overrides: seq<FieldOverride>, pinned: seq<string>)
    ensures c in OutsidePinChecks(t, overrides, pinned) <==>
      exists i :: 0 <= i < |overrides| && IsOutsidePinCheck(c, t, overrides[i], pinned)
  {
    if overrides != [] {
      OutsidePinCheckMember(c, t, overrides[1..], pinned);
      assert forall i :: 1 <= i < |overrides| ==> overrides[i] == overrides[1..][i - 1];
      assert c in OutsidePinChecks(t, overrides, pinned) <==>
        IsOutsidePinCheck(c, t, overrides[0], pinned) || c in OutsidePinChecks(t, overrides[1..], pinned);
    }
  }

  /** The pin a directive validates against; empty when it infers. */
  function PinUsed(directive: Directive): seq<PinnedField> {
    if directive.Pinned? then directive.pin else []
  }

  /** The checks derivable from the directive alone, before the key union of a JSONL source is known. */
  function DirectiveChecks(directive: Directive, mergeKeys: seq<string>): seq<FieldCheck> {
    var t, pin := directive.transform, PinUsed(directive);
    KeyChecks(t, mergeKeys) + (PinChecks(t, pin) + OutsidePinChecks(t, directive.overrides, PinNames(pin)))
  }

  // ----- Resolution -----

  datatype PlannedField = PlannedField(
    name: string, source: SourceAddress, materializedType: FieldType, nullable: bool, observedIndex: nat)

  datatype Resolution = Resolution(
    fields: seq<PlannedField>, checks: seq<FieldCheck>, pinWrite: Option<seq<PinnedField>>)

  /** A pinned field without its re-declaring override: its pinned and its effective observed type. */
  datatype Undeclared = Undeclared(name: string, pinnedType: FieldType, effectiveType: FieldType)

  datatype SchemaFailure = SchemaFailure(code: Code, undeclared: seq<Undeclared>)

  function Fail(code: Code): SchemaFailure {
    SchemaFailure(code, [])
  }

  predicate InRange(columns: seq<DatasetColumn>, width: nat) {
    forall i :: 0 <= i < |columns| ==> columns[i].observedIndex < width
  }

  predicate IsOverrideCheck(c: FieldCheck, column: DatasetColumn, overrides: seq<FieldOverride>) {
    var o := GetOverride(overrides, column.datasetName);
    o.Some? && c == OverrideCheck(o.value, column.datasetName, column.source, column.observedIndex)
  }

  /** The checks overrides impose on dataset columns, in column order. */
  function OverrideChecks(overrides: seq<FieldOverride>, columns: seq<DatasetColumn>): seq<FieldCheck> {
    if columns == [] then []
    else
      var rest := OverrideChecks(overrides, columns[1..]);
      var column := columns[0];
      match GetOverride(overrides, column.datasetName)
      case None => rest
      case Some(o) => [OverrideCheck(o, column.datasetName, column.source, column.observedIndex)] + rest
  }

  lemma {:induction false} OverrideCheckMember(c: FieldCheck, overrides: seq<FieldOverride>, columns: seq<DatasetColumn>)
    ensures c in OverrideChecks(overrides, columns) <==>
      exists i :: 0 <= i < |columns| && IsOverrideCheck(c, columns[i], overrides)
  {
    if columns != [] {
      OverrideCheckMember(c, overrides, columns[1..]);
      assert forall i :: 1 <= i < |columns| ==> columns[i] == columns[1..][i - 1];
      assert c in OverrideChecks(overrides, columns) <==>
        IsOverrideCheck(c, columns[0], overrides) || c in OverrideChecks(overrides, columns[1..]);
    }
  }

  /** An inferred field: what its override sets, and the observed type and nullability otherwise. */
  function InferredField(column: DatasetColumn, types: seq<InferredType>, overrides: seq<FieldOverride>): PlannedField
    requires column.observedIndex < |types|
  {
    var o := GetOverride(overrides, column.datasetName);
    PlannedField(
      column.datasetName,
      column.source,
      if o.Some? && o.value.fieldType.Some? then o.value.fieldType.value else types[column.observedIndex].FieldType(),
      if o.Some? && o.value.nullable.Some? then o.value.nullable.value else true,
      column.observedIndex)
  }

  function InferredFields(columns: seq<DatasetColumn>, types: seq<InferredType>, overrides: seq<FieldOverride>)
    : (r: seq<PlannedField>)
    requires InRange(columns, |types|)
    ensures |r| == |columns| && forall i :: 0 <= i < |r| ==> r[i] == InferredField(columns[i], types, overrides)
  {
    seq(|columns|, i requires 0 <= i < |columns| => InferredField(columns[i], types, overrides))
  }

  function PinOf(fields: seq<PlannedField>): (r: seq<PinnedField>)
    ensures |r| == |fields|
    ensures forall i :: 0 <= i < |r| ==> r[i] == PinnedField(fields[i].name, fields[i].materializedType, fields[i].nullable)
  {
    seq(|fields|, i requires 0 <= i < |fields| =>
      PinnedField(fields[i].name, fields[i].materializedType, fields[i].nullable))
  }

  /** Every override names a dataset column. */
  predicate OverridesKnown(overrides: seq<FieldOverride>, names: seq<string>) {
    forall i :: 0 <= i < |overrides| ==> overrides[i].name in names
  }

  function ColumnNamed(columns: seq<DatasetColumn>, name: string): (r: DatasetColumn)
    requires name in DatasetNames(columns)
    ensures r in columns && r.datasetName == name
  {
    columns[IndexOf(DatasetNames(columns), name).value]
  }

  predicate AllNamed(columns: seq<DatasetColumn>, names: seq<string>) {
    forall i :: 0 <= i < |names| ==> names[i] in DatasetNames(columns)
  }

  /** The merge keys as checks on the columns they name; a key naming no column fails the load. */
  function MergeKeyChecks(mergeKeys: seq<string>, columns: seq<DatasetColumn>): (r: seq<FieldCheck>)
    requires AllNamed(columns, mergeKeys)
    ensures |r| == |mergeKeys|
    ensures forall i :: 0 <= i < |r| ==> var c := ColumnNamed(columns, mergeKeys[i]);
      r[i] == MergeKeyCheck(c.datasetName, c.source, c.observedIndex)
  {
    seq(|mergeKeys|, i requires 0 <= i < |mergeKeys| =>
      var c := ColumnNamed(columns, mergeKeys[i]); MergeKeyCheck(c.datasetName, c.source, c.observedIndex))
  }

  /** An override contradicts the pinned field it names on a property it sets. */
  predicate Contradicts(override_: FieldOverride, pin: seq<PinnedField>) {
    exists i :: 0 <= i < |pin| && IndexOf(PinNames(pin), override_.name) == Some(i)
      && ((override_.fieldType.Some? && override_.fieldType.value != pin[i].fieldType)
          || (override_.nullable.Some? && override_.nullable.value != pin[i].nullable))
  }

  predicate OverrideConflicts(overrides: seq<FieldOverride>, pin: seq<PinnedField>) {
    exists i :: 0 <= i < |overrides| && Contradicts(overrides[i], pin)
  }

  function MatchedFields(pin: seq<PinnedField>, columns: seq<DatasetColumn>): (r: seq<PlannedField>)
    requires AllNamed(columns, PinNames(pin))
    ensures |r| == |pin|
    ensures forall i :: 0 <= i < |r| ==> var c := ColumnNamed(columns, PinNames(pin)[i]);
      r[i] == PlannedField(pin[i].name, c.source, pin[i].fieldType, pin[i].nullable, c.observedIndex)
  {
    seq(|pin|, i requires 0 <= i < |pin| =>
      var c := ColumnNamed(columns, PinNames(pin)[i]);
      PlannedField(pin[i].name, c.source, pin[i].fieldType, pin[i].nullable, c.observedIndex))
  }

  function AddedColumns(columns: seq<DatasetColumn>, pinned: seq<string>): (r: seq<DatasetColumn>)
    ensures forall c :: c in r <==> c in columns && c.datasetName !in pinned
    ensures forall width {:trigger InRange(r, width)} :: InRange(columns, width) ==> InRange(r, width)
  {
    if columns == [] then []
    else
      assert forall x :: x in columns <==> x == columns[0] || x in columns[1..];
      (if columns[0].datasetName in pinned then [] else [columns[0]]) + AddedColumns(columns[1..], pinned)
  }

  /** The pinned declared-only fields no override re-declares, with the types the observations give them. */
  function UndeclaredFields(
    matched: seq<PlannedField>, overrides: seq<FieldOverride>, types: seq<InferredType>): (r: seq<Undeclared>)
    requires forall i :: 0 <= i < |matched| ==> matched[i].observedIndex < |types|
    ensures r == [] <==> forall i :: 0 <= i < |matched| ==> !IsUndeclared(matched[i], overrides)
  {
    if matched == [] then []
    else
      var field := matched[0];
      assert forall i :: 1 <= i < |matched| ==> matched[i] == matched[1..][i - 1];
      (if IsUndeclared(field, overrides)
       then [Undeclared(field.name, field.materializedType, types[field.observedIndex].FieldType())]
       else []) + UndeclaredFields(matched[1..], overrides, types)
  }

  predicate IsUndeclared(field: PlannedField, overrides: seq<FieldOverride>) {
    var o := GetOverride(overrides, field.name);
    field.materializedType.IsDeclaredOnly() && (o.None? || o.value.fieldType.None?)
  }

  function PinnedChecks(pin: seq<PinnedField>, matched: seq<PlannedField>): (r: seq<FieldCheck>)
    requires |matched| == |pin|
    ensures |r| == |matched|
    ensures forall i :: 0 <= i < |r| ==> r[i] == PinnedCheck(pin[i], matched[i].source, matched[i].observedIndex)
  {
    seq(|matched|, i requires 0 <= i < |matched| => PinnedCheck(pin[i], matched[i].source, matched[i].observedIndex))
  }

  /** A pinned load: conflicts, then shape drift, then re-declarations, then the plan in pin order. */
  function ResolvePinned(
    directive: Directive, columns: seq<DatasetColumn>, allTypes: seq<InferredType>, survivorTypes: seq<InferredType>)
    : Result<Resolution, SchemaFailure>
    requires directive.Pinned? && InRange(columns, |allTypes|) && |survivorTypes| == |allTypes|
  {
    var (pin, overrides) := (directive.pin, directive.overrides);
    if OverrideConflicts(overrides, pin) then Failure(Fail(SchemaOverrideConflict))
    else if !Distinct(DatasetNames(columns)) then Failure(Fail(SchemaDrift))
    else if !AllNamed(columns, PinNames(pin)) then Failure(Fail(SchemaDrift))
    else
      var added := AddedColumns(columns, PinNames(pin));
      if added != [] && directive.policy != AllowAdditiveNullable then Failure(Fail(SchemaDrift))
      else
        var matched := MatchedFields(pin, columns);
        var undeclared := UndeclaredFields(matched, overrides, allTypes);
        if undeclared != [] then Failure(SchemaFailure(SchemaDrift, undeclared))
        else
          assert InRange(added, |survivorTypes|);
          var addedFields := InferredFields(added, survivorTypes, overrides);
          var fields := matched + addedFields;
          Success(Resolution(
            fields,
            PinnedChecks(pin, matched) + OverrideChecks(overrides, added),
            if added == [] then None else Some(PinOf(fields))))
  }

  function ResolveInferred(
    directive: Directive, columns: seq<DatasetColumn>, survivorTypes: seq<InferredType>): Resolution
    requires !directive.Pinned? && InRange(columns, |survivorTypes|)
  {
    var fields := InferredFields(columns, survivorTypes, directive.overrides);
    Resolution(
      fields,
      OverrideChecks(directive.overrides, columns),
      if directive.PinInferred? then Some(PinOf(fields)) else None)
  }

  function ShapeWidth(directive: Directive, fieldNames: seq<string>): nat {
    |fieldNames| + |directive.transform.flatten|
  }

  lemma ColumnsInRange(t: SchemaTransform, observed: seq<string>)
    requires AllKnown(t, observed)
    ensures InRange(Columns(t, observed), |observed| + |t.flatten|)
  {
    var columns := Columns(t, observed);
    forall i | 0 <= i < |columns| ensures columns[i].observedIndex < |observed| + |t.flatten| {
      assert columns[i] == ColumnAt(t, observed, i);
      if t.select.Some? {
        assert Known(t, observed, t.select.OrElse([])[i]);
      }
    }
  }

  /**
   * The whole-input schema decision, in the source's order: the transform, override names, merge keys,
   * and then the directive's own resolution. Merge-key checks come first in the resolved checks.
   */
  function ResolvePlan(
    directive: Directive,
    mergeKeys: seq<string>,
    fieldNames: seq<string>,
    allTypes: seq<InferredType>,
    survivorTypes: seq<InferredType>): Result<Resolution, SchemaFailure>
    requires |allTypes| == |survivorTypes| == ShapeWidth(directive, fieldNames)
  {
    var resolved := ResolveTransform(directive.transform, fieldNames);
    if resolved.Failure? then Failure(Fail(resolved.error))
    else
      var columns := resolved.value;
      ColumnsInRange(directive.transform, fieldNames);
      if !OverridesKnown(directive.overrides, DatasetNames(columns)) then Failure(Fail(UnknownOverrideField))
      else if !AllNamed(columns, mergeKeys) then Failure(Fail(UnknownMergeKeyField))
      else
        var resolution :-
          (if directive.Pinned? then ResolvePinned(directive, columns, allTypes, survivorTypes)
           else Success(ResolveInferred(directive, columns, survivorTypes)));
        Success(resolution.(checks := MergeKeyChecks(mergeKeys, columns) + resolution.checks))
  }

  // ----- The shape of a resolution -----

  lemma {:induction false} NothingPinned(columns: seq<DatasetColumn>)
    ensures AddedColumns(columns, []) == columns
  {
    if columns != [] {
      NothingPinned(columns[1..]);
      assert columns == [columns[0]] + columns[1..];
    }
  }

  /** The dataset columns no pinned field names: all of them when nothing is pinned. */
  function OutsideColumns(columns: seq<DatasetColumn>, pin: seq<PinnedField>): seq<DatasetColumn> {
    AddedColumns(columns, PinNames(pin))
  }

  /** The fields a pin and the observed types give the dataset columns: pinned ones in pin order, then the rest. */
  function FieldsOver(t: SchemaTransform, fieldNames: seq<string>, pin: seq<PinnedField>,
    overrides: seq<FieldOverride>, types: seq<InferredType>): seq<PlannedField>
    requires AllKnown(t, fieldNames) && AllNamed(Columns(t, fieldNames), PinNames(pin))
    requires InRange(OutsideColumns(Columns(t, fieldNames), pin), |types|)
  {
    var columns := Columns(t, fieldNames);
    MatchedFields(pin, columns) + InferredFields(OutsideColumns(columns, pin), types, overrides)
  }

  /** The fields are the pinned ones, then those of the columns outside the pin. */
  lemma FieldOverAt(t: SchemaTransform, fieldNames: seq<string>, pin: seq<PinnedField>, overrides: seq<FieldOverride>,
    types: seq<InferredType>, f: nat)
    requires AllKnown(t, fieldNames) && AllNamed(Columns(t, fieldNames), PinNames(pin))
    requires InRange(OutsideColumns(Columns(t, fieldNames), pin), |types|)
    requires f < |FieldsOver(t, fieldNames, pin, overrides, types)|
    ensures var columns := Columns(t, fieldNames);
      var fields, outside := FieldsOver(t, fieldNames, pin, overrides, types), OutsideColumns(columns, pin);
      && |fields| == |pin| + |outside|
      && (f < |pin| ==> fields[f] == MatchedFields(pin, columns)[f])
      && (f >= |pin| ==> fields[f] == InferredField(outside[f - |pin|], types, overrides))
  {
  }

  /** The checks on the dataset columns: the merge keys', the pin's, then the overrides' outside the pin. */
  function ChecksOver(t: SchemaTransform, fieldNames: seq<string>, mergeKeys: seq<string>, pin: seq<PinnedField>,
    overrides: seq<FieldOverride>): seq<FieldCheck>
    requires AllKnown(t, fieldNames)
    requires AllNamed(Columns(t, fieldNames), mergeKeys) && AllNamed(Columns(t, fieldNames), PinNames(pin))
  {
    var columns := Columns(t, fieldNames);
    MergeKeyChecks(mergeKeys, columns)
      + (PinnedChecks(pin, MatchedFields(pin, columns)) + OverrideChecks(overrides, OutsideColumns(columns, pin)))
  }

  lemma InferredShape(t: SchemaTransform, fieldNames: seq<string>, types: seq<InferredType>, overrides: seq<FieldOverride>,
    mergeKeys: seq<string>)
    requires AllKnown(t, fieldNames) && AllNamed(Columns(t, fieldNames), mergeKeys)
    requires InRange(Columns(t, fieldNames), |types|)
    ensures OutsideColumns(Columns(t, fieldNames), []) == Columns(t, fieldNames)
    ensures FieldsOver(t, fieldNames, [], overrides, types) == InferredFields(Columns(t, fieldNames), types, overrides)
    ensures ChecksOver(t, fieldNames, mergeKeys, [], overrides)
         == MergeKeyChecks(mergeKeys, Columns(t, fieldNames)) + OverrideChecks(overrides, Columns(t, fieldNames))
  {
    var columns := Columns(t, fieldNames);
    NothingPinned(columns);
    assert PinNames([]) == [];
    assert [] + OverrideChecks(overrides, columns) == OverrideChecks(overrides, columns);
    assert [] + InferredFields(columns, types, overrides) == InferredFields(columns, types, overrides);
  }

  /** What every resolution consists of, whatever the directive. */
  lemma PlanShape(
    directive: Directive, mergeKeys: seq<string>, fieldNames: seq<string>,
    allTypes: seq<InferredType>, survivorTypes: seq<InferredType>)
    requires |allTypes| == |survivorTypes| == ShapeWidth(directive, fieldNames)
    requires ResolvePlan(directive, mergeKeys, fieldNames, allTypes, survivorTypes).Success?
    ensures ResolveTransform(directive.transform, fieldNames).Success?
    ensures InRange(Columns(directive.transform, fieldNames), |survivorTypes|)
    ensures var columns, pin := Columns(directive.transform, fieldNames), PinUsed(directive);
      && AllNamed(columns, mergeKeys) && AllNamed(columns, PinNames(pin))
      && OverridesKnown(directive.overrides, DatasetNames(columns))
      && InRange(OutsideColumns(columns, pin), |survivorTypes|)
    ensures var resolution := ResolvePlan(directive, mergeKeys, fieldNames, allTypes, survivorTypes).value;
      var t, pin := directive.transform, PinUsed(directive);
      && resolution.fields == FieldsOver(t, fieldNames, pin, directive.overrides, survivorTypes)
      && resolution.checks == ChecksOver(t, fieldNames, mergeKeys, pin, directive.overrides)
  {
    ColumnsInRange(directive.transform, fieldNames);
    if !directive.Pinned? {
      InferredShape(directive.transform, fieldNames, survivorTypes, directive.overrides, mergeKeys);
    }
  }
}
