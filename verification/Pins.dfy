/**
 * Pinned schemas: the structured file a pin is written to and read from, and what a load that wrote or
 * extended a pin finds when it runs again against it.
 */
module Pins {
  import opened Wrappers
  import opened Failures
  import opened Sequences
  import opened FieldTypes
  import opened Records
  import opened Transforms
  import opened Schemas
  import opened Observations
  import opened Observers
  import opened Inputs
  import opened Materialization
  import Agreement

  // ----- The pin file -----

  /** One field entry of a pin file, as written. */
  datatype PinnedFieldFile = PinnedFieldFile(name: string, typeName: string, nullable: Option<bool>)

  /** The structured pin file; its YAML text is not modelled. */
  datatype PinnedSchemaFile = PinnedSchemaFile(version: Option<nat>, fields: Option<seq<PinnedFieldFile>>)

  const PINNED_SCHEMA_VERSION: nat := 1

  function FileOf(pin: seq<PinnedField>): PinnedSchemaFile {
    PinnedSchemaFile(
      Some(PINNED_SCHEMA_VERSION),
      Some(seq(|pin|, i requires 0 <= i < |pin| =>
        PinnedFieldFile(pin[i].name, pin[i].fieldType.Name(), Some(pin[i].nullable)))))
  }

  function FieldFileNames(fields: seq<PinnedFieldFile>): (r: seq<string>)
    ensures |r| == |fields| && forall i :: 0 <= i < |r| ==> r[i] == fields[i].name
  {
    seq(|fields|, i requires 0 <= i < |fields| => fields[i].name)
  }

  predicate KnownType(field: PinnedFieldFile) {
    ParseTypeName(field.typeName).Some?
  }

  ghost predicate ReadableEntries(entries: seq<PinnedFieldFile>) {
    Distinct(FieldFileNames(entries)) && forall i :: 0 <= i < |entries| ==> KnownType(entries[i])
  }

  /** The contract of a pin file: version 1, at least one field, unique names, known types. */
  ghost predicate ReadablePin(file: PinnedSchemaFile) {
    && file.version == Some(PINNED_SCHEMA_VERSION)
    && file.fields.OrElse([]) != [] && ReadableEntries(file.fields.OrElse([]))
  }

  /** The field an entry declares; nullability defaults to true. */
  function ReadField(field: PinnedFieldFile): PinnedField
    requires KnownType(field)
  {
    PinnedField(field.name, ParseTypeName(field.typeName).value, field.nullable.OrElse(true))
  }

  function PinFrom(file: PinnedSchemaFile): (r: seq<PinnedField>)
    requires ReadablePin(file)
    ensures |r| == |file.fields.OrElse([])|
    ensures forall i :: 0 <= i < |r| ==> r[i] == ReadField(file.fields.OrElse([])[i])
  {
    var fields := file.fields.OrElse([]);
    seq(|fields|, i requires 0 <= i < |fields| => ReadField(fields[i]))
  }

  /** Reads the entries in turn, refusing a repeated name or an unknown type. */
  method ReadEntries(entries: seq<PinnedFieldFile>) returns (r: Option<seq<PinnedField>>)
    ensures r.Some? <==> ReadableEntries(entries)
    ensures r.Some? ==> |r.value| == |entries|
    ensures r.Some? ==> forall i :: 0 <= i < |entries| ==> r.value[i] == ReadField(entries[i])
  {
    ghost var names := FieldFileNames(entries);
    var seen: set<string> := {};
    var fields: seq<PinnedField> := [];
    for i := 0 to |entries|
      invariant seen == Elements(names[..i]) && Distinct(names[..i]) && |fields| == i
      invariant forall k :: 0 <= k < i ==> KnownType(entries[k]) && fields[k] == ReadField(entries[k])
    {
      DistinctSnoc(names, i);
      if entries[i].name in seen {
        NotDistinctPrefix(names, i + 1);
        return None;
      }
      seen := seen + {entries[i].name};
      TakeOneMore(names, i);
      var fieldType := ParseTypeName(entries[i].typeName);
      if fieldType.None? {
        assert !KnownType(entries[i]);
        return None;
      }
      fields := fields + [PinnedField(entries[i].name, fieldType.value, entries[i].nullable.OrElse(true))];
    }
    assert names[..|entries|] == names;
    return Some(fields);
  }

  /** Reads a pin file; every refusal carries the same code. */
  method ReadPin(file: PinnedSchemaFile) returns (r: Result<seq<PinnedField>, Code>)
    ensures r == if ReadablePin(file) then Success(PinFrom(file)) else Failure(InvalidPinnedSchema)
  {
    var entries := file.fields.OrElse([]);
    if file.version != Some(PINNED_SCHEMA_VERSION) || entries == [] {
      return Failure(InvalidPinnedSchema);
    }
    var fields := ReadEntries(entries);
    if fields.None? {
      return Failure(InvalidPinnedSchema);
    }
    assert fields.value == PinFrom(file);
    return Success(fields.value);
  }

  ghost predicate ValidTypes(pin: seq<PinnedField>) {
    forall i :: 0 <= i < |pin| ==> pin[i].fieldType.Valid()
  }

  /** A pin of valid types reads back as itself exactly when it has a field and no two share a name. */
  lemma WrittenPinReadsBack(pin: seq<PinnedField>)
    requires ValidTypes(pin)
    ensures ReadablePin(FileOf(pin)) <==> pin != [] && Distinct(PinNames(pin))
    ensures ReadablePin(FileOf(pin)) ==> PinFrom(FileOf(pin)) == pin
  {
    var fields := FileOf(pin).fields.OrElse([]);
    assert FieldFileNames(fields) == PinNames(pin);
    forall i | 0 <= i < |pin| ensures KnownType(fields[i]) && ReadField(fields[i]) == pin[i] {
      NameParses(pin[i].fieldType);
    }
  }

  /** A readable file that spells out every nullability is written back byte-identical. */
  lemma ReadPinWritesBack(file: PinnedSchemaFile)
    requires ReadablePin(file)
    ensures ValidPin(PinFrom(file))
    ensures (forall i :: 0 <= i < |file.fields.value| ==> file.fields.value[i].nullable.Some?) ==>
      FileOf(PinFrom(file)) == file
  {
    var fields, pin := file.fields.value, PinFrom(file);
    assert PinNames(pin) == FieldFileNames(fields);
    forall i | 0 <= i < |fields| ensures pin[i].fieldType.Valid() && pin[i].fieldType.Name() == fields[i].typeName {
      ParsedNamePrints(fields[i].typeName);
    }
    if forall i :: 0 <= i < |fields| ==> fields[i].nullable.Some? {
      assert FileOf(pin).fields.value == fields;
    }
  }

  // ----- The plan a pin is written from -----

  /** A resolved load, reduced to what decides its fields. */
  datatype Plan = Plan(
    t: SchemaTransform, fieldNames: seq<string>, pin: seq<PinnedField>, overrides: seq<FieldOverride>,
    types: seq<InferredType>)
  {
    /** Every pinned name has a column, and every other column an observed type. */
    predicate Shaped() {
      && AllKnown(t, fieldNames) && AllNamed(Columns(), PinNames(pin))
      && InRange(Outside(), |types|)
    }

    /** The load resolved over distinct dataset names, so every name has one column. */
    ghost predicate Sound() {
      && Shaped() && Distinct(DatasetNames(Columns())) && Distinct(PinNames(pin)) && ValidTypes(pin)
      && ValidOverrides(overrides) && !OverrideConflicts(overrides, pin) && Redeclared()
    }

    ghost predicate Redeclared()
      requires Shaped()
    {
      forall i :: 0 <= i < |pin| ==> !IsUndeclared(MatchedFields(pin, Columns())[i], overrides)
    }

    function Columns(): seq<DatasetColumn>
      requires AllKnown(t, fieldNames)
    {
      Transforms.Columns(t, fieldNames)
    }

    function Outside(): seq<DatasetColumn>
      requires AllKnown(t, fieldNames)
    {
      OutsideColumns(Columns(), pin)
    }

    function Fields(): (r: seq<PlannedField>)
      requires Shaped()
      ensures |r| == |pin| + |Outside()|
    {
      FieldsOver(t, fieldNames, pin, overrides, types)
    }

    /** The pin the load writes: its fields, with the pinned ones first. */
    function Written(): seq<PinnedField>
      requires Shaped()
    {
      PinOf(Fields())
    }
  }

  lemma PinnedFieldIs(p: Plan, f: nat)
    requires p.Shaped() && f < |p.pin|
    ensures p.Fields()[f] == MatchedFields(p.pin, p.Columns())[f]
    ensures p.Written()[f] == p.pin[f] && PinNames(p.Written())[f] == p.pin[f].name
    ensures p.pin[f].name == PinNames(p.pin)[f] && PinNames(p.pin)[f] in DatasetNames(p.Columns())
  {
  }

  lemma OutsideFieldIs(p: Plan, k: nat)
    requires p.Shaped() && k < |p.Outside()|
    ensures p.Outside()[k] in p.Columns() && p.Outside()[k].datasetName !in PinNames(p.pin)
    ensures p.Outside()[k].observedIndex < |p.types|
    ensures p.Fields()[|p.pin| + k] == InferredField(p.Outside()[k], p.types, p.overrides)
    ensures PinNames(p.Written())[|p.pin| + k] == p.Outside()[k].datasetName
  {
    assert p.Outside()[k] in p.Outside();
  }

  lemma ColumnByName(p: Plan, column: DatasetColumn)
    requires p.Shaped() && Distinct(DatasetNames(p.Columns())) && column in p.Columns()
    ensures column.datasetName in DatasetNames(p.Columns())
    ensures ColumnNamed(p.Columns(), column.datasetName) == column
  {
    var i :| 0 <= i < |p.Columns()| && p.Columns()[i] == column;
    assert DatasetNames(p.Columns())[i] == column.datasetName;
    IndexOfDistinct(DatasetNames(p.Columns()), i);
  }

  predicate ReadsColumn(field: PlannedField, column: DatasetColumn) {
    && field.name == column.datasetName
    && field.source == column.source && field.observedIndex == column.observedIndex
  }

  /** Every planned field reads the one dataset column of its name. */
  lemma FieldReadsItsColumn(p: Plan, f: nat)
    requires p.Shaped() && Distinct(DatasetNames(p.Columns())) && f < |p.Fields()|
    ensures p.Fields()[f].name in DatasetNames(p.Columns())
    ensures ReadsColumn(p.Fields()[f], ColumnNamed(p.Columns(), p.Fields()[f].name))
  {
    if f < |p.pin| {
      PinnedFieldIs(p, f);
    } else {
      OutsideFieldReadsItsColumn(p, f - |p.pin|);
    }
  }

  lemma OutsideFieldReadsItsColumn(p: Plan, k: nat)
    requires p.Shaped() && Distinct(DatasetNames(p.Columns())) && k < |p.Outside()|
    ensures var field := p.Fields()[|p.pin| + k];
      field.name in DatasetNames(p.Columns()) && ReadsColumn(field, ColumnNamed(p.Columns(), field.name))
  {
    OutsideFieldIs(p, k);
    ColumnByName(p, p.Outside()[k]);
  }

  lemma TailNamesDistinct(columns: seq<DatasetColumn>)
    requires columns != [] && Distinct(DatasetNames(columns))
    ensures Distinct(DatasetNames(columns[1..]))
    ensures forall column :: column in columns[1..] ==> column.datasetName != columns[0].datasetName
  {
    var names, rest := DatasetNames(columns), columns[1..];
    assert DatasetNames(rest) == names[1..];
    forall column | column in rest ensures column.datasetName != columns[0].datasetName {
      var k :| 0 <= k < |rest| && rest[k] == column;
      assert names[k + 1] == column.datasetName && names[0] == columns[0].datasetName;
    }
  }

  lemma {:induction false} OutsideNamesDistinct(columns: seq<DatasetColumn>, pinned: seq<string>)
    requires Distinct(DatasetNames(columns))
    ensures Distinct(DatasetNames(AddedColumns(columns, pinned)))
  {
    if columns != [] {
      TailNamesDistinct(columns);
      OutsideNamesDistinct(columns[1..], pinned);
      var added := AddedColumns(columns[1..], pinned);
      forall i | 0 <= i < |added| ensures added[i].datasetName != columns[0].datasetName {
        assert added[i] in added;
      }
    }
  }

  lemma WrittenNameIs(p: Plan, f: nat)
    requires p.Shaped() && f < |p.Fields()|
    ensures f < |p.pin| ==> PinNames(p.Written())[f] == PinNames(p.pin)[f]
    ensures f >= |p.pin| ==> PinNames(p.Written())[f] == DatasetNames(p.Outside())[f - |p.pin|]
    ensures f >= |p.pin| ==> PinNames(p.Written())[f] !in PinNames(p.pin)
  {
    if f < |p.pin| {
      PinnedFieldIs(p, f);
    } else {
      var k := f - |p.pin|;
      OutsideFieldIs(p, k);
      assert PinNames(p.Written())[|p.pin| + k] == DatasetNames(p.Outside())[k];
    }
  }

  /** The written pin names every dataset column once. */
  lemma WrittenNames(p: Plan)
    requires p.Shaped() && Distinct(DatasetNames(p.Columns())) && Distinct(PinNames(p.pin))
    ensures Distinct(PinNames(p.Written()))
    ensures forall column :: column in p.Columns() ==> column.datasetName in PinNames(p.Written())
  {
    var names := PinNames(p.Written());
    OutsideNamesDistinct(p.Columns(), PinNames(p.pin));
    forall i, j | 0 <= i < j < |names| ensures names[i] != names[j] {
      WrittenNameIs(p, i);
      WrittenNameIs(p, j);
    }
    forall column | column in p.Columns() ensures column.datasetName in names {
      ColumnIsWritten(p, column);
    }
  }

  lemma ColumnIsWritten(p: Plan, column: DatasetColumn)
    requires p.Shaped() && column in p.Columns()
    ensures column.datasetName in PinNames(p.Written())
  {
    var names := PinNames(p.Written());
    if column.datasetName in PinNames(p.pin) {
      var i :| 0 <= i < |p.pin| && PinNames(p.pin)[i] == column.datasetName;
      WrittenNameIs(p, i);
      assert names[i] == column.datasetName;
    } else {
      assert column in p.Outside();
      var k :| 0 <= k < |p.Outside()| && p.Outside()[k] == column;
      WrittenNameIs(p, |p.pin| + k);
      assert names[|p.pin| + k] == column.datasetName;
    }
  }

  lemma WrittenTypesValid(p: Plan)
    requires p.Shaped() && ValidTypes(p.pin) && ValidOverrides(p.overrides)
    ensures ValidTypes(p.Written())
  {
    forall f | 0 <= f < |p.Written()| ensures p.Written()[f].fieldType.Valid() {
      WrittenTypeValid(p, f);
    }
  }

  lemma WrittenTypeValid(p: Plan, f: nat)
    requires p.Shaped() && ValidTypes(p.pin) && ValidOverrides(p.overrides) && f < |p.Fields()|
    ensures f < |p.Written()| && p.Written()[f].fieldType.Valid()
  {
    if f < |p.pin| {
      PinnedFieldIs(p, f);
      assert p.pin[f].fieldType.Valid();
    } else {
      OutsideTypeValid(p, f - |p.pin|);
    }
  }

  lemma OutsideTypeValid(p: Plan, k: nat)
    requires p.Shaped() && ValidOverrides(p.overrides) && k < |p.Outside()|
    ensures |p.pin| + k < |p.Fields()| && p.Fields()[|p.pin| + k].materializedType.Valid()
  {
    OutsideFieldIs(p, k);
    InferredTypeValid(p.Outside()[k], p.types, p.overrides);
  }

  lemma InferredTypeValid(column: DatasetColumn, types: seq<InferredType>, overrides: seq<FieldOverride>)
    requires ValidOverrides(overrides) && column.observedIndex < |types|
    ensures InferredField(column, types, overrides).materializedType.Valid()
  {
    var o := GetOverride(overrides, column.datasetName);
    if o.Some? {
      var k :| 0 <= k < |overrides| && overrides[k] == o.value;
      assert overrides[k].Valid();
    }
  }

  lemma {:induction false} NothingOutside(columns: seq<DatasetColumn>, pinned: seq<string>)
    requires forall column :: column in columns ==> column.datasetName in pinned
    ensures AddedColumns(columns, pinned) == []
  {
    if columns != [] {
      NothingOutside(columns[1..], pinned);
    }
  }

  /** Matching the dataset columns against the written pin gives back the plan's own fields, and adds none. */
  lemma WrittenPinMatches(p: Plan)
    requires p.Sound()
    ensures AllNamed(p.Columns(), PinNames(p.Written()))
    ensures MatchedFields(p.Written(), p.Columns()) == p.Fields()
    ensures OutsideColumns(p.Columns(), p.Written()) == []
  {
    WrittenNames(p);
    forall f | 0 <= f < |p.Fields()|
      ensures PinNames(p.Written())[f] in DatasetNames(p.Columns())
      ensures p.Fields()[f].name == PinNames(p.Written())[f]
    {
      FieldReadsItsColumn(p, f);
    }
    forall f | 0 <= f < |p.Fields()| ensures MatchedFields(p.Written(), p.Columns())[f] == p.Fields()[f] {
      FieldReadsItsColumn(p, f);
    }
    NothingOutside(p.Columns(), PinNames(p.Written()));
  }

  /** The field has every property its override sets, and a declared type only if its override declares one. */
  predicate AgreesWithOverride(field: PlannedField, overrides: seq<FieldOverride>) {
    var o := GetOverride(overrides, field.name);
    && !IsUndeclared(field, overrides)
    && (o.Some? && o.value.fieldType.Some? ==> o.value.fieldType.value == field.materializedType)
    && (o.Some? && o.value.nullable.Some? ==> o.value.nullable.value == field.nullable)
  }

  lemma InferredFieldAgrees(column: DatasetColumn, types: seq<InferredType>, overrides: seq<FieldOverride>)
    requires column.observedIndex < |types|
    ensures AgreesWithOverride(InferredField(column, types, overrides), overrides)
  {
  }

  lemma PinnedFieldAgrees(p: Plan, f: nat)
    requires p.Shaped() && Distinct(PinNames(p.pin)) && !OverrideConflicts(p.overrides, p.pin) && p.Redeclared()
    requires f < |p.pin|
    ensures AgreesWithOverride(p.Fields()[f], p.overrides)
  {
    PinnedFieldIs(p, f);
    var o := GetOverride(p.overrides, p.pin[f].name);
    if o.Some? {
      IndexOfDistinct(PinNames(p.pin), f);
      var k :| 0 <= k < |p.overrides| && p.overrides[k] == o.value;
      assert !Contradicts(p.overrides[k], p.pin);
    }
  }

  /** The written pin contradicts no override, and each of its declared types is still re-declared. */
  lemma WrittenPinAgreesWithOverrides(p: Plan, f: nat)
    requires p.Sound() && f < |p.Fields()|
    ensures AgreesWithOverride(p.Fields()[f], p.overrides)
  {
    if f < |p.pin| {
      PinnedFieldAgrees(p, f);
    } else {
      OutsideFieldAgrees(p, f - |p.pin|);
    }
  }

  lemma OutsideFieldAgrees(p: Plan, k: nat)
    requires p.Shaped() && k < |p.Outside()|
    ensures AgreesWithOverride(p.Fields()[|p.pin| + k], p.overrides)
  {
    OutsideFieldIs(p, k);
    InferredFieldAgrees(p.Outside()[k], p.types, p.overrides);
  }

  lemma NoConflictWithWritten(p: Plan)
    requires p.Sound()
    ensures !OverrideConflicts(p.overrides, p.Written())
  {
    WrittenNames(p);
    forall k | 0 <= k < |p.overrides| ensures !Contradicts(p.overrides[k], p.Written()) {
      GetOverrideAt(p.overrides, k);
      forall f | 0 <= f < |p.Written()| && IndexOf(PinNames(p.Written()), p.overrides[k].name) == Some(f)
        ensures p.overrides[k].fieldType.Some? ==> p.overrides[k].fieldType.value == p.Written()[f].fieldType
        ensures p.overrides[k].nullable.Some? ==> p.overrides[k].nullable.value == p.Written()[f].nullable
      {
        WrittenPinAgreesWithOverrides(p, f);
      }
    }
  }

  // ----- Loading again against the written pin -----

  function Reload(p: Plan, policy: DriftPolicy): Directive
    requires p.Shaped()
  {
    Pinned(p.t, p.overrides, p.Written(), policy)
  }

  /** The checks a pin written from these fields imposes on them. */
  function FieldChecks(fields: seq<PlannedField>): (r: seq<FieldCheck>)
    ensures |r| == |fields|
    ensures forall f :: 0 <= f < |r| ==>
      r[f] == PinnedCheck(PinOf(fields)[f], fields[f].source, fields[f].observedIndex)
  {
    PinnedChecks(PinOf(fields), fields)
  }

  /** The checks a reload imposes: the merge keys', then every field of the written pin. */
  function ReloadChecks(p: Plan, mergeKeys: seq<string>): seq<FieldCheck>
    requires p.Shaped() && AllNamed(p.Columns(), mergeKeys)
  {
    MergeKeyChecks(mergeKeys, p.Columns()) + FieldChecks(p.Fields())
  }

  /** Held to the pin it wrote, the columns resolve to the same fields: no conflict, no drift and nothing to write. */
  lemma ReloadPinned(p: Plan, policy: DriftPolicy, all: seq<InferredType>, types: seq<InferredType>)
    requires p.Sound() && InRange(p.Columns(), |all|) && |all| == |types|
    ensures ResolvePinned(Reload(p, policy), p.Columns(), all, types)
         == Success(Resolution(p.Fields(), FieldChecks(p.Fields()), None))
  {
    var matched := p.Fields();
    WrittenPinMatches(p);
    NoConflictWithWritten(p);
    forall f | 0 <= f < |matched| ensures !IsUndeclared(matched[f], p.overrides) {
      WrittenPinAgreesWithOverrides(p, f);
    }
    assert InferredFields([], types, p.overrides) == [];
    assert matched + [] == matched;
    assert FieldChecks(matched) + [] == FieldChecks(matched);
  }

  /** Against the pin it wrote, a load resolves the same fields, with the merge keys' checks before the pin's. */
  lemma ReloadResolves(p: Plan, policy: DriftPolicy, mergeKeys: seq<string>, all: seq<InferredType>, types: seq<InferredType>)
    requires p.Sound() && ResolveTransform(p.t, p.fieldNames).Success?
    requires OverridesKnown(p.overrides, DatasetNames(p.Columns())) && AllNamed(p.Columns(), mergeKeys)
    requires |all| == |types| == |p.fieldNames| + |p.t.flatten|
    ensures ResolvePlan(Reload(p, policy), mergeKeys, p.fieldNames, all, types)
         == Success(Resolution(p.Fields(), ReloadChecks(p, mergeKeys), None))
  {
    ColumnsInRange(p.t, p.fieldNames);
    ReloadPinned(p, policy, all, types);
  }

  /** The checks the first load imposed. */
  function FirstChecks(p: Plan, mergeKeys: seq<string>): seq<FieldCheck>
    requires p.Shaped() && AllNamed(p.Columns(), mergeKeys)
  {
    ChecksOver(p.t, p.fieldNames, mergeKeys, p.pin, p.overrides)
  }

  /** Whatever fails `c` fails `d`. */
  predicate Strengthens(d: FieldCheck, c: FieldCheck) {
    && d.source == c.source && d.observedIndex == c.observedIndex
    && (c.required.Some? ==> d.required.Some?)
    && (c.expected.Some? ==> d.expected.Some? && d.expected.value.0 == c.expected.value.0)
  }

  ghost predicate Strengthened(c: FieldCheck, ds: seq<FieldCheck>) {
    exists f :: 0 <= f < |ds| && Strengthens(ds[f], c)
  }

  /** The written pin strengthens every check of the first load but the merge keys', which recur as they are. */
  lemma FirstCheckStrengthened(p: Plan, c: FieldCheck)
    requires p.Shaped()
    requires c in PinnedChecks(p.pin, MatchedFields(p.pin, p.Columns())) || c in OverrideChecks(p.overrides, p.Outside())
    ensures Strengthened(c, FieldChecks(p.Fields()))
  {
    var pinned := PinnedChecks(p.pin, MatchedFields(p.pin, p.Columns()));
    if c in pinned {
      var f :| 0 <= f < |pinned| && pinned[f] == c;
      PinnedFieldIs(p, f);
      assert Strengthens(FieldChecks(p.Fields())[f], c);
    } else {
      OverrideCheckMember(c, p.overrides, p.Outside());
      var k :| 0 <= k < |p.Outside()| && IsOverrideCheck(c, p.Outside()[k], p.overrides);
      OutsideFieldIs(p, k);
      assert Strengthens(FieldChecks(p.Fields())[|p.pin| + k], c);
    }
  }

  /** Whatever the first load rejects, checks that strengthen its own reject. */
  lemma RejectionRecurs(record: SourceRecord, keys: seq<FieldCheck>, first: seq<FieldCheck>, again: seq<FieldCheck>)
    requires Schemas.Readable(record, keys + first) && Schemas.Readable(record, keys + again)
    requires forall c :: c in first ==> Strengthened(c, again)
    requires RecordViolates(record, keys + first)
    ensures RecordViolates(record, keys + again)
  {
    var i :| 0 <= i < |keys + first| && CheckFails(record, (keys + first)[i]);
    if i < |keys| {
      assert (keys + again)[i] == (keys + first)[i];
    } else {
      var c := first[i - |keys|];
      assert c in first && (keys + first)[i] == c;
      var f :| 0 <= f < |again| && Strengthens(again[f], c);
      assert (keys + again)[|keys| + f] == again[f];
    }
  }

  /** A record that passes the merge keys' checks and materializes passes the checks of the written pin. */
  lemma AcceptanceRecurs(record: SourceRecord, keys: seq<FieldCheck>, first: seq<FieldCheck>, fields: seq<PlannedField>)
    requires Schemas.Readable(record, keys + first) && Schemas.Readable(record, keys + FieldChecks(fields))
    requires !RecordViolates(record, keys + first)
    requires forall f :: 0 <= f < |fields| ==> Materializes(fields[f], record)
    ensures !RecordViolates(record, keys + FieldChecks(fields))
  {
    var checks := keys + FieldChecks(fields);
    forall i | 0 <= i < |checks| ensures !CheckFails(record, checks[i]) {
      if i < |keys| {
        assert checks[i] == (keys + first)[i];
      } else {
        assert Materializes(fields[i - |keys|], record);
        assert checks[i] == FieldChecks(fields)[i - |keys|];
      }
    }
  }

  // ----- Convergence -----

  /** The plan of a resolved input. */
  function PlanOf(input: Input): Plan
    requires input.Readable() && input.Checks().Some?
  {
    SurvivorsAreShaped(input);
    Plan(input.directive.transform, input.fieldNames, PinUsed(input.directive), input.directive.overrides,
      ObservedTypes(input.Survivors(), input.directive.transform, input.fieldNames))
  }

  predicate NamesDistinct(input: Input) {
    AllKnown(input.directive.transform, input.fieldNames)
    && Distinct(DatasetNames(Transforms.Columns(input.directive.transform, input.fieldNames)))
  }

  /** What a pinned load's success rules out: conflicts, and declared types without their override. */
  lemma PinnedLoadAgrees(directive: Directive, columns: seq<DatasetColumn>, all: seq<InferredType>, types: seq<InferredType>)
    requires directive.Pinned? && InRange(columns, |all|) && |types| == |all|
    requires ResolvePinned(directive, columns, all, types).Success?
    ensures !OverrideConflicts(directive.overrides, directive.pin) && AllNamed(columns, PinNames(directive.pin))
    ensures var matched := MatchedFields(directive.pin, columns);
      forall i :: 0 <= i < |matched| ==> !IsUndeclared(matched[i], directive.overrides)
  {
    assert UndeclaredFields(MatchedFields(directive.pin, columns), directive.overrides, all) == [];
  }

  lemma ResolvedAgrees(directive: Directive, mergeKeys: seq<string>, fieldNames: seq<string>,
    all: seq<InferredType>, types: seq<InferredType>)
    requires |all| == |types| == ShapeWidth(directive, fieldNames)
    requires ResolvePlan(directive, mergeKeys, fieldNames, all, types).Success?
    ensures AllKnown(directive.transform, fieldNames)
    ensures var columns, pin := Transforms.Columns(directive.transform, fieldNames), PinUsed(directive);
      && !OverrideConflicts(directive.overrides, pin) && AllNamed(columns, PinNames(pin))
      && var matched := MatchedFields(pin, columns);
         forall i :: 0 <= i < |matched| ==> !IsUndeclared(matched[i], directive.overrides)
  {
    if directive.Pinned? {
      var columns := Transforms.Columns(directive.transform, fieldNames);
      ColumnsInRange(directive.transform, fieldNames);
      PinnedLoadAgrees(directive, columns, all, types);
    }
  }

  lemma ResolvedPlanIsSound(input: Input)
    requires input.Readable() && input.Resolution().Success? && NamesDistinct(input)
    ensures input.Checks().Some? && PlanOf(input).Sound()
    ensures input.Resolution().value.fields == PlanOf(input).Fields()
    ensures ResolveTransform(input.directive.transform, input.fieldNames).Success?
    ensures AllNamed(PlanOf(input).Columns(), input.mergeKeys)
    ensures OverridesKnown(input.directive.overrides, DatasetNames(PlanOf(input).Columns()))
    ensures input.Checks().value == FirstChecks(PlanOf(input), input.mergeKeys)
  {
    ResolutionHasChecks(input);
    SurvivorsAreShaped(input);
    var p, d := PlanOf(input), input.directive;
    var all := ObservedTypes(input.records, p.t, p.fieldNames);
    PlanShape(d, input.mergeKeys, p.fieldNames, all, p.types);
    ResolvedAgrees(d, input.mergeKeys, p.fieldNames, all, p.types);
  }

  /** A load's input against the pin its resolution writes. */
  function ReloadInput(input: Input, policy: DriftPolicy): Input
    requires input.Readable() && input.Resolution().Success? && input.Resolution().value.pinWrite.Some?
  {
    input.(directive :=
      Pinned(input.directive.transform, input.directive.overrides, input.Resolution().value.pinWrite.value, policy))
  }

  lemma WrittenIsPinWrite(input: Input)
    requires input.Readable() && input.Resolution().Success? && input.Resolution().value.pinWrite.Some?
    ensures input.Resolution().value.pinWrite.value == PinOf(input.Resolution().value.fields)
  {
    SurvivorsAreShaped(input);
  }

  lemma WrittenPinIsValid(p: Plan)
    requires p.Sound() && p.Fields() != []
    ensures ValidPin(p.Written())
  {
    WrittenNames(p);
    WrittenTypesValid(p);
  }

  lemma ReloadDirective(input: Input, policy: DriftPolicy)
    requires input.Readable() && input.Resolution().Success? && NamesDistinct(input)
    requires input.Resolution().value.pinWrite.Some?
    ensures input.Checks().Some? && PlanOf(input).Sound()
    ensures ReloadInput(input, policy).directive == Reload(PlanOf(input), policy)
    ensures ReloadInput(input, policy).directive.Valid()
  {
    ResolvedPlanIsSound(input);
    WrittenIsPinWrite(input);
    MaterializationIsInfallible(input, 0, 0);
    WrittenPinIsValid(PlanOf(input));
  }

  lemma ReloadCheckSet(input: Input, p: Plan, policy: DriftPolicy)
    requires p.Sound() && ResolveTransform(p.t, p.fieldNames).Success?
    requires OverridesKnown(p.overrides, DatasetNames(p.Columns())) && AllNamed(p.Columns(), input.mergeKeys)
    requires input.directive == Reload(p, policy) && input.fieldNames == p.fieldNames
    ensures input.Checks() == Some(ReloadChecks(p, input.mergeKeys))
  {
    var nulls := Nulls(ShapeWidth(input.directive, input.fieldNames));
    ReloadResolves(p, policy, input.mergeKeys, nulls, nulls);
    assert ResolvePlan(input.directive, input.mergeKeys, input.fieldNames, nulls, nulls)
        == Success(Resolution(p.Fields(), ReloadChecks(p, input.mergeKeys), None));
  }

  lemma ReloadInputReads(input: Input, policy: DriftPolicy)
    requires input.Readable() && input.Resolution().Success? && NamesDistinct(input)
    requires input.Resolution().value.pinWrite.Some?
    ensures input.Checks().Some? && PlanOf(input).Sound()
    ensures AllNamed(PlanOf(input).Columns(), input.mergeKeys)
    ensures ReloadInput(input, policy).directive == Reload(PlanOf(input), policy)
    ensures ReloadInput(input, policy).Readable()
    ensures ReloadInput(input, policy).Checks() == Some(ReloadChecks(PlanOf(input), input.mergeKeys))
  {
    ResolvedPlanIsSound(input);
    ReloadDirective(input, policy);
    ReloadCheckSet(ReloadInput(input, policy), PlanOf(input), policy);
  }

  lemma ReloadKeepsSurvivors(input: Input, policy: DriftPolicy)
    requires input.Readable() && input.Resolution().Success? && NamesDistinct(input)
    requires input.Resolution().value.pinWrite.Some?
    ensures input.Checks().Some? && ReloadInput(input, policy).Readable() && ReloadInput(input, policy).Checks().Some?
    ensures ReloadInput(input, policy).Survivors() == input.Survivors()
    ensures RejectsAlike(input.records, input.Checks().value, ReloadInput(input, policy).Checks().value)
  {
    ResolvedPlanIsSound(input);
    ReloadInputReads(input, policy);
    var p, reload := PlanOf(input), ReloadInput(input, policy);
    var first, again := input.Checks().value, reload.Checks().value;
    ChecksReadable(input);
    ChecksReadable(reload);
    var keys := MergeKeyChecks(input.mergeKeys, p.Columns());
    var rest := PinnedChecks(p.pin, MatchedFields(p.pin, p.Columns())) + OverrideChecks(p.overrides, p.Outside());
    assert first == keys + rest && again == keys + FieldChecks(p.Fields());
    forall c | c in rest ensures Strengthened(c, FieldChecks(p.Fields())) {
      FirstCheckStrengthened(p, c);
    }
    forall i | 0 <= i < |input.records|
      ensures RecordViolates(input.records[i], first) <==> RecordViolates(input.records[i], again)
    {
      if RecordViolates(input.records[i], first) {
        RejectionRecurs(input.records[i], keys, rest, FieldChecks(p.Fields()));
      } else {
        AcceptedRecordMaterializes(input, i);
        AcceptanceRecurs(input.records[i], keys, rest, p.Fields());
      }
    }
    SurvivorsAgree(input.records, first, again);
  }

  /** Two check sets reject exactly the same of these records. */
  ghost predicate RejectsAlike(records: seq<SourceRecord>, a: seq<FieldCheck>, b: seq<FieldCheck>) {
    && AllReadable(records, a) && AllReadable(records, b)
    && forall i :: 0 <= i < |records| ==> (RecordViolates(records[i], a) <==> RecordViolates(records[i], b))
  }

  lemma {:induction false} PassingRecordSurvives(records: seq<SourceRecord>, checks: seq<FieldCheck>, i: nat)
    requires AllReadable(records, checks) && i < |records| && !RecordViolates(records[i], checks)
    ensures records[i] in Survivors(records, checks)
  {
    if i < |records| - 1 {
      PassingRecordSurvives(records[..|records| - 1], checks, i);
    }
  }

  lemma AcceptedRecordMaterializes(input: Input, i: nat)
    requires input.Readable() && input.Resolution().Success? && input.Checks().Some? && i < |input.records|
    requires AllReadable(input.records, input.Checks().value)
    requires !RecordViolates(input.records[i], input.Checks().value)
    ensures forall f :: 0 <= f < |input.Resolution().value.fields| ==>
      Materializes(input.Resolution().value.fields[f], input.records[i])
  {
    PassingRecordSurvives(input.records, input.Checks().value, i);
    var k :| 0 <= k < |input.Survivors()| && input.Survivors()[k] == input.records[i];
    forall f | 0 <= f < |input.Resolution().value.fields|
      ensures Materializes(input.Resolution().value.fields[f], input.records[i])
    {
      MaterializationIsInfallible(input, f, k);
    }
  }

  /**
   * A load that wrote or extended a pin converges. The pin reads back exactly when dataset names are
   * distinct; the same source loaded against it then has no conflict or drift, rejects exactly the same
   * records, materializes the same fields under either drift policy, and writes no new pin.
   */
  lemma PinConverges(input: Input, policy: DriftPolicy)
    requires input.Readable() && input.Resolution().Success? && input.Resolution().value.pinWrite.Some?
    ensures var pin := input.Resolution().value.pinWrite.value;
      && (ReadablePin(FileOf(pin)) <==> NamesDistinct(input))
      && (ReadablePin(FileOf(pin)) ==> PinFrom(FileOf(pin)) == pin)
    ensures NamesDistinct(input) ==>
      var reload := ReloadInput(input, policy);
      && input.Checks().Some? && reload.Readable() && reload.Checks().Some?
      && RejectsAlike(input.records, input.Checks().value, reload.Checks().value)
      && reload.Survivors() == input.Survivors()
      && reload.Resolution().Success?
      && reload.Resolution().value.fields == input.Resolution().value.fields
      && reload.Resolution().value.pinWrite.None?
  {
    WrittenIsPinWrite(input);
    if NamesDistinct(input) {
      ResolvedPlanIsSound(input);
      var p := PlanOf(input);
      WrittenNames(p);
      WrittenTypesValid(p);
      MaterializationIsInfallible(input, 0, 0);
      WrittenPinReadsBack(p.Written());
      ReloadKeepsSurvivors(input, policy);
      ReloadResolution(input, policy);
    } else {
      SharedNameIsPinned(input);
    }
  }

  lemma ReloadResolution(input: Input, policy: DriftPolicy)
    requires input.Readable() && input.Resolution().Success? && NamesDistinct(input)
    requires input.Resolution().value.pinWrite.Some?
    ensures ReloadInput(input, policy).Readable() && ReloadInput(input, policy).Resolution().Success?
    ensures ReloadInput(input, policy).Resolution().value.fields == input.Resolution().value.fields
    ensures ReloadInput(input, policy).Resolution().value.pinWrite.None?
  {
    ResolvedPlanIsSound(input);
    ReloadInputReads(input, policy);
    var p, reload := PlanOf(input), ReloadInput(input, policy);
    SurvivorsAreShaped(reload);
    ReloadResolves(p, policy, input.mergeKeys,
      ObservedTypes(input.records, p.t, p.fieldNames), ObservedTypes(reload.Survivors(), p.t, p.fieldNames));
  }

  /** Only an inferring load gets past two dataset columns of one name, and its pin names every column. */
  lemma SharedNamesAreInferred(input: Input)
    requires input.Readable() && input.Resolution().Success? && input.Resolution().value.pinWrite.Some?
    requires !NamesDistinct(input)
    ensures AllKnown(input.directive.transform, input.fieldNames)
    ensures PinNames(input.Resolution().value.pinWrite.value)
         == DatasetNames(Transforms.Columns(input.directive.transform, input.fieldNames))
  {
    SurvivorsAreShaped(input);
    assert input.directive.PinInferred?;
  }

  /** Two dataset columns of one name make a bootstrapped pin name it twice. */
  lemma SharedNameIsPinned(input: Input)
    requires input.Readable() && input.Resolution().Success? && input.Resolution().value.pinWrite.Some?
    requires !NamesDistinct(input)
    ensures !ReadablePin(FileOf(input.Resolution().value.pinWrite.value))
  {
    var columns := Transforms.Columns(input.directive.transform, input.fieldNames);
    var pin := input.Resolution().value.pinWrite.value;
    SharedNamesAreInferred(input);
    var i, j :| 0 <= i < j < |columns| && DatasetNames(columns)[i] == DatasetNames(columns)[j];
    SharedNameIsRefused(pin, i, j);
  }

  lemma SharedNameIsRefused(pin: seq<PinnedField>, i: nat, j: nat)
    requires i < j < |pin| && pin[i].name == pin[j].name
    ensures !ReadablePin(FileOf(pin))
  {
    var names := FieldFileNames(FileOf(pin).fields.value);
    assert names[i] == names[j];
  }

  /** Under JSONL dataset names are always distinct, so its pins always read back. */
  lemma JsonlNamesDistinct(input: Input)
    requires input.ValidJson() && input.Resolution().Success?
    ensures NamesDistinct(input)
  {
    SurvivorsAreShaped(input);
    Agreement.DatasetNamesDistinct(input.directive.transform, input.fieldNames);
  }

  /** A CSV header that repeats a name loads once and pins, and its pin is refused from then on. */
  lemma RepeatedHeaderPinIsRefused()
    ensures var input := Input(PinInferred(NO_TRANSFORM, []), [], ["a", "a"], []);
      && input.Valid() && input.Resolution().Success? && input.Resolution().value.pinWrite.Some?
      && !ReadablePin(FileOf(input.Resolution().value.pinWrite.value))
  {
    var input := Input(PinInferred(NO_TRANSFORM, []), [], ["a", "a"], []);
    var columns := Transforms.Columns(NO_TRANSFORM, ["a", "a"]);
    assert NO_TRANSFORM.Valid() by {
      assert FinalNames([], []) == [];
    }
    assert columns[0] == FieldColumn(NO_TRANSFORM, "a", 0) && columns[1] == FieldColumn(NO_TRANSFORM, "a", 1);
    assert NO_TRANSFORM.DatasetName("a") == "a";
    assert ResolveTransform(NO_TRANSFORM, ["a", "a"]).Success?;
    assert input.Resolution().Success?;
    assert DatasetNames(columns)[0] == DatasetNames(columns)[1];
    SharedNameIsPinned(input);
  }
}
