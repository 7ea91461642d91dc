/** The streaming pass-1 observers: they fold one record at a time and resolve the plan at end of input. */
module Observers {
  import opened Wrappers
  import opened Sequences
  import opened FieldTypes
  import opened Records
  import opened Transforms
  import opened Schemas
  import opened Observations
  import Agreement

  lemma ColumnTypeSnoc(records: seq<SourceRecord>, record: SourceRecord, source: SourceAddress, index: nat)
    requires CanReadAll(records, source, index) && CanRead(record, source, index)
    ensures CanReadAll(records + [record], source, index)
    ensures ColumnType(records + [record], source, index)
         == ColumnType(records, source, index).Merge(Observe(ReadField(record, source, index)))
  {
    assert (records + [record])[..|records|] == records;
  }

  function MergedCell(observed: InferredType, record: SourceRecord, i: nat): InferredType
    requires record.TextRecord? && i < |record.cells|
  {
    observed.Merge(if record.cells[i].None? then NullType else InferText(record.cells[i].value))
  }

  /** Merges one CSV record's cells into the per-column observed types. */
  method MergeTextObservations(types: seq<InferredType>, record: SourceRecord) returns (merged: seq<InferredType>)
    requires record.TextRecord? && |types| == |record.cells|
    ensures |merged| == |types|
    ensures forall i :: 0 <= i < |types| ==> merged[i] == MergedCell(types[i], record, i)
  {
    merged := types;
    for i := 0 to |record.cells|
      invariant |merged| == |types|
      invariant forall k :: i <= k < |types| ==> merged[k] == types[k]
      invariant forall k :: 0 <= k < i ==> merged[k] == MergedCell(types[k], record, k)
    {
      if record.cells[i].Some? {
        merged := merged[i := merged[i].Merge(InferText(record.cells[i].value))];
      }
    }
  }

  lemma TextTypesSnoc(
    records: seq<SourceRecord>, record: SourceRecord, t: SchemaTransform, fieldNames: seq<string>, merged: seq<InferredType>)
    requires t.flatten == [] && Shaped(records, t, fieldNames)
    requires record.TextRecord? && record.Valid(|fieldNames|) && |merged| == |fieldNames|
    requires forall i :: 0 <= i < |merged| ==> merged[i] == MergedCell(ObservedTypes(records, t, fieldNames)[i], record, i)
    ensures TextTypesOf(merged, records + [record], t, fieldNames)
  {
    forall i | 0 <= i < |merged| ensures merged[i] == ObservedTypes(records + [record], t, fieldNames)[i] {
      ColumnTypeSnoc(records, record, SlotSource(t, fieldNames, i), i);
    }
  }

  function Nulls(width: nat): (r: seq<InferredType>)
    ensures |r| == width && forall i :: 0 <= i < width ==> r[i] == NullType
  {
    seq(width, _ => NullType)
  }

  lemma NothingObserved(t: SchemaTransform, fieldNames: seq<string>)
    requires Shaped([], t, fieldNames)
    ensures ObservedTypes([], t, fieldNames) == Nulls(|fieldNames| + |t.flatten|)
  {
  }

  /** The types are the column types of the CSV records. */
  ghost predicate TextTypesOf(
    types: seq<InferredType>, records: seq<SourceRecord>, t: SchemaTransform, fieldNames: seq<string>)
  {
    Shaped(records, t, fieldNames) && types == ObservedTypes(records, t, fieldNames)
  }

  /** Under a healthy verdict the survivors are those violating no check; under a failed one, none. */
  ghost predicate SurvivedUnder(
    checks: Option<seq<FieldCheck>>, observed: seq<SourceRecord>, survived: seq<SourceRecord>)
  {
    match checks
    case None => survived == []
    case Some(cs) => AllReadable(observed, cs) && survived == Survivors(observed, cs)
  }

  /** The pass-1 observer of a CSV source, whose header already fixes the shape verdict. */
  class TextObserver {
    const directive: Directive
    const mergeKeys: seq<string>
    const fieldNames: seq<string>
    var checks: Option<seq<FieldCheck>>
    var allTypes: seq<InferredType>
    var survivorTypes: seq<InferredType>
    /** Every record observed so far, and those judged to survive. */
    ghost var observed: seq<SourceRecord>
    ghost var survived: seq<SourceRecord>

    ghost predicate Valid()
      reads this
    {
      && directive.transform.flatten == []
      && checks == ProbedChecks(directive, mergeKeys, fieldNames)
      && TextTypesOf(allTypes, observed, directive.transform, fieldNames)
      && TextTypesOf(survivorTypes, survived, directive.transform, fieldNames)
      && SurvivedUnder(checks, observed, survived)
    }

    constructor (directive: Directive, mergeKeys: seq<string>, fieldNames: seq<string>)
      requires directive.transform.flatten == []
      ensures Valid() && observed == []
      ensures this.directive == directive && this.mergeKeys == mergeKeys && this.fieldNames == fieldNames
    {
      this.directive, this.mergeKeys, this.fieldNames := directive, mergeKeys, fieldNames;
      checks := ProbedChecks(directive, mergeKeys, fieldNames);
      allTypes, survivorTypes := Nulls(|fieldNames|), Nulls(|fieldNames|);
      observed, survived := [], [];
      NothingObserved(directive.transform, fieldNames);
    }

    /** Folds one record in; under a healthy verdict the record is judged, and rejected or survived. */
    method Observe(record: SourceRecord) returns (rejection: Option<Rejection>)
      requires Valid() && record.TextRecord? && record.Valid(|fieldNames|)
      modifies this
      ensures Valid() && observed == old(observed) + [record] && checks == old(checks)
      ensures checks.None? ==> rejection.None?
      ensures checks.Some? ==> Readable(record, checks.value) && rejection == ValidateRecord(record, checks.value)
    {
      allTypes := MergeTextObservations(allTypes, record);
      TextTypesSnoc(observed, record, directive.transform, fieldNames, allTypes);
      if checks.None? {
        observed := observed + [record];
        return None;
      }
      ProbeReadable(directive, mergeKeys, fieldNames, observed + [record]);
      SurvivorsSnoc(observed, record, checks.value);
      RejectedIffViolates(record, checks.value);
      rejection := ValidateRecord(record, checks.value);
      observed := observed + [record];
      if rejection.None? {
        survivorTypes := MergeTextObservations(survivorTypes, record);
        TextTypesSnoc(survived, record, directive.transform, fieldNames, survivorTypes);
        survived := survived + [record];
      }
    }

    /** Resolves the whole-input decision from the real observations. */
    method Finish() returns (r: Result<Resolution, SchemaFailure>)
      requires Valid()
      ensures r == ResolvePlan(directive, mergeKeys, fieldNames,
                               ObservedTypes(observed, directive.transform, fieldNames),
                               ObservedTypes(survived, directive.transform, fieldNames))
      ensures r.Success? <==> checks.Some?
      ensures r.Success? ==> r.value.checks == checks.value
    {
      var nulls := Nulls(|fieldNames|);
      ResolutionIgnoresTypes(directive, mergeKeys, fieldNames, nulls, nulls, allTypes, survivorTypes);
      r := ResolvePlan(directive, mergeKeys, fieldNames, allTypes, survivorTypes);
    }
  }

  /** The probe of the CSV header: the checks a resolution over placeholder types yields, if it succeeds. */
  function ProbedChecks(directive: Directive, mergeKeys: seq<string>, fieldNames: seq<string>): Option<seq<FieldCheck>>
    requires directive.transform.flatten == []
  {
    match ResolvePlan(directive, mergeKeys, fieldNames, Nulls(|fieldNames|), Nulls(|fieldNames|))
    case Success(resolution) => Some(resolution.checks)
    case Failure(_) => None
  }

  lemma ProbeReadable(directive: Directive, mergeKeys: seq<string>, fieldNames: seq<string>, records: seq<SourceRecord>)
    requires directive.transform.flatten == [] && Shaped(records, directive.transform, fieldNames)
    requires ProbedChecks(directive, mergeKeys, fieldNames).Some?
    ensures AllReadable(records, ProbedChecks(directive, mergeKeys, fieldNames).value)
  {
    ResolvedChecksReadable(records, directive, mergeKeys, fieldNames, Nulls(|fieldNames|), Nulls(|fieldNames|));
  }

  // ----- JSONL -----

  /** The observed type of a top-level key: NullType until a record carries a value for it. */
  function TypeOfKey(types: map<string, InferredType>, key: string): InferredType {
    if key in types then types[key] else NullType
  }

  ghost predicate WellFormedJson(records: seq<SourceRecord>) {
    forall i :: 0 <= i < |records| ==> records[i].JsonRecord? && records[i].Valid(0)
  }

  /** The maps and vectors hold exactly the column types of the records. */
  ghost predicate JsonTypesOf(types: map<string, InferredType>, flattenTypes: seq<InferredType>,
    records: seq<SourceRecord>, t: SchemaTransform)
  {
    && WellFormedJson(records) && (forall p :: 0 <= p < |t.flatten| ==> t.flatten[p].segments != [])
    && (forall key {:trigger TypeOfKey(types, key)} :: TypeOfKey(types, key) == ColumnType(records, Field(key), 0))
    && |flattenTypes| == |t.flatten|
    && forall p {:trigger flattenTypes[p]} :: 0 <= p < |t.flatten| ==>
         flattenTypes[p] == ColumnType(records, Path(t.flatten[p].segments), 0)
  }

  /** What one record's key contributes: its value's type, or nothing when the key is absent. */
  function KeyContribution(record: SourceRecord, keys: seq<string>, key: string): InferredType
    requires record.JsonRecord? && forall k :: k in keys ==> k in record.fields
  {
    if key in keys then InferJson(record.fields[key]) else NullType
  }

  /** Merges a record's top-level values into the observed types, key by key. */
  method MergeKeys(types: map<string, InferredType>, record: SourceRecord) returns (merged: map<string, InferredType>)
    requires record.JsonRecord? && record.Valid(0)
    ensures forall key :: TypeOfKey(merged, key) == TypeOfKey(types, key).Merge(KeyContribution(record, record.keys, key))
  {
    merged := types;
    for i := 0 to |record.keys|
      invariant forall key ::
        TypeOfKey(merged, key) == TypeOfKey(types, key).Merge(KeyContribution(record, record.keys[..i], key))
    {
      var key := record.keys[i];
      TakeOneMore(record.keys, i);
      assert key !in record.keys[..i];
      merged := merged[key := TypeOfKey(merged, key).Merge(InferJson(record.fields[key]))];
    }
    assert record.keys[..|record.keys|] == record.keys;
  }

  /** Merges the values at the flatten paths into the observed types, path by path. */
  method MergePaths(types: seq<InferredType>, flatten: seq<FlattenEntry>, record: SourceRecord)
    returns (merged: seq<InferredType>)
    requires record.JsonRecord? && |types| == |flatten|
    requires forall p :: 0 <= p < |flatten| ==> flatten[p].segments != []
    ensures |merged| == |types|
    ensures forall p :: 0 <= p < |types| ==>
      merged[p] == types[p].Merge(Records.Observe(ReadField(record, Path(flatten[p].segments), 0)))
  {
    merged := types;
    for p := 0 to |flatten|
      invariant |merged| == |types|
      invariant forall k :: p <= k < |types| ==> merged[k] == types[k]
      invariant forall k :: 0 <= k < p ==>
        merged[k] == types[k].Merge(Records.Observe(ReadField(record, Path(flatten[k].segments), 0)))
    {
      var value := JsonPathValue(flatten[p].segments, record.fields);
      if value.Some? {
        merged := merged[p := merged[p].Merge(InferJson(value.value))];
      }
    }
  }

  method MergeJsonObservations(types: map<string, InferredType>, flattenTypes: seq<InferredType>, t: SchemaTransform,
    record: SourceRecord, ghost records: seq<SourceRecord>)
    returns (types': map<string, InferredType>, flattenTypes': seq<InferredType>)
    requires record.JsonRecord? && record.Valid(0) && JsonTypesOf(types, flattenTypes, records, t)
    ensures JsonTypesOf(types', flattenTypes', records + [record], t)
  {
    types' := MergeKeys(types, record);
    flattenTypes' := MergePaths(flattenTypes, t.flatten, record);
    forall key ensures TypeOfKey(types', key) == ColumnType(records + [record], Field(key), 0) {
      ColumnTypeSnoc(records, record, Field(key), 0);
    }
    forall p | 0 <= p < |t.flatten|
      ensures flattenTypes'[p] == ColumnType(records + [record], Path(t.flatten[p].segments), 0)
    {
      ColumnTypeSnoc(records, record, Path(t.flatten[p].segments), 0);
    }
  }

  /** The maps and vectors hold the column types of the records the checks let survive. */
  ghost predicate JsonSurvivorsOf(types: map<string, InferredType>, flattenTypes: seq<InferredType>,
    records: seq<SourceRecord>, checks: seq<FieldCheck>, t: SchemaTransform)
  {
    AllReadable(records, checks) && JsonTypesOf(types, flattenTypes, Survivors(records, checks), t)
  }

  /** Judges one record; only a surviving one feeds the survivors' types. */
  method JudgeJson(types: map<string, InferredType>, flattenTypes: seq<InferredType>, directive: Directive,
    mergeKeys: seq<string>, record: SourceRecord, ghost records: seq<SourceRecord>)
    returns (rejected: bool, types': map<string, InferredType>, flattenTypes': seq<InferredType>)
    requires directive.Valid() && record.JsonRecord? && record.Valid(0)
    requires JsonSurvivorsOf(types, flattenTypes, records, DirectiveChecks(directive, mergeKeys), directive.transform)
    ensures Readable(record, DirectiveChecks(directive, mergeKeys))
    ensures rejected <==> RecordViolates(record, DirectiveChecks(directive, mergeKeys))
    ensures JsonSurvivorsOf(
      types', flattenTypes', records + [record], DirectiveChecks(directive, mergeKeys), directive.transform)
  {
    var checks := DirectiveChecks(directive, mergeKeys);
    DerivedReadableSnoc(directive, mergeKeys, records, record);
    SurvivorsSnoc(records, record, checks);
    rejected, types', flattenTypes' := RecordViolates(record, checks), types, flattenTypes;
    if !rejected {
      types', flattenTypes' :=
        MergeJsonObservations(types, flattenTypes, directive.transform, record, Survivors(records, checks));
    } else {
      assert Survivors(records, checks) + [] == Survivors(records, checks);
    }
  }

  /** The pass-1 observer of a JSONL source, whose shape is only known once every key has been seen. */
  /** Before the first record, nothing is observed in either set. */
  lemma NoRecordsYet(directive: Directive, mergeKeys: seq<string>)
    requires directive.Valid()
    ensures JsonTypesOf(map[], Nulls(|directive.transform.flatten|), [], directive.transform)
    ensures JsonSurvivorsOf(
      map[], Nulls(|directive.transform.flatten|), [], DirectiveChecks(directive, mergeKeys), directive.transform)
  {
    assert forall p :: 0 <= p < |directive.transform.flatten| ==> directive.transform.flatten[p].Valid();
  }

  class JsonObserver {
    const directive: Directive
    const mergeKeys: seq<string>
    const checks: seq<FieldCheck>
    var allTypes: map<string, InferredType>
    var survivorTypes: map<string, InferredType>
    var flattenAll: seq<InferredType>
    var flattenSurvivors: seq<InferredType>
    ghost var observed: seq<SourceRecord>

    ghost predicate Valid()
      reads this
    {
      && directive.Valid() && checks == DirectiveChecks(directive, mergeKeys)
      && Holds()
    }

    /** The maps and vectors are those of the records observed, and of the survivors among them. */
    ghost predicate Holds()
      reads this
    {
      && JsonTypesOf(allTypes, flattenAll, observed, directive.transform)
      && JsonSurvivorsOf(survivorTypes, flattenSurvivors, observed, checks, directive.transform)
    }

    constructor (directive: Directive, mergeKeys: seq<string>)
      requires directive.Valid()
      ensures Valid() && observed == []
      ensures this.directive == directive && this.mergeKeys == mergeKeys
    {
      this.directive, this.mergeKeys := directive, mergeKeys;
      checks := DirectiveChecks(directive, mergeKeys);
      allTypes, survivorTypes := map[], map[];
      flattenAll, flattenSurvivors := Nulls(|directive.transform.flatten|), Nulls(|directive.transform.flatten|);
      observed := [];
      NoRecordsYet(directive, mergeKeys);
    }

    /** Folds one record in and judges it by the directive-derived checks. */
    method Observe(record: SourceRecord) returns (rejected: bool)
      requires Valid() && record.JsonRecord? && record.Valid(0)
      modifies this
      ensures Valid() && observed == old(observed) + [record]
      ensures Readable(record, checks) && (rejected <==> RecordViolates(record, checks))
    {
      var all, flat := MergeJsonObservations(allTypes, flattenAll, directive.transform, record, observed);
      var kept, flatKept;
      rejected, kept, flatKept := JudgeJson(survivorTypes, flattenSurvivors, directive, mergeKeys, record, observed);
      allTypes, flattenAll, survivorTypes, flattenSurvivors := all, flat, kept, flatKept;
      observed := observed + [record];
    }

    /** Resolves the whole-input decision against the key union. */
    method Finish(fieldNames: seq<string>) returns (r: Result<Resolution, SchemaFailure>)
      requires Valid()
      ensures AllReadable(observed, checks)
      ensures Shaped(observed, directive.transform, fieldNames)
      ensures Shaped(Survivors(observed, checks), directive.transform, fieldNames)
      ensures r == ResolvePlan(directive, mergeKeys, fieldNames,
                               ObservedTypes(observed, directive.transform, fieldNames),
                               ObservedTypes(Survivors(observed, checks), directive.transform, fieldNames))
    {
      JsonSurvivors(observed, checks);
      var all := WidenToShape(allTypes, flattenAll, directive.transform, fieldNames, observed);
      var survivors := WidenToShape(
        survivorTypes, flattenSurvivors, directive.transform, fieldNames, Survivors(observed, checks));
      r := ResolvePlan(directive, mergeKeys, fieldNames, all, survivors);
    }
  }

  lemma JsonSurvivors(records: seq<SourceRecord>, checks: seq<FieldCheck>)
    requires AllReadable(records, checks)
    requires WellFormedJson(records)
    ensures WellFormedJson(Survivors(records, checks))
  {
    forall i | 0 <= i < |Survivors(records, checks)| ensures Survivors(records, checks)[i] in records {
      SurvivorPasses(records, checks, i);
    }
  }

  lemma DerivedReadableSnoc(
    directive: Directive, mergeKeys: seq<string>, records: seq<SourceRecord>, record: SourceRecord)
    requires directive.Valid() && record.JsonRecord? && AllReadable(records, DirectiveChecks(directive, mergeKeys))
    ensures AllReadable(records + [record], DirectiveChecks(directive, mergeKeys))
  {
    Agreement.DerivedChecksReadable(directive, mergeKeys, record);
  }

  /** Lays the observed key and path types out over the shape: the key union first, then the paths. */
  method WidenToShape(types: map<string, InferredType>, flattenTypes: seq<InferredType>, t: SchemaTransform,
    fieldNames: seq<string>, ghost records: seq<SourceRecord>) returns (shape: seq<InferredType>)
    requires JsonTypesOf(types, flattenTypes, records, t)
    ensures Shaped(records, t, fieldNames) && shape == ObservedTypes(records, t, fieldNames)
  {
    var width := |fieldNames| + |flattenTypes|;
    shape := Nulls(width);
    for i := 0 to |fieldNames|
      invariant |shape| == width
      invariant forall k :: 0 <= k < i ==> shape[k] == TypeOfKey(types, fieldNames[k])
      invariant forall k :: i <= k < width ==> shape[k] == NullType
    {
      if fieldNames[i] in types {
        shape := shape[i := types[fieldNames[i]]];
      }
    }
    for p := 0 to |flattenTypes|
      invariant |shape| == width
      invariant forall k :: 0 <= k < |fieldNames| ==> shape[k] == TypeOfKey(types, fieldNames[k])
      invariant forall k :: 0 <= k < p ==> shape[|fieldNames| + k] == flattenTypes[k]
    {
      shape := shape[|fieldNames| + p := flattenTypes[p]];
    }
    forall i | 0 <= i < width ensures shape[i] == ObservedTypes(records, t, fieldNames)[i] {
      JsonColumnIgnoresIndex(records, SlotSource(t, fieldNames, i), 0, i);
      if i >= |fieldNames| {
        assert shape[|fieldNames| + (i - |fieldNames|)] == flattenTypes[i - |fieldNames|];
      }
    }
  }
}
