/** A whole input and its resolution: the reference both formats' streaming observers must reach. */
module Inputs {
  import opened Wrappers
  import opened Sequences
  import opened FieldTypes
  import opened Records
  import opened Transforms
  import opened Schemas
  import opened Observations
  import opened Observers
  import Agreement

  /** What pass 1 sees: the definition, the source's field names, and every record that parsed. */
  datatype Input = Input(
    directive: Directive, mergeKeys: seq<string>, fieldNames: seq<string>, records: seq<SourceRecord>)
  {
    ghost predicate Valid() {
      && directive.Valid() && fieldNames != []
      && Shaped(records, directive.transform, fieldNames)
      && (forall i :: 0 <= i < |records| ==> records[i].TextRecord?)
    }

    ghost predicate ValidJson() {
      && directive.Valid() && fieldNames != [] && Distinct(fieldNames)
      && Shaped(records, directive.transform, fieldNames)
      && WellFormedJson(records)
    }

    ghost predicate Readable() {
      Valid() || ValidJson()
    }

    /** The checks the shape alone decides; None when the shape verdict fails. */
    function Checks(): Option<seq<FieldCheck>> {
      var nulls := Nulls(ShapeWidth(directive, fieldNames));
      match ResolvePlan(directive, mergeKeys, fieldNames, nulls, nulls)
      case Success(resolution) => Some(resolution.checks)
      case Failure(_) => None
    }

    /** The records that pass every check. */
    function Survivors(): seq<SourceRecord>
      requires Readable() && Checks().Some?
    {
      ChecksReadable(this);
      Observations.Survivors(records, Checks().value)
    }

    /** The decision over the whole input: only the surviving records shape inferred types. */
    function Resolution(): Result<Resolution, SchemaFailure>
      requires Readable()
    {
      var survivors := if Checks().Some? then Survivors() else [];
      SurvivorsAreShaped(this);
      ResolvePlan(directive, mergeKeys, fieldNames,
        ObservedTypes(records, directive.transform, fieldNames),
        ObservedTypes(survivors, directive.transform, fieldNames))
    }

    /** The records a JSONL pass lets survive, judged by the directive-derived checks. */
    function StreamedSurvivors(): seq<SourceRecord>
      requires ValidJson()
    {
      DerivedReadable(directive, mergeKeys, records);
      Observations.Survivors(records, DirectiveChecks(directive, mergeKeys))
    }

    /** What a JSONL pass resolves at end of input. */
    function StreamedResolution(): Result<Resolution, SchemaFailure>
      requires ValidJson()
    {
      DerivedReadable(directive, mergeKeys, records);
      SurvivorsShaped(records, DirectiveChecks(directive, mergeKeys), directive.transform, fieldNames);
      ResolvePlan(directive, mergeKeys, fieldNames,
        ObservedTypes(records, directive.transform, fieldNames),
        ObservedTypes(StreamedSurvivors(), directive.transform, fieldNames))
    }
  }

  lemma DerivedReadable(directive: Directive, mergeKeys: seq<string>, records: seq<SourceRecord>)
    requires directive.Valid() && WellFormedJson(records)
    ensures AllReadable(records, DirectiveChecks(directive, mergeKeys))
  {
    forall i | 0 <= i < |records| ensures Schemas.Readable(records[i], DirectiveChecks(directive, mergeKeys)) {
      Agreement.DerivedChecksReadable(directive, mergeKeys, records[i]);
    }
  }

  lemma ChecksReadable(input: Input)
    requires input.Readable() && input.Checks().Some?
    ensures AllReadable(input.records, input.Checks().value)
  {
    var nulls := Nulls(ShapeWidth(input.directive, input.fieldNames));
    ResolvedChecksReadable(input.records, input.directive, input.mergeKeys, input.fieldNames, nulls, nulls);
  }

  lemma SurvivorsAreShaped(input: Input)
    requires input.Readable()
    ensures input.Checks().Some? ==> Shaped(input.Survivors(), input.directive.transform, input.fieldNames)
    ensures Shaped([], input.directive.transform, input.fieldNames)
  {
    if input.Checks().Some? {
      ChecksReadable(input);
      SurvivorsShaped(input.records, input.Checks().value, input.directive.transform, input.fieldNames);
    }
  }

  /** Resolution succeeds exactly when the shape verdict does, and resolves exactly its checks. */
  lemma ResolutionHasChecks(input: Input)
    requires input.Readable()
    ensures input.Resolution().Success? <==> input.Checks().Some?
    ensures input.Resolution().Success? ==> input.Resolution().value.checks == input.Checks().value
  {
    var nulls := Nulls(ShapeWidth(input.directive, input.fieldNames));
    var survivors := if input.Checks().Some? then input.Survivors() else [];
    SurvivorsAreShaped(input);
    ResolutionIgnoresTypes(input.directive, input.mergeKeys, input.fieldNames, nulls, nulls,
      ObservedTypes(input.records, input.directive.transform, input.fieldNames),
      ObservedTypes(survivors, input.directive.transform, input.fieldNames));
  }

  /** Both succeed with one resolution, or both fail with one code. */
  predicate SameDecision(a: Result<Resolution, SchemaFailure>, b: Result<Resolution, SchemaFailure>) {
    if a.Success? then a == b else b.Failure? && a.error.code == b.error.code
  }

  /**
   * The JSONL observer reaches the reference decision although it judged every record before the shape
   * was known: both succeed or both fail with one code, and on success the survivors are the same.
   */
  lemma JsonPassReachesReference(input: Input)
    requires input.ValidJson()
    ensures SameDecision(input.StreamedResolution(), input.Resolution())
    ensures input.Checks().Some? ==> input.StreamedSurvivors() == input.Survivors()
  {
    ResolutionHasChecks(input);
    StreamedIsShaped(input);
    if input.Checks().Some? {
      StreamedSurvivorsAgree(input);
    } else {
      StreamedFailureAgrees(input);
    }
  }

  lemma StreamedFailureAgrees(input: Input)
    requires input.ValidJson() && input.Checks().None?
    ensures SameDecision(input.StreamedResolution(), input.Resolution())
  {
    var t, names := input.directive.transform, input.fieldNames;
    StreamedIsShaped(input);
    SurvivorsAreShaped(input);
    var all := ObservedTypes(input.records, t, names);
    var nulls := Nulls(ShapeWidth(input.directive, names));
    ResolutionIgnoresTypes(input.directive, input.mergeKeys, names,
      all, ObservedTypes(input.StreamedSurvivors(), t, names), nulls, nulls);
    ResolutionIgnoresTypes(input.directive, input.mergeKeys, names, all, ObservedTypes([], t, names), nulls, nulls);
  }

  lemma StreamedIsShaped(input: Input)
    requires input.ValidJson()
    ensures AllReadable(input.records, DirectiveChecks(input.directive, input.mergeKeys))
    ensures Shaped(input.StreamedSurvivors(), input.directive.transform, input.fieldNames)
  {
    var checks := DirectiveChecks(input.directive, input.mergeKeys);
    DerivedReadable(input.directive, input.mergeKeys, input.records);
    SurvivorsShaped(input.records, checks, input.directive.transform, input.fieldNames);
  }

  lemma StreamedSurvivorsAgree(input: Input)
    requires input.ValidJson() && input.Checks().Some?
    ensures AllReadable(input.records, DirectiveChecks(input.directive, input.mergeKeys))
    ensures input.StreamedSurvivors() == input.Survivors()
  {
    var checks := DirectiveChecks(input.directive, input.mergeKeys);
    var nulls := Nulls(ShapeWidth(input.directive, input.fieldNames));
    ChecksReadable(input);
    StreamedIsShaped(input);
    forall i | 0 <= i < |input.records|
      ensures RecordViolates(input.records[i], checks) <==> RecordViolates(input.records[i], input.Checks().value)
    {
      Agreement.DirectiveChecksAgree(
        input.directive, input.mergeKeys, input.fieldNames, nulls, nulls, input.records[i]);
    }
    SurvivorsAgree(input.records, checks, input.Checks().value);
  }
}
