/**
 * Pass 1 over a JSONL source judges records by checks derived from the directive alone, before the
 * dataset shape is known. Whenever resolution then succeeds, those checks judge every record exactly
 * as the resolved checks do.
 */
module Agreement {
  import opened Wrappers
  import opened Failures
  import opened Sequences
  import opened FieldTypes
  import opened Records
  import opened Transforms
  import opened Schemas

  // ----- Names before the rename -----

  /** The post-flatten name column `i` carries before renaming. */
  function SourceName(t: SchemaTransform, observed: seq<string>, i: nat): string
    requires i < ColumnCount(t, observed)
  {
    if t.select.Some? then t.select.value[i]
    else if i < |observed| then observed[i]
    else t.Outputs()[i - |observed|]
  }

  ghost predicate Resolves(t: SchemaTransform, observed: seq<string>) {
    t.Valid() && Distinct(observed) && ResolveTransform(t, observed).Success?
  }

  lemma ColumnFromSourceName(t: SchemaTransform, observed: seq<string>, i: nat)
    requires Resolves(t, observed) && i < ColumnCount(t, observed)
    ensures var column, name := ColumnAt(t, observed, i), SourceName(t, observed, i);
      && column.datasetName == t.DatasetName(name)
      && (name !in t.Outputs() ==> column.source == Field(name))
      && (name in t.Outputs() ==> column.source == Path(t.flatten[IndexOf(t.Outputs(), name).value].segments))
  {
    if t.select.Some? {
      assert Known(t, observed, t.select.OrElse([])[i]);
    } else if i < |observed| {
      assert observed[i] !in t.Outputs() by {
        assert forall p :: 0 <= p < |t.flatten| ==> t.flatten[p].output !in observed;
      }
    } else {
      IndexOfDistinct(t.Outputs(), i - |observed|);
    }
  }

  lemma SourceNamesDistinct(t: SchemaTransform, observed: seq<string>, i: nat, j: nat)
    requires Resolves(t, observed) && i < j < ColumnCount(t, observed)
    ensures SourceName(t, observed, i) != SourceName(t, observed, j)
  {
    if t.select.None? && i < |observed| <= j {
      assert t.flatten[j - |observed|].output == t.Outputs()[j - |observed|];
    }
  }

  /** On a resolved transform no two dataset columns share a name. */
  lemma DatasetNamesDistinct(t: SchemaTransform, observed: seq<string>)
    requires Resolves(t, observed)
    ensures Distinct(DatasetNames(Columns(t, observed)))
  {
    var columns := Columns(t, observed);
    forall i, j | 0 <= i < j < |columns| ensures columns[i].datasetName != columns[j].datasetName {
      ColumnFromSourceName(t, observed, i);
      ColumnFromSourceName(t, observed, j);
      SourceNamesDistinct(t, observed, i, j);
      assert !CollidingPair(columns, i, j) && !CollidingPair(columns, j, i);
    }
  }

  /** Under a selection, every rename key and every flatten output is selected. */
  lemma KnownNameIsSelected(t: SchemaTransform, name: string)
    requires t.Valid() && t.select.Some? && (name in Firsts(t.rename) || name in t.Outputs())
    ensures name in t.select.value
  {
    if name in Firsts(t.rename) {
      var r :| 0 <= r < |t.rename| && t.rename[r].0 == name;
      assert t.RenameAllowed(t.rename[r]);
    } else {
      var p :| 0 <= p < |t.flatten| && t.Outputs()[p] == name;
      assert t.flatten[p].output in t.select.value;
    }
  }

  /** Every rename key and every flatten output is the source name of some column. */
  lemma KnownNameHasColumn(t: SchemaTransform, observed: seq<string>, name: string) returns (i: nat)
    requires Resolves(t, observed)
    requires name in Firsts(t.rename) || name in t.Outputs()
    ensures i < ColumnCount(t, observed) && SourceName(t, observed, i) == name
  {
    if t.select.Some? {
      KnownNameIsSelected(t, name);
      i :| 0 <= i < |t.select.value| && t.select.value[i] == name;
    } else if name in observed {
      i :| 0 <= i < |observed| && observed[i] == name;
    } else {
      assert name in t.Outputs() by {
        if name in Firsts(t.rename) {
          var r :| 0 <= r < |t.rename| && t.rename[r].0 == name;
          assert Known(t, observed, t.rename[r].0);
        }
      }
      var p :| 0 <= p < |t.flatten| && t.Outputs()[p] == name;
      i := |observed| + p;
    }
  }

  lemma SameNameSameColumn(t: SchemaTransform, observed: seq<string>, i: nat, j: nat)
    requires Resolves(t, observed) && i < ColumnCount(t, observed) && j < ColumnCount(t, observed)
    requires ColumnAt(t, observed, i).datasetName == ColumnAt(t, observed, j).datasetName
    ensures i == j
  {
    DatasetNamesDistinct(t, observed);
    var names := DatasetNames(Columns(t, observed));
    assert names[i] == names[j];
  }

  /** The address derived from the configuration alone is the address the resolved column reads. */
  lemma SourceAddressAgrees(t: SchemaTransform, observed: seq<string>, i: nat)
    requires Resolves(t, observed) && i < ColumnCount(t, observed)
    ensures JsonSourceAddress(t, ColumnAt(t, observed, i).datasetName) == ColumnAt(t, observed, i).source
  {
    var column, name := ColumnAt(t, observed, i), SourceName(t, observed, i);
    ColumnFromSourceName(t, observed, i);
    var finals := FinalNames(t.rename, t.Outputs());
    if name in t.Outputs() {
      assert finals[IndexOf(t.Outputs(), name).value] == column.datasetName;
    }
    if name in Firsts(t.rename) {
      assert Seconds(t.rename)[IndexOf(Firsts(t.rename), name).value] == column.datasetName;
    }
    match IndexOf(finals, column.datasetName)
    case Some(p) =>
      var j := KnownNameHasColumn(t, observed, t.Outputs()[p]);
      ColumnFromSourceName(t, observed, j);
      SameNameSameColumn(t, observed, i, j);
      IndexOfDistinct(t.Outputs(), p);
    case None =>
      match IndexOf(Seconds(t.rename), column.datasetName)
      case Some(r) =>
        var key := t.rename[r].0;
        assert Firsts(t.rename)[r] == key;
        IndexOfDistinct(Firsts(t.rename), r);
        var j := KnownNameHasColumn(t, observed, key);
        ColumnFromSourceName(t, observed, j);
        SameNameSameColumn(t, observed, i, j);
      case None =>
  }

  // ----- The two check sets -----

  /** Two checks judge every JSON record alike: same address, same expected type, same null rule. */
  predicate JudgesAlike(c: FieldCheck, d: FieldCheck) {
    && c.source == d.source
    && c.required.Some? == d.required.Some?
    && c.expected.Some? == d.expected.Some?
    && (c.expected.Some? ==> c.expected.value.0 == d.expected.value.0)
  }

  predicate Member(d: FieldCheck, ds: seq<FieldCheck>) {
    d in ds
  }

  /** Every check of `ds` has one in `cs` that judges alike. */
  ghost predicate Covers(cs: seq<FieldCheck>, ds: seq<FieldCheck>) {
    forall d {:trigger Member(d, ds)} :: Member(d, ds) ==> exists c :: c in cs && JudgesAlike(c, d)
  }

  lemma CoveredViolation(record: SourceRecord, cs: seq<FieldCheck>, ds: seq<FieldCheck>)
    requires record.JsonRecord? && Readable(record, cs) && Readable(record, ds)
    requires Covers(cs, ds) && RecordViolates(record, ds)
    ensures RecordViolates(record, cs)
  {
    var i :| 0 <= i < |ds| && CheckFails(record, ds[i]);
    assert Member(ds[i], ds);
    var c :| c in cs && JudgesAlike(c, ds[i]);
    var k :| 0 <= k < |cs| && cs[k] == c;
    assert CheckFails(record, cs[k]);
  }

  lemma NamedColumnSource(t: SchemaTransform, observed: seq<string>, name: string)
    requires Resolves(t, observed) && name in DatasetNames(Columns(t, observed))
    ensures JsonSourceAddress(t, name) == ColumnNamed(Columns(t, observed), name).source
    ensures JsonSourceAddress(t, name).Valid()
  {
    var columns := Columns(t, observed);
    var i := IndexOf(DatasetNames(columns), name).value;
    SourceAddressAgrees(t, observed, i);
    ColumnFromSourceName(t, observed, i);
    var source := SourceName(t, observed, i);
    if source in t.Outputs() {
      assert t.flatten[IndexOf(t.Outputs(), source).value].Valid();
    }
  }

  lemma MergeKeyChecksAgree(t: SchemaTransform, observed: seq<string>, mergeKeys: seq<string>)
    requires Resolves(t, observed) && AllNamed(Columns(t, observed), mergeKeys)
    ensures |KeyChecks(t, mergeKeys)| == |MergeKeyChecks(mergeKeys, Columns(t, observed))|
    ensures forall i :: 0 <= i < |mergeKeys| ==>
      JudgesAlike(KeyChecks(t, mergeKeys)[i], MergeKeyChecks(mergeKeys, Columns(t, observed))[i])
  {
    forall i | 0 <= i < |mergeKeys|
      ensures JudgesAlike(KeyChecks(t, mergeKeys)[i], MergeKeyChecks(mergeKeys, Columns(t, observed))[i])
    {
      NamedColumnSource(t, observed, mergeKeys[i]);
    }
  }

  lemma PinChecksAgree(t: SchemaTransform, observed: seq<string>, pin: seq<PinnedField>)
    requires Resolves(t, observed) && AllNamed(Columns(t, observed), PinNames(pin))
    ensures var resolved := PinnedChecks(pin, MatchedFields(pin, Columns(t, observed)));
      |PinChecks(t, pin)| == |resolved|
      && forall i :: 0 <= i < |pin| ==> JudgesAlike(PinChecks(t, pin)[i], resolved[i])
  {
    var resolved := PinnedChecks(pin, MatchedFields(pin, Columns(t, observed)));
    forall i | 0 <= i < |pin| ensures JudgesAlike(PinChecks(t, pin)[i], resolved[i]) {
      NamedColumnSource(t, observed, PinNames(pin)[i]);
    }
  }

  /** Overrides outside the pin are exactly the overrides of the columns the pin does not name. */
  lemma OverrideChecksAgree(t: SchemaTransform, observed: seq<string>, overrides: seq<FieldOverride>, pinned: seq<string>)
    requires Resolves(t, observed) && Distinct(OverrideNames(overrides))
    requires OverridesKnown(overrides, DatasetNames(Columns(t, observed)))
    ensures var added := AddedColumns(Columns(t, observed), pinned);
      Covers(OutsidePinChecks(t, overrides, pinned), OverrideChecks(overrides, added))
      && Covers(OverrideChecks(overrides, added), OutsidePinChecks(t, overrides, pinned))
  {
    var columns := Columns(t, observed);
    var added := AddedColumns(columns, pinned);
    var derived, resolved := OutsidePinChecks(t, overrides, pinned), OverrideChecks(overrides, added);
    forall d | Member(d, resolved) ensures exists c :: c in derived && JudgesAlike(c, d) {
      OverrideCheckMember(d, overrides, added);
      var i :| 0 <= i < |added| && IsOverrideCheck(d, added[i], overrides);
      assert added[i] in added;
      var k :| 0 <= k < |columns| && columns[k] == added[i];
      SourceAddressAgrees(t, observed, k);
      var o := GetOverride(overrides, added[i].datasetName).value;
      var c := OverrideCheck(o, o.name, JsonSourceAddress(t, o.name), 0);
      var n :| 0 <= n < |overrides| && overrides[n] == o;
      assert IsOutsidePinCheck(c, t, overrides[n], pinned);
      OutsidePinCheckMember(c, t, overrides, pinned);
      assert c in derived && JudgesAlike(c, d);
    }
    forall d | Member(d, derived) ensures exists c :: c in resolved && JudgesAlike(c, d) {
      OutsidePinCheckMember(d, t, overrides, pinned);
      var k :| 0 <= k < |overrides| && IsOutsidePinCheck(d, t, overrides[k], pinned);
      var o := overrides[k];
      GetOverrideAt(overrides, k);
      assert overrides[k].name in DatasetNames(columns);
      var column := ColumnNamed(columns, o.name);
      NamedColumnSource(t, observed, o.name);
      assert column in added;
      var i :| 0 <= i < |added| && added[i] == column;
      var c := OverrideCheck(o, column.datasetName, column.source, column.observedIndex);
      assert IsOverrideCheck(c, added[i], overrides);
      OverrideCheckMember(c, overrides, added);
      assert c in resolved && JudgesAlike(c, d);
    }
  }

  lemma AlikeElementwise(cs: seq<FieldCheck>, ds: seq<FieldCheck>)
    requires |cs| == |ds| && forall i :: 0 <= i < |cs| ==> JudgesAlike(cs[i], ds[i])
    ensures Covers(cs, ds) && Covers(ds, cs)
  {
    forall d | Member(d, ds) ensures exists c :: c in cs && JudgesAlike(c, d) {
      var i :| 0 <= i < |ds| && ds[i] == d;
      assert cs[i] in cs;
    }
    forall c | Member(c, cs) ensures exists d :: d in ds && JudgesAlike(d, c) {
      var i :| 0 <= i < |cs| && cs[i] == c;
      assert ds[i] in ds && JudgesAlike(ds[i], c);
    }
  }

  lemma CoversConcat(a: seq<FieldCheck>, b: seq<FieldCheck>, c: seq<FieldCheck>, d: seq<FieldCheck>)
    requires Covers(a, c) && Covers(b, d)
    ensures Covers(a + b, c + d)
  {
    forall y | Member(y, c + d) ensures exists x :: x in a + b && JudgesAlike(x, y) {
      if Member(y, c) {
        var x :| x in a && JudgesAlike(x, y);
        assert x in a + b;
      } else {
        assert Member(y, d);
        var x :| x in b && JudgesAlike(x, y);
        assert x in a + b;
      }
    }
  }

  /** The directive-derived checks and the resolved checks cover each other. */
  lemma CheckSetsAgree(t: SchemaTransform, observed: seq<string>, mergeKeys: seq<string>,
    pin: seq<PinnedField>, overrides: seq<FieldOverride>)
    requires Resolves(t, observed) && Distinct(OverrideNames(overrides))
    requires AllNamed(Columns(t, observed), mergeKeys) && AllNamed(Columns(t, observed), PinNames(pin))
    requires OverridesKnown(overrides, DatasetNames(Columns(t, observed)))
    ensures var derived := KeyChecks(t, mergeKeys) + (PinChecks(t, pin) + OutsidePinChecks(t, overrides, PinNames(pin)));
      var columns := Columns(t, observed);
      var resolved := MergeKeyChecks(mergeKeys, columns) + (PinnedChecks(pin, MatchedFields(pin, columns))
        + OverrideChecks(overrides, OutsideColumns(columns, pin)));
      Covers(derived, resolved) && Covers(resolved, derived)
  {
    var columns := Columns(t, observed);
    var keys, resolvedKeys := KeyChecks(t, mergeKeys), MergeKeyChecks(mergeKeys, columns);
    MergeKeyChecksAgree(t, observed, mergeKeys);
    AlikeElementwise(keys, resolvedKeys);
    var pins, resolvedPins := PinChecks(t, pin), PinnedChecks(pin, MatchedFields(pin, columns));
    PinChecksAgree(t, observed, pin);
    AlikeElementwise(pins, resolvedPins);
    var others := OutsidePinChecks(t, overrides, PinNames(pin));
    var resolvedOthers := OverrideChecks(overrides, OutsideColumns(columns, pin));
    OverrideChecksAgree(t, observed, overrides, PinNames(pin));
    CoversConcat(pins, others, resolvedPins, resolvedOthers);
    CoversConcat(keys, pins + others, resolvedKeys, resolvedPins + resolvedOthers);
    CoversConcat(resolvedPins, resolvedOthers, pins, others);
    CoversConcat(resolvedKeys, resolvedPins + resolvedOthers, keys, pins + others);
  }

  lemma CoveringChecksJudgeAlike(record: SourceRecord, cs: seq<FieldCheck>, ds: seq<FieldCheck>)
    requires record.JsonRecord? && Readable(record, cs) && Covers(cs, ds) && Covers(ds, cs)
    ensures Readable(record, ds)
    ensures RecordViolates(record, cs) <==> RecordViolates(record, ds)
  {
    forall i | 0 <= i < |ds| ensures ds[i].source.Valid() {
      assert Member(ds[i], ds);
      var c :| c in cs && JudgesAlike(c, ds[i]);
      var k :| 0 <= k < |cs| && cs[k] == c;
      assert CanRead(record, cs[k].source, cs[k].observedIndex);
    }
    if RecordViolates(record, ds) {
      CoveredViolation(record, cs, ds);
    }
    if RecordViolates(record, cs) {
      CoveredViolation(record, ds, cs);
    }
  }

  /** A valid transform spells every address with at least one segment. */
  lemma DerivedAddressValid(t: SchemaTransform, name: string)
    requires t.Valid()
    ensures JsonSourceAddress(t, name).Valid()
  {
    match IndexOf(FinalNames(t.rename, t.Outputs()), name)
    case Some(p) => assert t.flatten[p].Valid();
    case None =>
  }

  lemma DerivedChecksReadable(directive: Directive, mergeKeys: seq<string>, record: SourceRecord)
    requires directive.Valid() && record.JsonRecord?
    ensures Readable(record, DirectiveChecks(directive, mergeKeys))
  {
    var t := directive.transform;
    var checks := DirectiveChecks(directive, mergeKeys);
    var pin := PinUsed(directive);
    forall i | 0 <= i < |checks| ensures checks[i].source.Valid() {
      DerivedAddressValid(t, checks[i].name);
      assert checks[i] in checks;
      if checks[i] in OutsidePinChecks(t, directive.overrides, PinNames(pin)) {
        OutsidePinCheckMember(checks[i], t, directive.overrides, PinNames(pin));
      }
    }
  }

  lemma AgreeOnResolved(
    directive: Directive, mergeKeys: seq<string>, fieldNames: seq<string>, resolved: seq<FieldCheck>, record: SourceRecord)
    requires directive.Valid() && record.JsonRecord?
    requires Resolves(directive.transform, fieldNames)
    requires var columns, pin := Columns(directive.transform, fieldNames), PinUsed(directive);
      && AllNamed(columns, mergeKeys) && AllNamed(columns, PinNames(pin))
      && OverridesKnown(directive.overrides, DatasetNames(columns))
      && resolved == MergeKeyChecks(mergeKeys, columns)
            + (PinnedChecks(pin, MatchedFields(pin, columns))
               + OverrideChecks(directive.overrides, OutsideColumns(columns, pin)))
    ensures var derived := DirectiveChecks(directive, mergeKeys);
      && Readable(record, derived) && Readable(record, resolved)
      && (RecordViolates(record, derived) <==> RecordViolates(record, resolved))
  {
    var derived := DirectiveChecks(directive, mergeKeys);
    CheckSetsAgree(directive.transform, fieldNames, mergeKeys, PinUsed(directive), directive.overrides);
    DerivedChecksReadable(directive, mergeKeys, record);
    CoveringChecksJudgeAlike(record, derived, resolved);
  }

  /** Pass 1 of a JSONL load judges every record exactly as the resolved plan does. */
  lemma DirectiveChecksAgree(
    directive: Directive, mergeKeys: seq<string>, fieldNames: seq<string>,
    allTypes: seq<InferredType>, survivorTypes: seq<InferredType>, record: SourceRecord)
    requires directive.Valid() && Distinct(fieldNames) && record.JsonRecord?
    requires |allTypes| == |survivorTypes| == ShapeWidth(directive, fieldNames)
    requires ResolvePlan(directive, mergeKeys, fieldNames, allTypes, survivorTypes).Success?
    ensures var derived, resolved := DirectiveChecks(directive, mergeKeys),
        ResolvePlan(directive, mergeKeys, fieldNames, allTypes, survivorTypes).value.checks;
      && Readable(record, derived) && Readable(record, resolved)
      && (RecordViolates(record, derived) <==> RecordViolates(record, resolved))
  {
    PlanShape(directive, mergeKeys, fieldNames, allTypes, survivorTypes);
    AgreeOnResolved(directive, mergeKeys, fieldNames,
      ResolvePlan(directive, mergeKeys, fieldNames, allTypes, survivorTypes).value.checks, record);
  }
}
