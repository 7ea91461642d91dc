/**
 * The structural transform: flatten, then select, then a simultaneous rename. Validating its
 * configuration, and resolving it against the observed source names into dataset columns.
 */
module Transforms {
  import opened Wrappers
  import opened Failures
  import opened Sequences
  import opened Records

  // ----- Configuration -----

  /** The transform block as written. The two maps keep declaration order; their keys are unique. */
  datatype TransformConfig = TransformConfig(
    flatten: Option<seq<(string, string)>>,
    select: Option<seq<string>>,
    rename: Option<seq<(string, string)>>)
  {
    ghost predicate UniqueKeys() {
      && (flatten.Some? ==> Distinct(Firsts(flatten.value)))
      && (rename.Some? ==> Distinct(Firsts(rename.value)))
    }
  }

  function Firsts(entries: seq<(string, string)>): (r: seq<string>)
    ensures |r| == |entries| && forall i :: 0 <= i < |r| ==> r[i] == entries[i].0
  {
    seq(|entries|, i requires 0 <= i < |entries| => entries[i].0)
  }

  function Seconds(entries: seq<(string, string)>): (r: seq<string>)
    ensures |r| == |entries| && forall i :: 0 <= i < |r| ==> r[i] == entries[i].1
  {
    seq(|entries|, i requires 0 <= i < |entries| => entries[i].1)
  }

  /** Reads a YAML map in declaration order, refusing a repeated key. */
  method ReadOrderedUniqueMap(written: seq<(string, string)>) returns (r: Option<seq<(string, string)>>)
    ensures r.Some? <==> Distinct(Firsts(written))
    ensures r.Some? ==> r.value == written
  {
    var seen: set<string> := {};
    ghost var keys := Firsts(written);
    for i := 0 to |written|
      invariant seen == Elements(keys[..i]) && Distinct(keys[..i])
    {
      DistinctSnoc(keys, i);
      if written[i].0 in seen {
        assert keys[..i + 1] == keys[..i + 1][..i + 1];
        NotDistinctPrefix(keys, i + 1);
        return None;
      }
      seen := seen + {written[i].0};
      TakeOneMore(keys, i);
    }
    assert keys[..|written|] == keys;
    return Some(written);
  }

  lemma NotDistinctPrefix<T>(s: seq<T>, n: nat)
    requires n <= |s| && !Distinct(s[..n])
    ensures !Distinct(s)
  {
    var i, j :| 0 <= i < j < n && s[..n][i] == s[..n][j];
    assert s[i] == s[j];
  }

  function SplitDots(path: string): (r: seq<string>)
    ensures |r| >= 1
  {
    if path == "" then [""]
    else
      var rest := SplitDots(path[1..]);
      if path[0] == '.' then [""] + rest else [[path[0]] + rest[0]] + rest[1..]
  }

  function JoinDots(segments: seq<string>): string
    requires |segments| >= 1
  {
    if |segments| == 1 then segments[0] else segments[0] + "." + JoinDots(segments[1..])
  }

  /** Segments hold no dots, so rejoining them reproduces the declared path exactly. */
  lemma {:induction false} JoinUndoesSplit(path: string)
    ensures JoinDots(SplitDots(path)) == path
    ensures forall i :: 0 <= i < |SplitDots(path)| ==> '.' !in SplitDots(path)[i]
  {
    if path != "" {
      JoinUndoesSplit(path[1..]);
      var rest := SplitDots(path[1..]);
      var split := SplitDots(path);
      assert split[1..] == if path[0] == '.' then rest else rest[1..];
      if path[0] != '.' && |rest| > 1 {
        assert split[0] + "." + JoinDots(split[1..]) == [path[0]] + (rest[0] + "." + JoinDots(rest[1..]));
      }
      assert [path[0]] + path[1..] == path;
    }
  }

  predicate IsSpace(c: char) {
    || '\t' <= c <= '\r' || c == ' ' || c == '\U{85}' || c == '\U{A0}' || c == '\U{1680}'
    || '\U{2000}' <= c <= '\U{200A}' || c in {'\U{2028}', '\U{2029}', '\U{202F}', '\U{205F}', '\U{3000}'}
  }

  /** Whether a name is empty once trimmed. */
  predicate IsBlank(name: string) {
    forall i :: 0 <= i < |name| ==> IsSpace(name[i])
  }

  // ----- The validated transform -----

  datatype FlattenEntry = FlattenEntry(segments: seq<string>, output: string) {
    predicate Valid() {
      |segments| >= 2 && "" !in segments && !IsBlank(output)
    }
  }

  /** The rename target of a name, or the name itself when nothing renames it. */
  function FinalName(rename: seq<(string, string)>, name: string): string {
    match IndexOf(Firsts(rename), name)
    case None => name
    case Some(i) => rename[i].1
  }

  function FinalNames(rename: seq<(string, string)>, names: seq<string>): (r: seq<string>)
    ensures |r| == |names| && forall i :: 0 <= i < |r| ==> r[i] == FinalName(rename, names[i])
  {
    seq(|names|, i requires 0 <= i < |names| => FinalName(rename, names[i]))
  }

  datatype SchemaTransform = SchemaTransform(
    flatten: seq<FlattenEntry>,
    select: Option<seq<string>>,
    rename: seq<(string, string)>)
  {
    function Outputs(): (r: seq<string>)
      ensures |r| == |flatten| && forall i :: 0 <= i < |r| ==> r[i] == flatten[i].output
    {
      seq(|flatten|, i requires 0 <= i < |flatten| => flatten[i].output)
    }

    function DatasetName(name: string): string {
      FinalName(rename, name)
    }

    ghost predicate FlattenRules() {
      (forall i :: 0 <= i < |flatten| ==> flatten[i].Valid()) && Distinct(Outputs())
    }

    ghost predicate SelectRules() {
      select.Some? ==> select.value != [] && Distinct(select.value)
    }

    /** Every rename changes its name, to a usable target no other rename has, of a selected field. */
    ghost predicate RenameRules() {
      && Distinct(Firsts(rename))
      && Distinct(Seconds(rename))
      && (forall i :: 0 <= i < |rename| ==> RenameAllowed(rename[i]))
    }

    predicate RenameAllowed(entry: (string, string)) {
      !IsBlank(entry.1) && entry.0 != entry.1 && (select.Some? ==> entry.0 in select.value)
    }

    /** The dataset names the configuration alone decides are pairwise distinct. */
    ghost predicate NameRules() {
      match select
      case Some(names) =>
        (forall i :: 0 <= i < |flatten| ==> flatten[i].output in names) && Distinct(FinalNames(rename, names))
      case None =>
        && Distinct(FinalNames(rename, Outputs()))
        && forall i, j :: 0 <= i < |flatten| && 0 <= j < |rename| && rename[j].0 !in Outputs() ==>
             rename[j].1 != DatasetName(Outputs()[i])
    }

    ghost predicate Valid() {
      FlattenRules() && SelectRules() && RenameRules() && NameRules()
    }
  }

  const NO_TRANSFORM := SchemaTransform([], Option.None, [])

  function FlattenEntries(entries: seq<(string, string)>): (r: seq<FlattenEntry>)
    ensures |r| == |entries|
    ensures forall i :: 0 <= i < |r| ==> r[i] == FlattenEntry(SplitDots(entries[i].0), entries[i].1)
  {
    seq(|entries|, i requires 0 <= i < |entries| => FlattenEntry(SplitDots(entries[i].0), entries[i].1))
  }

  function Resolved(config: TransformConfig): SchemaTransform {
    SchemaTransform(FlattenEntries(config.flatten.OrElse([])), config.select, config.rename.OrElse([]))
  }

  /** Which transform blocks a load definition may carry. */
  ghost predicate ValidConfig(config: TransformConfig, sourceFormat: string) {
    && (config.flatten.Some? || config.select.Some? || config.rename.Some?)
    && (config.flatten.Some? ==> sourceFormat != "csv" && config.flatten.value != [])
    && (config.rename.Some? ==> config.rename.value != [])
    && Resolved(config).Valid()
  }

  method CheckFlatten(entries: seq<(string, string)>) returns (ok: bool)
    ensures ok <==> SchemaTransform(FlattenEntries(entries), Option.None, []).FlattenRules()
  {
    ghost var t := SchemaTransform(FlattenEntries(entries), Option.None, []);
    var seen: set<string> := {};
    for i := 0 to |entries|
      invariant forall k :: 0 <= k < i ==> t.flatten[k].Valid()
      invariant seen == Elements(t.Outputs()[..i]) && Distinct(t.Outputs()[..i])
    {
      var segments := SplitDots(entries[i].0);
      if |segments| < 2 || "" in segments || IsBlank(entries[i].1) {
        assert !t.flatten[i].Valid();
        return false;
      }
      DistinctSnoc(t.Outputs(), i);
      if entries[i].1 in seen {
        NotDistinctPrefix(t.Outputs(), i + 1);
        return false;
      }
      seen := seen + {entries[i].1};
      TakeOneMore(t.Outputs(), i);
    }
    assert t.Outputs()[..|entries|] == t.Outputs();
    return true;
  }

  /** Whether the names are pairwise distinct and none is taken already. */
  method CheckFresh(names: seq<string>, taken: set<string>) returns (ok: bool)
    ensures ok <==> Distinct(names) && forall i :: 0 <= i < |names| ==> names[i] !in taken
  {
    var seen := taken;
    for i := 0 to |names|
      invariant seen == taken + Elements(names[..i]) && Distinct(names[..i])
      invariant forall k :: 0 <= k < i ==> names[k] !in taken
    {
      DistinctSnoc(names, i);
      if names[i] in seen {
        if names[i] !in taken {
          NotDistinctPrefix(names, i + 1);
        }
        return false;
      }
      seen := seen + {names[i]};
      TakeOneMore(names, i);
    }
    assert names[..|names|] == names;
    return true;
  }

  method CheckDistinct(names: seq<string>) returns (ok: bool)
    ensures ok <==> Distinct(names)
  {
    ok := CheckFresh(names, {});
  }

  method CheckRename(t: SchemaTransform) returns (ok: bool)
    requires Distinct(Firsts(t.rename))
    ensures ok <==> t.RenameRules()
  {
    ghost var targets := Seconds(t.rename);
    var seen: set<string> := {};
    for i := 0 to |t.rename|
      invariant forall k :: 0 <= k < i ==> t.RenameAllowed(t.rename[k])
      invariant seen == Elements(targets[..i]) && Distinct(targets[..i])
    {
      var (source, target) := t.rename[i];
      if IsBlank(target) || source == target {
        assert !t.RenameAllowed(t.rename[i]);
        return false;
      }
      DistinctSnoc(targets, i);
      if target in seen {
        NotDistinctPrefix(targets, i + 1);
        return false;
      }
      seen := seen + {target};
      TakeOneMore(targets, i);
      if t.select.Some? && source !in t.select.value {
        assert !t.RenameAllowed(t.rename[i]);
        return false;
      }
    }
    assert targets[..|targets|] == targets;
    return true;
  }

  /** The targets of renames of observed names. */
  function ObservedTargets(t: SchemaTransform): set<string> {
    set j | 0 <= j < |t.rename| && t.rename[j].0 !in t.Outputs() :: t.rename[j].1
  }

  predicate MissesTargets(t: SchemaTransform, names: seq<string>) {
    forall i :: 0 <= i < |names| ==> names[i] !in ObservedTargets(t)
  }

  lemma NameRulesWithoutSelect(t: SchemaTransform)
    requires t.select.None?
    ensures var finals := FinalNames(t.rename, t.Outputs());
      t.NameRules() <==> Distinct(finals) && MissesTargets(t, finals)
  {
    var finals := FinalNames(t.rename, t.Outputs());
    if MissesTargets(t, finals) {
      forall i, j | 0 <= i < |t.flatten| && 0 <= j < |t.rename| && t.rename[j].0 !in t.Outputs()
        ensures t.rename[j].1 != finals[i]
      {
        assert t.rename[j].1 in ObservedTargets(t);
      }
    } else {
      var i :| 0 <= i < |finals| && finals[i] in ObservedTargets(t);
      var j :| 0 <= j < |t.rename| && t.rename[j].0 !in t.Outputs() && t.rename[j].1 == finals[i];
      assert t.rename[j].1 == t.DatasetName(t.Outputs()[i]);
    }
  }

  /** Without a select list: the flatten outputs' final names must miss each other and every other target. */
  method CheckConfigNames(t: SchemaTransform) returns (ok: bool)
    requires t.select.None?
    ensures ok <==> t.NameRules()
  {
    NameRulesWithoutSelect(t);
    ok := CheckFresh(FinalNames(t.rename, t.Outputs()), ObservedTargets(t));
  }

  /** Validates a transform block before any data is read; every refusal carries the same code. */
  method FromConfig(config: TransformConfig, sourceFormat: string) returns (r: Result<SchemaTransform, Code>)
    requires config.UniqueKeys()
    ensures r == if ValidConfig(config, sourceFormat) then Success(Resolved(config)) else Failure(InvalidTransformConfig)
  {
    if config.flatten.None? && config.select.None? && config.rename.None? {
      return Failure(InvalidTransformConfig);
    }
    var t := Resolved(config);
    if config.flatten.Some? {
      if sourceFormat == "csv" || config.flatten.value == [] {
        return Failure(InvalidTransformConfig);
      }
      var flattenOk := CheckFlatten(config.flatten.value);
      assert flattenOk <==> t.FlattenRules() by {
        assert t.Outputs() == SchemaTransform(t.flatten, Option.None, []).Outputs();
      }
      if !flattenOk {
        return Failure(InvalidTransformConfig);
      }
    }
    if config.select.Some? {
      var selectOk := CheckDistinct(config.select.value);
      if config.select.value == [] || !selectOk {
        return Failure(InvalidTransformConfig);
      }
    }
    if config.rename.Some? && config.rename.value == [] {
      return Failure(InvalidTransformConfig);
    }
    var renameOk := CheckRename(t);
    if !renameOk {
      return Failure(InvalidTransformConfig);
    }
    if config.select.Some? {
      for i := 0 to |t.flatten|
        invariant forall k :: 0 <= k < i ==> t.flatten[k].output in config.select.value
      {
        if t.flatten[i].output !in config.select.value {
          return Failure(InvalidTransformConfig);
        }
      }
      var namesOk := CheckDistinct(FinalNames(t.rename, config.select.value));
      if !namesOk {
        return Failure(InvalidTransformConfig);
      }
    } else if t.flatten != [] {
      var namesOk := CheckConfigNames(t);
      if !namesOk {
        return Failure(InvalidTransformConfig);
      }
    }
    return Success(t);
  }

  // ----- Resolution against the observed shape -----

  /** One dataset field: the name it is written under, the address it reads, its observed-type slot. */
  datatype DatasetColumn = DatasetColumn(datasetName: string, source: SourceAddress, observedIndex: nat) {
    predicate NameChanged() {
      match source
      case Field(name) => datasetName != name
      case Path(_) => true
    }
  }

  function DatasetNames(columns: seq<DatasetColumn>): (r: seq<string>)
    ensures |r| == |columns| && forall i :: 0 <= i < |r| ==> r[i] == columns[i].datasetName
  {
    seq(|columns|, i requires 0 <= i < |columns| => columns[i].datasetName)
  }

  /** Every selected, renamed or flattened name exists in the observed shape, flatten outputs included. */
  predicate AllKnown(t: SchemaTransform, observed: seq<string>) {
    && (forall i :: 0 <= i < |t.select.OrElse([])| ==> Known(t, observed, t.select.OrElse([])[i]))
    && (forall i :: 0 <= i < |t.rename| ==> Known(t, observed, t.rename[i].0))
    && (forall i :: 0 <= i < |t.flatten| ==> t.flatten[i].segments != [] && t.flatten[i].segments[0] in observed)
  }

  predicate Known(t: SchemaTransform, observed: seq<string>, name: string) {
    name in observed || name in t.Outputs()
  }

  predicate ShadowsObserved(t: SchemaTransform, observed: seq<string>) {
    exists i :: 0 <= i < |t.flatten| && t.flatten[i].output in observed
  }

  function FlattenColumn(t: SchemaTransform, observed: seq<string>, position: nat): DatasetColumn
    requires position < |t.flatten|
  {
    DatasetColumn(t.DatasetName(t.flatten[position].output), Path(t.flatten[position].segments), |observed| + position)
  }

  function FieldColumn(t: SchemaTransform, name: string, index: nat): DatasetColumn {
    DatasetColumn(t.DatasetName(name), Field(name), index)
  }

  function SelectedColumn(t: SchemaTransform, observed: seq<string>, name: string): DatasetColumn
    requires Known(t, observed, name)
  {
    match IndexOf(t.Outputs(), name)
    case Some(position) => FlattenColumn(t, observed, position)
    case None => FieldColumn(t, name, IndexOf(observed, name).value)
  }

  function ColumnCount(t: SchemaTransform, observed: seq<string>): nat {
    if t.select.Some? then |t.select.value| else |observed| + |t.flatten|
  }

  function ColumnAt(t: SchemaTransform, observed: seq<string>, i: nat): DatasetColumn
    requires AllKnown(t, observed) && i < ColumnCount(t, observed)
  {
    match t.select
    case Some(names) => assert Known(t, observed, t.select.OrElse([])[i]); SelectedColumn(t, observed, names[i])
    case None =>
      if i < |observed| then FieldColumn(t, observed[i], i) else FlattenColumn(t, observed, i - |observed|)
  }

  /** The dataset columns: the selection in its own order, else every observed field and then the outputs. */
  function Columns(t: SchemaTransform, observed: seq<string>): (columns: seq<DatasetColumn>)
    requires AllKnown(t, observed)
    ensures |columns| == ColumnCount(t, observed)
    ensures forall i :: 0 <= i < |columns| ==> columns[i] == ColumnAt(t, observed, i)
  {
    seq(ColumnCount(t, observed), i requires 0 <= i < ColumnCount(t, observed) => ColumnAt(t, observed, i))
  }

  /** Two columns share a dataset name, and the transform changed the first one's name to it. */
  predicate CollidingPair(columns: seq<DatasetColumn>, i: nat, j: nat)
    requires i < |columns| && j < |columns|
  {
    i != j && columns[i].datasetName == columns[j].datasetName && columns[i].NameChanged()
  }

  predicate Collides(columns: seq<DatasetColumn>) {
    exists i: nat, j: nat :: i < |columns| && j < |columns| && CollidingPair(columns, i, j)
  }

  function ResolveTransform(t: SchemaTransform, observed: seq<string>): Result<seq<DatasetColumn>, Code> {
    if !AllKnown(t, observed) then Failure(UnknownTransformField)
    else if ShadowsObserved(t, observed) then Failure(TransformNameCollision)
    else if Collides(Columns(t, observed)) then Failure(TransformNameCollision)
    else Success(Columns(t, observed))
  }
}
