/** The loops that resolve a transform, proved against what resolution means. */
module TransformResolution {
  import opened Wrappers
  import opened Failures
  import opened Sequences
  import opened Records
  import opened Transforms

  /** First-occurrence index of every name. */
  method IndexNames(names: seq<string>) returns (indexes: map<string, nat>)
    ensures forall name :: name in indexes <==> name in names
    ensures forall name :: name in indexes ==> IndexOf(names, name) == Some(indexes[name])
  {
    indexes := map[];
    for i := 0 to |names|
      invariant forall name :: name in indexes <==> name in names[..i]
      invariant forall name :: name in indexes ==> indexes[name] < i && names[indexes[name]] == name
      invariant forall name, k :: name in indexes && 0 <= k < indexes[name] ==> names[k] != name
    {
      assert names[..i + 1] == names[..i] + [names[i]];
      if names[i] !in indexes {
        indexes := indexes[names[i] := i];
      }
    }
    assert names[..|names|] == names;
  }

  /** The selected and renamed names the observed shape does not hold, each once. */
  method CollectUnknownNames(t: SchemaTransform, names: seq<string>, observed: seq<string>, indexes: map<string, nat>,
    positions: map<string, nat>) returns (unknown: seq<string>)
    requires forall name :: name in indexes <==> name in observed
    requires forall name :: name in positions <==> name in t.Outputs()
    ensures unknown == [] <==> forall k :: 0 <= k < |names| ==> Known(t, observed, names[k])
  {
    unknown := [];
    for i := 0 to |names|
      invariant unknown == [] <==> forall k :: 0 <= k < i ==> Known(t, observed, names[k])
    {
      if names[i] !in indexes && names[i] !in positions && names[i] !in unknown {
        unknown := unknown + [names[i]];
      }
    }
  }

  lemma NamesToCheck(t: SchemaTransform, observed: seq<string>)
    ensures var names := t.select.OrElse([]) + Firsts(t.rename);
      (forall k :: 0 <= k < |names| ==> Known(t, observed, names[k])) <==>
        && (forall i :: 0 <= i < |t.select.OrElse([])| ==> Known(t, observed, t.select.OrElse([])[i]))
        && (forall i :: 0 <= i < |t.rename| ==> Known(t, observed, t.rename[i].0))
  {
    var selected := t.select.OrElse([]);
    var names := selected + Firsts(t.rename);
    assert forall i :: 0 <= i < |selected| ==> names[i] == selected[i];
    assert forall i :: 0 <= i < |t.rename| ==> names[|selected| + i] == t.rename[i].0;
  }

  /** Every unknown name, and every flatten path whose root was never observed. */
  method CollectUnknown(t: SchemaTransform, observed: seq<string>, indexes: map<string, nat>, positions: map<string, nat>)
    returns (unknown: seq<string>)
    requires t.Valid()
    requires forall name :: name in indexes <==> name in observed
    requires forall name :: name in positions <==> name in t.Outputs()
    ensures unknown == [] <==> AllKnown(t, observed)
  {
    NamesToCheck(t, observed);
    unknown := CollectUnknownNames(t, t.select.OrElse([]) + Firsts(t.rename), observed, indexes, positions);
    ghost var before := unknown == [];
    for i := 0 to |t.flatten|
      invariant forall k :: 0 <= k < i ==> t.flatten[k].Valid()
      invariant unknown == [] <==> before && forall k :: 0 <= k < i ==> t.flatten[k].segments[0] in observed
    {
      assert t.flatten[i].Valid();
      var path := JoinDots(t.flatten[i].segments);
      if t.flatten[i].segments[0] !in indexes && path !in unknown {
        unknown := unknown + [path];
      }
    }
  }

  /** Groups the columns by dataset name once, then looks for a shared name the transform changed. */
  method DetectCollision(columns: seq<DatasetColumn>) returns (collides: bool)
    ensures collides <==> Collides(columns)
  {
    var groups: map<string, seq<nat>> := map[];
    for i := 0 to |columns|
      invariant forall k :: 0 <= k < i ==> columns[k].datasetName in groups && k in groups[columns[k].datasetName]
      invariant forall name :: name in groups ==> Distinct(groups[name])
      invariant forall name, p :: name in groups && 0 <= p < |groups[name]| ==>
        groups[name][p] < i && columns[groups[name][p]].datasetName == name
    {
      var name := columns[i].datasetName;
      var group := if name in groups then groups[name] else [];
      assert i !in group;
      groups := groups[name := group + [i]];
    }
    for i := 0 to |columns|
      invariant forall k: nat, j: nat :: k < i && j < |columns| ==>
        !CollidingPair(columns, k, j) && !CollidingPair(columns, j, k)
    {
      var group := groups[columns[i].datasetName];
      if |group| > 1 && exists p :: 0 <= p < |group| && columns[group[p]].NameChanged() {
        ghost var p :| 0 <= p < |group| && columns[group[p]].NameChanged();
        ghost var q := if p == 0 then 1 else 0;
        assert CollidingPair(columns, group[p], group[q]);
        return true;
      }
      forall j: nat | j < |columns| && j != i && columns[i].datasetName == columns[j].datasetName
        ensures !columns[i].NameChanged() && !columns[j].NameChanged()
      {
        var p :| 0 <= p < |group| && group[p] == i;
        var q :| 0 <= q < |group| && group[q] == j;
        assert p != q;
      }
    }
    return false;
  }

  /** The indexes give every name its first occurrence. */
  ghost predicate IndexedBy(names: seq<string>, indexes: map<string, nat>) {
    forall name :: (name in indexes <==> name in names) && (name in indexes ==> IndexOf(names, name) == Some(indexes[name]))
  }

  /** Looking a selected name up by index finds its column. */
  method SelectColumn(t: SchemaTransform, observed: seq<string>, name: string,
    indexes: map<string, nat>, positions: map<string, nat>) returns (column: DatasetColumn)
    requires Known(t, observed, name) && IndexedBy(observed, indexes) && IndexedBy(t.Outputs(), positions)
    ensures column == SelectedColumn(t, observed, name)
  {
    if name in positions {
      return FlattenColumn(t, observed, positions[name]);
    }
    return FieldColumn(t, name, indexes[name]);
  }

  method BuildColumns(t: SchemaTransform, observed: seq<string>, indexes: map<string, nat>, positions: map<string, nat>)
    returns (columns: seq<DatasetColumn>)
    requires AllKnown(t, observed) && IndexedBy(observed, indexes) && IndexedBy(t.Outputs(), positions)
    ensures columns == Columns(t, observed)
  {
    if t.select.None? {
      return Columns(t, observed);
    }
    var names := t.select.value;
    ghost var all := Columns(t, observed);
    columns := [];
    for i := 0 to |names|
      invariant columns == all[..i]
    {
      assert Known(t, observed, t.select.OrElse([])[i]);
      var column := SelectColumn(t, observed, names[i], indexes, positions);
      assert all[i] == column;
      columns := columns + [column];
    }
  }

  method Resolve(t: SchemaTransform, observed: seq<string>) returns (r: Result<seq<DatasetColumn>, Code>)
    requires t.Valid()
    ensures r == ResolveTransform(t, observed)
  {
    var indexes := IndexNames(observed);
    var positions := IndexNames(t.Outputs());
    var unknown := CollectUnknown(t, observed, indexes, positions);
    if unknown != [] {
      return Failure(UnknownTransformField);
    }
    for i := 0 to |t.flatten|
      invariant forall k :: 0 <= k < i ==> t.flatten[k].output !in observed
    {
      if t.flatten[i].output in indexes {
        return Failure(TransformNameCollision);
      }
    }
    var columns := BuildColumns(t, observed, indexes, positions);
    var collides := DetectCollision(columns);
    return if collides then Failure(TransformNameCollision) else Success(columns);
  }
}
