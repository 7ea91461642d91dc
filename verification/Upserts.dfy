/**
 * Merge as a keyed upsert: what the duplicate-key gate, the matched count and the one MERGE statement of a
 * session mean over a staged and a target table. A cell stands for its value up to SQL equality; None is
 * SQL null, which equals nothing.
 */
module Upserts {
  import opened Wrappers
  import opened Sequences

  type Row<Cell> = seq<Option<Cell>>

  /** The columns both tables have, and the positions of the merge keys among them. */
  datatype Keys = Keys(width: nat, positions: seq<nat>) {
    predicate Valid() {
      forall i :: 0 <= i < |positions| ==> positions[i] < width
    }
  }

  predicate Rows<Cell>(keys: Keys, rows: seq<Row<Cell>>) {
    forall i :: 0 <= i < |rows| ==> |rows[i]| == keys.width
  }

  /** A row's key tuple. */
  function KeyOf<Cell>(keys: Keys, row: Row<Cell>): (r: seq<Option<Cell>>)
    requires keys.Valid() && |row| == keys.width
    ensures |r| == |keys.positions| && forall i :: 0 <= i < |r| ==> r[i] == row[keys.positions[i]]
  {
    seq(|keys.positions|, i requires 0 <= i < |keys.positions| => row[keys.positions[i]])
  }

  predicate NullFree<Cell>(key: seq<Option<Cell>>) {
    forall i :: 0 <= i < |key| ==> key[i].Some?
  }

  /** The ON condition of the merge: every key column equal, which no null is. */
  predicate Matches<Cell(==, !new)>(keys: Keys, target: Row<Cell>, staged: Row<Cell>)
    requires keys.Valid() && |target| == keys.width && |staged| == keys.width
  {
    KeyOf(keys, target) == KeyOf(keys, staged) && NullFree(KeyOf(keys, staged))
  }

  // ----- The duplicate-key gate -----

  predicate SharesKey<Cell(==, !new)>(keys: Keys, stage: seq<Row<Cell>>, i: nat, j: nat)
    requires keys.Valid() && Rows(keys, stage) && i < |stage| && j < |stage|
  {
    i != j && KeyOf(keys, stage[i]) == KeyOf(keys, stage[j])
  }

  predicate Collides<Cell(==, !new)>(keys: Keys, stage: seq<Row<Cell>>, i: nat)
    requires keys.Valid() && Rows(keys, stage) && i < |stage|
  {
    exists j: nat :: j < |stage| && SharesKey(keys, stage, i, j)
  }

  /** The staged rows among the first `n` that share their key tuple with another; grouping takes nulls as equal. */
  function CollidingCount<Cell(==, !new)>(keys: Keys, stage: seq<Row<Cell>>, n: nat): nat
    requires keys.Valid() && Rows(keys, stage) && n <= |stage|
  {
    if n == 0 then 0 else CollidingCount(keys, stage, n - 1) + if Collides(keys, stage, n - 1) then 1 else 0
  }

  ghost predicate DistinctKeys<Cell(!new)>(keys: Keys, stage: seq<Row<Cell>>)
    requires keys.Valid() && Rows(keys, stage)
  {
    forall i, j :: 0 <= i < j < |stage| ==> KeyOf(keys, stage[i]) != KeyOf(keys, stage[j])
  }

  lemma {:induction false} CollidingAtLeast<Cell(!new)>(keys: Keys, stage: seq<Row<Cell>>, n: nat, i: nat)
    requires keys.Valid() && Rows(keys, stage) && i < n <= |stage| && Collides(keys, stage, i)
    ensures CollidingCount(keys, stage, n) >= 1
    ensures (exists j: nat :: j < i && Collides(keys, stage, j)) ==> CollidingCount(keys, stage, n) >= 2
  {
    if i == n - 1 {
      if j: nat :| j < i && Collides(keys, stage, j) {
        CollidingAtLeast(keys, stage, n - 1, j);
      }
    } else {
      CollidingAtLeast(keys, stage, n - 1, i);
    }
  }

  lemma {:induction false} NoneCollide<Cell(!new)>(keys: Keys, stage: seq<Row<Cell>>, n: nat)
    requires keys.Valid() && Rows(keys, stage) && n <= |stage| && DistinctKeys(keys, stage)
    ensures CollidingCount(keys, stage, n) == 0
  {
    if n > 0 {
      NoneCollide(keys, stage, n - 1);
      assert !Collides(keys, stage, n - 1);
    }
  }

  /** The gate counts zero exactly when the staged key tuples are distinct, and never counts one. */
  lemma GateIsExact<Cell(!new)>(keys: Keys, stage: seq<Row<Cell>>)
    requires keys.Valid() && Rows(keys, stage)
    ensures CollidingCount(keys, stage, |stage|) == 0 <==> DistinctKeys(keys, stage)
    ensures CollidingCount(keys, stage, |stage|) != 1
  {
    if DistinctKeys(keys, stage) {
      NoneCollide(keys, stage, |stage|);
    } else {
      var i, j :| 0 <= i < j < |stage| && KeyOf(keys, stage[i]) == KeyOf(keys, stage[j]);
      assert SharesKey(keys, stage, i, j) && SharesKey(keys, stage, j, i);
      assert Collides(keys, stage, i) && Collides(keys, stage, j);
      CollidingAtLeast(keys, stage, |stage|, j);
    }
  }

  // ----- The statement -----

  /** The first staged row matching a target row; distinct staged keys leave no other. */
  function MatchFor<Cell(==, !new)>(keys: Keys, target: Row<Cell>, stage: seq<Row<Cell>>): (r: Option<Row<Cell>>)
    requires keys.Valid() && |target| == keys.width && Rows(keys, stage)
    ensures r.Some? ==> r.value in stage && |r.value| == keys.width && Matches(keys, target, r.value)
    ensures r.None? ==> forall i :: 0 <= i < |stage| ==> !Matches(keys, target, stage[i])
  {
    if stage == [] then None
    else if Matches(keys, target, stage[0]) then Some(stage[0])
    else
      var rest := stage[1..];
      var r := MatchFor(keys, target, rest);
      assert r.None? ==> forall i :: 1 <= i < |stage| ==> stage[i] == rest[i - 1];
      r
  }

  /** WHEN MATCHED: every non-key column takes the staged value; the key columns stay. */
  function Replaced<Cell>(keys: Keys, target: Row<Cell>, staged: Row<Cell>): (r: Row<Cell>)
    requires |target| == keys.width && |staged| == keys.width
    ensures |r| == keys.width
    ensures forall c: nat :: c < keys.width ==> r[c] == if c in keys.positions then target[c] else staged[c]
  {
    seq(keys.width, c requires 0 <= c < keys.width => if c in keys.positions then target[c] else staged[c])
  }

  function AfterUpdate<Cell(==, !new)>(keys: Keys, target: Row<Cell>, stage: seq<Row<Cell>>): (r: Row<Cell>)
    requires keys.Valid() && |target| == keys.width && Rows(keys, stage)
    ensures |r| == keys.width
  {
    match MatchFor(keys, target, stage)
    case None => target
    case Some(staged) => Replaced(keys, target, staged)
  }

  function Updated<Cell(==, !new)>(keys: Keys, target: seq<Row<Cell>>, stage: seq<Row<Cell>>): (r: seq<Row<Cell>>)
    requires keys.Valid() && Rows(keys, target) && Rows(keys, stage)
    ensures |r| == |target| && forall i :: 0 <= i < |r| ==> r[i] == AfterUpdate(keys, target[i], stage)
  {
    seq(|target|, i requires 0 <= i < |target| => AfterUpdate(keys, target[i], stage))
  }

  /** Whether a staged row matches some target row. */
  predicate Matched<Cell(==, !new)>(keys: Keys, target: seq<Row<Cell>>, staged: Row<Cell>)
    requires keys.Valid() && Rows(keys, target) && |staged| == keys.width
  {
    exists i :: 0 <= i < |target| && Matches(keys, target[i], staged)
  }

  /** WHEN NOT MATCHED: the staged rows the target lacks, in staged order. */
  function Inserted<Cell(==, !new)>(keys: Keys, target: seq<Row<Cell>>, stage: seq<Row<Cell>>): (r: seq<Row<Cell>>)
    requires keys.Valid() && Rows(keys, target) && Rows(keys, stage)
    ensures Rows(keys, r)
  {
    if stage == [] then []
    else
      var rest := Inserted(keys, target, stage[1..]);
      if Matched(keys, target, stage[0]) then rest else [stage[0]] + rest
  }

  lemma {:induction false} InsertedIsStaged<Cell(!new)>(
    keys: Keys, target: seq<Row<Cell>>, stage: seq<Row<Cell>>, row: Row<Cell>)
    requires keys.Valid() && Rows(keys, target) && Rows(keys, stage)
    ensures row in Inserted(keys, target, stage) <==>
      row in stage && |row| == keys.width && !Matched(keys, target, row)
  {
    if stage != [] {
      InsertedIsStaged(keys, target, stage[1..], row);
      assert row in stage <==> row == stage[0] || row in stage[1..];
    }
  }

  /** The count a session reports as updated: staged rows with a match, each once. */
  function MatchedCount<Cell(==, !new)>(keys: Keys, target: seq<Row<Cell>>, stage: seq<Row<Cell>>): nat
    requires keys.Valid() && Rows(keys, target) && Rows(keys, stage)
  {
    if stage == [] then 0
    else (if Matched(keys, target, stage[0]) then 1 else 0) + MatchedCount(keys, target, stage[1..])
  }

  /** The table after the merge. */
  function MergeInto<Cell(==, !new)>(keys: Keys, target: seq<Row<Cell>>, stage: seq<Row<Cell>>): (r: seq<Row<Cell>>)
    requires keys.Valid() && Rows(keys, target) && Rows(keys, stage)
    ensures Rows(keys, r)
  {
    Updated(keys, target, stage) + Inserted(keys, target, stage)
  }

  /** Matched and inserted rows partition the stage, so the reported insert count cannot underflow. */
  lemma {:induction false} CountsPartitionTheStage<Cell(!new)>(keys: Keys, target: seq<Row<Cell>>, stage: seq<Row<Cell>>)
    requires keys.Valid() && Rows(keys, target) && Rows(keys, stage)
    ensures MatchedCount(keys, target, stage) + |Inserted(keys, target, stage)| == |stage|
  {
    if stage != [] {
      CountsPartitionTheStage(keys, target, stage[1..]);
    }
  }

  /** With distinct staged keys the match of a target row is whichever staged row matches it. */
  lemma MatchIsUnique<Cell(!new)>(keys: Keys, target: Row<Cell>, stage: seq<Row<Cell>>, i: nat)
    requires keys.Valid() && |target| == keys.width && Rows(keys, stage) && DistinctKeys(keys, stage)
    requires i < |stage| && Matches(keys, target, stage[i])
    ensures MatchFor(keys, target, stage) == Some(stage[i])
  {
    var found := MatchFor(keys, target, stage).value;
    var j :| 0 <= j < |stage| && stage[j] == found;
    assert KeyOf(keys, stage[j]) == KeyOf(keys, stage[i]);
  }

  /**
   * The upsert row by row: no target row is deleted; an unmatched one is unchanged, and a matched one
   * becomes the one staged row of its key.
   */
  lemma TargetRowsUpserted<Cell(!new)>(keys: Keys, target: seq<Row<Cell>>, stage: seq<Row<Cell>>, t: nat)
    requires keys.Valid() && Rows(keys, target) && Rows(keys, stage) && DistinctKeys(keys, stage) && t < |target|
    ensures |MergeInto(keys, target, stage)| == |target| + (|stage| - MatchedCount(keys, target, stage))
    ensures (forall i :: 0 <= i < |stage| ==> !Matches(keys, target[t], stage[i])) ==>
      MergeInto(keys, target, stage)[t] == target[t]
    ensures forall i :: 0 <= i < |stage| && Matches(keys, target[t], stage[i]) ==>
      MergeInto(keys, target, stage)[t] == stage[i]
  {
    CountsPartitionTheStage(keys, target, stage);
    forall i | 0 <= i < |stage| && Matches(keys, target[t], stage[i])
      ensures MergeInto(keys, target, stage)[t] == stage[i]
    {
      MatchIsUnique(keys, target[t], stage, i);
      ReplacedIsStaged(keys, target[t], stage[i]);
    }
  }

  /** Replacing the non-key values of a matching row gives the staged row. */
  lemma ReplacedIsStaged<Cell(!new)>(keys: Keys, target: Row<Cell>, staged: Row<Cell>)
    requires keys.Valid() && |target| == keys.width && |staged| == keys.width && Matches(keys, target, staged)
    ensures Replaced(keys, target, staged) == staged
  {
    forall c: nat | c < keys.width && c in keys.positions ensures target[c] == staged[c] {
      var i :| 0 <= i < |keys.positions| && keys.positions[i] == c;
      assert KeyOf(keys, target)[i] == KeyOf(keys, staged)[i];
    }
  }

  /** Every staged row is in the merged table. */
  lemma StagedRowsPresent<Cell(!new)>(keys: Keys, target: seq<Row<Cell>>, stage: seq<Row<Cell>>, i: nat)
    requires keys.Valid() && Rows(keys, target) && Rows(keys, stage) && DistinctKeys(keys, stage) && i < |stage|
    ensures stage[i] in MergeInto(keys, target, stage)
  {
    if Matched(keys, target, stage[i]) {
      var t :| 0 <= t < |target| && Matches(keys, target[t], stage[i]);
      TargetRowsUpserted(keys, target, stage, t);
    } else {
      InsertedIsStaged(keys, target, stage, stage[i]);
    }
  }

  // ----- Merging again -----

  /** A row some staged row matches is that staged row once merged, so updating it again changes nothing. */
  lemma UpdateSettles<Cell(!new)>(keys: Keys, row: Row<Cell>, stage: seq<Row<Cell>>)
    requires keys.Valid() && |row| == keys.width && Rows(keys, stage) && DistinctKeys(keys, stage)
    ensures AfterUpdate(keys, AfterUpdate(keys, row, stage), stage) == AfterUpdate(keys, row, stage)
  {
    match MatchFor(keys, row, stage)
    case None =>
    case Some(staged) =>
      ReplacedIsStaged(keys, row, staged);
      StagedRowSettles(keys, staged, stage);
  }

  lemma StagedRowSettles<Cell(!new)>(keys: Keys, staged: Row<Cell>, stage: seq<Row<Cell>>)
    requires keys.Valid() && Rows(keys, stage) && DistinctKeys(keys, stage) && staged in stage
    ensures |staged| == keys.width && AfterUpdate(keys, staged, stage) == staged
  {
    var i :| 0 <= i < |stage| && stage[i] == staged;
    match MatchFor(keys, staged, stage)
    case None =>
    case Some(found) => ReplacedIsStaged(keys, staged, found); MatchIsStagedItself(keys, stage, i);
  }

  lemma MatchIsStagedItself<Cell(!new)>(keys: Keys, stage: seq<Row<Cell>>, i: nat)
    requires keys.Valid() && Rows(keys, stage) && DistinctKeys(keys, stage) && i < |stage|
    requires MatchFor(keys, stage[i], stage).Some?
    ensures MatchFor(keys, stage[i], stage) == Some(stage[i])
  {
    var found := MatchFor(keys, stage[i], stage).value;
    var j :| 0 <= j < |stage| && stage[j] == found;
    assert KeyOf(keys, stage[j]) == KeyOf(keys, stage[i]);
  }

  lemma UpdatesSettle<Cell(!new)>(keys: Keys, target: seq<Row<Cell>>, stage: seq<Row<Cell>>)
    requires keys.Valid() && Rows(keys, target) && Rows(keys, stage) && DistinctKeys(keys, stage)
    ensures Updated(keys, MergeInto(keys, target, stage), stage) == MergeInto(keys, target, stage)
  {
    var merged := MergeInto(keys, target, stage);
    forall t | 0 <= t < |merged| ensures AfterUpdate(keys, merged[t], stage) == merged[t] {
      if t < |target| {
        UpdateSettles(keys, target[t], stage);
      } else {
        assert merged[t] in Inserted(keys, target, stage);
        InsertedIsStaged(keys, target, stage, merged[t]);
        StagedRowSettles(keys, merged[t], stage);
      }
    }
  }

  /** No staged key tuple holds a null. */
  ghost predicate StagedKeysPresent<Cell(!new)>(keys: Keys, stage: seq<Row<Cell>>)
    requires keys.Valid() && Rows(keys, stage)
  {
    forall i :: 0 <= i < |stage| ==> NullFree(KeyOf(keys, stage[i]))
  }

  /**
   * Merging the same stage again changes nothing and inserts nothing exactly when no staged key holds a
   * null: such a row matches nothing, not even itself, and is inserted every time.
   */
  lemma MergingAgainChangesNothing<Cell(!new)>(keys: Keys, target: seq<Row<Cell>>, stage: seq<Row<Cell>>)
    requires keys.Valid() && Rows(keys, target) && Rows(keys, stage) && DistinctKeys(keys, stage)
    ensures var merged := MergeInto(keys, target, stage);
      && (MergeInto(keys, merged, stage) == merged <==> StagedKeysPresent(keys, stage))
      && (Inserted(keys, merged, stage) == [] <==> StagedKeysPresent(keys, stage))
  {
    var merged := MergeInto(keys, target, stage);
    UpdatesSettle(keys, target, stage);
    if StagedKeysPresent(keys, stage) {
      NothingInsertedAgain(keys, target, stage);
    } else {
      var i :| 0 <= i < |stage| && !NullFree(KeyOf(keys, stage[i]));
      assert !Matched(keys, merged, stage[i]);
      InsertedIsStaged(keys, merged, stage, stage[i]);
    }
  }

  /** A staged row with a null key is inserted once more by every merge. */
  lemma NullKeyIsInsertedTwice<Cell(!new)>()
    ensures var keys, stage: seq<Row<Cell>> := Keys(1, [0]), [[None]];
      DistinctKeys(keys, stage) && |MergeInto(keys, MergeInto(keys, [], stage), stage)| == 2
  {
    var keys := Keys(1, [0]);
    var stage: seq<Row<Cell>> := [[None]];
    var once := MergeInto(keys, [], stage);
    assert KeyOf(keys, stage[0])[0].None?;
    assert !Matched(keys, [], stage[0]) && !Matched(keys, once, stage[0]);
    InsertedAlone(keys, [], stage[0]);
    InsertedAlone(keys, once, stage[0]);
  }

  lemma InsertedAlone<Cell(!new)>(keys: Keys, target: seq<Row<Cell>>, row: Row<Cell>)
    requires keys.Valid() && Rows(keys, target) && |row| == keys.width && !Matched(keys, target, row)
    ensures Inserted(keys, target, [row]) == [row]
  {
    assert Inserted(keys, target, []) == [];
    assert [row][1..] == [];
  }

  lemma NothingInsertedAgain<Cell(!new)>(keys: Keys, target: seq<Row<Cell>>, stage: seq<Row<Cell>>)
    requires keys.Valid() && Rows(keys, target) && Rows(keys, stage) && DistinctKeys(keys, stage)
    requires StagedKeysPresent(keys, stage)
    ensures Inserted(keys, MergeInto(keys, target, stage), stage) == []
  {
    var merged := MergeInto(keys, target, stage);
    forall i | 0 <= i < |stage| ensures Matched(keys, merged, stage[i]) {
      StagedRowsPresent(keys, target, stage, i);
      var t :| 0 <= t < |merged| && merged[t] == stage[i];
      assert Matches(keys, merged[t], stage[i]);
    }
    AllMatched(keys, merged, stage);
  }

  lemma {:induction false} AllMatched<Cell(!new)>(keys: Keys, target: seq<Row<Cell>>, stage: seq<Row<Cell>>)
    requires keys.Valid() && Rows(keys, target) && Rows(keys, stage)
    requires forall i :: 0 <= i < |stage| ==> Matched(keys, target, stage[i])
    ensures Inserted(keys, target, stage) == []
  {
    if stage != [] {
      AllMatched(keys, target, stage[1..]);
    }
  }

  // ----- The order of staging -----

  lemma OccursTwice<T>(s: seq<T>, i: nat, j: nat)
    requires i < j < |s| && s[i] == s[j]
    ensures multiset(s)[s[i]] >= 2
  {
    assert s == s[..j] + [s[j]] + s[j + 1..];
    assert s[i] in multiset(s[..j]);
  }

  lemma {:induction false} OccursOnce<T>(s: seq<T>, x: T)
    requires Distinct(s)
    ensures multiset(s)[x] <= 1
  {
    if s != [] {
      var last := |s| - 1;
      assert s == s[..last] + [s[last]];
      OccursOnce(s[..last], x);
      assert s[last] !in s[..last];
    }
  }

  lemma RowsIgnoreOrder<Cell(!new)>(keys: Keys, a: seq<Row<Cell>>, b: seq<Row<Cell>>)
    requires Rows(keys, a) && multiset(a) == multiset(b)
    ensures Rows(keys, b)
  {
    forall j | 0 <= j < |b| ensures |b[j]| == keys.width {
      assert b[j] in multiset(b);
      assert b[j] in a;
    }
  }

  lemma DistinctKeysIgnoreOrder<Cell(!new)>(keys: Keys, a: seq<Row<Cell>>, b: seq<Row<Cell>>)
    requires keys.Valid() && Rows(keys, a) && multiset(a) == multiset(b) && DistinctKeys(keys, a)
    ensures Rows(keys, b) && DistinctKeys(keys, b)
  {
    RowsIgnoreOrder(keys, a, b);
    forall i, j | 0 <= i < j < |b| ensures KeyOf(keys, b[i]) != KeyOf(keys, b[j]) {
      assert b[i] in multiset(b) && b[j] in multiset(b);
      assert b[i] in a && b[j] in a;
      if b[i] == b[j] {
        OccursTwice(b, i, j);
        OccursOnce(a, b[i]);
      }
    }
  }

  lemma MatchIgnoresOrder<Cell(!new)>(keys: Keys, target: Row<Cell>, a: seq<Row<Cell>>, b: seq<Row<Cell>>)
    requires keys.Valid() && Rows(keys, a) && Rows(keys, b) && DistinctKeys(keys, b) && multiset(a) == multiset(b)
    requires |target| == keys.width
    ensures MatchFor(keys, target, a) == MatchFor(keys, target, b)
  {
    match MatchFor(keys, target, a)
    case Some(staged) =>
      assert staged in multiset(a);
      var i :| 0 <= i < |b| && b[i] == staged;
      MatchIsUnique(keys, target, b, i);
    case None =>
      forall j | 0 <= j < |b| ensures !Matches(keys, target, b[j]) {
        assert b[j] in multiset(a);
        assert b[j] in a;
      }
  }

  lemma {:induction false} InsertedCount<Cell(!new)>(
    keys: Keys, target: seq<Row<Cell>>, stage: seq<Row<Cell>>, row: Row<Cell>)
    requires keys.Valid() && Rows(keys, target) && Rows(keys, stage) && |row| == keys.width
    ensures multiset(Inserted(keys, target, stage))[row]
         == if Matched(keys, target, row) then 0 else multiset(stage)[row]
  {
    if stage != [] {
      InsertedCount(keys, target, stage[1..], row);
      assert stage == [stage[0]] + stage[1..];
    }
  }

  lemma InsertedIgnoresOrder<Cell(!new)>(
    keys: Keys, target: seq<Row<Cell>>, a: seq<Row<Cell>>, b: seq<Row<Cell>>)
    requires keys.Valid() && Rows(keys, target) && Rows(keys, a) && Rows(keys, b) && multiset(a) == multiset(b)
    ensures multiset(Inserted(keys, target, a)) == multiset(Inserted(keys, target, b))
  {
    var left, right := Inserted(keys, target, a), Inserted(keys, target, b);
    forall row ensures multiset(left)[row] == multiset(right)[row] {
      if |row| == keys.width {
        InsertedCount(keys, target, a, row);
        InsertedCount(keys, target, b, row);
      } else {
        assert row !in left && row !in right;
      }
    }
  }

  lemma MatchedIgnoresOrder<Cell(!new)>(
    keys: Keys, target: seq<Row<Cell>>, a: seq<Row<Cell>>, b: seq<Row<Cell>>)
    requires keys.Valid() && Rows(keys, target) && Rows(keys, a) && Rows(keys, b) && multiset(a) == multiset(b)
    ensures |a| == |b| && MatchedCount(keys, target, a) == MatchedCount(keys, target, b)
  {
    assert |a| == |multiset(a)| && |b| == |multiset(b)|;
    InsertedIgnoresOrder(keys, target, a, b);
    var left, right := Inserted(keys, target, a), Inserted(keys, target, b);
    assert |left| == |multiset(left)| && |right| == |multiset(right)|;
    CountsPartitionTheStage(keys, target, a);
    CountsPartitionTheStage(keys, target, b);
  }

  /** In whatever order the rows were staged, the merge gives the same table up to the order of what it inserts. */
  lemma MergeIgnoresStagingOrder<Cell(!new)>(
    keys: Keys, target: seq<Row<Cell>>, a: seq<Row<Cell>>, b: seq<Row<Cell>>)
    requires keys.Valid() && Rows(keys, target) && Rows(keys, a) && DistinctKeys(keys, a)
    requires multiset(a) == multiset(b)
    ensures Rows(keys, b) && DistinctKeys(keys, b)
    ensures multiset(MergeInto(keys, target, a)) == multiset(MergeInto(keys, target, b))
  {
    DistinctKeysIgnoreOrder(keys, a, b);
    forall t | 0 <= t < |target| ensures AfterUpdate(keys, target[t], a) == AfterUpdate(keys, target[t], b) {
      MatchIgnoresOrder(keys, target[t], a, b);
    }
    assert Updated(keys, target, a) == Updated(keys, target, b);
    InsertedIgnoresOrder(keys, target, a, b);
  }
}
