/** The rejected-records artifact: streamed in source order, with the JSONL spill merged in after the verdict. */
module Rejections {
  import opened Wrappers
  import opened Sequences
  import opened Records
  import opened Schemas
  import opened Observations
  import opened Sources

  function LinesOf(rejections: seq<Rejection>): (r: seq<nat>)
    ensures |r| == |rejections| && forall i :: 0 <= i < |r| ==> r[i] == rejections[i].line
  {
    seq(|rejections|, i requires 0 <= i < |rejections| => rejections[i].line)
  }

  lemma LinesSnoc(rejections: seq<Rejection>, rejection: Rejection)
    ensures LinesOf(rejections + [rejection]) == LinesOf(rejections) + [rejection.line]
  {
  }

  /** What each spilled record renders to under the resolved checks. */
  function Renders(spilled: seq<SourceRecord>, checks: seq<FieldCheck>): (r: seq<Option<Rejection>>)
    requires AllReadable(spilled, checks)
    ensures |r| == |spilled| && forall i :: 0 <= i < |r| ==> r[i] == ValidateRecord(spilled[i], checks)
  {
    seq(|spilled|, i requires 0 <= i < |spilled| => ValidateRecord(spilled[i], checks))
  }

  /** The rejections among what a spill renders to; an entry that renders to none is dropped. */
  function Kept(renders: seq<Option<Rejection>>): seq<Rejection> {
    if renders == [] then [] else Listed(renders[0]) + Kept(renders[1..])
  }

  /** Two line-ordered streams interleaved by line, the first one winning a tie. */
  function Merge(a: seq<Rejection>, b: seq<Rejection>): seq<Rejection>
    decreases |a| + |b|
  {
    if b == [] then a
    else if a == [] then b
    else if a[0].line <= b[0].line then [a[0]] + Merge(a[1..], b)
    else [b[0]] + Merge(a, b[1..])
  }

  /** One merge cursor: the rejection it holds ready, if any, and the rest of its stream. */
  function Pending(ready: Option<Rejection>, rest: seq<Rejection>): seq<Rejection> {
    Listed(ready) + rest
  }

  /** Reads the next rejection off the spill, skipping entries that render to none. */
  method NextSpillRejection(spill: seq<Option<Rejection>>)
    returns (next: Option<Rejection>, rest: seq<Option<Rejection>>)
    ensures Pending(next, Kept(rest)) == Kept(spill) && (next.None? ==> rest == [])
  {
    rest := spill;
    while rest != []
      invariant Kept(rest) == Kept(spill)
    {
      next, rest := rest[0], rest[1..];
      if next.Some? {
        return;
      }
    }
    next := None;
  }

  method NextArtifactLine(artifact: seq<Rejection>) returns (next: Option<Rejection>, rest: seq<Rejection>)
    ensures Pending(next, rest) == artifact && (next.None? ==> rest == [])
  {
    if artifact == [] {
      return None, [];
    }
    return Some(artifact[0]), artifact[1..];
  }

  lemma PendingParts(ready: Rejection, rest: seq<Rejection>)
    ensures Pending(Some(ready), rest) != []
    ensures Pending(Some(ready), rest)[0] == ready && Pending(Some(ready), rest)[1..] == rest
  {
  }

  /** The two-cursor merge, with the merged rejections' lines in the order it writes them. */
  method MergeStreams(artifact: seq<Rejection>, spill: seq<Option<Rejection>>)
    returns (merged: seq<Rejection>, lines: seq<nat>)
    ensures merged == Merge(artifact, Kept(spill)) && lines == LinesOf(merged)
  {
    merged, lines := [], [];
    var nextArtifact, artifactRest := NextArtifactLine(artifact);
    var nextSpill, spillRest := NextSpillRejection(spill);
    ghost var left, right := artifact, Kept(spill);
    while nextArtifact.Some? || nextSpill.Some?
      invariant left == Pending(nextArtifact, artifactRest) && (nextArtifact.None? ==> artifactRest == [])
      invariant right == Pending(nextSpill, Kept(spillRest)) && (nextSpill.None? ==> spillRest == [])
      invariant lines == LinesOf(merged)
      invariant merged + Merge(left, right) == Merge(artifact, Kept(spill))
      decreases |left| + |right|
    {
      var artifactTurn := nextSpill.None? || (nextArtifact.Some? && nextArtifact.value.line <= nextSpill.value.line);
      var rejection;
      if artifactTurn {
        rejection := nextArtifact.value;
        PendingParts(rejection, artifactRest);
        MergeTakesLeft(merged, left, right);
        left := left[1..];
        nextArtifact, artifactRest := NextArtifactLine(artifactRest);
      } else {
        rejection := nextSpill.value;
        PendingParts(rejection, Kept(spillRest));
        MergeTakesRight(merged, left, right);
        right := right[1..];
        nextSpill, spillRest := NextSpillRejection(spillRest);
      }
      LinesSnoc(merged, rejection);
      merged, lines := merged + [rejection], lines + [rejection.line];
    }
  }

  class ValidationSpill {
    var entries: seq<SourceRecord>

    constructor ()
      ensures entries == []
    {
      entries := [];
    }

    method Record(record: SourceRecord)
      modifies this
      ensures entries == old(entries) + [record]
    {
      entries := entries + [record];
    }
  }

  class RejectionSink {
    var artifact: seq<Rejection>
    var count: nat
    var lines: seq<nat>

    ghost predicate Valid()
      reads this
    {
      count == |artifact| && lines == LinesOf(artifact)
    }

    constructor ()
      ensures Valid() && artifact == []
    {
      artifact, count, lines := [], 0, [];
    }

    /** Appends one rejection. */
    method Record(rejection: Rejection)
      requires Valid()
      modifies this
      ensures Valid() && artifact == old(artifact) + [rejection]
    {
      artifact, count, lines := artifact + [rejection], count + 1, lines + [rejection.line];
    }

    /** Merges the spilled records' rejections under the resolved checks into the artifact. */
    method MergeSpill(spill: ValidationSpill, checks: seq<FieldCheck>)
      requires Valid() && AllReadable(spill.entries, checks)
      modifies this
      ensures Valid() && artifact == Merge(old(artifact), Kept(Renders(spill.entries, checks)))
    {
      if spill.entries != [] {
        artifact, lines := MergeStreams(artifact, Renders(spill.entries, checks));
        count := |lines|;
      }
    }
  }

  lemma MergeTakesLeft(merged: seq<Rejection>, a: seq<Rejection>, b: seq<Rejection>)
    requires a != [] && (b == [] || a[0].line <= b[0].line)
    ensures merged + Merge(a, b) == (merged + [a[0]]) + Merge(a[1..], b)
  {
    if b == [] {
      assert a == [a[0]] + a[1..];
    }
    ConcatAssociates(merged, [a[0]], Merge(a[1..], b));
  }

  lemma MergeTakesRight(merged: seq<Rejection>, a: seq<Rejection>, b: seq<Rejection>)
    requires b != [] && (a == [] || b[0].line < a[0].line)
    ensures merged + Merge(a, b) == (merged + [b[0]]) + Merge(a, b[1..])
  {
    if a == [] {
      assert b == [b[0]] + b[1..];
      assert Merge(a, b[1..]) == b[1..];
    }
    ConcatAssociates(merged, [b[0]], Merge(a, b[1..]));
  }

  // ----- What the merged artifact holds -----

  /** The merged artifact holds exactly the rejections of both streams. */
  lemma {:induction false} MergeIsPermutation(a: seq<Rejection>, b: seq<Rejection>)
    ensures multiset(Merge(a, b)) == multiset(a) + multiset(b)
    decreases |a| + |b|
  {
    if a != [] && b != [] {
      if a[0].line <= b[0].line {
        MergeIsPermutation(a[1..], b);
        assert a == [a[0]] + a[1..];
      } else {
        MergeIsPermutation(a, b[1..]);
        assert b == [b[0]] + b[1..];
      }
    }
  }

  ghost predicate StrictlyOrdered(s: seq<Rejection>) {
    forall i, j :: 0 <= i < j < |s| ==> s[i].line < s[j].line
  }

  ghost predicate AllAfter(line: nat, s: seq<Rejection>) {
    forall r :: r in s ==> line < r.line
  }

  lemma MergeMember(a: seq<Rejection>, b: seq<Rejection>, r: Rejection)
    requires r in Merge(a, b)
    ensures r in a || r in b
  {
    MergeIsPermutation(a, b);
    assert r in multiset(a) + multiset(b);
  }

  lemma ConsOrdered(r: Rejection, s: seq<Rejection>)
    requires AllAfter(r.line, s) && StrictlyOrdered(s)
    ensures StrictlyOrdered([r] + s)
  {
  }

  /** Merging two strictly line-ordered streams that share no line keeps strict line order. */
  lemma {:induction false} MergeIsOrdered(a: seq<Rejection>, b: seq<Rejection>)
    requires StrictlyOrdered(a) && StrictlyOrdered(b)
    requires forall x, y :: x in a && y in b ==> x.line != y.line
    ensures StrictlyOrdered(Merge(a, b))
    decreases |a| + |b|
  {
    if a != [] && b != [] {
      if a[0].line <= b[0].line {
        MergeIsOrdered(a[1..], b);
        forall r | r in Merge(a[1..], b) ensures a[0].line < r.line {
          MergeMember(a[1..], b, r);
        }
        ConsOrdered(a[0], Merge(a[1..], b));
      } else {
        MergeIsOrdered(a, b[1..]);
        forall r | r in Merge(a, b[1..]) ensures b[0].line < r.line {
          MergeMember(a, b[1..], r);
        }
        ConsOrdered(b[0], Merge(a, b[1..]));
      }
    }
  }

  // ----- The spill detour loses nothing -----

  /** The parse rejections of a pass, streamed to the artifact as they are found. */
  function ParseRejections(items: seq<Item>): seq<Rejection> {
    if items == [] then []
    else
      var last := items[|items| - 1];
      ParseRejections(items[..|items| - 1]) +
        (if last.Malformed? then [Rejection(last.line, MalformedRecord, None)] else [])
  }

  /** The records of a pass that violate the checks, spilled until the verdict. */
  function Spilled(items: seq<Item>, checks: seq<FieldCheck>): seq<SourceRecord>
    requires ItemsReadable(items, checks)
  {
    if items == [] then []
    else
      var last := items[|items| - 1];
      Spilled(items[..|items| - 1], checks) +
        (if last.Parsed? && RecordViolates(last.record, checks) then [last.record] else [])
  }

  lemma {:induction false} KeptSnoc(renders: seq<Option<Rejection>>, last: Option<Rejection>)
    ensures Kept(renders + [last]) == Kept(renders) + Listed(last)
  {
    if renders == [] {
      assert Kept([]) == [];
    } else {
      KeptSnoc(renders[1..], last);
      assert (renders + [last])[1..] == renders[1..] + [last];
      ConcatAssociates(Listed(renders[0]), Kept(renders[1..]), Listed(last));
    }
  }

  ghost predicate AllBefore(s: seq<Rejection>, line: nat) {
    forall r :: r in s ==> r.line < line
  }

  lemma {:induction false} MergeSnocLeft(a: seq<Rejection>, b: seq<Rejection>, last: Rejection)
    requires AllBefore(b, last.line)
    ensures Merge(a + [last], b) == Merge(a, b) + [last]
    decreases |a| + |b|
  {
    if b != [] && (a == [] || b[0].line < a[0].line) {
      MergeSnocLeft(a, b[1..], last);
      assert Merge(a + [last], b) == [b[0]] + Merge(a + [last], b[1..]);
      assert a == [] ==> Merge(a, b) == [b[0]] + Merge(a, b[1..]);
    } else if b != [] {
      MergeSnocLeft(a[1..], b, last);
      assert (a + [last])[1..] == a[1..] + [last];
    }
  }

  lemma {:induction false} MergeSnocRight(a: seq<Rejection>, b: seq<Rejection>, last: Rejection)
    requires AllBefore(a, last.line)
    ensures Merge(a, b + [last]) == Merge(a, b) + [last]
    decreases |a| + |b|
  {
    if a == [] {
      assert Merge(a, b) == b;
    } else if b == [] || a[0].line <= b[0].line {
      MergeSnocRight(a[1..], b, last);
      assert b == [] ==> Merge(a, b) == [a[0]] + Merge(a[1..], b);
    } else {
      MergeSnocRight(a, b[1..], last);
      assert (b + [last])[1..] == b[1..] + [last];
    }
  }

  /** The two check sets judge every record of the pass alike. */
  ghost predicate JudgeItemsAlike(items: seq<Item>, derived: seq<FieldCheck>, resolved: seq<FieldCheck>) {
    && ItemsReadable(items, derived) && ItemsReadable(items, resolved)
    && forall i :: 0 <= i < |items| && items[i].Parsed? ==>
         (RecordViolates(items[i].record, derived) <==> RecordViolates(items[i].record, resolved))
  }

  lemma {:induction false} SpilledReadable(items: seq<Item>, derived: seq<FieldCheck>, resolved: seq<FieldCheck>)
    requires ItemsReadable(items, derived) && ItemsReadable(items, resolved)
    ensures AllReadable(Spilled(items, derived), resolved)
  {
    if items != [] {
      SpilledReadable(items[..|items| - 1], derived, resolved);
    }
  }

  /** What the spill keeps of the items, rendered under the resolved checks. */
  function Confirmed(items: seq<Item>, derived: seq<FieldCheck>, resolved: seq<FieldCheck>): seq<Rejection>
    requires ItemsReadable(items, derived) && ItemsReadable(items, resolved)
  {
    SpilledReadable(items, derived, resolved);
    Kept(Renders(Spilled(items, derived), resolved))
  }

  lemma ConfirmedSnoc(items: seq<Item>, derived: seq<FieldCheck>, resolved: seq<FieldCheck>)
    requires items != [] && JudgeItemsAlike(items, derived, resolved)
    ensures JudgeItemsAlike(items[..|items| - 1], derived, resolved)
    ensures Confirmed(items, derived, resolved) == Confirmed(items[..|items| - 1], derived, resolved) +
      (if items[|items| - 1].Parsed? then Listed(ItemRejection(items[|items| - 1], resolved)) else [])
  {
    var rest, last := items[..|items| - 1], items[|items| - 1];
    SpilledReadable(items, derived, resolved);
    SpilledReadable(rest, derived, resolved);
    if last.Parsed? {
      RejectedIffViolates(last.record, resolved);
    }
    if last.Parsed? && RecordViolates(last.record, derived) {
      var rendered := ValidateRecord(last.record, resolved);
      assert Renders(Spilled(items, derived), resolved) == Renders(Spilled(rest, derived), resolved) + [rendered];
      KeptSnoc(Renders(Spilled(rest, derived), resolved), rendered);
    } else {
      assert Spilled(items, derived) == Spilled(rest, derived);
    }
  }

  lemma {:induction false} RejectionsBefore(items: seq<Item>, derived: seq<FieldCheck>, resolved: seq<FieldCheck>, line: nat)
    requires JudgeItemsAlike(items, derived, resolved)
    requires forall i :: 0 <= i < |items| && items[i].IsRow() ==> items[i].Line() < line
    ensures AllBefore(ParseRejections(items), line) && AllBefore(Confirmed(items, derived, resolved), line)
  {
    if items != [] {
      var last := items[|items| - 1];
      RejectionsBefore(items[..|items| - 1], derived, resolved, line);
      ConfirmedSnoc(items, derived, resolved);
      if last.Parsed? {
        RejectedIffViolates(last.record, resolved);
      }
    }
  }

  /**
   * Spilling what the early checks reject and merging it back once the checks are resolved gives exactly
   * the artifact a single pass under the resolved checks would write, in source order.
   */
  lemma {:induction false} SpillMergeIsSourceOrder(
    items: seq<Item>, derived: seq<FieldCheck>, resolved: seq<FieldCheck>)
    requires LineOrdered(items) && JudgeItemsAlike(items, derived, resolved)
    ensures Merge(ParseRejections(items), Confirmed(items, derived, resolved)) == ItemRejections(items, resolved)
  {
    if items != [] {
      var rest, last := items[..|items| - 1], items[|items| - 1];
      ConfirmedSnoc(items, derived, resolved);
      SpillMergeIsSourceOrder(rest, derived, resolved);
      var parse, confirmed := ParseRejections(rest), Confirmed(rest, derived, resolved);
      var rejection := ItemRejection(last, resolved);
      if rejection.None? {
        assert ParseRejections(items) == parse && Confirmed(items, derived, resolved) == confirmed;
      } else {
        RejectionsBefore(rest, derived, resolved, last.Line());
        if last.Malformed? {
          assert Confirmed(items, derived, resolved) == confirmed;
          MergeSnocLeft(parse, confirmed, rejection.value);
        } else {
          assert ParseRejections(items) == parse;
          RejectedIffViolates(last.record, resolved);
          MergeSnocRight(parse, confirmed, rejection.value);
        }
      }
    }
  }

  lemma {:induction false} ItemRejectionsBefore(items: seq<Item>, checks: seq<FieldCheck>, line: nat)
    requires ItemsReadable(items, checks)
    requires forall i :: 0 <= i < |items| && items[i].IsRow() ==> items[i].Line() < line
    ensures AllBefore(ItemRejections(items, checks), line)
  {
    if items != [] {
      var last := items[|items| - 1];
      ItemRejectionsBefore(items[..|items| - 1], checks, line);
      if last.Parsed? {
        RejectedIffViolates(last.record, checks);
      }
    }
  }

  /** The rejections of a line-ordered source are strictly line-ordered. */
  lemma {:induction false} RejectionsAreOrdered(items: seq<Item>, checks: seq<FieldCheck>)
    requires LineOrdered(items) && ItemsReadable(items, checks)
    ensures StrictlyOrdered(ItemRejections(items, checks))
  {
    if items != [] {
      var rest, last := items[..|items| - 1], items[|items| - 1];
      RejectionsAreOrdered(rest, checks);
      if last.IsRow() {
        ItemRejectionsBefore(rest, checks, last.Line());
      }
      if last.Parsed? {
        RejectedIffViolates(last.record, checks);
      }
    }
  }
}
