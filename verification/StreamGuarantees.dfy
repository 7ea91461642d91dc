/** When a chunk stream completes, and what it has yielded then: over any second-pass file, and over an unmodified one. */
module StreamGuarantees {
  import opened Wrappers
  import opened Failures
  import opened Sequences
  import opened Records
  import opened Schemas
  import opened Observations
  import opened Sources
  import opened Materialization
  import opened Chunks
  import opened Streams

  /** The survivors of all items when none diverges; None when one does. */
  function Swept(plan: StreamPlan, items: seq<Item>): (r: Option<seq<SourceRecord>>)
    requires plan.ItemsUsable(items)
    ensures r.Some? ==> plan.AllUsable(r.value)
    decreases items
  {
    if items == [] then Some([])
    else match plan.StepItem(items[0])
      case Failure(_) => None
      case Success(kept) =>
        match Swept(plan, items[1..])
        case None => None
        case Some(later) => Some(Contribution(kept) + later)
  }

  /** The buffer is all there is when that stays short of a chunk, else a full chunk with the rest still to sweep. */
  ghost predicate GatheredFrom(plan: StreamPlan, gathered: Gathered, all: seq<SourceRecord>)
    requires gathered.Filled? ==> plan.ItemsUsable(gathered.rest)
  {
    && (|all| < plan.chunkRows ==> gathered == Drained(all))
    && (|all| >= plan.chunkRows ==>
          && gathered.Filled?
          && gathered.survivors == all[..plan.chunkRows]
          && Swept(plan, gathered.rest) == Some(all[plan.chunkRows..]))
  }

  /** Gathering into a buffer is sweeping until the buffer is full. */
  lemma {:induction false} GatherSweeps(plan: StreamPlan, items: seq<Item>, buffer: seq<SourceRecord>)
    requires plan.ItemsUsable(items) && plan.AllUsable(buffer) && |buffer| < plan.chunkRows
    ensures var gathered := Gather(plan, items, buffer);
      match Swept(plan, items)
      case None => gathered.Diverged? || (gathered.Filled? && Swept(plan, gathered.rest).None?)
      case Some(survivors) =>
        GatheredFrom(plan, gathered, buffer + survivors)
    decreases items
  {
    if items == [] {
      assert buffer + [] == buffer;
    } else {
      var step := plan.StepItem(items[0]);
      if step.Success? {
        var longer := buffer + Contribution(step.value);
        if |longer| < plan.chunkRows {
          GatherSweeps(plan, items[1..], longer);
        }
        if Swept(plan, items[1..]).Some? {
          ConcatAssociates(buffer, Contribution(step.value), Swept(plan, items[1..]).value);
        }
      }
    }
  }

  ghost predicate ChunksUsable(plan: StreamPlan, chunks: seq<seq<SourceRecord>>) {
    forall i :: 0 <= i < |chunks| ==> plan.AllUsable(chunks[i])
  }

  /** The batches of all chunks, when every chunk builds. */
  function BuildAll(plan: StreamPlan, chunks: seq<seq<SourceRecord>>): Option<seq<Batch>>
    requires ChunksUsable(plan, chunks)
    decreases chunks
  {
    if chunks == [] then Some([])
    else match (BuiltChunk(plan.fields, chunks[0]), BuildAll(plan, chunks[1..]))
      case (Success(batch), Some(later)) => Some([batch] + later)
      case _ => None
  }

  lemma {:induction false} ChunkedUsable(plan: StreamPlan, survivors: seq<SourceRecord>)
    requires plan.AllUsable(survivors) && plan.chunkRows > 0
    ensures ChunksUsable(plan, Chunked(survivors, plan.chunkRows))
    decreases |survivors|
  {
    if |survivors| > plan.chunkRows {
      ChunkedUsable(plan, survivors[plan.chunkRows..]);
    }
  }

  /** The run a stream makes over items that sweep to these survivors. */
  ghost predicate Completes(plan: StreamPlan, run: Yields, chunks: seq<seq<SourceRecord>>, verdict: Option<Code>)
    requires ChunksUsable(plan, chunks)
  {
    && (run.failure.None? <==> BuildAll(plan, chunks).Some? && verdict.None?)
    && (run.failure.None? ==> Some(run.batches) == BuildAll(plan, chunks))
  }

  lemma BuildAllOne(plan: StreamPlan, survivors: seq<SourceRecord>)
    requires plan.AllUsable(survivors)
    ensures ChunksUsable(plan, [survivors])
    ensures BuildAll(plan, [survivors]) ==
      match BuiltChunk(plan.fields, survivors) { case Success(batch) => Some([batch]) case Failure(_) => None }
  {
    BuildAllStep(plan, survivors, []);
    assert [survivors] + [] == [survivors];
    assert forall batch: Batch :: [batch] + [] == [batch];
  }

  lemma BuildAllStep(plan: StreamPlan, survivors: seq<SourceRecord>, later: seq<seq<SourceRecord>>)
    requires plan.AllUsable(survivors) && ChunksUsable(plan, later)
    ensures ChunksUsable(plan, [survivors] + later)
    ensures BuildAll(plan, [survivors] + later) ==
      match (BuiltChunk(plan.fields, survivors), BuildAll(plan, later)) {
        case (Success(batch), Some(batches)) => Some([batch] + batches) case _ => None
      }
  {
    assert ([survivors] + later)[1..] == later;
  }

  lemma {:induction false} RemainingExact(
    plan: StreamPlan, items: seq<Item>, yieldedAny: bool, verdict: Option<Code>)
    requires plan.ItemsUsable(items) && plan.chunkRows > 0
    ensures Swept(plan, items).None? ==> Remaining(plan, items, yieldedAny, verdict).failure.Some?
    ensures Swept(plan, items).Some? ==>
      var chunks := ChunksLeft(Swept(plan, items).value, plan.chunkRows, yieldedAny);
      ChunksUsable(plan, chunks) && Completes(plan, Remaining(plan, items, yieldedAny, verdict), chunks, verdict)
    decreases |items|
  {
    GatherSweeps(plan, items, []);
    var gathered := Gather(plan, items, []);
    var swept := Swept(plan, items);
    if gathered.Filled? {
      RemainingExact(plan, gathered.rest, true, verdict);
    }
    if swept.Some? {
      var survivors := swept.value;
      assert [] + survivors == survivors;
      if gathered.Filled? {
        var later := ChunksLeft(survivors[plan.chunkRows..], plan.chunkRows, true);
        ChunksLeftSplit(survivors, plan.chunkRows, yieldedAny);
        BuildAllStep(plan, gathered.survivors, later);
      } else {
        BuildAllOne(plan, survivors);
      }
    }
  }

  /**
   * Over any second-pass file: a stream ends without failure exactly when the header still matches, no
   * item diverges, every chunk builds, and the row count and hash are those of pass 1; it has then
   * yielded the survivors of the file, in order, cut into chunks.
   */
  lemma StreamCompletesExactly(plan: StreamPlan, source: SecondPass)
    requires plan.ItemsUsable(source.items) && plan.chunkRows > 0
    ensures var swept := Swept(plan, source.items);
      swept.Some? ==> ChunksUsable(plan, Chunked(swept.value, plan.chunkRows))
    ensures var run, swept := StreamOf(plan, source), Swept(plan, source.items);
      && (run.failure.None? <==>
            && source.opens
            && swept.Some?
            && BuildAll(plan, Chunked(swept.value, plan.chunkRows)).Some?
            && RowCount(source.items) == plan.expectations.rows
            && source.hash == plan.expectations.hash)
      && (run.failure.None? ==> Some(run.batches) == BuildAll(plan, Chunked(swept.value, plan.chunkRows)))
  {
    RemainingExact(plan, source.items, false, plan.VerifyEndOfInput(RowCount(source.items), source.hash));
    if Swept(plan, source.items).Some? {
      ChunkedUsable(plan, Swept(plan, source.items).value);
    }
  }

  /** The item does now what it did in pass 1: it is rejected when its line was, and has no key pass 1 did not see. */
  ghost predicate Repeats(plan: StreamPlan, item: Item)
    requires item.Parsed? ==> plan.Usable(item.record)
  {
    match item
    case Blank => true
    case Malformed(line) => line in plan.expectations.rejectedLines
    case Parsed(record) =>
      && (record.JsonRecord? && plan.shape.Some? ==> forall key :: key in record.keys ==> key in plan.shape.value)
      && (RecordViolates(record, plan.checks) <==> record.line in plan.expectations.rejectedLines)
  }

  /** The records among the items that break no check, in order. */
  function Passing(items: seq<Item>, checks: seq<FieldCheck>): seq<SourceRecord>
    requires ItemsReadable(items, checks)
  {
    if items == [] then []
    else
      (if items[0].Parsed? && !RecordViolates(items[0].record, checks) then [items[0].record] else [])
        + Passing(items[1..], checks)
  }

  /** A sweep gets through exactly when every item repeats what it did in pass 1, and then keeps the passing records. */
  lemma {:induction false} SweptIff(plan: StreamPlan, items: seq<Item>)
    requires plan.ItemsUsable(items)
    ensures Swept(plan, items).Some? <==> forall i :: 0 <= i < |items| ==> Repeats(plan, items[i])
    ensures Swept(plan, items).Some? ==> Swept(plan, items).value == Passing(items, plan.checks)
    decreases items
  {
    if items != [] {
      SweptIff(plan, items[1..]);
      assert forall i :: 1 <= i < |items| ==> items[i] == items[1..][i - 1];
      assert plan.StepItem(items[0]).Success? <==> Repeats(plan, items[0]);
    }
  }

  /** A stream over a file where some row changed its outcome, or gained a key, never ends without failure. */
  lemma ChangedRowNeverCompletes(plan: StreamPlan, source: SecondPass, i: nat)
    requires plan.ItemsUsable(source.items) && plan.chunkRows > 0 && i < |source.items|
    requires !Repeats(plan, source.items[i])
    ensures StreamOf(plan, source).failure.Some?
  {
    SweptIff(plan, source.items);
    StreamCompletesExactly(plan, source);
  }
}
