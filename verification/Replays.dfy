/** Replaying an unmodified source: exactly when pass 2 reports no change, and what it then delivers. */
module Replays {
  import opened Wrappers
  import opened Failures
  import opened Sequences
  import opened FieldTypes
  import opened Records
  import opened Transforms
  import opened Schemas
  import opened Observations
  import opened Inputs
  import opened Sources
  import opened SourceReads
  import opened Materialization
  import opened Chunks
  import opened Streams
  import opened StreamGuarantees

  predicate Rejected(item: Item, checks: seq<FieldCheck>)
    requires item.Parsed? ==> Schemas.Readable(item.record, checks)
  {
    ItemRejection(item, checks).Some?
  }

  predicate OnOneLine(a: Item, b: Item) {
    a.IsRow() && b.IsRow() && a.Line() == b.Line()
  }

  /** Rows that share a line share their outcome. Pass 1 keeps outcomes by line, so nothing less will do. */
  ghost predicate OutcomesByLine(items: seq<Item>, checks: seq<FieldCheck>)
    requires ItemsReadable(items, checks)
  {
    forall i, j :: 0 <= i < |items| && 0 <= j < |items| && OnOneLine(items[i], items[j]) ==>
      (Rejected(items[i], checks) <==> Rejected(items[j], checks))
  }

  ghost predicate RejectedAtLine(items: seq<Item>, checks: seq<FieldCheck>, line: nat)
    requires ItemsReadable(items, checks)
  {
    exists i :: 0 <= i < |items| && items[i].IsRow() && items[i].Line() == line && Rejected(items[i], checks)
  }

  /** The rejected lines pass 1 hands over are those of the rows it rejected. */
  lemma {:induction false} RejectedLines(items: seq<Item>, checks: seq<FieldCheck>, line: nat)
    requires ItemsReadable(items, checks)
    ensures line in LineSet(ItemRejections(items, checks)) <==> RejectedAtLine(items, checks, line)
  {
    if items != [] {
      var rest, last := items[..|items| - 1], items[|items| - 1];
      RejectedLines(rest, checks, line);
      if last.Parsed? {
        RejectedIffViolates(last.record, checks);
      }
      var own := Listed(ItemRejection(last, checks));
      assert line in LineSet(ItemRejections(items, checks)) <==>
        line in LineSet(ItemRejections(rest, checks)) || line in LineSet(own);
      if RejectedAtLine(rest, checks, line) {
        var i :| 0 <= i < |rest| && rest[i].IsRow() && rest[i].Line() == line && Rejected(rest[i], checks);
        assert items[i] == rest[i];
      }
      if line in LineSet(own) {
        assert items[|items| - 1].Line() == line;
      }
      if RejectedAtLine(items, checks, line) {
        var i :| 0 <= i < |items| && items[i].IsRow() && items[i].Line() == line && Rejected(items[i], checks);
        if i < |rest| {
          assert rest[i] == items[i];
        } else {
          assert own[0] in own;
        }
      }
    }
  }

  /** The plan is held to what pass 1 saw of these very items. */
  ghost predicate HeldTo(plan: StreamPlan, items: seq<Item>) {
    && plan.ItemsUsable(items) && ItemsReadable(items, plan.checks)
    && plan.expectations.rejectedLines == LineSet(ItemRejections(items, plan.checks))
    && (forall i :: 0 <= i < |items| && items[i].Parsed? ==> !plan.OutsideShape(items[i].record))
  }

  /** The record an item contributes under the checks alone. */
  function KeptRecord(item: Item, checks: seq<FieldCheck>): Option<SourceRecord>
    requires item.Parsed? ==> Schemas.Readable(item.record, checks)
  {
    if item.Parsed? && !RecordViolates(item.record, checks) then Some(item.record) else None
  }

  lemma StepMatches(plan: StreamPlan, items: seq<Item>, i: nat)
    requires HeldTo(plan, items) && i < |items|
    ensures var item := items[i];
      plan.StepItem(item).Success? <==>
        (item.IsRow() && RejectedAtLine(items, plan.checks, item.Line()) ==> Rejected(item, plan.checks))
    ensures plan.StepItem(items[i]).Success? ==> plan.StepItem(items[i]).value == KeptRecord(items[i], plan.checks)
  {
    var item := items[i];
    if item.IsRow() {
      RejectedLines(items, plan.checks, item.Line());
      assert Rejected(item, plan.checks) ==> RejectedAtLine(items, plan.checks, item.Line());
    }
    if item.Parsed? {
      RejectedIffViolates(item.record, plan.checks);
    }
  }

  lemma {:induction false} SweptIffNoneDiverges(plan: StreamPlan, items: seq<Item>)
    requires plan.ItemsUsable(items)
    ensures Swept(plan, items).Some? <==> forall i :: 0 <= i < |items| ==> plan.StepItem(items[i]).Success?
    decreases items
  {
    if items != [] {
      SweptIffNoneDiverges(plan, items[1..]);
      assert forall i :: 1 <= i < |items| ==> items[i] == items[1..][i - 1];
    }
  }

  lemma {:induction false} SweptSnoc(plan: StreamPlan, items: seq<Item>, item: Item)
    requires plan.ItemsUsable(items + [item]) && Swept(plan, items + [item]).Some?
    ensures plan.ItemsUsable(items) && Swept(plan, items).Some?
    ensures (item.Parsed? ==> plan.Usable(item.record)) && plan.StepItem(item).Success?
    ensures Swept(plan, items + [item]).value == Swept(plan, items).value + Contribution(plan.StepItem(item).value)
    decreases items
  {
    var longer := items + [item];
    assert forall i :: 0 <= i < |items| ==> longer[i] == items[i];
    assert longer[|items|] == item;
    if items == [] {
      assert longer[1..] == [];
    } else {
      assert longer[1..] == items[1..] + [item];
      SweptSnoc(plan, items[1..], item);
    }
  }

  /** Items that step as pass 1 judged them sweep to pass 1's survivors. */
  lemma {:induction false} SweptAreSurvivors(plan: StreamPlan, items: seq<Item>)
    requires plan.ItemsUsable(items) && Swept(plan, items).Some?
    requires forall i :: 0 <= i < |items| ==>
      plan.StepItem(items[i]).Success? && plan.StepItem(items[i]).value == KeptRecord(items[i], plan.checks)
    ensures AllReadable(ParsedRecords(items), plan.checks)
    ensures Swept(plan, items).value == Survivors(ParsedRecords(items), plan.checks)
  {
    ParsedRecordsReadable(items, plan.checks);
    if items != [] {
      var rest, last := items[..|items| - 1], items[|items| - 1];
      assert items == rest + [last];
      SweptSnoc(plan, rest, last);
      SweptAreSurvivors(plan, rest);
      if last.Parsed? {
        SurvivorsSnoc(ParsedRecords(rest), last.record, plan.checks);
      } else {
        assert ParsedRecords(items) == ParsedRecords(rest);
      }
    }
  }

  /** Pass 2 over the items of pass 1 diverges nowhere exactly when rows that share a line share an outcome. */
  lemma UnmodifiedSweeps(plan: StreamPlan, items: seq<Item>)
    requires HeldTo(plan, items)
    ensures AllReadable(ParsedRecords(items), plan.checks)
    ensures Swept(plan, items).Some? <==> OutcomesByLine(items, plan.checks)
    ensures Swept(plan, items).Some? ==> Swept(plan, items).value == Survivors(ParsedRecords(items), plan.checks)
  {
    ParsedRecordsReadable(items, plan.checks);
    SweptIffNoneDiverges(plan, items);
    forall i | 0 <= i < |items|
      ensures plan.StepItem(items[i]).Success? <==>
        (items[i].IsRow() && RejectedAtLine(items, plan.checks, items[i].Line()) ==> Rejected(items[i], plan.checks))
      ensures plan.StepItem(items[i]).Success? ==> plan.StepItem(items[i]).value == KeptRecord(items[i], plan.checks)
    {
      StepMatches(plan, items, i);
    }
    if Swept(plan, items).Some? {
      SweptAreSurvivors(plan, items);
    }
  }

  // ----- Delivery -----

  ghost predicate AllMaterialize(fields: seq<PlannedField>, records: seq<SourceRecord>) {
    forall f, i :: 0 <= f < |fields| && 0 <= i < |records| ==> Materializes(fields[f], records[i])
  }

  function TotalRows(batches: seq<Batch>): nat {
    if batches == [] then 0 else batches[0].rows + TotalRows(batches[1..])
  }

  lemma MaterializableChunkBuilds(plan: StreamPlan, records: seq<SourceRecord>)
    requires plan.AllUsable(records) && plan.fields != [] && AllMaterialize(plan.fields, records)
    ensures BuiltChunk(plan.fields, records).Success? && BuiltChunk(plan.fields, records).value.rows == |records|
  {
    BuildsIffBuildable(plan.fields, records);
    forall f, i | 0 <= f < |plan.fields| && 0 <= i < |records| ensures CellAllowed(plan.fields[f], records[i]) {
      assert Materializes(plan.fields[f], records[i]);
    }
  }

  /** Every chunk of materializable survivors builds, and together they hold one row per survivor. */
  lemma {:induction false} ChunksBuild(plan: StreamPlan, survivors: seq<SourceRecord>)
    requires plan.AllUsable(survivors) && plan.fields != [] && plan.chunkRows > 0
    requires AllMaterialize(plan.fields, survivors)
    ensures ChunksUsable(plan, Chunked(survivors, plan.chunkRows))
    ensures BuildAll(plan, Chunked(survivors, plan.chunkRows)).Some?
    ensures TotalRows(BuildAll(plan, Chunked(survivors, plan.chunkRows)).value) == |survivors|
    decreases |survivors|
  {
    var n := plan.chunkRows;
    if |survivors| <= n {
      MaterializableChunkBuilds(plan, survivors);
      BuildAllOne(plan, survivors);
    } else {
      MaterializableChunkBuilds(plan, survivors[..n]);
      ChunksBuild(plan, survivors[n..]);
      BuildAllStep(plan, survivors[..n], Chunked(survivors[n..], n));
      var later := BuildAll(plan, Chunked(survivors[n..], n)).value;
      assert ([BuiltChunk(plan.fields, survivors[..n]).value] + later)[1..] == later;
    }
  }

  lemma SurvivorsMaterialize(input: Input)
    requires input.Readable() && input.Resolution().Success?
    ensures input.Checks().Some? && input.Resolution().value.fields != []
    ensures AllMaterialize(input.Resolution().value.fields, input.Survivors())
  {
    ResolutionHasChecks(input);
    MaterializationIsInfallible(input, 0, 0);
    forall f, i | 0 <= f < |input.Resolution().value.fields| && 0 <= i < |input.Survivors()|
      ensures Materializes(input.Resolution().value.fields[f], input.Survivors()[i])
    {
      MaterializationIsInfallible(input, f, i);
    }
  }

  lemma SurvivorsUsable(plan: StreamPlan, items: seq<Item>)
    requires plan.ItemsUsable(items) && AllReadable(ParsedRecords(items), plan.checks)
    ensures plan.AllUsable(Survivors(ParsedRecords(items), plan.checks))
  {
    var records := ParsedRecords(items);
    forall i | 0 <= i < |Survivors(records, plan.checks)| ensures plan.Usable(Survivors(records, plan.checks)[i]) {
      SurvivorPasses(records, plan.checks, i);
      var k :| 0 <= k < |records| && records[k] == Survivors(records, plan.checks)[i];
      ParsedRecordIsItem(items, k);
    }
  }

  /** The run delivers these survivors in chunks, one row each. */
  ghost predicate Delivers(run: Yields, plan: StreamPlan, survivors: seq<SourceRecord>) {
    && plan.chunkRows > 0 && ChunksUsable(plan, Chunked(survivors, plan.chunkRows))
    && Some(run.batches) == BuildAll(plan, Chunked(survivors, plan.chunkRows))
    && TotalRows(run.batches) == |survivors|
  }

  lemma HeldPlanReplays(plan: StreamPlan, items: seq<Item>)
    requires HeldTo(plan, items) && plan.chunkRows > 0 && plan.fields != []
    requires plan.expectations.rows == RowCount(items)
    requires AllReadable(ParsedRecords(items), plan.checks)
    requires AllMaterialize(plan.fields, Survivors(ParsedRecords(items), plan.checks))
    ensures var run := StreamOf(plan, SecondPass(true, items, plan.expectations.hash));
      && (run.failure.None? <==> OutcomesByLine(items, plan.checks))
      && (run.failure.None? ==> Delivers(run, plan, Survivors(ParsedRecords(items), plan.checks)))
  {
    var survivors := Survivors(ParsedRecords(items), plan.checks);
    UnmodifiedSweeps(plan, items);
    SurvivorsUsable(plan, items);
    ChunksBuild(plan, survivors);
    StreamCompletesExactly(plan, SecondPass(true, items, plan.expectations.hash));
  }

  /**
   * The whole of pass 2 over an unmodified source. It ends without failure exactly when rows that share
   * a line share an outcome; it has then delivered pass 1's survivors in source order, cut into chunks,
   * and every source row is either written or rejected.
   */
  lemma UnmodifiedSourceReplays(input: Input, read: SourceRead, items: seq<Item>)
    requires input.Readable() && input.records == ParsedRecords(items) && input.Resolution().Success?
    requires read.resolution == input.Resolution().value
    requires read.plan.fields == read.resolution.fields && read.plan.checks == read.resolution.checks
    requires HeldTo(read.plan, items) && read.plan.chunkRows > 0
    requires read.plan.expectations.rows == RowCount(items) == read.sourceRows
    requires read.rejectedCount == |ItemRejections(items, read.plan.checks)|
    ensures input.Checks().Some?
    ensures var run := StreamOf(read.plan, SecondPass(true, items, read.plan.expectations.hash));
      && (run.failure.None? <==> OutcomesByLine(items, read.plan.checks))
      && (run.failure.None? ==>
            Delivers(run, read.plan, input.Survivors()) && TotalRows(run.batches) + read.rejectedCount == read.sourceRows)
  {
    ResolutionHasChecks(input);
    SurvivorsMaterialize(input);
    RowsAreConserved(items, read.plan.checks);
    HeldPlanReplays(read.plan, items);
  }

  // ----- From pass 1 to the plan it is held to -----

  lemma FieldOverReadsSlot(t: SchemaTransform, fieldNames: seq<string>, pin: seq<PinnedField>,
    overrides: seq<FieldOverride>, types: seq<InferredType>, f: nat)
    requires AllKnown(t, fieldNames) && AllNamed(Columns(t, fieldNames), PinNames(pin))
    requires InRange(OutsideColumns(Columns(t, fieldNames), pin), |types|)
    requires f < |FieldsOver(t, fieldNames, pin, overrides, types)|
    ensures var field := FieldsOver(t, fieldNames, pin, overrides, types)[f];
      ReadsSlot(field.source, field.observedIndex, t, fieldNames)
  {
    var columns := Columns(t, fieldNames);
    var matched, outside := MatchedFields(pin, columns), OutsideColumns(columns, pin);
    var fields := FieldsOver(t, fieldNames, pin, overrides, types);
    if f < |pin| {
      assert fields[f] == matched[f];
      ColumnsReadSlots(t, fieldNames, ColumnNamed(columns, PinNames(pin)[f]));
    } else {
      var k := f - |pin|;
      assert fields[f] == InferredField(outside[k], types, overrides);
      assert outside[k] in outside;
      ColumnsReadSlots(t, fieldNames, outside[k]);
    }
  }

  lemma PlannedFieldReadsSlot(directive: Directive, mergeKeys: seq<string>, fieldNames: seq<string>,
    all: seq<InferredType>, types: seq<InferredType>, f: nat)
    requires |all| == |types| == ShapeWidth(directive, fieldNames)
    requires var r := ResolvePlan(directive, mergeKeys, fieldNames, all, types);
      r.Success? && f < |r.value.fields|
    ensures var field := ResolvePlan(directive, mergeKeys, fieldNames, all, types).value.fields[f];
      ReadsSlot(field.source, field.observedIndex, directive.transform, fieldNames)
  {
    PlanShape(directive, mergeKeys, fieldNames, all, types);
    FieldOverReadsSlot(directive.transform, fieldNames, PinUsed(directive), directive.overrides, types, f);
  }

  /** A resolved plan can read every record the source shape can produce, in either pass. */
  lemma ResolvedPlanReads(input: Input, plan: StreamPlan, items: seq<Item>)
    requires input.Readable() && input.Resolution().Success?
    requires plan.fields == input.Resolution().value.fields && plan.checks == input.Resolution().value.checks
    requires Shaped(ParsedRecords(items), input.directive.transform, input.fieldNames)
    ensures plan.ItemsUsable(items) && ItemsReadable(items, plan.checks)
  {
    var t, records := input.directive.transform, ParsedRecords(items);
    SurvivorsAreShaped(input);
    var all := ObservedTypes(input.records, t, input.fieldNames);
    var types := ObservedTypes(if input.Checks().Some? then input.Survivors() else [], t, input.fieldNames);
    ResolvedChecksReadable(records, input.directive, input.mergeKeys, input.fieldNames, all, types);
    ItemsReadableFrom(items, plan.checks);
    forall i, f | 0 <= i < |records| && 0 <= f < |plan.fields|
      ensures CanRead(records[i], plan.fields[f].source, plan.fields[f].observedIndex)
    {
      PlannedFieldReadsSlot(input.directive, input.mergeKeys, input.fieldNames, all, types, f);
      SlotReadable(records, t, input.fieldNames, plan.fields[f].observedIndex);
    }
    forall i | 0 <= i < |items| && items[i].Parsed? ensures plan.Usable(items[i].record) {
      ItemIsParsedRecord(items, i);
      var k :| 0 <= k < |records| && records[k] == items[i].record;
    }
  }

  /** On distinct lines outcomes are kept faithfully. */
  lemma OrderedLinesDecide(items: seq<Item>, checks: seq<FieldCheck>)
    requires LineOrdered(items) && ItemsReadable(items, checks)
    ensures OutcomesByLine(items, checks)
  {
  }

  /** Under a header of one field: a row of two cells, then one of one, both reported at the first line. */
  function OneLineTwoRows(a: string, b: string, text: string): seq<Item> {
    CsvItems([Row(1, [a, b]), Row(1, [text])], 1)
  }

  /**
   * Two CSV rows at one line, as when rows end in a bare carriage return, which ends a record and starts no
   * line: the first is rejected for its length and the second is not, so pass 2 over the very same file
   * reports a change before its first chunk, whatever plan without checks it is held to.
   */
  lemma SharedLineDiverges(a: string, b: string, text: string, plan: StreamPlan)
    requires HeldTo(plan, OneLineTwoRows(a, b, text)) && plan.checks == [] && plan.chunkRows > 0
    ensures !OutcomesByLine(OneLineTwoRows(a, b, text), [])
    ensures StreamOf(plan, SecondPass(true, OneLineTwoRows(a, b, text), plan.expectations.hash))
         == Yields([], Some(SourceChangedDuringLoad))
  {
    var items := OneLineTwoRows(a, b, text);
    assert items[0] == Malformed(1) && items[1].Parsed? && items[1].record.line == 1;
    assert Rejected(items[0], []) && !Rejected(items[1], []);
    assert OnOneLine(items[0], items[1]);
    StepMatches(plan, items, 0);
    StepMatches(plan, items, 1);
    assert RejectedAtLine(items, plan.checks, 1);
    assert plan.StepItem(items[0]) == Success(None) && plan.StepItem(items[1]) == Failure(SourceChangedDuringLoad);
    assert items[1..][0] == items[1] && [] + Contribution(None) == [];
    assert Gather(plan, items[1..], []) == Diverged(SourceChangedDuringLoad) == Gather(plan, items, []);
  }

  /** A CSV load over an unmodified file: pass 2 completes exactly when rows at one line share an outcome. */
  lemma CsvReplays(directive: Directive, mergeKeys: seq<string>, header: seq<string>, rows: seq<CsvRow>,
    read: SourceRead, chunkRows: nat, rejected: seq<Rejection>, hash: bv64)
    requires directive.Valid() && directive.transform.flatten == [] && header != [] && chunkRows > 0
    requires CsvInput(directive, mergeKeys, header, rows).Valid()
    requires CsvInput(directive, mergeKeys, header, rows).Resolution() == Success(read.resolution)
    requires Establishes(read, CsvItems(rows, |header|), None, chunkRows, rejected, hash)
    ensures read.plan.ItemsUsable(CsvItems(rows, |header|))
    ensures CsvInput(directive, mergeKeys, header, rows).Checks().Some?
    ensures var run := StreamOf(read.plan, SecondPass(true, CsvItems(rows, |header|), hash));
      && (run.failure.None? <==> OutcomesByLine(CsvItems(rows, |header|), read.plan.checks))
      && (run.failure.None? ==>
            && Delivers(run, read.plan, CsvInput(directive, mergeKeys, header, rows).Survivors())
            && TotalRows(run.batches) + read.rejectedCount == read.sourceRows)
  {
    var input, items := CsvInput(directive, mergeKeys, header, rows), CsvItems(rows, |header|);
    ResolvedPlanReads(input, read.plan, items);
    ResolutionHasChecks(input);
    UnmodifiedSourceReplays(input, read, items);
  }

  lemma KeysStayInShape(lines: seq<JsonlLine>, plan: StreamPlan, i: nat)
    requires plan.shape == Some(Elements(KeyUnion(ParsedRecords(JsonlItems(lines)))))
    requires i < |lines| && JsonlItems(lines)[i].Parsed?
    ensures !plan.OutsideShape(JsonlItems(lines)[i].record)
  {
    var items := JsonlItems(lines);
    KeyUnionHoldsKeys(ParsedRecords(items));
    ItemIsParsedRecord(items, i);
  }

  /** A JSONL load over an unmodified file always completes: its lines are numbered, so no two share one. */
  lemma JsonlReplays(directive: Directive, mergeKeys: seq<string>, lines: seq<JsonlLine>,
    read: SourceRead, chunkRows: nat, rejected: seq<Rejection>, hash: bv64)
    requires directive.Valid() && chunkRows > 0 && forall i :: 0 <= i < |lines| ==> lines[i].Valid()
    requires JsonlInput(directive, mergeKeys, lines).ValidJson()
    requires JsonlInput(directive, mergeKeys, lines).Resolution() == Success(read.resolution)
    requires Establishes(read, JsonlItems(lines), Some(Elements(JsonlInput(directive, mergeKeys, lines).fieldNames)),
                         chunkRows, rejected, hash)
    ensures read.plan.ItemsUsable(JsonlItems(lines)) && JsonlInput(directive, mergeKeys, lines).Checks().Some?
    ensures var run := StreamOf(read.plan, SecondPass(true, JsonlItems(lines), hash));
      && run.failure.None?
      && Delivers(run, read.plan, JsonlInput(directive, mergeKeys, lines).Survivors())
      && TotalRows(run.batches) + read.rejectedCount == read.sourceRows
  {
    var input, items := JsonlInput(directive, mergeKeys, lines), JsonlItems(lines);
    ResolvedPlanReads(input, read.plan, items);
    forall i | 0 <= i < |items| && items[i].Parsed? ensures !read.plan.OutsideShape(items[i].record) {
      KeysStayInShape(lines, read.plan, i);
    }
    JsonlLinesOrdered(lines);
    OrderedLinesDecide(items, read.plan.checks);
    UnmodifiedSourceReplays(input, read, items);
  }
}
