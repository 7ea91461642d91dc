/** Pass 1 over a source: one sweep that observes, judges and rejects, and resolves the plan pass 2 is held to. */
module SourceReads {
  import opened Wrappers
  import opened Failures
  import opened Sequences
  import opened FieldTypes
  import opened Records
  import opened Transforms
  import opened Schemas
  import opened Observations
  import opened Observers
  import opened Inputs
  import opened Sources
  import opened Chunks
  import opened Rejections
  import opened Streams
  import Agreement
  import Fnv

  /** What pass 1 hands over: the resolution, the plan of the chunk stream, and the row counts. */
  datatype SourceRead = SourceRead(resolution: Resolution, plan: StreamPlan, sourceRows: nat, rejectedCount: nat)

  function LineSet(rejections: seq<Rejection>): set<nat> {
    set r | r in rejections :: r.line
  }

  function PlanOf(
    resolution: Resolution, shape: Option<set<string>>, chunkRows: nat, rejected: seq<Rejection>, rows: nat, hash: bv64)
    : StreamPlan
  {
    StreamPlan(resolution.fields, resolution.checks, shape, chunkRows, Expectations(LineSet(rejected), rows, hash))
  }

  /** The rejections a CSV pass streams: all of them under a healthy shape verdict, else the parse ones. */
  function StreamedRejections(items: seq<Item>, checks: Option<seq<FieldCheck>>): seq<Rejection>
    requires checks.Some? ==> ItemsReadable(items, checks.value)
  {
    if checks.Some? then ItemRejections(items, checks.value) else ParseRejections(items)
  }

  function CsvInput(directive: Directive, mergeKeys: seq<string>, header: seq<string>, rows: seq<CsvRow>): Input {
    Input(directive, mergeKeys, header, ParsedRecords(CsvItems(rows, |header|)))
  }

  lemma CsvInputIsValid(directive: Directive, mergeKeys: seq<string>, header: seq<string>, rows: seq<CsvRow>)
    requires directive.Valid() && directive.transform.flatten == [] && header != []
    ensures CsvInput(directive, mergeKeys, header, rows).Valid()
    ensures CsvInput(directive, mergeKeys, header, rows).Checks() == ProbedChecks(directive, mergeKeys, header)
  {
    CsvRecords(rows, |header|);
    ProbeIsShapeVerdict(CsvInput(directive, mergeKeys, header, rows));
  }

  /** The header probe is the input's own shape verdict. */
  lemma ProbeIsShapeVerdict(input: Input)
    requires input.directive.transform.flatten == []
    ensures input.Checks() == ProbedChecks(input.directive, input.mergeKeys, input.fieldNames)
  {
  }

  lemma CsvRecords(rows: seq<CsvRow>, width: nat)
    ensures forall i :: 0 <= i < |ParsedRecords(CsvItems(rows, width))| ==>
      ParsedRecords(CsvItems(rows, width))[i].TextRecord? && ParsedRecords(CsvItems(rows, width))[i].Valid(width)
  {
    var items := CsvItems(rows, width);
    var records := ParsedRecords(items);
    forall i | 0 <= i < |records| ensures records[i].TextRecord? && records[i].Valid(width) {
      ParsedRecordIsItem(items, i);
    }
  }

  lemma ItemsReadableFrom(items: seq<Item>, checks: seq<FieldCheck>)
    requires AllReadable(ParsedRecords(items), checks)
    ensures ItemsReadable(items, checks)
  {
    forall i | 0 <= i < |items| && items[i].Parsed? ensures Readable(items[i].record, checks) {
      ItemIsParsedRecord(items, i);
    }
  }

  lemma CsvItemsReadable(directive: Directive, mergeKeys: seq<string>, header: seq<string>, rows: seq<CsvRow>)
    requires directive.Valid() && directive.transform.flatten == [] && header != []
    requires ProbedChecks(directive, mergeKeys, header).Some?
    ensures ItemsReadable(CsvItems(rows, |header|), ProbedChecks(directive, mergeKeys, header).value)
  {
    CsvInputIsValid(directive, mergeKeys, header, rows);
    ChecksReadable(CsvInput(directive, mergeKeys, header, rows));
    ItemsReadableFrom(CsvItems(rows, |header|), ProbedChecks(directive, mergeKeys, header).value);
  }

  /** What the observer resolves over the survivors it kept is the input's own resolution. */
  lemma FinishIsResolution(input: Input, survived: seq<SourceRecord>)
    requires input.Valid() && SurvivedUnder(input.Checks(), input.records, survived)
    requires Shaped(survived, input.directive.transform, input.fieldNames)
    ensures input.Resolution() == ResolvePlan(input.directive, input.mergeKeys, input.fieldNames,
      ObservedTypes(input.records, input.directive.transform, input.fieldNames),
      ObservedTypes(survived, input.directive.transform, input.fieldNames))
  {
  }

  lemma ItemSnoc(items: seq<Item>, i: nat, checks: Option<seq<FieldCheck>>)
    requires i < |items| && (checks.Some? ==> ItemsReadable(items, checks.value))
    ensures RowCount(items[..i + 1]) == RowCount(items[..i]) + if items[i].IsRow() then 1 else 0
    ensures ParsedRecords(items[..i + 1])
         == ParsedRecords(items[..i]) + (if items[i].Parsed? then [items[i].record] else [])
    ensures StreamedRejections(items[..i + 1], checks) == StreamedRejections(items[..i], checks)
      + (match checks
         case Some(cs) => Listed(ItemRejection(items[i], cs))
         case None => if items[i].Malformed? then [Rejection(items[i].line, MalformedRecord, None)] else [])
  {
    assert items[..i + 1][..i] == items[..i];
  }

  /** Feeds every item to the observer and every rejection to the sink; counts the rows. */
  method SweepCsv(observer: TextObserver, items: seq<Item>, sink: RejectionSink) returns (rows: nat)
    requires observer.Valid() && observer.observed == [] && sink.Valid() && sink.artifact == []
    requires forall i :: 0 <= i < |items| && items[i].Parsed? ==>
      items[i].record.TextRecord? && items[i].record.Valid(|observer.fieldNames|)
    requires observer.checks.Some? ==> ItemsReadable(items, observer.checks.value)
    modifies observer, sink
    ensures observer.Valid() && observer.checks == old(observer.checks) && sink.Valid()
    ensures observer.observed == ParsedRecords(items) && rows == RowCount(items)
    ensures sink.artifact == StreamedRejections(items, old(observer.checks))
  {
    ghost var checks := observer.checks;
    var parsed, malformed := 0, 0;
    for i := 0 to |items|
      invariant observer.Valid() && observer.checks == checks && sink.Valid()
      invariant observer.observed == ParsedRecords(items[..i])
      invariant parsed + malformed == RowCount(items[..i])
      invariant sink.artifact == StreamedRejections(items[..i], checks)
    {
      ItemSnoc(items, i, checks);
      match items[i]
      case Blank =>
      case Malformed(line) =>
        malformed := malformed + 1;
        sink.Record(Rejection(line, MalformedRecord, None));
      case Parsed(record) =>
        parsed := parsed + 1;
        var rejection := observer.Observe(record);
        if rejection.Some? {
          sink.Record(rejection.value);
        }
    }
    assert items[..|items|] == items;
    rows := parsed + malformed;
  }

  /** Everything a successful pass 1 establishes about its items. */
  ghost predicate Establishes(read: SourceRead, items: seq<Item>, shape: Option<set<string>>, chunkRows: nat,
    rejected: seq<Rejection>, hash: bv64)
  {
    && ItemsReadable(items, read.resolution.checks)
    && rejected == ItemRejections(items, read.resolution.checks)
    && read.sourceRows == RowCount(items) && read.rejectedCount == |rejected|
    && read.plan == PlanOf(read.resolution, shape, chunkRows, rejected, RowCount(items), hash)
  }

  /**
   * Pass 1 over a CSV source. On success it resolves the input's own resolution, with every rejection in
   * the sink; on failure the sink holds the parse rejections alone.
   */
  method ReadCsv(directive: Directive, mergeKeys: seq<string>, header: seq<string>, rows: seq<CsvRow>,
    blocks: seq<seq<bv8>>, chunkRows: nat, sink: RejectionSink) returns (r: Result<SourceRead, SchemaFailure>)
    requires directive.Valid() && directive.transform.flatten == [] && header != []
    requires sink.Valid() && sink.artifact == []
    modifies sink
    ensures sink.Valid() && CsvInput(directive, mergeKeys, header, rows).Valid()
    ensures match (r, CsvInput(directive, mergeKeys, header, rows).Resolution()) {
      case (Success(read), Success(resolution)) =>
        read.resolution == resolution && Establishes(read, CsvItems(rows, |header|), None, chunkRows, sink.artifact,
                                                     Fnv.Hash(Flatten(blocks)))
      case (Failure(failure), Failure(expected)) =>
        failure == expected && sink.artifact == ParseRejections(CsvItems(rows, |header|))
      case _ => false
    }
  {
    var items := CsvItems(rows, |header|);
    ghost var input := CsvInput(directive, mergeKeys, header, rows);
    CsvInputIsValid(directive, mergeKeys, header, rows);
    var observer := new TextObserver(directive, mergeKeys, header);
    if observer.checks.Some? {
      CsvItemsReadable(directive, mergeKeys, header, rows);
    }
    var sourceRows := SweepCsv(observer, items, sink);
    FinishIsResolution(input, observer.survived);
    var hash := Fnv.HashReads(blocks);
    var resolution := observer.Finish();
    if resolution.Failure? {
      return Failure(resolution.error);
    }
    return Success(SourceRead(
      resolution.value, PlanOf(resolution.value, None, chunkRows, sink.artifact, sourceRows, hash),
      sourceRows, sink.count));
  }

  // ----- JSONL -----

  /** The names followed by the keys not yet among them, each once, in first-seen order. */
  function AddKeys(names: seq<string>, keys: seq<string>): seq<string>
    decreases keys
  {
    if keys == [] then names
    else AddKeys(if keys[0] in names then names else names + [keys[0]], keys[1..])
  }

  lemma {:induction false} AddedKeys(names: seq<string>, keys: seq<string>)
    requires Distinct(names)
    ensures Distinct(AddKeys(names, keys))
    ensures forall k :: k in AddKeys(names, keys) <==> k in names || k in keys
    decreases keys
  {
    if keys != [] {
      AddedKeys(if keys[0] in names then names else names + [keys[0]], keys[1..]);
    }
  }

  function KeysOf(record: SourceRecord): seq<string> {
    if record.JsonRecord? then record.keys else []
  }

  /** The key union of the records, in first-seen order. */
  function KeyUnion(records: seq<SourceRecord>): seq<string> {
    if records == [] then []
    else
      var last := |records| - 1;
      AddKeys(KeyUnion(records[..last]), KeysOf(records[last]))
  }

  /** The union holds the keys of every record, each once. */
  lemma {:induction false} KeyUnionHoldsKeys(records: seq<SourceRecord>)
    ensures Distinct(KeyUnion(records))
    ensures forall i, k :: 0 <= i < |records| && k in KeysOf(records[i]) ==> k in KeyUnion(records)
  {
    if records != [] {
      var last := |records| - 1;
      KeyUnionHoldsKeys(records[..last]);
      AddedKeys(KeyUnion(records[..last]), KeysOf(records[last]));
      forall i, k | 0 <= i < |records| && k in KeysOf(records[i]) ensures k in KeyUnion(records) {
        if i < last {
          assert records[i] == records[..last][i];
        }
      }
    }
  }

  /** Inserts a record's keys; `seen` is the set of the names. */
  method InsertKeys(names: seq<string>, seen: set<string>, keys: seq<string>)
    returns (names': seq<string>, seen': set<string>)
    requires seen == Elements(names)
    ensures names' == AddKeys(names, keys) && seen' == Elements(names')
  {
    names', seen' := names, seen;
    for i := 0 to |keys|
      invariant seen' == Elements(names')
      invariant AddKeys(names', keys[i..]) == AddKeys(names, keys)
    {
      assert keys[i..][0] == keys[i] && keys[i..][1..] == keys[i + 1..];
      if keys[i] !in seen' {
        names', seen' := names' + [keys[i]], seen' + {keys[i]};
      }
    }
  }

  function JsonlInput(directive: Directive, mergeKeys: seq<string>, lines: seq<JsonlLine>): Input {
    var records := ParsedRecords(JsonlItems(lines));
    Input(directive, mergeKeys, KeyUnion(records), records)
  }

  lemma JsonlRecords(lines: seq<JsonlLine>)
    ensures forall i :: 0 <= i < |ParsedRecords(JsonlItems(lines))| ==> ParsedRecords(JsonlItems(lines))[i].JsonRecord?
    ensures (forall i :: 0 <= i < |lines| ==> lines[i].Valid()) ==> WellFormedJson(ParsedRecords(JsonlItems(lines)))
  {
    var records := ParsedRecords(JsonlItems(lines));
    forall i | 0 <= i < |records|
      ensures records[i].JsonRecord?
      ensures (forall k :: 0 <= k < |lines| ==> lines[k].Valid()) ==> records[i].Valid(0)
    {
      ParsedRecordIsItem(JsonlItems(lines), i);
      var k :| 0 <= k < |lines| && JsonlItem(lines[k], k + 1) == Parsed(records[i]);
      assert lines[k].Valid() ==> records[i].Valid(0);
    }
  }

  lemma JsonlInputIsValid(directive: Directive, mergeKeys: seq<string>, lines: seq<JsonlLine>)
    requires directive.Valid() && forall i :: 0 <= i < |lines| ==> lines[i].Valid()
    ensures JsonlInput(directive, mergeKeys, lines).fieldNames != [] ==>
      JsonlInput(directive, mergeKeys, lines).ValidJson()
    ensures ItemsReadable(JsonlItems(lines), DirectiveChecks(directive, mergeKeys))
  {
    var t := directive.transform;
    JsonlRecords(lines);
    KeyUnionHoldsKeys(ParsedRecords(JsonlItems(lines)));
    DerivedReadable(directive, mergeKeys, ParsedRecords(JsonlItems(lines)));
    ItemsReadableFrom(JsonlItems(lines), DirectiveChecks(directive, mergeKeys));
    assert forall i :: 0 <= i < |t.flatten| ==> t.flatten[i].Valid();
  }

  lemma JsonlSnoc(items: seq<Item>, item: Item, checks: seq<FieldCheck>)
    requires ItemsReadable(items, checks) && (item.Parsed? ==> Readable(item.record, checks))
    ensures ItemsReadable(items + [item], checks)
    ensures RowCount(items + [item]) == RowCount(items) + if item.IsRow() then 1 else 0
    ensures ParsedRecords(items + [item]) == ParsedRecords(items) + ParsedPart(item)
    ensures ParseRejections(items + [item]) == ParseRejections(items) + MalformedPart(item)
    ensures Spilled(items + [item], checks) == Spilled(items, checks) + SpilledPart(item, checks)
  {
    assert (items + [item])[..|items|] == items;
  }

  lemma KeyUnionSnoc(records: seq<SourceRecord>, record: SourceRecord)
    ensures KeyUnion(records + [record]) == AddKeys(KeyUnion(records), KeysOf(record))
  {
    assert (records + [record])[..|records|] == records;
  }

  function ParsedPart(item: Item): seq<SourceRecord> {
    if item.Parsed? then [item.record] else []
  }

  function MalformedPart(item: Item): seq<Rejection> {
    if item.Malformed? then [Rejection(item.line, MalformedRecord, None)] else []
  }

  function SpilledPart(item: Item, checks: seq<FieldCheck>): seq<SourceRecord>
    requires item.Parsed? ==> Readable(item.record, checks)
  {
    if item.Parsed? && RecordViolates(item.record, checks) then [item.record] else []
  }

  /** Observes one record, and spills it when the early checks reject it. */
  method JudgeRecord(observer: JsonObserver, record: SourceRecord, spill: ValidationSpill)
    requires observer.Valid() && record.JsonRecord? && record.Valid(0) && Readable(record, observer.checks)
    modifies observer, spill
    ensures observer.Valid() && observer.observed == old(observer.observed) + [record]
    ensures spill.entries == old(spill.entries) + SpilledPart(Parsed(record), observer.checks)
  {
    var rejected := observer.Observe(record);
    if rejected {
      spill.Record(record);
    }
  }

  /** A record's keys join the union of the records before it. */
  method GrowUnion(ghost observed: seq<SourceRecord>, item: Item, names: seq<string>, seen: set<string>)
    returns (names': seq<string>, seen': set<string>)
    requires item.Parsed? ==> item.record.JsonRecord?
    requires names == KeyUnion(observed) && seen == Elements(names)
    ensures names' == KeyUnion(observed + ParsedPart(item)) && seen' == Elements(names')
  {
    if !item.Parsed? {
      assert observed + [] == observed;
      return names, seen;
    }
    KeyUnionSnoc(observed, item.record);
    names', seen' := InsertKeys(names, seen, item.record.keys);
  }

  /** Takes one item: a parse rejection goes to the sink, and a record spills when the early checks reject it. */
  method TakeItem(observer: JsonObserver, item: Item, sink: RejectionSink, spill: ValidationSpill)
    requires observer.Valid() && sink.Valid()
    requires item.Parsed? ==> item.record.JsonRecord? && item.record.Valid(0) && Readable(item.record, observer.checks)
    modifies observer, sink, spill
    ensures observer.Valid() && observer.observed == old(observer.observed) + ParsedPart(item)
    ensures sink.Valid() && sink.artifact == old(sink.artifact) + MalformedPart(item)
    ensures spill.entries == old(spill.entries) + SpilledPart(item, observer.checks)
  {
    match item
    case Blank =>
    case Malformed(line) =>
      sink.Record(Rejection(line, MalformedRecord, None));
    case Parsed(record) =>
      JudgeRecord(observer, record, spill);
  }

  /** What a pass has gathered from these items: records, parse rejections, spilled records, and the row count. */
  ghost predicate Gathered(items: seq<Item>, checks: seq<FieldCheck>, records: seq<SourceRecord>,
    artifact: seq<Rejection>, spilled: seq<SourceRecord>, rows: nat)
  {
    && ItemsReadable(items, checks) && records == ParsedRecords(items) && artifact == ParseRejections(items)
    && spilled == Spilled(items, checks) && rows == RowCount(items)
  }

  lemma GatheredSnoc(items: seq<Item>, item: Item, checks: seq<FieldCheck>, records: seq<SourceRecord>,
    artifact: seq<Rejection>, spilled: seq<SourceRecord>, rows: nat)
    requires Gathered(items, checks, records, artifact, spilled, rows) && (item.Parsed? ==> Readable(item.record, checks))
    ensures Gathered(items + [item], checks, records + ParsedPart(item), artifact + MalformedPart(item),
                     spilled + SpilledPart(item, checks), if item.IsRow() then rows + 1 else rows)
  {
    JsonlSnoc(items, item, checks);
  }

  /** Observes, rejects and spills every item, growing the key union; counts the rows. */
  method SweepJsonl(observer: JsonObserver, items: seq<Item>, sink: RejectionSink, spill: ValidationSpill)
    returns (fieldNames: seq<string>, shape: set<string>, rows: nat)
    requires observer.Valid() && observer.observed == [] && spill.entries == []
    requires sink.Valid() && sink.artifact == []
    requires ItemsReadable(items, observer.checks)
    requires forall i :: 0 <= i < |items| && items[i].Parsed? ==> items[i].record.JsonRecord? && items[i].record.Valid(0)
    modifies observer, sink, spill
    ensures observer.Valid() && sink.Valid()
    ensures observer.observed == ParsedRecords(items) && rows == RowCount(items)
    ensures sink.artifact == ParseRejections(items) && spill.entries == Spilled(items, observer.checks)
    ensures fieldNames == KeyUnion(observer.observed) && shape == Elements(fieldNames)
  {
    ghost var seen: seq<Item> := [];
    fieldNames, shape, rows := [], {}, 0;
    for i := 0 to |items|
      invariant observer.Valid() && sink.Valid()
      invariant seen == items[..i]
      invariant Gathered(seen, observer.checks, observer.observed, sink.artifact, spill.entries, rows)
      invariant fieldNames == KeyUnion(observer.observed) && shape == Elements(fieldNames)
    {
      var item := items[i];
      GatheredSnoc(seen, item, observer.checks, observer.observed, sink.artifact, spill.entries, rows);
      seen := seen + [item];
      fieldNames, shape := GrowUnion(observer.observed, item, fieldNames, shape);
      TakeItem(observer, item, sink, spill);
      if item.IsRow() {
        rows := rows + 1;
      }
    }
    assert seen == items;
  }

  /** The early checks and the resolved ones judge every record of the pass alike. */
  lemma LinesJudgedAlike(directive: Directive, mergeKeys: seq<string>, lines: seq<JsonlLine>)
    requires directive.Valid() && forall i :: 0 <= i < |lines| ==> lines[i].Valid()
    requires JsonlInput(directive, mergeKeys, lines).fieldNames != []
    requires JsonlInput(directive, mergeKeys, lines).Checks().Some?
    ensures JudgeItemsAlike(JsonlItems(lines), DirectiveChecks(directive, mergeKeys),
                            JsonlInput(directive, mergeKeys, lines).Checks().value)
  {
    var input, items := JsonlInput(directive, mergeKeys, lines), JsonlItems(lines);
    var derived, resolved := DirectiveChecks(directive, mergeKeys), input.Checks().value;
    var nulls := Nulls(ShapeWidth(directive, input.fieldNames));
    JsonlInputIsValid(directive, mergeKeys, lines);
    ChecksReadable(input);
    ItemsReadableFrom(items, resolved);
    forall i | 0 <= i < |items| && items[i].Parsed?
      ensures RecordViolates(items[i].record, derived) <==> RecordViolates(items[i].record, resolved)
    {
      Agreement.DirectiveChecksAgree(directive, mergeKeys, input.fieldNames, nulls, nulls, items[i].record);
    }
  }

  /** Merging the spill under the resolved checks completes the artifact in source order. */
  lemma SpillConfirms(directive: Directive, mergeKeys: seq<string>, lines: seq<JsonlLine>)
    requires directive.Valid() && forall i :: 0 <= i < |lines| ==> lines[i].Valid()
    requires JsonlInput(directive, mergeKeys, lines).fieldNames != []
    requires JsonlInput(directive, mergeKeys, lines).Checks().Some?
    ensures var items, derived := JsonlItems(lines), DirectiveChecks(directive, mergeKeys);
      var resolved := JsonlInput(directive, mergeKeys, lines).Checks().value;
      && ItemsReadable(items, derived) && ItemsReadable(items, resolved)
      && AllReadable(Spilled(items, derived), resolved)
      && Rejections.Merge(ParseRejections(items), Kept(Renders(Spilled(items, derived), resolved)))
           == ItemRejections(items, resolved)
  {
    var items, derived := JsonlItems(lines), DirectiveChecks(directive, mergeKeys);
    var resolved := JsonlInput(directive, mergeKeys, lines).Checks().value;
    LinesJudgedAlike(directive, mergeKeys, lines);
    JsonlLinesOrdered(lines);
    SpilledReadable(items, derived, resolved);
    SpillMergeIsSourceOrder(items, derived, resolved);
  }

  /** Merges the spill into the sink: it then holds every rejection under the resolved checks, in source order. */
  method ConfirmSpill(ghost directive: Directive, ghost mergeKeys: seq<string>, ghost lines: seq<JsonlLine>,
    spill: ValidationSpill, checks: seq<FieldCheck>, sink: RejectionSink)
    requires directive.Valid() && forall i :: 0 <= i < |lines| ==> lines[i].Valid()
    requires JsonlInput(directive, mergeKeys, lines).fieldNames != []
    requires JsonlInput(directive, mergeKeys, lines).Checks() == Some(checks)
    requires ItemsReadable(JsonlItems(lines), DirectiveChecks(directive, mergeKeys))
    requires sink.Valid() && sink.artifact == ParseRejections(JsonlItems(lines))
    requires spill.entries == Spilled(JsonlItems(lines), DirectiveChecks(directive, mergeKeys))
    modifies sink
    ensures sink.Valid() && ItemsReadable(JsonlItems(lines), checks)
    ensures sink.artifact == ItemRejections(JsonlItems(lines), checks)
  {
    SpillConfirms(directive, mergeKeys, lines);
    sink.MergeSpill(spill, checks);
  }

  /** The observer's decision is the input's own: same resolution, or the code of the same failure. */
  method FinishJsonl(observer: JsonObserver, fieldNames: seq<string>, ghost input: Input)
    returns (r: Result<Resolution, SchemaFailure>)
    requires input.ValidJson() && observer.Valid() && observer.observed == input.records
    requires observer.directive == input.directive && observer.mergeKeys == input.mergeKeys
    requires fieldNames == input.fieldNames
    ensures r.Success? <==> input.Checks().Some?
    ensures r.Success? <==> input.Resolution().Success?
    ensures r.Success? ==> r == input.Resolution() && r.value.checks == input.Checks().value
    ensures r.Failure? ==> r.error.code == input.Resolution().error.code
  {
    JsonPassReachesReference(input);
    ResolutionHasChecks(input);
    r := observer.Finish(fieldNames);
  }

  /** What a JSONL pass 1 yields for an input: its own resolution, or the code of its failure. */
  ghost predicate ReadsJsonl(r: Result<SourceRead, SchemaFailure>, input: Input, lines: seq<JsonlLine>, chunkRows: nat,
    rejected: seq<Rejection>, hash: bv64)
    requires input.Readable()
  {
    match (r, input.Resolution())
    case (Success(read), Success(resolution)) =>
      && read.resolution == resolution
      && Establishes(read, JsonlItems(lines), Some(Elements(input.fieldNames)), chunkRows, rejected, hash)
    case (Failure(failure), Failure(expected)) =>
      failure.code == expected.code && rejected == ParseRejections(JsonlItems(lines))
    case _ => false
  }

  /**
   * Pass 1 over a JSONL source. A source whose records carry no field fails; otherwise it resolves the
   * input's own resolution, with every rejection in the sink in source order, or fails with its code,
   * leaving the sink the parse rejections alone.
   */
  method ReadJsonl(directive: Directive, mergeKeys: seq<string>, lines: seq<JsonlLine>, blocks: seq<seq<bv8>>,
    chunkRows: nat, sink: RejectionSink) returns (r: Result<SourceRead, SchemaFailure>)
    requires directive.Valid() && forall i :: 0 <= i < |lines| ==> lines[i].Valid()
    requires sink.Valid() && sink.artifact == []
    modifies sink
    ensures sink.Valid()
    ensures var input := JsonlInput(directive, mergeKeys, lines);
      if input.fieldNames == [] then
        r == Failure(Fail(MalformedJsonl)) && sink.artifact == ParseRejections(JsonlItems(lines))
      else
        && input.ValidJson()
        && ReadsJsonl(r, input, lines, chunkRows, sink.artifact, Fnv.Hash(Flatten(blocks)))
  {
    ghost var input := JsonlInput(directive, mergeKeys, lines);
    JsonlInputIsValid(directive, mergeKeys, lines);
    var observer := new JsonObserver(directive, mergeKeys);
    var spill := new ValidationSpill();
    var fieldNames, shape, sourceRows := SweepJsonl(observer, JsonlItems(lines), sink, spill);
    if fieldNames == [] {
      return Failure(Fail(MalformedJsonl));
    }
    var hash := Fnv.HashReads(blocks);
    var resolution := FinishJsonl(observer, fieldNames, input);
    if resolution.Failure? {
      return Failure(resolution.error);
    }
    ConfirmSpill(directive, mergeKeys, lines, spill, resolution.value.checks, sink);
    return Success(SourceRead(
      resolution.value, PlanOf(resolution.value, Some(shape), chunkRows, sink.artifact, sourceRows, hash),
      sourceRows, sink.count));
  }
}
