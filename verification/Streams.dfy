/**
 * Pass 2: the source is read again against the fixed plan, record by record cross-checked with pass 1,
 * and its survivors go out in chunks of at most `chunkRows` records.
 */
module Streams {
  import opened Wrappers
  import opened Failures
  import opened Records
  import opened Schemas
  import opened Observations
  import opened Sources
  import opened Materialization

  // ----- What pass 2 is held to -----

  /** What pass 1 established: the rejected lines, the rows it counted, and the hash of its bytes. */
  datatype Expectations = Expectations(rejectedLines: set<nat>, rows: nat, hash: bv64)

  /** The fixed plan of a chunk stream. `shape` is the JSONL key union; a CSV stream has none. */
  datatype StreamPlan = StreamPlan(
    fields: seq<PlannedField>,
    checks: seq<FieldCheck>,
    shape: Option<set<string>>,
    chunkRows: nat,
    expectations: Expectations)
  {
    ghost predicate Usable(record: SourceRecord) {
      && Readable(record, checks)
      && forall f :: 0 <= f < |fields| ==> CanRead(record, fields[f].source, fields[f].observedIndex)
    }

    ghost predicate AllUsable(records: seq<SourceRecord>) {
      forall i :: 0 <= i < |records| ==> Usable(records[i])
    }

    ghost predicate ItemsUsable(items: seq<Item>) {
      forall i :: 0 <= i < |items| && items[i].Parsed? ==> Usable(items[i].record)
    }

    predicate OutsideShape(record: SourceRecord) {
      shape.Some? && record.JsonRecord? && exists k :: k in record.keys && k !in shape.value
    }

    /** A row whose outcome differs from pass 1 is divergence; a matching one skips or survives. */
    function CrossCheck(line: nat, rejectedNow: bool): Result<bool, Code> {
      if rejectedNow == (line in expectations.rejectedLines) then Success(rejectedNow)
      else Failure(SourceChangedDuringLoad)
    }

    /** What one item contributes: nothing, a survivor, or divergence. */
    function StepItem(item: Item): Result<Option<SourceRecord>, Code>
      requires item.Parsed? ==> Usable(item.record)
    {
      match item
      case Blank => Success(None)
      case Malformed(line) =>
        var _ :- CrossCheck(line, true);
        Success(None)
      case Parsed(record) =>
        if OutsideShape(record) then Failure(SourceChangedDuringLoad)
        else
          var skips :- CrossCheck(record.line, RecordViolates(record, checks));
          Success(if skips then None else Some(record))
    }

    /** The end-of-input checks: the row count, then the hash. */
    function VerifyEndOfInput(seen: nat, hash: bv64): Option<Code> {
      if seen != expectations.rows || hash != expectations.hash then Some(SourceChangedDuringLoad) else None
    }
  }

  /** What pass 2 finds: whether the header still matches (JSONL has none), its items, the hash of its bytes. */
  datatype SecondPass = SecondPass(opens: bool, items: seq<Item>, hash: bv64)

  // ----- The stream as a function of what pass 2 finds -----

  /** Everything a stream yields from some point on: its batches, and the failure that ends it, if any. */
  datatype Yields = Yields(batches: seq<Batch>, failure: Option<Code>)

  datatype Gathered =
    | Filled(survivors: seq<SourceRecord>, rest: seq<Item>)
    | Drained(survivors: seq<SourceRecord>)
    | Diverged(code: Code)

  function Contribution(kept: Option<SourceRecord>): seq<SourceRecord> {
    if kept.Some? then [kept.value] else []
  }

  /** Reads items into the buffer until it is full, the input ends, or an item diverges. */
  function Gather(plan: StreamPlan, items: seq<Item>, buffer: seq<SourceRecord>): (r: Gathered)
    requires plan.ItemsUsable(items) && plan.AllUsable(buffer)
    ensures !r.Diverged? ==> plan.AllUsable(r.survivors)
    ensures r.Filled? ==> plan.ItemsUsable(r.rest) && |r.rest| < |items|
    decreases items
  {
    if items == [] then Drained(buffer)
    else match plan.StepItem(items[0])
      case Failure(code) => Diverged(code)
      case Success(kept) =>
        var longer := buffer + Contribution(kept);
        if |longer| == plan.chunkRows then Filled(longer, items[1..]) else Gather(plan, items[1..], longer)
  }

  /** Gathering from `pos` takes that item, and goes on from the next unless it diverges or fills the buffer. */
  lemma GatherOne(plan: StreamPlan, items: seq<Item>, pos: nat, buffer: seq<SourceRecord>)
    requires plan.ItemsUsable(items) && plan.AllUsable(buffer) && pos < |items|
    ensures plan.ItemsUsable(items[pos..]) && plan.ItemsUsable(items[pos + 1..])
    ensures var step := plan.StepItem(items[pos]);
      && (step.Failure? ==> Gather(plan, items[pos..], buffer) == Diverged(step.error))
      && (step.Success? ==>
            var longer := buffer + Contribution(step.value);
            && plan.AllUsable(longer)
            && Gather(plan, items[pos..], buffer) ==
               if |longer| == plan.chunkRows then Filled(longer, items[pos + 1..])
               else Gather(plan, items[pos + 1..], longer))
  {
    assert items[pos..][0] == items[pos] && items[pos..][1..] == items[pos + 1..];
  }

  lemma RowCountSnoc(items: seq<Item>, pos: nat)
    requires pos < |items|
    ensures RowCount(items[..pos + 1]) == RowCount(items[..pos]) + if items[pos].IsRow() then 1 else 0
  {
    assert items[..pos + 1][..pos] == items[..pos];
  }

  function Remaining(plan: StreamPlan, items: seq<Item>, yieldedAny: bool, verdict: Option<Code>): Yields
    requires plan.ItemsUsable(items)
    decreases |items|
  {
    match Gather(plan, items, [])
    case Diverged(code) => Yields([], Some(code))
    case Drained(survivors) =>
      if survivors == [] && yieldedAny then Yields([], verdict)
      else (match BuiltChunk(plan.fields, survivors)
            case Failure(code) => Yields([], Some(code))
            case Success(batch) => Yields([batch], verdict))
    case Filled(survivors, rest) =>
      match BuiltChunk(plan.fields, survivors)
      case Failure(code) => Yields([], Some(code))
      case Success(batch) =>
        var later := Remaining(plan, rest, true, verdict);
        Yields([batch] + later.batches, later.failure)
  }

  /** The whole run of a stream. */
  function StreamOf(plan: StreamPlan, source: SecondPass): Yields
    requires plan.ItemsUsable(source.items)
  {
    if !source.opens then Yields([], Some(SourceChangedDuringLoad))
    else Remaining(plan, source.items, false, plan.VerifyEndOfInput(RowCount(source.items), source.hash))
  }

  // ----- The stream as the source runs it -----

  datatype Phase = NotStarted | Streaming | FinalCheck | Finished {
    function Rank(): nat {
      match this
      case NotStarted => 3
      case Streaming => 2
      case FinalCheck => 1
      case Finished => 0
    }
  }

  class ChunkStream {
    const plan: StreamPlan
    const source: SecondPass
    var phase: Phase
    var pos: nat
    var seen: nat
    var yieldedAny: bool

    ghost predicate Valid()
      reads this
    {
      && plan.ItemsUsable(source.items)
      && pos <= |source.items|
      && seen == RowCount(source.items[..pos])
      && (phase.NotStarted? ==> pos == 0 && !yieldedAny)
      && (phase.Streaming? ==> source.opens)
      && (phase.FinalCheck? ==> pos == |source.items|)
    }

    /** What the stream will still yield. */
    ghost function Future(): Yields
      requires Valid()
      reads this
    {
      var verdict := plan.VerifyEndOfInput(RowCount(source.items), source.hash);
      match phase
      case NotStarted => StreamOf(plan, source)
      case Streaming => Remaining(plan, source.items[pos..], yieldedAny, verdict)
      case FinalCheck => Yields([], verdict)
      case Finished => Yields([], None)
    }

    constructor (plan: StreamPlan, source: SecondPass)
      requires plan.ItemsUsable(source.items)
      ensures Valid() && Future() == StreamOf(plan, source)
    {
      this.plan, this.source := plan, source;
      phase, pos, seen, yieldedAny := NotStarted, 0, 0, false;
    }

    /** Reads one item into the buffer and counts its row; the buffer is done when it is full or the item diverges. */
    method TakeOne(survivors: seq<SourceRecord>) returns (done: Option<Gathered>, longer: seq<SourceRecord>)
      requires Valid() && phase.Streaming? && pos < |source.items| && plan.AllUsable(survivors)
      modifies this`pos, this`seen
      ensures Valid() && pos == old(pos) + 1 && plan.AllUsable(longer)
      ensures Gather(plan, source.items[old(pos)..], survivors)
           == if done.Some? then done.value else Gather(plan, source.items[pos..], longer)
      ensures done.Some? ==> done.value.Diverged? || (done.value.Filled? && done.value.rest == source.items[pos..])
    {
      var item := source.items[pos];
      GatherOne(plan, source.items, pos, survivors);
      RowCountSnoc(source.items, pos);
      pos := pos + 1;
      if item.IsRow() {
        seen := seen + 1;
      }
      var step := plan.StepItem(item);
      if step.Failure? {
        return Some(Diverged(step.error)), survivors;
      }
      longer := survivors + Contribution(step.value);
      done := if |longer| == plan.chunkRows then Some(Filled(longer, source.items[pos..])) else None;
    }

    /** Fills one buffer from the reader, counting every row it consumes. */
    method Fill() returns (gathered: Gathered)
      requires Valid() && phase.Streaming?
      modifies this`pos, this`seen
      ensures Valid() && gathered == Gather(plan, old(source.items[pos..]), [])
      ensures gathered.Filled? ==> gathered.rest == source.items[pos..]
      ensures gathered.Drained? ==> pos == |source.items|
    {
      var survivors: seq<SourceRecord> := [];
      while pos < |source.items|
        invariant Valid() && phase.Streaming? && plan.AllUsable(survivors)
        invariant Gather(plan, source.items[pos..], survivors) == Gather(plan, old(source.items[pos..]), [])
        decreases |source.items| - pos
      {
        var done;
        done, survivors := TakeOne(survivors);
        if done.Some? {
          return done.value;
        }
      }
      return Drained(survivors);
    }

    /** What the stream will still yield once this buffer has gone out. */
    lemma YieldsFrom(gathered: Gathered, before: seq<Item>, any: bool)
      requires Valid() && plan.ItemsUsable(before) && gathered == Gather(plan, before, [])
      ensures var verdict := plan.VerifyEndOfInput(RowCount(source.items), source.hash);
        var all := Remaining(plan, before, any, verdict);
        && (gathered.Diverged? ==> all == Yields([], Some(gathered.code)))
        && (gathered.Drained? && gathered.survivors == [] && any ==> all == Yields([], verdict))
        && (!gathered.Diverged? && !(gathered.Drained? && gathered.survivors == [] && any) ==>
              var built := BuiltChunk(plan.fields, gathered.survivors);
              && (built.Failure? ==> all == Yields([], Some(built.error)))
              && (built.Success? && gathered.Drained? ==> all == Yields([built.value], verdict))
              && (built.Success? && gathered.Filled? ==>
                    var later := Remaining(plan, gathered.rest, true, verdict);
                    all == Yields([built.value] + later.batches, later.failure)))
    {
    }

    /** One chunk of the streaming phase; None when the input ended with nothing left to yield. */
    method StreamChunk() returns (r: Option<Result<Batch, Code>>)
      requires Valid() && phase.Streaming?
      modifies this
      ensures Valid()
      ensures r.None? ==> phase.FinalCheck? && Future() == old(Future())
      ensures r.Some? && r.value.Failure? ==> old(Future()) == Yields([], Some(r.value.error))
      ensures r.Some? && r.value.Success? ==>
        old(Future()) == Yields([r.value.value] + Future().batches, Future().failure)
    {
      ghost var before, any := source.items[pos..], yieldedAny;
      var gathered := Fill();
      YieldsFrom(gathered, before, any);
      if gathered.Diverged? {
        return Some(Failure(gathered.code));
      }
      if gathered.Drained? && gathered.survivors == [] && yieldedAny {
        phase := FinalCheck;
        return None;
      }
      var built := Emit(gathered);
      return Some(built);
    }

    /** Builds a gathered buffer; the last one leaves only the final check. */
    method Emit(gathered: Gathered) returns (built: Result<Batch, Code>)
      requires Valid() && phase.Streaming? && !gathered.Diverged? && plan.AllUsable(gathered.survivors)
      requires gathered.Filled? ==> gathered.rest == source.items[pos..]
      requires gathered.Drained? ==> pos == |source.items|
      modifies this`phase, this`yieldedAny
      ensures Valid() && built == BuiltChunk(plan.fields, gathered.survivors)
      ensures var verdict := plan.VerifyEndOfInput(RowCount(source.items), source.hash);
        Future() == if gathered.Filled? then Remaining(plan, source.items[pos..], true, verdict) else Yields([], verdict)
    {
      if gathered.Drained? {
        phase := FinalCheck;
      }
      yieldedAny := true;
      built := BuildChunk(plan.fields, gathered.survivors);
    }

    /** Advances to the next chunk, the end of the stream, or its failure. */
    method NextChunk() returns (r: Result<Option<Batch>, Code>)
      requires Valid()
      modifies this
      ensures Valid()
      ensures r.Failure? ==> old(Future()) == Yields([], Some(r.error))
      ensures r.Success? && r.value.None? ==> phase.Finished? && old(Future()) == Yields([], None)
      ensures r.Success? && r.value.Some? ==>
        old(Future()) == Yields([r.value.value] + Future().batches, Future().failure)
    {
      while true
        invariant Valid() && Future() == old(Future())
        decreases phase.Rank()
      {
        match phase
        case Finished =>
          return Success(None);
        case NotStarted =>
          if !source.opens {
            return Failure(SourceChangedDuringLoad);
          }
          phase := Streaming;
          assert source.items[pos..] == source.items;
        case FinalCheck =>
          phase := Finished;
          assert source.items[..pos] == source.items;
          var failure := plan.VerifyEndOfInput(seen, source.hash);
          if failure.Some? {
            return Failure(failure.value);
          }
          return Success(None);
        case Streaming =>
          var chunk := StreamChunk();
          if chunk.Some? {
            if chunk.value.Failure? {
              return Failure(chunk.value.error);
            }
            return Success(Some(chunk.value.value));
          }
      }
    }

    /** The iterator step: a failure ends the stream. */
    method Next() returns (r: Option<Result<Batch, Code>>)
      requires Valid()
      modifies this
      ensures Valid()
      ensures r.None? ==> old(Future()) == Yields([], None)
      ensures r.Some? && r.value.Success? ==>
        old(Future()) == Yields([r.value.value] + Future().batches, Future().failure)
      ensures r.Some? && r.value.Failure? ==>
        old(Future()) == Yields([], Some(r.value.error)) && Future() == Yields([], None)
    {
      var next := NextChunk();
      if next.Failure? {
        phase := Finished;
        return Some(Failure(next.error));
      }
      if next.value.None? {
        return None;
      }
      return Some(Success(next.value.value));
    }
  }
}
