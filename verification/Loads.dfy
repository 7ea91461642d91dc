/** One load from source to destination: pass 1, the reject threshold, the pin, and the write phase over pass 2. */
module Loads {
  import opened Wrappers
  import opened Failures
  import opened Sequences
  import opened Records
  import opened Transforms
  import opened Schemas
  import opened Observations
  import opened Inputs
  import opened Sources
  import opened Rejections
  import opened SourceReads
  import opened Materialization
  import opened Chunks
  import opened Streams
  import opened StreamGuarantees
  import opened Replays
  import opened Retry
  import opened Dispatch
  import opened Sessions
  import opened Upserts
  import opened DuckDbSessions
  import opened Deliveries
  import Pins
  import Fnv
  import Sql = SqlServerSessions

  /** A source file as a pass finds it: what it parses to, and its bytes in the blocks they are read in. */
  datatype SourceFile =
    | CsvFile(header: seq<string>, rows: seq<CsvRow>, blocks: seq<seq<bv8>>)
    | JsonlFile(lines: seq<JsonlLine>, blocks: seq<seq<bv8>>)
  {
    ghost predicate Valid() {
      JsonlFile? ==> forall i :: 0 <= i < |lines| ==> lines[i].Valid()
    }

    function Bytes(): seq<bv8> {
      Flatten(blocks)
    }

    function Items(): seq<Item> {
      match this
      case CsvFile(header, rows, _) => CsvItems(rows, |header|)
      case JsonlFile(lines, _) => JsonlItems(lines)
    }
  }

  /** The validated parts of a load definition the load turns on. */
  datatype Definition = Definition(directive: Directive, mergeKeys: seq<string>, chunkRows: nat, rejectThreshold: nat) {
    ghost predicate Valid() {
      directive.Valid() && chunkRows > 0
    }

    /** Flatten mappings were refused at validation for a CSV source. */
    ghost predicate Fits(file: SourceFile) {
      Valid() && file.Valid() && (file.CsvFile? ==> directive.transform.flatten == [])
    }

    function InputOf(file: SourceFile): Input {
      match file
      case CsvFile(header, rows, _) => CsvInput(directive, mergeKeys, header, rows)
      case JsonlFile(lines, _) => JsonlInput(directive, mergeKeys, lines)
    }

    function ShapeOf(file: SourceFile): Option<set<string>> {
      if file.CsvFile? then None else Some(Elements(InputOf(file).fieldNames))
    }
  }

  // ----- Pass 1 -----

  /** A failed pass 1: its code, whether a schema decision was reached, and the rejections streamed by then. */
  datatype ReadFailure = ReadFailure(code: Code, decided: bool, rejectedCount: nat)

  /** A source without fields fails undecided; any other resolves its input's own resolution, or fails as it does. */
  ghost predicate Reads(d: Definition, file: SourceFile, read: Result<SourceRead, ReadFailure>) {
    var input := d.InputOf(file);
    if input.fieldNames == [] then
      read == Failure(if file.CsvFile? then ReadFailure(MalformedCsv, false, 0)
                      else ReadFailure(MalformedJsonl, false, |ParseRejections(file.Items())|))
    else
      && input.Readable()
      && match (input.Resolution(), read) {
           case (Success(resolution), Success(r)) =>
             r.resolution == resolution && Handed(d, file, r)
           case (Failure(expected), Failure(failure)) =>
             failure == ReadFailure(expected.code, true, |ParseRejections(file.Items())|)
           case _ => false
         }
  }

  ghost predicate Handed(d: Definition, file: SourceFile, read: SourceRead) {
    && ItemsReadable(file.Items(), read.resolution.checks)
    && Establishes(read, file.Items(), d.ShapeOf(file), d.chunkRows,
                   ItemRejections(file.Items(), read.resolution.checks), Fnv.Hash(file.Bytes()))
  }

  method ReadCsvFile(d: Definition, file: SourceFile, sink: RejectionSink) returns (read: Result<SourceRead, ReadFailure>)
    requires d.Fits(file) && file.CsvFile? && sink.Valid() && sink.artifact == []
    modifies sink
    ensures Reads(d, file, read)
  {
    if file.header == [] {
      return Failure(ReadFailure(MalformedCsv, false, 0));
    }
    var r := ReadCsv(d.directive, d.mergeKeys, file.header, file.rows, file.blocks, d.chunkRows, sink);
    if r.Failure? {
      return Failure(ReadFailure(r.error.code, true, sink.count));
    }
    return Success(r.value);
  }

  /** Once a source has fields, its failure is a schema decision's. */
  lemma ResolutionKnowsNoSyntax(input: Input)
    ensures input.Readable() && input.Resolution().Failure? ==> input.Resolution().error.code != MalformedJsonl
  {
  }

  method ReadJsonlFile(d: Definition, file: SourceFile, sink: RejectionSink)
    returns (read: Result<SourceRead, ReadFailure>)
    requires d.Fits(file) && file.JsonlFile? && sink.Valid() && sink.artifact == []
    modifies sink
    ensures Reads(d, file, read)
  {
    var r := ReadJsonl(d.directive, d.mergeKeys, file.lines, file.blocks, d.chunkRows, sink);
    if r.Failure? {
      ResolutionKnowsNoSyntax(d.InputOf(file));
      return Failure(ReadFailure(r.error.code, r.error.code != MalformedJsonl, sink.count));
    }
    return Success(r.value);
  }

  method ReadSource(d: Definition, file: SourceFile, sink: RejectionSink) returns (read: Result<SourceRead, ReadFailure>)
    requires d.Fits(file) && sink.Valid() && sink.artifact == []
    modifies sink
    ensures Reads(d, file, read)
  {
    if file.CsvFile? {
      read := ReadCsvFile(d, file, sink);
    } else {
      read := ReadJsonlFile(d, file, sink);
    }
  }

  /** Every row pass 1 counted survived or was rejected, so the written count it implies cannot underflow. */
  lemma RowsReadAddUp(d: Definition, file: SourceFile, read: SourceRead)
    requires d.Fits(file) && Reads(d, file, Success(read))
    ensures d.InputOf(file).Readable() && d.InputOf(file).Checks().Some?
    ensures read.sourceRows - read.rejectedCount == |d.InputOf(file).Survivors()|
  {
    var input := d.InputOf(file);
    ResolutionHasChecks(input);
    RowsAreConserved(file.Items(), read.resolution.checks);
  }

  // ----- Pass 2 -----

  /** Pass 2 over the file as it is by then, classified against pass 1's header. */
  function SecondPassOf(before: SourceFile, after: SourceFile): SecondPass
    requires before.CsvFile? <==> after.CsvFile?
  {
    if before.CsvFile? then
      SecondPass(after.header == before.header, CsvItems(after.rows, |before.header|), Fnv.Hash(after.Bytes()))
    else SecondPass(true, after.Items(), Fnv.Hash(after.Bytes()))
  }

  lemma ReadResolves(d: Definition, file: SourceFile, read: SourceRead)
    requires Reads(d, file, Success(read))
    ensures d.InputOf(file).Readable() && d.InputOf(file).fieldNames != []
    ensures d.InputOf(file).Resolution() == Success(read.resolution) && Handed(d, file, read)
  {
  }

  lemma SecondPassShaped(d: Definition, before: SourceFile, after: SourceFile)
    requires d.Fits(before) && d.Fits(after) && (before.CsvFile? <==> after.CsvFile?)
    ensures Shaped(ParsedRecords(SecondPassOf(before, after).items), d.directive.transform, d.InputOf(before).fieldNames)
  {
    if before.CsvFile? {
      CsvRecords(after.rows, |before.header|);
    } else {
      JsonlRecords(after.lines);
    }
  }

  lemma SecondPassUsable(d: Definition, before: SourceFile, after: SourceFile, read: SourceRead)
    requires d.Fits(before) && d.Fits(after) && (before.CsvFile? <==> after.CsvFile?)
    requires Reads(d, before, Success(read))
    ensures read.plan.ItemsUsable(SecondPassOf(before, after).items)
  {
    ReadResolves(d, before, read);
    SecondPassShaped(d, before, after);
    ResolvedPlanReads(d.InputOf(before), read.plan, SecondPassOf(before, after).items);
  }

  /** What the chunk stream of a load yields. */
  function RunOf(read: SourceRead, before: SourceFile, after: SourceFile): Yields
    requires (before.CsvFile? <==> after.CsvFile?) && read.plan.ItemsUsable(SecondPassOf(before, after).items)
  {
    StreamOf(read.plan, SecondPassOf(before, after))
  }

  /** Rows reported at one line share an outcome; JSONL lines are numbered, so there it always holds. */
  ghost predicate LinesDecide(d: Definition, file: SourceFile, read: SourceRead)
    requires Handed(d, file, read)
  {
    OutcomesByLine(file.Items(), read.resolution.checks)
  }

  lemma CsvFileReplays(d: Definition, file: SourceFile, read: SourceRead)
    requires d.Fits(file) && Reads(d, file, Success(read)) && file.CsvFile?
    ensures read.plan.ItemsUsable(SecondPassOf(file, file).items)
    ensures d.InputOf(file).Readable() && d.InputOf(file).Checks().Some? && Handed(d, file, read)
    ensures RunOf(read, file, file).failure.None? <==> LinesDecide(d, file, read)
    ensures LinesDecide(d, file, read) ==> Delivers(RunOf(read, file, file), read.plan, d.InputOf(file).Survivors())
  {
    ReadResolves(d, file, read);
    CsvInputIsValid(d.directive, d.mergeKeys, file.header, file.rows);
    CsvReplays(d.directive, d.mergeKeys, file.header, file.rows, read, d.chunkRows,
      ItemRejections(file.Items(), read.resolution.checks), Fnv.Hash(file.Bytes()));
  }

  lemma JsonlFileReplays(d: Definition, file: SourceFile, read: SourceRead)
    requires d.Fits(file) && Reads(d, file, Success(read)) && file.JsonlFile?
    ensures read.plan.ItemsUsable(SecondPassOf(file, file).items)
    ensures d.InputOf(file).Readable() && d.InputOf(file).Checks().Some? && Handed(d, file, read)
    ensures LinesDecide(d, file, read) && RunOf(read, file, file).failure.None?
    ensures Delivers(RunOf(read, file, file), read.plan, d.InputOf(file).Survivors())
  {
    ReadResolves(d, file, read);
    JsonlInputIsValid(d.directive, d.mergeKeys, file.lines);
    JsonlReplays(d.directive, d.mergeKeys, file.lines, read, d.chunkRows,
      ItemRejections(file.Items(), read.resolution.checks), Fnv.Hash(file.Bytes()));
    JsonlLinesOrdered(file.lines);
    OrderedLinesDecide(file.Items(), read.resolution.checks);
  }

  /**
   * Pass 2 over an unmodified source of either format ends without failure exactly when rows reported at
   * one line share an outcome, and has then delivered pass 1's survivors.
   */
  lemma UnmodifiedReplays(d: Definition, file: SourceFile, read: SourceRead)
    requires d.Fits(file) && Reads(d, file, Success(read))
    ensures read.plan.ItemsUsable(SecondPassOf(file, file).items)
    ensures d.InputOf(file).Readable() && d.InputOf(file).Checks().Some? && Handed(d, file, read)
    ensures RunOf(read, file, file).failure.None? <==> LinesDecide(d, file, read)
    ensures file.JsonlFile? ==> LinesDecide(d, file, read)
    ensures LinesDecide(d, file, read) ==> Delivers(RunOf(read, file, file), read.plan, d.InputOf(file).Survivors())
  {
    if file.CsvFile? {
      CsvFileReplays(d, file, read);
    } else {
      JsonlFileReplays(d, file, read);
    }
  }

  // ----- The load -----

  datatype RowCounts = RowCounts(source: nat, written: nat, rejected: nat)

  /** Refused before the destination is opened; no session; failed in session; or loaded with counts and chunks. */
  datatype LoadEnd =
    | Refused(code: Code)
    | NoSession(code: Code)
    | Interrupted(code: Code)
    | Loaded(counts: RowCounts, chunks: nat)

  /** What lies outside a load: whether the pin can be persisted, how the session opens, answers and commits. */
  datatype Surroundings = Surroundings(
    pinPersists: bool, begin: Operation, setting: Setting, commitFailure: Option<Code>, parallelism: nat)
  {
    predicate Valid() {
      setting.policy.Valid() && parallelism >= 1
    }
  }

  /** Whether a load gets past the threshold and the pin, to its destination. */
  predicate Proceeds(d: Definition, read: Result<SourceRead, ReadFailure>, around: Surroundings) {
    && read.Success? && read.value.rejectedCount <= d.rejectThreshold
    && (read.value.resolution.pinWrite.Some? ==> around.pinPersists)
  }

  /** Why a load does not: pending rejections replace an undecided failure. */
  function Refusal(d: Definition, read: Result<SourceRead, ReadFailure>): Code {
    match read
    case Failure(failure) =>
      if !failure.decided && failure.rejectedCount > d.rejectThreshold then RejectThresholdExceeded else failure.code
    case Success(r) => if r.rejectedCount > d.rejectThreshold then RejectThresholdExceeded else PinnedSchemaWriteFailed
  }

  function EndOfPhase(read: SourceRead, phase: PhaseEnd, commitFailure: Option<Code>): LoadEnd
    requires read.rejectedCount <= read.sourceRows
  {
    match phase
    case BeforeSession(code) => NoSession(code)
    case InSession(Halts(code)) => Interrupted(code)
    case InSession(Commits(n)) =>
      if commitFailure.Some? then Interrupted(commitFailure.value)
      else Loaded(RowCounts(read.sourceRows, read.sourceRows - read.rejectedCount, read.rejectedCount), n)
  }

  /** A load that reads `before` and replays `after` ends so. */
  ghost predicate Ends(d: Definition, before: SourceFile, after: SourceFile, around: Surroundings,
    read: Result<SourceRead, ReadFailure>, end: LoadEnd)
    requires d.Fits(before) && d.Fits(after) && (before.CsvFile? <==> after.CsvFile?) && around.Valid()
  {
    && Reads(d, before, read)
    && if !Proceeds(d, read, around) then end == Refused(Refusal(d, read))
       else
         && read.value.rejectedCount <= read.value.sourceRows
         && read.value.plan.ItemsUsable(SecondPassOf(before, after).items)
         && end == EndOfPhase(read.value,
              PhaseOf(around.setting, around.begin, RunOf(read.value, before, after)), around.commitFailure)
  }

  /** What a load finds at its pinned path. */
  datatype PinFile = Missing | Unreadable | Holds(content: Pins.PinnedSchemaFile)

  /** The pin file after a load: what it had to write once it got past the threshold, else as it was. */
  function PinAfter(d: Definition, read: Result<SourceRead, ReadFailure>, around: Surroundings,
    pinFile: PinFile): PinFile
  {
    if Proceeds(d, read, around) && read.value.resolution.pinWrite.Some?
    then Holds(Pins.FileOf(read.value.resolution.pinWrite.value)) else pinFile
  }

  /** The validated schema parts of a definition; `drift` is the policy of its pinned path, when it names one. */
  datatype SchemaBlock = SchemaBlock(
    transform: SchemaTransform, overrides: seq<FieldOverride>, drift: Option<DriftPolicy>)
  {
    ghost predicate Fits(file: SourceFile) {
      && transform.Valid() && ValidOverrides(overrides) && file.Valid()
      && (file.CsvFile? ==> transform.flatten == [])
    }
  }

  /** A pinned path without a file is bootstrapped; a file that reads as a pin is what the load validates against. */
  ghost function DirectiveOf(block: SchemaBlock, pinFile: PinFile): Result<Directive, Code> {
    match (block.drift, pinFile)
    case (None, _) => Success(Inferred(block.transform, block.overrides))
    case (Some(_), Missing) => Success(PinInferred(block.transform, block.overrides))
    case (Some(_), Unreadable) => Failure(PinnedSchemaReadFailed)
    case (Some(policy), Holds(file)) =>
      if Pins.ReadablePin(file) then Success(Pinned(block.transform, block.overrides, Pins.PinFrom(file), policy))
      else Failure(InvalidPinnedSchema)
  }

  /** A readable pin file at a pinned path directs the load to validate against it. */
  lemma HeldPinDirects(block: SchemaBlock, content: Pins.PinnedSchemaFile, directive: Directive)
    requires block.drift.Some? && DirectiveOf(block, Holds(content)) == Success(directive)
    ensures directive == Pinned(block.transform, block.overrides, Pins.PinFrom(content), block.drift.value)
  {
  }

  lemma NothingToPin(d: Definition, read: Result<SourceRead, ReadFailure>, around: Surroundings, pinFile: PinFile)
    requires read.Success? ==> read.value.resolution.pinWrite.None?
    ensures PinAfter(d, read, around, pinFile) == pinFile
  {
  }

  /** A readable source is refused for its rejections exactly when it has more of them than the threshold. */
  lemma RefusedOverThreshold(d: Definition, before: SourceFile, after: SourceFile, around: Surroundings, read: SourceRead,
    end: LoadEnd)
    requires d.Fits(before) && d.Fits(after) && (before.CsvFile? <==> after.CsvFile?) && around.Valid()
    requires Ends(d, before, after, around, Success(read), end)
    ensures Reads(d, before, Success(read))
    ensures end == Refused(RejectThresholdExceeded) <==> read.rejectedCount > d.rejectThreshold
    ensures end.Refused? <==>
      read.rejectedCount > d.rejectThreshold || (read.resolution.pinWrite.Some? && !around.pinPersists)
  {
  }

  method ResolveDirective(block: SchemaBlock, pinFile: PinFile) returns (r: Result<Directive, Code>)
    requires block.transform.Valid() && ValidOverrides(block.overrides)
    ensures r == DirectiveOf(block, pinFile) && (r.Success? ==> r.value.Valid())
  {
    if block.drift.None? {
      return Success(Inferred(block.transform, block.overrides));
    }
    if pinFile.Missing? {
      return Success(PinInferred(block.transform, block.overrides));
    }
    if pinFile.Unreadable? {
      return Failure(PinnedSchemaReadFailed);
    }
    var pin := Pins.ReadPin(pinFile.content);
    if pin.Failure? {
      return Failure(pin.error);
    }
    Pins.ReadPinWritesBack(pinFile.content);
    return Success(Pinned(block.transform, block.overrides, pin.value, block.drift.value));
  }

  /** Where a load leaves its marks: the pinned schema file, and how many write phases reached the destination. */
  class Workspace {
    var pinFile: PinFile
    var writePhases: nat

    constructor (pinFile: PinFile)
      ensures this.pinFile == pinFile && writePhases == 0
    {
      this.pinFile, writePhases := pinFile, 0;
    }

    /** The write phase over pass 2, and how it ends the load. */
    method RunChunks(ghost d: Definition, read: SourceRead, before: SourceFile, after: SourceFile, around: Surroundings)
      returns (end: LoadEnd)
      requires d.Fits(before) && d.Fits(after) && (before.CsvFile? <==> after.CsvFile?) && around.Valid()
      requires Reads(d, before, Success(read)) && Proceeds(d, Success(read), around)
      modifies this`writePhases
      ensures Ends(d, before, after, around, Success(read), end)
      ensures writePhases == old(writePhases) + 1
    {
      RowsReadAddUp(d, before, read);
      SecondPassUsable(d, before, after, read);
      writePhases := writePhases + 1;
      var stream := new ChunkStream(read.plan, SecondPassOf(before, after));
      ghost var run := RunOf(read, before, after);
      var phase, log := RunWritePhase(around.setting, around.begin, around.parallelism, stream, run);
      end := EndOfPhase(read, phase, around.commitFailure);
    }

    /**
     * Executes a load. The pin is written exactly when the load gets past the threshold with one to write,
     * and before anything reaches the destination; a load refused before that leaves both as they were.
     */
    method Execute(d: Definition, before: SourceFile, after: SourceFile, around: Surroundings, sink: RejectionSink)
      returns (end: LoadEnd, ghost read: Result<SourceRead, ReadFailure>)
      requires d.Fits(before) && d.Fits(after) && (before.CsvFile? <==> after.CsvFile?) && around.Valid()
      requires sink.Valid() && sink.artifact == []
      modifies this, sink
      ensures Ends(d, before, after, around, read, end)
      ensures writePhases == old(writePhases) + if Proceeds(d, read, around) then 1 else 0
      ensures pinFile == PinAfter(d, read, around, old(pinFile))
    {
      var r := ReadSource(d, before, sink);
      read := r;
      if r.Failure? {
        return Refused(Refusal(d, r)), r;
      }
      if r.value.rejectedCount > d.rejectThreshold {
        return Refused(RejectThresholdExceeded), r;
      }
      if r.value.resolution.pinWrite.Some? {
        if !around.pinPersists {
          return Refused(PinnedSchemaWriteFailed), r;
        }
        pinFile := Holds(Pins.FileOf(r.value.resolution.pinWrite.value));
      }
      end := RunChunks(d, r.value, before, after, around);
    }

    /** Decides the schema directive from the block and the pin file, then executes the load. */
    method Load(block: SchemaBlock, mergeKeys: seq<string>, chunkRows: nat, rejectThreshold: nat,
      before: SourceFile, after: SourceFile, around: Surroundings, sink: RejectionSink)
      returns (end: LoadEnd, ghost read: Result<SourceRead, ReadFailure>)
      requires block.Fits(before) && block.Fits(after) && (before.CsvFile? <==> after.CsvFile?)
      requires chunkRows > 0 && around.Valid() && sink.Valid() && sink.artifact == []
      modifies this, sink
      ensures DirectiveOf(block, old(pinFile)).Failure? ==>
        && end == Refused(if old(pinFile).Unreadable? then PinnedSchemaReadFailed else InvalidPinnedSchema)
        && pinFile == old(pinFile) && writePhases == old(writePhases) && sink.artifact == old(sink.artifact)
      ensures DirectiveOf(block, old(pinFile)).Success? ==>
        var d := Definition(DirectiveOf(block, old(pinFile)).value, mergeKeys, chunkRows, rejectThreshold);
        && d.Fits(before) && d.Fits(after) && Ends(d, before, after, around, read, end)
        && pinFile == PinAfter(d, read, around, old(pinFile))
        && writePhases == old(writePhases) + if Proceeds(d, read, around) then 1 else 0
    {
      var directive := ResolveDirective(block, pinFile);
      if directive.Failure? {
        return Refused(directive.error), Failure(ReadFailure(directive.error, false, 0));
      }
      var d := Definition(directive.value, mergeKeys, chunkRows, rejectThreshold);
      end, read := Execute(d, before, after, around, sink);
    }
  }

  // ----- Whole loads -----

  /** Nothing outside the load fails it over so many chunks. */
  predicate Accepts(around: Surroundings, chunks: nat)
    requires around.Valid()
  {
    && Terminal(around.setting.policy, around.begin).None?
    && FirstFailing(around.setting, chunks).None?
    && around.commitFailure.None?
  }

  lemma PhaseDecides(read: SourceRead, run: Yields, around: Surroundings)
    requires around.Valid() && read.rejectedCount <= read.sourceRows
    ensures var end := EndOfPhase(read, PhaseOf(around.setting, around.begin, run), around.commitFailure);
      && (end.Loaded? <==> run.failure.None? && Accepts(around, |run.batches|))
      && (end.Loaded? ==>
            end == Loaded(RowCounts(read.sourceRows, read.sourceRows - read.rejectedCount, read.rejectedCount), |run.batches|))
  {
  }

  /**
   * A load over an unmodified source that reaches its destination succeeds exactly when rows at one line
   * share an outcome and the destination accepts every chunk; it then reports every surviving record
   * written, every other row rejected, and max(1, ceil(k / chunkRows)) chunks.
   */
  lemma UnmodifiedLoadSucceeds(d: Definition, file: SourceFile, around: Surroundings, read: SourceRead, end: LoadEnd)
    requires d.Fits(file) && around.Valid() && Ends(d, file, file, around, Success(read), end)
    requires Proceeds(d, Success(read), around)
    ensures d.InputOf(file).Readable() && d.InputOf(file).Checks().Some? && Handed(d, file, read)
    ensures var survivors := d.InputOf(file).Survivors();
      var chunks := |Chunked(survivors, d.chunkRows)|;
      && (end.Loaded? <==> LinesDecide(d, file, read) && Accepts(around, chunks))
      && (end.Loaded? ==>
            end == Loaded(RowCounts(read.sourceRows, |survivors|, read.rejectedCount), chunks)
            && read.sourceRows == |survivors| + read.rejectedCount)
  {
    var input := d.InputOf(file);
    UnmodifiedReplays(d, file, read);
    RowsReadAddUp(d, file, read);
    SurvivorsMaterialize(input);
    var run := RunOf(read, file, file);
    PhaseDecides(read, run, around);
    if LinesDecide(d, file, read) {
      DeliveredInOrder(run, read.plan, input.Survivors(), (v: ArrowValue) => v);
    }
  }

  /** What a second pass 1 over the same source finds when it resolves the same survivors and fields. */
  lemma ReloadReads(d: Definition, reload: Definition, file: SourceFile, read: SourceRead,
    again: Result<SourceRead, ReadFailure>)
    requires d.Fits(file) && reload.Fits(file) && Reads(d, file, Success(read)) && Reads(reload, file, again)
    requires d.InputOf(file).Readable() && reload.InputOf(file).Readable()
    requires d.InputOf(file).fieldNames == reload.InputOf(file).fieldNames
    requires d.InputOf(file).Checks().Some? && reload.InputOf(file).Checks().Some?
    requires reload.InputOf(file).Survivors() == d.InputOf(file).Survivors()
    requires reload.InputOf(file).Resolution().Success?
    ensures again.Success? && Success(again.value.resolution) == reload.InputOf(file).Resolution()
    ensures again.value.sourceRows == read.sourceRows && again.value.rejectedCount == read.rejectedCount
  {
    ReadResolves(d, file, read);
    RowsReadAddUp(d, file, read);
    RowsReadAddUp(reload, file, again.value);
  }

  lemma ReloadConverges(d: Definition, reload: Definition, policy: DriftPolicy, file: SourceFile, around: Surroundings,
    read: SourceRead, again: Result<SourceRead, ReadFailure>, left: PinFile)
    requires d.Fits(file) && reload.Fits(file) && Reads(d, file, Success(read)) && Reads(reload, file, again)
    requires d.InputOf(file).Readable() && d.InputOf(file).Resolution() == Success(read.resolution)
    requires read.resolution.pinWrite.Some? && Pins.NamesDistinct(d.InputOf(file))
    requires reload.InputOf(file) == Pins.ReloadInput(d.InputOf(file), policy)
    requires Proceeds(d, Success(read), around) && reload.rejectThreshold == d.rejectThreshold
    ensures Converges(reload, read, again, around, left)
  {
    Pins.PinConverges(d.InputOf(file), policy);
    ReloadReads(d, reload, file, read, again);
  }

  lemma ReloadsConverge(d: Definition, reload: Definition, policy: DriftPolicy, file: SourceFile, around: Surroundings,
    read: SourceRead, left: PinFile)
    requires d.Fits(file) && reload.Fits(file) && Reads(d, file, Success(read))
    requires d.InputOf(file).Readable() && d.InputOf(file).Resolution() == Success(read.resolution)
    requires read.resolution.pinWrite.Some? && Pins.NamesDistinct(d.InputOf(file))
    requires reload.InputOf(file) == Pins.ReloadInput(d.InputOf(file), policy)
    requires Proceeds(d, Success(read), around) && reload.rejectThreshold == d.rejectThreshold
    ensures forall again :: Reads(reload, file, again) ==> Converges(reload, read, again, around, left)
  {
    forall again | Reads(reload, file, again) ensures Converges(reload, read, again, around, left) {
      ReloadConverges(d, reload, policy, file, around, read, again, left);
    }
  }

  /** The pin a load writes is accepted exactly when dataset names are distinct, and then directs the load's reload. */
  lemma LeftPinDecides(block: SchemaBlock, pinFile: PinFile, d: Definition, file: SourceFile)
    requires block.drift.Some? && DirectiveOf(block, pinFile) == Success(d.directive) && d.Fits(file)
    requires d.InputOf(file).Readable() && d.InputOf(file).Resolution().Success?
    requires d.InputOf(file).Resolution().value.pinWrite.Some?
    ensures var left := DirectiveOf(block, Holds(Pins.FileOf(d.InputOf(file).Resolution().value.pinWrite.value)));
      && (left.Success? <==> Pins.NamesDistinct(d.InputOf(file)))
      && (left.Success? ==>
            var reload := d.(directive := left.value);
            reload.Fits(file) && reload.InputOf(file) == Pins.ReloadInput(d.InputOf(file), block.drift.value))
  {
    var input := d.InputOf(file);
    var content := Pins.FileOf(input.Resolution().value.pinWrite.value);
    Pins.PinConverges(input, block.drift.value);
    PinDirects(block, pinFile, d.directive, content);
    if Pins.NamesDistinct(input) {
      var reload := d.(directive := Pins.ReloadInput(input, block.drift.value).directive);
      assert reload.InputOf(file) == Pins.ReloadInput(input, block.drift.value);
      Pins.ReloadDirective(input, block.drift.value);
    }
  }

  /** Whatever decided a pinned path's directive before, a new pin there decides it with the same transform and overrides. */
  lemma PinDirects(block: SchemaBlock, pinFile: PinFile, directive: Directive, content: Pins.PinnedSchemaFile)
    requires block.drift.Some? && DirectiveOf(block, pinFile) == Success(directive)
    ensures DirectiveOf(block, Holds(content))
         == if !Pins.ReadablePin(content) then Failure(InvalidPinnedSchema)
            else Success(Pinned(directive.transform, directive.overrides, Pins.PinFrom(content), block.drift.value))
  {
  }

  /**
   * A load that writes a pin, and the same load again. The pin it leaves is accepted exactly when dataset
   * names are distinct; the second load then materializes the same fields, counts and rejects the same rows,
   * proceeds to its destination wherever the first did, and leaves the pin as it is.
   */
  lemma RepeatedLoadConverges(block: SchemaBlock, pinFile: PinFile, d: Definition,
    file: SourceFile, around: Surroundings, read: SourceRead)
    requires block.Fits(file) && block.drift.Some? && DirectiveOf(block, pinFile) == Success(d.directive)
    requires d.Fits(file) && Reads(d, file, Success(read)) && d.InputOf(file).Readable()
    requires Proceeds(d, Success(read), around) && read.resolution.pinWrite.Some?
    ensures var left := PinAfter(d, Success(read), around, pinFile);
      && (DirectiveOf(block, left).Success? <==> Pins.NamesDistinct(d.InputOf(file)))
      && (DirectiveOf(block, left).Success? ==>
            var reload := d.(directive := DirectiveOf(block, left).value);
            && reload.Fits(file)
            && forall again :: Reads(reload, file, again) ==> Converges(reload, read, again, around, left))
  {
    var left := PinAfter(d, Success(read), around, pinFile);
    ReadResolves(d, file, read);
    LeftPinDecides(block, pinFile, d, file);
    if DirectiveOf(block, left).Success? {
      var reload := d.(directive := DirectiveOf(block, left).value);
      ReloadsConverge(d, reload, block.drift.value, file, around, read, left);
    }
  }

  /** The second read finds the first one's fields and counts, and leaves nothing to write. */
  ghost predicate Converges(reload: Definition, read: SourceRead, again: Result<SourceRead, ReadFailure>,
    around: Surroundings, left: PinFile)
  {
    && again.Success? && again.value.resolution.fields == read.resolution.fields
    && again.value.sourceRows == read.sourceRows && again.value.rejectedCount == read.rejectedCount
    && Proceeds(reload, again, around) && PinAfter(reload, again, around, left) == left
  }

  /** A load whose source changes in a single byte between its passes never succeeds, whatever that makes it parse to. */
  lemma ChangedByteNeverLoads(d: Definition, before: SourceFile, after: SourceFile, i: nat, around: Surroundings,
    read: Result<SourceRead, ReadFailure>, end: LoadEnd)
    requires d.Fits(before) && d.Fits(after) && (before.CsvFile? <==> after.CsvFile?) && around.Valid()
    requires i < |before.Bytes()| && i < |after.Bytes()| && after.Bytes()[i] != before.Bytes()[i]
    requires after.Bytes() == before.Bytes()[i := after.Bytes()[i]]
    requires Ends(d, before, after, around, read, end)
    ensures !end.Loaded?
  {
    Fnv.SubstitutionChangesHash(before.Bytes(), i, after.Bytes()[i]);
    if Proceeds(d, read, around) {
      StreamCompletesExactly(read.value.plan, SecondPassOf(before, after));
      PhaseDecides(read.value, RunOf(read.value, before, after), around);
    }
  }

  /** A DuckDB full refresh of an unmodified source leaves exactly the surviving records' rows, in source order, or nothing new. */
  lemma RefreshHoldsSurvivors<Cell>(d: Definition, file: SourceFile, read: SourceRead, cellOf: ArrowValue -> Cell,
    table: Option<seq<Row<Cell>>>, executes: nat -> bool, commits: bool, closes: bool)
    requires d.Fits(file) && Reads(d, file, Success(read)) && Handed(d, file, read) && LinesDecide(d, file, read)
    ensures read.plan.ItemsUsable(SecondPassOf(file, file).items)
    ensures d.InputOf(file).Readable() && d.InputOf(file).Checks().Some?
    ensures AllMaterialize(read.resolution.fields, d.InputOf(file).Survivors())
    ensures var chunks := AllRows(RunOf(read, file, file).batches, cellOf);
      var s' :=
        Deliver(RefreshWriter(executes, commits, closes), BeginRefresh(table), chunks, 0, RunOf(read, file, file).failure).0;
      s'.table == if AllExecute(executes, 0, |chunks|) && commits
                  then Some(RecordRows(read.resolution.fields, d.InputOf(file).Survivors(), cellOf)) else table
  {
    var input := d.InputOf(file);
    UnmodifiedReplays(d, file, read);
    SurvivorsMaterialize(input);
    RefreshHoldsDelivered(
      RunOf(read, file, file), read.plan, input.Survivors(), cellOf, table, executes, commits, closes);
  }

  /** A SQL Server full refresh of an unmodified source leaves exactly the surviving records' rows, in source order, or nothing new. */
  lemma SqlRefreshHoldsSurvivors<Cell(!new)>(d: Definition, file: SourceFile, read: SourceRead,
    cellOf: ArrowValue -> Cell, table: Option<seq<Row<Cell>>>, faults: nat -> Sql.WriteFault, rollbackReaches: nat -> bool,
    fault: Sql.CommitFault)
    requires d.Fits(file) && Reads(d, file, Success(read)) && Handed(d, file, read) && LinesDecide(d, file, read)
    ensures read.plan.ItemsUsable(SecondPassOf(file, file).items)
    ensures d.InputOf(file).Readable() && d.InputOf(file).Checks().Some?
    ensures AllMaterialize(read.resolution.fields, d.InputOf(file).Survivors())
    ensures var run := RunOf(read, file, file);
      var chunks := AllRows(run.batches, cellOf);
      var s' := Deliver(Sql.SqlWriter(faults, rollbackReaches, fault),
                        Sql.BeginSql(Sql.FullRefresh, Keys(0, []), table), chunks, 0, run.failure).0;
      s'.table == if Sql.AllAccepted(chunks, faults) && fault.Commits()
                  then Some(RecordRows(read.resolution.fields, d.InputOf(file).Survivors(), cellOf)) else table
  {
    UnmodifiedReplays(d, file, read);
    SurvivorsMaterialize(d.InputOf(file));
    SqlRefreshHoldsDelivered(RunOf(read, file, file), read.plan, d.InputOf(file).Survivors(), cellOf, table,
      faults, rollbackReaches, fault);
  }

  /**
   * A DuckDB merge of an unmodified source into a target of the dataset's columns upserts exactly the surviving
   * records' rows, or leaves the target untouched; and merging them a second time changes nothing, because
   * no surviving record has a null key.
   */
  lemma MergeUpsertsSurvivors<Cell(!new)>(d: Definition, file: SourceFile, read: SourceRead,
    cellOf: ArrowValue -> Cell, target: seq<Row<Cell>>, stages: nat -> bool, outcome: MergeOutcome)
    requires d.Fits(file) && Reads(d, file, Success(read)) && Handed(d, file, read) && LinesDecide(d, file, read)
    requires forall i :: 0 <= i < |target| ==> |target[i]| == |read.resolution.fields|
    ensures read.plan.ItemsUsable(SecondPassOf(file, file).items)
    ensures d.InputOf(file).Readable() && d.InputOf(file).Checks().Some?
    ensures var fields, survivors := read.resolution.fields, d.InputOf(file).Survivors();
      && AllMaterialize(fields, survivors) && KeysNamed(fields, d.mergeKeys)
      && UpsertsOnce(KeysIn(fields, d.mergeKeys), target, RecordRows(fields, survivors, cellOf),
           AllRows(RunOf(read, file, file).batches, cellOf), RunOf(read, file, file).failure, stages, outcome)
  {
    var input := d.InputOf(file);
    ReadResolves(d, file, read);
    UnmodifiedReplays(d, file, read);
    SurvivingKeysPresent(input, cellOf);
    var run, keys := RunOf(read, file, file), KeysIn(read.resolution.fields, d.mergeKeys);
    MergeHoldsDelivered(run, read.plan, input.Survivors(), cellOf, keys, target, stages, outcome);
    if DistinctKeys(keys, RecordRows(read.resolution.fields, input.Survivors(), cellOf)) {
      MergingAgainChangesNothing(keys, target, RecordRows(read.resolution.fields, input.Survivors(), cellOf));
    }
  }

  /** The merge phase over these chunks upserts these rows or nothing, and doing so twice is doing it once. */
  ghost predicate UpsertsOnce<Cell(!new)>(keys: Keys, target: seq<Row<Cell>>, rows: seq<Row<Cell>>,
    chunks: seq<seq<Row<Cell>>>, failure: Option<Code>, stages: nat -> bool, outcome: MergeOutcome)
    requires keys.Valid() && Rows(keys, target)
  {
    && Rows(keys, rows)
    && Deliver(MergeWriter(stages, outcome), BeginMerge(keys, target), chunks, 0, failure).0.table
         == (if DistinctKeys(keys, rows) && AllExecute(stages, 0, |chunks|) && MergeCommits(outcome)
             then MergeInto(keys, target, rows) else target)
    && (DistinctKeys(keys, rows) ==> MergeInto(keys, MergeInto(keys, target, rows), rows) == MergeInto(keys, target, rows))
  }
}
