/** What a load leaves, from its source file's own text: every cell of its rows, its pin file, and whether it was refused. */
module LoadedValues {
  import opened Wrappers
  import opened Failures
  import opened Records
  import opened Schemas
  import opened Inputs
  import opened Rejections
  import opened Sources
  import opened SourceReads
  import opened StreamGuarantees
  import opened Replays
  import opened Deliveries
  import opened Loads
  import opened DeliveredCells
  import opened PlanMeanings
  import Fnv
  import Pins

  /** Every row a CSV load delivers is a row of the file, of the header's length, cell for cell. */
  lemma CsvRowsLoaded<Cell(!new)>(d: Definition, file: SourceFile, read: SourceRead, cellOf: ArrowValue -> Cell, i: nat)
    returns (r: nat)
    requires d.Fits(file) && file.CsvFile? && Reads(d, file, Success(read))
    requires d.InputOf(file).Readable() && d.InputOf(file).Checks().Some? && i < |d.InputOf(file).Survivors()|
    ensures AllMaterialize(read.resolution.fields, d.InputOf(file).Survivors())
    ensures r < |file.rows| && file.rows[r].Row? && |file.rows[r].cells| == |file.header|
    ensures HoldsRow(file.rows[r].cells, read.resolution.fields, cellOf,
                     RecordRows(read.resolution.fields, d.InputOf(file).Survivors(), cellOf)[i])
  {
    ReadResolves(d, file, read);
    r := CsvSurvivorHolds(d.InputOf(file), file.rows, |file.header|, cellOf, i);
  }

  /** Every row a JSONL load delivers is an object line of the file, each cell what the field's address finds in it. */
  lemma JsonlRowsLoaded<Cell(!new)>(d: Definition, file: SourceFile, read: SourceRead, cellOf: ArrowValue -> Cell, i: nat)
    returns (r: nat)
    requires d.Fits(file) && file.JsonlFile? && Reads(d, file, Success(read))
    requires d.InputOf(file).Readable() && d.InputOf(file).Checks().Some? && i < |d.InputOf(file).Survivors()|
    ensures AllMaterialize(read.resolution.fields, d.InputOf(file).Survivors())
    ensures r < |file.lines| && file.lines[r].ObjectLine?
    ensures HoldsRecord(JsonRecord(r + 1, file.lines[r].keys, file.lines[r].fields), read.resolution.fields, cellOf,
                        RecordRows(read.resolution.fields, d.InputOf(file).Survivors(), cellOf)[i])
  {
    ReadResolves(d, file, read);
    r := JsonlSurvivorHolds(d.InputOf(file), file.lines, cellOf, i);
  }

  /** Under the failing policy, a readable pin file is left as it is by every load, and the loaded fields are its own. */
  lemma FailPolicyKeepsPinFile(block: SchemaBlock, content: Pins.PinnedSchemaFile, d: Definition, file: SourceFile,
    around: Surroundings, read: Result<SourceRead, ReadFailure>)
    requires block.drift == Some(FailOnDrift) && Pins.ReadablePin(content)
    requires DirectiveOf(block, Holds(content)) == Success(d.directive)
    requires d.Fits(file) && Reads(d, file, read)
    ensures PinAfter(d, read, around, Holds(content)) == Holds(content)
    ensures read.Success? ==>
      var pin := Pins.PinFrom(content);
      && |read.value.resolution.fields| == |pin|
      && forall f :: 0 <= f < |pin| ==> read.value.resolution.fields[f].name == pin[f].name
  {
    HeldPinDirects(block, content, d.directive);
    if read.Success? {
      ReadResolves(d, file, read.value);
      FailOnDriftKeepsInputPin(d.InputOf(file));
    }
    NothingToPin(d, read, around, Holds(content));
  }

  /** A readable source is refused for its rejections exactly when more rows than the threshold allows do not survive. */
  lemma ThresholdDecides(d: Definition, before: SourceFile, after: SourceFile, around: Surroundings, read: SourceRead,
    end: LoadEnd)
    requires d.Fits(before) && d.Fits(after) && (before.CsvFile? <==> after.CsvFile?) && around.Valid()
    requires Ends(d, before, after, around, Success(read), end)
    ensures d.InputOf(before).Readable() && d.InputOf(before).Checks().Some?
    ensures end == Refused(RejectThresholdExceeded) <==>
      read.sourceRows > |d.InputOf(before).Survivors()| + d.rejectThreshold
    ensures end.Refused? <==>
      || read.sourceRows > |d.InputOf(before).Survivors()| + d.rejectThreshold
      || (read.resolution.pinWrite.Some? && !around.pinPersists)
  {
    RefusedOverThreshold(d, before, after, around, read, end);
    RowsReadAddUp(d, before, read);
  }

  /**
   * A source whose schema is not resolved is refused. With fields, for its schema's reason, however many rows
   * were rejected. Without any, for its rejections when more than the threshold allows do not parse, else for having no fields.
   */
  lemma UnresolvedIsRefused(d: Definition, before: SourceFile, after: SourceFile, around: Surroundings,
    failure: ReadFailure, end: LoadEnd)
    requires d.Fits(before) && d.Fits(after) && (before.CsvFile? <==> after.CsvFile?) && around.Valid()
    requires Ends(d, before, after, around, Failure(failure), end)
    ensures d.InputOf(before).fieldNames != [] ==>
      && d.InputOf(before).Readable() && d.InputOf(before).Resolution().Failure?
      && end == Refused(d.InputOf(before).Resolution().error.code)
    ensures d.InputOf(before).fieldNames == [] ==>
      end == Refused(
        if before.CsvFile? then MalformedCsv
        else if |ParseRejections(before.Items())| > d.rejectThreshold then RejectThresholdExceeded else MalformedJsonl)
  {
  }

  /** A load succeeds only over a source that, when replayed, has its header, rows, keys, rejections and bytes' hash again. */
  lemma LoadedSourceRepeats(d: Definition, before: SourceFile, after: SourceFile, around: Surroundings, read: SourceRead,
    end: LoadEnd)
    requires d.Fits(before) && d.Fits(after) && (before.CsvFile? <==> after.CsvFile?) && around.Valid()
    requires Ends(d, before, after, around, Success(read), end) && end.Loaded?
    ensures before.CsvFile? ==> after.header == before.header
    ensures var items := SecondPassOf(before, after).items;
      read.plan.ItemsUsable(items) && RowCount(items) == RowCount(before.Items())
      && forall i :: 0 <= i < |items| ==> Repeats(read.plan, items[i])
    ensures Fnv.Hash(after.Bytes()) == Fnv.Hash(before.Bytes())
  {
    var source := SecondPassOf(before, after);
    ReadResolves(d, before, read);
    StreamCompletesExactly(read.plan, source);
    PhaseDecides(read, RunOf(read, before, after), around);
    SweptIff(read.plan, source.items);
  }
}
