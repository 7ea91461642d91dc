/** What each delivered cell holds, from the record it was read from. */
module DeliveredCells {
  import opened Wrappers
  import opened Sequences
  import opened Records
  import opened Schemas
  import opened Observations
  import opened Inputs
  import opened Sources
  import opened SourceReads
  import opened Materialization
  import opened Replays
  import opened Upserts
  import opened Deliveries
  import opened Readings
  import opened CellMeanings
  import opened Judgements

  // ----- One cell -----

  /** The destination cell is null when nothing is there to read, and otherwise holds what the value read spells. */
  ghost predicate CellHolds<Cell(!new)>(field: PlannedField, record: SourceRecord, cellOf: ArrowValue -> Cell,
    cell: Option<Cell>)
  {
    if Absent(record, field.source, field.observedIndex) then cell.None?
    else exists value, built ::
      && Finds(record, field.source, field.observedIndex, value)
      && Denotes(value, field.materializedType, built) && cell == Some(cellOf(built))
  }

  lemma MaterializedCellHolds<Cell(!new)>(field: PlannedField, record: SourceRecord, cellOf: ArrowValue -> Cell)
    requires Materializes(field, record)
    ensures CellHolds(field, record, cellOf, Stored(Cell(field, record).value, cellOf))
  {
    var reading := ReadField(record, field.source, field.observedIndex);
    ReadIsAbsent(record, field.source, field.observedIndex);
    if reading.Some? {
      ReadFieldFinds(record, field.source, field.observedIndex, reading.value);
      BuiltCellDenotes(reading.value, field.materializedType, Cell(field, record).value);
    }
  }

  /** Every cell of the rows a load delivers holds what its record has at the field's address, typed as planned. */
  lemma RowCellHolds<Cell(!new)>(fields: seq<PlannedField>, records: seq<SourceRecord>, cellOf: ArrowValue -> Cell,
    i: nat, f: nat)
    requires AllMaterialize(fields, records) && i < |records| && f < |fields|
    ensures CellHolds(fields[f], records[i], cellOf, RecordRows(fields, records, cellOf)[i][f])
  {
    OneMaterializes(fields, records, i);
    MaterializedCellHolds(fields[f], records[i], cellOf);
  }

  /** A cell read along a path holds the leaf of the nested objects, or null when they have none or it is null. */
  lemma PathCellHoldsLeaf<Cell(!new)>(fields: seq<PlannedField>, records: seq<SourceRecord>, cellOf: ArrowValue -> Cell,
    i: nat, f: nat)
    requires AllMaterialize(fields, records) && i < |records| && f < |fields|
    requires records[i].JsonRecord? && fields[f].source.Path?
    ensures var cell := RecordRows(fields, records, cellOf)[i][f];
      && (cell.None? <==> forall leaf :: HasLeaf(records[i].fields, fields[f].source.segments, leaf) ==> leaf == JNull)
      && forall leaf :: HasLeaf(records[i].fields, fields[f].source.segments, leaf) && leaf != JNull ==>
           exists built :: JsonDenotes(leaf, fields[f].materializedType, built) && cell == Some(cellOf(built))
  {
    var record, field, cell := records[i], fields[f], RecordRows(fields, records, cellOf)[i][f];
    RowCellHolds(fields, records, cellOf, i, f);
    forall leaf | HasLeaf(record.fields, field.source.segments, leaf) && leaf != JNull
      ensures Finds(record, field.source, field.observedIndex, JsonValue(leaf))
      ensures exists built :: JsonDenotes(leaf, field.materializedType, built) && cell == Some(cellOf(built))
    {
      assert Finds(record, field.source, field.observedIndex, JsonValue(leaf));
      var value, built :| Finds(record, field.source, field.observedIndex, value)
        && Denotes(value, field.materializedType, built) && cell == Some(cellOf(built));
      OneLeaf(field.source.segments, record.fields, leaf, value.json);
    }
  }

  /** A path leads to at most one leaf. */
  lemma OneLeaf(segments: seq<string>, fields: map<string, Json>, a: Json, b: Json)
    requires HasLeaf(fields, segments, a) && HasLeaf(fields, segments, b)
    ensures a == b
  {
    PathReadsLeaf(segments, fields, a);
    PathReadsLeaf(segments, fields, b);
  }

  // ----- Rows of a file -----

  /** The row's cells are those of the record: the text of each column, read as its field's type, and null when empty. */
  ghost predicate HoldsRow<Cell(!new)>(cells: seq<string>, fields: seq<PlannedField>, cellOf: ArrowValue -> Cell,
    row: Row<Cell>)
  {
    && |row| == |fields|
    && forall f :: 0 <= f < |fields| ==>
         && fields[f].observedIndex < |cells|
         && if cells[fields[f].observedIndex] == "" then row[f].None?
            else exists built ::
              TextDenotes(cells[fields[f].observedIndex], fields[f].materializedType, built) && row[f] == Some(cellOf(built))
  }

  lemma TextCellHolds<Cell(!new)>(fields: seq<PlannedField>, records: seq<SourceRecord>, cellOf: ArrowValue -> Cell,
    i: nat, csv: CsvRow, width: nat)
    requires AllMaterialize(fields, records) && i < |records|
    requires csv.Row? && CsvItem(csv, width) == Parsed(records[i])
    ensures HoldsRow(csv.cells, fields, cellOf, RecordRows(fields, records, cellOf)[i])
  {
    var row := RecordRows(fields, records, cellOf)[i];
    OneMaterializes(fields, records, i);
    forall f | 0 <= f < |fields|
      ensures fields[f].observedIndex < |csv.cells|
      ensures if csv.cells[fields[f].observedIndex] == "" then row[f].None?
        else exists built ::
          TextDenotes(csv.cells[fields[f].observedIndex], fields[f].materializedType, built) && row[f] == Some(cellOf(built))
    {
      RowCellHolds(fields, records, cellOf, i, f);
      assert Materializes(fields[f], records[i]);
      CsvRowReads(csv, width, fields[f].source, fields[f].observedIndex);
      ReadIsAbsent(records[i], fields[f].source, fields[f].observedIndex);
    }
  }

  /** A surviving record came from an item of the source. */
  lemma SurvivorIsItem(input: Input, items: seq<Item>, i: nat) returns (r: nat)
    requires input.Readable() && input.Checks().Some? && i < |input.Survivors()| && input.records == ParsedRecords(items)
    ensures r < |items| && items[r] == Parsed(input.Survivors()[i])
  {
    var survivor := input.Survivors()[i];
    ChecksReadable(input);
    SurvivorPasses(input.records, input.Checks().value, i);
    var k :| 0 <= k < |input.records| && input.records[k] == survivor;
    ParsedRecordIsItem(items, k);
    r :| 0 <= r < |items| && items[r] == Parsed(survivor);
  }

  /** Every delivered row of a CSV source is one of its rows, of the header's length, cell for cell. */
  lemma CsvSurvivorHolds<Cell(!new)>(input: Input, rows: seq<CsvRow>, width: nat, cellOf: ArrowValue -> Cell, i: nat)
    returns (r: nat)
    requires input.Readable() && input.Resolution().Success? && input.records == ParsedRecords(CsvItems(rows, width))
    requires input.Checks().Some? && i < |input.Survivors()|
    ensures AllMaterialize(input.Resolution().value.fields, input.Survivors())
    ensures r < |rows| && rows[r].Row? && |rows[r].cells| == width
    ensures HoldsRow(rows[r].cells, input.Resolution().value.fields, cellOf,
                     RecordRows(input.Resolution().value.fields, input.Survivors(), cellOf)[i])
  {
    SurvivorsMaterialize(input);
    r := SurvivorIsItem(input, CsvItems(rows, width), i);
    TextCellHolds(input.Resolution().value.fields, input.Survivors(), cellOf, i, rows[r], width);
  }

  /** The row's cells are what the fields' addresses find in the record. */
  ghost predicate HoldsRecord<Cell(!new)>(record: SourceRecord, fields: seq<PlannedField>, cellOf: ArrowValue -> Cell,
    row: Row<Cell>)
  {
    |row| == |fields| && forall f :: 0 <= f < |row| ==> CellHolds(fields[f], record, cellOf, row[f])
  }

  lemma RowHoldsRecord<Cell(!new)>(fields: seq<PlannedField>, records: seq<SourceRecord>, cellOf: ArrowValue -> Cell, i: nat)
    requires AllMaterialize(fields, records) && i < |records|
    ensures HoldsRecord(records[i], fields, cellOf, RecordRows(fields, records, cellOf)[i])
  {
    OneMaterializes(fields, records, i);
    forall f | 0 <= f < |fields| ensures CellHolds(fields[f], records[i], cellOf, RecordRows(fields, records, cellOf)[i][f]) {
      RowCellHolds(fields, records, cellOf, i, f);
    }
  }

  /** Every delivered row of a JSONL source is one of its object lines, each cell what the field's address finds in it. */
  lemma JsonlSurvivorHolds<Cell(!new)>(input: Input, lines: seq<JsonlLine>, cellOf: ArrowValue -> Cell, i: nat)
    returns (r: nat)
    requires input.Readable() && input.Resolution().Success? && input.records == ParsedRecords(JsonlItems(lines))
    requires input.Checks().Some? && i < |input.Survivors()|
    ensures AllMaterialize(input.Resolution().value.fields, input.Survivors())
    ensures r < |lines| && lines[r].ObjectLine?
    ensures HoldsRecord(JsonRecord(r + 1, lines[r].keys, lines[r].fields), input.Resolution().value.fields, cellOf,
                        RecordRows(input.Resolution().value.fields, input.Survivors(), cellOf)[i])
  {
    SurvivorsMaterialize(input);
    r := SurvivorIsItem(input, JsonlItems(lines), i);
    RowHoldsRecord(input.Resolution().value.fields, input.Survivors(), cellOf, i);
  }
}
