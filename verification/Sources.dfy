/** Source files as the parsers present them, and the items both passes classify them into. */
module Sources {
  import opened Wrappers
  import opened Records
  import opened Schemas
  import opened Observations

  /** What the CSV reader yields: an error at a line, or a row of cells at its starting line. */
  datatype CsvRow = Unreadable(line: nat) | Row(line: nat, cells: seq<string>)

  /** One line of a JSONL file: white space, text that is no JSON object, or an object with its key order. */
  datatype JsonlLine = WhiteSpace | NoObject | ObjectLine(keys: seq<string>, fields: map<string, Json>) {
    ghost predicate Valid() {
      ObjectLine? ==> JsonRecord(0, keys, fields).Valid(0)
    }
  }

  /** One item of a pass: nothing, a parse rejection at a line, or a record. */
  datatype Item = Blank | Malformed(line: nat) | Parsed(record: SourceRecord) {
    predicate IsRow() {
      !Blank?
    }

    function Line(): nat
      requires IsRow()
    {
      if Malformed? then line else record.line
    }
  }

  function CsvCell(text: string): Option<string> {
    if text == "" then None else Some(text)
  }

  function CsvItem(row: CsvRow, width: nat): Item {
    match row
    case Unreadable(line) => Malformed(line)
    case Row(line, cells) =>
      if |cells| != width then Malformed(line)
      else Parsed(TextRecord(line, seq(|cells|, i requires 0 <= i < |cells| => CsvCell(cells[i]))))
  }

  function JsonlItem(line: JsonlLine, number: nat): Item {
    match line
    case WhiteSpace => Blank
    case NoObject => Malformed(number)
    case ObjectLine(keys, fields) => Parsed(JsonRecord(number, keys, fields))
  }

  function CsvItems(rows: seq<CsvRow>, width: nat): (r: seq<Item>)
    ensures |r| == |rows| && forall i :: 0 <= i < |r| ==> r[i] == CsvItem(rows[i], width)
  {
    seq(|rows|, i requires 0 <= i < |rows| => CsvItem(rows[i], width))
  }

  /** Lines are numbered from one. */
  function JsonlItems(lines: seq<JsonlLine>): (r: seq<Item>)
    ensures |r| == |lines| && forall i :: 0 <= i < |r| ==> r[i] == JsonlItem(lines[i], i + 1)
  {
    seq(|lines|, i requires 0 <= i < |lines| => JsonlItem(lines[i], i + 1))
  }

  /** The rows a pass counts: every item that is not blank. */
  function RowCount(items: seq<Item>): nat {
    if items == [] then 0
    else RowCount(items[..|items| - 1]) + if items[|items| - 1].IsRow() then 1 else 0
  }

  /** The records that parsed, in order. */
  function ParsedRecords(items: seq<Item>): seq<SourceRecord> {
    if items == [] then []
    else
      var last := items[|items| - 1];
      ParsedRecords(items[..|items| - 1]) + (if last.Parsed? then [last.record] else [])
  }

  lemma {:induction false} ParsedRecordIsItem(items: seq<Item>, i: nat)
    requires i < |ParsedRecords(items)|
    ensures Parsed(ParsedRecords(items)[i]) in items
  {
    var rest := items[..|items| - 1];
    if i < |ParsedRecords(rest)| {
      ParsedRecordIsItem(rest, i);
    }
  }

  lemma {:induction false} ItemIsParsedRecord(items: seq<Item>, i: nat)
    requires i < |items| && items[i].Parsed?
    ensures items[i].record in ParsedRecords(items)
  {
    if i < |items| - 1 {
      ItemIsParsedRecord(items[..|items| - 1], i);
    }
  }

  ghost predicate ItemsReadable(items: seq<Item>, checks: seq<FieldCheck>) {
    forall i :: 0 <= i < |items| && items[i].Parsed? ==> Readable(items[i].record, checks)
  }

  /** The rejection an item earns: its parse rejection, or the first check its record fails. */
  function ItemRejection(item: Item, checks: seq<FieldCheck>): Option<Rejection>
    requires item.Parsed? ==> Readable(item.record, checks)
  {
    match item
    case Blank => None
    case Malformed(line) => Some(Rejection(line, MalformedRecord, None))
    case Parsed(record) => ValidateRecord(record, checks)
  }

  function Listed(rejection: Option<Rejection>): seq<Rejection> {
    if rejection.Some? then [rejection.value] else []
  }

  /** The rejections of a whole source under fixed checks, in source order. */
  function ItemRejections(items: seq<Item>, checks: seq<FieldCheck>): seq<Rejection>
    requires ItemsReadable(items, checks)
  {
    if items == [] then []
    else ItemRejections(items[..|items| - 1], checks) + Listed(ItemRejection(items[|items| - 1], checks))
  }

  /** Every row is written or rejected, once: survivors plus rejected equals the rows read. */
  lemma {:induction false} RowsAreConserved(items: seq<Item>, checks: seq<FieldCheck>)
    requires ItemsReadable(items, checks)
    ensures AllReadable(ParsedRecords(items), checks)
    ensures |Survivors(ParsedRecords(items), checks)| + |ItemRejections(items, checks)| == RowCount(items)
  {
    if items != [] {
      var rest, last := items[..|items| - 1], items[|items| - 1];
      RowsAreConserved(rest, checks);
      ParsedRecordsReadable(items, checks);
      if last.Parsed? {
        SurvivorsSnoc(ParsedRecords(rest), last.record, checks);
        RejectedIffViolates(last.record, checks);
      } else {
        assert ParsedRecords(items) == ParsedRecords(rest);
      }
    }
  }

  lemma {:induction false} ParsedRecordsReadable(items: seq<Item>, checks: seq<FieldCheck>)
    requires ItemsReadable(items, checks)
    ensures AllReadable(ParsedRecords(items), checks)
  {
    var records := ParsedRecords(items);
    forall i | 0 <= i < |records| ensures Readable(records[i], checks) {
      ParsedRecordIsItem(items, i);
    }
  }

  /** Line numbers strictly increase over the rows. */
  ghost predicate LineOrdered(items: seq<Item>) {
    forall i, j :: 0 <= i < j < |items| && items[i].IsRow() && items[j].IsRow() ==> items[i].Line() < items[j].Line()
  }

  lemma JsonlLinesOrdered(lines: seq<JsonlLine>)
    ensures LineOrdered(JsonlItems(lines))
  {
  }
}
