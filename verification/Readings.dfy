/** What an address finds in a record: a cell, a top-level value, or the leaf of nested objects. */
module Readings {
  import opened Wrappers
  import opened Records
  import opened Schemas
  import opened Sources

  /** Objects nested along a path: every segment but the last holds the next object, the last one the leaf. */
  ghost predicate Leads(objects: seq<map<string, Json>>, segments: seq<string>, leaf: Json) {
    && |objects| == |segments| >= 1
    && (forall i :: 0 <= i < |segments| - 1 ==>
          segments[i] in objects[i] && objects[i][segments[i]] == JObject(objects[i + 1]))
    && var last := |segments| - 1;
       segments[last] in objects[last] && objects[last][segments[last]] == leaf
  }

  /** Following the path from these fields ends at this leaf. */
  ghost predicate HasLeaf(fields: map<string, Json>, segments: seq<string>, leaf: Json) {
    exists objects: seq<map<string, Json>> :: |objects| > 0 && objects[0] == fields && Leads(objects, segments, leaf)
  }

  /** The path walk finds exactly the leaf of the objects nested along the path. */
  lemma {:induction false} PathReadsLeaf(segments: seq<string>, fields: map<string, Json>, leaf: Json)
    requires segments != []
    ensures JsonPathValue(segments, fields) == Some(leaf) <==> HasLeaf(fields, segments, leaf)
  {
    if JsonPathValue(segments, fields) == Some(leaf) {
      WalkLeads(segments, fields, leaf);
    }
    if HasLeaf(fields, segments, leaf) {
      var objects: seq<map<string, Json>> :| |objects| > 0 && objects[0] == fields && Leads(objects, segments, leaf);
      LeadsWalk(objects, segments, leaf);
    }
  }

  lemma {:induction false} WalkLeads(segments: seq<string>, fields: map<string, Json>, leaf: Json)
    requires segments != [] && JsonPathValue(segments, fields) == Some(leaf)
    ensures HasLeaf(fields, segments, leaf)
  {
    if |segments| == 1 {
      assert Leads([fields], segments, leaf);
    } else {
      var inner := fields[segments[0]].fields;
      WalkLeads(segments[1..], inner, leaf);
      var rest: seq<map<string, Json>> :| |rest| > 0 && rest[0] == inner && Leads(rest, segments[1..], leaf);
      var objects := [fields] + rest;
      forall i | 0 <= i < |segments| - 1
        ensures segments[i] in objects[i] && objects[i][segments[i]] == JObject(objects[i + 1])
      {
        if i > 0 {
          assert segments[i] == segments[1..][i - 1];
        }
      }
      assert segments[|segments| - 1] == segments[1..][|segments| - 2];
      assert Leads(objects, segments, leaf);
    }
  }

  lemma {:induction false} LeadsWalk(objects: seq<map<string, Json>>, segments: seq<string>, leaf: Json)
    requires Leads(objects, segments, leaf)
    ensures JsonPathValue(segments, objects[0]) == Some(leaf)
  {
    if |segments| > 1 {
      var rest, more := objects[1..], segments[1..];
      forall i | 0 <= i < |more| - 1 ensures more[i] in rest[i] && rest[i][more[i]] == JObject(rest[i + 1]) {
        assert more[i] == segments[i + 1] && rest[i] == objects[i + 1] && rest[i + 1] == objects[i + 2];
      }
      assert objects[0][segments[0]] == JObject(objects[1]);
      LeadsWalk(rest, more, leaf);
    }
  }

  /** The address finds this value in the record: nothing stands for an empty cell, an absent key or JSON null. */
  ghost predicate Finds(record: SourceRecord, source: SourceAddress, index: nat, value: SourceValue) {
    match (record, value)
    case (TextRecord(_, cells), TextValue(text)) => index < |cells| && cells[index] == Some(text)
    case (JsonRecord(_, _, fields), JsonValue(json)) =>
      json != JNull && (match source
                        case Field(name) => name in fields && fields[name] == json
                        case Path(segments) => HasLeaf(fields, segments, json))
    case _ => false
  }

  /** Reading a field gives exactly what its address finds. */
  lemma ReadFieldFinds(record: SourceRecord, source: SourceAddress, index: nat, value: SourceValue)
    requires CanRead(record, source, index)
    ensures ReadField(record, source, index) == Some(value) <==> Finds(record, source, index, value)
  {
    if record.JsonRecord? && source.Path? && value.JsonValue? {
      PathReadsLeaf(source.segments, record.fields, value.json);
    }
  }

  /** A row of the header's length is a record whose cells are the row's, the empty ones absent; any other is rejected. */
  lemma CsvRowReads(row: CsvRow, width: nat, source: SourceAddress, i: nat)
    requires row.Row? && source.Valid() && i < width
    ensures |row.cells| != width ==> CsvItem(row, width) == Malformed(row.line)
    ensures |row.cells| == width ==>
      && CsvItem(row, width).Parsed? && CsvItem(row, width).record.line == row.line
      && CanRead(CsvItem(row, width).record, source, i)
      && (ReadField(CsvItem(row, width).record, source, i).None? <==> row.cells[i] == "")
      && (row.cells[i] != "" ==> Finds(CsvItem(row, width).record, source, i, TextValue(row.cells[i])))
  {
  }
}
