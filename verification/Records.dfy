/** Source records, how a field is read from them, and how a value is observed, judged and materialized. */
module Records {
  import opened Wrappers
  import opened Failures
  import opened Digits
  import opened FloatText
  import opened FieldTypes
  import opened Decimals
  import opened Timestamps

  /** An integer JSON number is held exactly, as an i64 or a u64; any other number is a float. */
  type JsonInteger = n: int | I64_MIN <= n <= U64_MAX

  datatype JsonNumber = Integer(value: JsonInteger) | Float(literal: string)

  datatype Json =
    | JNull
    | JBool(flag: bool)
    | JNumber(number: JsonNumber)
    | JString(text: string)
    | JArray(items: seq<Json>)
    | JObject(fields: map<string, Json>)

  /** How a dataset column reads its value: a top-level field, or a path into nested objects. */
  datatype SourceAddress = Field(name: string) | Path(segments: seq<string>) {
    predicate Valid() {
      Path? ==> segments != []
    }
  }

  /** One source record at its line: CSV cells in header order, or a JSON object with its key order. */
  datatype SourceRecord =
    | TextRecord(line: nat, cells: seq<Option<string>>)
    | JsonRecord(line: nat, keys: seq<string>, fields: map<string, Json>)
  {
    /** A CSV record has one cell per header field; a JSON record's keys are its object's keys, once each. */
    ghost predicate Valid(width: nat) {
      match this
      case TextRecord(_, cells) => |cells| == width
      case JsonRecord(_, keys, fields) =>
        && (forall k :: k in keys <==> k in fields)
        && (forall i, j :: 0 <= i < j < |keys| ==> keys[i] != keys[j])
    }
  }

  datatype SourceValue = TextValue(text: string) | JsonValue(json: Json)

  /** The total path walk: absent when a key is missing or a step before the leaf is no object. */
  function JsonPathValue(segments: seq<string>, fields: map<string, Json>): Option<Json>
    requires segments != []
  {
    if segments[0] !in fields then None
    else if |segments| == 1 then Some(fields[segments[0]])
    else match fields[segments[0]]
      case JObject(inner) => JsonPathValue(segments[1..], inner)
      case _ => None
  }

  function JsonLookup(source: SourceAddress, fields: map<string, Json>): Option<Json>
    requires source.Valid()
  {
    match source
    case Field(name) => if name in fields then Some(fields[name]) else None
    case Path(segments) => JsonPathValue(segments, fields)
  }

  predicate CanRead(record: SourceRecord, source: SourceAddress, index: nat) {
    source.Valid() && (record.TextRecord? ==> index < |record.cells|)
  }

  /** The value of one field in one record; an empty cell, an absent address and JSON null all read as None. */
  function ReadField(record: SourceRecord, source: SourceAddress, index: nat): (r: Option<SourceValue>)
    requires CanRead(record, source, index)
    ensures r != Some(JsonValue(JNull))
  {
    match record
    case TextRecord(_, cells) =>
      (match cells[index]
       case None => None
       case Some(text) => Some(TextValue(text)))
    case JsonRecord(_, _, fields) =>
      match JsonLookup(source, fields)
      case None => None
      case Some(JNull) => None
      case Some(value) => Some(JsonValue(value))
  }

  // ----- Observation -----

  function ParseBool(text: string): Option<bool> {
    if text in {"true", "TRUE", "True"} then Some(true)
    else if text in {"false", "FALSE", "False"} then Some(false)
    else None
  }

  /** After an optional sign, a zero followed by another digit: reading it as a number would lose zeros. */
  predicate IsZeroPadded(text: string) {
    var unsigned := SplitSign(text).1;
    |unsigned| >= 2 && unsigned[0] == '0' && IsDigit(unsigned[1])
  }

  function InferText(text: string): InferredType {
    if ParseBool(text).Some? then BooleanType
    else if IsZeroPadded(text) then Utf8Type
    else if ParseI64(text).Some? then Int64Type
    else if IsFiniteFloat(text) then Float64Type
    else Utf8Type
  }

  /** No text is both a flag's name and a number. */
  lemma FlagIsNoNumber(text: string)
    requires ParseBool(text).Some?
    ensures ParseI64(text).None? && !IsFiniteFloat(text) && !IsZeroPadded(text)
  {
    assert SplitSign(text) == (false, text) && LeadingDigits(text) == 0;
    assert text[0..] == text && TakeFraction(text) == ("", text);
  }

  /** Text is observed as a number exactly when it reads as one and loses no zeros. */
  lemma NumericTextInfers(text: string)
    ensures InferText(text) == Int64Type <==> !IsZeroPadded(text) && ParseI64(text).Some?
    ensures InferText(text) in {Int64Type, Float64Type} <==> !IsZeroPadded(text) && IsFiniteFloat(text)
    ensures !InferText(text).NullType?
  {
    if ParseBool(text).Some? {
      FlagIsNoNumber(text);
    } else if ParseI64(text).Some? {
      IntegerTextIsFiniteFloat(text);
    }
  }

  function InferJson(value: Json): InferredType {
    match value
    case JNull => NullType
    case JBool(_) => BooleanType
    case JNumber(Integer(n)) => if n <= I64_MAX then Int64Type else Float64Type
    case JNumber(Float(_)) => Float64Type
    case _ => Utf8Type
  }

  function Infer(value: SourceValue): InferredType {
    match value
    case TextValue(text) => InferText(text)
    case JsonValue(json) => InferJson(json)
  }

  /** What a field of a record contributes to its column's observed type. */
  function Observe(reading: Option<SourceValue>): InferredType {
    match reading
    case None => NullType
    case Some(value) => Infer(value)
  }

  // ----- Fit -----

  function ParseDeclaredTimestamp(text: string, expected: FieldType): Option<int> {
    match expected
    case Timestamp => ParseTimestampMicros(text)
    case Timestamptz => ParseTimestamptzMicros(text)
    case _ => None
  }

  predicate FitsExpectedType(observed: InferredType, expected: FieldType) {
    match expected.LatticeType()
    case Some(lattice) => observed.Widens(lattice)
    case None => false
  }

  predicate TextValueFits(text: string, expected: FieldType) {
    match expected
    case Timestamp => ParseTimestampMicros(text).Some?
    case Timestamptz => ParseTimestamptzMicros(text).Some?
    case Decimal(p, s) => ParseDecimal(text, p, s).Some?
    case _ => FitsExpectedType(InferText(text), expected)
  }

  predicate JsonValueFits(value: Json, expected: FieldType) {
    match expected
    case Timestamp => value.JString? && ParseTimestampMicros(value.text).Some?
    case Timestamptz => value.JString? && ParseTimestamptzMicros(value.text).Some?
    case Decimal(p, s) =>
      (match value
       case JString(text) => ParseDecimal(text, p, s).Some?
       case JNumber(Integer(n)) => RescaleInteger(n, p, s).Some?
       case _ => false)
    case _ => FitsExpectedType(InferJson(value), expected)
  }

  predicate ValueFits(value: SourceValue, expected: FieldType) {
    match value
    case TextValue(text) => TextValueFits(text, expected)
    case JsonValue(json) => JsonValueFits(json, expected)
  }

  // ----- Materialization -----

  /** A double is kept as what it was rounded from: cell text, a JSON integer, or a JSON float literal. */
  datatype DoubleValue = OfText(text: string) | OfInteger(value: int) | OfFloat(literal: string)

  /** A materialized cell. Rendered is the compact JSON text of a non-string value. */
  datatype ArrowValue =
    | Null
    | Flag(flag: bool)
    | Long(value: int)
    | Double(double: DoubleValue)
    | Text(text: string)
    | Rendered(json: Json)
    | Micros(micros: int)
    | Scaled(unscaled: int)

  function Built(value: Option<ArrowValue>): Result<ArrowValue, Code> {
    if value.Some? then Success(value.value) else Failure(SchemaCoercionFailed)
  }

  function BuildTextCell(fieldType: FieldType, text: string): Result<ArrowValue, Code> {
    match fieldType
    case Utf8 => Success(Text(text))
    case Boolean => var flag := ParseBool(text); Built(if flag.Some? then Some(Flag(flag.value)) else None)
    case Int64 => var n := ParseI64(text); Built(if n.Some? then Some(Long(n.value)) else None)
    case Float64 => Built(if IsFiniteFloat(text) then Some(Double(OfText(text))) else None)
    case Decimal(p, s) => var d := ParseDecimal(text, p, s); Built(if d.Some? then Some(Scaled(d.value)) else None)
    case _ =>
      var micros := ParseDeclaredTimestamp(text, fieldType);
      Built(if micros.Some? then Some(Micros(micros.value)) else None)
  }

  function BuildJsonCell(fieldType: FieldType, value: Json): Result<ArrowValue, Code> {
    match fieldType
    case Utf8 => if value.JString? then Success(Text(value.text)) else Success(Rendered(value))
    case Boolean => Built(if value.JBool? then Some(Flag(value.flag)) else None)
    case Int64 =>
      Built(if value.JNumber? && value.number.Integer? && value.number.value <= I64_MAX
            then Some(Long(value.number.value)) else None)
    case Float64 =>
      (match value
       case JNumber(Integer(n)) => Success(Double(OfInteger(n)))
       case JNumber(Float(literal)) => Success(Double(OfFloat(literal)))
       case _ => Failure(SchemaCoercionFailed))
    case Decimal(p, s) =>
      var d := (match value
                case JString(text) => ParseDecimal(text, p, s)
                case JNumber(Integer(n)) => RescaleInteger(n, p, s)
                case _ => None);
      Built(if d.Some? then Some(Scaled(d.value)) else None)
    case _ =>
      var micros := if value.JString? then ParseDeclaredTimestamp(value.text, fieldType) else None;
      Built(if micros.Some? then Some(Micros(micros.value)) else None)
  }

  /** One cell of a column: null for an absent value, the coerced value otherwise. */
  function BuildCell(fieldType: FieldType, reading: Option<SourceValue>): Result<ArrowValue, Code> {
    match reading
    case None => Success(Null)
    case Some(TextValue(text)) => BuildTextCell(fieldType, text)
    case Some(JsonValue(value)) => BuildJsonCell(fieldType, value)
  }

  /** Only an integer or a float reading widens to a float column, and both are finite floats. */
  lemma FloatColumnText(text: string)
    requires FitsExpectedType(InferText(text), Float64)
    ensures IsFiniteFloat(text)
  {
    if ParseI64(text).Some? {
      IntegerTextIsFiniteFloat(text);
    }
  }

  lemma FittingTextBuilds(text: string, expected: FieldType)
    requires TextValueFits(text, expected)
    ensures BuildTextCell(expected, text).Success? && !BuildTextCell(expected, text).value.Null?
  {
    match expected
    case Float64 => FloatColumnText(text);
    case Utf8 =>
    case Boolean =>
    case Int64 =>
    case _ =>
  }

  lemma FittingJsonBuilds(value: Json, expected: FieldType)
    requires value != JNull && JsonValueFits(value, expected)
    ensures BuildJsonCell(expected, value).Success? && !BuildJsonCell(expected, value).value.Null?
  {
  }

  /** A value that fits its expected type always builds, and never as a null. */
  lemma FittingValueBuilds(value: SourceValue, expected: FieldType)
    requires value != JsonValue(JNull)
    requires ValueFits(value, expected)
    ensures BuildCell(expected, Some(value)).Success?
    ensures !BuildCell(expected, Some(value)).value.Null?
  {
    match value
    case TextValue(text) => FittingTextBuilds(text, expected);
    case JsonValue(json) => FittingJsonBuilds(json, expected);
  }

  /** A value whose observation widens to another observation fits the type that one materializes as. */
  lemma WidenedValueFits(value: SourceValue, column: InferredType)
    requires value != JsonValue(JNull)
    requires Infer(value).Widens(column)
    ensures ValueFits(value, column.FieldType())
  {
  }
}
