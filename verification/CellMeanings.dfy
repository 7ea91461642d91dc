/** What a materialized cell denotes: each type's cells as the values their sources spell, and no other. */
module CellMeanings {
  import opened Wrappers
  import opened Failures
  import opened Digits
  import opened FloatText
  import opened FieldTypes
  import opened Decimals
  import opened Timestamps
  import opened Records
  import opened Spellings
  import opened ClockText

  /** The text spells what this cell of the type holds; a double is kept as its text. */
  ghost predicate TextDenotes(text: string, t: FieldType, cell: ArrowValue) {
    match t
    case Boolean => cell.Flag? && SpellsFlag(text, cell.flag)
    case Int64 => cell.Long? && I64_MIN <= cell.value <= I64_MAX && SpellsInteger(text, cell.value)
    case Float64 => cell == Double(OfText(text)) && SpellsFiniteFloat(text)
    case Utf8 => cell == Text(text)
    case Timestamp => cell.Micros? && SpellsTimestamp(text, cell.micros)
    case Timestamptz => cell.Micros? && SpellsInstant(text, cell.micros)
    case Decimal(p, s) =>
      cell.Scaled? && cell.unscaled < Pow10(p) && -cell.unscaled < Pow10(p) && SpellsDecimal(text, s, cell.unscaled)
  }

  /** The JSON value is what this cell of the type holds; a value that is no string is kept as its JSON text. */
  ghost predicate JsonDenotes(json: Json, t: FieldType, cell: ArrowValue) {
    match t
    case Boolean => cell.Flag? && json == JBool(cell.flag)
    case Int64 => cell.Long? && I64_MIN <= cell.value <= I64_MAX && json == JNumber(Integer(cell.value))
    case Float64 =>
      json.JNumber? && cell == Double(match json.number case Integer(n) => OfInteger(n) case Float(text) => OfFloat(text))
    case Utf8 => cell == (if json.JString? then Text(json.text) else Rendered(json))
    case Timestamp => cell.Micros? && json.JString? && SpellsTimestamp(json.text, cell.micros)
    case Timestamptz => cell.Micros? && json.JString? && SpellsInstant(json.text, cell.micros)
    case Decimal(p, s) =>
      && cell.Scaled? && cell.unscaled < Pow10(p) && -cell.unscaled < Pow10(p)
      && ((json.JString? && SpellsDecimal(json.text, s, cell.unscaled))
          || (json.JNumber? && json.number.Integer? && cell.unscaled == json.number.value * Pow10(s)))
  }

  ghost predicate Denotes(value: SourceValue, t: FieldType, cell: ArrowValue) {
    match value
    case TextValue(text) => TextDenotes(text, t, cell)
    case JsonValue(json) => JsonDenotes(json, t, cell)
  }

  lemma TextCellDenotes(text: string, t: FieldType, cell: ArrowValue)
    ensures BuildTextCell(t, text) == Success(cell) <==> TextDenotes(text, t, cell)
  {
    match t
    case Boolean => if cell.Flag? { ParseBoolReads(text, cell.flag); }
    case Int64 => if cell.Long? { ParseI64Reads(text, cell.value); }
    case Float64 => IsFiniteFloatReads(text);
    case Utf8 =>
    case Timestamp => if cell.Micros? { ParseTimestampReads(text, cell.micros); }
    case Timestamptz => if cell.Micros? { ParseInstantReads(text, cell.micros); }
    case Decimal(p, s) => if cell.Scaled? { ParseDecimalReads(text, p, s, cell.unscaled); }
  }

  lemma JsonCellDenotes(json: Json, t: FieldType, cell: ArrowValue)
    ensures BuildJsonCell(t, json) == Success(cell) <==> JsonDenotes(json, t, cell)
  {
    if json.JString? {
      match t
      case Timestamp => if cell.Micros? { ParseTimestampReads(json.text, cell.micros); }
      case Timestamptz => if cell.Micros? { ParseInstantReads(json.text, cell.micros); }
      case Decimal(p, s) => if cell.Scaled? { ParseDecimalReads(json.text, p, s, cell.unscaled); }
      case _ =>
    } else if t.Decimal? && json.JNumber? && json.number.Integer? {
      ShiftedIntegerIsProduct(json.number.value, t.scale);
    }
  }

  /** A value builds to a cell of the type exactly when that cell holds what the value spells. */
  lemma BuiltCellDenotes(value: SourceValue, t: FieldType, cell: ArrowValue)
    ensures BuildCell(t, Some(value)) == Success(cell) <==> Denotes(value, t, cell)
  {
    match value
    case TextValue(text) => TextCellDenotes(text, t, cell);
    case JsonValue(json) => JsonCellDenotes(json, t, cell);
  }

  /** A value has some cell of the type. */
  ghost predicate HasCell(value: SourceValue, t: FieldType) {
    exists cell :: Denotes(value, t, cell)
  }

  lemma HasCellIffBuilds(value: SourceValue, t: FieldType)
    ensures HasCell(value, t) <==> BuildCell(t, Some(value)).Success?
  {
    if BuildCell(t, Some(value)).Success? {
      BuiltCellDenotes(value, t, BuildCell(t, Some(value)).value);
    }
    if HasCell(value, t) {
      var cell :| Denotes(value, t, cell);
      BuiltCellDenotes(value, t, cell);
    }
  }

  /** Text a number would lose zeros of. */
  ghost predicate LosesZeros(value: SourceValue, t: FieldType) {
    value.TextValue? && (t.Int64? || t.Float64?) && SpellsPadded(value.text)
  }

  lemma TextFitsIffBuilds(text: string, t: FieldType)
    ensures TextValueFits(text, t) <==>
      BuildTextCell(t, text).Success? && !((t.Int64? || t.Float64?) && IsZeroPadded(text))
  {
    NumericTextInfers(text);
  }

  lemma JsonFitsIffBuilds(json: Json, t: FieldType)
    requires json != JNull
    ensures JsonValueFits(json, t) <==> BuildJsonCell(t, json).Success?
  {
  }

  /** A value fits a type exactly when it has a cell of it, except that zero-padded text is no number. */
  lemma FitsIffDenoted(value: SourceValue, t: FieldType)
    requires value != JsonValue(JNull)
    ensures ValueFits(value, t) <==> HasCell(value, t) && !LosesZeros(value, t)
  {
    HasCellIffBuilds(value, t);
    match value
    case TextValue(text) =>
      TextFitsIffBuilds(text, t);
      IsZeroPaddedReads(text);
    case JsonValue(json) =>
      JsonFitsIffBuilds(json, t);
  }

  /** An observation is the least type of the lattice whose field type the value fits. */
  lemma InferIsNarrowest(value: SourceValue, observed: InferredType)
    requires value != JsonValue(JNull) && !observed.NullType?
    ensures Below(Infer(value), observed) <==> ValueFits(value, observed.FieldType())
  {
    MergeIsLeastUpperBound(Infer(value), observed, observed);
  }
}
