/** The observation lattice and the field-type vocabulary, with the names types carry in pins and reports. */
module FieldTypes {
  import opened Wrappers
  import opened Digits

  /** The narrowest type observed across a column's values; NullType is an all-absent column. */
  datatype InferredType = NullType | BooleanType | Int64Type | Float64Type | Utf8Type {

    /** Widens two observations to the narrowest type that holds both. */
    function Merge(other: InferredType): InferredType {
      match (this, other)
      case (NullType, _) => other
      case (_, NullType) => this
      case (Int64Type, Float64Type) => Float64Type
      case (Float64Type, Int64Type) => Float64Type
      case (_, _) => if this == other then this else Utf8Type
    }

    /** Widening order: `this` merges into `other` without changing it. */
    predicate Widens(other: InferredType) {
      Merge(other) == other
    }

    /** The field type an observed column materializes as when nothing is declared. */
    function FieldType(): FieldType {
      match this
      case NullType => Utf8
      case Utf8Type => Utf8
      case BooleanType => Boolean
      case Int64Type => Int64
      case Float64Type => Float64
    }
  }

  datatype FieldType =
    | Boolean
    | Int64
    | Float64
    | Utf8
    | Timestamp
    | Timestamptz
    | Decimal(precision: nat, scale: nat)
  {
    /** Decimal parameters are bounded; every other type is valid as it stands. */
    predicate Valid() {
      Decimal? ==> 1 <= precision <= 38 && scale <= precision
    }

    /** The lattice type of an inference-reachable field type; declared-only types have none. */
    function LatticeType(): Option<InferredType> {
      match this
      case Boolean => Some(BooleanType)
      case Int64 => Some(Int64Type)
      case Float64 => Some(Float64Type)
      case Utf8 => Some(Utf8Type)
      case _ => None
    }

    predicate IsDeclaredOnly() {
      LatticeType().None?
    }

    function Name(): string {
      match this
      case Boolean => "boolean"
      case Int64 => "int64"
      case Float64 => "float64"
      case Utf8 => "utf8"
      case Timestamp => "timestamp"
      case Timestamptz => "timestamptz"
      case Decimal(p, s) => "decimal(" + Itoa(p) + "," + Itoa(s) + ")"
    }
  }

  /** The order of observations: nothing observed below everything, integers below floats, everything below text. */
  predicate Below(a: InferredType, b: InferredType) {
    a == b || a.NullType? || b.Utf8Type? || (a.Int64Type? && b.Float64Type?)
  }

  /** Merge is the join of that order: the least type above both observations. */
  lemma MergeIsLeastUpperBound(a: InferredType, b: InferredType, c: InferredType)
    ensures Below(a.Merge(b), c) <==> Below(a, c) && Below(b, c)
    ensures Below(a, a.Merge(b)) && Below(b, a.Merge(b))
    ensures a.Widens(b) <==> Below(a, b)
    ensures a.Merge(b) == b.Merge(a) && a.Merge(a) == a && a.Merge(b).Merge(c) == a.Merge(b.Merge(c))
  {
  }

  /** What widens to an observation widens to whatever that one is merged into. */
  lemma WidensOnward(x: InferredType, a: InferredType, b: InferredType)
    requires x.Widens(a)
    ensures x.Widens(a.Merge(b)) && b.Widens(a.Merge(b))
  {
  }

  /** A decimal parameter written canonically, as the unsigned byte it spells. */
  function ParseCanonicalU8(text: string): Option<nat> {
    if text == "" || !AllDigits(text) then None
    else if |text| > 1 && text[0] == '0' then None
    else if DigitsValue(text) > 255 then None
    else Some(DigitsValue(text))
  }

  const DECIMAL_PREFIX := "decimal("

  function ParseDecimalTypeName(name: string): Option<FieldType> {
    if !(DECIMAL_PREFIX <= name) then None
    else
      var tail := name[|DECIMAL_PREFIX|..];
      if tail == "" || tail[|tail| - 1] != ')' then None
      else
        var parameters := tail[..|tail| - 1];
        match Find(parameters, ',')
        case None => None
        case Some(comma) =>
          match (ParseCanonicalU8(parameters[..comma]), ParseCanonicalU8(parameters[comma + 1..]))
          case (Some(p), Some(s)) => if 1 <= p <= 38 && s <= p then Some(Decimal(p, s)) else None
          case _ => None
  }

  function ParseTypeName(name: string): Option<FieldType> {
    match name
    case "boolean" => Some(Boolean)
    case "int64" => Some(Int64)
    case "float64" => Some(Float64)
    case "utf8" => Some(Utf8)
    case "timestamp" => Some(Timestamp)
    case "timestamptz" => Some(Timestamptz)
    case _ => ParseDecimalTypeName(name)
  }

  /** Parsing a valid type's name gives the type back. */
  lemma NameParses(t: FieldType)
    requires t.Valid()
    ensures ParseTypeName(t.Name()) == Some(t)
  {
    if t.Decimal? {
      DecimalNameParses(t.precision, t.scale);
    }
  }

  lemma CanonicalU8Parses(n: nat)
    requires n <= 255
    ensures ParseCanonicalU8(Itoa(n)) == Some(n)
  {
    ItoaReads(n);
  }

  lemma DecimalNameParses(precision: nat, scale: nat)
    requires 1 <= precision <= 38 && scale <= precision
    ensures ParseDecimalTypeName(Decimal(precision, scale).Name()) == Some(Decimal(precision, scale))
  {
    CanonicalU8Parses(precision);
    CanonicalU8Parses(scale);
    SplitsAtComma(Itoa(precision), Itoa(scale));
  }

  lemma SplitsAtComma(p: string, s: string)
    requires ParseCanonicalU8(p).Some? && ParseCanonicalU8(s).Some?
    requires 1 <= ParseCanonicalU8(p).value <= 38 && ParseCanonicalU8(s).value <= ParseCanonicalU8(p).value
    ensures ParseDecimalTypeName(DECIMAL_PREFIX + p + "," + s + ")")
         == Some(Decimal(ParseCanonicalU8(p).value, ParseCanonicalU8(s).value))
  {
    var parameters := p + "," + s;
    var name := DECIMAL_PREFIX + p + "," + s + ")";
    assert name == DECIMAL_PREFIX + (parameters + ")");
    assert name[|DECIMAL_PREFIX|..] == parameters + ")";
    assert (parameters + ")")[..|parameters|] == parameters;
    assert parameters[|p|] == ',' && forall k :: 0 <= k < |p| ==> parameters[k] == p[k] != ',';
    assert Find(parameters, ',') == Some(|p|);
    assert parameters[..|p|] == p && parameters[|p| + 1..] == s;
  }

  lemma ParsedDecimalNamePrints(name: string)
    requires ParseDecimalTypeName(name).Some?
    ensures ParseDecimalTypeName(name).value.Decimal? && ParseDecimalTypeName(name).value.Valid()
    ensures ParseDecimalTypeName(name).value.Name() == name
  {
    var tail := name[|DECIMAL_PREFIX|..];
    var parameters := tail[..|tail| - 1];
    var comma := Find(parameters, ',').value;
    var p, s := parameters[..comma], parameters[comma + 1..];
    ItoaPrints(p);
    ItoaPrints(s);
    assert parameters == p + "," + s;
    assert tail == parameters + ")";
    assert name == DECIMAL_PREFIX + tail;
  }

  /** Every accepted spelling prints back byte-identical, and spells a valid type. */
  lemma ParsedNamePrints(name: string)
    requires ParseTypeName(name).Some?
    ensures ParseTypeName(name).value.Valid()
    ensures ParseTypeName(name).value.Name() == name
  {
    if name !in {"boolean", "int64", "float64", "utf8", "timestamp", "timestamptz"} {
      ParsedDecimalNamePrints(name);
    }
  }
}
