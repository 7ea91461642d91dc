/**
 * Which text reads as a finite 64-bit float. Only acceptance is modelled: the grammar of the standard
 * parser, and whether correctly rounding the exact value stays below infinity.
 */
module FloatText {
  import opened Wrappers
  import opened Digits

  /** Halfway between the largest finite double and 2^1024, which is 2^1024 - 2^970: from here on, rounding gives infinity. */
  const OVERFLOW_THRESHOLD: nat :=
    0xFFFFFFFFFFFFFC00000000000000000000000000000000000000000000000000000000000000000000000000000000000000000000000000000000000000000000000000000000000000000000000000000000000000000000000000000000000000000000000000000000000000000000000000000000000000000000000000

  /** A number as written: its digits without the point, and the power of ten that scales them. */
  datatype Literal = Literal(mantissa: nat, exponent: int)

  /** The exponent part after the digits: `e` or `E`, an optional sign, at least one digit. */
  function ParseExponent(s: string): Option<int> {
    if s == "" then Some(0)
    else if s[0] != 'e' && s[0] != 'E' then None
    else
      var (negative, digits) := SplitSign(s[1..]);
      if digits == "" || !AllDigits(digits) then None
      else Some(Signed(negative, DigitsValue(digits)))
  }

  /** The digits after a leading point, none without one, and the text left after them. */
  function TakeFraction(s: string): (r: (string, string))
    ensures AllDigits(r.0)
  {
    if s == "" || s[0] != '.' then ("", s)
    else var m := LeadingDigits(s[1..]); (s[1..][..m], s[1..][m..])
  }

  /** The number its parts spell: at least one digit, and a readable exponent. */
  function FromParts(whole: string, fraction: string, tail: string): Option<Literal>
    requires AllDigits(whole) && AllDigits(fraction)
  {
    DigitsValueConcat(whole, fraction);
    if whole == "" && fraction == "" then None
    else match ParseExponent(tail)
      case None => None
      case Some(e) => Some(Literal(DigitsValue(whole + fraction), e - |fraction|))
  }

  /** Digits with at most one point and at least one digit in all, then an optional exponent. */
  function ParseUnsigned(s: string): Option<Literal> {
    var n := LeadingDigits(s);
    var (fraction, tail) := TakeFraction(s[n..]);
    FromParts(s[..n], fraction, tail)
  }

  /** Whether the exact value mantissa * 10^exponent rounds to a finite double. */
  predicate RoundsFinite(number: Literal) {
    if number.exponent >= 0 then Shifted(number.mantissa, number.exponent) < OVERFLOW_THRESHOLD
    else number.mantissa < Shifted(OVERFLOW_THRESHOLD, -number.exponent)
  }

  /** Whether the text parses as an f64 that is finite; the spellings of infinity and NaN are not. */
  predicate IsFiniteFloat(s: string) {
    var literal := ParseUnsigned(SplitSign(s).1);
    literal.Some? && RoundsFinite(literal.value)
  }

  /** Text that reads as an i64 also reads as a finite float, so an integer cell fits a float column. */
  lemma IntegerTextIsFiniteFloat(s: string)
    requires ParseI64(s).Some?
    ensures IsFiniteFloat(s)
  {
    var digits := SplitSign(s).1;
    LeadingDigitsOfAll(digits);
    var n := LeadingDigits(digits);
    assert digits[..n] == digits && digits[n..] == "";
    assert TakeFraction("") == ("", "");
    assert digits + "" == digits;
    assert ParseUnsigned(digits) == Some(Literal(DigitsValue(digits), 0));
    assert DigitsValue(digits) <= 0x8000_0000_0000_0000;
    assert Shifted(DigitsValue(digits), 0) == DigitsValue(digits);
  }
}
