/** Decimal text and integers scaled exactly, and the checked 128-bit loop that computes them. */
module Decimals {
  import opened Wrappers
  import opened Digits

  const I128_MIN: int := -0x8000_0000_0000_0000_0000_0000_0000_0000
  const I128_MAX: int := 0x7FFF_FFFF_FFFF_FFFF_FFFF_FFFF_FFFF_FFFF

  predicate FitsI128(n: int) {
    I128_MIN <= n <= I128_MAX
  }

  /** Plain decimal text taken apart: its sign, integer digits and fraction digits. */
  datatype PlainDecimal = PlainDecimal(negative: bool, whole: string, fraction: string) {
    predicate Valid() {
      whole != "" && AllDigits(whole) && AllDigits(fraction)
    }
  }

  /** Digits with at most one point, and digits on both sides of it: the whole and the fraction. */
  function SplitDigits(unsigned: string): (r: Option<(string, string)>)
    ensures r.Some? ==> r.value.0 != "" && AllDigits(r.value.0) && AllDigits(r.value.1)
  {
    match Find(unsigned, '.')
    case None =>
      if unsigned == "" || !AllDigits(unsigned) then None
      else Some((unsigned, ""))
    case Some(point) =>
      var whole, fraction := unsigned[..point], unsigned[point + 1..];
      if whole == "" || fraction == "" || !AllDigits(whole) || !AllDigits(fraction) then None
      else Some((whole, fraction))
  }

  function SplitPlainDecimal(text: string): (r: Option<PlainDecimal>)
    ensures r.Some? ==> r.value.Valid()
  {
    var (negative, unsigned) := SplitSign(text);
    match SplitDigits(unsigned)
    case None => None
    case Some((whole, fraction)) => Some(PlainDecimal(negative, whole, fraction))
  }

  /** The magnitude of the number times 10^scale, exact because the fraction has at most `scale` digits. */
  function ScaledMagnitude(number: PlainDecimal, scale: nat): nat
    requires number.Valid() && |number.fraction| <= scale
  {
    Shifted(DigitsValue(number.whole), scale) + Shifted(DigitsValue(number.fraction), scale - |number.fraction|)
  }

  /** A scaled value fits its precision when its magnitude spells at most `precision` digits. */
  function Bounded(scaled: int, precision: nat): Option<int> {
    var bound: int := Pow10(precision);
    if -bound < scaled < bound then Some(scaled) else None
  }

  /** The number's exact scaled value: never rounded, refused only for scale or precision. */
  function ScaledValue(number: PlainDecimal, precision: nat, scale: nat): Option<int>
    requires number.Valid()
  {
    if |number.fraction| > scale then None
    else Bounded(Signed(number.negative, ScaledMagnitude(number, scale)), precision)
  }

  /** What decimal text means in exact arithmetic. */
  function ParseDecimal(text: string, precision: nat, scale: nat): Option<int> {
    match SplitPlainDecimal(text)
    case None => None
    case Some(number) => ScaledValue(number, precision, scale)
  }

  /** What a JSON integer means as a decimal, in exact arithmetic. */
  function RescaleInteger(value: int, precision: nat, scale: nat): Option<int> {
    Bounded(ShiftedInteger(value, scale), precision)
  }

  /** The integer with `k` zeros appended to its magnitude. */
  function ShiftedInteger(value: int, k: nat): int {
    Signed(value < 0, Shifted(if value < 0 then -value else value, k))
  }

  lemma ShiftedIntegerIsProduct(value: int, k: nat)
    ensures ShiftedInteger(value, k) == value * Pow10(k)
  {
    var magnitude: nat := if value < 0 then -value else value;
    ShiftedIsProduct(magnitude, k);
    NegatedProduct(value, Pow10(k));
  }

  function CheckedMul(a: int, b: int): Option<int> {
    if FitsI128(a * b) then Some(a * b) else None
  }

  function CheckedAdd(a: int, b: int): Option<int> {
    if FitsI128(a + b) then Some(a + b) else None
  }

  lemma Pow10Of38()
    ensures Pow10(38) == 100_000_000_000_000_000_000_000_000_000_000_000_000
  {
    assert Pow10(10) == 10_000_000_000;
    Pow10Add(10, 10);
    Pow10Add(20, 10);
    assert Pow10(8) == 100_000_000;
    Pow10Add(30, 8);
  }

  /** Every value of at most 38 digits fits in an i128, so the bound is the first thing that can refuse. */
  lemma BoundFitsI128(precision: nat)
    requires precision <= 38
    ensures Pow10(precision) <= I128_MAX
  {
    Pow10Of38();
    Pow10Monotone(precision, 38);
  }

  lemma {:induction false} PrefixValueIsSmaller(s: string, i: nat)
    requires AllDigits(s) && i <= |s|
    ensures DigitsValue(s[..i]) <= DigitsValue(s)
  {
    if i < |s| {
      PrefixValueIsSmaller(s[..|s| - 1], i);
      assert s[..|s| - 1][..i] == s[..i];
    } else {
      assert s[..i] == s;
    }
  }

  /** The scaled magnitude is the number's digits, read together, with the missing zeros appended. */
  lemma MagnitudeIsShifted(number: PlainDecimal, scale: nat)
    requires number.Valid() && |number.fraction| <= scale
    ensures AllDigits(number.whole + number.fraction)
    ensures ScaledMagnitude(number, scale)
         == Shifted(DigitsValue(number.whole + number.fraction), scale - |number.fraction|)
  {
    var w, f, m := DigitsValue(number.whole), DigitsValue(number.fraction), scale - |number.fraction|;
    DigitsValueConcat(number.whole, number.fraction);
    ShiftedIsProduct(DigitsValue(number.whole + number.fraction), m);
    ShiftedIsProduct(w, scale);
    ShiftedIsProduct(f, m);
    Pow10Add(|number.fraction|, m);
    var a, b := Pow10(|number.fraction|), Pow10(m);
    Distribute(w, a, f, b);
  }

  lemma Distribute(w: nat, a: nat, f: nat, b: nat)
    ensures (w * a + f) * b == w * (a * b) + f * b
  {
  }

  /** The parser's loop over digits with checked i128 steps computes exactly the exact meaning. */
  method ParseDecimalScaled(text: string, precision: nat, scale: nat) returns (r: Option<int>)
    requires 1 <= precision <= 38 && scale <= precision
    ensures r == ParseDecimal(text, precision, scale)
  {
    var split := SplitPlainDecimal(text);
    if split.None? || |split.value.fraction| > scale {
      return None;
    }
    var number := split.value;
    var digits := number.whole + number.fraction;
    MagnitudeIsShifted(number, scale);
    BoundFitsI128(precision);
    var magnitude := AccumulateDigits(digits, scale - |number.fraction|);
    if magnitude.None? {
      return None;
    }
    return Bounded(if number.negative then -magnitude.value else magnitude.value, precision);
  }

  /** The two checked loops: every digit in turn, then one multiplication per missing fraction digit. */
  method AccumulateDigits(digits: string, missing: nat) returns (r: Option<int>)
    requires AllDigits(digits)
    ensures r == if FitsI128(Shifted(DigitsValue(digits), missing)) then Some(Shifted(DigitsValue(digits), missing)) else None
  {
    ghost var value := DigitsValue(digits);
    ShiftedGrows(value, 0, missing);
    var scaled: int := 0;
    for i := 0 to |digits|
      invariant AllDigits(digits[..i]) && scaled == DigitsValue(digits[..i]) && FitsI128(scaled)
    {
      assert digits[..i + 1][..i] == digits[..i];
      PrefixValueIsSmaller(digits, i + 1);
      var product := CheckedMul(scaled, 10);
      if product.None? {
        return None;
      }
      var sum := CheckedAdd(product.value, DigitOf(digits[i]));
      if sum.None? {
        return None;
      }
      scaled := sum.value;
    }
    assert digits[..|digits|] == digits;
    for i := 0 to missing
      invariant scaled == Shifted(value, i) && FitsI128(scaled)
    {
      ShiftedGrows(value, i + 1, missing);
      var product := CheckedMul(scaled, 10);
      if product.None? {
        return None;
      }
      scaled := product.value;
    }
    return Some(scaled);
  }

  /** The checked product refuses a JSON integer exactly when its scaled value misses the precision. */
  lemma RescaleNeverOverflowsFirst(value: int, precision: nat, scale: nat)
    requires 1 <= precision <= 38 && scale <= precision
    ensures FitsI128(Pow10(scale))
    ensures CheckedMul(value, Pow10(scale)).None? ==> RescaleInteger(value, precision, scale).None?
  {
    BoundFitsI128(precision);
    BoundFitsI128(scale);
    ShiftedIntegerIsProduct(value, scale);
  }

  function IntegerText(value: int): string {
    if value < 0 then "-" + Itoa(-value) else Itoa(value)
  }

  lemma IntegerTextSplits(value: int, digits: string)
    requires digits == Itoa(if value < 0 then -value else value)
    ensures SplitPlainDecimal(IntegerText(value)) == Some(PlainDecimal(value < 0, digits, ""))
  {
    var text := IntegerText(value);
    if value < 0 {
      assert text[1..] == digits;
    }
    assert SplitSign(text) == (value < 0, digits);
    assert SplitDigits(digits) == Some((digits, ""));
  }

  /** A JSON integer scales to the same value as its decimal text. */
  lemma IntegerAgreesWithItsText(value: int, precision: nat, scale: nat)
    ensures ParseDecimal(IntegerText(value), precision, scale) == RescaleInteger(value, precision, scale)
  {
    var magnitude: nat := if value < 0 then -value else value;
    ItoaReads(magnitude);
    IntegerTextSplits(value, Itoa(magnitude));
    ShiftedIsProduct(0, scale);
  }

  lemma NegatedProduct(value: int, factor: int)
    ensures -((-value) * factor) == value * factor
  {
  }
}
