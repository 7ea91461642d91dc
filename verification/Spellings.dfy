/** What number and boolean text means, stated on the text itself, and that the parsers read exactly that. */
module Spellings {
  import opened Wrappers
  import opened Digits
  import opened FloatText
  import opened Decimals
  import opened Records

  datatype Sign = NoSign | Plus | Minus {
    function Text(): string {
      match this
      case NoSign => ""
      case Plus => "+"
      case Minus => "-"
    }

    function Of(magnitude: int): int {
      if Minus? then -magnitude else magnitude
    }
  }

  predicate Numeral(digits: string) {
    digits != "" && AllDigits(digits)
  }

  lemma SignSplits(sign: Sign, rest: string)
    requires rest != "" && rest[0] !in {'+', '-'}
    ensures SplitSign(sign.Text() + rest) == (sign.Minus?, rest)
  {
    assert sign != NoSign ==> (sign.Text() + rest)[1..] == rest;
    assert sign == NoSign ==> sign.Text() + rest == rest;
  }

  lemma SignOf(text: string) returns (sign: Sign)
    ensures text == sign.Text() + SplitSign(text).1 && sign.Minus? == SplitSign(text).0
  {
    sign := if text == "" then NoSign else match text[0] case '-' => Minus case '+' => Plus case _ => NoSign;
    assert text != "" ==> text == [text[0]] + text[1..];
  }

  // ----- Integers -----

  predicate IntegerForm(text: string, sign: Sign, digits: string, value: int) {
    Numeral(digits) && text == sign.Text() + digits && value == sign.Of(DigitsValue(digits))
  }

  /** The text is an optional sign and digits, and this is the number they spell. */
  ghost predicate SpellsInteger(text: string, value: int) {
    exists sign, digits :: IntegerForm(text, sign, digits, value)
  }

  /** Integer text is read exactly when it spells a 64-bit integer, as the integer it spells. */
  lemma ParseI64Reads(text: string, value: int)
    ensures ParseI64(text) == Some(value) <==> SpellsInteger(text, value) && I64_MIN <= value <= I64_MAX
  {
    var digits := SplitSign(text).1;
    if Numeral(digits) {
      var sign := SignOf(text);
      assert IntegerForm(text, sign, digits, sign.Of(DigitsValue(digits)));
    }
    if SpellsInteger(text, value) {
      var sign, spelled :| IntegerForm(text, sign, spelled, value);
      SignSplits(sign, spelled);
    }
  }

  /** The canonical text of an integer reads back as it. */
  lemma IntegerTextReads(value: int)
    requires I64_MIN <= value <= I64_MAX
    ensures ParseI64(IntegerText(value)) == Some(value)
  {
    var magnitude: nat := if value < 0 then -value else value;
    ItoaReads(magnitude);
    var sign := if value < 0 then Minus else NoSign;
    assert IntegerText(value) == sign.Text() + Itoa(magnitude);
    assert IntegerForm(IntegerText(value), sign, Itoa(magnitude), value);
    ParseI64Reads(IntegerText(value), value);
  }

  // ----- Decimals -----

  /** Digits, and possibly a point with digits after it. */
  function PlainDigits(whole: string, fraction: string): string {
    whole + if fraction == "" then "" else "." + fraction
  }

  /** The text is an optional sign, digits, and possibly a point with digits after it. */
  predicate DecimalForm(text: string, sign: Sign, whole: string, fraction: string) {
    Numeral(whole) && AllDigits(fraction) && text == sign.Text() + PlainDigits(whole, fraction)
  }

  lemma PointFound(whole: string, fraction: string)
    requires AllDigits(whole)
    ensures Find(whole + "." + fraction, '.') == Some(|whole|)
  {
    var text := whole + "." + fraction;
    assert text[|whole|] == '.' && forall i :: 0 <= i < |whole| ==> text[i] == whole[i] != '.';
  }

  lemma PlainDigitsSplit(whole: string, fraction: string)
    requires Numeral(whole) && AllDigits(fraction)
    ensures SplitDigits(PlainDigits(whole, fraction)) == Some((whole, fraction))
  {
    var unsigned := PlainDigits(whole, fraction);
    if fraction == "" {
      assert unsigned == whole;
    } else {
      assert unsigned == whole + "." + fraction;
      PointFound(whole, fraction);
      assert unsigned[..|whole|] == whole && unsigned[|whole| + 1..] == fraction;
    }
  }

  /** A decimal text of the plain form comes apart as it was put together. */
  lemma PlainFormSplits(text: string, sign: Sign, whole: string, fraction: string)
    requires DecimalForm(text, sign, whole, fraction)
    ensures SplitPlainDecimal(text) == Some(PlainDecimal(sign.Minus?, whole, fraction))
  {
    SignSplits(sign, PlainDigits(whole, fraction));
    PlainDigitsSplit(whole, fraction);
  }

  lemma ScaledValueReads(number: PlainDecimal, sign: Sign, precision: nat, scale: nat)
    requires number.Valid() && number.negative == sign.Minus?
    ensures AllDigits(number.whole + number.fraction)
    ensures ScaledValue(number, precision, scale) ==
      if |number.fraction| > scale then None
      else
        var magnitude := DigitsValue(number.whole + number.fraction) * Pow10(scale - |number.fraction|);
        if magnitude < Pow10(precision) then Some(sign.Of(magnitude)) else None
  {
    if |number.fraction| <= scale {
      MagnitudeIsShifted(number, scale);
      ShiftedIsProduct(DigitsValue(number.whole + number.fraction), scale - |number.fraction|);
    }
  }

  /**
   * Decimal text is exact: the digits around the point, read together and shifted to the scale, are its value;
   * it is refused only for a fraction longer than the scale or a magnitude beyond the precision.
   */
  lemma DecimalTextReads(text: string, sign: Sign, whole: string, fraction: string, precision: nat, scale: nat)
    requires DecimalForm(text, sign, whole, fraction)
    ensures AllDigits(whole + fraction)
    ensures ParseDecimal(text, precision, scale) ==
      if |fraction| > scale then None
      else
        var magnitude := DigitsValue(whole + fraction) * Pow10(scale - |fraction|);
        if magnitude < Pow10(precision) then Some(sign.Of(magnitude)) else None
  {
    PlainFormSplits(text, sign, whole, fraction);
    ScaledValueReads(PlainDecimal(sign.Minus?, whole, fraction), sign, precision, scale);
  }

  lemma SplitDigitsJoin(unsigned: string)
    requires SplitDigits(unsigned).Some?
    ensures unsigned == PlainDigits(SplitDigits(unsigned).value.0, SplitDigits(unsigned).value.1)
  {
    var point := Find(unsigned, '.');
    if point.Some? {
      assert unsigned == unsigned[..point.value] + ("." + unsigned[point.value + 1..]);
    }
  }

  /** Text that comes apart has the plain form. */
  lemma SplitHasPlainForm(text: string) returns (sign: Sign)
    requires SplitPlainDecimal(text).Some?
    ensures DecimalForm(text, sign, SplitPlainDecimal(text).value.whole, SplitPlainDecimal(text).value.fraction)
  {
    sign := SignOf(text);
    SplitDigitsJoin(SplitSign(text).1);
  }

  /** Text that is neither an optional sign with digits, nor those with a point and digits, is no decimal. */
  lemma OtherDecimalTextIsRefused(text: string, precision: nat, scale: nat)
    requires forall sign, whole, fraction :: !DecimalForm(text, sign, whole, fraction)
    ensures ParseDecimal(text, precision, scale).None?
  {
    if SplitPlainDecimal(text).Some? {
      var _ := SplitHasPlainForm(text);
    }
  }

  predicate DecimalMeans(text: string, sign: Sign, whole: string, fraction: string, scale: nat, value: int) {
    && DecimalForm(text, sign, whole, fraction) && |fraction| <= scale && AllDigits(whole + fraction)
    && value == sign.Of(DigitsValue(whole + fraction) * Pow10(scale - |fraction|))
  }

  /** The text spells this value, in units of 10^-scale. */
  ghost predicate SpellsDecimal(text: string, scale: nat, value: int) {
    exists sign, whole, fraction :: DecimalMeans(text, sign, whole, fraction, scale, value)
  }

  /** Decimal text is accepted exactly when it spells a value of the scale within the precision. */
  lemma ParseDecimalReads(text: string, precision: nat, scale: nat, value: int)
    ensures ParseDecimal(text, precision, scale) == Some(value) <==>
      SpellsDecimal(text, scale, value) && value < Pow10(precision) && -value < Pow10(precision)
  {
    if SpellsDecimal(text, scale, value) {
      var sign, whole, fraction :| DecimalMeans(text, sign, whole, fraction, scale, value);
      DecimalTextReads(text, sign, whole, fraction, precision, scale);
    } else if ParseDecimal(text, precision, scale) == Some(value) {
      var sign := SplitHasPlainForm(text);
      var number := SplitPlainDecimal(text).value;
      DecimalTextReads(text, sign, number.whole, number.fraction, precision, scale);
      assert DecimalMeans(text, sign, number.whole, number.fraction, scale, value);
    }
  }

  // ----- Floats -----

  predicate ExponentForm(tail: string, letter: char, sign: Sign, digits: string, exponent: int) {
    && letter in {'e', 'E'} && Numeral(digits)
    && tail == [letter] + (sign.Text() + digits) && exponent == sign.Of(DigitsValue(digits))
  }

  /** The exponent part: none, or a letter, an optional sign and digits. */
  ghost predicate SpellsExponent(tail: string, exponent: int) {
    || (tail == "" && exponent == 0)
    || exists letter, sign, digits :: ExponentForm(tail, letter, sign, digits, exponent)
  }

  lemma ParseExponentReads(tail: string, exponent: int)
    ensures ParseExponent(tail) == Some(exponent) <==> SpellsExponent(tail, exponent)
  {
    if tail != "" {
      var rest := tail[1..];
      assert tail == [tail[0]] + rest;
      var digits := SplitSign(rest).1;
      if Numeral(digits) && tail[0] in {'e', 'E'} {
        var sign := SignOf(rest);
        assert ExponentForm(tail, tail[0], sign, digits, sign.Of(DigitsValue(digits)));
      }
      if letter, sign, spelled :| ExponentForm(tail, letter, sign, spelled, exponent) {
        assert rest == sign.Text() + spelled;
        SignSplits(sign, spelled);
      }
    }
  }

  /** Digits on at least one side of an optional point. */
  predicate Mantissa(whole: string, point: bool, fraction: string) {
    AllDigits(whole) && AllDigits(fraction) && (point || fraction == "") && whole + fraction != ""
  }

  function AfterWhole(point: bool, fraction: string, tail: string): string {
    (if point then "." + fraction else "") + tail
  }

  function FloatBody(whole: string, point: bool, fraction: string, tail: string): string {
    whole + AfterWhole(point, fraction, tail)
  }

  /** Below the overflow threshold, whichever common scale the two numbers are brought to. */
  ghost predicate IsBelowOverflow(mantissa: nat, exponent: int) {
    forall k: nat :: exponent + k >= 0 ==> mantissa * Pow10(exponent + k) < OVERFLOW_THRESHOLD * Pow10(k)
  }

  predicate FloatForm(text: string, sign: Sign, whole: string, point: bool, fraction: string, tail: string) {
    Mantissa(whole, point, fraction) && text == sign.Text() + FloatBody(whole, point, fraction, tail)
  }

  ghost predicate FloatMeans(text: string, sign: Sign, whole: string, point: bool, fraction: string, tail: string,
    exponent: int)
  {
    && FloatForm(text, sign, whole, point, fraction, tail) && SpellsExponent(tail, exponent)
    && AllDigits(whole + fraction) && IsBelowOverflow(DigitsValue(whole + fraction), exponent - |fraction|)
  }

  /** The text is a number in plain or exponent notation that does not round to infinity. */
  ghost predicate SpellsFiniteFloat(text: string) {
    exists sign, whole, point, fraction, tail, exponent :: FloatMeans(text, sign, whole, point, fraction, tail, exponent)
  }

  lemma FractionTaken(point: bool, fraction: string, tail: string)
    requires AllDigits(fraction) && (point || fraction == "") && (tail == "" || tail[0] in {'e', 'E'})
    ensures TakeFraction(AfterWhole(point, fraction, tail)) == (fraction, tail)
  {
    var rest := AfterWhole(point, fraction, tail);
    if point {
      assert rest[1..] == fraction + tail;
      DigitsThen(fraction, tail);
    } else {
      assert rest == tail;
    }
  }

  /** A number taken apart by the float grammar is the one that was put together. */
  lemma FloatBodyReads(whole: string, point: bool, fraction: string, tail: string)
    requires AllDigits(whole) && AllDigits(fraction) && (point || fraction == "") && (tail == "" || tail[0] in {'e', 'E'})
    ensures ParseUnsigned(FloatBody(whole, point, fraction, tail)) == FromParts(whole, fraction, tail)
  {
    FractionTaken(point, fraction, tail);
    DigitsThen(whole, AfterWhole(point, fraction, tail));
  }

  lemma PartsRead(whole: string, fraction: string, tail: string, exponent: int)
    requires AllDigits(whole) && AllDigits(fraction)
    ensures AllDigits(whole + fraction)
    ensures whole + fraction != "" && SpellsExponent(tail, exponent) ==>
      FromParts(whole, fraction, tail) == Some(Literal(DigitsValue(whole + fraction), exponent - |fraction|))
    ensures FromParts(whole, fraction, tail).Some? ==> whole + fraction != "" && ParseExponent(tail).Some?
  {
    ParseExponentReads(tail, exponent);
    assert |whole + fraction| == |whole| + |fraction|;
  }

  lemma TakenFractionJoins(rest: string) returns (point: bool)
    ensures var (fraction, tail) := TakeFraction(rest);
      (point || fraction == "") && rest == AfterWhole(point, fraction, tail)
  {
    point := rest != "" && rest[0] == '.';
    var (fraction, tail) := TakeFraction(rest);
    if point {
      assert rest == ("." + fraction) + tail;
    } else {
      assert rest == "" + tail;
    }
  }

  /** Whatever the float grammar takes apart was put together that way. */
  lemma FloatBodyFound(body: string) returns (whole: string, point: bool, fraction: string, tail: string)
    ensures AllDigits(whole) && AllDigits(fraction) && (point || fraction == "")
    ensures body == FloatBody(whole, point, fraction, tail)
    ensures ParseUnsigned(body) == FromParts(whole, fraction, tail)
  {
    var n := LeadingDigits(body);
    whole := body[..n];
    point := TakenFractionJoins(body[n..]);
    fraction, tail := TakeFraction(body[n..]).0, TakeFraction(body[n..]).1;
    assert body == whole + body[n..];
  }

  lemma RaisedBoth(a: int, b: int, factor: int, c: int, d: int)
    requires factor > 0
    ensures a * (c * factor) < b * (d * factor) <==> a * c < b * d
  {
    assert a * (c * factor) == (a * c) * factor && b * (d * factor) == (b * d) * factor;
    ScaledOrder(a * c, b * d, factor);
  }

  lemma BelowAtScale(mantissa: nat, exponent: int, k: nat)
    requires exponent + k >= 0
    ensures mantissa * Pow10(exponent + k) < OVERFLOW_THRESHOLD * Pow10(k) <==> RoundsFinite(Literal(mantissa, exponent))
  {
    if exponent >= 0 {
      ShiftedIsProduct(mantissa, exponent);
      Pow10Add(exponent, k);
      RaisedBoth(mantissa, OVERFLOW_THRESHOLD, Pow10(k), Pow10(exponent), 1);
    } else {
      ShiftedIsProduct(OVERFLOW_THRESHOLD, -exponent);
      Pow10Add(-exponent, exponent + k);
      RaisedBoth(mantissa, OVERFLOW_THRESHOLD, Pow10(exponent + k), 1, Pow10(-exponent));
    }
  }

  lemma ScaledOrder(a: int, b: int, factor: int)
    requires factor > 0
    ensures a * factor < b * factor <==> a < b
  {
  }

  lemma RoundsFiniteMeans(number: Literal)
    ensures RoundsFinite(number) <==> IsBelowOverflow(number.mantissa, number.exponent)
  {
    forall k: nat | number.exponent + k >= 0
      ensures number.mantissa * Pow10(number.exponent + k) < OVERFLOW_THRESHOLD * Pow10(k) <==> RoundsFinite(number)
    {
      BelowAtScale(number.mantissa, number.exponent, k);
    }
    var k: nat := if number.exponent >= 0 then 0 else -number.exponent;
    BelowAtScale(number.mantissa, number.exponent, k);
  }

  /** Float text is accepted exactly when it is a number that does not round to infinity. */
  lemma IsFiniteFloatReads(text: string)
    ensures IsFiniteFloat(text) <==> SpellsFiniteFloat(text)
  {
    if IsFiniteFloat(text) {
      var sign := SignOf(text);
      var whole, point, fraction, tail := FloatBodyFound(SplitSign(text).1);
      PartsRead(whole, fraction, tail, 0);
      var exponent := ParseExponent(tail).value;
      ParseExponentReads(tail, exponent);
      PartsRead(whole, fraction, tail, exponent);
      RoundsFiniteMeans(Literal(DigitsValue(whole + fraction), exponent - |fraction|));
      assert FloatMeans(text, sign, whole, point, fraction, tail, exponent);
    }
    if SpellsFiniteFloat(text) {
      var sign, whole, point, fraction, tail, exponent :| FloatMeans(text, sign, whole, point, fraction, tail, exponent);
      FloatTextReads(text, sign, whole, point, fraction, tail, exponent);
      RoundsFiniteMeans(Literal(DigitsValue(whole + fraction), exponent - |fraction|));
    }
  }

  /** The grammar reads a number's digits together, and its exponent less the digits of its fraction. */
  lemma FloatTextReads(text: string, sign: Sign, whole: string, point: bool, fraction: string, tail: string, exponent: int)
    requires FloatForm(text, sign, whole, point, fraction, tail) && SpellsExponent(tail, exponent)
    ensures AllDigits(whole + fraction)
    ensures ParseUnsigned(SplitSign(text).1) == Some(Literal(DigitsValue(whole + fraction), exponent - |fraction|))
  {
    FloatBodyReads(whole, point, fraction, tail);
    PartsRead(whole, fraction, tail, exponent);
    SignSplits(sign, FloatBody(whole, point, fraction, tail));
  }

  // ----- Booleans -----

  function LowerChar(c: char): char {
    if 'A' <= c <= 'Z' then (c as int + 32) as char else c
  }

  /** The text in lower case, over ASCII letters. */
  function Lower(text: string): (r: string)
    ensures |r| == |text| && forall i :: 0 <= i < |r| ==> r[i] == LowerChar(text[i])
  {
    seq(|text|, i requires 0 <= i < |text| => LowerChar(text[i]))
  }

  /** The text is the name of the flag, all in lower case, capitalized, or all in upper case. */
  predicate SpellsFlag(text: string, flag: bool) {
    && Lower(text) == (if flag then "true" else "false")
    && (Lower(text[1..]) == text[1..] || forall i :: 0 <= i < |text| ==> 'A' <= text[i] <= 'Z')
  }

  /** Text that is a lower-case name up to case, by how its letters after the first are written. */
  lemma NameUpToCase(text: string, name: string)
    requires Lower(text) == name != "" && forall i :: 0 <= i < |name| ==> 'a' <= name[i] <= 'z'
    ensures text[0] == name[0] || text[0] == (name[0] as int - 32) as char
    ensures Lower(text[1..]) == text[1..] <==> text[1..] == name[1..]
    ensures forall i :: 0 <= i < |text| && 'A' <= text[i] <= 'Z' ==> text[i] == (name[i] as int - 32) as char
  {
    forall i | 0 <= i < |text| ensures name[i] == LowerChar(text[i]) {
      assert Lower(text)[i] == LowerChar(text[i]);
    }
    assert Lower(text[1..]) == name[1..];
  }

  lemma ParsedFlagIsSpelled(text: string)
    requires ParseBool(text).Some?
    ensures SpellsFlag(text, ParseBool(text).value)
  {
    var name := if ParseBool(text).value then "true" else "false";
    assert Lower(text) == name;
    assert text[0] == name[0] || text[1] == name[1] ==> Lower(text[1..]) == name[1..] == text[1..];
  }

  lemma FromLetters(text: string, name: string)
    requires |text| == |name| && forall i :: 0 <= i < |text| ==> text[i] == name[i]
    ensures text == name
  {
  }

  lemma SpelledFlagParses(text: string, flag: bool)
    requires SpellsFlag(text, flag)
    ensures ParseBool(text) == Some(flag)
  {
    var name := if flag then "true" else "false";
    NameUpToCase(text, name);
    if Lower(text[1..]) != text[1..] {
      FromLetters(text, if flag then "TRUE" else "FALSE");
    } else {
      assert forall i :: 1 <= i < |name| ==> text[i] == text[1..][i - 1] == name[1..][i - 1] == name[i];
      if text[0] == name[0] {
        FromLetters(text, name);
      } else {
        FromLetters(text, if flag then "True" else "False");
      }
    }
  }

  /** Boolean text is read exactly when it is a flag's name in one of three cases, as that flag. */
  lemma ParseBoolReads(text: string, flag: bool)
    ensures ParseBool(text) == Some(flag) <==> SpellsFlag(text, flag)
  {
    if ParseBool(text).Some? {
      ParsedFlagIsSpelled(text);
    }
    if SpellsFlag(text, flag) {
      SpelledFlagParses(text, flag);
    }
  }

  // ----- Zero padding -----

  predicate PaddedForm(text: string, sign: Sign, rest: string) {
    rest != "" && IsDigit(rest[0]) && text == sign.Text() + ("0" + rest)
  }

  /** The text starts, after an optional sign, with a zero before another digit. */
  ghost predicate SpellsPadded(text: string) {
    exists sign, rest :: PaddedForm(text, sign, rest)
  }

  lemma IsZeroPaddedReads(text: string)
    ensures IsZeroPadded(text) <==> SpellsPadded(text)
  {
    if IsZeroPadded(text) {
      var sign := SignOf(text);
      var unsigned := SplitSign(text).1;
      assert unsigned == "0" + unsigned[1..];
      assert PaddedForm(text, sign, unsigned[1..]);
    }
    if sign, rest :| PaddedForm(text, sign, rest) {
      SignSplits(sign, "0" + rest);
    }
  }
}
