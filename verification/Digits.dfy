/** Base-10 digit text: its exact value, its canonical spelling, and signed 64-bit parsing. */
module Digits {
  import opened Wrappers

  const I64_MIN: int := -0x8000_0000_0000_0000
  const I64_MAX: int := 0x7FFF_FFFF_FFFF_FFFF
  const U64_MAX: int := 0xFFFF_FFFF_FFFF_FFFF

  predicate IsDigit(c: char) {
    '0' <= c <= '9'
  }

  predicate AllDigits(s: string) {
    forall i :: 0 <= i < |s| ==> IsDigit(s[i])
  }

  function DigitOf(c: char): (d: nat)
    requires IsDigit(c)
    ensures d < 10
  {
    c as int - '0' as int
  }

  function DigitChar(d: nat): (c: char)
    requires d < 10
    ensures IsDigit(c) && DigitOf(c) == d
  {
    (d + '0' as int) as char
  }

  /** The number a digit string spells; the empty string spells zero. */
  function DigitsValue(s: string): nat
    requires AllDigits(s)
  {
    if s == "" then 0
    else 10 * DigitsValue(s[..|s| - 1]) + DigitOf(s[|s| - 1])
  }

  function Pow10(n: nat): (p: nat)
    ensures p >= 1
  {
    if n == 0 then 1 else 10 * Pow10(n - 1)
  }

  lemma {:induction false} Pow10Add(a: nat, b: nat)
    ensures Pow10(a + b) == Pow10(a) * Pow10(b)
  {
    if b > 0 {
      Pow10Add(a, b - 1);
      assert a + b - 1 == a + (b - 1);
    }
  }

  lemma {:induction false} Pow10Monotone(a: nat, b: nat)
    requires a <= b
    ensures Pow10(a) <= Pow10(b)
  {
    if a < b {
      Pow10Monotone(a, b - 1);
    }
  }

  /** `m` with `k` zeros appended, one multiplication at a time. */
  function Shifted(m: nat, k: nat): nat {
    if k == 0 then m else 10 * Shifted(m, k - 1)
  }

  lemma {:induction false} ShiftedIsProduct(m: nat, k: nat)
    ensures Shifted(m, k) == m * Pow10(k)
  {
    if k > 0 {
      ShiftedIsProduct(m, k - 1);
      assert m * (10 * Pow10(k - 1)) == 10 * (m * Pow10(k - 1));
    }
  }

  lemma {:induction false} ShiftedGrows(m: nat, j: nat, k: nat)
    requires j <= k
    ensures Shifted(m, j) <= Shifted(m, k)
  {
    if j < k {
      ShiftedGrows(m, j, k - 1);
    }
  }

  lemma AppendDigit(high: nat, power: nat, low: nat, digit: nat)
    ensures 10 * (high * power + low) + digit == high * (10 * power) + (10 * low + digit)
  {
  }

  lemma {:induction false} DigitsValueConcat(a: string, b: string)
    requires AllDigits(a) && AllDigits(b)
    ensures AllDigits(a + b)
    ensures DigitsValue(a + b) == DigitsValue(a) * Pow10(|b|) + DigitsValue(b)
  {
    if b == "" {
      assert a + b == a;
    } else {
      var init := b[..|b| - 1];
      assert (a + b)[..|a + b| - 1] == a + init;
      DigitsValueConcat(a, init);
      AppendDigit(DigitsValue(a), Pow10(|init|), DigitsValue(init), DigitOf(b[|b| - 1]));
    }
  }

  /** The canonical spelling of a natural number: no leading zero unless the number is zero. */
  function Itoa(n: nat): (s: string)
    ensures |s| > 0 && AllDigits(s)
  {
    if n < 10 then [DigitChar(n)] else Itoa(n / 10) + [DigitChar(n % 10)]
  }

  predicate Canonical(s: string) {
    |s| > 0 && AllDigits(s) && (|s| > 1 ==> s[0] != '0')
  }

  lemma {:induction false} ItoaReads(n: nat)
    ensures DigitsValue(Itoa(n)) == n && Canonical(Itoa(n))
    ensures n > 0 ==> Itoa(n)[0] != '0'
  {
    if n < 10 {
      assert DigitsValue([DigitChar(n)]) == n by {
        assert [DigitChar(n)][..0] == "";
      }
    } else {
      ItoaReads(n / 10);
      var s := Itoa(n);
      assert s[..|s| - 1] == Itoa(n / 10);
    }
  }

  /** A canonical spelling is the only canonical spelling of its value. */
  lemma {:induction false} ItoaPrints(s: string)
    requires Canonical(s)
    ensures Itoa(DigitsValue(s)) == s
    ensures |s| > 1 ==> DigitsValue(s) >= 10
  {
    var init := s[..|s| - 1];
    var d := DigitOf(s[|s| - 1]);
    assert [DigitChar(d)] == [s[|s| - 1]];
    if |s| == 1 {
      assert DigitsValue(init) == 0;
      assert DigitsValue(s) == d;
    } else {
      ItoaPrints(init);
      var v := DigitsValue(init);
      assert v >= 1 by {
        if |init| == 1 {
          assert init[..0] == "";
          assert v == DigitOf(init[0]);
        }
      }
      assert (10 * v + d) / 10 == v && (10 * v + d) % 10 == d;
      assert init + [s[|s| - 1]] == s;
    }
  }

  /** The optional sign in front of a number: whether it is minus, and the text after it. */
  function SplitSign(s: string): (bool, string) {
    if s != "" && s[0] == '-' then (true, s[1..])
    else if s != "" && s[0] == '+' then (false, s[1..])
    else (false, s)
  }

  function Signed(negative: bool, magnitude: int): int {
    if negative then -magnitude else magnitude
  }

  /** The i64 the text spells: an optional sign, at least one digit, and a value in range. */
  function ParseI64(s: string): Option<int> {
    var (negative, digits) := SplitSign(s);
    if digits == "" || !AllDigits(digits) then None
    else
      var v := Signed(negative, DigitsValue(digits));
      if I64_MIN <= v <= I64_MAX then Some(v) else None
  }

  /** How many leading characters of `s` are digits. */
  function LeadingDigits(s: string): (n: nat)
    ensures n <= |s| && AllDigits(s[..n])
    ensures n < |s| ==> !IsDigit(s[n])
  {
    if s == "" || !IsDigit(s[0]) then 0
    else
      var n := 1 + LeadingDigits(s[1..]);
      assert forall i :: 1 <= i < n ==> s[..n][i] == s[1..][..n - 1][i - 1];
      n
  }

  lemma LeadingDigitsOfAll(s: string)
    requires AllDigits(s)
    ensures LeadingDigits(s) == |s|
  {
  }

  lemma {:induction false} LeadingDigitsStop(digits: string, rest: string)
    requires AllDigits(digits) && (rest == "" || !IsDigit(rest[0]))
    ensures LeadingDigits(digits + rest) == |digits|
  {
    if digits != "" {
      LeadingDigitsStop(digits[1..], rest);
      assert (digits + rest)[1..] == digits[1..] + rest;
    } else {
      assert digits + rest == rest;
    }
  }

  /** Digits are taken off the front of text up to where they stop. */
  lemma DigitsThen(digits: string, rest: string)
    requires AllDigits(digits) && (rest == "" || !IsDigit(rest[0]))
    ensures LeadingDigits(digits + rest) == |digits|
    ensures (digits + rest)[..|digits|] == digits && (digits + rest)[|digits|..] == rest
  {
    LeadingDigitsStop(digits, rest);
  }

  /** The first position of `c` in `s`, if any. */
  function Find(s: string, c: char): (r: Option<nat>)
    ensures r.Some? ==> r.value < |s| && s[r.value] == c && forall i :: 0 <= i < r.value ==> s[i] != c
    ensures r.None? ==> forall i :: 0 <= i < |s| ==> s[i] != c
  {
    if s == "" then None
    else if s[0] == c then Some(0)
    else match Find(s[1..], c)
      case None => None
      case Some(i) => Some(i + 1)
  }
}
