/** The strict clock menu of declared timestamps, read into epoch microseconds. */
module Timestamps {
  import opened Wrappers
  import opened Digits

  const MICROS_PER_SECOND: int := 1_000_000
  const MICROS_PER_DAY: int := 86_400_000_000
  /** Days from 0000-01-01 to 1970-01-01 in the proleptic Gregorian calendar. */
  const UNIX_EPOCH_DAY: int := 719_528

  predicate IsLeap(year: nat) {
    year % 4 == 0 && (year % 100 != 0 || year % 400 == 0)
  }

  function YearLength(year: nat): nat {
    if IsLeap(year) then 366 else 365
  }

  function DaysInMonth(year: nat, month: nat): nat
    requires 1 <= month <= 12
  {
    if month == 2 then if IsLeap(year) then 29 else 28
    else if month in {4, 6, 9, 11} then 30
    else 31
  }

  /** Days from 0000-01-01 to the first day of the year. */
  function DaysBeforeYear(year: nat): nat {
    if year == 0 then 0 else DaysBeforeYear(year - 1) + YearLength(year - 1)
  }

  function DaysBeforeMonth(year: nat, month: nat): nat
    requires 1 <= month <= 12
  {
    if month == 1 then 0 else DaysBeforeMonth(year, month - 1) + DaysInMonth(year, month - 1)
  }

  predicate ValidDate(year: nat, month: nat, day: nat) {
    1 <= month <= 12 && 1 <= day <= DaysInMonth(year, month)
  }

  predicate ValidTime(hour: nat, minute: nat, second: nat) {
    hour <= 23 && minute <= 59 && second <= 59
  }

  /** Days from 0000-01-01 to the date. */
  function DayNumber(year: nat, month: nat, day: nat): int
    requires ValidDate(year, month, day)
  {
    DaysBeforeYear(year) + DaysBeforeMonth(year, month) + day - 1
  }

  /** A fixed-width zero-padded field: every character an ASCII digit. */
  function FixedDigits(text: string): Option<nat> {
    if AllDigits(text) then Some(DigitsValue(text)) else None
  }

  method ParseFixedDigits(text: string) returns (r: Option<nat>)
    ensures r == FixedDigits(text)
  {
    var value: nat := 0;
    for i := 0 to |text|
      invariant AllDigits(text[..i]) && value == DigitsValue(text[..i])
    {
      if !IsDigit(text[i]) {
        return None;
      }
      assert text[..i + 1][..i] == text[..i];
      value := value * 10 + DigitOf(text[i]);
    }
    assert text[..|text|] == text;
    return Some(value);
  }

  /** A clock reading: the calendar fields and the text left after it. */
  datatype Clock = Clock(
    year: nat, month: nat, day: nat, hour: nat, minute: nat, second: nat, micro: nat, rest: string)
  {
    predicate Valid() {
      year <= 9999 && ValidDate(year, month, day) && ValidTime(hour, minute, second) && micro < 1_000_000
    }

    function SecondOfDay(): nat {
      hour * 3600 + minute * 60 + second
    }

    function EpochDay(): int
      requires Valid()
    {
      DayNumber(year, month, day) - UNIX_EPOCH_DAY
    }

    function EpochMicros(): int
      requires Valid()
    {
      EpochDay() * MICROS_PER_DAY + SecondOfDay() * MICROS_PER_SECOND + micro
    }
  }

  /** The optional fraction of 1 to 6 digits at position 19: its microseconds and where it ends. */
  function ParseFraction(text: string): Option<(nat, nat)>
    requires |text| >= 19
  {
    if |text| > 19 && text[19] == '.' then
      var count := LeadingDigits(text[20..]);
      if count == 0 || count > 6 then None
      else Some((Shifted(DigitsValue(text[20..][..count]), 6 - count), 20 + count))
    else Some((0, 19))
  }

  /** Text of the form `YYYY-MM-DD HH:MM:SS[.ffffff]`, possibly followed by more. */
  function ParseDatetimePrefix(text: string): Option<Clock> {
    if |text| < 19 then None
    else if text[4] != '-' || text[7] != '-' || text[10] !in {' ', 'T', 't'} || text[13] != ':' || text[16] != ':'
    then None
    else match (FixedDigits(text[0..4]), FixedDigits(text[5..7]), FixedDigits(text[8..10]),
                FixedDigits(text[11..13]), FixedDigits(text[14..16]), FixedDigits(text[17..19]))
    case (Some(year), Some(month), Some(day), Some(hour), Some(minute), Some(second)) =>
      (match ParseFraction(text)
       case None => None
       case Some((micro, end)) =>
         if ValidDate(year, month, day) && ValidTime(hour, minute, second) && end <= |text| then
           Some(Clock(year, month, day, hour, minute, second, micro, text[end..]))
         else None)
    case _ => None
  }

  lemma {:induction false} DigitsValueBelow(s: string)
    requires AllDigits(s)
    ensures DigitsValue(s) < Pow10(|s|)
  {
    if s != "" {
      DigitsValueBelow(s[..|s| - 1]);
    }
  }

  /** Every reading names a real calendar moment of years 0000 to 9999 with less than a second of fraction. */
  lemma ParsedClockIsValid(text: string)
    requires ParseDatetimePrefix(text).Some?
    ensures ParseDatetimePrefix(text).value.Valid()
  {
    DigitsValueBelow(text[0..4]);
    assert Pow10(4) == 10_000;
    if |text| > 19 && text[19] == '.' {
      var count := LeadingDigits(text[20..]);
      FractionBelowOneSecond(text[20..][..count]);
    }
  }

  lemma FractionBelowOneSecond(digits: string)
    requires AllDigits(digits) && |digits| <= 6
    ensures Shifted(DigitsValue(digits), 6 - |digits|) < 1_000_000
  {
    DigitsValueBelow(digits);
    var value, above, factor := DigitsValue(digits), Pow10(|digits|), Pow10(6 - |digits|);
    Pow10Add(|digits|, 6 - |digits|);
    assert Pow10(6) == 1_000_000;
    assert value * factor < above * factor;
    ShiftedIsProduct(value, 6 - |digits|);
  }

  /** Wall-clock text: nothing may follow the reading. */
  function ParseTimestampMicros(text: string): Option<int> {
    match ParseDatetimePrefix(text)
    case None => None
    case Some(clock) =>
      ParsedClockIsValid(text);
      if clock.rest == "" then Some(clock.EpochMicros()) else None
  }

  /** The mandatory offset of instant text: `Z`, `z` or a signed `hh:mm`, in seconds east of UTC. */
  function ParseOffsetSeconds(text: string): Option<int> {
    if text == "Z" || text == "z" then Some(0)
    else if |text| != 6 || text[3] != ':' || text[0] !in {'+', '-'} then None
    else match (FixedDigits(text[1..3]), FixedDigits(text[4..6]))
      case (Some(hours), Some(minutes)) =>
        if hours > 23 || minutes > 59 then None
        else Some(Signed(text[0] == '-', hours * 3600 + minutes * 60))
      case _ => None
  }

  /** Instant text, normalized to the microseconds of the UTC instant, with the checked subtraction. */
  function ParseTimestamptzMicros(text: string): Option<int> {
    match ParseDatetimePrefix(text)
    case None => None
    case Some(clock) =>
      ParsedClockIsValid(text);
      match ParseOffsetSeconds(clock.rest)
      case None => None
      case Some(offset) =>
        var micros := clock.EpochMicros() - offset * MICROS_PER_SECOND;
        if I64_MIN <= micros <= I64_MAX then Some(micros) else None
  }

  lemma {:induction false} DaysBeforeYearMonotone(a: nat, b: nat)
    requires a <= b
    ensures DaysBeforeYear(a) + 365 * (b - a) <= DaysBeforeYear(b) <= DaysBeforeYear(a) + 366 * (b - a)
  {
    if a < b {
      DaysBeforeYearMonotone(a, b - 1);
    }
  }

  lemma DayOfYearBelowLength(year: nat, month: nat, day: nat)
    requires ValidDate(year, month, day)
    ensures 0 <= DaysBeforeMonth(year, month) + day - 1 < YearLength(year)
  {
    assert DaysBeforeMonth(year, 2) == 31;
    assert DaysBeforeMonth(year, 3) == 31 + DaysInMonth(year, 2);
    assert DaysBeforeMonth(year, 5) == DaysBeforeMonth(year, 3) + 61;
    assert DaysBeforeMonth(year, 7) == DaysBeforeMonth(year, 5) + 61;
    assert DaysBeforeMonth(year, 9) == DaysBeforeMonth(year, 7) + 62;
    assert DaysBeforeMonth(year, 11) == DaysBeforeMonth(year, 9) + 61;
    assert DaysBeforeMonth(year, 12) == DaysBeforeMonth(year, 11) + 30;
  }

  lemma EpochDayRange(clock: Clock)
    requires clock.Valid()
    ensures -719_528 <= clock.EpochDay() < 3_660_000
  {
    DaysBeforeYearMonotone(0, clock.year);
    DayOfYearBelowLength(clock.year, clock.month, clock.day);
  }

  lemma EpochMicrosRange(clock: Clock)
    requires clock.Valid()
    ensures clock.EpochDay() * MICROS_PER_DAY <= clock.EpochMicros() < (clock.EpochDay() + 1) * MICROS_PER_DAY
  {
    assert 0 <= clock.SecondOfDay() <= 86_399;
  }

  lemma OffsetBelowOneDay(text: string)
    requires ParseOffsetSeconds(text).Some?
    ensures -86_400 < ParseOffsetSeconds(text).value < 86_400
  {
  }

  /** The checked subtraction never refuses: every instant of years 0000 to 9999 fits an i64. */
  lemma InstantNeverOverflows(text: string)
    requires ParseDatetimePrefix(text).Some?
    requires ParseOffsetSeconds(ParseDatetimePrefix(text).value.rest).Some?
    ensures ParseTimestamptzMicros(text).Some?
  {
    ParsedClockIsValid(text);
    EpochMicrosRange(ParseDatetimePrefix(text).value);
    EpochDayRange(ParseDatetimePrefix(text).value);
    OffsetBelowOneDay(ParseDatetimePrefix(text).value.rest);
  }

  /** The reading is the instant's wall clock, as far east of it as the offset says. */
  lemma InstantFrom(text: string, clock: Clock, seconds: int)
    requires ParseDatetimePrefix(text) == Some(clock) && ParseOffsetSeconds(clock.rest) == Some(seconds)
    ensures ParseTimestamptzMicros(text).Some? && clock.Valid()
    ensures clock.EpochMicros() == ParseTimestamptzMicros(text).value + seconds * 1_000_000
  {
    ParsedClockIsValid(text);
    InstantNeverOverflows(text);
  }

  lemma InstantAt(text: string, clock: Clock, seconds: int, micros: int)
    requires ParseDatetimePrefix(text) == Some(clock) && ParseOffsetSeconds(clock.rest) == Some(seconds)
    requires clock.Valid() && clock.EpochMicros() == micros + seconds * 1_000_000
    ensures ParseTimestamptzMicros(text) == Some(micros)
  {
    InstantFrom(text, clock, seconds);
  }
}
