/** What timestamp text means: a calendar moment printed field by field, and an offset from UTC. */
module ClockText {
  import opened Wrappers
  import opened Digits
  import opened Timestamps
  import opened Datetimes

  // ----- Fixed-width fields -----

  /** The last `width` digits of a number, padded with zeros. */
  function Padded(n: nat, width: nat): (s: string)
    ensures |s| == width && AllDigits(s)
  {
    if width == 0 then "" else Padded(n / 10, width - 1) + [DigitChar(n % 10)]
  }

  lemma TensAndUnits(n: nat, bound: nat)
    requires n < 10 * bound
    ensures n / 10 < bound && 10 * (n / 10) + n % 10 == n
  {
  }

  lemma LastDigit(high: string, d: nat)
    requires AllDigits(high) && d < 10
    ensures DigitsValue(high + [DigitChar(d)]) == 10 * DigitsValue(high) + d
  {
    assert (high + [DigitChar(d)])[..|high|] == high;
  }

  lemma {:induction false} PaddedReads(n: nat, width: nat)
    requires n < Pow10(width)
    ensures DigitsValue(Padded(n, width)) == n
  {
    if width > 0 {
      TensAndUnits(n, Pow10(width - 1));
      PaddedReads(n / 10, width - 1);
      LastDigit(Padded(n / 10, width - 1), n % 10);
    }
  }

  lemma DigitBelowTens(high: nat, d: nat)
    requires d < 10
    ensures (10 * high + d) / 10 == high && (10 * high + d) % 10 == d
  {
  }

  lemma {:induction false} ReadIsPadded(s: string)
    requires AllDigits(s)
    ensures Padded(DigitsValue(s), |s|) == s
  {
    if s != "" {
      var init, d := s[..|s| - 1], DigitOf(s[|s| - 1]);
      ReadIsPadded(init);
      DigitBelowTens(DigitsValue(init), d);
      assert DigitsValue(s) == 10 * DigitsValue(init) + d;
      assert Padded(DigitsValue(s), |s|) == Padded(DigitsValue(init), |init|) + [DigitChar(d)];
      assert s == init + [DigitChar(d)];
    }
  }

  /** A field of this width reads as this number exactly when it is the number, padded. */
  lemma FieldReads(s: string, n: nat)
    ensures FixedDigits(s) == Some(n) <==> n < Pow10(|s|) && s == Padded(n, |s|)
  {
    if AllDigits(s) {
      DigitsValueBelow(s);
      ReadIsPadded(s);
    }
    if n < Pow10(|s|) {
      PaddedReads(n, |s|);
    }
  }

  // ----- Clock text -----

  /** The date and time of a reading, as they are printed around a separator. */
  function DateTimeText(clock: Clock, separator: char): (s: string)
    ensures |s| == 19
  {
    Padded(clock.year, 4) + "-" + Padded(clock.month, 2) + "-" + Padded(clock.day, 2) + [separator]
      + Padded(clock.hour, 2) + ":" + Padded(clock.minute, 2) + ":" + Padded(clock.second, 2)
  }

  /** A fraction of a second: nothing, or a point and up to six digits. */
  predicate FractionForm(fraction: string, micro: nat) {
    || (fraction == "" && micro == 0)
    || (2 <= |fraction| <= 7 && fraction[0] == '.' && AllDigits(fraction[1..])
        && micro == DigitsValue(fraction[1..]) * Pow10(7 - |fraction|))
  }

  /** What follows a fraction does not continue it. */
  predicate Ends(fraction: string, rest: string) {
    rest == "" || (if fraction == "" then rest[0] != '.' else !IsDigit(rest[0]))
  }

  predicate ClockForm(text: string, separator: char, fraction: string, clock: Clock) {
    && separator in {' ', 'T', 't'} && FractionForm(fraction, clock.micro) && Ends(fraction, clock.rest)
    && text == DateTimeText(clock, separator) + (fraction + clock.rest)
  }

  /** The text prints this moment, and then goes on with the reading's rest. */
  ghost predicate SpellsClock(text: string, clock: Clock) {
    exists separator, fraction :: ClockForm(text, separator, fraction, clock)
  }

  /** The six fields and five separators of the first 19 characters. */
  predicate FieldsAre(text: string, clock: Clock, separator: char) {
    && |text| >= 19
    && text[0..4] == Padded(clock.year, 4) && text[4] == '-' && text[5..7] == Padded(clock.month, 2) && text[7] == '-'
    && text[8..10] == Padded(clock.day, 2) && text[10] == separator && text[11..13] == Padded(clock.hour, 2)
    && text[13] == ':' && text[14..16] == Padded(clock.minute, 2) && text[16] == ':'
    && text[17..19] == Padded(clock.second, 2)
  }

  lemma FieldsOf(clock: Clock, separator: char, more: string)
    ensures FieldsAre(DateTimeText(clock, separator) + more, clock, separator)
    ensures (DateTimeText(clock, separator) + more)[19..] == more
  {
  }

  lemma FieldsJoin(text: string, clock: Clock, separator: char)
    requires FieldsAre(text, clock, separator)
    ensures text == DateTimeText(clock, separator) + text[19..]
  {
    assert text == text[0..4] + [text[4]] + text[5..7] + [text[7]] + text[8..10] + [text[10]] + text[11..13] + [text[13]]
      + text[14..16] + [text[16]] + text[17..19] + text[19..];
  }

  /** A fraction put after the first 19 characters is the one read there. */
  lemma FractionReads(text: string, fraction: string, rest: string, micro: nat)
    requires |text| >= 19 && text[19..] == fraction + rest && FractionForm(fraction, micro) && Ends(fraction, rest)
    ensures ParseFraction(text) == Some((micro, 19 + |fraction|)) && text[19 + |fraction|..] == rest
  {
    assert text[19 + |fraction|..] == text[19..][|fraction|..];
    if fraction == "" {
      assert text[19..] == rest;
    } else {
      var digits := fraction[1..];
      assert text[20..] == text[19..][1..] == digits + rest;
      DigitsThen(digits, rest);
      ShiftedIsProduct(DigitsValue(digits), 6 - |digits|);
      assert LeadingDigits(text[20..]) == |digits| && text[20..][..|digits|] == digits;
    }
  }

  lemma FractionFound(text: string) returns (fraction: string)
    requires |text| >= 19 && ParseFraction(text).Some?
    ensures var (micro, end) := ParseFraction(text).value;
      && end <= |text| && FractionForm(fraction, micro) && Ends(fraction, text[end..])
      && text[19..] == fraction + text[end..]
  {
    var end := ParseFraction(text).value.1;
    fraction := text[19..end];
    if |text| > 19 && text[19] == '.' {
      assert fraction[1..] == text[20..][..end - 20];
      ShiftedIsProduct(DigitsValue(fraction[1..]), 26 - end);
      assert end < |text| ==> text[end] == text[20..][end - 20];
    }
  }

  lemma FieldsParse(text: string, clock: Clock, separator: char)
    requires clock.Valid() && FieldsAre(text, clock, separator)
    ensures FixedDigits(text[0..4]) == Some(clock.year) && FixedDigits(text[5..7]) == Some(clock.month)
    ensures FixedDigits(text[8..10]) == Some(clock.day) && FixedDigits(text[11..13]) == Some(clock.hour)
    ensures FixedDigits(text[14..16]) == Some(clock.minute) && FixedDigits(text[17..19]) == Some(clock.second)
  {
    assert Pow10(4) == 10_000 && Pow10(2) == 100;
    FieldReads(text[0..4], clock.year);
    FieldReads(text[5..7], clock.month);
    FieldReads(text[8..10], clock.day);
    FieldReads(text[11..13], clock.hour);
    FieldReads(text[14..16], clock.minute);
    FieldReads(text[17..19], clock.second);
  }

  lemma FieldsFound(text: string, clock: Clock)
    requires |text| >= 19 && text[4] == '-' && text[7] == '-' && text[13] == ':' && text[16] == ':'
    requires FixedDigits(text[0..4]) == Some(clock.year) && FixedDigits(text[5..7]) == Some(clock.month)
    requires FixedDigits(text[8..10]) == Some(clock.day) && FixedDigits(text[11..13]) == Some(clock.hour)
    requires FixedDigits(text[14..16]) == Some(clock.minute) && FixedDigits(text[17..19]) == Some(clock.second)
    ensures FieldsAre(text, clock, text[10])
  {
    FieldReads(text[0..4], clock.year);
    FieldReads(text[5..7], clock.month);
    FieldReads(text[8..10], clock.day);
    FieldReads(text[11..13], clock.hour);
    FieldReads(text[14..16], clock.minute);
    FieldReads(text[17..19], clock.second);
  }

  lemma ClockParses(text: string, separator: char, fraction: string, clock: Clock)
    requires clock.Valid() && ClockForm(text, separator, fraction, clock)
    ensures ParseDatetimePrefix(text) == Some(clock)
  {
    FieldsOf(clock, separator, fraction + clock.rest);
    FieldsParse(text, clock, separator);
    FractionReads(text, fraction, clock.rest, clock.micro);
  }

  /** Clock text is read exactly when it prints a calendar moment, as that moment and what follows it. */
  lemma ClockReads(text: string, clock: Clock)
    ensures ParseDatetimePrefix(text) == Some(clock) <==> clock.Valid() && SpellsClock(text, clock)
  {
    if ParseDatetimePrefix(text) == Some(clock) {
      ParsedClockIsValid(text);
      FieldsFound(text, clock);
      FieldsJoin(text, clock, text[10]);
      var fraction := FractionFound(text);
      assert ClockForm(text, text[10], fraction, clock);
    }
    if clock.Valid() && SpellsClock(text, clock) {
      var separator, fraction :| ClockForm(text, separator, fraction, clock);
      ClockParses(text, separator, fraction, clock);
    }
  }

  // ----- The calendar -----

  /** Days before the March that follows this many years of 365 days and their leap days. */
  function MarchYearDays(years: int): int {
    365 * years + years / 4 - years / 100 + years / 400
  }

  /** Days from the last March to the first day of the month. */
  function MarchMonthDays(month: int): int {
    (153 * ((month + 9) % 12) + 2) / 5
  }

  /** Days from 1970-01-01, counting years from March: the civil calendar in closed form. */
  function CivilDays(year: int, month: int, day: int): int {
    MarchYearDays(if month <= 2 then year - 1 else year) + MarchMonthDays(month) + day - 719_469
  }

  /** The first day of the month after this one. */
  function NextMonth(year: int, month: int): int {
    if month == 12 then CivilDays(year + 1, 1, 1) else CivilDays(year, month + 1, 1)
  }

  lemma DaysBeforeYearCivil(year: nat)
    ensures DaysBeforeYear(year) == MarchYearDays(year - 1) + 366
  {
    if year > 0 {
      DaysBeforeYearClosed(year);
    }
  }

  lemma YearStep(year: nat)
    ensures MarchYearDays(year) == MarchYearDays(year - 1) + YearLength(year)
  {
    DaysBeforeYearCivil(year);
    DaysBeforeYearCivil(year + 1);
    assert DaysBeforeYear(year + 1) == DaysBeforeYear(year) + YearLength(year);
  }

  lemma MarchMonths()
    ensures MarchMonthDays(1) == 306 && MarchMonthDays(2) == 337 && MarchMonthDays(3) == 0 && MarchMonthDays(4) == 31
    ensures MarchMonthDays(5) == 61 && MarchMonthDays(6) == 92 && MarchMonthDays(7) == 122 && MarchMonthDays(8) == 153
    ensures MarchMonthDays(9) == 184 && MarchMonthDays(10) == 214 && MarchMonthDays(11) == 245
    ensures MarchMonthDays(12) == 275
  {
  }

  /** Month lengths and the leap day follow the closed form. */
  lemma MonthLength(year: nat, month: nat)
    requires 1 <= month <= 12
    ensures NextMonth(year, month) == CivilDays(year, month, 1) + DaysInMonth(year, month)
  {
    MarchMonths();
    YearStep(year);
  }

  lemma {:induction false} DaysBeforeMonthTable(year: nat, month: nat)
    requires 1 <= month <= 12
    ensures DaysBeforeMonth(year, month) == MarchMonthDays(month) - 306 + if month <= 2 then 0 else YearLength(year)
  {
    MarchMonths();
    if month > 1 {
      DaysBeforeMonthTable(year, month - 1);
    }
  }

  lemma DaysBeforeMonthCivil(year: nat, month: nat)
    requires 1 <= month <= 12
    ensures CivilDays(year, month, 1) == CivilDays(year, 1, 1) + DaysBeforeMonth(year, month)
  {
    MarchMonths();
    DaysBeforeMonthTable(year, month);
    YearStep(year);
  }

  /** The days of the calendar are those before the next month, and are numbered by the closed form. */
  lemma CalendarIsCivil(year: nat, month: nat, day: nat)
    ensures ValidDate(year, month, day) <==>
      1 <= month <= 12 && 1 <= day && CivilDays(year, month, day) < NextMonth(year, month)
    ensures ValidDate(year, month, day) ==> DayNumber(year, month, day) - UNIX_EPOCH_DAY == CivilDays(year, month, day)
  {
    if 1 <= month <= 12 {
      MonthLength(year, month);
      DaysBeforeMonthCivil(year, month);
      DaysBeforeYearCivil(year);
      MarchMonths();
    }
  }

  // ----- Timestamps -----

  /** A moment of years 0000 to 9999 on the civil calendar, to the microsecond. */
  predicate IsMoment(clock: Clock) {
    && clock.year <= 9999 && 1 <= clock.month <= 12 && 1 <= clock.day
    && CivilDays(clock.year, clock.month, clock.day) < NextMonth(clock.year, clock.month)
    && clock.hour < 24 && clock.minute < 60 && clock.second < 60 && clock.micro < 1_000_000
  }

  /** Microseconds from 1970-01-01T00:00:00. */
  function MomentMicros(clock: Clock): int {
    (((CivilDays(clock.year, clock.month, clock.day) * 24 + clock.hour) * 60 + clock.minute) * 60 + clock.second) * 1_000_000
      + clock.micro
  }

  lemma ValidClockIsMoment(clock: Clock)
    ensures clock.Valid() <==> IsMoment(clock)
    ensures clock.Valid() ==> clock.EpochMicros() == MomentMicros(clock)
  {
    CalendarIsCivil(clock.year, clock.month, clock.day);
  }

  /** The text prints this calendar moment, so many microseconds from the epoch. */
  ghost predicate Prints(text: string, clock: Clock, micros: int) {
    SpellsClock(text, clock) && IsMoment(clock) && MomentMicros(clock) == micros
  }

  lemma PrintedMomentParses(text: string, clock: Clock, micros: int)
    requires Prints(text, clock, micros)
    ensures ParseDatetimePrefix(text) == Some(clock) && clock.Valid() && clock.EpochMicros() == micros
  {
    ValidClockIsMoment(clock);
    ClockReads(text, clock);
  }

  lemma ParsedMomentIsPrinted(text: string, clock: Clock, micros: int)
    requires ParseDatetimePrefix(text) == Some(clock) && (clock.Valid() ==> clock.EpochMicros() == micros)
    ensures Prints(text, clock, micros)
  {
    ClockReads(text, clock);
    ValidClockIsMoment(clock);
  }

  /** The text prints a calendar moment and nothing else; this is its distance from the epoch. */
  ghost predicate SpellsTimestamp(text: string, micros: int) {
    exists clock: Clock :: Prints(text, clock, micros) && clock.rest == ""
  }

  lemma ParsedTimestampIsSpelled(text: string, micros: int)
    requires ParseTimestampMicros(text) == Some(micros)
    ensures SpellsTimestamp(text, micros)
  {
    var clock := ParseDatetimePrefix(text).value;
    ParsedMomentIsPrinted(text, clock, micros);
    assert clock.rest == "";
  }

  lemma SpelledTimestampParses(text: string, micros: int)
    requires SpellsTimestamp(text, micros)
    ensures ParseTimestampMicros(text) == Some(micros)
  {
    var clock: Clock :| Prints(text, clock, micros) && clock.rest == "";
    PrintedMomentParses(text, clock, micros);
  }

  /** Wall-clock text is read exactly when it prints a calendar moment, as its distance from the epoch. */
  lemma ParseTimestampReads(text: string, micros: int)
    ensures ParseTimestampMicros(text) == Some(micros) <==> SpellsTimestamp(text, micros)
  {
    if ParseTimestampMicros(text) == Some(micros) {
      ParsedTimestampIsSpelled(text, micros);
    } else if SpellsTimestamp(text, micros) {
      SpelledTimestampParses(text, micros);
    }
  }

  // ----- Offsets and instants -----

  /** An offset as it is printed: a sign, two digits of hours and two of minutes. */
  function OffsetText(sign: char, hours: nat, minutes: nat): (s: string)
    ensures |s| == 6
  {
    [sign] + Padded(hours, 2) + ":" + Padded(minutes, 2)
  }

  /** Seconds east of UTC. */
  function East(sign: char, hours: nat, minutes: nat): int {
    if sign == '+' then 3600 * hours + 60 * minutes else -3600 * hours - 60 * minutes
  }

  predicate OffsetForm(text: string, sign: char, hours: nat, minutes: nat, seconds: int) {
    && sign in {'+', '-'} && hours < 24 && minutes < 60
    && text == OffsetText(sign, hours, minutes) && seconds == East(sign, hours, minutes)
  }

  /** The text is Z in either case, or a printed offset; so many seconds east of UTC. */
  ghost predicate SpellsOffset(text: string, seconds: int) {
    (text in {"Z", "z"} && seconds == 0) || exists sign, hours, minutes :: OffsetForm(text, sign, hours, minutes, seconds)
  }

  lemma OffsetParses(sign: char, hours: nat, minutes: nat)
    requires sign in {'+', '-'} && hours < 24 && minutes < 60
    ensures ParseOffsetSeconds(OffsetText(sign, hours, minutes)) == Some(East(sign, hours, minutes))
  {
    var text := OffsetText(sign, hours, minutes);
    assert Pow10(2) == 100;
    assert text[0] == sign && text[1..3] == Padded(hours, 2) && text[3] == ':' && text[4..6] == Padded(minutes, 2);
    FieldReads(text[1..3], hours);
    FieldReads(text[4..6], minutes);
  }

  /** Offset text is read exactly when it prints an offset under a day. */
  lemma ParseOffsetReads(text: string, seconds: int)
    ensures ParseOffsetSeconds(text) == Some(seconds) <==> SpellsOffset(text, seconds)
  {
    if ParseOffsetSeconds(text) == Some(seconds) && text !in {"Z", "z"} {
      var hours, minutes := FixedDigits(text[1..3]).value, FixedDigits(text[4..6]).value;
      FieldReads(text[1..3], hours);
      FieldReads(text[4..6], minutes);
      assert text == [text[0]] + text[1..3] + [text[3]] + text[4..6];
      assert OffsetForm(text, text[0], hours, minutes, seconds);
    }
    if sign, hours, minutes :| OffsetForm(text, sign, hours, minutes, seconds) {
      OffsetParses(sign, hours, minutes);
    }
  }

  /** The text prints a moment at an offset east of UTC: the wall clock of this instant there. */
  ghost predicate InstantMeans(text: string, clock: Clock, seconds: int, micros: int) {
    Prints(text, clock, micros + seconds * 1_000_000) && SpellsOffset(clock.rest, seconds)
  }

  ghost predicate SpellsInstant(text: string, micros: int) {
    exists clock, seconds :: InstantMeans(text, clock, seconds, micros)
  }

  lemma SpelledInstantParses(text: string, clock: Clock, seconds: int, micros: int)
    requires InstantMeans(text, clock, seconds, micros)
    ensures ParseTimestamptzMicros(text) == Some(micros)
  {
    PrintedMomentParses(text, clock, micros + seconds * 1_000_000);
    ParseOffsetReads(clock.rest, seconds);
    InstantAt(text, clock, seconds, micros);
  }

  lemma ParsedInstantIsSpelled(text: string, clock: Clock, seconds: int)
    requires ParseDatetimePrefix(text) == Some(clock) && ParseOffsetSeconds(clock.rest) == Some(seconds)
    ensures ParseTimestamptzMicros(text).Some?
    ensures InstantMeans(text, clock, seconds, ParseTimestamptzMicros(text).value)
  {
    InstantFrom(text, clock, seconds);
    ParsedMomentIsPrinted(text, clock, ParseTimestamptzMicros(text).value + seconds * 1_000_000);
    ParseOffsetReads(clock.rest, seconds);
  }

  /** Instant text is read exactly when it prints the wall clock of an instant at an offset, as that instant. */
  lemma ParseInstantReads(text: string, micros: int)
    ensures ParseTimestamptzMicros(text) == Some(micros) <==> SpellsInstant(text, micros)
  {
    if ParseTimestamptzMicros(text) == Some(micros) {
      var clock := ParseDatetimePrefix(text).value;
      ParsedInstantIsSpelled(text, clock, ParseOffsetSeconds(clock.rest).value);
    }
    if clock, seconds :| InstantMeans(text, clock, seconds, micros) {
      SpelledInstantParses(text, clock, seconds, micros);
    }
  }

  /** A printed moment followed by something that does not continue it. */
  lemma FormThen(text: string, separator: char, fraction: string, wall: Clock, clock: Clock)
    requires ClockForm(text, separator, fraction, wall) && wall.rest == ""
    requires clock == wall.(rest := clock.rest) && clock.rest != "" && clock.rest[0] in {'Z', 'z', '+', '-'}
    ensures ClockForm(text + clock.rest, separator, fraction, clock)
  {
    assert DateTimeText(clock, separator) == DateTimeText(wall, separator);
    assert text == DateTimeText(wall, separator) + fraction;
    assert text + clock.rest == DateTimeText(clock, separator) + (fraction + clock.rest);
  }

  lemma SameMoment(wall: Clock, clock: Clock)
    requires clock == wall.(rest := clock.rest)
    ensures IsMoment(clock) == IsMoment(wall) && MomentMicros(clock) == MomentMicros(wall)
  {
  }

  lemma PrintsThen(text: string, rest: string, micros: int) returns (clock: Clock)
    requires SpellsTimestamp(text, micros) && rest != "" && rest[0] in {'Z', 'z', '+', '-'}
    ensures Prints(text + rest, clock, micros) && clock.rest == rest
  {
    var wall: Clock :| Prints(text, wall, micros) && wall.rest == "";
    clock := wall.(rest := rest);
    SameMoment(wall, clock);
    FormsThen(text, wall, clock);
  }

  lemma FormsThen(text: string, wall: Clock, clock: Clock)
    requires SpellsClock(text, wall) && wall.rest == ""
    requires clock == wall.(rest := clock.rest) && clock.rest != "" && clock.rest[0] in {'Z', 'z', '+', '-'}
    ensures SpellsClock(text + clock.rest, clock)
  {
    var separator, fraction :| ClockForm(text, separator, fraction, wall);
    FormThen(text, separator, fraction, wall, clock);
  }

  lemma InstantOf(text: string, rest: string, seconds: int, micros: int)
    requires ParseTimestampMicros(text) == Some(micros + seconds * 1_000_000)
    requires rest != "" && rest[0] in {'Z', 'z', '+', '-'} && SpellsOffset(rest, seconds)
    ensures ParseTimestamptzMicros(text + rest) == Some(micros)
  {
    ParseTimestampReads(text, micros + seconds * 1_000_000);
    var clock := PrintsThen(text, rest, micros + seconds * 1_000_000);
    SpelledInstantParses(text + rest, clock, seconds, micros);
  }

  lemma PrintedOffset(sign: char, hours: nat, minutes: nat)
    requires sign in {'+', '-'} && hours < 24 && minutes < 60
    ensures OffsetText(sign, hours, minutes)[0] == sign
    ensures SpellsOffset(OffsetText(sign, hours, minutes), East(sign, hours, minutes))
  {
    assert OffsetForm(OffsetText(sign, hours, minutes), sign, hours, minutes, East(sign, hours, minutes));
  }

  /** Wall-clock text with an offset is the instant whose wall clock, that far east of it, the text reads. */
  lemma OffsetMovesInstant(text: string, micros: int, sign: char, hours: nat, minutes: nat)
    requires ParseTimestampMicros(text) == Some(micros + East(sign, hours, minutes) * 1_000_000)
    requires sign in {'+', '-'} && hours < 24 && minutes < 60
    ensures ParseTimestamptzMicros(text + OffsetText(sign, hours, minutes)) == Some(micros)
  {
    PrintedOffset(sign, hours, minutes);
    InstantOf(text, OffsetText(sign, hours, minutes), East(sign, hours, minutes), micros);
  }

  /** Z, in either case, leaves the wall clock as it is. */
  lemma UtcKeepsInstant(text: string, wall: int, letter: char)
    requires ParseTimestampMicros(text) == Some(wall) && letter in {'Z', 'z'}
    ensures ParseTimestamptzMicros(text + [letter]) == Some(wall)
  {
    assert SpellsOffset([letter], 0);
    InstantOf(text, [letter], 0, wall);
  }
}
