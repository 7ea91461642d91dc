/** Microsecond timestamps on the SQL Server wire: the exact DATETIME2 value, and its rounded or narrowed forms. */
module Datetimes {
  import opened Wrappers
  import opened Failures
  import opened Digits
  import opened Timestamps

  /** Days from 0001-01-01, the origin of DATETIME2 days, to 1970-01-01. */
  const DAYS_TO_UNIX_EPOCH: int := 719_162
  /** 9999-12-31 counted from 0001-01-01. */
  const LAST_DAY: int := 3_652_058
  /** 1753-01-01 and 1900-01-01 counted from 0001-01-01: the first day of DATETIME, and its epoch. */
  const FIRST_DATETIME_DAY: int := 639_905
  const DATETIME_EPOCH: int := 693_595
  const DATETIME_TICKS_PER_DAY: int := 25_920_000

  // ----- The exact value -----

  /** A day counted from 0001-01-01, and the ticks of 10^-scale seconds into it. */
  datatype Datetime2 = Datetime2(day: int, ticks: int, scale: nat) {
    predicate IsMicros() {
      0 <= day <= LAST_DAY && 0 <= ticks < MICROS_PER_DAY && scale == 6
    }
  }

  /** Microseconds since 0001-01-01. */
  function Timeline(value: Datetime2): int {
    value.day * MICROS_PER_DAY + value.ticks
  }

  function FromMicros(micros: int): Option<Datetime2> {
    var day := micros / MICROS_PER_DAY + DAYS_TO_UNIX_EPOCH;
    if 0 <= day <= LAST_DAY then Some(Datetime2(day, micros % MICROS_PER_DAY, 6)) else None
  }

  /** A timestamp converts exactly when it lies in years 0001 to 9999, and keeps its microsecond. */
  lemma FromMicrosIsExact(micros: int)
    ensures FromMicros(micros).Some? <==>
      -DAYS_TO_UNIX_EPOCH * MICROS_PER_DAY <= micros < (LAST_DAY + 1 - DAYS_TO_UNIX_EPOCH) * MICROS_PER_DAY
    ensures FromMicros(micros).Some? ==> FromMicros(micros).value.IsMicros()
    ensures FromMicros(micros).Some? ==>
      Timeline(FromMicros(micros).value) == micros + DAYS_TO_UNIX_EPOCH * MICROS_PER_DAY
  {
  }

  /** Every DATETIME2(6) value is the conversion of exactly one timestamp. */
  lemma EveryDatetime2IsReached(value: Datetime2)
    requires value.IsMicros()
    ensures FromMicros(Timeline(value) - DAYS_TO_UNIX_EPOCH * MICROS_PER_DAY) == Some(value)
    ensures forall micros :: FromMicros(micros) == Some(value) ==>
      micros == Timeline(value) - DAYS_TO_UNIX_EPOCH * MICROS_PER_DAY
  {
    forall micros | FromMicros(micros) == Some(value)
      ensures micros == Timeline(value) - DAYS_TO_UNIX_EPOCH * MICROS_PER_DAY
    {
      FromMicrosIsExact(micros);
    }
  }

  function CountIf(condition: bool): int {
    if condition then 1 else 0
  }

  /** A year crosses at most one multiple of `n`. */
  lemma QuotientStep(y: nat, n: nat)
    requires y >= 1 && n >= 2
    ensures y / n == (y - 1) / n + CountIf(y % n == 0)
  {
    var q, r := y / n, y % n;
    assert y == n * q + r;
    if r == 0 {
      assert y - 1 == n * (q - 1) + (n - 1);
      DivModUnique(y - 1, n, q - 1, n - 1);
    } else {
      assert y - 1 == n * q + (r - 1);
      DivModUnique(y - 1, n, q, r - 1);
    }
  }

  lemma DivModUnique(x: int, n: int, q: int, r: int)
    requires n > 0 && x == n * q + r && 0 <= r < n
    ensures x / n == q && x % n == r
  {
    MultiplesApart(n, q, x / n);
  }

  /** Distinct multiples of `n` lie at least `n` apart. */
  lemma MultiplesApart(n: int, a: int, b: int)
    requires n > 0
    ensures a < b ==> n * a + n <= n * b
    ensures b < a ==> n * b + n <= n * a
  {
    MultiplesApartUp(n, a, b - a - 1);
    MultiplesApartUp(n, b, a - b - 1);
  }

  lemma MultiplesApartUp(n: int, a: int, k: int)
    requires n > 0
    ensures n * (a + 1 + k) == n * a + n + n * k
    ensures k >= 0 ==> n * k >= 0
  {
  }

  lemma LeapDays(x: nat)
    ensures YearLength(x) == 365 + CountIf(x % 4 == 0) - CountIf(x % 100 == 0) + CountIf(x % 400 == 0)
  {
    assert x % 400 == 0 ==> x % 100 == 0;
    assert x % 100 == 0 ==> x % 4 == 0;
  }

  /** The leap rule in closed form. */
  lemma {:induction false} DaysBeforeYearClosed(y: nat)
    requires y >= 1
    ensures DaysBeforeYear(y) == 365 * y + (y - 1) / 4 - (y - 1) / 100 + (y - 1) / 400 + 1
  {
    if y == 1 {
      assert DaysBeforeYear(1) == DaysBeforeYear(0) + YearLength(0);
    } else {
      var x := y - 1;
      DaysBeforeYearClosed(x);
      QuotientStep(x, 4);
      QuotientStep(x, 100);
      QuotientStep(x, 400);
      LeapDays(x);
    }
  }

  /** The day constants are the calendar's own. */
  lemma DayConstantsAreCalendarDays()
    ensures DaysBeforeYear(1970) == UNIX_EPOCH_DAY && DaysBeforeYear(1970) - DaysBeforeYear(1) == DAYS_TO_UNIX_EPOCH
    ensures DaysBeforeYear(10_000) - DaysBeforeYear(1) == LAST_DAY + 1
    ensures DaysBeforeYear(1753) - DaysBeforeYear(1) == FIRST_DATETIME_DAY
    ensures DaysBeforeYear(1900) - DaysBeforeYear(1) == DATETIME_EPOCH
  {
    DaysBeforeYearClosed(1);
    DaysBeforeYearClosed(1753);
    DaysBeforeYearClosed(1900);
    DaysBeforeYearClosed(1970);
    DaysBeforeYearClosed(10_000);
  }

  /**
   * Timestamp text of year 0000 passes validation and has no DATETIME2 value; text of any later year
   * reaches the wire as its own calendar day and microsecond.
   */
  lemma ClockReachesTheWire(clock: Clock)
    requires clock.Valid()
    ensures FromMicros(clock.EpochMicros()) ==
      if clock.year == 0 then None
      else Some(Datetime2(DayNumber(clock.year, clock.month, clock.day) - DaysBeforeYear(1),
                          clock.SecondOfDay() * MICROS_PER_SECOND + clock.micro, 6))
  {
    DayConstantsAreCalendarDays();
    DayOfYearBelowLength(clock.year, clock.month, clock.day);
    DaysBeforeYearMonotone(clock.year + 1, 10_000);
    assert DaysBeforeYear(clock.year + 1) == DaysBeforeYear(clock.year) + YearLength(clock.year);
    if clock.year > 0 {
      DaysBeforeYearMonotone(1, clock.year);
    }
    EpochMicrosRange(clock);
    var within := clock.SecondOfDay() * MICROS_PER_SECOND + clock.micro;
    DivModUnique(clock.EpochMicros(), MICROS_PER_DAY, clock.EpochDay(), within);
  }

  // ----- Rounding -----

  /** The tick nearest to `t` units, each worth `ticks / units` ticks; halfway rounds up. */
  function NearestTick(t: int, ticks: int, units: int): int
    requires units > 0
  {
    (t * ticks + units / 2) / units
  }

  /** Rounding errs by at most half a tick, takes the upper tick when halfway, and never reverses order. */
  lemma NearestTickIsNearest(t: int, later: int, ticks: int, units: int)
    requires ticks > 0 && units > 0 && units % 2 == 0 && t <= later
    ensures -units <= 2 * (t * ticks - NearestTick(t, ticks, units) * units) < units
    ensures NearestTick(t, ticks, units) <= NearestTick(later, ticks, units)
  {
    var x, y := t * ticks + units / 2, later * ticks + units / 2;
    assert x == units * (x / units) + x % units;
    assert y == units * (y / units) + y % units;
    assert (later - t) * ticks >= 0;
    if x / units > y / units {
      assert units * (x / units) >= units * (y / units + 1);
    }
  }

  /** A value split into days and ticks is put together again. */
  lemma DaysAndTicks(n: int, perDay: int)
    requires perDay > 0
    ensures n / perDay * perDay + n % perDay == n && 0 <= n % perDay < perDay
  {
  }

  /** Rounding within a day and carrying into the next is rounding the whole timeline. */
  lemma CarriedDay(day: int, within: int, ticks: int, units: int, perDay: int, unitsPerDay: int)
    requires ticks > 0 && units > 0 && perDay > 0 && unitsPerDay * ticks == perDay * units
    ensures var q := (within * ticks + units / 2) / units;
      var n := NearestTick(day * unitsPerDay + within, ticks, units);
      n == day * perDay + q && n / perDay == day + q / perDay && n % perDay == q % perDay
  {
    var rest := within * ticks + units / 2;
    var q := rest / units;
    var n := NearestTick(day * unitsPerDay + within, ticks, units);
    assert (day * unitsPerDay + within) * ticks == day * (unitsPerDay * ticks) + within * ticks;
    assert day * (perDay * units) == units * (day * perDay);
    DivModUnique(units * (day * perDay) + rest, units, day * perDay + q, rest % units);
    assert n == day * perDay + q;
    DivModUnique(n, perDay, day + q / perDay, q % perDay);
  }

  /** Days from 1900-01-01 and ticks of 1/300 second. */
  datatype Datetime = Datetime(days: int, ticks: int)

  function RoundToDatetime(value: Datetime2): Option<Datetime> {
    var ticks := (value.ticks * 300 + 500_000) / 1_000_000;
    var day := value.day + ticks / DATETIME_TICKS_PER_DAY;
    if FIRST_DATETIME_DAY <= day <= LAST_DAY then
      Some(Datetime(day - DATETIME_EPOCH, ticks % DATETIME_TICKS_PER_DAY))
    else None
  }

  /** DATETIME takes the nearest tick of the whole timeline, and fails only when that tick is out of its range. */
  lemma DatetimeIsNearest(value: Datetime2)
    ensures var nearest := NearestTick(Timeline(value), 300, 1_000_000);
      RoundToDatetime(value) ==
        if FIRST_DATETIME_DAY * DATETIME_TICKS_PER_DAY <= nearest < (LAST_DAY + 1) * DATETIME_TICKS_PER_DAY
        then Some(Datetime(nearest / DATETIME_TICKS_PER_DAY - DATETIME_EPOCH, nearest % DATETIME_TICKS_PER_DAY))
        else None
  {
    CarriedDay(value.day, value.ticks, 300, 1_000_000, DATETIME_TICKS_PER_DAY, MICROS_PER_DAY);
  }

  function RoundToScale(value: Datetime2, scale: nat): Option<Datetime2>
    requires scale < 6
  {
    var divisor, perDay := Pow10(6 - scale), 86_400 * Pow10(scale);
    var ticks := (value.ticks + divisor / 2) / divisor;
    var day := value.day + ticks / perDay;
    if day <= LAST_DAY then Some(Datetime2(day, ticks % perDay, scale)) else None
  }

  lemma DivisorTimesScale(scale: nat)
    requires scale < 6
    ensures Pow10(scale) * Pow10(6 - scale) == 1_000_000 && Pow10(6 - scale) % 2 == 0
    ensures MICROS_PER_DAY == 86_400 * Pow10(scale) * Pow10(6 - scale)
  {
    Pow10Add(scale, 6 - scale);
    assert Pow10(6) == 1_000_000;
    assert Pow10(6 - scale) == 10 * Pow10(5 - scale);
    assert 86_400 * Pow10(scale) * Pow10(6 - scale) == 86_400 * (Pow10(scale) * Pow10(6 - scale));
  }

  /** A lower DATETIME2 scale takes the nearest tick of the whole timeline, and fails only past year 9999. */
  lemma ScaledIsNearest(value: Datetime2, scale: nat)
    requires scale < 6
    ensures Pow10(6 - scale) % 2 == 0
    ensures var perDay, nearest := 86_400 * Pow10(scale), NearestTick(Timeline(value), 1, Pow10(6 - scale));
      RoundToScale(value, scale) ==
        if nearest < (LAST_DAY + 1) * perDay then Some(Datetime2(nearest / perDay, nearest % perDay, scale)) else None
  {
    var divisor, perDay := Pow10(6 - scale), 86_400 * Pow10(scale);
    DivisorTimesScale(scale);
    CarriedDay(value.day, value.ticks, 1, divisor, perDay, MICROS_PER_DAY);
    assert value.ticks * 1 == value.ticks;
    var nearest := NearestTick(Timeline(value), 1, divisor);
    DaysAndTicks(nearest, perDay);
    MultiplesApart(perDay, nearest / perDay, LAST_DAY + 1);
    MultiplesApart(perDay, nearest / perDay, LAST_DAY);
  }

  // ----- Adapting a value to the destination column -----

  datatype IntegerWidth = Bits64 | Bits32 | Bits16 | Unsigned8 {
    function Least(): int {
      match this
      case Bits64 => I64_MIN
      case Bits32 => -0x8000_0000
      case Bits16 => -0x8000
      case Unsigned8 => 0
    }

    function Greatest(): int {
      match this
      case Bits64 => I64_MAX
      case Bits32 => 0x7fff_ffff
      case Bits16 => 0x7fff
      case Unsigned8 => 0xff
    }
  }

  /** A width holds as many values as its bits spell: half of them negative when it is signed, none otherwise. */
  lemma WidthsHoldTheirBits(width: IntegerWidth)
    ensures var values := width.Greatest() - width.Least() + 1;
      values == match width {
        case Bits64 => 0x1_0000_0000_0000_0000 case Bits32 => 0x1_0000_0000 case Bits16 => 0x1_0000 case Unsigned8 => 0x100
      }
    ensures width.Least() == if width.Unsigned8? then 0 else -width.Greatest() - 1
  {
  }

  /** A value on the wire; Carried stands for every kind that no destination column adapts. */
  datatype WireValue =
    | Whole(width: IntegerWidth, value: Option<int>)
    | Moment(moment: Option<Datetime2>)
    | LegacyMoment(legacy: Option<Datetime>)
    | Carried

  datatype ColumnTarget =
    | IntColumn | SmallintColumn | TinyintColumn | DatetimeColumn | Datetime2Column(scale: nat) | OtherColumn
  {
    /** The width an integer column narrows a dataset integer to. */
    function Narrowed(): Option<IntegerWidth> {
      match this
      case IntColumn => Some(Bits32)
      case SmallintColumn => Some(Bits16)
      case TinyintColumn => Some(Unsigned8)
      case _ => None
    }
  }

  function Adapt(value: WireValue, target: ColumnTarget): Result<WireValue, Code> {
    match (value, target)
    case (Whole(Bits64, whole), _) =>
      (match target.Narrowed()
       case None => Success(value)
       case Some(width) =>
         if whole.None? || width.Least() <= whole.value <= width.Greatest() then Success(Whole(width, whole))
         else Failure(DestinationWriteFailed))
    case (Moment(None), DatetimeColumn) => Success(LegacyMoment(None))
    case (Moment(Some(moment)), DatetimeColumn) =>
      var rounded := RoundToDatetime(moment);
      if rounded.Some? then Success(LegacyMoment(rounded)) else Failure(DestinationWriteFailed)
    case (Moment(Some(moment)), Datetime2Column(scale)) =>
      if scale >= 6 then Success(value)
      else
        var rounded := RoundToScale(moment, scale);
        if rounded.Some? then Success(Moment(rounded)) else Failure(DestinationWriteFailed)
    case _ => Success(value)
  }

  /** The adapted value lies within half of its own tick of the microseconds since 0001-01-01. */
  predicate WithinHalfTick(micros: int, adapted: WireValue) {
    match adapted
    case LegacyMoment(Some(d)) =>
      var tick := (d.days + DATETIME_EPOCH) * DATETIME_TICKS_PER_DAY + d.ticks;
      -1_000_000 <= 2 * (micros * 300 - tick * 1_000_000) < 1_000_000
    case Moment(Some(d)) =>
      d.scale <= 6 &&
      var unit: int, tick := Pow10(6 - d.scale), d.day * (86_400 * Pow10(d.scale)) + d.ticks;
      if d.scale == 6 then tick == micros else -unit <= 2 * (micros - tick * unit) < unit
    case _ => false
  }

  lemma ScaledMomentIsNear(moment: Datetime2, scale: nat)
    requires scale < 6 && RoundToScale(moment, scale).Some?
    ensures WithinHalfTick(Timeline(moment), Moment(RoundToScale(moment, scale)))
  {
    var t, unit := Timeline(moment), Pow10(6 - scale);
    ScaledIsNearest(moment, scale);
    NearestTickIsNearest(t, t, 1, unit);
    DaysAndTicks(NearestTick(t, 1, unit), 86_400 * Pow10(scale));
    assert t * 1 == t;
  }

  /** Whatever the column, an accepted timestamp stays within half a tick of the dataset's own. */
  lemma AdaptedMomentIsNear(moment: Datetime2, target: ColumnTarget)
    requires moment.IsMicros() && Adapt(Moment(Some(moment)), target).Success?
    ensures WithinHalfTick(Timeline(moment), Adapt(Moment(Some(moment)), target).value)
  {
    assert Pow10(6) == 1_000_000;
    match target
    case DatetimeColumn =>
      DatetimeIsNearest(moment);
      NearestTickIsNearest(Timeline(moment), Timeline(moment), 300, 1_000_000);
      DaysAndTicks(NearestTick(Timeline(moment), 300, 1_000_000), DATETIME_TICKS_PER_DAY);
    case Datetime2Column(scale) =>
      if scale < 6 {
        ScaledMomentIsNear(moment, scale);
      }
    case _ =>
  }

  /** Narrowing an integer keeps its value, and fails exactly when the column cannot hold it. */
  lemma NarrowingIsExact(whole: int, target: ColumnTarget)
    ensures match (Adapt(Whole(Bits64, Some(whole)), target), target.Narrowed()) {
      case (Success(adapted), Some(width)) =>
        adapted == Whole(width, Some(whole)) && width.Least() <= whole <= width.Greatest()
      case (Failure(_), Some(width)) => !(width.Least() <= whole <= width.Greatest())
      case (Success(adapted), None) => adapted == Whole(Bits64, Some(whole))
      case (Failure(_), None) => false
    }
  {
  }
}
