/**
 * UTC calendar arithmetic on time values, after MakeDay and DateFromTime in section 21.4.1 of ECMA-262,
 * and the two ways the services add months to an instant.
 */
module Calendar {
  import opened Arithmetic

  const MS_PER_DAY := 86_400_000

  // ----- the proleptic Gregorian calendar

  predicate Leap(year: int) {
    (year % 4 == 0 && year % 100 != 0) || year % 400 == 0
  }

  function DaysInMonth(year: int, month: int): (days: int)
    requires 0 <= month < 12
    ensures 28 <= days <= 31
  {
    if month == 1 then (if Leap(year) then 29 else 28)
    else if month in {3, 5, 8, 10} then 30
    else 31
  }

  /** The number of the first day of a year; day 0 is 1 January 1970. */
  function DayFromYear(year: int): int {
    365 * (year - 1970) + (year - 1969) / 4 - (year - 1901) / 100 + (year - 1601) / 400
  }

  function DaysBeforeMonth(year: int, month: int): int
    requires 0 <= month <= 12
  {
    if month == 0 then 0 else DaysBeforeMonth(year, month - 1) + DaysInMonth(year, month - 1)
  }

  /** The first day of month `index % 12` of year `index / 12`; both operations round down. */
  function MonthStart(index: int): int {
    DayFromYear(index / 12) + DaysBeforeMonth(index / 12, index % 12)
  }

  function MonthLength(index: int): (days: int)
    ensures 28 <= days <= 31
  {
    DaysInMonth(index / 12, index % 12)
  }

  /** Counting the multiples of d since a base year that is one: the count goes up on the multiples. */
  lemma Multiples(year: int, d: nat, base: int, b: int)
    requires d > 0 && base == b * d
    ensures (year - base) / d == (year - base - 1) / d + if year % d == 0 then 1 else 0
  {
    var q, r := year / d, year % d;
    assert year == q * d + r && 0 <= r < d;
    assert (q - b) * d == q * d - b * d;
    assert (q - b - 1) * d == (q - b) * d - d;
    QuotientUnique(year - base, d, q - b);
    QuotientUnique(year - base - 1, d, if r == 0 then q - b - 1 else q - b);
  }

  lemma Divisors(year: int)
    ensures year % 400 == 0 ==> year % 100 == 0
    ensures year % 100 == 0 ==> year % 4 == 0
  {
  }

  lemma YearLength(year: int)
    ensures DayFromYear(year + 1) == DayFromYear(year) + if Leap(year) then 366 else 365
  {
    Multiples(year, 4, 1968, 492);
    Multiples(year, 100, 1900, 19);
    Multiples(year, 400, 1600, 4);
    Divisors(year);
  }

  lemma MonthsOfYear(year: int)
    ensures DaysBeforeMonth(year, 12) == if Leap(year) then 366 else 365
  {
    hide Leap;
    assert DaysBeforeMonth(year, 1) == 31;
    assert DaysBeforeMonth(year, 3) == DaysBeforeMonth(year, 1) + DaysInMonth(year, 1) + 31;
    assert DaysBeforeMonth(year, 5) == DaysBeforeMonth(year, 3) + 61;
    assert DaysBeforeMonth(year, 7) == DaysBeforeMonth(year, 5) + 61;
    assert DaysBeforeMonth(year, 9) == DaysBeforeMonth(year, 7) + 61;
    assert DaysBeforeMonth(year, 11) == DaysBeforeMonth(year, 9) + 61;
  }

  /** Months follow each other without gap or overlap. */
  lemma NextMonth(index: int)
    ensures MonthStart(index + 1) == MonthStart(index) + MonthLength(index)
  {
    hide DayFromYear, Leap;
    var year := index / 12;
    YearLength(year);
    MonthsOfYear(year);
  }

  lemma {:induction false} MonthsApart(index: int, months: nat)
    ensures MonthStart(index + months) >= MonthStart(index) + 28 * months
    decreases months
  {
    hide *;
    if months > 0 {
      MonthsApart(index, months - 1);
      NextMonth(index + months - 1);
    }
  }

  // ----- from day numbers to months

  function SeekMonth(day: int, index: int): (r: int)
    requires MonthStart(index) <= day
    ensures MonthStart(r) <= day < MonthStart(r + 1)
    decreases day - MonthStart(index)
  {
    hide *;
    NextMonth(index);
    if day < MonthStart(index + 1) then index else SeekMonth(day, index + 1)
  }

  const EPOCH := 12 * 1970

  lemma EpochStart()
    ensures MonthStart(EPOCH) == 0
  {
    assert EPOCH / 12 == 1970 && EPOCH % 12 == 0;
    assert DayFromYear(1970) == 0;
  }

  lemma EarlyMonth(day: int)
    requires day < 0
    ensures MonthStart(EPOCH + day / 28) <= day
  {
    hide *;
    var months := -(day / 28);
    MonthsApart(EPOCH + day / 28, months);
    EpochStart();
  }

  /** The month a day falls in (YearFromTime and MonthFromTime together). */
  function MonthIndex(day: int): (index: int)
    ensures MonthStart(index) <= day < MonthStart(index + 1)
  {
    hide *;
    if day >= 0 then
      EpochStart();
      SeekMonth(day, EPOCH)
    else
      EarlyMonth(day);
      SeekMonth(day, EPOCH + day / 28)
  }

  /** A day lies in exactly one month. */
  lemma MonthIndexUnique(day: int, index: int)
    requires MonthStart(index) <= day < MonthStart(index + 1)
    ensures MonthIndex(day) == index
  {
    hide *;
    var found := MonthIndex(day);
    if found < index {
      MonthsApart(found + 1, index - found - 1);
    } else if found > index {
      MonthsApart(index + 1, found - index - 1);
    }
  }

  lemma MonthIndexMonotone(a: int, b: int)
    requires a <= b
    ensures MonthIndex(a) <= MonthIndex(b)
  {
    hide *;
    if MonthIndex(a) > MonthIndex(b) {
      MonthsApart(MonthIndex(b) + 1, MonthIndex(a) - MonthIndex(b) - 1);
    }
  }

  // ----- Date objects as time values in milliseconds

  function Day(t: int): int { t / MS_PER_DAY }

  function TimeInDay(t: int): (ms: int)
    ensures 0 <= ms < MS_PER_DAY
  {
    t % MS_PER_DAY
  }

  function UtcFullYear(t: int): int { MonthIndex(Day(t)) / 12 }

  function UtcMonth(t: int): int { MonthIndex(Day(t)) % 12 }

  function UtcDate(t: int): (date: int)
    ensures 1 <= date <= MonthLength(MonthIndex(Day(t)))
  {
    hide *;
    NextMonth(MonthIndex(Day(t)));
    Day(t) - MonthStart(MonthIndex(Day(t))) + 1
  }

  function MakeDate(year: int, month: int, date: int, timeInDay: int): int {
    (MonthStart(12 * year + month) + date - 1) * MS_PER_DAY + timeInDay
  }

  /** Date.UTC reads the years 0 to 99 as 1900 to 1999. */
  predicate LegacyYear(year: int) { 0 <= year <= 99 }

  function DateUtc(year: int, month: int, date: int, timeInDay: int): int {
    MakeDate(if LegacyYear(year) then 1900 + year else year, month, date, timeInDay)
  }

  /** The remainder operator of the source language keeps the sign of the dividend. */
  function Remainder(a: int, b: nat): int
    requires b > 0
  {
    if a >= 0 then a % b else -((-a) % b)
  }

  // ----- the two month additions

  function TargetYear(t: int, months: int): int {
    UtcFullYear(t) + (UtcMonth(t) + months) / 12
  }

  /** `addUtcMonthsClamped`. */
  function AddUtcMonthsClamped(t: int, months: int): int {
    var monthIndex := UtcMonth(t) + months;
    var targetYear := TargetYear(t, months);
    var targetMonth := Remainder(Remainder(monthIndex, 12) + 12, 12);
    var lastDayOfTargetMonth := UtcDate(DateUtc(targetYear, targetMonth + 1, 0, 0));
    var day := Min(UtcDate(t), lastDayOfTargetMonth);
    DateUtc(targetYear, targetMonth, day, TimeInDay(t))
  }

  /** `addMonths`, which lets a day past the end of the month run over into the next. */
  function AddMonths(t: int, months: int): int {
    MakeDate(UtcFullYear(t), UtcMonth(t) + months, UtcDate(t), TimeInDay(t))
  }

  /** The month both additions aim at. */
  function TargetIndex(t: int, months: int): int {
    MonthIndex(Day(t)) + months
  }

  lemma RemainderIsFloored(m: int)
    ensures Remainder(Remainder(m, 12) + 12, 12) == m % 12
  {
    if m < 0 {
      var p := (-m) % 12;
      assert m == -12 * ((-m) / 12) - p;
      assert m % 12 == if p == 0 then 0 else 12 - p;
    }
  }

  lemma TargetParts(t: int, months: int)
    ensures var index := TargetIndex(t, months);
      && TargetYear(t, months) == index / 12
      && Remainder(Remainder(UtcMonth(t) + months, 12) + 12, 12) == index % 12
      && 12 * UtcFullYear(t) + UtcMonth(t) + months == index
  {
    hide MonthIndex, Remainder;
    var m := UtcMonth(t) + months;
    var index := TargetIndex(t, months);
    assert index == 12 * UtcFullYear(t) + m;
    RemainderIsFloored(m);
  }

  lemma DayOfMake(days: int, timeInDay: int)
    requires 0 <= timeInDay < MS_PER_DAY
    ensures Day(days * MS_PER_DAY + timeInDay) == days
    ensures TimeInDay(days * MS_PER_DAY + timeInDay) == timeInDay
  {
  }

  /** A date that fits its month reads back as that month and date. */
  lemma ReadBack(index: int, date: int, timeInDay: int)
    requires 1 <= date <= MonthLength(index) && 0 <= timeInDay < MS_PER_DAY
    ensures var t := (MonthStart(index) + date - 1) * MS_PER_DAY + timeInDay;
      MonthIndex(Day(t)) == index && UtcDate(t) == date && TimeInDay(t) == timeInDay
  {
    hide MonthStart, MonthLength, MonthIndex, Day, TimeInDay;
    DayOfMake(MonthStart(index) + date - 1, timeInDay);
    NextMonth(index);
    MonthIndexUnique(MonthStart(index) + date - 1, index);
  }

  /**
   * Outside the years Date.UTC rewrites, the clamped addition keeps the time of day, lands in
   * the target month, and keeps the date unless that month is too short, when it takes its last day.
   */
  lemma ClampedMeaning(t: int, months: int)
    requires !LegacyYear(TargetYear(t, months))
    ensures var index := TargetIndex(t, months);
      var date := Min(UtcDate(t), MonthLength(index));
      var r := AddUtcMonthsClamped(t, months);
      && r == (MonthStart(index) + date - 1) * MS_PER_DAY + TimeInDay(t)
      && MonthIndex(Day(r)) == index && UtcDate(r) == date && TimeInDay(r) == TimeInDay(t)
  {
    hide MonthStart, MonthLength, MonthIndex, Day, TimeInDay, UtcDate, UtcFullYear, UtcMonth, TargetYear, Remainder;
    var index := TargetIndex(t, months);
    TargetParts(t, months);
    NextMonth(index);
    ReadBack(index, MonthLength(index), 0);
    ReadBack(index, Min(UtcDate(t), MonthLength(index)), TimeInDay(t));
  }

  lemma AddMonthsMeaning(t: int, months: int)
    ensures AddMonths(t, months)
         == (MonthStart(TargetIndex(t, months)) + UtcDate(t) - 1) * MS_PER_DAY + TimeInDay(t)
  {
    hide MonthStart, MonthLength, MonthIndex, Day, TimeInDay, UtcDate, UtcFullYear, UtcMonth, Remainder;
    TargetParts(t, months);
  }

  // ----- the laws

  /** Adding a positive number of months always moves the instant forward. */
  lemma ClampedIsLater(t: int, months: int)
    requires months > 0 && !LegacyYear(TargetYear(t, months))
    ensures AddUtcMonthsClamped(t, months) > t
  {
    hide MonthStart, MonthLength, MonthIndex, AddUtcMonthsClamped, TargetYear;
    ClampedMeaning(t, months);
    MonthsApart(MonthIndex(Day(t)) + 1, months - 1);
    var r := AddUtcMonthsClamped(t, months);
    assert Day(r) > Day(t);
  }

  /** The calendar day of the result never goes back as the calendar day of the argument goes on. */
  lemma ClampedDayMonotone(a: int, b: int, months: int)
    requires a <= b
    requires !LegacyYear(TargetYear(a, months)) && !LegacyYear(TargetYear(b, months))
    ensures Day(AddUtcMonthsClamped(a, months)) <= Day(AddUtcMonthsClamped(b, months))
  {
    hide MonthStart, MonthLength, MonthIndex, AddUtcMonthsClamped, TargetYear, TimeInDay;
    ClampedMeaning(a, months);
    ClampedMeaning(b, months);
    DayMonotone(a, b);
    MonthIndexMonotone(Day(a), Day(b));
    var i, j := TargetIndex(a, months), TargetIndex(b, months);
    if i < j {
      MonthsApart(i + 1, j - i - 1);
      NextMonth(i);
    }
  }

  lemma DayMonotone(a: int, b: int)
    requires a <= b
    ensures Day(a) <= Day(b)
    ensures Day(a) == Day(b) ==> TimeInDay(a) <= TimeInDay(b)
  {
  }

  /** Two days of one month that the target month pulls onto its last day, with the clock running backwards. */
  predicate Collapses(a: int, b: int, months: int) {
    && MonthIndex(Day(a)) == MonthIndex(Day(b))
    && MonthLength(TargetIndex(a, months)) <= UtcDate(a) < UtcDate(b)
    && TimeInDay(a) > TimeInDay(b)
  }

  /** As instants, the order of two arguments is lost exactly when clamping collapses their days. */
  lemma ClampedMonotoneExactly(a: int, b: int, months: int)
    requires a <= b
    requires !LegacyYear(TargetYear(a, months)) && !LegacyYear(TargetYear(b, months))
    ensures AddUtcMonthsClamped(a, months) <= AddUtcMonthsClamped(b, months) <==> !Collapses(a, b, months)
  {
    hide MonthStart, MonthLength, MonthIndex, AddUtcMonthsClamped, TargetYear;
    ClampedMeaning(a, months);
    ClampedMeaning(b, months);
    ClampedDayMonotone(a, b, months);
    DayMonotone(a, b);
    MonthIndexMonotone(Day(a), Day(b));
    var x, y := AddUtcMonthsClamped(a, months), AddUtcMonthsClamped(b, months);
    assert x == Day(x) * MS_PER_DAY + TimeInDay(x) && y == Day(y) * MS_PER_DAY + TimeInDay(y);
  }

  lemma January2023()
    ensures MonthStart(12 * 2023) == 19_358
    ensures MonthLength(12 * 2023) == 31 && MonthLength(12 * 2023 + 1) == 28
  {
    var january := 12 * 2023;
    assert january / 12 == 2023 && january % 12 == 0 && (january + 1) / 12 == 2023 && (january + 1) % 12 == 1;
    assert DayFromYear(2023) == 19_358;
  }

  /** 30 January 2023 at noon is before 31 January 2023 at midnight, but a month later it is after it. */
  lemma ClampedNotMonotone()
    ensures var a, b := 19_387 * MS_PER_DAY + MS_PER_DAY / 2, 19_388 * MS_PER_DAY;
      a < b && AddUtcMonthsClamped(a, 1) > AddUtcMonthsClamped(b, 1)
  {
    hide MonthStart, MonthLength, MonthIndex, AddUtcMonthsClamped, TargetYear, Day, TimeInDay, UtcDate, LegacyYear;
    January2023();
    ReadBack(12 * 2023, 30, MS_PER_DAY / 2);
    ReadBack(12 * 2023, 31, 0);
    var a, b := 19_387 * MS_PER_DAY + MS_PER_DAY / 2, 19_388 * MS_PER_DAY;
    NotLegacy2023(a);
    NotLegacy2023(b);
    ClampedMonotoneExactly(a, b, 1);
  }

  lemma NotLegacy2023(t: int)
    requires MonthIndex(Day(t)) == 12 * 2023
    ensures !LegacyYear(TargetYear(t, 1))
  {
  }

  /** Two additions never overshoot the one they stand for. */
  lemma ClampedComposes(t: int, m: int, n: int)
    requires !LegacyYear(TargetYear(t, m)) && !LegacyYear(TargetYear(t, m + n))
    requires !LegacyYear(TargetYear(AddUtcMonthsClamped(t, m), n))
    ensures AddUtcMonthsClamped(AddUtcMonthsClamped(t, m), n) <= AddUtcMonthsClamped(t, m + n)
    ensures TimeInDay(AddUtcMonthsClamped(AddUtcMonthsClamped(t, m), n)) == TimeInDay(AddUtcMonthsClamped(t, m + n))
    ensures MonthLength(TargetIndex(t, m)) >= UtcDate(t) ==>
      AddUtcMonthsClamped(AddUtcMonthsClamped(t, m), n) == AddUtcMonthsClamped(t, m + n)
  {
    hide MonthStart, MonthLength, MonthIndex, AddUtcMonthsClamped, TargetYear, Day, TimeInDay, UtcDate;
    ClampedMeaning(t, m);
    ClampedMeaning(AddUtcMonthsClamped(t, m), n);
    ClampedMeaning(t, m + n);
    var index := TargetIndex(t, m + n);
    var x, y := Min(UtcDate(AddUtcMonthsClamped(t, m)), MonthLength(index)), Min(UtcDate(t), MonthLength(index));
    assert x <= y;
  }

  /** The overflowing addition is never earlier, at most three days later, and equal exactly when the date fits. */
  lemma ClampedAgainstOverflow(t: int, months: int)
    requires !LegacyYear(TargetYear(t, months))
    ensures var excess := AddMonths(t, months) - AddUtcMonthsClamped(t, months);
      && 0 <= excess <= 3 * MS_PER_DAY
      && (excess == 0 <==> UtcDate(t) <= MonthLength(TargetIndex(t, months)))
  {
    hide MonthStart, MonthLength, MonthIndex, AddUtcMonthsClamped, AddMonths, TargetYear, Day, TimeInDay, UtcDate;
    ClampedMeaning(t, months);
    AddMonthsMeaning(t, months);
    var index := TargetIndex(t, months);
    var over := UtcDate(t) - Min(UtcDate(t), MonthLength(index));
    assert AddMonths(t, months) - AddUtcMonthsClamped(t, months) == over * MS_PER_DAY;
  }

  // ----- the expiry the lot table insists on

  /** `derive_credit_lot_expires_at`: same month and time next year, on the last day if the month is shorter. */
  function DeriveExpiresAt(earnedAt: int): int {
    var year, month := UtcFullYear(earnedAt) + 1, UtcMonth(earnedAt);
    MakeDate(year, month, Min(UtcDate(earnedAt), DaysInMonth(year, month)), TimeInDay(earnedAt))
  }

  lemma YearAhead(t: int)
    ensures TargetIndex(t, 12) / 12 == UtcFullYear(t) + 1 && TargetIndex(t, 12) % 12 == UtcMonth(t)
    ensures TargetYear(t, 12) == UtcFullYear(t) + 1
  {
  }

  predicate LeapDay(t: int) { UtcMonth(t) == 1 && UtcDate(t) == 29 }

  /** The derived expiry is the target month's start, the date pulled inside it, and the same time of day. */
  lemma DerivedMeaning(earnedAt: int)
    ensures var index := TargetIndex(earnedAt, 12);
      DeriveExpiresAt(earnedAt)
      == (MonthStart(index) + Min(UtcDate(earnedAt), MonthLength(index)) - 1) * MS_PER_DAY + TimeInDay(earnedAt)
  {
    hide MonthStart, MonthIndex, TargetIndex, Day, TimeInDay, UtcDate, UtcFullYear, UtcMonth, DaysInMonth;
    YearAhead(earnedAt);
  }

  /** Twelve months on, a date fits its month unless it is 29 February. */
  lemma FitsNextYear(t: int)
    ensures UtcDate(t) <= MonthLength(TargetIndex(t, 12)) <==> !LeapDay(t)
  {
    hide MonthStart, MonthIndex, TargetIndex, Day, UtcDate, UtcFullYear, UtcMonth, Leap;
    YearAhead(t);
    DateFits(t);
    NoAdjacentLeapYears(UtcFullYear(t));
  }

  /** The overflowing addition of any other number of months lands on another day than the derived expiry. */
  lemma OtherMonthsDiffer(t: int, months: int)
    requires months != 12
    ensures AddMonths(t, months) != DeriveExpiresAt(t)
  {
    hide MonthStart, MonthLength, MonthIndex, Day, TimeInDay, UtcDate, AddMonths, DeriveExpiresAt;
    AddMonthsMeaning(t, months);
    DerivedMeaning(t);
    var index := MonthIndex(Day(t));
    if months > 12 {
      MonthsApart(index + 13, months - 13);
      NextMonth(index + 12);
    } else {
      MonthsApart(index + months, 12 - months);
    }
  }

  /**
   * The table's trigger refuses a lot whose expiry is not the derived one. Lots earned on a receipt always pass. A
   * credit adjustment, whose expiry comes from the overflowing addition of a configured number of months, passes
   * exactly when that number is twelve and it is not effective on 29 February.
   */
  lemma TriggerAccepts(earnedAt: int, months: int)
    ensures !LegacyYear(UtcFullYear(earnedAt) + 1) ==> AddUtcMonthsClamped(earnedAt, 12) == DeriveExpiresAt(earnedAt)
    ensures AddMonths(earnedAt, months) == DeriveExpiresAt(earnedAt) <==> months == 12 && !LeapDay(earnedAt)
  {
    hide MonthStart, MonthLength, MonthIndex, AddUtcMonthsClamped, AddMonths, TargetYear, TargetIndex, Day, TimeInDay,
         UtcDate, UtcFullYear, UtcMonth, DeriveExpiresAt, LeapDay;
    YearAhead(earnedAt);
    DerivedMeaning(earnedAt);
    if !LegacyYear(UtcFullYear(earnedAt) + 1) {
      ClampedMeaning(earnedAt, 12);
    }
    AddMonthsMeaning(earnedAt, 12);
    FitsNextYear(earnedAt);
    if months != 12 {
      OtherMonthsDiffer(earnedAt, months);
    }
  }

  lemma February2024()
    ensures MonthStart(12 * 2024 + 1) == 19_754 && MonthLength(12 * 2024 + 1) == 29
  {
    var february := 12 * 2024 + 1;
    assert february / 12 == 2024 && february % 12 == 1;
    assert DayFromYear(2024) == 19_723;
    assert DaysBeforeMonth(2024, 1) == DaysBeforeMonth(2024, 0) + DaysInMonth(2024, 0) == 31;
  }

  /** A twelve-month credit adjustment effective at any time of 29 February 2024 is refused. */
  lemma LeapDayRefused(timeInDay: int)
    requires 0 <= timeInDay < MS_PER_DAY
    ensures var t := 19_782 * MS_PER_DAY + timeInDay;
      UtcFullYear(t) == 2024 && LeapDay(t) && AddMonths(t, 12) != DeriveExpiresAt(t)
  {
    hide MonthStart, MonthLength, MonthIndex, AddMonths, DeriveExpiresAt, Day, TimeInDay, UtcDate;
    February2024();
    ReadBack(12 * 2024 + 1, 29, timeInDay);
    TriggerAccepts(19_782 * MS_PER_DAY + timeInDay, 12);
  }

  lemma NoAdjacentLeapYears(year: int)
    ensures Leap(year) ==> !Leap(year + 1)
  {
  }

  lemma DateFits(t: int)
    ensures 1 <= UtcDate(t) <= DaysInMonth(UtcFullYear(t), UtcMonth(t))
  {
  }
}
