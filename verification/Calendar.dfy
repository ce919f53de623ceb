/** Civil dates from day numbers, against the calendar itself. */
module Calendar {
  /** A date of the proleptic Gregorian calendar; year 0 is the year before year 1. */
  datatype Date = Date(year: int, month: int, day: int)

  const EPOCH := Date(1970, 1, 1)

  /** The date a day number stands for, zero being the epoch; leap days fall at the ends of eras of 400 March years. */
  function CivilFromDays(days: int): Date {
    var z := days + 719_468;
    CivilFromEra(z / 146_097, z % 146_097)
  }

  function CivilFromEra(era: int, doe: int): Date {
    var yoe := (doe - doe / 1460 + doe / 36_524 - doe / 146_096) / 365;
    var y := yoe + era * 400;
    var doy := doe - (365 * yoe + yoe / 4 - yoe / 100);
    var mp := (5 * doy + 2) / 153;
    var d := doy - (153 * mp + 2) / 5 + 1;
    var m := if mp < 10 then mp + 3 else mp - 9;
    Date(if m <= 2 then y + 1 else y, m, d)
  }

  // ----- The calendar, as section 5.7 and Appendix C of RFC 3339 set it out.

  predicate IsLeap(year: int) {
    year % 4 == 0 && (year % 100 != 0 || year % 400 == 0)
  }

  function MonthLength(year: int, month: int): int {
    if month == 2 then (if IsLeap(year) then 29 else 28)
    else if month in {4, 6, 9, 11} then 30
    else 31
  }

  predicate ValidDate(date: Date) {
    1 <= date.month <= 12 && 1 <= date.day <= MonthLength(date.year, date.month)
  }

  function NextDay(date: Date): Date {
    if date.day < MonthLength(date.year, date.month) then date.(day := date.day + 1)
    else if date.month < 12 then Date(date.year, date.month + 1, 1)
    else Date(date.year + 1, 1, 1)
  }

  // ----- Eras of 400 years starting in March: c centuries, q four-year cycles, t years and d days in.

  function MarchYear(era: int, c: int, q: int, t: int): int {
    400 * era + 100 * c + 4 * q + t
  }

  function DayOfEra(c: int, q: int, t: int, d: int): int {
    36_524 * c + 1461 * q + 365 * t + d
  }

  /** The last day of a March year: its leap day, if the calendar year it ends in has one. */
  function LastDay(c: int, q: int, t: int): int {
    if t == 3 && (q < 24 || c == 3) then 365 else 364
  }

  predicate InEra(c: int, q: int, t: int, d: int) {
    0 <= c <= 3 && 0 <= q <= 24 && 0 <= t <= 3 && 0 <= d <= LastDay(c, q, t)
  }

  /** The date `d` days into the March year `y`. */
  function MarchDate(y: int, d: int): Date {
    var mp := (5 * d + 2) / 153;
    Date(if mp < 10 then y else y + 1, if mp < 10 then mp + 3 else mp - 9, d - (153 * mp + 2) / 5 + 1)
  }

  lemma LastDayIsLeapDay(era: int, c: int, q: int, t: int)
    requires InEra(c, q, t, 0)
    ensures LastDay(c, q, t) == if IsLeap(MarchYear(era, c, q, t) + 1) then 365 else 364
  {
    var y := MarchYear(era, c, q, t) + 1;
    DivMod(y, 4, 100 * era + 25 * c + q + (t + 1) / 4, (t + 1) % 4);
    if t == 3 {
      if q < 24 {
        DivMod(y, 100, 4 * era + c, 4 * (q + 1));
      } else {
        DivMod(y, 100, 4 * era + c + 1, 0);
        DivMod(y, 400, era + (c + 1) / 4, 100 * ((c + 1) % 4));
      }
    }
  }

  /** A quotient and remainder that fit are the quotient and remainder. */
  lemma DivMod(n: int, divisor: int, quotient: int, remainder: int)
    requires divisor in {4, 100, 400, 146_097} && n == divisor * quotient + remainder && 0 <= remainder < divisor
    ensures n / divisor == quotient && n % divisor == remainder
  {
  }

  lemma SplitEra(doe: int) returns (c: int, q: int, t: int, d: int)
    requires 0 <= doe < 146_097
    ensures InEra(c, q, t, d) && doe == DayOfEra(c, q, t, d)
  {
    c := if doe == 146_096 then 3 else doe / 36_524;
    var inCentury := doe - 36_524 * c;
    q := inCentury / 1461;
    var inCycle := inCentury - 1461 * q;
    t := if inCycle == 1460 then 3 else inCycle / 365;
    d := inCycle - 365 * t;
  }

  /** The leap-day corrections in the year formula cancel exactly. */
  lemma YearFormula(c: int, q: int, t: int, d: int)
    requires InEra(c, q, t, d)
    ensures var doe := DayOfEra(c, q, t, d);
            && 0 <= doe < 146_097
            && (doe - doe / 1460 + doe / 36_524 - doe / 146_096) / 365 == 100 * c + 4 * q + t
  {
    var doe := DayOfEra(c, q, t, d);
    var slack := 24 * c + q + 365 * t + d;
    assert doe == 1460 * (25 * c + q) + slack;
    assert doe / 1460 == 25 * c + q + slack / 1460;
    assert doe / 36_524 - doe / 146_096 == c;
    var leap := slack / 1460;
    assert 0 <= d - leap < 365;
    assert doe - doe / 1460 + doe / 36_524 - doe / 146_096 == 365 * (100 * c + 4 * q + t) + (d - leap);
  }

  lemma CivilIsMarchDate(era: int, c: int, q: int, t: int, d: int)
    requires InEra(c, q, t, d)
    ensures CivilFromEra(era, DayOfEra(c, q, t, d)) == MarchDate(MarchYear(era, c, q, t), d)
  {
    hide CivilFromEra, MarchDate;
    YearFormula(c, q, t, d);
    YearsOfEra(c, q, t);
    CivilOfYear(era, DayOfEra(c, q, t, d), 100 * c + 4 * q + t, d);
  }

  /** Once the year of the era and the day of that year are known, the rest is the March year's. */
  lemma CivilOfYear(era: int, doe: int, yoe: int, doy: int)
    requires (doe - doe / 1460 + doe / 36_524 - doe / 146_096) / 365 == yoe
    requires doe - (365 * yoe + yoe / 4 - yoe / 100) == doy && 0 <= doy <= 365
    ensures CivilFromEra(era, doe) == MarchDate(yoe + era * 400, doy)
  {
    MonthIndex(doy);
  }

  lemma YearsOfEra(c: int, q: int, t: int)
    requires InEra(c, q, t, 0)
    ensures var yoe := 100 * c + 4 * q + t; yoe / 4 == 25 * c + q && yoe / 100 == c
  {
  }

  /** Months of a March year are numbered from 0 to 11. */
  lemma MonthIndex(d: int)
    requires 0 <= d <= 365
    ensures 0 <= (5 * d + 2) / 153 <= 11
  {
  }

  /** Counting days of a March year follows the calendar, month by month and into the next year. */
  lemma MarchDateNext(y: int, d: int)
    requires 0 <= d <= if IsLeap(y + 1) then 365 else 364
    ensures ValidDate(MarchDate(y, d))
    ensures NextDay(MarchDate(y, d)) ==
            if d == (if IsLeap(y + 1) then 365 else 364) then MarchDate(y + 1, 0) else MarchDate(y, d + 1)
  {
    hide IsLeap;
  }

  lemma EraOf(days: int) returns (era: int, c: int, q: int, t: int, d: int)
    ensures InEra(c, q, t, d) && days + 719_468 == 146_097 * era + DayOfEra(c, q, t, d)
  {
    var z := days + 719_468;
    era := z / 146_097;
    c, q, t, d := SplitEra(z % 146_097);
  }

  lemma CivilOfEra(days: int, era: int, c: int, q: int, t: int, d: int)
    requires InEra(c, q, t, d) && days + 719_468 == 146_097 * era + DayOfEra(c, q, t, d)
    ensures CivilFromDays(days) == MarchDate(MarchYear(era, c, q, t), d)
  {
    hide CivilFromEra, MarchDate;
    YearFormula(c, q, t, d);
    DivMod(days + 719_468, 146_097, era, DayOfEra(c, q, t, d));
    CivilIsMarchDate(era, c, q, t, d);
  }

  lemma EraStart()
    ensures DayOfEra(0, 0, 0, 0) == 0
  {
  }

  lemma CivilOfNextEra(days: int, era: int)
    requires days + 719_468 == 146_097 * era + 146_096
    ensures CivilFromDays(days + 1) == MarchDate(400 * era + 400, 0)
  {
    hide CivilFromDays, MarchDate, DayOfEra;
    EraStart();
    CivilOfEra(days + 1, era + 1, 0, 0, 0, 0);
  }

  lemma CivilOfNextDay(days: int, era: int, c: int, q: int, t: int, d: int)
    requires InEra(c, q, t, d) && days + 719_468 == 146_097 * era + DayOfEra(c, q, t, d)
    ensures CivilFromDays(days + 1) ==
            var y := MarchYear(era, c, q, t);
            if d == LastDay(c, q, t) then MarchDate(y + 1, 0) else MarchDate(y, d + 1)
  {
    hide CivilFromDays, MarchDate;
    if d < LastDay(c, q, t) {
      CivilOfEra(days + 1, era, c, q, t, d + 1);
    } else if t < 3 {
      CivilOfEra(days + 1, era, c, q, t + 1, 0);
    } else if q < 24 {
      CivilOfEra(days + 1, era, c, q + 1, 0, 0);
    } else if c < 3 {
      CivilOfEra(days + 1, era, c + 1, 0, 0, 0);
    } else {
      CivilOfNextEra(days, era);
    }
  }

  /** Every day number gives a valid date, and the next day number gives the next date. */
  lemma CivilFollowsTheCalendar(days: int)
    ensures ValidDate(CivilFromDays(days))
    ensures CivilFromDays(days + 1) == NextDay(CivilFromDays(days))
  {
    hide CivilFromDays, MarchDate, IsLeap, ValidDate, NextDay;
    var era, c, q, t, d := EraOf(days);
    CivilOfEra(days, era, c, q, t, d);
    CivilOfNextDay(days, era, c, q, t, d);
    LastDayIsLeapDay(era, c, q, t);
    MarchDateNext(MarchYear(era, c, q, t), d);
  }

  // ----- The naive count of days, year by year and month by month from 1970.

  function YearLength(year: int): int {
    if IsLeap(year) then 366 else 365
  }

  function DaysBeforeYear(year: int): int
    decreases if year < 1970 then 1970 - year else year - 1970
  {
    if year == 1970 then 0
    else if year > 1970 then DaysBeforeYear(year - 1) + YearLength(year - 1)
    else DaysBeforeYear(year + 1) - YearLength(year)
  }

  function DaysBeforeMonth(year: int, month: int): int
    requires 1 <= month <= 12
  {
    if month == 1 then 0 else DaysBeforeMonth(year, month - 1) + MonthLength(year, month - 1)
  }

  function DaysFromCivil(date: Date): int
    requires ValidDate(date)
  {
    DaysBeforeYear(date.year) + DaysBeforeMonth(date.year, date.month) + date.day - 1
  }

  lemma MonthsFillTheYear(year: int)
    ensures DaysBeforeMonth(year, 12) + 31 == YearLength(year)
  {
    hide IsLeap;
    assert DaysBeforeMonth(year, 2) == 31;
    assert DaysBeforeMonth(year, 3) == 31 + MonthLength(year, 2);
    assert DaysBeforeMonth(year, 5) == DaysBeforeMonth(year, 3) + 61;
    assert DaysBeforeMonth(year, 7) == DaysBeforeMonth(year, 5) + 61;
    assert DaysBeforeMonth(year, 9) == DaysBeforeMonth(year, 7) + 62;
    assert DaysBeforeMonth(year, 11) == DaysBeforeMonth(year, 9) + 61;
  }

  lemma NaiveCountFollows(date: Date)
    requires ValidDate(date)
    ensures ValidDate(NextDay(date)) && DaysFromCivil(NextDay(date)) == DaysFromCivil(date) + 1
  {
    hide IsLeap;
    if date.month == 12 {
      MonthsFillTheYear(date.year);
    }
  }

  lemma DayZeroIsEpoch()
    ensures CivilFromDays(0) == EPOCH && ValidDate(EPOCH) && DaysFromCivil(EPOCH) == 0
  {
    hide CivilFromDays;
    CivilOfEra(0, 4, 3, 17, 1, 306);
  }

  /** The naive count undoes the conversion. */
  lemma {:induction false} DaysRoundTrip(days: int)
    ensures ValidDate(CivilFromDays(days)) && DaysFromCivil(CivilFromDays(days)) == days
    decreases if days < 0 then -days else days
  {
    hide CivilFromDays, ValidDate, NextDay, IsLeap;
    if days == 0 {
      DayZeroIsEpoch();
    } else if days > 0 {
      DaysRoundTrip(days - 1);
      CivilFollowsTheCalendar(days - 1);
      NaiveCountFollows(CivilFromDays(days - 1));
    } else {
      DaysRoundTrip(days + 1);
      CivilFollowsTheCalendar(days);
      NaiveCountFollows(CivilFromDays(days));
    }
  }

  function Before(date: Date): Date
    requires ValidDate(date)
  {
    if date.day > 1 then date.(day := date.day - 1)
    else if date.month > 1 then Date(date.year, date.month - 1, MonthLength(date.year, date.month - 1))
    else Date(date.year - 1, 12, 31)
  }

  lemma BeforeUndoesNext(date: Date)
    requires ValidDate(date)
    ensures ValidDate(NextDay(date)) && Before(NextDay(date)) == date
  {
  }

  lemma NextUndoesBefore(date: Date)
    requires ValidDate(date)
    ensures ValidDate(Before(date)) && NextDay(Before(date)) == date
  {
    hide IsLeap;
  }

  lemma {:induction false} YearsFromEpoch(year: int)
    ensures year > 1970 ==> DaysBeforeYear(year) > 0
    ensures year < 1970 ==> DaysBeforeYear(year) + YearLength(year) <= 0
    decreases if year < 1970 then 1970 - year else year - 1970
  {
    if year > 1970 {
      YearsFromEpoch(year - 1);
    } else if year < 1970 {
      YearsFromEpoch(year + 1);
    }
  }

  lemma {:induction false} MonthInsideYear(year: int, month: int)
    requires 1 <= month <= 12
    ensures DaysBeforeMonth(year, month) >= 28 * (month - 1)
    ensures DaysBeforeMonth(year, month) + MonthLength(year, month) <= YearLength(year)
    decreases 12 - month
  {
    hide IsLeap;
    if month == 12 {
      MonthsFillTheYear(year);
    } else {
      MonthInsideYear(year, month + 1);
    }
    MonthsAtLeast(year, month);
  }

  lemma {:induction false} MonthsAtLeast(year: int, month: int)
    requires 1 <= month <= 12
    ensures DaysBeforeMonth(year, month) >= 28 * (month - 1)
  {
    hide IsLeap;
    if month > 1 {
      MonthsAtLeast(year, month - 1);
    }
  }

  lemma OnlyEpochCountsZero(date: Date)
    requires ValidDate(date) && DaysFromCivil(date) == 0
    ensures date == EPOCH
  {
    hide IsLeap;
    YearsFromEpoch(date.year);
    MonthInsideYear(date.year, date.month);
  }

  /** The conversion undoes the naive count: together with `DaysRoundTrip`, a bijection onto the valid dates. */
  lemma {:induction false} DateRoundTrip(date: Date)
    requires ValidDate(date)
    ensures CivilFromDays(DaysFromCivil(date)) == date
    decreases if DaysFromCivil(date) < 0 then -DaysFromCivil(date) else DaysFromCivil(date)
  {
    hide ValidDate, NextDay, Before, DaysFromCivil, CivilFromDays;
    var days := DaysFromCivil(date);
    if days > 0 {
      var before := Before(date);
      NextUndoesBefore(date);
      NaiveCountFollows(before);
      DateRoundTrip(before);
      CivilFollowsTheCalendar(days - 1);
    } else if days < 0 {
      NaiveCountFollows(date);
      DateRoundTrip(NextDay(date));
      CivilFollowsTheCalendar(days);
      BeforeUndoesNext(CivilFromDays(days));
      BeforeUndoesNext(date);
    } else {
      OnlyEpochCountsZero(date);
      DaysRoundTrip(0);
      OnlyEpochCountsZero(CivilFromDays(0));
    }
  }
}
