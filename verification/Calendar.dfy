/**
 The timestamp of the battery health log: seconds since the epoch to
 `YYYY-MM-DDTHH:MM:SS`, by the closed civil-from-days formula.

 The reference it is proved against is a plain day count over the Gregorian
 calendar (leap rule of Appendix C of RFC 3339) and the day-by-day successor.
 */
module Calendar {
  import opened Prelude

  datatype Date = Date(year: int, month: int, day: int)
  datatype Stamp = Stamp(date: Date, hour: int, minute: int, second: int)

  // ---------------------------------------------------------------------
  // The code under study
  // ---------------------------------------------------------------------

  /** Year of the 400-year era, counted from March, of day `doe` of that era. */
  function YearOfEra(doe: int): int {
    (doe - doe / 1460 + doe / 36_524 - doe / 146_096) / 365
  }

  function DayOfYear(doe: int): int {
    var yoe := YearOfEra(doe);
    doe - (365 * yoe + yoe / 4 - yoe / 100)
  }

  function CivilFromDays(days: int): Date {
    var z := days + 719_468;
    CivilOfEra(z / 146_097, z % 146_097)
  }

  /** The date of day `doe` of era `era`. */
  function CivilOfEra(era: int, doe: int): Date {
    var yoe := YearOfEra(doe);
    var doy := DayOfYear(doe);
    var mp := (5 * doy + 2) / 153;
    var d := doy - (153 * mp + 2) / 5 + 1;
    var month := if mp < 10 then mp + 3 else mp - 9;
    var year := yoe + era * 400 + (if month <= 2 then 1 else 0);
    Date(year, month, d)
  }

  function StampOf(secs: int): Stamp {
    var days := secs / 86_400;
    var rem := secs % 86_400;
    Stamp(CivilFromDays(days), rem / 3600, (rem % 3600) / 60, rem % 60)
  }

  // ---------------------------------------------------------------------
  // The reference calendar
  // ---------------------------------------------------------------------

  predicate IsLeap(y: int) {
    y % 4 == 0 && (y % 100 != 0 || y % 400 == 0)
  }

  function MonthLength(y: int, m: int): int {
    if m == 2 then (if IsLeap(y) then 29 else 28)
    else if m == 4 || m == 6 || m == 9 || m == 11 then 30
    else 31
  }

  predicate ValidDate(d: Date) {
    1 <= d.month <= 12 && 1 <= d.day <= MonthLength(d.year, d.month)
  }

  predicate ValidStamp(t: Stamp) {
    ValidDate(t.date) && 0 <= t.hour < 24 && 0 <= t.minute < 60 && 0 <= t.second < 60
  }

  function NextDay(d: Date): Date {
    if d.day < MonthLength(d.year, d.month) then Date(d.year, d.month, d.day + 1)
    else if d.month < 12 then Date(d.year, d.month + 1, 1)
    else Date(d.year + 1, 1, 1)
  }

  /** Days from 0000-01-01 to the first of January of year `y`. */
  function DaysBeforeYear(y: int): int {
    365 * y + (y + 3) / 4 - (y + 99) / 100 + (y + 399) / 400
  }

  /** Days of year `y` before the first of month `m`. */
  function DaysBeforeMonth(y: int, m: int): int
    decreases m
  {
    if m <= 1 then 0 else DaysBeforeMonth(y, m - 1) + MonthLength(y, m - 1)
  }

  /** Days from 1970-01-01; 719528 days lie between 0000-01-01 and the epoch. */
  function DaysFromCivil(d: Date): int {
    DaysBeforeYear(d.year) + DaysBeforeMonth(d.year, d.month) + d.day - 1 - 719_528
  }

  function SecondsOf(t: Stamp): int {
    86_400 * DaysFromCivil(t.date) + 3600 * t.hour + 60 * t.minute + t.second
  }

  predicate DateBefore(a: Date, b: Date) {
    a.year < b.year
    || (a.year == b.year && (a.month < b.month || (a.month == b.month && a.day < b.day)))
  }

  predicate StampBefore(a: Stamp, b: Stamp) {
    DateBefore(a.date, b.date)
    || (a.date == b.date
        && (a.hour < b.hour
            || (a.hour == b.hour
                && (a.minute < b.minute || (a.minute == b.minute && a.second < b.second)))))
  }

  // ---------------------------------------------------------------------
  // The day count is the calendar
  // ---------------------------------------------------------------------

  /** A rounded-up quotient grows exactly when its numerator passes a multiple. */
  lemma CeilingStep(y: int, n: int)
    requires n >= 2
    ensures (y + n) / n - (y + n - 1) / n == (if y % n == 0 then 1 else 0)
  {
    var q, rest := y / n, y % n;
    assert y == n * q + rest;
    assert n * (q + 1) == n * q + n;
    DivisionIsUnique(y + n, n, q + 1, rest);
    if rest == 0 {
      DivisionIsUnique(y + n - 1, n, q, n - 1);
    } else {
      DivisionIsUnique(y + n - 1, n, q + 1, rest - 1);
    }
  }

  lemma MultipleOfMultiple(y: int, n: int, k: int)
    requires n > 0 && k > 0 && y % (n * k) == 0
    ensures y % n == 0
  {
    var q := y / (n * k);
    assert y == n * (k * q) by {
      assert y == (n * k) * q;
    }
    DivisionIsUnique(y, n, k * q, 0);
  }

  /** The closed year count grows by exactly the length of each year. */
  lemma YearLength(y: int)
    ensures DaysBeforeYear(y + 1) == DaysBeforeYear(y) + (if IsLeap(y) then 366 else 365)
  {
    CeilingStep(y, 4);
    CeilingStep(y, 100);
    CeilingStep(y, 400);
    if y % 400 == 0 {
      MultipleOfMultiple(y, 100, 4);
    }
    if y % 100 == 0 {
      MultipleOfMultiple(y, 4, 25);
    }
  }

  lemma {:induction false} YearsAreOrdered(y: int, k: nat)
    ensures DaysBeforeYear(y + k) >= DaysBeforeYear(y) + 365 * k
    decreases k
  {
    if k > 0 {
      YearsAreOrdered(y, k - 1);
      YearLength(y + k - 1);
    }
  }

  lemma MonthTable(y: int, m: int)
    requires 1 <= m <= 12
    ensures var leap := if IsLeap(y) then 1 else 0;
            DaysBeforeMonth(y, m)
            == [0, 31, 59 + leap, 90 + leap, 120 + leap, 151 + leap, 181 + leap,
                212 + leap, 243 + leap, 273 + leap, 304 + leap, 334 + leap][m - 1]
  {
    var leap := if IsLeap(y) then 1 else 0;
    assert DaysBeforeMonth(y, 1) == 0;
    assert DaysBeforeMonth(y, 2) == 31;
    assert DaysBeforeMonth(y, 3) == 59 + leap;
    assert DaysBeforeMonth(y, 4) == 90 + leap;
    assert DaysBeforeMonth(y, 5) == 120 + leap;
    assert DaysBeforeMonth(y, 6) == 151 + leap;
    assert DaysBeforeMonth(y, 7) == 181 + leap;
    assert DaysBeforeMonth(y, 8) == 212 + leap;
    assert DaysBeforeMonth(y, 9) == 243 + leap;
    assert DaysBeforeMonth(y, 10) == 273 + leap;
    assert DaysBeforeMonth(y, 11) == 304 + leap;
    assert DaysBeforeMonth(y, 12) == 334 + leap;
  }

  lemma {:induction false} MonthsAreOrdered(y: int, m: int, k: nat)
    requires 1 <= m && 1 <= k
    ensures DaysBeforeMonth(y, m + k) >= DaysBeforeMonth(y, m) + MonthLength(y, m)
    decreases k
  {
    if k > 1 {
      MonthsAreOrdered(y, m, k - 1);
    }
  }

  lemma DayOfYearRange(d: Date)
    requires ValidDate(d)
    ensures 0 <= DaysBeforeMonth(d.year, d.month) + d.day - 1 < (if IsLeap(d.year) then 366 else 365)
  {
    MonthTable(d.year, d.month);
  }

  lemma YearGap(y: int, z: int)
    requires y < z
    ensures DaysBeforeYear(z) >= DaysBeforeYear(y) + (if IsLeap(y) then 366 else 365)
  {
    YearLength(y);
    YearsAreOrdered(y + 1, z - y - 1);
  }

  lemma SameYearOrder(a: Date, b: Date)
    requires ValidDate(a) && ValidDate(b) && a.year == b.year && DateBefore(a, b)
    ensures DaysBeforeMonth(a.year, a.month) + a.day < DaysBeforeMonth(b.year, b.month) + b.day
  {
    if a.month < b.month {
      MonthsAreOrdered(a.year, a.month, b.month - a.month);
    }
  }

  /** Counting days respects the calendar order, so no two dates share a count. */
  lemma DayCountIsMonotone(a: Date, b: Date)
    requires ValidDate(a) && ValidDate(b) && DateBefore(a, b)
    ensures DaysFromCivil(a) < DaysFromCivil(b)
  {
    if a.year < b.year {
      DayOfYearRange(a);
      DayOfYearRange(b);
      YearGap(a.year, b.year);
    } else {
      SameYearOrder(a, b);
    }
  }

  lemma DayCountIsInjective(a: Date, b: Date)
    requires ValidDate(a) && ValidDate(b) && DaysFromCivil(a) == DaysFromCivil(b)
    ensures a == b
  {
    if DateBefore(a, b) {
      DayCountIsMonotone(a, b);
    } else if DateBefore(b, a) {
      DayCountIsMonotone(b, a);
    }
  }

  lemma DayCountOfNextDay(d: Date)
    requires ValidDate(d)
    ensures ValidDate(NextDay(d)) && DaysFromCivil(NextDay(d)) == DaysFromCivil(d) + 1
  {
    MonthTable(d.year, d.month);
    if d.month == 12 {
      YearLength(d.year);
    }
  }

  // ---------------------------------------------------------------------
  // The closed formula
  // ---------------------------------------------------------------------

  /** The last day of an era belongs to no century of its own. */
  lemma CenturyQuotients(doe: int, c: int, inCentury: int)
    requires 0 <= c <= 3 && doe == 36_524 * c + inCentury
    requires 0 <= inCentury <= (if c == 3 then 36_524 else 36_523)
    ensures doe / 36_524 - doe / 146_096 == c
  {
  }

  /**
   Day `doe` of an era is `c` centuries, `q` four-year cycles and `r` years of 365
   days in: the four-term correction recovers exactly those three counts.
   */
  lemma EraDigits(doe: int, c: int, q: int, rest: int, r: int)
    requires 0 <= c <= 3 && 0 <= q <= 24 && 0 <= rest <= 1460
    requires doe == 36_524 * c + 1461 * q + rest
    requires 0 <= r <= 3 && 365 * r <= rest && (r < 3 ==> rest < 365 * r + 365)
    requires q == 24 && c < 3 ==> rest < 1460
    ensures YearOfEra(doe) == 100 * c + 4 * q + r
    ensures DayOfYear(doe) == rest - 365 * r
  {
    var carry := if 24 * c + q + rest >= 1460 then 1 else 0;
    DivisionIsUnique(doe, 1460, 25 * c + q + carry, 24 * c + q + rest - 1460 * carry);
    CenturyQuotients(doe, c, 1461 * q + rest);
    var yoe := 100 * c + 4 * q + r;
    assert doe - doe / 1460 + c == 365 * yoe + (rest - carry - 365 * r);
    assert YearOfEra(doe) == yoe;
    DivisionIsUnique(yoe, 4, 25 * c + q, r);
    DivisionIsUnique(yoe, 100, c, 4 * q + r);
  }

  /** Centuries, four-year cycles and years of a day of the era. */
  lemma EraSplit(doe: int) returns (c: int, q: int, rest: int, r: int)
    requires 0 <= doe < 146_097
    ensures 0 <= c <= 3 && 0 <= q <= 24 && 0 <= rest <= 1460
    ensures doe == 36_524 * c + 1461 * q + rest
    ensures 0 <= r <= 3 && 365 * r <= rest && (r < 3 ==> rest < 365 * r + 365)
    ensures q == 24 && c < 3 ==> rest < 1460
  {
    c := Min(doe / 36_524, 3);
    q := Min((doe - 36_524 * c) / 1461, 24);
    rest := doe - 36_524 * c - 1461 * q;
    r := Min(rest / 365, 3);
  }

  /** The year that ends a four-year cycle is leap, but for three centuries of an era. */
  lemma LastYearOfCycle(c: int, q: int)
    requires 0 <= c <= 3 && 0 <= q <= 24
    ensures IsLeap(100 * c + 4 * q + 4) <==> q < 24 || c == 3
  {
    assert 100 * c + 4 * q + 4 == 4 * (25 * c + q + 1);
    if q == 24 {
      assert 100 * c + 4 * q + 4 == 100 * (c + 1);
    }
  }

  /** The day of the year is in range, and only a leap year has a 366th day. */
  lemma EraYear(doe: int)
    requires 0 <= doe < 146_097
    ensures 0 <= YearOfEra(doe) < 400
    ensures 0 <= DayOfYear(doe) <= (if IsLeap(YearOfEra(doe) + 1) then 365 else 364)
  {
    var c, q, rest, r := EraSplit(doe);
    EraDigits(doe, c, q, rest, r);
    LastYearOfCycle(c, q);
  }

  /** First day, counted from March, of month `mp` after March. */
  function MarchStart(mp: int): int {
    (153 * mp + 2) / 5
  }

  function MarchMonthOf(y: int, mp: int): (int, int) {
    if mp < 10 then (y, mp + 3) else (y + 1, mp - 9)
  }

  /** The linear month formula gives where each month starts. */
  lemma MarchMonths(y: int, mp: int)
    requires 0 <= mp < 12
    ensures var (year, month) := MarchMonthOf(y, mp);
            DaysBeforeYear(year) + DaysBeforeMonth(year, month) == DaysBeforeYear(y + 1) - 306 + MarchStart(mp)
  {
    YearLength(y);
    var (year, month) := MarchMonthOf(y, mp);
    MonthTable(year, month);
  }

  /** And so its length, but for February at the end. */
  lemma MarchLengths(y: int, mp: int)
    requires 0 <= mp < 12
    ensures var (year, month) := MarchMonthOf(y, mp);
            MonthLength(year, month)
            == if mp == 11 then (if IsLeap(y + 1) then 29 else 28) else MarchStart(mp + 1) - MarchStart(mp)
  {
  }

  lemma MarchIndex(doy: int)
    requires 0 <= doy <= 365
    ensures var mp := (5 * doy + 2) / 153;
            0 <= mp < 12 && MarchStart(mp) <= doy < MarchStart(mp + 1)
  {
  }

  /** A day of the March year falls into a month of the calendar. */
  lemma MarchMonth(y: int, doy: int)
    requires 0 <= doy <= (if IsLeap(y + 1) then 365 else 364)
    ensures var mp := (5 * doy + 2) / 153;
            var d := doy - (153 * mp + 2) / 5 + 1;
            var date := if mp < 10 then Date(y, mp + 3, d) else Date(y + 1, mp - 9, d);
            && 0 <= mp < 12
            && ValidDate(date)
            && DaysBeforeYear(date.year) + DaysBeforeMonth(date.year, date.month) + d - 1
               == DaysBeforeYear(y + 1) - 306 + doy
  {
    MarchIndex(doy);
    MarchMonths(y, (5 * doy + 2) / 153);
    MarchLengths(y, (5 * doy + 2) / 153);
  }

  lemma EraShift(y: int, era: int)
    ensures DaysBeforeYear(y + 400 * era) == DaysBeforeYear(y) + 146_097 * era
    ensures IsLeap(y + 400 * era) == IsLeap(y)
  {
    QuotientShift(y + 3, 4, 100 * era);
    QuotientShift(y + 99, 100, 4 * era);
    QuotientShift(y + 399, 400, era);
    QuotientShift(y, 4, 100 * era);
    QuotientShift(y, 100, 4 * era);
    QuotientShift(y, 400, era);
  }

  lemma YearsOfAnEra(yoe: int)
    requires 0 <= yoe < 400
    ensures DaysBeforeYear(yoe + 1) == 365 * yoe + 366 + yoe / 4 - yoe / 100
  {
  }

  /** Days before the March year `yoe` of era `era`, plus its day `doy`, are the days so far. */
  lemma EraDate(era: int, doe: int, yoe: int, doy: int)
    requires 0 <= doe < 146_097 && yoe == YearOfEra(doe) && doy == DayOfYear(doe)
    ensures 0 <= doy <= (if IsLeap(yoe + era * 400 + 1) then 365 else 364)
    ensures DaysBeforeYear(yoe + era * 400 + 1) - 306 + doy == 146_097 * era + doe + 60
  {
    assert doy == doe - (365 * yoe + yoe / 4 - yoe / 100);
    EraYear(doe);
    EraShift(yoe + 1, era);
    YearsOfAnEra(yoe);
    assert yoe + 1 + 400 * era == yoe + era * 400 + 1;
  }

  lemma EraRoundTrip(era: int, doe: int)
    requires 0 <= doe < 146_097
    ensures ValidDate(CivilOfEra(era, doe))
    ensures DaysFromCivil(CivilOfEra(era, doe)) == 146_097 * era + doe - 719_468
  {
    var yoe, doy := YearOfEra(doe), DayOfYear(doe);
    EraDate(era, doe, yoe, doy);
    DateOfMarchYear(yoe + era * 400, doy, CivilOfEra(era, doe));
  }

  /** Every day number becomes a valid date that counts back to the same day number. */
  lemma DaysRoundTrip(days: int)
    ensures ValidDate(CivilFromDays(days))
    ensures DaysFromCivil(CivilFromDays(days)) == days
  {
    var z := days + 719_468;
    EraRoundTrip(z / 146_097, z % 146_097);
  }

  /** A date built by the month formula from a March year and a day of it. */
  lemma DateOfMarchYear(y: int, doy: int, date: Date)
    requires 0 <= doy <= (if IsLeap(y + 1) then 365 else 364)
    requires var mp := (5 * doy + 2) / 153;
             date == Date(y + (if mp < 10 then 0 else 1), if mp < 10 then mp + 3 else mp - 9,
                          doy - (153 * mp + 2) / 5 + 1)
    ensures ValidDate(date) && DaysFromCivil(date) == DaysBeforeYear(y + 1) - 306 + doy - 719_528
  {
    MarchMonth(y, doy);
  }

  /** No other date has this day number. */
  lemma DateOfDay(days: int, d: Date)
    requires ValidDate(d) && DaysFromCivil(d) == days
    ensures CivilFromDays(days) == d
  {
    DaysRoundTrip(days);
    DayCountIsInjective(CivilFromDays(days), d);
  }

  /** The other direction: a valid date survives counting and converting back. */
  lemma DateRoundTrip(d: Date)
    requires ValidDate(d)
    ensures CivilFromDays(DaysFromCivil(d)) == d
  {
    DateOfDay(DaysFromCivil(d), d);
  }

  /** The closed formula walks the calendar: one day later is the next date. */
  lemma CivilFollowsTheCalendar(days: int)
    ensures CivilFromDays(days + 1) == NextDay(CivilFromDays(days))
  {
    DaysRoundTrip(days);
    DayCountOfNextDay(CivilFromDays(days));
    DateOfDay(days + 1, NextDay(CivilFromDays(days)));
  }

  lemma EpochIsDayZero()
    ensures CivilFromDays(0) == Date(1970, 1, 1)
  {
    var d := Date(1970, 1, 1);
    assert DaysFromCivil(d) == 0;
    DateRoundTrip(d);
  }

  lemma ClockDigits(rem: int)
    requires 0 <= rem < 86_400
    ensures rem == 3600 * (rem / 3600) + 60 * ((rem % 3600) / 60) + rem % 60
    ensures 0 <= rem / 3600 < 24 && 0 <= (rem % 3600) / 60 < 60 && 0 <= rem % 60 < 60
  {
    assert rem % 3600 == rem - 3600 * (rem / 3600);
    QuotientShift(rem - 3600 * (rem / 3600), 60, 60 * (rem / 3600));
  }

  lemma ClockFromDigits(h: int, m: int, s: int)
    requires 0 <= h < 24 && 0 <= m < 60 && 0 <= s < 60
    ensures var rem := 3600 * h + 60 * m + s;
            && 0 <= rem < 86_400
            && rem / 3600 == h && (rem % 3600) / 60 == m && rem % 60 == s
  {
    var rem := 3600 * h + 60 * m + s;
    DivisionIsUnique(rem, 3600, h, 60 * m + s);
    DivisionIsUnique(60 * m + s, 60, m, s);
    DivisionIsUnique(rem, 60, 60 * h + m, s);
  }

  /** Every second, negative ones included, is a valid time stamp that maps back to it. */
  lemma SecondsRoundTrip(secs: int)
    ensures ValidStamp(StampOf(secs)) && SecondsOf(StampOf(secs)) == secs
  {
    var days := secs / 86_400;
    DaysRoundTrip(days);
    ClockDigits(secs % 86_400);
  }

  lemma StampRoundTrip(t: Stamp)
    requires ValidStamp(t)
    ensures StampOf(SecondsOf(t)) == t
  {
    var ofDay := 3600 * t.hour + 60 * t.minute + t.second;
    var days := DaysFromCivil(t.date);
    ClockFromDigits(t.hour, t.minute, t.second);
    DivisionIsUnique(SecondsOf(t), 86_400, days, ofDay);
    DateRoundTrip(t.date);
  }

  /** Time order is stamp order, both ways. */
  lemma StampsAreMonotone(a: int, b: int)
    ensures a < b <==> StampBefore(StampOf(a), StampOf(b))
  {
    SecondsRoundTrip(a);
    SecondsRoundTrip(b);
    if a < b {
      StampOrder(StampOf(b), StampOf(a));
    }
    StampOrder(StampOf(a), StampOf(b));
  }

  lemma StampOrder(s: Stamp, t: Stamp)
    requires ValidStamp(s) && ValidStamp(t)
    ensures StampBefore(s, t) ==> SecondsOf(s) < SecondsOf(t)
    ensures StampBefore(s, t) || s == t || StampBefore(t, s)
  {
    if DateBefore(s.date, t.date) {
      DayCountIsMonotone(s.date, t.date);
    }
  }
}
