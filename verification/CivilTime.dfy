/**
 Civil time as section 21.4.1 of ECMA-262 defines it, on a server whose clock is
 a fixed offset from UTC.
 */
module CivilTime {
  /** Milliseconds since the epoch. */
  type Instant = int
  /** Days since 1970-01-01 of the local calendar. */
  type Day = int

  const MS_PER_DAY := 86_400_000
  const MS_PER_HOUR := 3_600_000
  /** Asia/Seoul. */
  const CLOCK_OFFSET := 32_400_000

  /** The local day of an instant, which is also what a `date` column keeps of it. */
  function DayOf(x: Instant): Day {
    (x + CLOCK_OFFSET) / MS_PER_DAY
  }

  /** The instant at which a local day begins. */
  function Midnight(d: Day): Instant {
    d * MS_PER_DAY - CLOCK_OFFSET
  }

  lemma DayOfInterval(x: Instant, d: Day)
    ensures DayOf(x) == d <==> Midnight(d) <= x < Midnight(d + 1)
  {
  }

  /** `getHours`. */
  function HourOf(x: Instant): (h: nat)
    ensures h < 24
  {
    (x + CLOCK_OFFSET) % MS_PER_DAY / MS_PER_HOUR
  }

  lemma HourOfInterval(x: Instant, d: Day, h: nat)
    requires DayOf(x) == d && h < 24
    ensures HourOf(x) == h <==> Midnight(d) + h * MS_PER_HOUR <= x < Midnight(d) + (h + 1) * MS_PER_HOUR
  {
    assert x + CLOCK_OFFSET == MS_PER_DAY * d + (x + CLOCK_OFFSET) % MS_PER_DAY;
  }

  /** The instant a date-only string denotes: midnight UTC. */
  function InstantOf(d: Day): Instant {
    d * MS_PER_DAY
  }

  /** Writing a day and reading it back keeps the day. */
  lemma DayRoundTrip(d: Day)
    ensures DayOf(InstantOf(d)) == d
  {
  }

  // ---------------------------------------------------------------------- years

  predicate IsLeap(y: int) {
    y % 4 == 0 && (y % 100 != 0 || y % 400 == 0)
  }

  function DaysInYear(y: int): nat {
    if IsLeap(y) then 366 else 365
  }

  /** The first day of a year, counted year by year from 1970. */
  function DayFromYear(y: int): Day
    decreases if y < 1970 then 1970 - y else y - 1970
  {
    if y == 1970 then 0
    else if y > 1970 then DayFromYear(y - 1) + DaysInYear(y - 1)
    else DayFromYear(y + 1) - DaysInYear(y)
  }

  lemma NextYear(y: int)
    ensures DayFromYear(y + 1) == DayFromYear(y) + DaysInYear(y)
  {
  }

  /** The closed form of ECMA-262 counts the same days. */
  lemma {:induction false} DayFromYearClosedForm(y: int)
    ensures DayFromYear(y) == 365 * (y - 1970) + (y - 1969) / 4 - (y - 1901) / 100 + (y - 1601) / 400
    decreases if y < 1970 then 1970 - y else y - 1970
  {
    if y > 1970 {
      DayFromYearClosedForm(y - 1);
      LeapDaysPassed(y - 1);
    } else if y < 1970 {
      DayFromYearClosedForm(y + 1);
      LeapDaysPassed(y);
    }
  }

  lemma FourthsPassed(y: int)
    ensures (y - 1968) / 4 == (y - 1969) / 4 + if y % 4 == 0 then 1 else 0
  {
  }

  lemma CenturiesPassed(y: int)
    ensures (y - 1900) / 100 == (y - 1901) / 100 + if y % 100 == 0 then 1 else 0
  {
  }

  lemma FourCenturiesPassed(y: int)
    ensures (y - 1600) / 400 == (y - 1601) / 400 + if y % 400 == 0 then 1 else 0
  {
  }

  lemma LeapRule(y: int)
    ensures y % 100 == 0 ==> y % 4 == 0
    ensures y % 400 == 0 ==> y % 100 == 0
  {
    if y % 100 == 0 { MultipleOf4(25 * (y / 100), y); }
    if y % 400 == 0 { MultipleOf100(4 * (y / 400), y); }
  }

  lemma MultipleOf4(k: int, y: int)
    requires y == 4 * k
    ensures y % 4 == 0
  {
  }

  lemma MultipleOf100(k: int, y: int)
    requires y == 100 * k
    ensures y % 100 == 0
  {
  }

  lemma LeapDaysPassed(y: int)
    ensures 365 + (y - 1968) / 4 - (y - 1900) / 100 + (y - 1600) / 400
         == DaysInYear(y) + (y - 1969) / 4 - (y - 1901) / 100 + (y - 1601) / 400
  {
    FourthsPassed(y);
    CenturiesPassed(y);
    FourCenturiesPassed(y);
    LeapRule(y);
  }

  lemma {:induction false} YearsInOrder(y: int, z: int)
    requires y <= z
    ensures DayFromYear(y) + 365 * (z - y) <= DayFromYear(z)
    decreases z - y
  {
    if y < z {
      NextYear(y);
      YearsInOrder(y + 1, z);
    }
  }

  /** `getFullYear` of the day: the year the day falls in. */
  function YearOf(d: Day): (y: int)
    ensures DayFromYear(y) <= d < DayFromYear(y + 1)
  {
    if d >= 0 then YearFrom(d, 1970) else YearsInOrder(1970 + d, 1970); YearFrom(d, 1970 + d)
  }

  function YearFrom(d: Day, from: int): (y: int)
    requires DayFromYear(from) <= d
    ensures DayFromYear(y) <= d < DayFromYear(y + 1)
    decreases d - DayFromYear(from)
  {
    if d < DayFromYear(from + 1) then from else NextYear(from); YearFrom(d, from + 1)
  }

  lemma YearUnique(d: Day, y: int)
    requires DayFromYear(y) <= d < DayFromYear(y + 1)
    ensures YearOf(d) == y
  {
    var z := YearOf(d);
    if y < z { YearsInOrder(y + 1, z); }
    if z < y { YearsInOrder(z + 1, y); }
  }

  // --------------------------------------------------------------------- months

  /** Months are counted from 0, as in ECMA-262. */
  function MonthLength(y: int, m: int): nat {
    if m == 1 then (if IsLeap(y) then 29 else 28)
    else if m == 3 || m == 5 || m == 8 || m == 10 then 30
    else 31
  }

  function DaysBefore(y: int, m: nat): nat {
    if m == 0 then 0 else DaysBefore(y, m - 1) + MonthLength(y, m - 1)
  }

  lemma TwelveMonths(y: int)
    ensures DaysBefore(y, 12) == DaysInYear(y)
  {
    assert DaysBefore(y, 1) == 31;
    assert DaysBefore(y, 2) == 31 + MonthLength(y, 1);
    assert DaysBefore(y, 3) == DaysBefore(y, 2) + 31;
    assert DaysBefore(y, 4) == DaysBefore(y, 3) + 30;
    assert DaysBefore(y, 5) == DaysBefore(y, 4) + 31;
    assert DaysBefore(y, 6) == DaysBefore(y, 5) + 30;
    assert DaysBefore(y, 7) == DaysBefore(y, 6) + 31;
    assert DaysBefore(y, 8) == DaysBefore(y, 7) + 31;
    assert DaysBefore(y, 9) == DaysBefore(y, 8) + 30;
    assert DaysBefore(y, 10) == DaysBefore(y, 9) + 31;
    assert DaysBefore(y, 11) == DaysBefore(y, 10) + 30;
  }

  /** `getMonth` of the day. */
  function MonthOf(d: Day): (m: nat)
    ensures m < 12
    ensures var y := YearOf(d);
            DayFromYear(y) + DaysBefore(y, m) <= d < DayFromYear(y) + DaysBefore(y, m + 1)
  {
    var y := YearOf(d);
    NextYear(y);
    TwelveMonths(y);
    MonthFrom(y, d - DayFromYear(y), 0)
  }

  function MonthFrom(y: int, r: nat, from: nat): (m: nat)
    requires from < 12 && DaysBefore(y, from) <= r < DaysBefore(y, 12)
    ensures m < 12 && DaysBefore(y, m) <= r < DaysBefore(y, m + 1)
    decreases 12 - from
  {
    if r < DaysBefore(y, from + 1) then from else MonthFrom(y, r, from + 1)
  }

  lemma {:induction false} MonthsInOrder(y: int, m: nat, n: nat)
    requires m <= n
    ensures DaysBefore(y, m) <= DaysBefore(y, n)
    decreases n - m
  {
    if m < n { MonthsInOrder(y, m, n - 1); }
  }

  /** `getDate` of the day, counted from 1. */
  function DateOf(d: Day): (n: nat)
    ensures 1 <= n <= MonthLength(YearOf(d), MonthOf(d))
  {
    var y := YearOf(d);
    assert DaysBefore(y, MonthOf(d) + 1) == DaysBefore(y, MonthOf(d)) + MonthLength(y, MonthOf(d));
    d - DayFromYear(y) - DaysBefore(y, MonthOf(d)) + 1
  }

  /** The first day of a month of the calendar. */
  function MonthStart(y: int, m: nat): Day {
    DayFromYear(y) + DaysBefore(y, m)
  }

  lemma MonthUnique(y: int, r: int, m: nat, n: nat)
    requires DaysBefore(y, m) <= r < DaysBefore(y, m + 1)
    requires DaysBefore(y, n) <= r < DaysBefore(y, n + 1)
    ensures m == n
  {
    if n < m { MonthsInOrder(y, n + 1, m); }
    if m < n { MonthsInOrder(y, m + 1, n); }
  }

  lemma YearHoldsMonth(y: int, m: nat)
    requires m < 12
    ensures DayFromYear(y) <= MonthStart(y, m)
    ensures MonthStart(y, m) + MonthLength(y, m) <= DayFromYear(y + 1)
  {
    assert DaysBefore(y, m + 1) == DaysBefore(y, m) + MonthLength(y, m);
    MonthsInOrder(y, m + 1, 12);
    MonthsInOrder(y, 0, m);
    TwelveMonths(y);
    NextYear(y);
  }

  /** Year, month and date put together are what is read back, for every date of the calendar. */
  lemma DatePartsRoundTrip(y: int, m: nat, date: nat)
    requires m < 12 && 1 <= date <= MonthLength(y, m)
    ensures var d := MonthStart(y, m) + date - 1; YearOf(d) == y && MonthOf(d) == m && DateOf(d) == date
  {
    hide DayFromYear, YearOf, MonthOf, MonthLength;
    var d := MonthStart(y, m) + date - 1;
    YearHoldsMonth(y, m);
    YearUnique(d, y);
    DaysBeforeNext(y, m);
    MonthUnique(y, d - DayFromYear(y), m, MonthOf(d));
  }

  lemma DaysBeforeNext(y: int, m: nat)
    ensures DaysBefore(y, m + 1) == DaysBefore(y, m) + MonthLength(y, m)
  {
  }

  /** Taking a day apart and putting it together again gives the day. */
  lemma DayPartsRoundTrip(d: Day)
    ensures MonthStart(YearOf(d), MonthOf(d)) + DateOf(d) - 1 == d
  {
  }

  lemma InOwnMonth(d: Day)
    ensures var first := MonthStart(YearOf(d), MonthOf(d));
            first <= d < first + MonthLength(YearOf(d), MonthOf(d))
  {
    DayPartsRoundTrip(d);
  }

  lemma DaysOfMonth(y: int, m: nat, d: Day)
    requires m < 12 && MonthStart(y, m) <= d < MonthStart(y, m) + MonthLength(y, m)
    ensures YearOf(d) == y && MonthOf(d) == m && DateOf(d) == d - MonthStart(y, m) + 1
  {
    DatePartsRoundTrip(y, m, d - MonthStart(y, m) + 1);
  }

  /** MakeDay: months outside 0..11 run into the neighbouring years, dates into the neighbouring months. */
  function MakeDay(y: int, m: int, date: int): Day {
    MonthStart(y + m / 12, m % 12) + date - 1
  }

  /** The table of ECMA-262, DayWithinYear: where the twelve months begin. */
  lemma MonthTable(y: int)
    ensures var leap := if IsLeap(y) then 1 else 0;
            && DaysBefore(y, 0) == 0 && DaysBefore(y, 1) == 31 && DaysBefore(y, 2) == 59 + leap
            && DaysBefore(y, 3) == 90 + leap && DaysBefore(y, 4) == 120 + leap && DaysBefore(y, 5) == 151 + leap
            && DaysBefore(y, 6) == 181 + leap && DaysBefore(y, 7) == 212 + leap && DaysBefore(y, 8) == 243 + leap
            && DaysBefore(y, 9) == 273 + leap && DaysBefore(y, 10) == 304 + leap && DaysBefore(y, 11) == 334 + leap
            && DaysBefore(y, 12) == 365 + leap
  {
    FirstMonths(y);
    hide MonthLength;
    DaysBeforeNext(y, 6);
    DaysBeforeNext(y, 7);
    DaysBeforeNext(y, 8);
    DaysBeforeNext(y, 9);
    DaysBeforeNext(y, 10);
    DaysBeforeNext(y, 11);
  }

  lemma FirstMonths(y: int)
    ensures var leap := if IsLeap(y) then 1 else 0;
            && DaysBefore(y, 1) == 31 && DaysBefore(y, 2) == 59 + leap && DaysBefore(y, 3) == 90 + leap
            && DaysBefore(y, 4) == 120 + leap && DaysBefore(y, 5) == 151 + leap && DaysBefore(y, 6) == 181 + leap
    ensures MonthLength(y, 6) == 31 && MonthLength(y, 7) == 31 && MonthLength(y, 8) == 30
    ensures MonthLength(y, 9) == 31 && MonthLength(y, 10) == 30 && MonthLength(y, 11) == 31
  {
    DaysBeforeNext(y, 0);
    DaysBeforeNext(y, 1);
    DaysBeforeNext(y, 2);
    DaysBeforeNext(y, 3);
    DaysBeforeNext(y, 4);
    DaysBeforeNext(y, 5);
  }

  /**
   A date as one formula, with no table and no case on leap years: years begin in
   March, so that month `m` of them begins on day (153 * m + 2) / 5.
   */
  lemma MakeDayClosedForm(y: int, m: int, date: int)
    ensures var a, n := y + (m - 2) / 12, (m - 2) % 12;
            MakeDay(y, m, date) == 365 * a + a / 4 - a / 100 + a / 400 + (153 * n + 2) / 5 + date - 719469
  {
    hide DayFromYear, DaysBefore;
    var z, k := y + m / 12, m % 12;
    MonthTable(z);
    DayFromYearClosedForm(z);
    if k >= 2 {
      MarchYear(m, k);
      LeapDaysToMarch(z);
    } else {
      MarchYear(m, k);
      LeapDaysToMarch(z - 1);
      NextYear(z - 1);
      DayFromYearClosedForm(z - 1);
    }
  }

  lemma MarchYear(m: int, k: int)
    requires k == m % 12
    ensures if k >= 2 then (m - 2) / 12 == m / 12 && (m - 2) % 12 == k - 2
            else (m - 2) / 12 == m / 12 - 1 && (m - 2) % 12 == k + 10
  {
  }

  /** The days from the March that begins the count to the first of March of `y`. */
  lemma LeapDaysToMarch(y: int)
    ensures DayFromYear(y) + 59 + (if IsLeap(y) then 1 else 0)
         == 365 * y + y / 4 - y / 100 + y / 400 - 719468
  {
    DayFromYearClosedForm(y);
    LeapRule(y);
    LeapQuotients(y);
  }

  lemma LeapQuotients(y: int)
    ensures (y - 1969) / 4 + 493 == y / 4 + if y % 4 == 0 then 0 else 1
    ensures (y - 1901) / 100 + 20 == y / 100 + if y % 100 == 0 then 0 else 1
    ensures (y - 1601) / 400 + 5 == y / 400 + if y % 400 == 0 then 0 else 1
  {
  }

  lemma NextMonthStart(y: int, m: nat)
    requires m < 12
    ensures MonthStart(y, m) + MonthLength(y, m) == if m == 11 then MonthStart(y + 1, 0) else MonthStart(y, m + 1)
  {
    assert DaysBefore(y, m + 1) == DaysBefore(y, m) + MonthLength(y, m);
    if m == 11 {
      TwelveMonths(y);
      NextYear(y);
    }
  }

  /** The first of the next month is one month length later, across year ends too. */
  lemma NextMonth(y: int, m: int)
    ensures MakeDay(y, m + 1, 1) == MakeDay(y, m, 1) + MonthLength(y + m / 12, m % 12)
  {
    MonthSuccessor(m);
    NextMonthStart(y + m / 12, m % 12);
  }

  lemma MonthSuccessor(m: int)
    ensures m % 12 == 11 ==> (m + 1) / 12 == m / 12 + 1 && (m + 1) % 12 == 0
    ensures m % 12 != 11 ==> (m + 1) / 12 == m / 12 && (m + 1) % 12 == m % 12 + 1
  {
  }

  // ---------------------------------------------------------- the Date constructor

  /** Years 0 to 99 mean the twentieth century. */
  function FullYear(y: int): int {
    if 0 <= y <= 99 then 1900 + y else y
  }

  /** `new Date(y, m, date)`: local midnight. */
  function NewDate(y: int, m: int, date: int): Instant {
    Midnight(MakeDay(FullYear(y), m, date))
  }

  /** A year of two digits is one of the twentieth century, and a longer one is itself. */
  lemma TwoDigitYears(y: int, m: int, date: int)
    ensures 0 <= y <= 99 ==> NewDate(y, m, date) == NewDate(1900 + y, m, date)
    ensures y < 0 || y > 99 ==> NewDate(y, m, date) == Midnight(MakeDay(y, m, date))
  {
    hide MakeDay;
  }

  /** On that clock 2024 began at 15:00 UTC of the day before. */
  lemma NewYear2024()
    ensures NewDate(2024, 0, 1) == 1_704_034_800_000
  {
    MakeDayClosedForm(2024, 0, 1);
    hide MakeDay;
  }
}
