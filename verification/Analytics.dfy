/**
 The analytics query of issues, calendar events, messages, documents and
 projects: rows counted per hour of a day, day of a month or month of a year.
 */
module Analytics {
  import opened Common
  import opened CivilTime

  /** The `date` argument once `new Date(date + 'T00:00:00')` has read it. */
  datatype DateArg = Malformed | Date(day: Day)

  /** In `Daily` and `Monthly` a number that does not parse counts as 0: both fail the same test. */
  datatype Query =
    | Hourly(date: Option<DateArg>)
    | Daily(month: Option<(int, int)>)
    | Monthly(year: Option<int>)

  datatype Plan = Plan(start: Instant, end: Instant, buckets: nat)

  predicate Accepted(q: Query) {
    match q
    case Hourly(date) => date.Some? && date.value.Date?
    case Daily(month) => month.Some? && month.value.0 != 0 && month.value.1 != 0
    case Monthly(year) => year.Some? && year.value != 0
  }

  /** The interval and the number of counters, computed with the Date constructor. */
  function PlanOf(q: Query): Plan
    requires Accepted(q)
  {
    match q
    case Hourly(date) =>
      var d := date.value.day;
      Plan(NewDate(YearOf(d), MonthOf(d), DateOf(d)), NewDate(YearOf(d), MonthOf(d), DateOf(d) + 1), 24)
    case Daily(month) =>
      var (y, m) := month.value;
      Plan(NewDate(y, m - 1, 1), NewDate(y, m, 1), DateOf(DayOf(NewDate(y, m, 0))))
    case Monthly(year) =>
      Plan(NewDate(year.value, 0, 1), NewDate(year.value + 1, 0, 1), 12)
  }

  /** The counter a row goes to. */
  function BucketOf(q: Query, x: Instant): nat {
    match q
    case Hourly(_) => HourOf(x)
    case Daily(_) => DateOf(DayOf(x)) - 1
    case Monthly(_) => MonthOf(DayOf(x))
  }

  lemma DayOfMidnight(d: Day)
    ensures DayOf(Midnight(d)) == d
  {
  }

  /** `new Date(y, m, 0)` is the last day of the month before: its date is the month's length. */
  lemma LastDayOfMonth(y: int, m: int)
    ensures DateOf(DayOf(NewDate(y, m, 0)))
         == MonthLength(FullYear(y) + (m - 1) / 12, (m - 1) % 12)
  {
    var z := FullYear(y);
    var len := MonthLength(z + (m - 1) / 12, (m - 1) % 12);
    NextMonth(z, m - 1);
    DayOfMidnight(MakeDay(z, m, 0));
    assert MakeDay(z, m, 0) == MakeDay(z, m - 1, 1) + len - 1;
    DaysOfMonth(z + (m - 1) / 12, (m - 1) % 12, MakeDay(z, m, 0));
  }

  lemma DayBetween(x: Instant, d: Day, e: Day)
    ensures Midnight(d) <= x < Midnight(e) <==> d <= DayOf(x) < e
  {
    DayOfInterval(x, DayOf(x));
  }

  /** Days between the two firsts of a daily query are days of its month. */
  lemma DailyDay(y: int, m: int, x: Instant)
    requires NewDate(y, m - 1, 1) <= x < NewDate(y, m, 1)
    ensures DateOf(DayOf(x)) - 1 == DayOf(x) - MakeDay(FullYear(y), m - 1, 1)
    ensures DateOf(DayOf(x)) <= DateOf(DayOf(NewDate(y, m, 0)))
  {
    var z := FullYear(y);
    DayBetween(x, MakeDay(z, m - 1, 1), MakeDay(z, m, 1));
    NextMonth(z, m - 1);
    LastDayOfMonth(y, m);
    DaysOfMonth(z + (m - 1) / 12, (m - 1) % 12, DayOf(x));
  }

  /** No counter index is out of range. */
  lemma BucketInRange(q: Query, x: Instant)
    requires Accepted(q) && PlanOf(q).start <= x < PlanOf(q).end
    ensures BucketOf(q, x) < PlanOf(q).buckets
  {
    if q.Daily? { DailyDay(q.month.value.0, q.month.value.1, x); }
  }

  lemma RowsFit(q: Query)
    requires Accepted(q)
    ensures forall x | Within(x, PlanOf(q).start, PlanOf(q).end) :: BucketOf(q, x) < PlanOf(q).buckets
  {
    forall x | Within(x, PlanOf(q).start, PlanOf(q).end) ensures BucketOf(q, x) < PlanOf(q).buckets {
      BucketInRange(q, x);
    }
  }

  // -------------------------------------------------------------------- counting

  predicate Within(x: Instant, start: Instant, end: Instant) {
    start <= x < end
  }

  /** The rows created in [start, end). */
  function CountWithin(rows: seq<Instant>, start: Instant, end: Instant): nat {
    if rows == [] then 0
    else CountWithin(rows[..|rows| - 1], start, end) + if Within(rows[|rows| - 1], start, end) then 1 else 0
  }

  /** A row of the plan's interval that goes to counter `k`. */
  predicate Hits(q: Query, plan: Plan, x: Instant, k: nat) {
    Within(x, plan.start, plan.end) && BucketOf(q, x) == k
  }

  /** The rows that go to counter `k`. */
  function CountBucket(q: Query, plan: Plan, rows: seq<Instant>, k: nat): nat {
    if rows == [] then 0
    else CountBucket(q, plan, rows[..|rows| - 1], k) + if Hits(q, plan, rows[|rows| - 1], k) then 1 else 0
  }

  lemma CountBucketSnoc(q: Query, plan: Plan, rows: seq<Instant>, i: nat, k: nat)
    requires i < |rows|
    ensures CountBucket(q, plan, rows[..i + 1], k)
         == CountBucket(q, plan, rows[..i], k) + if Hits(q, plan, rows[i], k) then 1 else 0
  {
    assert rows[..i + 1][..i] == rows[..i];
  }

  /** `rows.forEach(...)` over the rows the database selects. */
  method CountRows(q: Query, plan: Plan, rows: seq<Instant>) returns (counters: seq<nat>)
    requires forall x | Within(x, plan.start, plan.end) :: BucketOf(q, x) < plan.buckets
    ensures |counters| == plan.buckets
    ensures forall k | 0 <= k < plan.buckets :: counters[k] == CountBucket(q, plan, rows, k)
  {
    var counts := new nat[plan.buckets](_ => 0);
    for i := 0 to |rows|
      invariant forall k | 0 <= k < plan.buckets :: counts[k] == CountBucket(q, plan, rows[..i], k)
    {
      var dt := rows[i];
      forall k | 0 <= k < plan.buckets
        ensures CountBucket(q, plan, rows[..i + 1], k)
             == CountBucket(q, plan, rows[..i], k) + if Hits(q, plan, dt, k) then 1 else 0
      {
        CountBucketSnoc(q, plan, rows, i, k);
      }
      if Within(dt, plan.start, plan.end) {
        var b := BucketOf(q, dt);
        counts[b] := counts[b] + 1;
      }
    }
    assert rows[..|rows|] == rows;
    return counts[..];
  }

  /** The first `n` counters together. */
  ghost function CountersBelow(q: Query, plan: Plan, rows: seq<Instant>, n: nat): nat {
    if n == 0 then 0 else CountersBelow(q, plan, rows, n - 1) + CountBucket(q, plan, rows, n - 1)
  }

  ghost function Total(q: Query, rows: seq<Instant>): nat
    requires Accepted(q)
  {
    CountersBelow(q, PlanOf(q), rows, PlanOf(q).buckets)
  }

  lemma {:induction false} CountersSnoc(q: Query, plan: Plan, rows: seq<Instant>, n: nat)
    requires rows != []
    ensures var x := rows[|rows| - 1];
            CountersBelow(q, plan, rows, n) == CountersBelow(q, plan, rows[..|rows| - 1], n)
              + if Within(x, plan.start, plan.end) && BucketOf(q, x) < n then 1 else 0
  {
    if n > 0 { CountersSnoc(q, plan, rows, n - 1); }
  }

  lemma {:induction false} NoRowsNoCounts(q: Query, plan: Plan, n: nat)
    ensures CountersBelow(q, plan, [], n) == 0
  {
    if n > 0 { NoRowsNoCounts(q, plan, n - 1); }
  }

  /** The counters of every accepted query sum to the rows in its interval. */
  lemma CountersSumToRows(q: Query, rows: seq<Instant>)
    requires Accepted(q)
    ensures Total(q, rows) == CountWithin(rows, PlanOf(q).start, PlanOf(q).end)
  {
    SumToRows(q, PlanOf(q), rows);
  }

  lemma {:induction false} SumToRows(q: Query, plan: Plan, rows: seq<Instant>)
    requires Accepted(q) && plan == PlanOf(q)
    ensures CountersBelow(q, plan, rows, plan.buckets) == CountWithin(rows, plan.start, plan.end)
  {
    if rows == [] {
      NoRowsNoCounts(q, plan, plan.buckets);
    } else {
      var x := rows[|rows| - 1];
      CountersSnoc(q, plan, rows, plan.buckets);
      SumToRows(q, plan, rows[..|rows| - 1]);
      if Within(x, plan.start, plan.end) { BucketInRange(q, x); }
    }
  }

  // ------------------------------------------------------------------ drill-down

  lemma {:induction false} SameRowsSameCount(q: Query, plan: Plan, rows: seq<Instant>, k: nat,
                                             start: Instant, end: Instant)
    requires forall x :: Within(x, start, end) <==> Hits(q, plan, x, k)
    ensures CountBucket(q, plan, rows, k) == CountWithin(rows, start, end)
  {
    if rows != [] {
      SameRowsSameCount(q, plan, rows[..|rows| - 1], k, start, end);
      assert Within(rows[|rows| - 1], start, end) <==> Hits(q, plan, rows[|rows| - 1], k);
    }
  }

  /** The rows that an hourly query counts in hour `k` are those of that hour of its day. */
  lemma HourlyRow(d: Day, k: nat, x: Instant)
    requires k < 24
    ensures Within(x, Midnight(d) + k * MS_PER_HOUR, Midnight(d) + (k + 1) * MS_PER_HOUR) <==>
              Within(x, Midnight(d), Midnight(d + 1)) && HourOf(x) == k
  {
    DayOfInterval(x, d);
    if DayOf(x) == d { HourOfInterval(x, d, k); }
  }

  /** Counter `k` of an hourly query counts the rows of hour `k` of its day. */
  lemma {:induction false} HourlyCounter(d: Day, rows: seq<Instant>, k: nat)
    requires k < 24
    ensures var q, first := Hourly(Some(Date(d))), MakeDay(FullYear(YearOf(d)), MonthOf(d), DateOf(d));
            CountBucket(q, PlanOf(q), rows, k)
              == CountWithin(rows, Midnight(first) + k * MS_PER_HOUR, Midnight(first) + (k + 1) * MS_PER_HOUR)
    ensures YearOf(d) < 0 || YearOf(d) > 99 ==> MakeDay(FullYear(YearOf(d)), MonthOf(d), DateOf(d)) == d
  {
    hide CountBucket, CountWithin, YearOf, MonthOf, DateOf;
    var q, first := Hourly(Some(Date(d))), MakeDay(FullYear(YearOf(d)), MonthOf(d), DateOf(d));
    assert PlanOf(q).start == Midnight(first) && PlanOf(q).end == Midnight(first + 1);
    forall x ensures Within(x, Midnight(first) + k * MS_PER_HOUR, Midnight(first) + (k + 1) * MS_PER_HOUR)
                     <==> Hits(q, PlanOf(q), x, k) {
      HourlyRow(first, k, x);
    }
    SameRowsSameCount(q, PlanOf(q), rows, k,
                      Midnight(first) + k * MS_PER_HOUR, Midnight(first) + (k + 1) * MS_PER_HOUR);
    DayPartsRoundTrip(d);
  }

  /** The rows that a daily query counts on day `k` are those of that day. */
  lemma DailyRow(y: int, m: int, k: nat, x: Instant)
    requires k < DateOf(DayOf(NewDate(y, m, 0)))
    ensures var first := MakeDay(FullYear(y), m - 1, 1);
            Within(x, Midnight(first + k), Midnight(first + k + 1)) <==>
              Within(x, NewDate(y, m - 1, 1), NewDate(y, m, 1)) && DateOf(DayOf(x)) - 1 == k
  {
    var first, next := MakeDay(FullYear(y), m - 1, 1), MakeDay(FullYear(y), m, 1);
    LastDayOfMonth(y, m);
    NextMonth(FullYear(y), m - 1);
    DayBetween(x, first + k, first + k + 1);
    DayBetween(x, first, next);
    if Within(x, NewDate(y, m - 1, 1), NewDate(y, m, 1)) { DailyDay(y, m, x); }
  }

  /** Counter `k` of a daily query counts the rows of day `k` of its month. */
  lemma DailyCounter(y: int, m: int, rows: seq<Instant>, k: nat)
    requires y != 0 && m != 0 && k < PlanOf(Daily(Some((y, m)))).buckets
    ensures var q, first := Daily(Some((y, m))), MakeDay(FullYear(y), m - 1, 1);
            CountBucket(q, PlanOf(q), rows, k) == CountWithin(rows, Midnight(first + k), Midnight(first + k + 1))
  {
    hide MakeDay, CountBucket, CountWithin, FullYear, DateOf, DayOf;
    var q, first := Daily(Some((y, m))), MakeDay(FullYear(y), m - 1, 1);
    forall x ensures Within(x, Midnight(first + k), Midnight(first + k + 1)) <==> Hits(q, PlanOf(q), x, k) {
      DailyRow(y, m, k, x);
    }
    SameRowsSameCount(q, PlanOf(q), rows, k, Midnight(first + k), Midnight(first + k + 1));
  }

  /** The years 1 to 99 have the leap years of the twentieth century they stand for. */
  lemma FullYearKeepsMonths(y: int, m: nat)
    requires y != 0
    ensures MonthLength(FullYear(y), m) == MonthLength(y, m)
  {
    if 1 <= y <= 99 {
      assert (1900 + y) % 4 == y % 4 && (1900 + y) % 100 == y % 100;
    }
  }

  lemma DayInItsPlan(d: Day)
    requires YearOf(d) != 0
    ensures var q := Daily(Some((YearOf(d), MonthOf(d) + 1)));
            && DateOf(d) - 1 < PlanOf(q).buckets
            && PlanOf(Hourly(Some(Date(d)))).start
               == Midnight(MakeDay(FullYear(YearOf(d)), MonthOf(d), 1) + DateOf(d) - 1)
            && PlanOf(Hourly(Some(Date(d)))).end
               == Midnight(MakeDay(FullYear(YearOf(d)), MonthOf(d), 1) + DateOf(d))
  {
    LastDayOfMonth(YearOf(d), MonthOf(d) + 1);
    FullYearKeepsMonths(YearOf(d), MonthOf(d));
    assert (MonthOf(d) + 1 - 1) / 12 == 0 && (MonthOf(d) + 1 - 1) % 12 == MonthOf(d);
  }

  /** The 24 hourly counts of a day sum to that day's counter in the daily query of its month. */
  lemma HoursSumToDay(d: Day, rows: seq<Instant>)
    requires YearOf(d) != 0
    ensures var hours, days := Hourly(Some(Date(d))), Daily(Some((YearOf(d), MonthOf(d) + 1)));
            Total(hours, rows) == CountBucket(days, PlanOf(days), rows, DateOf(d) - 1)
  {
    hide NewDate, MakeDay, CountBucket, CountWithin, YearOf, MonthOf, DateOf, FullYear;
    DayInItsPlan(d);
    CountersSumToRows(Hourly(Some(Date(d))), rows);
    DailyCounter(YearOf(d), MonthOf(d) + 1, rows, DateOf(d) - 1);
  }

  /** A monthly query covers one calendar year exactly when the century rule does not split its ends. */
  lemma MonthlyCoversOneYear(y: int)
    requires y != 0
    ensures PlanOf(Monthly(Some(y))).end == NewDate(y, 12, 1) <==> y != -1 && y != 99
  {
    var z, w := FullYear(y), FullYear(y + 1);
    assert MakeDay(z, 12, 1) == DayFromYear(z + 1) by { assert 12 / 12 == 1 && 12 % 12 == 0; }
    assert MakeDay(w, 0, 1) == DayFromYear(w);
    if z + 1 < w { YearsInOrder(z + 1, w); }
    if w < z + 1 { YearsInOrder(w, z + 1); }
  }

  lemma FirstsInOrder(y: int, m: nat, n: nat)
    requires m <= n
    ensures MakeDay(y, m, 1) <= MakeDay(y, n, 1)
    decreases n - m
  {
    if m < n {
      NextMonth(y, m);
      FirstsInOrder(y, m + 1, n);
    }
  }

  /** Counter `k` of a monthly query counts the rows of month `k`. */
  lemma MonthlyCounter(y: int, rows: seq<Instant>, k: nat)
    requires y != 0 && y != -1 && y != 99 && k < 12
    ensures var q := Monthly(Some(y));
            CountBucket(q, PlanOf(q), rows, k) == CountWithin(rows, NewDate(y, k, 1), NewDate(y, k + 1, 1))
  {
    var q := Monthly(Some(y));
    MonthlyCoversOneYear(y);
    forall x ensures Within(x, NewDate(y, k, 1), NewDate(y, k + 1, 1)) <==> Hits(q, PlanOf(q), x, k) {
      MonthlyRow(y, k, x);
    }
    SameRowsSameCount(q, PlanOf(q), rows, k, NewDate(y, k, 1), NewDate(y, k + 1, 1));
  }

  lemma MonthlyRow(y: int, k: nat, x: Instant)
    requires k < 12
    ensures Within(x, NewDate(y, k, 1), NewDate(y, k + 1, 1)) <==>
              Within(x, NewDate(y, 0, 1), NewDate(y, 12, 1)) && MonthOf(DayOf(x)) == k
  {
    var z := FullYear(y);
    DayBetween(x, MakeDay(z, k, 1), MakeDay(z, k + 1, 1));
    DayBetween(x, MakeDay(z, 0, 1), MakeDay(z, 12, 1));
    MonthInYear(z, k, DayOf(x));
  }

  lemma MonthInYear(z: int, k: nat, d: Day)
    requires k < 12
    ensures MakeDay(z, k, 1) <= d < MakeDay(z, k + 1, 1) <==>
              MakeDay(z, 0, 1) <= d < MakeDay(z, 12, 1) && MonthOf(d) == k
  {
    if MakeDay(z, k, 1) <= d < MakeDay(z, k + 1, 1) {
      MonthDays(z, k, d);
      FirstsInOrder(z, 0, k);
      FirstsInOrder(z, k + 1, 12);
    }
    if MakeDay(z, 0, 1) <= d < MakeDay(z, 12, 1) && MonthOf(d) == k { MonthOfYearDay(z, k, d); }
  }

  lemma MonthOfYearDay(z: int, k: nat, d: Day)
    requires k < 12 && MakeDay(z, 0, 1) <= d < MakeDay(z, 12, 1) && MonthOf(d) == k
    ensures MakeDay(z, k, 1) <= d < MakeDay(z, k + 1, 1)
  {
    MonthEnds(z, 0);
    MonthEnds(z, 11);
    NextMonthStart(z, 11);
    YearUnique(d, z);
    InOwnMonth(d);
    MonthEnds(z, k);
  }

  lemma MonthEnds(z: int, k: nat)
    requires k < 12
    ensures MakeDay(z, k, 1) == MonthStart(z, k)
    ensures MakeDay(z, k + 1, 1) == MonthStart(z, k) + MonthLength(z, k)
  {
    NextMonth(z, k);
    assert k / 12 == 0 && k % 12 == k;
  }

  lemma MonthDays(z: int, k: nat, d: Day)
    requires k < 12 && MakeDay(z, k, 1) <= d < MakeDay(z, k + 1, 1)
    ensures YearOf(d) == z && MonthOf(d) == k
  {
    MonthEnds(z, k);
    DaysOfMonth(z, k, d);
  }

  /** A month's daily counts sum to its monthly counter. */
  lemma DaysSumToMonth(y: int, m: nat, rows: seq<Instant>)
    requires y != 0 && y != -1 && y != 99 && 1 <= m <= 12
    ensures var days, months := Daily(Some((y, m))), Monthly(Some(y));
            Total(days, rows) == CountBucket(months, PlanOf(months), rows, m - 1)
  {
    CountersSumToRows(Daily(Some((y, m))), rows);
    MonthlyCounter(y, rows, m - 1);
  }

  /**
   The years in which the monthly query is wrong: for 99 it runs backwards, from
   1999 to the year 100, and counts nothing.
   */
  lemma MonthlyOf99CountsNothing(rows: seq<Instant>, k: nat)
    ensures CountBucket(Monthly(Some(99)), PlanOf(Monthly(Some(99))), rows, k) == 0
  {
    var q := Monthly(Some(99));
    YearsInOrder(100, 1999);
    MonthEnds(1999, 0);
    MonthEnds(100, 0);
    EmptyIntervalCountsNothing(q, PlanOf(q), rows, k);
  }

  lemma {:induction false} EmptyIntervalCountsNothing(q: Query, plan: Plan, rows: seq<Instant>, k: nat)
    requires plan.end <= plan.start
    ensures CountBucket(q, plan, rows, k) == 0
  {
    if rows != [] { EmptyIntervalCountsNothing(q, plan, rows[..|rows| - 1], k); }
  }

  // ------------------------------------------------------------------- the query

  /** The positions of the rows created in [start, end). */
  function RowsWithin(rows: seq<Instant>, start: Instant, end: Instant): set<nat> {
    set i: nat | i < |rows| && start <= rows[i] < end
  }

  lemma {:induction false} CountIsRowsWithin(rows: seq<Instant>, start: Instant, end: Instant)
    ensures CountWithin(rows, start, end) == |RowsWithin(rows, start, end)|
  {
    if rows != [] {
      var n := |rows| - 1;
      CountIsRowsWithin(rows[..n], start, end);
      assert RowsWithin(rows, start, end)
          == RowsWithin(rows[..n], start, end) + if start <= rows[n] < end then {n} else {};
    }
  }

  /** How many spans of time an accepted query tells apart: hours, days of the month or months. */
  function SpanCount(q: Query): int
    requires Accepted(q)
  {
    match q
    case Hourly(_) => 24
    case Daily(month) =>
      var (y, m) := month.value;
      MakeDay(FullYear(y), m, 1) - MakeDay(FullYear(y), m - 1, 1)
    case Monthly(_) => 12
  }

  /** Where span `k` begins: hour `k` of the day, day `k` after the first of the month, month `k` of the year. */
  function SpanBegin(q: Query, k: int): Instant
    requires Accepted(q)
  {
    match q
    case Hourly(date) =>
      var d := date.value.day;
      Midnight(MakeDay(FullYear(YearOf(d)), MonthOf(d), DateOf(d))) + k * MS_PER_HOUR
    case Daily(month) =>
      var (y, m) := month.value;
      Midnight(MakeDay(FullYear(y), m - 1, 1) + k)
    case Monthly(year) => Midnight(MakeDay(FullYear(year.value), k, 1))
  }

  lemma BucketsAreSpans(q: Query)
    requires Accepted(q)
    ensures PlanOf(q).buckets == SpanCount(q)
  {
    if q.Daily? {
      LastDayOfMonth(q.month.value.0, q.month.value.1);
      NextMonth(FullYear(q.month.value.0), q.month.value.1 - 1);
    }
  }

  /** Every counter is the number of rows in its span, but for the two years the monthly query gets wrong. */
  lemma CountersCountSpans(q: Query, rows: seq<Instant>, k: nat)
    requires Accepted(q) && q != Monthly(Some(-1)) && q != Monthly(Some(99)) && k < PlanOf(q).buckets
    ensures CountBucket(q, PlanOf(q), rows, k) == |RowsWithin(rows, SpanBegin(q, k), SpanBegin(q, k + 1))|
  {
    hide CountBucket, CountWithin, RowsWithin, YearOf, MonthOf, DateOf, DayOf, FullYear, MakeDay;
    CountIsRowsWithin(rows, SpanBegin(q, k), SpanBegin(q, k + 1));
    match q
    case Hourly(date) => HourlyCounter(date.value.day, rows, k);
    case Daily(month) => DailyCounter(month.value.0, month.value.1, rows, k);
    case Monthly(year) => MonthlyCounter(year.value, rows, k);
  }

  predicate MissingOrMalformed(q: Query) {
    || q == Hourly(None) || q == Hourly(Some(Malformed))
    || q == Daily(None) || (q.Daily? && q.month.Some? && (q.month.value.0 == 0 || q.month.value.1 == 0))
    || q == Monthly(None) || q == Monthly(Some(0))
  }

  lemma RefusedQueries(q: Query)
    ensures MissingOrMalformed(q) <==> !Accepted(q)
  {
  }

  method GetAnalytics(q: Query, rows: seq<Instant>) returns (r: Result<seq<nat>>)
    ensures r.Err? <==> MissingOrMalformed(q)
    ensures r.Err? ==> r.error == BadRequest
    ensures r.Ok? ==> Accepted(q) && |r.value| == SpanCount(q)
    ensures r.Ok? ==> forall k | 0 <= k < |r.value| :: r.value[k] == CountBucket(q, PlanOf(q), rows, k)
    ensures r.Ok? && q != Monthly(Some(-1)) && q != Monthly(Some(99)) ==>
              forall k | 0 <= k < |r.value| ::
                r.value[k] == |RowsWithin(rows, SpanBegin(q, k), SpanBegin(q, k + 1))|
  {
    RefusedQueries(q);
    hide *;
    if !Accepted(q) { return Err(BadRequest); }
    RowsFit(q);
    var counts := CountRows(q, PlanOf(q), rows);
    BucketsAreSpans(q);
    if q != Monthly(Some(-1)) && q != Monthly(Some(99)) {
      forall k | 0 <= k < |counts|
        ensures counts[k] == |RowsWithin(rows, SpanBegin(q, k), SpanBegin(q, k + 1))|
      {
        CountersCountSpans(q, rows, k);
      }
    }
    return Ok(counts);
  }
}
