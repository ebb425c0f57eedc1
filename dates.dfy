/**
 * The proleptic Gregorian calendar as Python's `datetime` module sees it:
 * dates from 0001-01-01 to 9999-12-31, the day ordinal of `date.toordinal`,
 * `date + timedelta(days = n)` through that ordinal, and `datetime.replace`
 * of the year and month.
 */
module Dates {
  import opened Wrappers

  const MinYear: int := 1
  const MaxYear: int := 9999
  const MicrosPerDay: int := 86_400_000_000

  datatype Date = Date(year: int, month: int, day: int)

  /** A naive `datetime`: a date and the microseconds elapsed since its midnight. */
  datatype DateTime = DateTime(date: Date, micros: int)

  /** The exceptions the date arithmetic of the source can raise. */
  datatype DateError =
    | YearOutOfRange   // ValueError: year is out of range
    | DayOutOfRange    // ValueError: day is out of range for month
    | DateOverflow     // OverflowError: date value out of range

  predicate IsLeap(y: int) {
    y % 4 == 0 && (y % 100 != 0 || y % 400 == 0)
  }

  function DaysInMonth(y: int, m: int): (n: int)
    requires 1 <= m <= 12
    ensures 28 <= n <= 31
  {
    match m
    case 2 => if IsLeap(y) then 29 else 28
    case 4 | 6 | 9 | 11 => 30
    case _ => 31
  }

  function DaysInYear(y: int): int {
    if IsLeap(y) then 366 else 365
  }

  predicate ValidDate(d: Date) {
    MinYear <= d.year <= MaxYear && 1 <= d.month <= 12 && 1 <= d.day <= DaysInMonth(d.year, d.month)
  }

  predicate ValidDateTime(t: DateTime) {
    ValidDate(t.date) && 0 <= t.micros < MicrosPerDay
  }

  /** The number of days in the years before year `y` (counting from year 1). */
  function DaysBeforeYear(y: int): nat
    decreases y
  {
    if y <= MinYear then 0 else DaysBeforeYear(y - 1) + DaysInYear(y - 1)
  }

  /** The number of days in year `y` before the first of month `m`. */
  function DaysBeforeMonth(y: int, m: int): nat
    requires 1 <= m <= 12
  {
    var leap := if IsLeap(y) && m > 2 then 1 else 0;
    leap + match m
      case 1 => 0
      case 2 => 31
      case 3 => 59
      case 4 => 90
      case 5 => 120
      case 6 => 151
      case 7 => 181
      case 8 => 212
      case 9 => 243
      case 10 => 273
      case 11 => 304
      case _ => 334
  }

  /** The ordinal of 9999-12-31, the last date. */
  const MaxOrdinal: int := DaysBeforeYear(MaxYear + 1)

  /** `date.toordinal()`: 0001-01-01 has ordinal 1 and 9999-12-31 has `MaxOrdinal`. */
  function Ordinal(d: Date): (n: int)
    requires ValidDate(d)
    ensures 1 <= n <= MaxOrdinal
  {
    DaysBeforeMonthBound(d.year, d.month);
    DaysBeforeYearMono(d.year + 1, MaxYear + 1);
    DaysBeforeYear(d.year) + DaysBeforeMonth(d.year, d.month) + d.day
  }

  lemma DaysBeforeMonthStep(y: int, m: int)
    requires 1 <= m < 12
    ensures DaysBeforeMonth(y, m + 1) == DaysBeforeMonth(y, m) + DaysInMonth(y, m)
  {
  }

  lemma DaysBeforeMonthBound(y: int, m: int)
    requires 1 <= m <= 12
    ensures DaysBeforeMonth(y, m) + DaysInMonth(y, m) <= DaysInYear(y)
    ensures m == 12 ==> DaysBeforeMonth(y, m) + DaysInMonth(y, m) == DaysInYear(y)
  {
  }

  lemma {:induction false} DaysBeforeYearMono(a: int, b: int)
    requires a <= b
    ensures DaysBeforeYear(a) <= DaysBeforeYear(b)
    decreases b - a
  {
    if a < b {
      DaysBeforeYearMono(a, b - 1);
    }
  }

  /** The year holding the day with ordinal `n`, searched upwards from `y`. */
  function YearOf(n: int, y: int): (r: int)
    requires MinYear <= y <= MaxYear && DaysBeforeYear(y) < n <= MaxOrdinal
    ensures y <= r <= MaxYear && DaysBeforeYear(r) < n <= DaysBeforeYear(r + 1)
    decreases MaxYear - y
  {
    if n <= DaysBeforeYear(y + 1) then y else YearOf(n, y + 1)
  }

  /** The month of year `y` holding its `r`-th day, searched upwards from `m`. */
  function MonthOf(y: int, r: int, m: int): (res: int)
    requires 1 <= m <= 12 && DaysBeforeMonth(y, m) < r <= DaysInYear(y)
    ensures m <= res <= 12
    ensures DaysBeforeMonth(y, res) < r <= DaysBeforeMonth(y, res) + DaysInMonth(y, res)
    decreases 12 - m
  {
    DaysBeforeMonthBound(y, m);
    if r <= DaysBeforeMonth(y, m) + DaysInMonth(y, m) then m
    else
      DaysBeforeMonthStep(y, m);
      MonthOf(y, r, m + 1)
  }

  /** `date.fromordinal(n)`, the inverse of `Ordinal`. */
  function FromOrdinal(n: int): (d: Date)
    requires 1 <= n <= MaxOrdinal
    ensures ValidDate(d) && Ordinal(d) == n
  {
    var y := YearOf(n, MinYear);
    var r := n - DaysBeforeYear(y);
    var m := MonthOf(y, r, 1);
    Date(y, m, r - DaysBeforeMonth(y, m))
  }

  lemma {:induction false} YearOfIs(n: int, y: int, t: int)
    requires MinYear <= y <= t <= MaxYear && DaysBeforeYear(y) < n <= MaxOrdinal
    requires DaysBeforeYear(t) < n <= DaysBeforeYear(t + 1)
    ensures YearOf(n, y) == t
    decreases t - y
  {
    if y < t {
      DaysBeforeYearMono(y + 1, t);
      YearOfIs(n, y + 1, t);
    }
  }

  lemma {:induction false} MonthOfIs(y: int, r: int, m: int, t: int)
    requires 1 <= m <= t <= 12 && DaysBeforeMonth(y, m) < r <= DaysInYear(y)
    requires DaysBeforeMonth(y, t) < r <= DaysBeforeMonth(y, t) + DaysInMonth(y, t)
    ensures MonthOf(y, r, m) == t
    decreases t - m
  {
    DaysBeforeMonthBound(y, m);
    if m < t {
      DaysBeforeMonthStep(y, m);
      MonthsBeforeMono(y, m + 1, t);
      MonthOfIs(y, r, m + 1, t);
    }
  }

  lemma MonthsBeforeMono(y: int, a: int, b: int)
    requires 1 <= a <= b <= 12
    ensures DaysBeforeMonth(y, a) <= DaysBeforeMonth(y, b)
  {
  }

  /** Every valid date is recovered from its ordinal. */
  lemma FromOrdinalOrdinal(d: Date)
    requires ValidDate(d)
    ensures FromOrdinal(Ordinal(d)) == d
  {
    var n := Ordinal(d);
    DaysBeforeMonthBound(d.year, d.month);
    YearOfIs(n, MinYear, d.year);
    var r := n - DaysBeforeYear(d.year);
    MonthOfIs(d.year, r, 1, d.month);
  }

  /** Distinct valid dates have distinct ordinals. */
  lemma OrdinalInjective(a: Date, b: Date)
    requires ValidDate(a) && ValidDate(b) && Ordinal(a) == Ordinal(b)
    ensures a == b
  {
    FromOrdinalOrdinal(a);
    FromOrdinalOrdinal(b);
  }

  /** `d + timedelta(days = n)`: OverflowError unless the result lies in 0001-01-01..9999-12-31. */
  function AddDays(d: Date, n: int): (r: Result<Date, DateError>)
    requires ValidDate(d)
    ensures r.Ok? <==> 1 <= Ordinal(d) + n <= MaxOrdinal
    ensures r.Ok? ==> ValidDate(r.value) && Ordinal(r.value) == Ordinal(d) + n
    ensures r.Err? ==> r.error == DateOverflow
  {
    var k := Ordinal(d) + n;
    if 1 <= k <= MaxOrdinal then Ok(FromOrdinal(k)) else Err(DateOverflow)
  }

  /** The calendar's own step to the next day, an independent reference for `AddDays(d, 1)`. */
  function NextDay(d: Date): Result<Date, DateError>
    requires ValidDate(d)
  {
    if d.day < DaysInMonth(d.year, d.month) then Ok(Date(d.year, d.month, d.day + 1))
    else if d.month < 12 then Ok(Date(d.year, d.month + 1, 1))
    else if d.year < MaxYear then Ok(Date(d.year + 1, 1, 1))
    else Err(DateOverflow)
  }

  /** Adding one day through the ordinal agrees with the calendar's rollover rule. */
  lemma AddOneDay(d: Date)
    requires ValidDate(d)
    ensures AddDays(d, 1) == NextDay(d)
  {
    var y, m := d.year, d.month;
    DaysBeforeMonthBound(y, m);
    if d.day < DaysInMonth(y, m) {
      NextOrdinal(d, Date(y, m, d.day + 1));
    } else if m < 12 {
      DaysBeforeMonthStep(y, m);
      NextOrdinal(d, Date(y, m + 1, 1));
    } else if y < MaxYear {
      assert DaysBeforeYear(y + 1) == DaysBeforeYear(y) + DaysInYear(y);
      NextOrdinal(d, Date(y + 1, 1, 1));
    } else {
      assert Ordinal(d) == MaxOrdinal;
    }
  }

  lemma NextOrdinal(d: Date, e: Date)
    requires ValidDate(d) && ValidDate(e) && Ordinal(e) == Ordinal(d) + 1
    ensures AddDays(d, 1) == Ok(e)
  {
    OrdinalInjective(AddDays(d, 1).value, e);
  }

  /** Adding zero days is the identity. */
  lemma AddDaysZero(d: Date)
    requires ValidDate(d)
    ensures AddDays(d, 0) == Ok(d)
  {
    FromOrdinalOrdinal(d);
  }

  /**
   * Adding `a` then `b` days is adding `a + b` days, whenever the first step stays in
   * range (the second step then fails exactly when the combined one does).
   */
  lemma AddDaysAdditive(d: Date, a: int, b: int)
    requires ValidDate(d) && AddDays(d, a).Ok?
    ensures AddDays(AddDays(d, a).value, b) == AddDays(d, a + b)
  {
    var e := AddDays(d, a).value;
    assert Ordinal(e) + b == Ordinal(d) + (a + b);
    if AddDays(d, a + b).Ok? {
      OrdinalInjective(AddDays(e, b).value, AddDays(d, a + b).value);
    }
  }

  /** Moving `n` days and then `-n` days returns to the start. */
  lemma AddDaysInverse(d: Date, n: int)
    requires ValidDate(d) && AddDays(d, n).Ok?
    ensures AddDays(AddDays(d, n).value, -n) == Ok(d)
  {
    AddDaysAdditive(d, n, -n);
    AddDaysZero(d);
  }

  /** `date.weekday()`: Monday is 0 and Sunday is 6. */
  function Weekday(d: Date): (w: int)
    requires ValidDate(d)
    ensures 0 <= w < 7
  {
    (Ordinal(d) + 6) % 7
  }

  /** `datetime.replace(year = y, month = m)`: keeps the day of month and the time. */
  function ReplaceYearMonth(t: DateTime, y: int, m: int): (r: Result<DateTime, DateError>)
    requires 1 <= m <= 12
    ensures r.Ok? <==> MinYear <= y <= MaxYear && t.date.day <= DaysInMonth(y, m)
    ensures r.Ok? ==> r.value.date.year == y && r.value.date.month == m
    ensures r.Ok? ==> r.value.date.day == t.date.day && r.value.micros == t.micros
  {
    if y < MinYear || y > MaxYear then Err(YearOutOfRange)
    else if t.date.day > DaysInMonth(y, m) then Err(DayOutOfRange)
    else Ok(DateTime(Date(y, m, t.date.day), t.micros))
  }

  /** Python's comparison of two (naive) datetimes: by date, then by time of day. */
  predicate DateTimeLe(a: DateTime, b: DateTime) {
    if a.date.year != b.date.year then a.date.year < b.date.year
    else if a.date.month != b.date.month then a.date.month < b.date.month
    else if a.date.day != b.date.day then a.date.day < b.date.day
    else a.micros <= b.micros
  }

  /** `DateTimeLe` is a total order: total, transitive and antisymmetric. */
  lemma DateTimeLeTotalOrder(a: DateTime, b: DateTime, c: DateTime)
    ensures DateTimeLe(a, b) || DateTimeLe(b, a)
    ensures DateTimeLe(a, b) && DateTimeLe(b, c) ==> DateTimeLe(a, c)
    ensures DateTimeLe(a, b) && DateTimeLe(b, a) ==> a == b
  {
  }
}
