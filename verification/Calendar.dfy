/**
 The proleptic Gregorian calendar. Days are counted from 0000-01-01; the Unix
 epoch is day `UNIX_EPOCH`, a Thursday.
 */
module Calendar {
  const UNIX_EPOCH: int := 719528

  datatype Date = Date(year: int, month: int, day: int)

  predicate IsLeap(y: int) {
    y % 4 == 0 && (y % 100 != 0 || y % 400 == 0)
  }

  function YearLength(y: int): int { if IsLeap(y) then 366 else 365 }

  function MonthLength(leap: bool, m: int): int
    requires 1 <= m <= 12
  {
    if m == 2 then (if leap then 29 else 28)
    else if m == 4 || m == 6 || m == 9 || m == 11 then 30
    else 31
  }

  predicate ValidDate(d: Date) {
    1 <= d.month <= 12 && 1 <= d.day <= MonthLength(IsLeap(d.year), d.month)
  }

  /** Day number of 1 January of year `y`. */
  function YearStart(y: int): int {
    365 * y + (y + 3) / 4 - (y + 99) / 100 + (y + 399) / 400
  }

  /** Days before month `m` within a year. */
  function MonthStart(leap: bool, m: int): int
    requires 1 <= m <= 13
  {
    [0, 31, 59, 90, 120, 151, 181, 212, 243, 273, 304, 334, 365][m - 1] + if leap && m > 2 then 1 else 0
  }

  lemma MonthStep(leap: bool, m: int)
    requires 1 <= m <= 12
    ensures MonthStart(leap, m + 1) == MonthStart(leap, m) + MonthLength(leap, m)
  {
  }

  function DayNumber(d: Date): int
    requires ValidDate(d)
  {
    YearStart(d.year) + MonthStart(IsLeap(d.year), d.month) + d.day - 1
  }

  /** Sunday is 0. */
  function Weekday(n: int): (w: int)
    ensures 0 <= w < 7
  {
    (n + 6) % 7
  }

  lemma YearStep(y: int)
    ensures YearStart(y + 1) == YearStart(y) + YearLength(y)
  {
    QuarterStep(y);
    CenturyStep(y);
    CycleStep(y);
  }

  lemma QuarterStep(y: int)
    ensures (y + 4) / 4 == (y + 3) / 4 + if y % 4 == 0 then 1 else 0
  {
  }

  lemma CenturyStep(y: int)
    ensures (y + 100) / 100 == (y + 99) / 100 + if y % 100 == 0 then 1 else 0
  {
  }

  lemma CycleStep(y: int)
    ensures (y + 400) / 400 == (y + 399) / 400 + if y % 400 == 0 then 1 else 0
  {
  }

  lemma {:induction false} YearMonotone(y: int, z: int)
    requires y <= z
    ensures YearStart(y) + 365 * (z - y) <= YearStart(z) <= YearStart(y) + 366 * (z - y)
    decreases z - y
  {
    if y < z {
      YearMonotone(y, z - 1);
      YearStep(z - 1);
    }
  }

  lemma {:induction false} MonthMonotone(leap: bool, m: int, k: int)
    requires 1 <= m <= k <= 13
    ensures MonthStart(leap, m) + 28 * (k - m) <= MonthStart(leap, k)
    decreases k - m
  {
    if m < k {
      MonthMonotone(leap, m, k - 1);
      MonthStep(leap, k - 1);
    }
  }

  /** The year containing day `n`, searched upward from the start of its 400-year era. */
  function YearOf(n: int): (y: int)
    ensures YearStart(y) <= n < YearStart(y + 1)
  {
    var era := n / 146097;
    assert YearStart(400 * era) == 146097 * era by {
      assert (400 * era + 3) / 4 == 100 * era;
      assert (400 * era + 99) / 100 == 4 * era;
      assert (400 * era + 399) / 400 == era;
    }
    YearFrom(n, 400 * era)
  }

  function YearFrom(n: int, y: int): (r: int)
    requires YearStart(y) <= n
    ensures YearStart(r) <= n < YearStart(r + 1)
    decreases n - YearStart(y)
  {
    YearStep(y);
    if n < YearStart(y + 1) then y else YearFrom(n, y + 1)
  }

  function MonthFrom(leap: bool, dayOfYear: int, m: int): (r: int)
    requires 1 <= m <= 12 && 0 <= dayOfYear < MonthStart(leap, m + 1)
    ensures 1 <= r <= m && MonthStart(leap, r) <= dayOfYear < MonthStart(leap, r + 1)
  {
    if MonthStart(leap, m) <= dayOfYear then m else MonthFrom(leap, dayOfYear, m - 1)
  }

  /** The civil date of day `n`. */
  function CivilDate(n: int): (d: Date)
    ensures ValidDate(d) && DayNumber(d) == n
  {
    var y := YearOf(n);
    YearStep(y);
    var dayOfYear := n - YearStart(y);
    var m := MonthFrom(IsLeap(y), dayOfYear, 12);
    MonthStep(IsLeap(y), m);
    Date(y, m, dayOfYear - MonthStart(IsLeap(y), m) + 1)
  }

  predicate DateLess(a: Date, b: Date) {
    || a.year < b.year
    || (a.year == b.year && a.month < b.month)
    || (a.year == b.year && a.month == b.month && a.day < b.day)
  }

  /** Day numbers are bounded by the start of the next year. */
  lemma WithinYear(d: Date)
    requires ValidDate(d)
    ensures YearStart(d.year) <= DayNumber(d) < YearStart(d.year + 1)
  {
    var leap := IsLeap(d.year);
    MonthMonotone(leap, 1, d.month);
    MonthMonotone(leap, d.month + 1, 13);
    MonthStep(leap, d.month);
    YearStep(d.year);
  }

  lemma DateOrder(a: Date, b: Date)
    requires ValidDate(a) && ValidDate(b) && DateLess(a, b)
    ensures DayNumber(a) < DayNumber(b)
  {
    if a.year < b.year {
      WithinYear(a);
      WithinYear(b);
      YearMonotone(a.year + 1, b.year);
    } else if a.month < b.month {
      MonthMonotone(IsLeap(a.year), a.month + 1, b.month);
      MonthStep(IsLeap(a.year), a.month);
    }
  }

  /** Civil dates are ordered as their days. */
  lemma CivilOrder(n: int, k: int)
    ensures DateLess(CivilDate(n), CivilDate(k)) <==> n < k
  {
    var a, b := CivilDate(n), CivilDate(k);
    if DateLess(a, b) { DateOrder(a, b); }
    if DateLess(b, a) { DateOrder(b, a); }
  }

  /** The civil date of a date's own day is that date. */
  lemma CivilRoundTrip(d: Date)
    requires ValidDate(d)
    ensures CivilDate(DayNumber(d)) == d
  {
    var e := CivilDate(DayNumber(d));
    if DateLess(d, e) { DateOrder(d, e); }
    if DateLess(e, d) { DateOrder(e, d); }
  }

  function NextDate(d: Date): Date
    requires ValidDate(d)
  {
    if d.day < MonthLength(IsLeap(d.year), d.month) then d.(day := d.day + 1)
    else if d.month < 12 then Date(d.year, d.month + 1, 1)
    else Date(d.year + 1, 1, 1)
  }

  lemma NextDayNumber(d: Date)
    requires ValidDate(d)
    ensures ValidDate(NextDate(d)) && DayNumber(NextDate(d)) == DayNumber(d) + 1
  {
    MonthStep(IsLeap(d.year), d.month);
    YearStep(d.year);
  }

  lemma WeekdayStep(n: int)
    ensures Weekday(n + 1) == (Weekday(n) + 1) % 7
  {
  }

  /** The epoch is Thursday 1970-01-01; `CivilRoundTrip` turns this into its civil date. */
  lemma EpochDay()
    ensures DayNumber(Date(1970, 1, 1)) == UNIX_EPOCH && Weekday(UNIX_EPOCH) == 4
  {
  }

  /** Each day is followed by the next date and the next weekday, so with
      `EpochDay` the calendar is the Gregorian one. */
  lemma NextCivil(n: int)
    ensures CivilDate(n + 1) == NextDate(CivilDate(n)) && Weekday(n + 1) == (Weekday(n) + 1) % 7
  {
    NextCivilDate(n);
    WeekdayStep(n);
  }

  lemma NextCivilDate(n: int)
    ensures CivilDate(n + 1) == NextDate(CivilDate(n))
  {
    NextDayNumber(CivilDate(n));
    DateOfDay(NextDate(CivilDate(n)), n + 1);
  }

  lemma DateOfDay(d: Date, n: int)
    requires ValidDate(d) && DayNumber(d) == n
    ensures CivilDate(n) == d
  {
    CivilRoundTrip(d);
  }
}
