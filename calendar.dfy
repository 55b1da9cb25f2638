/**
 * The proleptic Gregorian calendar over day numbers.
 *
 * A day number counts days from 1970-01-01 (day 0, a Thursday), so it is the
 * JavaScript instant at UTC midnight divided by 86 400 000. The conversion to
 * a civil (year, month, day) triple goes through 400-year cycles of exactly
 * 146 097 days and a search for the year, and is proved to be a bijection
 * onto the valid civil dates. The week, month, quarter and year starts used by
 * the task buckets, the rollover and the habit streaks are built on it.
 */
module Calendar {

  /** Milliseconds in one day. */
  const MsPerDay: int := 86400000

  /** The day an instant (milliseconds since the epoch) falls on, in UTC:
      the effect of `setUTCHours(0, 0, 0, 0)` followed by division. */
  function DayOf(ms: int): (d: int)
    ensures d * MsPerDay <= ms < d * MsPerDay + MsPerDay
  {
    ms / MsPerDay
  }

  /** UTC midnight of the day an instant falls on. */
  function MidnightOf(ms: int): (r: int)
    ensures r % MsPerDay == 0
    ensures r <= ms < r + MsPerDay
  {
    DayOf(ms) * MsPerDay
  }

  function Abs(n: int): nat {
    if n < 0 then -n else n
  }

  /** JavaScript's `%` on integers: the remainder has the sign of the dividend and lies below
      the divisor's magnitude. */
  function JsRem(a: int, n: int): (r: int)
    requires n != 0
    ensures a >= 0 ==> 0 <= r < Abs(n) && r == a % n
    ensures a < 0 ==> 0 <= -r < Abs(n) && r == -((-a) % n)
  {
    if a >= 0 then a % n else -((-a) % n)
  }

  predicate IsLeap(y: int) {
    y % 4 == 0 && (y % 100 != 0 || y % 400 == 0)
  }

  /** `a % n` is the only remainder of a in [0, n). */
  lemma ModUnique(a: int, n: int, q: int, r: int)
    requires n > 0 && 0 <= r < n && a == q * n + r
    ensures a % n == r
  {
    var t := q - a / n;
    assert t * n == a % n - r;
  }

  function DaysInYear(y: int): int {
    if IsLeap(y) then 366 else 365
  }

  /** Number of leap years in [1, y) (negative for y < 1; only differences matter). */
  function LeapsBefore(y: int): int {
    (y - 1) / 4 - (y - 1) / 100 + (y - 1) / 400
  }

  /** Day number of January 1st of year y. */
  function YearStartDay(y: int): int {
    365 * (y - 1970) + LeapsBefore(y) - LeapsBefore(1970)
  }

  lemma Next4(a: int)
    ensures (a + 1) / 4 == a / 4 + (if (a + 1) % 4 == 0 then 1 else 0)
  {
  }

  lemma Next100(a: int)
    ensures (a + 1) / 100 == a / 100 + (if (a + 1) % 100 == 0 then 1 else 0)
  {
  }

  lemma Next400(a: int)
    ensures (a + 1) / 400 == a / 400 + (if (a + 1) % 400 == 0 then 1 else 0)
  {
  }

  /** A multiple of 400 is a multiple of 100, and a multiple of 100 one of 4. */
  lemma DivisorsOf400(y: int)
    ensures y % 400 == 0 ==> y % 100 == 0
    ensures y % 100 == 0 ==> y % 4 == 0
  {
    if y % 400 == 0 {
      var m := y / 400;
      assert y == 100 * (4 * m);
    }
    if y % 100 == 0 {
      var m := y / 100;
      assert y == 4 * (25 * m);
    }
  }

  lemma LeapStep(y: int)
    ensures LeapsBefore(y + 1) == LeapsBefore(y) + (if IsLeap(y) then 1 else 0)
  {
    Next4(y - 1);
    Next100(y - 1);
    Next400(y - 1);
    DivisorsOf400(y);
  }

  lemma YearLength(y: int)
    ensures YearStartDay(y + 1) == YearStartDay(y) + DaysInYear(y)
  {
    LeapStep(y);
  }

  /** Every 400 consecutive years hold exactly 146 097 days. */
  lemma Cycle(y: int)
    ensures YearStartDay(y + 400) == YearStartDay(y) + 146097
  {
    var a := y - 1;
    assert a == 4 * (a / 4) + a % 4;
    assert a == 100 * (a / 100) + a % 100;
    assert a == 400 * (a / 400) + a % 400;
  }

  lemma {:induction false} CycleStart(k: int)
    ensures YearStartDay(1970 + 400 * k) == 146097 * k
    decreases if k < 0 then -k else k
  {
    if k > 0 {
      CycleStart(k - 1);
      Cycle(1970 + 400 * (k - 1));
    } else if k < 0 {
      CycleStart(k + 1);
      Cycle(1970 + 400 * k);
    }
  }

  /** Year starts strictly increase. */
  lemma {:induction false} YearStartMonotone(a: int, b: int)
    requires a < b
    ensures YearStartDay(a) + 365 * (b - a) <= YearStartDay(b)
    decreases b - a
  {
    YearLength(a);
    if a + 1 < b {
      YearStartMonotone(a + 1, b);
    }
  }

  /** The year containing day d, found by a linear search from y. */
  function FindYear(y: int, d: int): (r: int)
    requires YearStartDay(y) <= d
    ensures YearStartDay(r) <= d < YearStartDay(r + 1)
    decreases d - YearStartDay(y)
  {
    YearLength(y);
    if d < YearStartDay(y + 1) then y else FindYear(y + 1, d)
  }

  /** The year containing day d. */
  function YearOf(d: int): (y: int)
    ensures YearStartDay(y) <= d < YearStartDay(y + 1)
  {
    var k := d / 146097;
    CycleStart(k);
    FindYear(1970 + 400 * k, d)
  }

  /** The year containing a day is the only year whose span contains it. */
  lemma YearUnique(y: int, d: int)
    requires YearStartDay(y) <= d < YearStartDay(y + 1)
    ensures YearOf(d) == y
  {
    var z := YearOf(d);
    if z < y {
      if z + 1 < y { YearStartMonotone(z + 1, y); }
    } else if y < z {
      if y + 1 < z { YearStartMonotone(y + 1, z); }
    }
  }

  function DaysInMonth(y: int, m: int): (n: int)
    requires 1 <= m <= 12
    ensures 28 <= n <= 31
  {
    if m == 2 then (if IsLeap(y) then 29 else 28)
    else if m == 4 || m == 6 || m == 9 || m == 11 then 30
    else 31
  }

  /** Days of year y that lie before the first of month m. */
  function DaysBeforeMonth(y: int, m: int): (n: int)
    requires 1 <= m <= 12
    ensures m == 1 ==> n == 0
    ensures m == 12 ==> n + DaysInMonth(y, m) == DaysInYear(y)
  {
    var leap := if IsLeap(y) && m > 2 then 1 else 0;
    leap + (match m
      case 1 => 0 case 2 => 31 case 3 => 59 case 4 => 90
      case 5 => 120 case 6 => 151 case 7 => 181 case 8 => 212
      case 9 => 243 case 10 => 273 case 11 => 304 case _ => 334)
  }

  lemma MonthStep(y: int, m: int)
    requires 1 <= m < 12
    ensures DaysBeforeMonth(y, m + 1) == DaysBeforeMonth(y, m) + DaysInMonth(y, m)
  {
  }

  lemma {:induction false} MonthsIncrease(y: int, a: int, b: int)
    requires 1 <= a <= b <= 12
    ensures DaysBeforeMonth(y, a) + 28 * (b - a) <= DaysBeforeMonth(y, b)
    decreases b - a
  {
    if a < b {
      MonthStep(y, a);
      MonthsIncrease(y, a + 1, b);
    }
  }

  datatype Civil = Civil(year: int, month: int, day: int)

  predicate ValidCivil(c: Civil) {
    1 <= c.month <= 12 && 1 <= c.day <= DaysInMonth(c.year, c.month)
  }

  /** Day number of a civil date. */
  function DaysFromCivil(c: Civil): (d: int)
    requires ValidCivil(c)
    ensures YearStartDay(c.year) <= d < YearStartDay(c.year + 1)
  {
    YearLength(c.year);
    MonthsIncrease(c.year, c.month, 12);
    YearStartDay(c.year) + DaysBeforeMonth(c.year, c.month) + c.day - 1
  }

  /** The month of year y containing day-of-year doy (0-based), searching from m. */
  function FindMonth(y: int, doy: int, m: int): (r: int)
    requires 1 <= m <= 12
    requires DaysBeforeMonth(y, m) <= doy < DaysInYear(y)
    ensures m <= r <= 12
    ensures DaysBeforeMonth(y, r) <= doy < DaysBeforeMonth(y, r) + DaysInMonth(y, r)
    decreases 12 - m
  {
    if m == 12 || doy < DaysBeforeMonth(y, m) + DaysInMonth(y, m) then m
    else FindMonth(y, doy, m + 1)
  }

  /** The civil date of a day number: inverse of DaysFromCivil. */
  function CivilFromDays(d: int): (c: Civil)
    ensures ValidCivil(c)
    ensures DaysFromCivil(c) == d
  {
    var y := YearOf(d);
    YearLength(y);
    var doy := d - YearStartDay(y);
    var m := FindMonth(y, doy, 1);
    Civil(y, m, doy - DaysBeforeMonth(y, m) + 1)
  }

  lemma {:induction false} MonthUnique(y: int, doy: int, m: int, n: int)
    requires 1 <= m <= n <= 12
    requires DaysBeforeMonth(y, m) <= doy < DaysBeforeMonth(y, m) + DaysInMonth(y, m)
    requires DaysBeforeMonth(y, n) <= doy < DaysBeforeMonth(y, n) + DaysInMonth(y, n)
    ensures m == n
  {
    if m < n {
      MonthsIncrease(y, m + 1, n);
    }
  }

  /** Round trip: a valid civil date survives the conversion to a day number and back. */
  lemma CivilRoundTrip(c: Civil)
    requires ValidCivil(c)
    ensures CivilFromDays(DaysFromCivil(c)) == c
  {
    var d := DaysFromCivil(c);
    YearUnique(c.year, d);
    var e := CivilFromDays(d);
    assert e.year == c.year;
    var doy := d - YearStartDay(c.year);
    if e.month <= c.month {
      MonthUnique(c.year, doy, e.month, c.month);
    } else {
      MonthUnique(c.year, doy, c.month, e.month);
    }
  }

  /** Two day numbers with the same civil date are equal. */
  lemma CivilInjective(d1: int, d2: int)
    requires CivilFromDays(d1) == CivilFromDays(d2)
    ensures d1 == d2
  {
  }

  /** Day of the week as JavaScript's getDay numbers it: 0 is Sunday, 1 Monday. */
  function Weekday(d: int): (w: int)
    ensures 0 <= w < 7
  {
    (d + 4) % 7
  }

  /** Monday of the week containing d (the week starts on Monday). */
  function WeekStart(d: int): (s: int)
    ensures s <= d < s + 7
    ensures Weekday(s) == 1
  {
    d - (d + 3) % 7
  }

  /** Two days share a week start exactly when they lie in the same Monday-to-Sunday week. */
  lemma SameWeek(d1: int, d2: int)
    ensures WeekStart(d1) == WeekStart(d2) <==> WeekStart(d1) <= d2 < WeekStart(d1) + 7
  {
    var s1, s2 := WeekStart(d1), WeekStart(d2);
    assert (s1 + 3) % 7 == 0 && (s2 + 3) % 7 == 0;
    if s1 <= d2 < s1 + 7 && s1 != s2 {
      assert false;
    }
  }

  lemma WeekStartIdempotent(d: int)
    ensures WeekStart(WeekStart(d)) == WeekStart(d)
  {
    SameWeek(d, WeekStart(d));
  }

  /** First day of the month containing d. */
  function MonthStart(d: int): (s: int)
    ensures s <= d
    ensures CivilFromDays(s) == CivilFromDays(d).(day := 1)
  {
    var c := CivilFromDays(d);
    var first := c.(day := 1);
    CivilRoundTrip(first);
    DaysFromCivil(first)
  }

  /** First month of the quarter containing month m. */
  function QuarterMonth(m: int): (q: int)
    requires 1 <= m <= 12
    ensures q in {1, 4, 7, 10} && q <= m < q + 3
  {
    3 * ((m - 1) / 3) + 1
  }

  /** First day of the quarter containing d. */
  function QuarterStart(d: int): (s: int)
    ensures s <= d
    ensures CivilFromDays(s) == Civil(CivilFromDays(d).year, QuarterMonth(CivilFromDays(d).month), 1)
  {
    var c := CivilFromDays(d);
    var first := Civil(c.year, QuarterMonth(c.month), 1);
    MonthsIncrease(c.year, first.month, c.month);
    CivilRoundTrip(first);
    DaysFromCivil(first)
  }

  /** First day of the year containing d. */
  function YearStart(d: int): (s: int)
    ensures s <= d
    ensures CivilFromDays(s) == Civil(CivilFromDays(d).year, 1, 1)
  {
    var c := CivilFromDays(d);
    var first := Civil(c.year, 1, 1);
    CivilRoundTrip(first);
    DaysFromCivil(first)
  }

  lemma PeriodStartsIdempotent(d: int)
    ensures MonthStart(MonthStart(d)) == MonthStart(d)
    ensures QuarterStart(QuarterStart(d)) == QuarterStart(d)
    ensures YearStart(YearStart(d)) == YearStart(d)
  {
    var c := CivilFromDays(d);
    CivilInjective(MonthStart(MonthStart(d)), MonthStart(d));
    CivilInjective(QuarterStart(QuarterStart(d)), QuarterStart(d));
    CivilInjective(YearStart(YearStart(d)), YearStart(d));
  }

  /** Two days share a month start exactly when they have the same year and month. */
  lemma SameMonth(d1: int, d2: int)
    ensures MonthStart(d1) == MonthStart(d2) <==>
            (CivilFromDays(d1).year, CivilFromDays(d1).month) == (CivilFromDays(d2).year, CivilFromDays(d2).month)
  {
    var c1, c2 := CivilFromDays(d1), CivilFromDays(d2);
    if c1.year == c2.year && c1.month == c2.month {
      CivilInjective(MonthStart(d1), MonthStart(d2));
    }
  }

  /** First day of the month before month (y, m), as an (year, month) pair. */
  function PreviousMonth(y: int, m: int): (p: (int, int))
    requires 1 <= m <= 12
    ensures 1 <= p.1 <= 12
    ensures DaysFromCivil(Civil(p.0, p.1, 1)) < DaysFromCivil(Civil(y, m, 1))
  {
    if m > 1 then
      MonthsIncrease(y, m - 1, m);
      (y, m - 1)
    else
      YearLength(y - 1);
      (y - 1, 12)
  }
}
