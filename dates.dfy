/**
 * Calendar dates as the Python `date` objects the integration passes around:
 * a (year, month, day) triple in the proleptic Gregorian calendar, years 1..9999,
 * compared lexicographically, with `toordinal` day numbers for date arithmetic.
 */
module Dates {
  import opened Wrappers

  datatype Date = Date(year: int, month: int, day: int)

  predicate IsLeapYear(y: int) {
    y % 4 == 0 && (y % 100 != 0 || y % 400 == 0)
  }

  function DaysInYear(y: int): int {
    if IsLeapYear(y) then 366 else 365
  }

  function DaysInMonth(y: int, m: int): (n: int)
    requires 1 <= m <= 12
    ensures 28 <= n <= 31
  {
    if m == 2 then (if IsLeapYear(y) then 29 else 28)
    else if m == 4 || m == 6 || m == 9 || m == 11 then 30
    else 31
  }

  /** What `date(year, month, day)` accepts. */
  predicate Valid(d: Date) {
    1 <= d.year <= 9999 && 1 <= d.month <= 12 && 1 <= d.day <= DaysInMonth(d.year, d.month)
  }

  /** `date.max`. */
  const MaxDate := Date(9999, 12, 31)

  /** Python's `a < b` on dates: lexicographic on (year, month, day). */
  predicate Before(a: Date, b: Date) {
    a.year < b.year
    || (a.year == b.year && (a.month < b.month || (a.month == b.month && a.day < b.day)))
  }

  function DaysBeforeYear(y: int): (n: int)
    requires 1 <= y
    ensures 0 <= n
    decreases y
  {
    if y == 1 then 0 else DaysBeforeYear(y - 1) + DaysInYear(y - 1)
  }

  function DaysBeforeMonth(y: int, m: int): (n: int)
    requires 1 <= m <= 12
  {
    var leap := if m > 2 && IsLeapYear(y) then 1 else 0;
    leap + (match m
            case 1 => 0 case 2 => 31 case 3 => 59 case 4 => 90
            case 5 => 120 case 6 => 151 case 7 => 181 case 8 => 212
            case 9 => 243 case 10 => 273 case 11 => 304 case _ => 334)
  }

  /** `date.toordinal()`: 0001-01-01 is day 1. */
  function Ordinal(d: Date): int
    requires Valid(d)
  {
    DaysBeforeYear(d.year) + DaysBeforeMonth(d.year, d.month) + d.day
  }

  /** `d + timedelta(days=1)`; `date.max` has no successor (Python raises OverflowError). */
  function NextDay(d: Date): (r: Date)
    requires Valid(d) && d != MaxDate
    ensures Valid(r) && Before(d, r)
    ensures Ordinal(r) == Ordinal(d) + 1
  {
    if d.day < DaysInMonth(d.year, d.month) then Date(d.year, d.month, d.day + 1)
    else if d.month < 12 then Date(d.year, d.month + 1, 1)
    else Date(d.year + 1, 1, 1)
  }

  /** `d + timedelta(days=n)`, or None where Python raises OverflowError. */
  function AddDays(d: Date, n: nat): (r: Option<Date>)
    requires Valid(d)
    ensures r.Some? ==> Valid(r.value) && Ordinal(r.value) == Ordinal(d) + n
    ensures r.None? ==> n > 0 && Ordinal(d) + n > Ordinal(MaxDate)
    decreases n
  {
    if n == 0 then Some(d)
    else if d == MaxDate then None
    else AddDays(NextDay(d), n - 1)
  }

  /** `<` on dates is a strict total order. */
  lemma BeforeIsStrictTotal(a: Date, b: Date, c: Date)
    ensures !Before(a, a)
    ensures Before(a, b) && Before(b, c) ==> Before(a, c)
    ensures a == b || Before(a, b) || Before(b, a)
  {
  }

  /** No valid date lies after `date.max`. */
  lemma MaxDateIsLast(d: Date)
    requires Valid(d)
    ensures !Before(MaxDate, d)
  {
  }

  lemma {:induction false} DaysBeforeYearGrows(y1: int, y2: int)
    requires 1 <= y1 < y2
    ensures DaysBeforeYear(y1) + DaysInYear(y1) <= DaysBeforeYear(y2)
    decreases y2
  {
    if y2 > y1 + 1 {
      DaysBeforeYearGrows(y1, y2 - 1);
    }
  }

  lemma DaysBeforeMonthGrows(y: int, m1: int, m2: int)
    requires 1 <= m1 < m2 <= 12
    ensures DaysBeforeMonth(y, m1) + DaysInMonth(y, m1) <= DaysBeforeMonth(y, m2)
  {
  }

  /** The lexicographic order on valid dates is the order of their day numbers. */
  lemma {:induction false} BeforeIsOrdinalOrder(a: Date, b: Date)
    requires Valid(a) && Valid(b)
    ensures Before(a, b) <==> Ordinal(a) < Ordinal(b)
    ensures a == b <==> Ordinal(a) == Ordinal(b)
  {
    forall x: Date, z: Date | Valid(x) && Valid(z) && Before(x, z)
      ensures Ordinal(x) < Ordinal(z)
    {
      if x.year < z.year {
        DaysBeforeYearGrows(x.year, z.year);
        assert DaysBeforeMonth(x.year, x.month) + x.day <= DaysInYear(x.year) by {
          if x.month < 12 { DaysBeforeMonthGrows(x.year, x.month, 12); }
        }
      } else if x.month < z.month {
        DaysBeforeMonthGrows(x.year, x.month, z.month);
      }
    }
  }
}
