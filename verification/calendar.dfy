/** The proleptic Gregorian calendar as Python's `datetime` counts it: every
    day from 0001-01-01 (ordinal 1) to 9999-12-31 (ordinal 3652059) has an
    ordinal, and adding a number of days to a date is adding it to the
    ordinal and converting back; a result outside that range is an
    `OverflowError`. */
module Calendar {
  import opened Results

  datatype Date = Date(year: int, month: int, day: int)

  const MinYear: int := 1
  const MaxYear: int := 9999

  /** Ordinal of 9999-12-31, the last day `datetime` can represent. */
  const MaxOrdinal: int := 3652059

  predicate IsLeap(y: int)
  {
    y % 4 == 0 && (y % 100 != 0 || y % 400 == 0)
  }

  function DaysInYear(y: int): int
  {
    if IsLeap(y) then 366 else 365
  }

  function DaysInMonth(y: int, m: int): int
    requires 1 <= m <= 12
  {
    if m == 2 then (if IsLeap(y) then 29 else 28)
    else if m == 4 || m == 6 || m == 9 || m == 11 then 30
    else 31
  }

  /** Days in year `y` before the first of month `m`. */
  function DaysBeforeMonth(y: int, m: int): int
    requires 1 <= m <= 12
  {
    [0, 31, 59, 90, 120, 151, 181, 212, 243, 273, 304, 334][m - 1]
      + (if m > 2 && IsLeap(y) then 1 else 0)
  }

  /** Days before January 1st of year `y`, counted from 0001-01-01. */
  function DaysBeforeYear(y: int): int
    requires y >= 1
  {
    var z := y - 1;
    z * 365 + z / 4 - z / 100 + z / 400
  }

  predicate Valid(d: Date)
  {
    && MinYear <= d.year <= MaxYear
    && 1 <= d.month <= 12
    && 1 <= d.day <= DaysInMonth(d.year, d.month)
  }

  /** `date.toordinal()`. */
  function Ordinal(d: Date): int
    requires Valid(d)
  {
    DaysBeforeYear(d.year) + DaysBeforeMonth(d.year, d.month) + d.day
  }

  /** The day after `d`, by the rules of the calendar: next day of the month,
      else the first of the next month, else New Year's Day. */
  function Next(d: Date): Date
    requires Valid(d)
  {
    if d.day < DaysInMonth(d.year, d.month) then Date(d.year, d.month, d.day + 1)
    else if d.month < 12 then Date(d.year, d.month + 1, 1)
    else Date(d.year + 1, 1, 1)
  }

  /** Each month begins where the one before it ends, and December ends
      with the year. */
  lemma MonthStep(y: int, m: int)
    requires 1 <= m <= 12
    ensures m < 12 ==> DaysBeforeMonth(y, m + 1) == DaysBeforeMonth(y, m) + DaysInMonth(y, m)
    ensures m == 12 ==> DaysBeforeMonth(y, m) + DaysInMonth(y, m) == DaysInYear(y)
  {
  }

  lemma QuotientStep(z: int)
    requires z >= 0
    ensures (z + 1) / 4 == z / 4 + (if (z + 1) % 4 == 0 then 1 else 0)
    ensures (z + 1) / 100 == z / 100 + (if (z + 1) % 100 == 0 then 1 else 0)
    ensures (z + 1) / 400 == z / 400 + (if (z + 1) % 400 == 0 then 1 else 0)
  {
  }

  /** Each year begins where the one before it ends. */
  lemma YearStep(y: int)
    requires y >= 1
    ensures DaysBeforeYear(y + 1) == DaysBeforeYear(y) + DaysInYear(y)
  {
    var z := y - 1;
    QuotientStep(z);
    var a, b, c := y / 4 - z / 4, y / 100 - z / 100, y / 400 - z / 400;
    assert a == (if y % 4 == 0 then 1 else 0);
    assert b == (if y % 100 == 0 then 1 else 0);
    assert c == (if y % 400 == 0 then 1 else 0);
    assert y % 100 == 0 ==> y % 4 == 0 by {
      if y % 100 == 0 {
        assert y == 4 * (25 * (y / 100));
      }
    }
    assert y % 400 == 0 ==> y % 100 == 0 by {
      if y % 400 == 0 {
        assert y == 100 * (4 * (y / 400));
      }
    }
    assert DaysBeforeYear(y + 1) - DaysBeforeYear(y) == 365 + a - b + c;
  }

  /** Later years begin later. */
  lemma {:induction false} YearsOrdered(a: int, b: int)
    requires 1 <= a < b
    ensures DaysBeforeYear(a + 1) <= DaysBeforeYear(b)
    decreases b - a
  {
    if a + 1 < b {
      YearsOrdered(a, b - 1);
      YearStep(b - 1);
    }
  }

  /** Later months begin after earlier ones end. */
  lemma {:induction false} MonthsOrdered(y: int, a: int, b: int)
    requires 1 <= a < b <= 12
    ensures DaysBeforeMonth(y, a) + DaysInMonth(y, a) <= DaysBeforeMonth(y, b)
    decreases b - a
  {
    MonthStep(y, a);
    if a + 1 < b {
      MonthsOrdered(y, a + 1, b);
    }
  }

  /** A valid date's ordinal lies within its year. */
  lemma OrdinalWithinYear(d: Date)
    requires Valid(d)
    ensures DaysBeforeYear(d.year) < Ordinal(d) <= DaysBeforeYear(d.year + 1)
  {
    YearStep(d.year);
    if d.month < 12 {
      MonthsOrdered(d.year, d.month, 12);
    }
    MonthStep(d.year, 12);
  }

  /** The year holding ordinal `n`, searched for upward from `y`. */
  function YearOf(n: int, y: int): (r: int)
    requires MinYear <= y <= MaxYear
    requires DaysBeforeYear(y) < n <= DaysBeforeYear(MaxYear + 1)
    ensures y <= r <= MaxYear
    ensures DaysBeforeYear(r) < n <= DaysBeforeYear(r + 1)
    decreases MaxYear - y
  {
    if n <= DaysBeforeYear(y + 1) then y else YearOf(n, y + 1)
  }

  /** The month holding day `dayOfYear` of year `y`, searched for upward from `m`. */
  function MonthOf(y: int, dayOfYear: int, m: int): (r: int)
    requires 1 <= m <= 12
    requires DaysBeforeMonth(y, m) < dayOfYear <= DaysInYear(y)
    ensures m <= r <= 12
    ensures DaysBeforeMonth(y, r) < dayOfYear <= DaysBeforeMonth(y, r) + DaysInMonth(y, r)
    decreases 12 - m
  {
    MonthStep(y, m);
    if dayOfYear <= DaysBeforeMonth(y, m) + DaysInMonth(y, m) then m
    else MonthOf(y, dayOfYear, m + 1)
  }

  /** `date.fromordinal(n)`: the valid date whose ordinal is `n`. */
  function FromOrdinal(n: int): (d: Date)
    requires 1 <= n <= MaxOrdinal
    ensures Valid(d) && Ordinal(d) == n
  {
    var y := YearOf(n, MinYear);
    YearStep(y);
    var dayOfYear := n - DaysBeforeYear(y);
    var m := MonthOf(y, dayOfYear, 1);
    Date(y, m, dayOfYear - DaysBeforeMonth(y, m))
  }

  /** Different valid dates have different ordinals. */
  lemma OrdinalInjective(a: Date, b: Date)
    requires Valid(a) && Valid(b)
    requires Ordinal(a) == Ordinal(b)
    ensures a == b
  {
    OrdinalWithinYear(a);
    OrdinalWithinYear(b);
    if a.year < b.year {
      YearsOrdered(a.year, b.year);
    } else if b.year < a.year {
      YearsOrdered(b.year, a.year);
    }
    assert a.year == b.year;
    if a.month < b.month {
      MonthsOrdered(a.year, a.month, b.month);
    } else if b.month < a.month {
      MonthsOrdered(a.year, b.month, a.month);
    }
  }

  /** A date with a smaller ordinal is in the same year or an earlier one. */
  lemma YearsFollowOrdinals(a: Date, b: Date)
    requires Valid(a) && Valid(b)
    requires Ordinal(a) <= Ordinal(b)
    ensures a.year <= b.year
  {
    if b.year < a.year {
      OrdinalWithinYear(a);
      OrdinalWithinYear(b);
      YearsOrdered(b.year, a.year);
    }
  }

  /** Ordinals of valid dates fill exactly the range 1 .. MaxOrdinal. */
  lemma OrdinalRange(d: Date)
    requires Valid(d)
    ensures 1 <= Ordinal(d) <= MaxOrdinal
  {
    OrdinalWithinYear(d);
    if d.year > MinYear {
      YearsOrdered(MinYear, d.year);
    }
    if d.year < MaxYear {
      YearsOrdered(d.year, MaxYear);
      YearStep(MaxYear);
    }
  }

  /** `fromordinal` undoes `toordinal`. */
  lemma FromOrdinalOfOrdinal(d: Date)
    requires Valid(d)
    ensures 1 <= Ordinal(d) <= MaxOrdinal
    ensures FromOrdinal(Ordinal(d)) == d
  {
    OrdinalRange(d);
    OrdinalInjective(FromOrdinal(Ordinal(d)), d);
  }

  /** `d + timedelta(days=n)`: `None` where Python raises `OverflowError`. */
  function AddDays(d: Date, n: int): (r: Option<Date>)
    requires Valid(d)
    ensures r.Some? <==> 1 <= Ordinal(d) + n <= MaxOrdinal
    ensures r.Some? ==> Valid(r.value) && Ordinal(r.value) == Ordinal(d) + n
  {
    var o := Ordinal(d) + n;
    if 1 <= o <= MaxOrdinal then Some(FromOrdinal(o)) else None
  }

  /** Adding no days gives the same date. */
  lemma AddZeroDays(d: Date)
    requires Valid(d)
    ensures AddDays(d, 0) == Some(d)
  {
    FromOrdinalOfOrdinal(d);
  }

  /** The successor is a valid date one ordinal later, unless `d` is the
      last representable day. */
  lemma NextOrdinal(d: Date)
    requires Valid(d) && d != Date(MaxYear, 12, 31)
    ensures Valid(Next(d))
    ensures Ordinal(Next(d)) == Ordinal(d) + 1
  {
    MonthStep(d.year, d.month);
    if d.day == DaysInMonth(d.year, d.month) && d.month == 12 {
      YearStep(d.year);
    }
  }

  /** Adding one day is taking the calendar successor: it rolls over month
      and year ends, with February's length depending on the leap year. */
  lemma AddOneDay(d: Date)
    requires Valid(d)
    ensures d == Date(MaxYear, 12, 31) ==> AddDays(d, 1) == None
    ensures d != Date(MaxYear, 12, 31) ==> AddDays(d, 1) == Some(Next(d))
  {
    if d == Date(MaxYear, 12, 31) {
      assert Ordinal(d) == MaxOrdinal;
    } else {
      NextOrdinal(d);
      OrdinalRange(Next(d));
      var e := AddDays(d, 1);
      assert e.Some?;
      OrdinalInjective(e.value, Next(d));
    }
  }

  /** Adding days in two steps is adding their sum. */
  lemma AddDaysTwice(d: Date, a: int, b: int)
    requires Valid(d)
    requires AddDays(d, a).Some?
    ensures AddDays(AddDays(d, a).value, b) == AddDays(d, a + b)
  {
    var e := AddDays(d, a).value;
    if AddDays(d, a + b).Some? {
      OrdinalInjective(AddDays(e, b).value, AddDays(d, a + b).value);
    }
  }

  /** Day k+1 after `d` is the successor of day k after `d`. */
  lemma AddDaysStep(d: Date, k: int)
    requires Valid(d)
    requires AddDays(d, k).Some? && AddDays(d, k).value != Date(MaxYear, 12, 31)
    ensures AddDays(d, k + 1) == Some(Next(AddDays(d, k).value))
  {
    AddDaysTwice(d, k, 1);
    AddOneDay(AddDays(d, k).value);
  }

  /** Month and year roll-over, leap years included. */
  lemma NextExamples()
    ensures Next(Date(2017, 1, 1)) == Date(2017, 1, 2)
    ensures Next(Date(2017, 1, 31)) == Date(2017, 2, 1)
    ensures Next(Date(2017, 2, 28)) == Date(2017, 3, 1)
    ensures Next(Date(2016, 2, 28)) == Date(2016, 2, 29)
    ensures Next(Date(1900, 2, 28)) == Date(1900, 3, 1)
    ensures Next(Date(2000, 2, 28)) == Date(2000, 2, 29)
    ensures Next(Date(2017, 12, 31)) == Date(2018, 1, 1)
  {
  }
}
