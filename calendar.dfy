/** The calendar arithmetic behind `datetime.date()` and the ISO text of a
    date, which a post's string form embeds (bulletinboard/models.py). */
module Calendar {
  import opened Results

  /** A point in time: whole seconds since 0001-01-01T00:00:00 UTC, the origin
      of the proleptic Gregorian ordinal that Python's `datetime` counts from. */
  type Timestamp = nat

  const SecondsPerDay: nat := 86400

  datatype Date = Date(year: nat, month: nat, day: nat)

  predicate IsLeap(y: nat) {
    y % 4 == 0 && (y % 100 != 0 || y % 400 == 0)
  }

  function DaysInYear(y: nat): nat {
    if IsLeap(y) then 366 else 365
  }

  function DaysInMonth(y: nat, m: nat): nat
    requires 1 <= m <= 12
  {
    if m == 2 then (if IsLeap(y) then 29 else 28)
    else if m == 4 || m == 6 || m == 9 || m == 11 then 30
    else 31
  }

  predicate ValidDate(d: Date) {
    1 <= d.year && 1 <= d.month <= 12 && 1 <= d.day <= DaysInMonth(d.year, d.month)
  }

  /** Days of year `y` before the first of month `m` (`m == 13` gives the whole year). */
  function DaysBeforeMonth(y: nat, m: nat): nat
    requires 1 <= m <= 13
  {
    if m == 1 then 0 else DaysBeforeMonth(y, m - 1) + DaysInMonth(y, m - 1)
  }

  /** Days from 0001-01-01 to the first of January of year `y`. */
  function DaysBeforeYear(y: nat): nat
    requires 1 <= y
  {
    if y == 1 then 0 else DaysBeforeYear(y - 1) + DaysInYear(y - 1)
  }

  /** The twelve months make up the year. */
  lemma MonthsFillYear(y: nat)
    ensures DaysBeforeMonth(y, 13) == DaysInYear(y)
  {
    assert DaysBeforeMonth(y, 2) == 31;
    assert DaysBeforeMonth(y, 3) == 31 + DaysInMonth(y, 2);
    assert DaysBeforeMonth(y, 4) == 62 + DaysInMonth(y, 2);
    assert DaysBeforeMonth(y, 5) == 92 + DaysInMonth(y, 2);
    assert DaysBeforeMonth(y, 6) == 123 + DaysInMonth(y, 2);
    assert DaysBeforeMonth(y, 7) == 153 + DaysInMonth(y, 2);
    assert DaysBeforeMonth(y, 8) == 184 + DaysInMonth(y, 2);
    assert DaysBeforeMonth(y, 9) == 215 + DaysInMonth(y, 2);
    assert DaysBeforeMonth(y, 10) == 245 + DaysInMonth(y, 2);
    assert DaysBeforeMonth(y, 11) == 276 + DaysInMonth(y, 2);
    assert DaysBeforeMonth(y, 12) == 306 + DaysInMonth(y, 2);
  }

  /** Zero-based count of days from 0001-01-01 to `d`: `d.toordinal() - 1`. */
  function Ordinal(d: Date): nat
    requires ValidDate(d)
  {
    DaysBeforeYear(d.year) + DaysBeforeMonth(d.year, d.month) + d.day - 1
  }

  /** The date `n` days after the first of month `m` of year `y`, within that year. */
  function MonthFrom(y: nat, m: nat, n: nat): (d: Date)
    requires 1 <= y && 1 <= m <= 12 && DaysBeforeMonth(y, m) + n < DaysInYear(y)
    ensures ValidDate(d) && d.year == y
    ensures Ordinal(d) == DaysBeforeYear(y) + DaysBeforeMonth(y, m) + n
    decreases 12 - m
  {
    MonthsFillYear(y);
    if n < DaysInMonth(y, m) then Date(y, m, n + 1)
    else MonthFrom(y, m + 1, n - DaysInMonth(y, m))
  }

  /** The date `n` days after the first of January of year `y`. */
  function YearFrom(y: nat, n: nat): (d: Date)
    requires 1 <= y
    ensures ValidDate(d) && d.year >= y
    ensures Ordinal(d) == DaysBeforeYear(y) + n
    decreases n
  {
    if n < DaysInYear(y) then MonthFrom(y, 1, n)
    else YearFrom(y + 1, n - DaysInYear(y))
  }

  /** `date.fromordinal(n + 1)`: the calendar date of a zero-based day count. */
  function FromOrdinal(n: nat): (d: Date)
    ensures ValidDate(d) && Ordinal(d) == n
  {
    YearFrom(1, n)
  }

  /** `datetime.date()` for a timestamp: the day it falls on. */
  function DateOf(t: Timestamp): (d: Date)
    ensures ValidDate(d) && Ordinal(d) == t / SecondsPerDay
  {
    FromOrdinal(t / SecondsPerDay)
  }

  lemma {:induction false} DaysBeforeYearGrows(y: nat, z: nat)
    requires 1 <= y <= z
    ensures DaysBeforeYear(y) <= DaysBeforeYear(z)
    ensures y < z ==> DaysBeforeYear(y) + DaysInYear(y) <= DaysBeforeYear(z)
    decreases z - y
  {
    if y < z {
      DaysBeforeYearGrows(y, z - 1);
    }
  }

  lemma {:induction false} DaysBeforeMonthGrows(y: nat, m: nat, k: nat)
    requires 1 <= m < k <= 13
    ensures DaysBeforeMonth(y, m) + DaysInMonth(y, m) <= DaysBeforeMonth(y, k)
    decreases k - m
  {
    if m + 1 < k {
      DaysBeforeMonthGrows(y, m, k - 1);
    }
  }

  /** Distinct valid dates have distinct ordinals. */
  lemma OrdinalInjective(d: Date, e: Date)
    requires ValidDate(d) && ValidDate(e) && Ordinal(d) == Ordinal(e)
    ensures d == e
  {
    MonthsFillYear(d.year);
    MonthsFillYear(e.year);
    DaysBeforeMonthGrows(d.year, d.month, 13);
    DaysBeforeMonthGrows(e.year, e.month, 13);
    if d.year < e.year {
      DaysBeforeYearGrows(d.year, e.year);
    } else if e.year < d.year {
      DaysBeforeYearGrows(e.year, d.year);
    } else if d.month < e.month {
      DaysBeforeMonthGrows(d.year, d.month, e.month);
    } else if e.month < d.month {
      DaysBeforeMonthGrows(d.year, e.month, d.month);
    }
  }

  /** Converting a valid date to its ordinal and back gives the date again. */
  lemma OrdinalRoundTrip(d: Date)
    requires ValidDate(d)
    ensures FromOrdinal(Ordinal(d)) == d
  {
    OrdinalInjective(FromOrdinal(Ordinal(d)), d);
  }

  function Digit(n: nat): (c: char)
    requires n < 10
    ensures '0' <= c <= '9' && (c as int) - ('0' as int) == n
  {
    (('0' as int) + n) as char
  }

  predicate AllDigits(s: string) {
    forall i :: 0 <= i < |s| ==> '0' <= s[i] <= '9'
  }

  /** The number a string of decimal digits spells. */
  function DigitsValue(s: string): nat
    requires AllDigits(s)
  {
    if s == [] then 0
    else DigitsValue(s[..|s| - 1]) * 10 + ((s[|s| - 1] as int) - ('0' as int))
  }

  function Pow10(w: nat): (p: nat)
    ensures p >= 1
  {
    if w == 0 then 1 else 10 * Pow10(w - 1)
  }

  /** `'%0{width}d' % n`: the decimal digits of `n`, padded with zeros on the
      left to at least `width` characters. */
  function Padded(n: nat, width: nat): (s: string)
    ensures AllDigits(s) && DigitsValue(s) == n
    ensures |s| >= width && |s| >= 1
    ensures 1 <= width && n < Pow10(width) ==> |s| == width
    decreases n + width
  {
    if n < 10 && width <= 1 then [Digit(n)]
    else
      var init := Padded(n / 10, if width == 0 then 0 else width - 1);
      var s := init + [Digit(n % 10)];
      assert s[..|s| - 1] == init;
      s
  }

  /** `date.isoformat()`: YYYY-MM-DD. */
  function DateText(d: Date): (s: string)
    ensures |s| >= 10
  {
    Padded(d.year, 4) + "-" + Padded(d.month, 2) + "-" + Padded(d.day, 2)
  }

  /** Reads YYYY-MM-DD back into a date; `None` for text of another shape. */
  function ParseDate(s: string): Option<Date>
  {
    if |s| == 10 && s[4] == '-' && s[7] == '-'
       && AllDigits(s[..4]) && AllDigits(s[5..7]) && AllDigits(s[8..])
    then Some(Date(DigitsValue(s[..4]), DigitsValue(s[5..7]), DigitsValue(s[8..])))
    else None
  }

  /** A date of Python's year range renders in ten characters, dashes at
      offsets 4 and 7, and reads back to itself. */
  lemma {:induction false} DateTextRoundTrip(d: Date)
    requires ValidDate(d) && d.year <= 9999
    ensures |DateText(d)| == 10
    ensures ParseDate(DateText(d)) == Some(d)
  {
    assert Pow10(2) == 100;
    assert Pow10(4) == 10000;
    var y, m, t := Padded(d.year, 4), Padded(d.month, 2), Padded(d.day, 2);
    var s := DateText(d);
    assert s == y + "-" + m + "-" + t;
    assert s[..4] == y;
    assert s[5..7] == m;
    assert s[8..] == t;
  }
}
