/** Calendar dates as Python's `datetime.date` sees them: the proleptic
    Gregorian calendar over years 1..9999, `date + timedelta(days=1)`,
    `weekday()`, and the two `strftime` layouts the bot uses
    (`%-d.%-m.%Y` to find the vendor's menu header, `%Y-%m-%d` in order
    records and order keys). The clock is not read here: callers pass
    today's date in. */
module Dates {
  import opened Decimal

  datatype Date = Date(year: int, month: int, day: int)

  const MinYear := 1
  const MaxYear := 9999

  predicate IsLeapYear(y: int) {
    y % 4 == 0 && (y % 100 != 0 || y % 400 == 0)
  }

  function DaysInMonth(y: int, m: int): (n: int)
    requires 1 <= m <= 12
    ensures 28 <= n <= 31
    ensures m == 2 ==> (n == 29 <==> IsLeapYear(y))
  {
    if m == 2 then (if IsLeapYear(y) then 29 else 28)
    else if m == 4 || m == 6 || m == 9 || m == 11 then 30
    else 31
  }

  predicate ValidDate(d: Date) {
    && MinYear <= d.year <= MaxYear
    && 1 <= d.month <= 12
    && 1 <= d.day <= DaysInMonth(d.year, d.month)
  }

  function DaysInYear(y: int): int {
    if IsLeapYear(y) then 366 else 365
  }

  /** Days in the years before `y` (Python's `_days_before_year`). */
  function DaysBeforeYear(y: int): int
    requires y >= 1
  {
    var y1 := y - 1;
    y1 * 365 + y1 / 4 - y1 / 100 + y1 / 400
  }

  /** Days in year `y` before the first of month `m` (`_days_before_month`). */
  function DaysBeforeMonth(y: int, m: int): int
    requires 1 <= m <= 12
  {
    [0, 31, 59, 90, 120, 151, 181, 212, 243, 273, 304, 334][m - 1]
      + (if m > 2 && IsLeapYear(y) then 1 else 0)
  }

  /** Python's `date.toordinal()`: 1 January of year 1 is day 1. */
  function Ordinal(d: Date): int
    requires ValidDate(d)
  {
    DaysBeforeYear(d.year) + DaysBeforeMonth(d.year, d.month) + d.day
  }

  /** `d + timedelta(days=1)`: the next calendar day, rolling over month
      ends, year ends and 29 February. None is Python's OverflowError,
      raised only past 31 December 9999. */
  function AddDay(d: Date): (r: Option<Date>)
    requires ValidDate(d)
    ensures r.None? <==> d == Date(MaxYear, 12, 31)
    ensures r.Some? ==> ValidDate(r.value)
  {
    if d.day < DaysInMonth(d.year, d.month) then Some(Date(d.year, d.month, d.day + 1))
    else if d.month < 12 then Some(Date(d.year, d.month + 1, 1))
    else if d.year < MaxYear then Some(Date(d.year + 1, 1, 1))
    else None
  }

  /** `d.weekday()`: Monday is 0 and Sunday is 6. */
  function Weekday(d: Date): (w: int)
    requires ValidDate(d)
    ensures 0 <= w < 7
  {
    (Ordinal(d) + 6) % 7
  }

  /** A year contributes its own length to the count of days before the next. */
  lemma DaysBeforeYearStep(y: int)
    requires y >= 1
    ensures DaysBeforeYear(y + 1) == DaysBeforeYear(y) + DaysInYear(y)
  {
    assert y / 4 == (y - 1) / 4 + (if y % 4 == 0 then 1 else 0);
    assert y / 100 == (y - 1) / 100 + (if y % 100 == 0 then 1 else 0);
    assert y / 400 == (y - 1) / 400 + (if y % 400 == 0 then 1 else 0);
  }

  /** The next day is the next ordinal: `AddDay` moves exactly one day
      forward, whatever boundary it crosses. */
  lemma AddDayOrdinal(d: Date)
    requires ValidDate(d) && AddDay(d).Some?
    ensures Ordinal(AddDay(d).value) == Ordinal(d) + 1
  {
    if d.day == DaysInMonth(d.year, d.month) && d.month == 12 {
      DaysBeforeYearStep(d.year);
    }
  }

  /** Weekdays advance by one, Sunday (6) wrapping to Monday (0). */
  lemma WeekdayNext(d: Date)
    requires ValidDate(d) && AddDay(d).Some?
    ensures Weekday(AddDay(d).value) == (Weekday(d) + 1) % 7
  {
    AddDayOrdinal(d);
    var o := Ordinal(d);
    assert Ordinal(AddDay(d).value) + 6 == (o + 6) + 1;
    ModSevenStep(o + 6);
  }

  lemma ModSevenStep(x: int)
    ensures (x + 1) % 7 == (x % 7 + 1) % 7
  {
  }

  lemma OrdinalYearBounds(d: Date)
    requires ValidDate(d)
    ensures DaysBeforeYear(d.year) < Ordinal(d) <= DaysBeforeYear(d.year) + DaysInYear(d.year)
  {
  }

  lemma DaysBeforeYearMonotone(a: int, b: int)
    requires 1 <= a < b
    ensures DaysBeforeYear(a) + DaysInYear(a) <= DaysBeforeYear(b)
    decreases b - a
  {
    DaysBeforeYearStep(a);
    if a + 1 < b {
      DaysBeforeYearMonotone(a + 1, b);
    }
  }

  /** Distinct valid dates have distinct ordinals, so `AddDay(d)` is the
      only date one day after `d`. */
  lemma OrdinalInjective(d: Date, e: Date)
    requires ValidDate(d) && ValidDate(e)
    requires Ordinal(d) == Ordinal(e)
    ensures d == e
  {
    OrdinalYearBounds(d);
    OrdinalYearBounds(e);
    if d.year < e.year {
      DaysBeforeYearMonotone(d.year, e.year);
    } else if e.year < d.year {
      DaysBeforeYearMonotone(e.year, d.year);
    }
    assert d.year == e.year;
  }

  /** `%Y-%m-%d`: the fixed-width date stored in every order record. */
  function IsoDate(d: Date): (s: string)
    requires ValidDate(d)
    ensures |s| == 10
  {
    NatToStringShort(d.year, 4);
    NatToStringShort(d.month, 2);
    NatToStringShort(d.day, 2);
    PadNat(d.year, 4) + "-" + PadNat(d.month, 2) + "-" + PadNat(d.day, 2)
  }

  /** `%-d.%-m.%Y`: day and month without zero padding, as the vendor's
      page titles each day's menu. */
  function HeaderDate(d: Date): (s: string)
    requires ValidDate(d)
    ensures 8 <= |s| <= 10
    ensures IsDigit(s[0]) && s[0] != '0'
    ensures forall k :: 0 <= k < |s| ==> IsDigit(s[k]) || s[k] == '.'
  {
    NatToStringShort(d.day, 2);
    NatToStringShort(d.month, 2);
    NatToStringShort(d.year, 4);
    var s := NatToString(d.day) + "." + NatToString(d.month) + "." + PadNat(d.year, 4);
    assert forall k :: 0 <= k < |s| ==> IsDigit(s[k]) || s[k] == '.';
    s
  }

  /** The part of a menu header after the day: `.month.year`. */
  function HeaderTail(month: nat, year: nat): string {
    "." + NatToString(month) + "." + PadNat(year, 4)
  }

  lemma HeaderDateParts(d: Date)
    requires ValidDate(d)
    ensures HeaderDate(d) == NatToString(d.day) + HeaderTail(d.month, d.year)
  {
  }

  /** Reads back a `%Y-%m-%d` string; None for anything that is not one. */
  function ParseIsoDate(s: string): (r: Option<Date>)
    ensures r.Some? ==> ValidDate(r.value)
  {
    if |s| == 10 && s[4] == '-' && s[7] == '-'
       && AllDigits(s[..4]) && AllDigits(s[5..7]) && AllDigits(s[8..])
    then
      var d := Date(DigitsValue(s[..4]), DigitsValue(s[5..7]), DigitsValue(s[8..]));
      if ValidDate(d) then Some(d) else None
    else None
  }

  /** Formatting then parsing an ISO date gives the date back. */
  lemma IsoRoundTrip(d: Date)
    requires ValidDate(d)
    ensures ParseIsoDate(IsoDate(d)) == Some(d)
  {
    var s := IsoDate(d);
    var y, m, dd := PadNat(d.year, 4), PadNat(d.month, 2), PadNat(d.day, 2);
    assert s[..4] == y;
    assert s[5..7] == m;
    assert s[8..] == dd;
  }

  /** Distinct dates get distinct order-date strings. */
  lemma IsoDateInjective(d: Date, e: Date)
    requires ValidDate(d) && ValidDate(e)
    requires IsoDate(d) == IsoDate(e)
    ensures d == e
  {
    IsoRoundTrip(d);
    IsoRoundTrip(e);
  }

  /** Index of the first `.` in `s`, or `|s|` when there is none. */
  function DotIndex(s: string): (i: nat)
    ensures i <= |s|
  {
    if s == [] || s[0] == '.' then 0 else 1 + DotIndex(s[1..])
  }

  lemma {:induction false} DotIndexAfterDigits(a: string, b: string)
    requires AllDigits(a)
    ensures DotIndex(a + "." + b) == |a|
  {
    if a != [] {
      assert (a + "." + b)[1..] == a[1..] + "." + b;
      DotIndexAfterDigits(a[1..], b);
    }
  }

  lemma SplitAtDot(a: string, b: string, c: string, e: string)
    requires AllDigits(a) && AllDigits(c)
    requires a + "." + b == c + "." + e
    ensures a == c && b == e
  {
    var s := a + "." + b;
    DotIndexAfterDigits(a, b);
    DotIndexAfterDigits(c, e);
    assert a == s[..|a|];
    assert c == s[..|c|];
    assert b == s[|a| + 1..];
    assert e == s[|c| + 1..];
  }

  lemma DottedTriplePrefix(dd: string, md: string, yd: string, x: string,
                           de: string, me: string, ye: string, y: string)
    requires AllDigits(dd) && AllDigits(md) && AllDigits(de) && AllDigits(me)
    requires |yd| == |ye|
    requires dd + "." + md + "." + yd + x == de + "." + me + "." + ye + y
    ensures dd == de && md == me && yd == ye
  {
    var rd, re := md + "." + yd + x, me + "." + ye + y;
    assert dd + "." + md + "." + yd + x == dd + "." + rd;
    assert de + "." + me + "." + ye + y == de + "." + re;
    SplitAtDot(dd, rd, de, re);
    assert rd == md + "." + (yd + x);
    assert re == me + "." + (ye + y);
    SplitAtDot(md, yd + x, me, ye + y);
    assert yd == (yd + x)[..|yd|] && ye == (ye + y)[..|ye|];
  }

  /** A header string is never a proper prefix of another: whatever follows
      them, two texts that start with header strings agree on the date. */
  lemma HeaderDatePrefixFree(d: Date, e: Date, x: string, y: string)
    requires ValidDate(d) && ValidDate(e)
    requires HeaderDate(d) + x == HeaderDate(e) + y
    ensures d == e
  {
    NatToStringShort(d.year, 4);
    NatToStringShort(e.year, 4);
    DottedTriplePrefix(NatToString(d.day), NatToString(d.month), PadNat(d.year, 4), x,
                       NatToString(e.day), NatToString(e.month), PadNat(e.year, 4), y);
    NatToStringInjective(d.day, e.day);
    NatToStringInjective(d.month, e.month);
  }

  /** Distinct days get distinct menu headers: the header string names its
      date unambiguously. */
  lemma HeaderDateInjective(d: Date, e: Date)
    requires ValidDate(d) && ValidDate(e)
    requires HeaderDate(d) == HeaderDate(e)
    ensures d == e
  {
    assert HeaderDate(d) + [] == HeaderDate(e) + [];
    HeaderDatePrefixFree(d, e, [], []);
  }

  /** Python's `date(2024, 1, 1).weekday()` is 0: 1 January 2024 was a
      Monday, which fixes what every weekday number means. */
  lemma WeekdayAnchor()
    ensures Weekday(Date(2024, 1, 1)) == 0
  {
  }
}
