/** JavaScript/BSON time values: milliseconds since 1970-01-01T00:00:00Z in the
    proleptic Gregorian calendar, the `TimeClip` range of a valid `Date`,
    `Date.UTC` with its month and day normalisation, the UTC calendar fields of a
    time value (what MongoDB's `$month` reads) and the English month names that
    the date parser accepts. */
module Calendar {
  import opened Wrappers
  import opened Text

  const MsPerDay: int := 86_400_000
  const MaxTimeValue: int := 8_640_000_000_000_000

  /** What `getTime()` can return: a number of milliseconds or NaN. */
  datatype TimeValue = NaN | Ms(t: int)

  /** The time value of a valid `Date`. */
  type Instant = t: int | -8_640_000_000_000_000 <= t <= 8_640_000_000_000_000

  /** A time value outside the representable range is NaN. */
  function TimeClip(v: TimeValue): (r: TimeValue)
    ensures r.Ms? <==> v.Ms? && -MaxTimeValue <= v.t <= MaxTimeValue
    ensures r.Ms? ==> r == v
  {
    if v.Ms? && -MaxTimeValue <= v.t <= MaxTimeValue then v else NaN
  }

  predicate IsLeapYear(y: int) {
    y % 4 == 0 && (y % 100 != 0 || y % 400 == 0)
  }

  function DaysInYear(y: int): int {
    if IsLeapYear(y) then 366 else 365
  }

  /** The days-in-month table; `m` runs from 1 (January) to 12. */
  function DaysInMonth(y: int, m: int): int
    requires 1 <= m <= 12
  {
    if m == 2 then (if IsLeapYear(y) then 29 else 28)
    else if m == 4 || m == 6 || m == 9 || m == 11 then 30
    else 31
  }

  /** Days of year `y` before the first of month `m`. */
  function DaysBeforeMonth(y: int, m: int): int
    requires 1 <= m <= 12
  {
    [0, 31, 59, 90, 120, 151, 181, 212, 243, 273, 304, 334][m - 1]
      + (if m > 2 && IsLeapYear(y) then 1 else 0)
  }

  lemma MonthStep(y: int, m: int)
    requires 1 <= m < 12
    ensures DaysBeforeMonth(y, m + 1) == DaysBeforeMonth(y, m) + DaysInMonth(y, m)
  {
  }

  lemma MonthsFitYear(y: int, m: int)
    requires 1 <= m <= 12
    ensures DaysBeforeMonth(y, m) + DaysInMonth(y, m) <= DaysInYear(y)
    ensures m == 12 ==> DaysBeforeMonth(y, m) + DaysInMonth(y, m) == DaysInYear(y)
  {
  }

  lemma MonthsOrdered(y: int, m1: int, m2: int)
    requires 1 <= m1 < m2 <= 12
    ensures DaysBeforeMonth(y, m1) + DaysInMonth(y, m1) <= DaysBeforeMonth(y, m2)
  {
  }

  /** Days from 1970-01-01 to the first of January of year `y` (negative before 1970). */
  function DaysBeforeYear(y: int): int
    decreases if y < 1970 then 1970 - y else y - 1970
  {
    if y == 1970 then 0
    else if y > 1970 then DaysBeforeYear(y - 1) + DaysInYear(y - 1)
    else DaysBeforeYear(y + 1) - DaysInYear(y)
  }

  lemma YearStep(y: int)
    ensures DaysBeforeYear(y + 1) == DaysBeforeYear(y) + DaysInYear(y)
  {
  }

  /** Every year has between 365 and 366 days. */
  lemma {:induction false} YearsBetween(a: int, b: int)
    requires a <= b
    ensures 365 * (b - a) <= DaysBeforeYear(b) - DaysBeforeYear(a) <= 366 * (b - a)
    decreases b - a
  {
    if a < b {
      YearsBetween(a, b - 1);
      YearStep(b - 1);
    }
  }

  /** The day number of a (possibly unnormalised) day `d` of month `m` of year `y`. */
  function DayNumber(y: int, m: int, d: int): int
    requires 1 <= m <= 12
  {
    DaysBeforeYear(y) + DaysBeforeMonth(y, m) + d - 1
  }

  /** The UTC calendar fields of a time value. */
  datatype Civil = Civil(year: int, month: int, day: int, msOfDay: int) {
    predicate Valid() {
      1 <= month <= 12 && 1 <= day <= DaysInMonth(year, month) && 0 <= msOfDay < 86_400_000
    }

    function Time(): int
      requires 1 <= month <= 12
    {
      DayNumber(year, month, day) * 86_400_000 + msOfDay
    }
  }

  /** Finds the year holding the day `rem` days after the first of January of `y`. */
  function YearAndOffset(y: int, rem: int): (r: (int, int))
    ensures 0 <= r.1 < DaysInYear(r.0)
    ensures DaysBeforeYear(r.0) + r.1 == DaysBeforeYear(y) + rem
    decreases if rem < 0 then 1 else 0, if rem < 0 then -rem else rem
  {
    if rem < 0 then
      YearStep(y - 1);
      YearAndOffset(y - 1, rem + DaysInYear(y - 1))
    else if rem >= DaysInYear(y) then
      YearStep(y);
      YearAndOffset(y + 1, rem - DaysInYear(y))
    else
      (y, rem)
  }

  /** Finds the month and day of the day `off` days after the first of month `m` of `y`. */
  function MonthAndDay(y: int, m: int, off: int): (r: (int, int))
    requires 1 <= m <= 12 && 0 <= off && DaysBeforeMonth(y, m) + off < DaysInYear(y)
    ensures 1 <= r.0 <= 12 && 1 <= r.1 <= DaysInMonth(y, r.0)
    ensures DaysBeforeMonth(y, r.0) + r.1 - 1 == DaysBeforeMonth(y, m) + off
    decreases 12 - m
  {
    if off < DaysInMonth(y, m) then
      (m, off + 1)
    else
      MonthsFitYear(y, m);
      MonthStep(y, m);
      MonthAndDay(y, m + 1, off - DaysInMonth(y, m))
  }

  /** The UTC calendar fields of time value `t`: valid fields that denote `t` exactly. */
  function CivilOf(t: int): (c: Civil)
    ensures c.Valid()
    ensures c.Time() == t
  {
    var (y, doy) := YearAndOffset(1970, t / 86_400_000);
    var (m, d) := MonthAndDay(y, 1, doy);
    Civil(y, m, d, t % 86_400_000)
  }

  /** MongoDB's `$month` (UTC), 1 to 12. */
  function MonthOf(t: int): int {
    CivilOf(t).month
  }

  /** MongoDB's `$year` (UTC). */
  function YearOf(t: int): int {
    CivilOf(t).year
  }

  /** `$month` of a sale dated day `day` of month `month` of any year is `month`. */
  lemma MonthOfDate(year: int, month: int, day: int, msOfDay: int)
    requires 1 <= month <= 12 && 1 <= day <= DaysInMonth(year, month) && 0 <= msOfDay < 86_400_000
    ensures MonthOf(Civil(year, month, day, msOfDay).Time()) == month
  {
    CivilRoundTrip(Civil(year, month, day, msOfDay));
  }

  /** Valid calendar fields are ordered as their day numbers are: a day of an
      earlier month (in any year) comes before the first of a later month. */
  lemma {:induction false} DayOrder(y1: int, m1: int, d1: int, y2: int, m2: int)
    requires 1 <= m1 <= 12 && 1 <= d1 <= DaysInMonth(y1, m1) && 1 <= m2 <= 12
    requires y1 < y2 || (y1 == y2 && m1 < m2)
    ensures DayNumber(y1, m1, d1) < DayNumber(y2, m2, 1)
  {
    if y1 < y2 {
      MonthsFitYear(y1, m1);
      YearStep(y1);
      YearsBetween(y1 + 1, y2);
    } else {
      MonthsOrdered(y1, m1, m2);
    }
  }

  /** Calendar fields and time values correspond one to one. */
  lemma {:induction false} CivilRoundTrip(c: Civil)
    requires c.Valid()
    ensures CivilOf(c.Time()) == c
  {
    var c' := CivilOf(c.Time());
    assert c'.msOfDay == c.msOfDay && DayNumber(c'.year, c'.month, c'.day) == DayNumber(c.year, c.month, c.day);
    if c'.year < c.year || (c'.year == c.year && c'.month < c.month) {
      DayOrder(c'.year, c'.month, c'.day, c.year, c.month);
    } else if c.year < c'.year || (c.year == c'.year && c.month < c'.month) {
      DayOrder(c.year, c.month, c.day, c'.year, c'.month);
    }
  }

  /** `Date.UTC(year, month, date, hours, minutes, seconds, ms)`; `month` counts from
      0 and, like `date`, may lie outside its range (it carries into the year, and
      day 0 is the last day of the previous month); years 0 to 99 mean 1900 to 1999. */
  function DateUtc(year: int, month: int, date: int, hours: int, minutes: int, seconds: int, ms: int): TimeValue {
    var y := if 0 <= year <= 99 then 1900 + year else year;
    var ym := y + month / 12;
    var mn := month % 12;
    var day := DayNumber(ym, mn + 1, 1) + date - 1;
    TimeClip(Ms(day * 86_400_000 + hours * 3_600_000 + minutes * 60_000 + seconds * 1000 + ms))
  }

  /** The twelve English month names the date parser recognises. */
  const MonthNames: seq<string> := [
    "January", "February", "March", "April", "May", "June",
    "July", "August", "September", "October", "November", "December"
  ]

  function FindMonth(name: string, i: nat): (r: Option<int>)
    requires i <= 12
    ensures r.Some? ==> i <= r.value < 12 && EqualsIgnoringCase(name, MonthNames[r.value])
    ensures r.Some? ==> forall j | i <= j < r.value :: !EqualsIgnoringCase(name, MonthNames[j])
    ensures r.None? <==> forall j | i <= j < 12 :: !EqualsIgnoringCase(name, MonthNames[j])
    decreases 12 - i
  {
    if i == 12 then None
    else if EqualsIgnoringCase(name, MonthNames[i]) then Some(i)
    else FindMonth(name, i + 1)
  }

  /** The month index (0 for January) that the date parser reads from a month name,
      compared without regard to case; None when `name` names no month. */
  function MonthIndex(name: string): (r: Option<int>)
    ensures r.Some? ==> 0 <= r.value < 12 && EqualsIgnoringCase(name, MonthNames[r.value])
    ensures r.None? <==> forall j | 0 <= j < 12 :: !EqualsIgnoringCase(name, MonthNames[j])
  {
    FindMonth(name, 0)
  }

  /** Two month names never agree up to case: their lengths and their first and
      third letters already tell them apart. */
  lemma MonthNamesDistinct(j: int, k: int)
    requires 0 <= j < 12 && 0 <= k < 12 && j != k
    ensures !EqualsIgnoringCase(MonthNames[j], MonthNames[k])
  {
    var a, b := MonthNames[j], MonthNames[k];
    assert |a| != |b| || LowerChar(a[0]) != LowerChar(b[0]) || LowerChar(a[2]) != LowerChar(b[2]);
    assert |a| != |b| || Lower(a)[0] != Lower(b)[0] || Lower(a)[2] != Lower(b)[2];
  }

  /** Every month name consists of letters only. */
  lemma MonthNameAlphabetic(i: int)
    requires 0 <= i < 12
    ensures IsAlphabetic(MonthNames[i])
  {
    if i < 6 {
      if i == 0 { assert IsAlphabetic("January"); }
      else if i == 1 { assert IsAlphabetic("February"); }
      else if i == 2 { assert IsAlphabetic("March"); }
      else if i == 3 { assert IsAlphabetic("April"); }
      else if i == 4 { assert IsAlphabetic("May"); }
      else { assert IsAlphabetic("June"); }
    } else {
      if i == 6 { assert IsAlphabetic("July"); }
      else if i == 7 { assert IsAlphabetic("August"); }
      else if i == 8 { assert IsAlphabetic("September"); }
      else if i == 9 { assert IsAlphabetic("October"); }
      else if i == 10 { assert IsAlphabetic("November"); }
      else { assert IsAlphabetic("December"); }
    }
  }

  /** Each month name reads back as its own index. */
  lemma MonthNameRoundTrip(i: int)
    requires 0 <= i < 12
    ensures MonthIndex(MonthNames[i]) == Some(i)
  {
    var r := MonthIndex(MonthNames[i]);
    assert EqualsIgnoringCase(MonthNames[i], MonthNames[i]);
    if r.Some? && r.value != i {
      MonthNamesDistinct(i, r.value);
    }
  }

  /** A month name in any mix of upper- and lower-case letters reads as its
      month's index. */
  lemma MonthNameAnyCase(i: int, name: string)
    requires 0 <= i < 12
    requires |name| == |MonthNames[i]|
    requires forall k | 0 <= k < |name| :: name[k] == MonthNames[i][k] || OtherCase(name[k], MonthNames[i][k])
    ensures MonthIndex(name) == Some(i)
  {
    CaseVariantEqual(name, MonthNames[i]);
    var r := MonthIndex(name);
    if r.Some? && r.value != i {
      MonthNamesDistinct(i, r.value);
    }
  }

  /** "march" and "MARCH" both name March (index 2). */
  lemma MarchInAnyCase()
    ensures MonthIndex("march") == Some(2)
    ensures MonthIndex("MARCH") == Some(2)
  {
    MonthNameAnyCase(2, "march");
    MonthNameAnyCase(2, "MARCH");
  }
}
