/** `QDate` of common/qdatetime.h: Gregorian dates from 1752-09-14 on as Julian day numbers. */
module Calendar {

  const FIRST_YEAR := 1752
  const TWO_32 := 0x1_0000_0000
  const TWO_31 := 0x8000_0000

  datatype Date = Date(y: int, m: int, d: int)

  /** `isLeapYear`: divisible by 4 and not by 100, or divisible by 400. */
  predicate IsLeapYear(y: int)
  {
    (y % 4 == 0 && y % 100 != 0) || y % 400 == 0
  }

  /** `monthDays[]`, with the day that a leap year adds. */
  function DaysIn(y: int, m: int): (n: int)
    requires 1 <= m <= 12
    ensures 28 <= n <= 31
  {
    if m == 2 then if IsLeapYear(y) then 29 else 28
    else if m in {4, 6, 9, 11} then 30 else 31
  }

  /** A year below 100 means the twentieth century. */
  function FullYear(y: int): int { if y <= 99 then y + 1900 else y }

  /** `isValid` */
  predicate IsValid(y: int, m: int, d: int)
  {
    && (0 <= y <= 99 || !(y < FIRST_YEAR || (y == FIRST_YEAR && (m < 9 || (m == 9 && d < 14)))))
    && d > 0 && 0 < m <= 12 && d <= DaysIn(FullYear(y), m)
  }

  /** Which dates are valid: from 14 September 1752 on, or in a year of two digits of the twentieth century. */
  lemma ValidExactly(y: int, m: int, d: int)
    ensures IsValid(y, m, d) <==>
              && (0 <= y <= 99 || y >= 1753 || (y == 1752 && (m > 9 || (m == 9 && d >= 14))))
              && 1 <= m <= 12 && 1 <= d
              && var year := if y <= 99 then 1900 + y else y;
                 var leap := year % 4 == 0 && (year % 100 == 0 ==> year % 400 == 0);
                 d <= [31, if leap then 29 else 28, 31, 30, 31, 30, 31, 31, 30, 31, 30, 31][m - 1]
  {
  }

  // ---------------------------------------------------------------- the day number

  /** Years and months that begin in March, so that the leap day comes last. */
  function MarchYear(y: int, m: int): int { if m > 2 then y else y - 1 }

  function MarchMonth(m: int): int { if m > 2 then m - 3 else m + 9 }

  /** The days before a March year, and before a month in it. */
  function DaysBeforeYear(a: int): int { 146097 * (a / 100) / 4 + 1461 * (a % 100) / 4 }

  function DaysBeforeMonth(mm: int): int { (153 * mm + 2) / 5 }

  /** The day number of a date, in unbounded arithmetic. */
  function JulianDay(y: int, m: int, d: int): int
  {
    1721119 + d + DaysBeforeYear(MarchYear(y, m)) + DaysBeforeMonth(MarchMonth(m))
  }

  function Wrap(x: int): int { x % TWO_32 }

  /** `greg2jul`, in 32-bit unsigned arithmetic. */
  function Greg2Jul(y: int, m: int, d: int): int
  {
    var a := MarchYear(FullYear(y), m);
    var c := Wrap(a) / 100;
    var ya := Wrap(a - 100 * c);
    Wrap(1721119 + d + Wrap(146097 * c) / 4 + Wrap(1461 * ya) / 4 + (153 * MarchMonth(m) + 2) / 5)
  }

  /** The dates whose arithmetic stays within 32 bits. */
  predicate InRange(t: Date)
  {
    4 * (JulianDay(t.y, t.m, t.d) - 1721119) < TWO_31
  }

  predicate FullDate(t: Date)
  {
    t.y >= FIRST_YEAR && IsValid(t.y, t.m, t.d)
  }

  lemma Greg2JulIsJulianDay(t: Date)
    requires FullDate(t) && InRange(t)
    ensures Greg2Jul(t.y, t.m, t.d) == JulianDay(t.y, t.m, t.d)
  {
    var a := MarchYear(t.y, t.m);
    YearIsSmall(t);
    NoWrap(a);
    NoWrap(146097 * (a / 100));
    NoWrap(1461 * (a % 100));
    NoWrap(JulianDay(t.y, t.m, t.d));
    assert a - 100 * (a / 100) == a % 100;
    NoWrap(a % 100);
  }

  lemma NoWrap(x: int)
    requires 0 <= x < TWO_32
    ensures Wrap(x) == x
  {
  }

  lemma YearIsSmall(t: Date)
    requires FullDate(t) && InRange(t)
    ensures 0 <= MarchYear(t.y, t.m) < TWO_31 && 146097 * (MarchYear(t.y, t.m) / 100) < TWO_31
    ensures 0 <= JulianDay(t.y, t.m, t.d) < TWO_32
  {
    var a := MarchYear(t.y, t.m);
    var q := 146097 * (a / 100);
    assert 0 <= DaysBeforeMonth(MarchMonth(t.m)) && 0 <= 1461 * (a % 100) / 4;
    assert q / 4 < TWO_31 / 4 - 1;
    assert a < 100 * (a / 100) + 100;
  }

  /** The count starts where the Julian day count does: the first valid day and the first of January 1970. */
  lemma KnownDays()
    ensures JulianDay(1752, 9, 14) == 2361222 && JulianDay(1970, 1, 1) == 2440588
  {
    assert DaysBeforeYear(1752) == 639905 && DaysBeforeMonth(6) == 184;
    assert DaysBeforeYear(1969) == 719162 && DaysBeforeMonth(10) == 306;
  }

  // ---------------------------------------------------------------- consecutive days

  function NextDay(t: Date): Date
    requires 1 <= t.m <= 12
  {
    if t.d < DaysIn(t.y, t.m) then Date(t.y, t.m, t.d + 1)
    else if t.m < 12 then Date(t.y, t.m + 1, 1)
    else Date(t.y + 1, 1, 1)
  }

  lemma QuarterDays(c: int)
    ensures 146097 * c / 4 == 36524 * c + c / 4
    ensures 1461 * c / 4 == 365 * c + c / 4
  {
    assert 146097 * c == 4 * (36524 * c) + c;
    assert 1461 * c == 4 * (365 * c) + c;
  }

  lemma LeapWithinCentury(c: int, ya: int)
    requires 0 <= ya < 99
    ensures IsLeapYear(100 * c + ya + 1) <==> (ya + 1) % 4 == 0
  {
    var y := 100 * c + (ya + 1);
    Remainders(25 * c, ya + 1, y);
    assert y / 100 == c && y % 100 == ya + 1;
    assert y % 400 != 0 by { if y % 400 == 0 { Remainders(y / 400, 0, y); } }
  }

  lemma Remainders(k: int, r: int, y: int)
    ensures y == 4 * k + r ==> y % 4 == r % 4
    ensures y == 400 * k ==> y % 100 == 0
  {
    if y == 400 * k { assert y == 100 * (4 * k); }
  }

  lemma LeapAtCentury(c: int)
    ensures IsLeapYear(100 * c) <==> c % 4 == 0
  {
    assert (100 * c) % 100 == 0;
    var q, r := c / 4, c % 4;
    assert 100 * c == 400 * q + 100 * r;
  }

  /** A March year has 365 days, or 366 when it ends in a leap February. */
  lemma YearLength(a: int)
    requires a >= 0
    ensures DaysBeforeYear(a + 1) - DaysBeforeYear(a) == if IsLeapYear(a + 1) then 366 else 365
  {
    var c, ya := a / 100, a % 100;
    QuarterDays(c);
    QuarterDays(ya);
    if ya == 99 {
      QuarterDays(c + 1);
      LeapAtCentury(c + 1);
      assert a + 1 == 100 * (c + 1) && (a + 1) / 100 == c + 1 && (a + 1) % 100 == 0;
    } else {
      QuarterDays(ya + 1);
      LeapWithinCentury(c, ya);
      assert (a + 1) / 100 == c && (a + 1) % 100 == ya + 1;
    }
  }

  lemma NextIsFull(t: Date)
    requires FullDate(t)
    ensures FullDate(NextDay(t))
  {
  }

  /** The day after the last day of February. */
  lemma MarchBegins(y: int)
    requires y >= 1
    ensures JulianDay(y, 3, 1) == JulianDay(y, 2, DaysIn(y, 2)) + 1
  {
    YearLength(y - 1);
    assert MarchYear(y, 3) == y && MarchYear(y, 2) == y - 1 && DaysBeforeMonth(MarchMonth(3)) == 0;
    assert DaysBeforeMonth(MarchMonth(2)) == 337;
  }

  /** The day after the last day of another month. */
  lemma MonthBegins(y: int, m: int)
    requires 1 <= m <= 12 && m != 2
    ensures JulianDay(if m == 12 then y + 1 else y, if m == 12 then 1 else m + 1, 1) ==
            JulianDay(y, m, DaysIn(y, m)) + 1
  {
    MonthLength(y, m);
    assert MarchYear(y, m) == MarchYear(if m == 12 then y + 1 else y, if m == 12 then 1 else m + 1);
  }

  /** The next calendar day has the next day number. */
  lemma NextDayIsNext(t: Date)
    requires FullDate(t)
    ensures FullDate(NextDay(t))
    ensures DayOf(NextDay(t)) == DayOf(t) + 1
  {
    NextIsFull(t);
    if t.d == DaysIn(t.y, t.m) {
      if t.m == 2 { MarchBegins(t.y); } else { MonthBegins(t.y, t.m); }
    }
  }

  lemma MonthLength(y: int, m: int)
    requires 1 <= m <= 12 && m != 2
    ensures DaysBeforeMonth(MarchMonth(if m == 12 then 1 else m + 1)) == DaysBeforeMonth(MarchMonth(m)) + DaysIn(y, m)
  {
  }

  function DaysLater(t: Date, n: nat): (r: Date)
    requires FullDate(t)
    ensures FullDate(r)
    decreases n
  {
    if n == 0 then t else NextDayIsNext(t); DaysLater(NextDay(t), n - 1)
  }

  function DayOf(t: Date): int { JulianDay(t.y, t.m, t.d) }

  lemma LaterByOne(t: Date, n: nat)
    requires FullDate(t) && n > 0
    ensures FullDate(NextDay(t)) && DaysLater(t, n) == DaysLater(NextDay(t), n - 1) && DayOf(NextDay(t)) == DayOf(t) + 1
  {
    NextDayIsNext(t);
  }

  /** Day numbers count days. */
  lemma {:induction false} DayNumbersCountDays(t: Date, n: nat)
    requires FullDate(t)
    ensures DayOf(DaysLater(t, n)) == DayOf(t) + n
    decreases n
  {
    if n > 0 {
      LaterByOne(t, n);
      DayNumbersCountDays(NextDay(t), n - 1);
    }
  }

  // ---------------------------------------------------------------- from day numbers to dates

  /** A day within its month, and within its March year. */
  lemma DayWithinYear(t: Date)
    requires 1 <= t.m <= 12 && 1 <= t.d <= DaysIn(t.y, t.m)
    ensures MarchMonth(t.m) < 11 ==> t.d + DaysBeforeMonth(MarchMonth(t.m)) <= DaysBeforeMonth(MarchMonth(t.m) + 1)
    ensures 1 <= t.d + DaysBeforeMonth(MarchMonth(t.m)) <= if IsLeapYear(MarchYear(t.y, t.m) + 1) then 366 else 365
  {
    if t.m != 2 { MonthLength(t.y, t.m); }
  }

  lemma MonthsMonotone(a: int, b: int)
    requires 0 <= a <= b
    ensures DaysBeforeMonth(a) <= DaysBeforeMonth(b)
  {
  }

  lemma {:induction false} YearsMonotone(a: int, b: int)
    requires 0 <= a <= b
    ensures DaysBeforeYear(a) <= DaysBeforeYear(b)
    decreases b - a
  {
    if a < b {
      YearsMonotone(a, b - 1);
      YearLength(b - 1);
    }
  }

  ghost predicate Before(s: Date, t: Date)
  {
    || MarchYear(s.y, s.m) < MarchYear(t.y, t.m)
    || (MarchYear(s.y, s.m) == MarchYear(t.y, t.m) &&
        (MarchMonth(s.m) < MarchMonth(t.m) || (MarchMonth(s.m) == MarchMonth(t.m) && s.d < t.d)))
  }

  /** An earlier date has a smaller day number. */
  lemma DayNumbersFollowDates(s: Date, t: Date)
    requires s.y >= 1 && 1 <= s.m <= 12 && 1 <= s.d <= DaysIn(s.y, s.m)
    requires t.y >= 1 && 1 <= t.m <= 12 && 1 <= t.d
    requires Before(s, t)
    ensures DayOf(s) < DayOf(t)
  {
    var a, b := MarchYear(s.y, s.m), MarchYear(t.y, t.m);
    DayWithinYear(s);
    MonthsMonotone(0, MarchMonth(t.m));
    if a < b {
      YearLength(a);
      YearsMonotone(a + 1, b);
    } else if MarchMonth(s.m) < MarchMonth(t.m) {
      MonthsMonotone(MarchMonth(s.m) + 1, MarchMonth(t.m));
    }
  }

  /** Different dates have different day numbers. */
  lemma SameDaySameDate(s: Date, t: Date)
    requires FullDate(s) && FullDate(t) && DayOf(s) == DayOf(t)
    ensures s == t
  {
    if Before(s, t) { DayNumbersFollowDates(s, t); }
    if Before(t, s) { DayNumbersFollowDates(t, s); }
  }

  const FIRST_DAY := 2361222

  /** The century of a day, and the day within it. */
  lemma CenturyOf(j: int, c: int, x: int)
    requires c == (4 * j - 1) / 146097 && x == (4 * j - 1 - 146097 * c) / 4
    ensures j == x + 1 + 146097 * c / 4 && 0 <= x <= 36524
    ensures x == 36524 ==> (c + 1) % 4 == 0
  {
    QuarterDays(c);
    assert 0 <= 4 * j - 1 - 146097 * c <= 146096;
    assert 4 * j - 1 - 146097 * c == 4 * (j - 36524 * c) - 1 - c;
  }

  /** The year of a day of a century, and the day within it. */
  lemma YearOf(x: int, ya: int, dd: int)
    requires 0 <= x <= 36524 && ya == (4 * x + 3) / 1461 && dd == (4 * x + 3 - 1461 * ya + 4) / 4
    ensures x + 1 == dd + 1461 * ya / 4 && 0 <= ya <= 99 && 1 <= dd <= 366
    ensures dd == 366 ==> (ya + 1) % 4 == 0 && (ya == 99 ==> x == 36524)
  {
    QuarterDays(ya);
    assert 0 <= 4 * x + 3 - 1461 * ya <= 1460;
  }

  /** The month of a day of a year, and the day within it. */
  lemma MonthOf(dd: int, mm: int, d: int)
    requires 1 <= dd <= 366 && mm == (5 * dd - 3) / 153 && d == (5 * dd - 3 - 153 * mm + 5) / 5
    ensures dd == d + DaysBeforeMonth(mm) && 0 <= mm <= 11 && d >= 1
    ensures mm < 11 ==> dd <= DaysBeforeMonth(mm + 1)
    ensures mm == 11 ==> d <= 29 && (d == 29 ==> dd == 366)
  {
    assert 0 <= 5 * dd - 3 - 153 * mm <= 152;
  }

  /** The parts make up a date with the given day number. */
  /** The year is the March year, or the next for January and February. */
  function YearFrom(a: int, mm: int): int { if mm < 10 then a else a + 1 }

  function MonthFrom(mm: int): int { if mm < 10 then mm + 3 else mm - 9 }

  /** The day is within its month. */
  lemma DayFits(c: int, ya: int, dd: int, mm: int, d: int)
    requires c >= 0 && 0 <= ya <= 99 && 1 <= dd <= 366 && 0 <= mm <= 11 && 1 <= d && dd == d + DaysBeforeMonth(mm)
    requires dd == 366 ==> (ya + 1) % 4 == 0 && (ya == 99 ==> (c + 1) % 4 == 0)
    requires mm < 11 ==> dd <= DaysBeforeMonth(mm + 1)
    requires mm == 11 ==> d <= 29 && (d == 29 ==> dd == 366)
    ensures d <= DaysIn(YearFrom(100 * c + ya, mm), MonthFrom(mm))
  {
    var a := 100 * c + ya;
    if mm == 11 {
      if d == 29 { if ya == 99 { LeapAtCentury(c + 1); } else { LeapWithinCentury(c, ya); } }
    } else {
      MonthLength(a, MonthFrom(mm));
    }
  }

  lemma DayNumberOf(c: int, ya: int, dd: int, mm: int, d: int)
    requires c >= 0 && 0 <= ya <= 99 && 0 <= mm <= 11 && dd == d + DaysBeforeMonth(mm)
    ensures JulianDay(YearFrom(100 * c + ya, mm), MonthFrom(mm), d) == 1721119 + dd + 1461 * ya / 4 + 146097 * c / 4
  {
    var a := 100 * c + ya;
    assert a / 100 == c && a % 100 == ya;
    assert MarchYear(YearFrom(a, mm), MonthFrom(mm)) == a && MarchMonth(MonthFrom(mm)) == mm;
  }

  lemma Assembled(j: int, c: int, x: int, ya: int, dd: int, mm: int, d: int)
    requires j >= 1 && c == (4 * j - 1) / 146097 && x == (4 * j - 1 - 146097 * c) / 4
    requires ya == (4 * x + 3) / 1461 && dd == (4 * x + 3 - 1461 * ya + 4) / 4
    requires mm == (5 * dd - 3) / 153 && d == (5 * dd - 3 - 153 * mm + 5) / 5
    ensures 0 <= mm <= 11
    ensures var t := Date(YearFrom(100 * c + ya, mm), MonthFrom(mm), d);
            DayOf(t) == 1721119 + j && t.y >= 0 && 1 <= d <= DaysIn(t.y, t.m)
  {
    CenturyOf(j, c, x);
    YearOf(x, ya, dd);
    MonthOf(dd, mm, d);
    assert c >= 0;
    DayFits(c, ya, dd, mm, d);
    DayNumberOf(c, ya, dd, mm, d);
  }

  lemma AssembledDate(j: int, c: int, x: int, ya: int, dd: int, mm: int, d: int)
    requires j >= 1 && c == (4 * j - 1) / 146097 && x == (4 * j - 1 - 146097 * c) / 4
    requires ya == (4 * x + 3) / 1461 && dd == (4 * x + 3 - 1461 * ya + 4) / 4
    requires mm == (5 * dd - 3) / 153 && d == (5 * dd - 3 - 153 * mm + 5) / 5 && 1721119 + j >= FIRST_DAY
    ensures var t := Date(YearFrom(100 * c + ya, mm), MonthFrom(mm), d); DayOf(t) == 1721119 + j && FullDate(t)
  {
    Assembled(j, c, x, ya, dd, mm, d);
    NotBeforeFirst(Date(YearFrom(100 * c + ya, mm), MonthFrom(mm), d));
  }

  /** The first lines of `jul2greg`: the century, and the day within it. */
  method CenturyPart(jd: int) returns (y: int, x: int)
    requires FIRST_DAY <= jd && 4 * (jd - 1721119) < TWO_31
    ensures var n := jd - 1721119; y == (4 * n - 1) / 146097 && x == (4 * n - 1 - 146097 * y) / 4
    ensures 0 <= x <= 36524 && 0 <= y
  {
    ghost var n := jd - 1721119;
    var j := Wrap(jd - 1721119);
    NoWrap(n);
    y := Wrap(j * 4 - 1) / 146097;
    NoWrap(4 * n - 1);
    j := Wrap(j * 4 - 146097 * y - 1);
    NoWrap(4 * n - 1 - 146097 * y);
    x := j / 4;
    CenturyOf(n, y, x);
  }

  /** The year of the century, and the day within it. */
  method YearPart(day: int) returns (j: int, x: int)
    requires 0 <= day <= 36524
    ensures j == (4 * day + 3) / 1461 && x == (4 * day + 3 - 1461 * j + 4) / 4 && 0 <= j <= 99 && 1 <= x <= 366
  {
    j := Wrap(day * 4 + 3) / 1461;
    NoWrap(4 * day + 3);
    x := Wrap(day * 4 + 3 - 1461 * j);
    NoWrap(4 * day + 3 - 1461 * j);
    x := Wrap(x + 4) / 4;
    NoWrap(4 * day + 3 - 1461 * j + 4);
    YearOf(day, j, x);
  }

  /** The month of the year, and the day within it. */
  method MonthPart(day: int) returns (m: int, d: int)
    requires 1 <= day <= 366
    ensures m == (5 * day - 3) / 153 && d == (5 * day - 3 - 153 * m + 5) / 5
  {
    m := Wrap(5 * day - 3) / 153;
    NoWrap(5 * day - 3);
    var x := Wrap(5 * day - 3 - 153 * m);
    NoWrap(5 * day - 3 - 153 * m);
    d := Wrap(x + 5) / 5;
    NoWrap(5 * day - 3 - 153 * m + 5);
  }

  /** `jul2greg`, in 32-bit unsigned arithmetic: the date with the given day number. */
  method Jul2Greg(jd: int) returns (y: int, m: int, d: int)
    requires FIRST_DAY <= jd && 4 * (jd - 1721119) < TWO_31
    ensures FullDate(Date(y, m, d)) && JulianDay(y, m, d) == jd
  {
    var c, dayOfCentury := CenturyPart(jd);
    var ya, dayOfYear := YearPart(dayOfCentury);
    m, d := MonthPart(dayOfYear);
    AssembledDate(jd - 1721119, c, dayOfCentury, ya, dayOfYear, m, d);
    y := 100 * c + ya;
    if m < 10 {
      m := m + 3;
    } else {
      m := m - 9;
      y := y + 1;
    }
    assert DayOf(Date(y, m, d)) == jd;
  }

  lemma NotBeforeFirst(t: Date)
    requires t.y >= 0 && 1 <= t.m <= 12 && 1 <= t.d <= DaysIn(t.y, t.m) && DayOf(t) >= FIRST_DAY
    ensures FullDate(t)
  {
  }

  /** The object. */
  class QDate {
    var jd: int

    /** `setDate`: the day number of the date; an invalid date leaves the object alone. */
    method SetDate(y: int, m: int, d: int) returns (ok: bool)
      modifies this
      ensures ok <==> IsValid(y, m, d)
      ensures !ok ==> jd == old(jd)
      ensures ok ==> jd == Greg2Jul(y, m, d)
      ensures ok && y > 99 && InRange(Date(y, m, d)) ==> IsDay(jd, Date(y, m, d))
      ensures ok && y <= 99 && InRange(Date(1900 + y, m, d)) ==> 0 <= y && IsDay(jd, Date(1900 + y, m, d))
    {
      ok := IsValid(y, m, d);
      if ok {
        jd := Greg2Jul(y, m, d);
        SameInFull(y, m, d);
      }
    }

    /** `getDate` undoes `setDate`. */
    method GetDate() returns (y: int, m: int, d: int)
      requires FIRST_DAY <= jd && 4 * (jd - 1721119) < TWO_31
      ensures FullDate(Date(y, m, d)) && Greg2Jul(y, m, d) == jd
      ensures forall t :: FullDate(t) && InRange(t) && Greg2Jul(t.y, t.m, t.d) == jd ==> t == Date(y, m, d)
    {
      y, m, d := Jul2Greg(jd);
      Greg2JulIsJulianDay(Date(y, m, d));
      forall t | FullDate(t) && InRange(t) && Greg2Jul(t.y, t.m, t.d) == jd ensures t == Date(y, m, d) {
        Greg2JulIsJulianDay(t);
        SameDaySameDate(t, Date(y, m, d));
      }
    }

    /** `addDays`, forward and backward: the object stands for the date that many calendar days away. */
    method AddDays(days: int) returns (r: QDate)
      ensures fresh(r) && r.jd == jd + days
      ensures forall t :: days >= 0 && IsDay(jd, t) && InRange(DaysLater(t, days)) ==> IsDay(r.jd, DaysLater(t, days))
      ensures forall t :: days < 0 && FullDate(t) && IsDay(jd, DaysLater(t, -days)) ==> IsDay(r.jd, t)
    {
      r := new QDate(jd + days);
      forall t | days >= 0 && IsDay(jd, t) && InRange(DaysLater(t, days)) ensures IsDay(r.jd, DaysLater(t, days)) {
        LaterDay(t, days);
      }
      forall t | days < 0 && FullDate(t) && IsDay(jd, DaysLater(t, -days)) ensures IsDay(r.jd, t) {
        EarlierDay(t, -days);
      }
    }

    constructor (day: int)
      ensures jd == day
    {
      jd := day;
    }

    /** `daysTo` counts the calendar days between two dates, in either order: the later one is reached from the
        earlier one in exactly that many days. */
    method DaysTo(other: QDate) returns (days: int)
      ensures days == other.jd - jd
      ensures forall t, u :: IsDay(jd, t) && IsDay(other.jd, u) ==>
                if days >= 0 then u == DaysLater(t, days) else t == DaysLater(u, -days)
    {
      days := other.jd - jd;
      forall t, u | IsDay(jd, t) && IsDay(other.jd, u)
        ensures if days >= 0 then u == DaysLater(t, days) else t == DaysLater(u, -days)
      {
        if days >= 0 { Reached(t, u, days); } else { Reached(u, t, -days); }
      }
    }
  }

  /** A date in range is reached from an earlier one in as many days as their numbers differ. */
  lemma Reached(t: Date, u: Date, n: nat)
    requires FullDate(t) && InRange(t) && FullDate(u) && InRange(u)
    requires Greg2Jul(u.y, u.m, u.d) == Greg2Jul(t.y, t.m, t.d) + n
    ensures u == DaysLater(t, n)
  {
    Greg2JulIsJulianDay(t);
    Greg2JulIsJulianDay(u);
    DayNumbersCountDays(t, n);
    SameDaySameDate(DaysLater(t, n), u);
  }

  /** A short year and its full form have the same day numbers. */
  lemma SameInFull(y: int, m: int, d: int)
    requires IsValid(y, m, d)
    ensures FullDate(Date(FullYear(y), m, d)) && Greg2Jul(FullYear(y), m, d) == Greg2Jul(y, m, d)
  {
  }

  /** The day number is that of the date. */
  ghost predicate IsDay(jd: int, t: Date)
  {
    FullDate(t) && InRange(t) && jd == Greg2Jul(t.y, t.m, t.d)
  }

  /** A date before one in range is in range too. */
  lemma EarlierDay(t: Date, n: nat)
    requires FullDate(t) && InRange(DaysLater(t, n))
    ensures InRange(t) && var r := DaysLater(t, n); Greg2Jul(r.y, r.m, r.d) == Greg2Jul(t.y, t.m, t.d) + n
  {
    DayNumbersCountDays(t, n);
    LaterDay(t, n);
  }

  lemma LaterDay(t: Date, n: nat)
    requires FullDate(t) && InRange(t) && InRange(DaysLater(t, n))
    ensures var r := DaysLater(t, n); Greg2Jul(r.y, r.m, r.d) == Greg2Jul(t.y, t.m, t.d) + n
  {
    Greg2JulIsJulianDay(t);
    Greg2JulIsJulianDay(DaysLater(t, n));
    DayNumbersCountDays(t, n);
  }
}
