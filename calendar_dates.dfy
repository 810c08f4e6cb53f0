/** The date helpers of the admin calendar (src/app/admin/calendar/page.tsx):
    `getDaysInMonth`, `getFirstDayOfMonth`, the `YYYY-MM-DD` key of a grid
    cell, and the string comparison the day filter uses. Months are 0-based as
    in JavaScript. A proleptic Gregorian day count (days since 1970-01-01)
    serves as the reference that ties month lengths, weekdays and the string
    order together. */
module CalendarDates {
  import opened Common

  // ---------------------------------------------------------------------------
  // Month lengths and day numbers

  predicate IsLeap(y: int) {
    y % 4 == 0 && (y % 100 != 0 || y % 400 == 0)
  }

  /** `new Date(year, month + 1, 0).getDate()`: the last day of 0-based month `m`. */
  function DaysInMonth(y: int, m: int): (n: int)
    requires 0 <= m < 12
    ensures 28 <= n <= 31
    ensures m == 1 ==> (n == 29 <==> IsLeap(y))
    ensures m != 1 ==> (n == 30 <==> m in {3, 5, 8, 10})
    ensures m == 1 && !IsLeap(y) ==> n == 28
    ensures m != 1 && m !in {3, 5, 8, 10} ==> n == 31
  {
    if m == 1 then (if IsLeap(y) then 29 else 28)
    else if m in {3, 5, 8, 10} then 30
    else 31
  }

  /** Leap years before year `y` (from year 1, by floor division). */
  function LeapsBefore(y: int): int {
    (y - 1) / 4 - (y - 1) / 100 + (y - 1) / 400
  }

  function YearLength(y: int): int {
    if IsLeap(y) then 366 else 365
  }

  /** Days from 1970-01-01 to January 1st of year `y`. */
  function DaysBeforeYear(y: int): int {
    365 * (y - 1970) + LeapsBefore(y) - LeapsBefore(1970)
  }

  /** Days from January 1st to the 1st of 0-based month `m` (`m == 12` is the year's end). */
  function DaysBeforeMonth(y: int, m: int): (n: int)
    requires 0 <= m <= 12
    ensures 28 * m <= n <= 31 * m
  {
    if m == 0 then 0 else DaysBeforeMonth(y, m - 1) + DaysInMonth(y, m - 1)
  }

  /** Days since 1970-01-01 of day `d` of 0-based month `m` of year `y`. */
  function DayNumber(y: int, m: int, d: int): int
    requires 0 <= m < 12
  {
    DaysBeforeYear(y) + DaysBeforeMonth(y, m) + d - 1
  }

  /** A day of the calendar: 0-based month, day within the month's length. */
  predicate ValidDate(y: int, m: int, d: int) {
    0 <= m < 12 && 1 <= d <= DaysInMonth(y, m)
  }

  /** One more leap year is counted exactly after a leap year. */
  lemma LeapStep(y: int)
    ensures LeapsBefore(y + 1) - LeapsBefore(y) == if IsLeap(y) then 1 else 0
  {
    DivStep(y, 4);
    DivStep(y, 100);
    DivStep(y, 400);
    assert y % 400 == 0 ==> y % 100 == 0 by {
      if y % 400 == 0 { assert y == 100 * (4 * (y / 400)); }
    }
    assert y % 100 == 0 ==> y % 4 == 0 by {
      if y % 100 == 0 { assert y == 4 * (25 * (y / 100)); }
    }
  }

  /** Floor division by 4, 100 or 400 steps up exactly at the multiples. */
  lemma DivStep(y: int, k: int)
    requires k == 4 || k == 100 || k == 400
    ensures y / k - (y - 1) / k == if y % k == 0 then 1 else 0
  {
    var q, r := (y - 1) / k, (y - 1) % k;
    assert y == q * k + r + 1;
    if k == 4 {
      assert y == 4 * q + (r + 1);
    } else if k == 100 {
      assert y == 100 * q + (r + 1);
    } else {
      assert y == 400 * q + (r + 1);
    }
  }

  /** The months of a year add up to the year's length. */
  lemma MonthsFillYear(y: int)
    ensures DaysBeforeMonth(y, 12) == YearLength(y)
  {
    var feb := DaysInMonth(y, 1);
    assert DaysBeforeMonth(y, 1) == 31;
    assert DaysBeforeMonth(y, 2) == 31 + feb;
    assert DaysBeforeMonth(y, 3) == 62 + feb;
    assert DaysBeforeMonth(y, 4) == 92 + feb;
    assert DaysBeforeMonth(y, 5) == 123 + feb;
    assert DaysBeforeMonth(y, 6) == 153 + feb;
    assert DaysBeforeMonth(y, 7) == 184 + feb;
    assert DaysBeforeMonth(y, 8) == 215 + feb;
    assert DaysBeforeMonth(y, 9) == 245 + feb;
    assert DaysBeforeMonth(y, 10) == 276 + feb;
    assert DaysBeforeMonth(y, 11) == 306 + feb;
  }

  /** Consecutive years are one year length apart. */
  lemma YearStep(y: int)
    ensures DaysBeforeYear(y + 1) == DaysBeforeYear(y) + YearLength(y)
  {
    LeapStep(y);
  }

  /** 2024-01-01 is day 19723 and a Monday. */
  lemma DayNumberExample()
    ensures DayNumber(2024, 0, 1) == 19723
    ensures FirstDayOfMonth(2024, 0) == 1
  {
  }

  /** `new Date(year, month, 1).getDay()`: 0 is Sunday; 1970-01-01 was a Thursday (4). */
  function FirstDayOfMonth(y: int, m: int): (w: int)
    requires 0 <= m < 12
    ensures 0 <= w <= 6
  {
    (DayNumber(y, m, 1) + 4) % 7
  }

  /** The 1st of the next month (0-based month, rolling the year). */
  function NextMonth(y: int, m: int): (int, int)
    requires 0 <= m < 12
  {
    if m == 11 then (y + 1, 0) else (y, m + 1)
  }

  /** The last day of a month is followed by the 1st of the next: the month
      lengths and the leap rule describe one continuous day count. */
  lemma MonthsAreContiguous(y: int, m: int)
    requires 0 <= m < 12
    ensures var (ny, nm) := NextMonth(y, m);
      DayNumber(ny, nm, 1) == DayNumber(y, m, DaysInMonth(y, m)) + 1
  {
    if m == 11 {
      YearStep(y);
      MonthsFillYear(y);
    }
  }

  /** Hence the grid of the next month starts on the weekday after this month's last day. */
  lemma NextFirstDay(y: int, m: int)
    requires 0 <= m < 12
    ensures var (ny, nm) := NextMonth(y, m);
      FirstDayOfMonth(ny, nm) == (FirstDayOfMonth(y, m) + DaysInMonth(y, m)) % 7
  {
    MonthsAreContiguous(y, m);
    ModAddSeven(DayNumber(y, m, 1) + 4, DaysInMonth(y, m));
  }

  lemma ModAddSeven(x: int, n: int)
    ensures (x + n) % 7 == (x % 7 + n) % 7
  {
    assert x + n == 7 * (x / 7) + (x % 7 + n);
  }

  // ---------------------------------------------------------------------------
  // Chronological order of valid dates

  /** Calendar order: by year, then month, then day. */
  predicate DateLe(y1: int, m1: int, d1: int, y2: int, m2: int, d2: int) {
    y1 < y2 || (y1 == y2 && (m1 < m2 || (m1 == m2 && d1 <= d2)))
  }

  lemma {:induction false} DaysBeforeYearIncreasing(y1: int, y2: int)
    requires y1 < y2
    ensures DaysBeforeYear(y1) + YearLength(y1) <= DaysBeforeYear(y2)
    decreases y2 - y1
  {
    YearStep(y1);
    if y1 + 1 < y2 {
      DaysBeforeYearIncreasing(y1 + 1, y2);
    }
  }

  lemma {:induction false} DaysBeforeMonthIncreasing(y: int, m1: int, m2: int)
    requires 0 <= m1 < m2 <= 12
    ensures DaysBeforeMonth(y, m1) + DaysInMonth(y, m1) <= DaysBeforeMonth(y, m2)
    decreases m2 - m1
  {
    if m1 + 1 < m2 {
      DaysBeforeMonthIncreasing(y, m1 + 1, m2);
    }
  }

  /** A valid date falls inside its year. */
  lemma DayNumberWithinYear(y: int, m: int, d: int)
    requires ValidDate(y, m, d)
    ensures DaysBeforeYear(y) <= DayNumber(y, m, d) < DaysBeforeYear(y) + YearLength(y)
  {
    if m < 11 {
      DaysBeforeMonthIncreasing(y, m, 12);
    }
    MonthsFillYear(y);
  }

  /** On valid dates, calendar order is day-number order. */
  lemma DateLeIffDayNumber(y1: int, m1: int, d1: int, y2: int, m2: int, d2: int)
    requires ValidDate(y1, m1, d1) && ValidDate(y2, m2, d2)
    ensures DateLe(y1, m1, d1, y2, m2, d2) <==> DayNumber(y1, m1, d1) <= DayNumber(y2, m2, d2)
  {
    DayNumberWithinYear(y1, m1, d1);
    DayNumberWithinYear(y2, m2, d2);
    if y1 < y2 {
      DaysBeforeYearIncreasing(y1, y2);
    } else if y2 < y1 {
      DaysBeforeYearIncreasing(y2, y1);
    } else if m1 < m2 {
      DaysBeforeMonthIncreasing(y1, m1, m2);
    } else if m2 < m1 {
      DaysBeforeMonthIncreasing(y1, m2, m1);
    }
  }

  // ---------------------------------------------------------------------------
  // The `YYYY-MM-DD` key and string comparison

  /** `String(n).padStart(2, "0")`. */
  function PadStart2(s: string): (r: string)
    ensures |r| == if |s| >= 2 then |s| else 2
  {
    if |s| >= 2 then s else if |s| == 1 then "0" + s else "00"
  }

  /** `${year}-${String(month + 1).padStart(2, "0")}-${String(day).padStart(2, "0")}`. */
  function DateStr(y: int, m: int, d: int): string {
    IntToString(y) + "-" + PadStart2(IntToString(m + 1)) + "-" + PadStart2(IntToString(d))
  }

  /** JavaScript's `a <= b` on strings: `a` is a prefix of `b`, or is smaller at
      the first position where they differ. */
  predicate LexLe(a: string, b: string) {
    if a == [] then true
    else if b == [] then false
    else if a[0] != b[0] then a[0] < b[0]
    else LexLe(a[1..], b[1..])
  }

  /** Any two strings are ordered one way or the other. */
  lemma {:induction false} LexLeTotal(a: string, b: string)
    ensures LexLe(a, b) || LexLe(b, a)
  {
    if a != [] && b != [] && a[0] == b[0] {
      LexLeTotal(a[1..], b[1..]);
    }
  }

  /** Strings ordered both ways are equal. */
  lemma {:induction false} LexLeAntisymmetric(a: string, b: string)
    requires LexLe(a, b) && LexLe(b, a)
    ensures a == b
  {
    if a != [] && b != [] {
      LexLeAntisymmetric(a[1..], b[1..]);
      assert a == [a[0]] + a[1..] && b == [b[0]] + b[1..];
    }
  }

  lemma {:induction false} LexLeTransitive(a: string, b: string, c: string)
    requires LexLe(a, b) && LexLe(b, c)
    ensures LexLe(a, c)
  {
    if a != [] && b != [] && c != [] && a[0] == b[0] && b[0] == c[0] {
      LexLeTransitive(a[1..], b[1..], c[1..]);
    }
  }

  /** Comparing strings that start with blocks of equal length: the first
      blocks decide unless they are equal. */
  lemma {:induction false} LexLeAppend(a: string, b: string, c: string, d: string)
    requires |a| == |c|
    ensures LexLe(a + b, c + d) <==> (a != c && LexLe(a, c)) || (a == c && LexLe(b, d))
  {
    if a != [] {
      assert (a + b)[0] == a[0] && (a + b)[1..] == a[1..] + b;
      assert (c + d)[0] == c[0] && (c + d)[1..] == c[1..] + d;
      LexLeAppend(a[1..], b, c[1..], d);
      assert a[0] == c[0] ==> (a == c <==> a[1..] == c[1..]) by {
        if a[0] == c[0] && a[1..] == c[1..] {
          assert a == [a[0]] + a[1..] && c == [c[0]] + c[1..];
        }
      }
    } else {
      assert a + b == b && c + d == d;
    }
  }

  /** The two digits of a number below 100. */
  function Digits2(n: int): string
    requires 0 <= n < 100
  {
    [DigitChar(n / 10), DigitChar(n % 10)]
  }

  /** Two-digit blocks compare like the numbers they spell. */
  lemma Digits2Order(n1: int, n2: int)
    requires 0 <= n1 < 100 && 0 <= n2 < 100
    ensures Digits2(n1) == Digits2(n2) <==> n1 == n2
    ensures LexLe(Digits2(n1), Digits2(n2)) <==> n1 <= n2
  {
    var a, b := Digits2(n1), Digits2(n2);
    var a1, b1 := [DigitChar(n1 % 10)], [DigitChar(n2 % 10)];
    assert a[1..] == a1 && b[1..] == b1;
    assert a1[1..] == [] && b1[1..] == [];
    assert LexLe(a1, b1) <==> n1 % 10 <= n2 % 10;
    assert LexLe(a, b) <==> n1 / 10 < n2 / 10 || (n1 / 10 == n2 / 10 && LexLe(a1, b1));
    if a == b {
      assert a[0] == b[0] && a[1] == b[1];
    }
  }

  /** `padStart(2, "0")` of a number below 100 is its two digits. */
  lemma PaddedIsDigits2(n: int)
    requires 0 <= n < 100
    ensures PadStart2(IntToString(n)) == Digits2(n)
  {
    if n >= 10 {
      assert NatToString(n) == NatToString(n / 10) + [DigitChar(n % 10)];
      assert NatToString(n / 10) == [DigitChar(n / 10)];
    }
  }

  /** A four-digit year is written as two two-digit blocks. */
  lemma YearIsDigits(y: int)
    requires 1000 <= y <= 9999
    ensures IntToString(y) == Digits2(y / 100) + Digits2(y % 100)
  {
    assert NatToString(y) == NatToString(y / 10) + [DigitChar(y % 10)];
    assert NatToString(y / 10) == NatToString(y / 100) + [DigitChar(y / 10 % 10)];
    assert NatToString(y / 100) == NatToString(y / 1000) + [DigitChar(y / 100 % 10)];
    assert NatToString(y / 1000) == [DigitChar(y / 1000)];
    assert y / 100 / 10 == y / 1000 && y / 100 % 10 == y / 10 % 10 * 0 + y / 100 % 10;
    assert (y % 100) / 10 == y / 10 % 10 && (y % 100) % 10 == y % 10;
  }

  /** The key of a date with a four-digit year, block by block. */
  lemma DateStrBlocks(y: int, m: int, d: int)
    requires 1000 <= y <= 9999 && 0 <= m < 12 && 1 <= d <= 31
    ensures DateStr(y, m, d) == Digits2(y / 100) + (Digits2(y % 100) + ("-" + (Digits2(m + 1) + ("-" + Digits2(d)))))
  {
    YearIsDigits(y);
    PaddedIsDigits2(m + 1);
    PaddedIsDigits2(d);
  }

  /** For zero-padded dates with four-digit years, the string comparison the
      calendar filter uses is calendar order. */
  lemma DateStrOrder(y1: int, m1: int, d1: int, y2: int, m2: int, d2: int)
    requires 1000 <= y1 <= 9999 && 0 <= m1 < 12 && 1 <= d1 <= 31
    requires 1000 <= y2 <= 9999 && 0 <= m2 < 12 && 1 <= d2 <= 31
    ensures LexLe(DateStr(y1, m1, d1), DateStr(y2, m2, d2)) <==> DateLe(y1, m1, d1, y2, m2, d2)
  {
    DateStrBlocks(y1, m1, d1);
    DateStrBlocks(y2, m2, d2);
    var dd := LexLe(Digits2(d1), Digits2(d2));
    Digits2Order(d1, d2);
    var tm1, tm2 := "-" + Digits2(d1), "-" + Digits2(d2);
    LexLeAppend("-", Digits2(d1), "-", Digits2(d2));
    var mm1, mm2 := Digits2(m1 + 1) + tm1, Digits2(m2 + 1) + tm2;
    LexLeAppend(Digits2(m1 + 1), tm1, Digits2(m2 + 1), tm2);
    Digits2Order(m1 + 1, m2 + 1);
    var sm1, sm2 := "-" + mm1, "-" + mm2;
    LexLeAppend("-", mm1, "-", mm2);
    var lo1, lo2 := Digits2(y1 % 100) + sm1, Digits2(y2 % 100) + sm2;
    LexLeAppend(Digits2(y1 % 100), sm1, Digits2(y2 % 100), sm2);
    Digits2Order(y1 % 100, y2 % 100);
    LexLeAppend(Digits2(y1 / 100), lo1, Digits2(y2 / 100), lo2);
    Digits2Order(y1 / 100, y2 / 100);
  }

  /** The same order on valid dates is the order of their day numbers. */
  lemma DateStrChronological(y1: int, m1: int, d1: int, y2: int, m2: int, d2: int)
    requires 1000 <= y1 <= 9999 && ValidDate(y1, m1, d1)
    requires 1000 <= y2 <= 9999 && ValidDate(y2, m2, d2)
    ensures LexLe(DateStr(y1, m1, d1), DateStr(y2, m2, d2)) <==> DayNumber(y1, m1, d1) <= DayNumber(y2, m2, d2)
  {
    DateStrOrder(y1, m1, d1, y2, m2, d2);
    DateLeIffDayNumber(y1, m1, d1, y2, m2, d2);
  }

  /** `s.split("T")[0]`: the text before the first `T`. */
  function DatePart(s: string): (r: string)
    ensures |r| <= |s| && r == s[..|r|] && 'T' !in r
    ensures |r| < |s| ==> s[|r|] == 'T'
  {
    if s == [] then []
    else if s[0] == 'T' then []
    else
      var rest := DatePart(s[1..]);
      assert s[..|rest| + 1] == [s[0]] + s[1..][..|rest|];
      [s[0]] + rest
  }

  /** A date key has no `T`, so both a bare date and an ISO timestamp give it back. */
  lemma DatePartOfKey(y: int, m: int, d: int, time: string)
    requires 1000 <= y <= 9999 && 0 <= m < 12 && 1 <= d <= 31
    ensures DatePart(DateStr(y, m, d)) == DateStr(y, m, d)
    ensures DatePart(DateStr(y, m, d) + "T" + time) == DateStr(y, m, d)
  {
    var s := DateStr(y, m, d);
    DateStrBlocks(y, m, d);
    assert 'T' !in Digits2(y / 100) && 'T' !in Digits2(y % 100) && 'T' !in Digits2(m + 1) && 'T' !in Digits2(d);
    DatePartStops(s, []);
    assert s + [] == s;
    DatePartStops(s, "T" + time);
    assert s + "T" + time == s + ("T" + time);
  }

  /** `DatePart` of a `T`-free prefix followed by `T` or nothing is that prefix. */
  lemma {:induction false} DatePartStops(p: string, rest: string)
    requires 'T' !in p
    requires rest == [] || rest[0] == 'T'
    ensures DatePart(p + rest) == p
  {
    if p == [] {
      assert p + rest == rest;
    } else {
      assert (p + rest)[1..] == p[1..] + rest;
      assert 'T' !in p[1..] by {
        forall i | 0 <= i < |p[1..]| ensures p[1..][i] != 'T' { assert p[1..][i] == p[i + 1]; }
      }
      DatePartStops(p[1..], rest);
      assert p == [p[0]] + p[1..];
    }
  }
}
