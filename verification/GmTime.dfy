/** Times of the calendar daemon, wmail/pcp/pcpgmtime.c: from a date to a count of seconds by way
    of whatever time zone the library is in, and to and from a string of digits.  A time_t is any
    integer here. */
module GmTime {
  import opened CStrings
  import opened Decimal

  // ----- the Gregorian calendar

  datatype Date = Date(y: int, m: int, d: int)

  predicate Leap(y: int) {
    y % 400 == 0 || (y % 4 == 0 && y % 100 != 0)
  }

  const MLENGTH: seq<int> := [31, 28, 31, 30, 31, 30, 31, 31, 30, 31, 30, 31]

  function MDays(m: int, y: int): (n: int)
    requires 1 <= m <= 12
    ensures 28 <= n <= 31
  {
    if m != 2 then MLENGTH[m - 1] else if Leap(y) then 29 else 28
  }

  predicate IsDate(a: Date) {
    1 <= a.m <= 12 && 1 <= a.d <= MDays(a.m, a.y)
  }

  function YearLength(y: int): int {
    if Leap(y) then 366 else 365
  }

  /** Days from the first of January 1970 to that of the year y. */
  function DaysBefore(y: int): int {
    365 * (y - 1970) + Leaps(y) - Leaps(1970)
  }

  function Leaps(y: int): int {
    (y - 1) / 4 - (y - 1) / 100 + (y - 1) / 400
  }

  function DaysInto(y: int, m: int): (n: int)
    requires 1 <= m <= 12
    decreases m
  {
    if m == 1 then 0 else DaysInto(y, m - 1) + MDays(m - 1, y)
  }

  /** The number of a date, from the first of January 1970. */
  function DayNumber(a: Date): int
    requires IsDate(a)
  {
    DaysBefore(a.y) + DaysInto(a.y, a.m) + a.d - 1
  }

  function NextDay(a: Date): (b: Date)
    requires IsDate(a)
    ensures IsDate(b)
  {
    if a.d < MDays(a.m, a.y) then a.(d := a.d + 1)
    else if a.m < 12 then Date(a.y, a.m + 1, 1)
    else Date(a.y + 1, 1, 1)
  }

  function DayBefore(a: Date): (b: Date)
    requires IsDate(a)
    ensures IsDate(b)
  {
    if a.d > 1 then a.(d := a.d - 1)
    else if a.m > 1 then Date(a.y, a.m - 1, MDays(a.m - 1, a.y))
    else Date(a.y - 1, 12, 31)
  }

  /** The calendar, day by day from the first of January 1970. */
  function DateOf(n: int): (a: Date)
    ensures IsDate(a)
    decreases if n < 0 then -n else n
  {
    if n == 0 then Date(1970, 1, 1)
    else if n > 0 then NextDay(DateOf(n - 1))
    else DayBefore(DateOf(n + 1))
  }

  const DAY := 24 * 60 * 60

  datatype Tm = Tm(date: Date, hour: int, min: int, sec: int)

  /** gmtime. */
  function GmTimeOf(t: int): (tm: Tm)
    ensures IsDate(tm.date) && 0 <= tm.hour < 24 && 0 <= tm.min < 60 && 0 <= tm.sec < 60
    ensures tm.hour * 60 * 60 + tm.min * 60 + tm.sec == t % DAY
  {
    var s := t % DAY;
    Tm(DateOf(t / DAY), s / 3600, s / 60 % 60, s % 60)
  }

  // ----- counting days and comparing dates

  lemma QuotientGrows(y: int, k: int)
    requires k == 4 || k == 100 || k == 400
    ensures y / k == (y - 1) / k + if y % k == 0 then 1 else 0
  {}

  /** A multiple of 400 is one of 100, and a multiple of 100 is one of 4. */
  lemma Multiples(y: int)
    ensures (y % 400 == 0 ==> y % 100 == 0) && (y % 100 == 0 ==> y % 4 == 0)
  {
    if y % 400 == 0 {
      Multiple(y, 4 * (y / 400), 100);
    }
    if y % 100 == 0 {
      Multiple(y, 25 * (y / 100), 4);
    }
  }

  lemma Multiple(y: int, q: int, k: int)
    requires k == 4 || k == 100
    requires y == q * k
    ensures y % k == 0
  {}

  lemma YearAfter(y: int)
    ensures DaysBefore(y + 1) == DaysBefore(y) + YearLength(y)
  {
    LeapsGrow(y);
    hide Leaps, Leap;
  }

  lemma LeapsGrow(y: int)
    ensures Leaps(y + 1) == Leaps(y) + if Leap(y) then 1 else 0
  {
    QuotientGrows(y, 4);
    QuotientGrows(y, 100);
    QuotientGrows(y, 400);
    Multiples(y);
  }

  lemma WholeYear(y: int)
    ensures DaysInto(y, 12) + 31 == YearLength(y)
  {
    assert DaysInto(y, 3) == 31 + MDays(2, y);
    assert DaysInto(y, 6) == DaysInto(y, 3) + 92;
    assert DaysInto(y, 9) == DaysInto(y, 6) + 92;
    assert DaysInto(y, 12) == DaysInto(y, 9) + 91;
  }

  lemma NextNumber(a: Date)
    requires IsDate(a)
    ensures DayNumber(NextDay(a)) == DayNumber(a) + 1
  {
    if a.d == MDays(a.m, a.y) && a.m == 12 {
      YearAfter(a.y);
      WholeYear(a.y);
    }
  }

  lemma NextOfBefore(a: Date)
    requires IsDate(a)
    ensures NextDay(DayBefore(a)) == a
  {}

  lemma {:induction false} NumberOfDate(n: int)
    ensures DayNumber(DateOf(n)) == n
    decreases if n < 0 then -n else n
  {
    hide DayNumber, NextDay, DayBefore;
    if n > 0 {
      NumberOfDate(n - 1);
      NextNumber(DateOf(n - 1));
    } else if n < 0 {
      NumberOfDate(n + 1);
      NextOfBefore(DateOf(n + 1));
      NextNumber(DayBefore(DateOf(n + 1)));
    } else {
      FirstDay();
    }
  }

  lemma FirstDay()
    ensures DayNumber(Date(1970, 1, 1)) == 0
  {}

  function TmCmp(y1: int, m1: int, d1: int, y2: int, m2: int, d2: int): (n: int)
    ensures -1 <= n <= 1
  {
    if y1 < y2 then -1
    else if y1 > y2 then 1
    else if m1 < m2 then -1
    else if m1 > m2 then 1
    else if d1 < d2 then -1
    else if d1 > d2 then 1
    else 0
  }

  function Compare(a: Date, b: Date): int {
    TmCmp(a.y, a.m, a.d, b.y, b.m, b.d)
  }

  lemma {:induction false} MonthsGrow(y: int, m: int, n: int)
    requires 1 <= m < n <= 12
    ensures DaysInto(y, m) + MDays(m, y) <= DaysInto(y, n)
    decreases n
  {
    if m + 1 < n {
      MonthsGrow(y, m, n - 1);
    }
  }

  lemma InYear(a: Date)
    requires IsDate(a)
    ensures DaysBefore(a.y) <= DayNumber(a) < DaysBefore(a.y + 1)
  {
    hide DaysBefore, DaysInto;
    YearAfter(a.y);
    WholeYear(a.y);
    JanuaryFirst(a.y);
    if a.m < 12 {
      MonthsGrow(a.y, a.m, 12);
    }
    if a.m > 1 {
      MonthsGrow(a.y, 1, a.m);
    }
  }

  lemma JanuaryFirst(y: int)
    ensures DaysInto(y, 1) == 0
  {}

  lemma {:induction false} YearsGrow(y: int, z: int)
    requires y <= z
    ensures DaysBefore(y) <= DaysBefore(z)
    decreases z - y
  {
    hide DaysBefore;
    if y < z {
      YearsGrow(y, z - 1);
      YearAfter(z - 1);
    }
  }

  lemma Earlier(a: Date, b: Date)
    requires IsDate(a) && IsDate(b) && Compare(a, b) < 0
    ensures DayNumber(a) < DayNumber(b)
  {
    hide DaysBefore, DaysInto, YearLength, MDays;
    if a.y < b.y {
      InYear(a);
      InYear(b);
      YearsGrow(a.y + 1, b.y);
    } else if a.m < b.m {
      MonthsGrow(a.y, a.m, b.m);
    }
  }

  /** The comparison of dates is that of their numbers. */
  lemma CompareNumbers(a: Date, b: Date)
    requires IsDate(a) && IsDate(b)
    ensures Compare(a, b) < 0 <==> DayNumber(a) < DayNumber(b)
    ensures Compare(a, b) > 0 <==> DayNumber(a) > DayNumber(b)
    ensures Compare(a, b) == 0 <==> a == b
  {
    hide DayNumber;
    if Compare(a, b) < 0 {
      Earlier(a, b);
    } else if Compare(a, b) > 0 {
      Earlier(b, a);
    }
  }

  /** The number of a date is its place in the calendar. */
  lemma DateOfNumber(a: Date)
    requires IsDate(a)
    ensures DateOf(DayNumber(a)) == a
  {
    hide DayNumber, DateOf;
    NumberOfDate(DayNumber(a));
    CompareNumbers(DateOf(DayNumber(a)), a);
  }

  // ----- pcp_gmtime

  /** What the library says while a time is looked for: whether localtime works at all, what
      mktime returns the first and the second time, and whether that is a local midnight. */
  datatype Zone = Zone(working: bool, first: int, second: int, midnight: bool)

  predicate InRange(y: int, m: int, d: int, hh: int, mm: int, ss: int) {
    && 1970 <= y <= 3000 && 1 <= m <= 12 && 1 <= d <= MDays(m, y)
    && 0 <= hh <= 23 && 0 <= mm <= 59 && 0 <= ss <= 59
  }

  predicate Passes(zone: Zone) {
    zone.working && zone.first != -1 && zone.second != -1 && zone.midnight
  }

  /** The result depends on the zone only in whether there is one. */
  function GmTime(y: int, m: int, d: int, hh: int, mm: int, ss: int, zone: Zone): int {
    if InRange(y, m, d, hh, mm, ss) && Passes(zone)
    then DAY * DayNumber(Date(y, m, d)) + hh * 60 * 60 + mm * 60 + ss
    else 0
  }

  // ----- the same in closed form

  lemma MonthLength(y: int, m: int)
    requires 1 <= m <= 12
    ensures MDays(m, y) ==
      if m == 2 then (if y % 400 == 0 || (y % 4 == 0 && y % 100 != 0) then 29 else 28)
      else if m == 4 || m == 6 || m == 9 || m == 11 then 30 else 31
  {}

  lemma {:induction false} DaysIntoIs(y: int, m: int)
    requires 1 <= m <= 12
    ensures DaysInto(y, m) ==
      if m <= 2 then 31 * (m - 1) else (153 * (m - 3) + 2) / 5 + 59 + (if Leap(y) then 1 else 0)
    decreases m
  {
    if m > 1 {
      DaysIntoIs(y, m - 1);
      MonthLength(y, m - 1);
      if m > 3 {
        March(m);
      }
    }
  }

  lemma March(m: int)
    requires 3 < m <= 12
    ensures (153 * (m - 3) + 2) / 5 - (153 * (m - 4) + 2) / 5 ==
      if m == 5 || m == 7 || m == 10 || m == 12 then 30 else 31
  {}

  /** The seconds of a date and a time, without the table of the months. */
  lemma Seconds(y: int, m: int, d: int, hh: int, mm: int, ss: int, zone: Zone)
    requires Passes(zone) && 1970 <= y <= 3000 && 1 <= m <= 12
    requires 1 <= d <= if m == 2 then (if y % 400 == 0 || (y % 4 == 0 && y % 100 != 0) then 29 else 28)
                       else if m == 4 || m == 6 || m == 9 || m == 11 then 30 else 31
    requires 0 <= hh <= 23 && 0 <= mm <= 59 && 0 <= ss <= 59
    ensures GmTime(y, m, d, hh, mm, ss, zone) ==
      86400 * (365 * (y - 1970) + (y - 1) / 4 - (y - 1) / 100 + (y - 1) / 400 - 477
               + (if m <= 2 then 31 * (m - 1)
                  else (153 * (m - 3) + 2) / 5 + 59 + (if y % 400 == 0 || (y % 4 == 0 && y % 100 != 0) then 1 else 0))
               + d - 1)
      + 3600 * hh + 60 * mm + ss
  {
    hide DaysInto, MDays;
    MonthLength(y, m);
    DaysIntoIs(y, m);
  }

  /** And only for such dates and times. */
  lemma NoSeconds(y: int, m: int, d: int, hh: int, mm: int, ss: int, zone: Zone)
    requires y < 1970 || y > 3000 || m < 1 || m > 12 || d < 1 || hh < 0 || hh > 23 || mm < 0 || mm > 59
      || ss < 0 || ss > 59
      || d > if m == 2 then (if y % 400 == 0 || (y % 4 == 0 && y % 100 != 0) then 29 else 28)
             else if m == 4 || m == 6 || m == 9 || m == 11 then 30 else 31
    ensures GmTime(y, m, d, hh, mm, ss, zone) == 0
  {
    if 1 <= m <= 12 {
      MonthLength(y, m);
    }
  }

  lemma FirstOfJuly(zone: Zone)
    requires Passes(zone)
    ensures GmTime(2024, 7, 1, 0, 0, 0, zone) == 1719792000
  {
    hide GmTime;
    Seconds(2024, 7, 1, 0, 0, 0, zone);
  }

  lemma DayLater(t: int)
    ensures (t + DAY) / DAY == t / DAY + 1 && (t + DAY) % DAY == t % DAY
    ensures (t - DAY) / DAY == t / DAY - 1 && (t - DAY) % DAY == t % DAY
  {}

  /** The comparison of a time with a date tells which way the date is. */
  lemma Direction(t: int, a: Date)
    requires IsDate(a)
    ensures var n := Compare(GmTimeOf(t).date, a);
      (n < 0 <==> t / DAY < DayNumber(a)) && (n > 0 <==> t / DAY > DayNumber(a))
  {
    hide DateOf, DayNumber, Compare;
    NumberOfDate(t / DAY);
    CompareNumbers(DateOf(t / DAY), a);
  }

  /** The two loops: days forward, or days back, to the very date. */
  method FindDay(start: int, y: int, m: int, d: int) returns (t: int, tm: Tm)
    requires IsDate(Date(y, m, d))
    ensures tm == GmTimeOf(t) && t / DAY == DayNumber(Date(y, m, d)) && t % DAY == start % DAY
  {
    hide DateOf, DayNumber, TmCmp;
    ghost var target := DayNumber(Date(y, m, d));
    t := start;
    tm := GmTimeOf(t);
    var n := TmCmp(tm.date.y, tm.date.m, tm.date.d, y, m, d);
    Direction(t, Date(y, m, d));
    if n < 0 {
      while n < 0
        invariant t % DAY == start % DAY && t / DAY <= target && tm == GmTimeOf(t)
        invariant n < 0 <==> t / DAY < target
        decreases target - t / DAY
      {
        DayLater(t);
        t := t + DAY;
        tm := GmTimeOf(t);
        n := TmCmp(tm.date.y, tm.date.m, tm.date.d, y, m, d);
        Direction(t, Date(y, m, d));
      }
    } else {
      while n > 0
        invariant t % DAY == start % DAY && t / DAY >= target && tm == GmTimeOf(t)
        invariant n > 0 <==> t / DAY > target
        decreases t / DAY - target
      {
        DayLater(t);
        t := t - DAY;
        tm := GmTimeOf(t);
        n := TmCmp(tm.date.y, tm.date.m, tm.date.d, y, m, d);
        Direction(t, Date(y, m, d));
      }
    }
  }

  /** pcp_gmtime. */
  method PcpGmTime(y: int, m: int, d: int, hh: int, mm: int, ss: int, zone: Zone) returns (t: int)
    ensures t == GmTime(y, m, d, hh, mm, ss, zone)
  {
    hide DayNumber, DateOf;
    if y < 1970 || y > 3000 || m < 1 || m > 12 || d < 1 || d > MDays(m, y) || hh < 0 || mm < 0 || ss < 0
       || hh > 23 || mm > 59 || ss > 59
    {
      return 0;
    }
    if !zone.working {
      return 0;
    }
    if zone.first == -1 {
      return 0;
    }
    if zone.second == -1 {
      return 0;
    }
    if !zone.midnight {
      return 0;
    }
    var tm;
    t, tm := FindDay(zone.second, y, m, d);
    t := t - (tm.hour * 60 * 60 + tm.min * 60 + tm.sec);
    t := t + hh * 60 * 60 + mm * 60 + ss;
  }

  /** The time that was made from a date and a time of day is that time of that date. */
  lemma GmTimeInverse(y: int, m: int, d: int, hh: int, mm: int, ss: int, zone: Zone)
    requires InRange(y, m, d, hh, mm, ss) && Passes(zone)
    ensures GmTimeOf(GmTime(y, m, d, hh, mm, ss, zone)) == Tm(Date(y, m, d), hh, mm, ss)
  {
    hide DayNumber, DateOf;
    DateOfNumber(Date(y, m, d));
    DayAndTime(DayNumber(Date(y, m, d)), hh * 60 * 60 + mm * 60 + ss);
    TimeOfDay(hh, mm, ss);
  }

  lemma DayAndTime(n: int, s: int)
    requires 0 <= s < DAY
    ensures (DAY * n + s) / DAY == n && (DAY * n + s) % DAY == s
  {}

  lemma TimeOfDay(hh: int, mm: int, ss: int)
    requires 0 <= hh <= 23 && 0 <= mm <= 59 && 0 <= ss <= 59
    ensures var s := hh * 60 * 60 + mm * 60 + ss;
      0 <= s < DAY && s / 3600 == hh && s / 60 % 60 == mm && s % 60 == ss
  {
    var s := hh * 60 * 60 + mm * 60 + ss;
    assert s / 60 == hh * 60 + mm && s % 60 == ss;
  }

  // ----- as a string of digits

  /** The last w decimal digits. */
  function LastDigits(n: nat, w: nat): (s: string)
    ensures |s| == w && AllDigits(s)
    decreases w
  {
    if w == 0 then "" else LastDigits(n / 10, w - 1) + [Digit(n % 10)]
  }

  function Zeros(k: nat): (s: string)
    ensures |s| == k
  {
    if k == 0 then "" else Zeros(k - 1) + "0"
  }

  /** %0wd. */
  function Padded(n: int, w: nat): string {
    var digits := OfNat(if n < 0 then -n else n);
    var sign := if n < 0 then "-" else "";
    var k := |sign| + |digits|;
    sign + Zeros(if k < w then w - k else 0) + digits
  }

  /** pcp_gmtimestr. */
  function GmTimeStr(t: int): string {
    var tm := GmTimeOf(t);
    Padded(tm.date.y, 4) + Padded(tm.date.m, 2) + Padded(tm.date.d, 2)
    + Padded(tm.hour, 2) + Padded(tm.min, 2) + Padded(tm.sec, 2)
  }

  datatype Scanned = NoNumber | Number(value: int, rest: string)

  /** How many digits t starts with, up to w. */
  function DigitRun(t: string, w: nat): (n: nat)
    ensures n <= w && n <= |t| && forall k :: 0 <= k < n ==> IsDigit(t[k])
    decreases w
  {
    if w > 0 && t != "" && IsDigit(t[0]) then
      DigitRun(t[1..], w - 1) + 1
    else 0
  }

  /** %wd: blanks, and then a sign and digits in at most w places. */
  function ScanNumber(t: string, w: nat): Scanned
    requires w > 0
  {
    var u := SkipSpaces(t);
    var signed := u != "" && (u[0] == '-' || u[0] == '+');
    var v := if signed then u[1..] else u;
    var n := DigitRun(v, if signed then w - 1 else w);
    if n == 0 then NoNumber
    else
      var value: int := Decimal.Value(v[..n]);
      Number(if signed && u[0] == '-' then 0 - value else value, v[n..])
  }

  /** The numbers of these widths, as many as are found. */
  function ScanAll(t: string, widths: seq<nat>): (r: seq<int>)
    requires forall k :: 0 <= k < |widths| ==> widths[k] > 0
    ensures |r| <= |widths|
    decreases |widths|
  {
    if widths == [] then []
    else
      var n := ScanNumber(t, widths[0]);
      if n.NoNumber? then [] else [n.value] + ScanAll(n.rest, widths[1..])
  }

  const WIDTHS: seq<nat> := [4, 2, 2, 2, 2, 2]

  /** pcp_gmtime_s. */
  function GmTimeS(p: string, zone: Zone): int {
    var n := ScanAll(p, WIDTHS);
    if |n| != 6 then 0 else GmTime(n[0], n[1], n[2], n[3], n[4], n[5], zone)
  }

  lemma {:induction false} PaddedDigits(n: nat, w: nat)
    requires w > 0 && n < Pow10(w)
    ensures |OfNat(n)| <= w && Zeros(w - |OfNat(n)|) + OfNat(n) == LastDigits(n, w)
    decreases w
  {
    hide OfNat, Pow10, Zeros;
    PowStep(w);
    if n < 10 {
      ZeroDigits(w - 1);
      OneDigit(n);
      assert n / 10 == 0;
    } else {
      OnePower();
      PaddedDigits(n / 10, w - 1);
      MoreDigits(n);
      var zeros := Zeros(w - |OfNat(n)|);
      assert zeros + OfNat(n) == (zeros + OfNat(n / 10)) + [Digit(n % 10)];
    }
  }

  lemma PowStep(w: nat)
    requires w > 0
    ensures Pow10(w) == 10 * Pow10(w - 1)
  {}

  lemma OnePower()
    ensures Pow10(0) == 1
  {}

  lemma OneDigit(n: nat)
    requires n < 10
    ensures OfNat(n) == [Digit(n % 10)]
  {}

  lemma MoreDigits(n: nat)
    requires n >= 10
    ensures OfNat(n) == OfNat(n / 10) + [Digit(n % 10)]
  {}

  lemma {:induction false} ZeroDigits(w: nat)
    ensures LastDigits(0, w) == Zeros(w)
  {
    if w > 0 {
      ZeroDigits(w - 1);
    }
  }

  lemma {:induction false} ValueOfLast(n: nat, w: nat)
    requires n < Pow10(w)
    ensures Decimal.Value(LastDigits(n, w)) == n
    decreases w
  {
    if w > 0 {
      ValueOfLast(n / 10, w - 1);
      var s := LastDigits(n, w);
      assert s[..w - 1] == LastDigits(n / 10, w - 1);
    }
  }

  lemma {:induction false} RunOfDigits(s: string, rest: string)
    requires AllDigits(s)
    ensures DigitRun(s + rest, |s|) == |s|
  {
    if s != "" {
      assert (s + rest)[1..] == s[1..] + rest;
      assert IsDigit(s[0]);
      RunOfDigits(s[1..], rest);
    }
  }

  lemma ScanPadded(n: nat, w: nat, rest: string)
    requires w > 0 && n < Pow10(w)
    ensures ScanNumber(Padded(n, w) + rest, w) == Number(n, rest)
  {
    hide LastDigits, DigitRun, Decimal.Value, OfNat, Zeros;
    var s := LastDigits(n, w);
    PaddedDigits(n, w);
    assert Padded(n, w) == s;
    ValueOfLast(n, w);
    RunOfDigits(s, rest);
    assert IsDigit(s[0]) && (s + rest)[0] == s[0];
    SkipNothing(s + rest);
    assert (s + rest)[..w] == s && (s + rest)[w..] == rest;
  }

  lemma ScanStep(n: nat, w: nat, rest: string, widths: seq<nat>)
    requires 0 < w && n < Pow10(w) && forall k :: 0 <= k < |widths| ==> widths[k] > 0
    ensures ScanAll(Padded(n, w) + rest, [w] + widths) == [n] + ScanAll(rest, widths)
  {
    hide Padded, ScanNumber;
    ScanPadded(n, w, rest);
    assert ([w] + widths)[1..] == widths;
  }

  function PaddedAll(ns: seq<nat>, widths: seq<nat>): string
    requires |ns| == |widths|
  {
    if ns == [] then "" else Padded(ns[0], widths[0]) + PaddedAll(ns[1..], widths[1..])
  }

  lemma {:induction false} ScanPaddedAll(ns: seq<nat>, widths: seq<nat>)
    requires |ns| == |widths|
    requires forall k :: 0 <= k < |ns| ==> 0 < widths[k] && ns[k] < Pow10(widths[k])
    ensures ScanAll(PaddedAll(ns, widths), widths) == ns
  {
    hide Padded;
    if ns != [] {
      ScanPaddedAll(ns[1..], widths[1..]);
      ScanStep(ns[0], widths[0], PaddedAll(ns[1..], widths[1..]), widths[1..]);
      assert widths == [widths[0]] + widths[1..] && ns == [ns[0]] + ns[1..];
    }
  }

  function Fields(t: int): seq<int> {
    var tm := GmTimeOf(t);
    [tm.date.y, tm.date.m, tm.date.d, tm.hour, tm.min, tm.sec]
  }

  lemma StrFields(t: int, ns: seq<nat>)
    requires ns == Fields(t)
    ensures GmTimeStr(t) == PaddedAll(ns, WIDTHS)
  {
    hide Padded, GmTimeOf, PaddedAll;
    var a0, a1, a2 := Padded(ns[0], 4), Padded(ns[1], 2), Padded(ns[2], 2);
    var a3, a4, a5 := Padded(ns[3], 2), Padded(ns[4], 2), Padded(ns[5], 2);
    PaddedSix(ns);
    assert a0 + a1 + a2 + a3 + a4 + a5 == a0 + (a1 + (a2 + (a3 + (a4 + (a5 + "")))));
  }

  /** The string in its fields: four digits of the year, then two each. */
  lemma StrIs(t: int)
    requires 0 <= GmTimeOf(t).date.y <= 9999
    ensures var tm := GmTimeOf(t);
      GmTimeStr(t) == LastDigits(tm.date.y, 4) + LastDigits(tm.date.m, 2) + LastDigits(tm.date.d, 2)
                      + LastDigits(tm.hour, 2) + LastDigits(tm.min, 2) + LastDigits(tm.sec, 2)
  {
    hide DateOf, LastDigits, Padded, Pow10;
    var tm := GmTimeOf(t);
    Powers();
    PaddedIs(tm.date.y, 4);
    PaddedIs(tm.date.m, 2);
    PaddedIs(tm.date.d, 2);
    PaddedIs(tm.hour, 2);
    PaddedIs(tm.min, 2);
    PaddedIs(tm.sec, 2);
  }

  lemma PaddedIs(n: nat, w: nat)
    requires w > 0 && n < Pow10(w)
    ensures Padded(n, w) == LastDigits(n, w)
  {
    hide LastDigits, OfNat, Zeros, Pow10;
    PaddedDigits(n, w);
    var k := if |OfNat(n)| < w then w - |OfNat(n)| else 0;
    assert k == w - |OfNat(n)|;
    assert "" + Zeros(k) + OfNat(n) == Zeros(k) + OfNat(n);
  }

  lemma PaddedOne(ns: seq<nat>, widths: seq<nat>, k: nat)
    requires |ns| == |widths| && k < |ns|
    ensures PaddedAll(ns[k..], widths[k..]) == Padded(ns[k], widths[k]) + PaddedAll(ns[k + 1..], widths[k + 1..])
  {
    hide Padded;
    assert ns[k..][1..] == ns[k + 1..] && widths[k..][1..] == widths[k + 1..];
  }

  lemma PaddedSix(ns: seq<nat>)
    requires |ns| == 6
    ensures PaddedAll(ns, WIDTHS) ==
            Padded(ns[0], 4) + (Padded(ns[1], 2) + (Padded(ns[2], 2) +
            (Padded(ns[3], 2) + (Padded(ns[4], 2) + (Padded(ns[5], 2) + "")))))
  {
    hide Padded, PaddedAll;
    assert ns[0..] == ns && WIDTHS[0..] == WIDTHS;
    PaddedOne(ns, WIDTHS, 0);
    PaddedOne(ns, WIDTHS, 1);
    PaddedOne(ns, WIDTHS, 2);
    PaddedOne(ns, WIDTHS, 3);
    PaddedOne(ns, WIDTHS, 4);
    PaddedOne(ns, WIDTHS, 5);
    assert ns[6..] == [] && WIDTHS[6..] == [];
    PaddedNone();
  }

  lemma PaddedNone()
    ensures PaddedAll([], []) == ""
  {}

  lemma Powers()
    ensures Pow10(2) == 100 && Pow10(4) == 10000
  {}

  lemma StrRead(t: int)
    requires 0 <= GmTimeOf(t).date.y <= 9999
    ensures ScanAll(GmTimeStr(t), WIDTHS) == Fields(t)
  {
    hide DateOf, GmTimeStr, ScanAll, Padded, PaddedAll, Pow10;
    var ns: seq<nat> := Fields(t);
    Powers();
    StrFields(t, ns);
    ScanPaddedAll(ns, WIDTHS);
  }

  lemma Whole(t: int)
    ensures t == DAY * (t / DAY) + t % DAY
  {}

  /** Whatever is read, the result has a year that the daemon works with; so has the 0 of failure. */
  lemma ReadInRange(p: string, zone: Zone)
    ensures 1970 <= GmTimeOf(GmTimeS(p, zone)).date.y <= 3000
  {
    hide ScanAll, GmTime, GmTimeOf;
    Epoch();
    var n := ScanAll(p, WIDTHS);
    if |n| == 6 {
      MadeInRange(n[0], n[1], n[2], n[3], n[4], n[5], zone);
    }
  }

  lemma MadeInRange(y: int, m: int, d: int, hh: int, mm: int, ss: int, zone: Zone)
    ensures 1970 <= GmTimeOf(GmTime(y, m, d, hh, mm, ss, zone)).date.y <= 3000
  {
    hide DayNumber, GmTimeOf;
    Epoch();
    if InRange(y, m, d, hh, mm, ss) && Passes(zone) {
      GmTimeInverse(y, m, d, hh, mm, ss, zone);
    }
  }

  /** A time comes back from its string exactly if its year is one that the daemon works with. */
  lemma StrBack(t: int, zone: Zone)
    requires Passes(zone)
    ensures GmTimeS(GmTimeStr(t), zone) == t <==> 1970 <= GmTimeOf(t).date.y <= 3000
  {
    hide DateOf, DayNumber, GmTimeStr, ScanAll, GmTimeS;
    ReadInRange(GmTimeStr(t), zone);
    if 1970 <= GmTimeOf(t).date.y <= 3000 {
      FourDigitsBack(t, zone);
    }
  }

  /** A time of another year with four digits gives 0. */
  lemma FourDigitsBack(t: int, zone: Zone)
    requires 0 <= GmTimeOf(t).date.y <= 9999 && Passes(zone)
    ensures GmTimeS(GmTimeStr(t), zone) == if 1970 <= GmTimeOf(t).date.y <= 3000 then t else 0
  {
    hide DateOf, DayNumber, GmTimeStr, ScanAll;
    StrRead(t);
    NumberOfDate(t / DAY);
    Whole(t);
  }

  lemma Epoch()
    ensures GmTimeOf(0).date == Date(1970, 1, 1)
  {}

  /** pcp_gmtime_s: six conversions, and all of them must succeed. */
  method PcpGmTimeS(p: string, zone: Zone) returns (t: int)
    ensures t == GmTimeS(p, zone)
  {
    hide GmTime, ScanNumber, ScanAll;
    var ns: seq<int>, rest, k: nat := [], p, 0;
    ScanNone(rest);
    assert WIDTHS[0..] == WIDTHS;
    while k < 6
      invariant k <= 6 && |ns| == k && ScanAll(p, WIDTHS) == ns + ScanAll(rest, WIDTHS[k..])
    {
      ScanNext(ns, rest, k);
      var n := ScanNumber(rest, WIDTHS[k]);
      if n.NoNumber? {
        return 0;
      }
      ns, rest, k := ns + [n.value], n.rest, k + 1;
    }
    ScanNone(rest);
    assert WIDTHS[k..] == [] && ns + [] == ns;
    t := PcpGmTime(ns[0], ns[1], ns[2], ns[3], ns[4], ns[5], zone);
  }

  lemma ScanNone(rest: string)
    ensures ScanAll(rest, []) == []
  {}

  lemma ScanNext(ns: seq<int>, rest: string, k: nat)
    requires k < 6
    ensures var n := ScanNumber(rest, WIDTHS[k]);
      ns + ScanAll(rest, WIDTHS[k..]) == if n.NoNumber? then ns else (ns + [n.value]) + ScanAll(n.rest, WIDTHS[k + 1..])
  {
    hide ScanNumber;
    assert WIDTHS[k..][1..] == WIDTHS[k + 1..] && WIDTHS[k..][0] == WIDTHS[k];
    assert ns + [] == ns;
  }
}
