/** Calendar conversion between Unix seconds, civil dates and packed NetWare dates (date.c). */
module Dates {
  import opened Words

  /** second is in units of two seconds where it comes from or goes to Unix time, as in the code. */
  datatype Civil = Civil(second: ulong, minute: ulong, hour: ulong, day: ulong, month: ulong, year: ulong)

  // ---- the calendar, by its own rules ----------------------------------------

  /** The Gregorian rule. */
  predicate IsLeap(year: nat) {
    year % 4 == 0 && (year % 100 != 0 || year % 400 == 0)
  }

  function MonthLength(leap: bool, month: nat): (n: nat)
    requires 1 <= month <= 12
    ensures 28 <= n <= 31
  {
    if month == 2 then (if leap then 29 else 28) else if month == 4 || month == 6 || month == 9 || month == 11 then 30 else 31
  }

  /** Days of the year before the month begins. */
  function MonthStart(leap: bool, month: nat): nat
    requires 1 <= month <= 12
  {
    if month == 1 then 0 else MonthStart(leap, month - 1) + MonthLength(leap, month - 1)
  }

  /** Days from 1 January 1980 to 1 January of the year. */
  function YearStart(year: nat): nat
    requires year >= 1980
  {
    if year == 1980 then 0 else YearStart(year - 1) + if IsLeap(year - 1) then 366 else 365
  }

  predicate ValidDay(year: nat, month: nat, day: nat) {
    year >= 1980 && 1 <= month <= 12 && 1 <= day <= MonthLength(IsLeap(year), month)
  }

  function DayOf(year: nat, month: nat, day: nat): nat
    requires ValidDay(year, month, day)
  {
    YearStart(year) + MonthStart(IsLeap(year), month) + day - 1
  }

  /** Until 2099 every fourth year is a leap year. */
  lemma {:induction false} YearStartClosed(y: nat)
    requires y <= 120
    ensures YearStart(1980 + y) == 365 * y + (y + 3) / 4
    ensures y < 120 ==> (IsLeap(1980 + y) <==> y % 4 == 0)
  {
    if y > 0 { YearStartClosed(y - 1); }
  }

  // ---- Unix time ------------------------------------------------------------

  const DAY_N: seq<nat> := [0, 31, 59, 90, 120, 151, 181, 212, 243, 273, 304, 334, 0, 0, 0, 0]

  /** / of C: towards zero */
  function Div(a: int, b: int): int
    requires b > 0
  {
    if a >= 0 then a / b else -(-a / b)
  }

  /** How far local time is behind Unix time. */
  function Shift(minutesWest: int, dst: bool): int {
    minutesWest * 60 - if dst then 3600 else 0
  }

  /** Seconds of local time. */
  function Local(unix: ulong, minutesWest: int, dst: bool): ulong {
    Wrap(unix - Shift(minutesWest, dst))
  }

  /** (month & 15) - 1 */
  function MonthIndex(month: ulong): (m: int)
    ensures -1 <= m < 15 && (1 <= month <= 12 ==> m == month - 1)
  {
    month % 16 - 1
  }

  /** The year as MakeUnixTime takes it: 80 to 99 are this century's first, 0 to 79 the next ones. */
  function TwoDigits(year: ulong): (y: nat)
    ensures y < 100
    ensures 1980 <= year < 2080 ==> y == year - 1980
  {
    if year % 100 >= 80 then year % 100 - 80 else year % 100 + 20
  }

  /** The day number MakeUnixTime computes, counted from 1 January 1970; it needs month & 15 to be a month. */
  function DaysBack(day: ulong, month: ulong, year: ulong): int
    requires MonthIndex(month) >= 0
  {
    var y := TwoDigits(year);
    var m := MonthIndex(month);
    day % 32 - 1 + DAY_N[m] + y / 4 + y * 365 - (if y % 4 == 0 && m < 2 then 1 else 0) + 3653
  }

  function MakeUnixTime(c: Civil, minutesWest: int, dst: bool): ulong
    requires MonthIndex(c.month) >= 0
  {
    Wrap(c.second % 32 * 2 + 60 * (c.minute % 64) + c.hour * 3600 + 86400 * DaysBack(c.day, c.month, c.year)
         + Shift(minutesWest, dst))
  }

  /** The first month from m on whose table entry is past the day. */
  function MonthFrom(day: int, m: nat): (r: nat)
    requires m <= 12
    ensures m <= r <= 12 && (r < 12 ==> DAY_N[r] > day) && forall k :: m <= k < r ==> DAY_N[k] <= day
    decreases 12 - m
  {
    if m == 12 || DAY_N[m] > day then m else MonthFrom(day, m + 1)
  }

  /** Days from 1 January 1980 to the start of year 1980 + y, as the code reckons it. */
  function Before(y: int): int {
    Div(y + 3, 4) + 365 * y
  }

  /** The year of a day: a first guess, corrected at most once. */
  function YearOf(d: int): int {
    var y := Div(d, 365);
    if Before(y) > d then y - 1 else y
  }

  /** One correction is enough, before 1980 too. */
  lemma YearFits(d: int)
    requires -3652 <= d <= 46058
    ensures 0 <= d - Before(YearOf(d)) <= 365 && -11 <= YearOf(d) <= 126
    ensures 0 <= d < 36525 ==> 0 <= YearOf(d) < 100 && d < Before(YearOf(d) + 1)
    ensures d >= 36525 ==> YearOf(d) >= 100
    ensures d < 0 ==> YearOf(d) < 0
  {
  }

  /** Month and day of the month for day l of year 1980 + y. */
  function MonthDay(y: int, l: int): (r: (nat, int))
    requires l >= 0
    ensures 1 <= r.0 <= 12
  {
    if l == 59 && y % 4 == 0 then (2, 29) else
    var n := if y % 4 != 0 || l <= 59 then l else l - 1;
    (MonthFrom(n, 0), n - DAY_N[MonthFrom(n, 0) - 1] + 1)
  }

  function CivilOf(local: ulong): (c: Civil)
    ensures 1 <= c.month <= 12
  {
    var d := local / 86400 - 3652;
    YearFits(d);
    var y := YearOf(d);
    var (m, day) := MonthDay(y, d - Before(y));
    Civil(local % 60 / 2, local / 60 % 60, local / 3600 % 24, Wrap(day), m, Wrap(y + 1980))
  }

  /** The month search of GetUnixTime. */
  method FindMonth(day: int) returns (month: nat)
    ensures month == MonthFrom(day, 0)
  {
    month := 0;
    while month < 12 && DAY_N[month] <= day
      invariant month <= 12 && MonthFrom(day, month) == MonthFrom(day, 0)
    {
      month := month + 1;
    }
  }

  /** Month and day of the month, by the table. */
  method FindDay(lyear: int, lday: int) returns (lmonth: nat, day: int)
    requires lday >= 0
    ensures (lmonth, day) == MonthDay(lyear, lday)
  {
    hide MonthFrom;
    if lday == 59 && lyear % 4 == 0 { return 2, 59 - DAY_N[1] + 1; }
    var nlDay := if lyear % 4 != 0 || lday <= 59 then lday else lday - 1;
    lmonth := FindMonth(nlDay);
    day := nlDay - DAY_N[lmonth - 1] + 1;
  }

  method GetUnixTime(unix: ulong, minutesWest: int, dst: bool) returns (c: Civil)
    ensures c == CivilOf(Local(unix, minutesWest, dst))
    ensures Local(unix, minutesWest, dst) == Wrap(unix - 60 * minutesWest + if dst then 3600 else 0)
  {
    LocalIs(unix, minutesWest, dst);
    hide Local, MonthFrom, Wrap, Div, Shift, MonthDay;
    var t := Local(unix, minutesWest, dst);
    var days: int := t / 86400;
    var lday := days - 3652;
    YearFits(lday);
    var lyear := Div(lday, 365);
    if Div(lyear + 3, 4) + 365 * lyear > lday { lyear := lyear - 1; }
    var lmonth, day := FindDay(lyear, lday - (Div(lyear + 3, 4) + 365 * lyear));
    c := Civil(t % 60 / 2, t / 60 % 60, t / 3600 % 24, Wrap(day), lmonth, Wrap(lyear + 1980));
  }

  /** Local time is west of Unix time by so many minutes, and an hour ahead in summer. */
  lemma LocalIs(unix: ulong, minutesWest: int, dst: bool)
    ensures Local(unix, minutesWest, dst) == Wrap(unix - 60 * minutesWest + if dst then 3600 else 0)
  {
  }

  /** The clock of a civil time: seconds of the day into hours, minutes, and units of two seconds. */
  lemma ClockIs(local: ulong)
    ensures var c := CivilOf(local); local % 86400 == c.hour * 3600 + c.minute * 60 + c.second * 2 + local % 2
    ensures var c := CivilOf(local); c.hour < 24 && c.minute < 60 && c.second < 30
  {
    hide YearOf, MonthDay, Before;
    ClockSplits(local);
  }

  lemma ClockSplits(local: nat)
    ensures local % 86400 == local / 3600 % 24 * 3600 + local / 60 % 60 * 60 + local % 60 / 2 * 2 + local % 2
  {
    var m, h := local / 60, local / 3600;
    HoursOf(local);
    DaysOf(local);
    assert local == m * 60 + local % 60 && m == h * 60 + m % 60 && h == h / 24 * 24 + h % 24;
    assert local % 60 % 2 == local % 2;
  }

  // ---- the conversion is right -----------------------------------------------

  lemma {:induction false} MonthStartTable(leap: bool, m: nat)
    requires 1 <= m <= 12
    ensures MonthStart(leap, m) == DAY_N[m - 1] + if leap && m > 2 then 1 else 0
    ensures DAY_N[m - 1] + MonthLength(false, m) == if m < 12 then DAY_N[m] else 365
  {
    TableStep(m);
    if m > 1 {
      MonthStartTable(leap, m - 1);
      MonthLeaps(leap, m - 1);
      hide MonthLength;
    }
  }

  lemma TableStep(m: nat)
    requires 1 <= m <= 12
    ensures DAY_N[m - 1] + MonthLength(false, m) == if m < 12 then DAY_N[m] else 365
  {
  }

  lemma MonthLeaps(leap: bool, m: nat)
    requires 1 <= m <= 12
    ensures MonthLength(leap, m) == MonthLength(false, m) + if leap && m == 2 then 1 else 0
  {
  }

  /** The table search finds the month and the day in it. */
  lemma MonthDayIsRight(y: nat, l: nat)
    requires y < 100 && l < if y % 4 == 0 then 366 else 365
    ensures var (m, day) := MonthDay(y, l);
      ValidDay(1980 + y, m, day) && MonthStart(IsLeap(1980 + y), m) + day - 1 == l
  {
    YearStartClosed(y);
    var (m, day) := MonthDay(y, l);
    MonthStartTable(IsLeap(1980 + y), m);
    hide YearStart, MonthStart, IsLeap;
  }

  lemma BeforeIsYearStart(y: nat)
    requires y < 120
    ensures Before(y) == YearStart(1980 + y) && Before(y + 1) == Before(y) + if y % 4 == 0 then 366 else 365
  {
    YearStartClosed(y);
    hide YearStart;
  }

  /** For every local day from 1980 to 2079 the civil date is the Gregorian one. */
  lemma CivilIsGregorian(local: ulong)
    requires 0 <= local / 86400 - 3652 < 36525
    ensures var c := CivilOf(local); ValidDay(c.year, c.month, c.day) && DayOf(c.year, c.month, c.day) == local / 86400 - 3652
    ensures 1980 <= CivilOf(local).year < 2080
  {
    hide Div, Before, YearOf, MonthDay, YearStart, MonthStart, IsLeap;
    var d := local / 86400 - 3652;
    YearFits(d);
    var y := YearOf(d);
    BeforeIsYearStart(y);
    MonthDayIsRight(y, d - Before(y));
  }

  lemma QuarterSteps(y: nat)
    ensures (y + 3) / 4 == y / 4 + if y % 4 == 0 then 0 else 1
  {
  }

  /** The Unix time of a date and time of day of 1980 to 2079: its seconds since 1970 here, and those to Unix time. */
  lemma UnixTimeIs(c: Civil, minutesWest: int, dst: bool)
    requires ValidDay(c.year, c.month, c.day) && c.year < 2080 && c.second < 30 && c.minute < 60
    ensures MakeUnixTime(c, minutesWest, dst) ==
      Wrap(86400 * (DayOf(c.year, c.month, c.day) + 3652) + c.hour * 3600 + c.minute * 60 + c.second * 2 + 60 * minutesWest - if dst then 3600 else 0)
  {
    hide YearStart, MonthStart, IsLeap, MonthLength, DaysBack, DayOf, Wrap, ValidDay;
    DaysBackIsRight(c.year, c.month, c.day);
    MonthIsOne(c);
  }

  lemma MonthIsOne(c: Civil)
    requires ValidDay(c.year, c.month, c.day)
    ensures 1 <= c.month <= 12
  {
  }

  /** MakeUnixTime counts the days of every date from 1980 to 2079. */
  lemma DaysBackIsRight(year: nat, month: nat, day: nat)
    requires ValidDay(year, month, day) && year < 2080
    ensures DaysBack(day, month, year) == DayOf(year, month, day) + 3652
  {
    var y := year - 1980;
    YearStartClosed(y);
    MonthStartTable(IsLeap(year), month);
    QuarterSteps(y);
    hide YearStart, MonthStart, MonthLength, IsLeap, TwoDigits, MonthIndex;
  }

  lemma HoursOf(t: nat)
    ensures t / 3600 == t / 60 / 60
  {
  }

  lemma DaysOf(t: nat)
    ensures t / 86400 == t / 3600 / 24
  {
  }

  lemma Minutes(t: nat)
    ensures t == t / 60 * 60 + t % 60 && t % 60 < 60
  {
  }

  lemma EvenSeconds(s: nat)
    requires s < 60
    ensures s / 2 % 32 * 2 == s - s % 2
  {
  }

  lemma MinutesFit(m: nat)
    requires m < 60
    ensures m % 64 == m
  {
  }

  /** The clock part: seconds of the day, rounded down to an even one. */
  lemma TimeOfDay(t: nat)
    ensures t % 60 / 2 % 32 * 2 + 60 * (t / 60 % 60 % 64) + t / 3600 % 24 * 3600 == t - t / 86400 * 86400 - t % 2
  {
    var s, minutes, hours, days := t % 60, t / 60, t / 3600, t / 86400;
    HoursOf(t);
    DaysOf(t);
    Minutes(t);
    Minutes(minutes);
    assert hours == days * 24 + hours % 24;
    EvenSeconds(s);
    MinutesFit(minutes % 60);
    SameParity(t, s, 30 * minutes);
  }

  /** Any integer and its low 32 bits differ by whole turns. */
  lemma WrapTurns(n: int) returns (k: int)
    ensures n == Wrap(n) + k * 0x1_0000_0000
  {
    k := n / 0x1_0000_0000;
  }

  lemma WrapUnique(n: int, m: ulong, k: int)
    requires n == m + k * 0x1_0000_0000
    ensures Wrap(n) == m
  {
  }

  /** Whole days that make whole turns are none. */
  lemma NoTurn(days: int, turns: int)
    requires -49710 <= days <= 49710 && 86400 * days == turns * 0x1_0000_0000
    ensures days == 0
  {
    assert -0x1_0000_0000 < 86400 * days < 0x1_0000_0000;
  }

  /** Being off by whole days, but not by all of 2^32 seconds, shows. */
  lemma DaysOff(unix: ulong, k: int, days: int)
    requires -49710 <= days <= 49710
    ensures Wrap(unix + 86400 * days + k * 0x1_0000_0000) == unix <==> days == 0
  {
    var n := unix + 86400 * days + k * 0x1_0000_0000;
    var m := WrapTurns(n);
    if days == 0 { WrapUnique(n, unix, k); }
    hide Wrap;
    if Wrap(n) == unix { NoTurn(days, m - k); }
  }

  lemma CivilFields(local: ulong)
    ensures var c := CivilOf(local);
      && c.second == local % 60 / 2 && c.minute == local / 60 % 60 && c.hour == local / 3600 % 24
      && 1 <= c.month <= 12 && -3652 <= local / 86400 - 3652 <= 46058 && c.year == Wrap(YearOf(local / 86400 - 3652) + 1980)
  {
    hide YearOf, MonthDay, Before, Wrap;
    YearFits(local / 86400 - 3652);
  }

  /** How MakeUnixTime's day count compares with the day it was given the date of. */
  lemma DaysCompare(local: ulong)
    ensures var c := CivilOf(local); MonthIndex(c.month) >= 0 && -49710 <= DaysBack(c.day, c.month, c.year) - local / 86400 <= 49710
    ensures var c := CivilOf(local); DaysBack(c.day, c.month, c.year) == local / 86400 <==> 0 <= local / 86400 - 3652 < 36525
  {
    hide CivilOf, YearOf, YearStart, MonthStart, IsLeap, DaysBack, Wrap, TwoDigits, Before, MonthLength;
    CivilFields(local);
    var d := local / 86400 - 3652;
    if 0 <= d < 36525 {
      CivilIsGregorian(local);
      DaysBackIsRight(CivilOf(local).year, CivilOf(local).month, CivilOf(local).day);
    } else {
      YearFits(d);
      YearWraps(YearOf(d));
      DaysBounds(CivilOf(local).day, CivilOf(local).month, CivilOf(local).year);
    }
  }

  /** The years outside 1980 to 2079 that a 32-bit time can have are taken for others. */
  lemma YearWraps(y: int)
    requires -11 <= y <= 126
    ensures Wrap(y + 1980) == y + 1980
    ensures y < 0 ==> TwoDigits(y + 1980) >= 89
    ensures y >= 100 ==> TwoDigits(y + 1980) <= 26
  {
  }

  lemma DaysBounds(day: ulong, month: ulong, year: ulong)
    requires MonthIndex(month) >= 0
    ensures TwoDigits(year) * 365 + 3651 <= DaysBack(day, month, year) <= TwoDigits(year) * 366 + 4020
  {
    hide TwoDigits;
  }

  /** Off by whole days and whole turns. */
  lemma Rounds(made: ulong, unix: ulong, even: ulong, local: int, shift: int, k: int, off: int)
    requires unix - shift == local + k * 0x1_0000_0000 && -49710 <= off <= 49710
    requires made == Wrap(local - (unix - even) + 86400 * off + shift)
    ensures made == even <==> off == 0
  {
    hide Wrap;
    DaysOff(even, -k, off);
  }

  /** MakeUnixTime undoes GetUnixTime, but for the odd second, exactly for the local days of 1980 to 2079. */
  lemma UnixRoundTrip(unix: ulong, minutesWest: int, dst: bool)
    ensures var local := Local(unix, minutesWest, dst);
      MakeUnixTime(CivilOf(local), minutesWest, dst) == unix - unix % 2 <==> 0 <= local / 86400 - 3652 < 36525
  {
    hide CivilOf, DaysBack, YearOf, MakeUnixTime, TwoDigits, Wrap, Shift, Local, MonthIndex;
    var local := Local(unix, minutesWest, dst);
    var k := LocalTurns(unix, minutesWest, dst);
    CivilFields(local);
    DaysCompare(local);
    var c := CivilOf(local);
    var off := DaysBack(c.day, c.month, c.year) - local / 86400;
    ClockPart(c, local);
    MadeIs(c, minutesWest, dst, local, local / 86400, local % 2);
    Rounds(MakeUnixTime(c, minutesWest, dst), unix, unix - unix % 2, local, Shift(minutesWest, dst), k, off);
  }

  lemma ClockPart(c: Civil, local: nat)
    requires c.second == local % 60 / 2 && c.minute == local / 60 % 60 && c.hour == local / 3600 % 24
    ensures c.second % 32 * 2 + 60 * (c.minute % 64) + c.hour * 3600 == local - local / 86400 * 86400 - local % 2
  {
    TimeOfDay(local);
  }

  lemma MadeIs(c: Civil, minutesWest: int, dst: bool, local: int, day: int, odd: int)
    requires MonthIndex(c.month) >= 0
    requires c.second % 32 * 2 + 60 * (c.minute % 64) + c.hour * 3600 == local - day * 86400 - odd
    ensures MakeUnixTime(c, minutesWest, dst)
      == Wrap(local - odd + 86400 * (DaysBack(c.day, c.month, c.year) - day) + Shift(minutesWest, dst))
  {
    hide DaysBack, Wrap;
  }

  lemma LocalTurns(unix: ulong, minutesWest: int, dst: bool) returns (k: int)
    ensures unix - Shift(minutesWest, dst) == Local(unix, minutesWest, dst) + k * 0x1_0000_0000
    ensures Local(unix, minutesWest, dst) % 4 == unix % 4 && Local(unix, minutesWest, dst) % 2 == unix % 2
  {
    k := WrapTurns(unix - Shift(minutesWest, dst));
    hide Wrap;
    var local, quarter := Local(unix, minutesWest, dst), minutesWest * 15 - if dst then 900 else 0;
    SameQuarter(unix, local, quarter + k * 0x4000_0000);
    SameParity(unix, local, 2 * quarter + k * 0x8000_0000);
  }

  lemma {:induction false} SameQuarter(a: nat, b: nat, n: int)
    requires a == b + 4 * n
    ensures a % 4 == b % 4
    decreases if n < 0 then -n else n
  {
    if n > 0 { SameQuarter(a - 4, b, n - 1); } else if n < 0 { SameQuarter(a, b - 4, n + 1); }
  }

  lemma {:induction false} SameParity(a: nat, b: nat, n: int)
    requires a == b + 2 * n
    ensures a % 2 == b % 2
    decreases if n < 0 then -n else n
  {
    if n > 0 { SameParity(a - 2, b, n - 1); } else if n < 0 { SameParity(a, b - 2, n + 1); }
  }

  // ---- packed dates ---------------------------------------------------------

  /** a | b */
  function Or(a: nat, b: nat): nat {
    if a == 0 then b else if b == 0 then a
    else 2 * Or(a / 2, b / 2) + if a % 2 == 1 || b % 2 == 1 then 1 else 0
  }

  function Pow2(k: nat): (p: nat)
    ensures p > 0
  {
    if k == 0 then 1 else 2 * Pow2(k - 1)
  }

  /** Fields that do not overlap add up. */
  lemma {:induction false} OrAdds(a: nat, b: nat, k: nat)
    requires a < Pow2(k)
    ensures Or(a, b * Pow2(k)) == a + b * Pow2(k)
    decreases k
  {
    if a > 0 && b * Pow2(k) > 0 {
      var half := b * Pow2(k - 1);
      assert b * Pow2(k) == 2 * half;
      OrAdds(a / 2, b, k - 1);
      Doubled(half);
      Halves(a);
    }
  }

  lemma Doubled(n: nat)
    ensures 2 * n / 2 == n && 2 * n % 2 == 0
  {
  }

  lemma Halves(n: nat)
    ensures n == n / 2 * 2 + n % 2
  {
  }

  /** The year's field: 80 to 99 are put before the others. */
  function YearField(year: ulong): (f: nat)
    ensures f < 160
  {
    if year % 100 >= 80 then year % 100 - 80 else year % 100 + 80
  }

  lemma {:induction false} OrBound(a: nat, b: nat, k: nat)
    requires a < Pow2(k) && b < Pow2(k)
    ensures Or(a, b) < Pow2(k)
    decreases k
  {
    if k > 0 { OrBound(a / 2, b / 2, k - 1); }
  }

  lemma Powers()
    ensures Pow2(5) == 0x20 && Pow2(11) == 0x800 && Pow2(16) == 0x1_0000 && Pow2(21) == 0x20_0000 && Pow2(25) == 0x200_0000
    ensures Pow2(32) == TWO_TO_THE_32
  {
    assert Pow2(4) == 16 && Pow2(8) == 0x100 && Pow2(12) == 0x1000;
    assert Pow2(16) == 0x1_0000 && Pow2(20) == 0x10_0000 && Pow2(24) == 0x100_0000 && Pow2(28) == 0x1000_0000;
  }

  function Or32(a: ulong, b: ulong): (r: ulong)
    ensures r == Or(a, b)
  {
    Powers();
    OrBound(a, b, 32);
    Or(a, b)
  }

  function MakeNWTime(c: Civil): ulong {
    Or32(Or32(Or32(Or32(Or32(c.second / 2, Wrap(c.minute * 0x20)), Wrap(c.hour * 0x800)), Wrap(c.day * 0x1_0000)), Wrap(c.month * 0x20_0000)),
       Wrap(YearField(c.year) * 0x200_0000))
  }

  function GetNWTime(t: ulong): Civil {
    var y: nat := t / 0x200_0000;
    Civil(t % 0x20 * 2, t / 0x20 % 0x40, t / 0x800 % 0x20, t / 0x1_0000 % 0x20, t / 0x20_0000 % 0x10, if y >= 80 then y - 80 + 2000 else y + 1980)
  }

  /** What the 32 bits can hold. */
  predicate Packable(c: Civil) {
    c.second % 2 == 0 && c.second < 64 && c.minute < 64 && c.hour < 32 && c.day < 32 && c.month < 16
  }

  /** Six fields in their places. */
  function Packed(s: nat, m: nat, h: nat, d: nat, mo: nat, f: nat): nat {
    s + m * 0x20 + h * 0x800 + d * 0x1_0000 + mo * 0x20_0000 + f * 0x200_0000
  }

  predicate InFields(s: nat, m: nat, h: nat, d: nat, mo: nat, f: nat) {
    s < 32 && m < 64 && h < 32 && d < 32 && mo < 16 && f < 128
  }

  lemma ShiftedYear(f: nat)
    requires f < 160
    ensures Wrap(f * 0x200_0000) == (if f < 128 then f else f - 128) * 0x200_0000
  {
  }

  /** Where the fields fit, the ors put them in their places; a year field past 127 loses its top bit. */
  lemma MadeIsPacked(c: Civil)
    requires Packable(c)
    ensures var y := YearField(c.year); var f := if y < 128 then y else y - 128;
      InFields(c.second / 2, c.minute, c.hour, c.day, c.month, f) && MakeNWTime(c) == Packed(c.second / 2, c.minute, c.hour, c.day, c.month, f)
  {
    hide Or, Pow2, YearField, Wrap;
    var y := YearField(c.year);
    var f := if y < 128 then y else y - 128;
    Powers();
    ShiftedYear(y);
    SmallWraps(c);
    OrAdds(c.second / 2, c.minute, 5);
    OrAdds(c.second / 2 + c.minute * 0x20, c.hour, 11);
    OrAdds(c.second / 2 + c.minute * 0x20 + c.hour * 0x800, c.day, 16);
    OrAdds(c.second / 2 + c.minute * 0x20 + c.hour * 0x800 + c.day * 0x1_0000, c.month, 21);
    OrAdds(c.second / 2 + c.minute * 0x20 + c.hour * 0x800 + c.day * 0x1_0000 + c.month * 0x20_0000, f, 25);
  }

  lemma SmallWraps(c: Civil)
    requires Packable(c)
    ensures Wrap(c.minute * 0x20) == c.minute * 0x20 && Wrap(c.hour * 0x800) == c.hour * 0x800
    ensures Wrap(c.day * 0x1_0000) == c.day * 0x1_0000 && Wrap(c.month * 0x20_0000) == c.month * 0x20_0000
  {
  }

  function YearOut(f: nat): nat {
    if f >= 80 then f - 80 + 2000 else f + 1980
  }

  lemma Low32(t: nat, q: nat, r: nat)
    requires t == q * 0x20 + r && r < 0x20
    ensures t / 0x20 == q && t % 0x20 == r
  {
  }

  lemma Low64(t: nat, q: nat, r: nat)
    requires t == q * 0x40 + r && r < 0x40
    ensures t / 0x40 == q && t % 0x40 == r
  {
  }

  lemma Low16(t: nat, q: nat, r: nat)
    requires t == q * 0x10 + r && r < 0x10
    ensures t / 0x10 == q && t % 0x10 == r
  {
  }

  /** One shift after another. */
  lemma Shift11(t: nat)
    ensures t / 0x800 == t / 0x20 / 0x40
  {
  }

  lemma Shift16(t: nat)
    ensures t / 0x1_0000 == t / 0x800 / 0x20
  {
  }

  lemma Shift21(t: nat)
    ensures t / 0x20_0000 == t / 0x1_0000 / 0x20
  {
  }

  lemma Shift25(t: nat)
    ensures t / 0x200_0000 == t / 0x20_0000 / 0x10
  {
  }

  /** The date of the fields of t: each shift's quotient and remainder. */
  lemma ReadsAs(t: ulong, s: nat, m: nat, h: nat, d: nat, mo: nat, f: nat)
    requires InFields(s, m, h, d, mo, f) && t == Packed(s, m, h, d, mo, f)
    ensures t % 0x20 == s && t / 0x20 % 0x40 == m && t / 0x800 % 0x20 == h && t / 0x1_0000 % 0x20 == d
    ensures t / 0x20_0000 % 0x10 == mo && t / 0x200_0000 == f
  {
    var days := d + 0x20 * (mo + 0x10 * f);
    var hours := h + 0x20 * days;
    Low32(t, m + 0x40 * hours, s);
    Low64(t / 0x20, hours, m);
    Shift11(t);
    Low32(t / 0x800, days, h);
    Shift16(t);
    Low32(t / 0x1_0000, mo + 0x10 * f, d);
    Shift21(t);
    Low16(t / 0x20_0000, f, mo);
    Shift25(t);
  }

  /** GetNWTime reads the fields back. */
  lemma PackedReads(s: nat, m: nat, h: nat, d: nat, mo: nat, f: nat)
    requires InFields(s, m, h, d, mo, f)
    ensures Packed(s, m, h, d, mo, f) < TWO_TO_THE_32
    ensures GetNWTime(Packed(s, m, h, d, mo, f)) == Civil(s * 2, m, h, d, mo, YearOut(f))
  {
    ReadsAs(Packed(s, m, h, d, mo, f), s, m, h, d, mo, f);
    hide Packed;
  }

  /** Every stored date is six fields in their places. */
  lemma StoredIsPacked(t: ulong)
    ensures var c, f := GetNWTime(t), t / 0x200_0000;
      Packable(c) && InFields(c.second / 2, c.minute, c.hour, c.day, c.month, f) && c.year == YearOut(f)
      && t == Packed(c.second / 2, c.minute, c.hour, c.day, c.month, f)
  {
    Shift11(t);
    Shift16(t);
    Shift21(t);
    Shift25(t);
    Doubled(t % 0x20);
    StoredSum(t);
  }

  lemma StoredSum(t: nat)
    ensures t == Packed(t % 0x20, t / 0x20 % 0x40, t / 0x800 % 0x20, t / 0x1_0000 % 0x20, t / 0x20_0000 % 0x10, t / 0x200_0000)
  {
    Shift11(t);
    Shift16(t);
    Shift21(t);
    Shift25(t);
    assert t == t / 0x20 * 0x20 + t % 0x20;
    assert t / 0x20 == t / 0x800 * 0x40 + t / 0x20 % 0x40;
    assert t / 0x800 == t / 0x1_0000 * 0x20 + t / 0x800 % 0x20;
    assert t / 0x1_0000 == t / 0x20_0000 * 0x20 + t / 0x1_0000 % 0x20;
    assert t / 0x20_0000 == t / 0x200_0000 * 0x10 + t / 0x20_0000 % 0x10;
  }

  lemma YearFields(year: ulong)
    ensures var y := YearField(year); var f := if y < 128 then y else y - 128;
      f < 128 && (YearOut(f) == year <==> 1980 <= year < 2048)
  {
  }

  lemma FieldYears(f: nat)
    requires f < 128
    ensures YearField(YearOut(f)) == (if f < 20 || f >= 80 then f else f + 60)
  {
  }

  /** The stored date: from the low bits up two-second units, minutes, hours, day, month, and the year, counted from 1980 in its century
      and from 1920 in the next. */
  lemma StoredLayout(c: Civil)
    requires Packable(c) && 1980 <= c.year < 2048
    ensures MakeNWTime(c) == c.second / 2 + 32 * (c.minute + 64 * (c.hour + 32 * (c.day + 32 * (c.month + 16 * (c.year - if c.year < 2000 then 1980 else 1920)))))
  {
    hide MakeNWTime;
    MadeIsPacked(c);
    YearFields(c.year);
  }

  /** Packing and reading back gives the date again exactly when every field fits, the second is even, and the year is one of
      1980 to 2047. */
  lemma PackRoundTrip(c: Civil)
    ensures GetNWTime(MakeNWTime(c)) == c <==> Packable(c) && 1980 <= c.year < 2048
  {
    hide YearOut, YearField, MakeNWTime, GetNWTime, Packed;
    YearFields(c.year);
    if Packable(c) {
      var y := YearField(c.year);
      var f := if y < 128 then y else y - 128;
      MadeIsPacked(c);
      PackedReads(c.second / 2, c.minute, c.hour, c.day, c.month, f);
      Halves(c.second);
    } else {
      StoredIsPacked(MakeNWTime(c));
    }
  }

  /** Reading and packing again gives the stored date exactly when its year field is not one of 20 to 79. */
  lemma ReadRoundTrip(t: ulong)
    ensures MakeNWTime(GetNWTime(t)) == t <==> !(20 <= t / 0x200_0000 < 80)
  {
    hide YearOut, YearField, MakeNWTime, GetNWTime;
    var c, f := GetNWTime(t), t / 0x200_0000;
    StoredIsPacked(t);
    MadeIsPacked(c);
    FieldYears(f);
  }

  // ---- system time through a stored date and back ----------------------------

  function SystemToNetware(unix: ulong, minutesWest: int, dst: bool): ulong {
    MakeNWTime(CivilOf(Local(unix, minutesWest, dst)))
  }

  function NetwareToSystem(t: ulong, minutesWest: int, dst: bool): ulong
    requires MonthIndex(GetNWTime(t).month) >= 0
  {
    MakeUnixTime(GetNWTime(t), minutesWest, dst)
  }

  /** The table search gives a day of at most 32, and 32 exactly after 31 December of a year of 365 days. */
  lemma MonthDayFits(y: int, l: nat)
    requires l <= 365
    ensures var (m, day) := MonthDay(y, l); 1 <= day <= 32 && (day == 32 ==> m == 12) && (day == 32 <==> l == 365 && y % 4 != 0)
  {
    var (m, day) := MonthDay(y, l);
    MonthStartTable(false, m);
    hide MonthStart;
  }

  /** A day is reckoned as that of the year before, a year of 365 days, on 1 January 1970 and 1 January 1974 only. */
  lemma YearMissed(d: int)
    requires -3652 <= d <= 46058
    ensures d - Before(YearOf(d)) == 365 && YearOf(d) % 4 != 0 <==> d == -3652 || d == -2191
  {
  }

  /** The day computed is 1 to 32, and 32, always in December, for 1 January 1970 and 1 January 1974. */
  lemma DayFits(local: ulong)
    ensures var c := CivilOf(local); 1 <= c.day <= 32 && (c.day == 32 ==> c.month == 12)
    ensures CivilOf(local).day == 32 <==> local / 86400 == 0 || local / 86400 == 1461
  {
    hide Div, Before, YearOf, MonthDay;
    var d := local / 86400 - 3652;
    YearFits(d);
    YearMissed(d);
    MonthDayFits(YearOf(d), d - Before(YearOf(d)));
  }

  lemma OrStep(a: nat, x: nat, y: nat)
    requires x > 0 && y > 0
    ensures Or(a + 2 * x, 2 * y) == a % 2 + 2 * Or(a / 2 + x, y)
  {
    Doubled(y);
    Halves(a);
    assert (a + 2 * x) / 2 == a / 2 + x && (a + 2 * x) % 2 == a % 2;
  }

  /** p << k */
  function Shl(p: nat, k: nat): (r: nat)
    ensures p > 0 ==> r > 0
  {
    if k == 0 then p else 2 * Shl(p, k - 1)
  }

  lemma ShlFour(p: nat, k: nat)
    ensures Shl(p, k + 4) == 16 * Shl(p, k)
  {
    assert Shl(p, k + 1) == 2 * Shl(p, k) && Shl(p, k + 2) == 2 * Shl(p, k + 1);
    assert Shl(p, k + 3) == 2 * Shl(p, k + 2) && Shl(p, k + 4) == 2 * Shl(p, k + 3);
  }

  lemma Shl21(p: nat)
    ensures Shl(p, 21) == p * 0x20_0000
  {
    ShlFour(p, 0);
    ShlFour(p, 4);
    ShlFour(p, 8);
    ShlFour(p, 12);
    ShlFour(p, 16);
    assert Shl(p, 21) == 2 * Shl(p, 20);
  }

  /** Above the k-th bit the ors meet only each other. */
  lemma {:induction false} OrHigh(a: nat, p: nat, q: nat, k: nat)
    requires a < Pow2(k) && p > 0 && q > 0
    ensures Or(a + Shl(p, k), Shl(q, k)) == a + Shl(Or(p, q), k)
    decreases k
  {
    if k > 0 {
      Halves(a);
      OrHigh(a / 2, p, q, k - 1);
      hide Or;
      OrStep(a, Shl(p, k - 1), Shl(q, k - 1));
    }
  }

  /** A 32nd of December overflows into the month, which becomes 13. */
  lemma LateIsPacked(c: Civil)
    requires c.second % 2 == 0 && c.second < 64 && c.minute < 64 && c.hour < 32 && c.day == 32 && c.month == 12
    ensures var y := YearField(c.year); var f := if y < 128 then y else y - 128;
      InFields(c.second / 2, c.minute, c.hour, 0, 13, f) && MakeNWTime(c) == Packed(c.second / 2, c.minute, c.hour, 0, 13, f)
  {
    hide Or, Pow2, YearField, Wrap;
    var y := YearField(c.year);
    var f := if y < 128 then y else y - 128;
    Powers();
    ShiftedYear(y);
    LateWraps(c);
    TwelveAndOne();
    var low := c.second / 2 + c.minute * 0x20 + c.hour * 0x800;
    OrAdds(c.second / 2, c.minute, 5);
    OrAdds(c.second / 2 + c.minute * 0x20, c.hour, 11);
    OrAdds(low, 32, 16);
    OrHigh(low, 1, 12, 21);
    Shl21(1);
    Shl21(12);
    Shl21(13);
    OrAdds(low + 13 * 0x20_0000, f, 25);
  }

  lemma TwelveAndOne()
    ensures Or(1, 12) == 13
  {
  }

  lemma LateWraps(c: Civil)
    requires c.minute < 64 && c.hour < 32 && c.day == 32 && c.month == 12
    ensures Wrap(c.minute * 0x20) == c.minute * 0x20 && Wrap(c.hour * 0x800) == c.hour * 0x800
    ensures Wrap(c.day * 0x1_0000) == 0x20_0000 && Wrap(c.month * 0x20_0000) == 12 * 0x20_0000
  {
  }

  /** The stored date of a local time: the units of two seconds are halved and doubled once more, and the year is the field's. */
  lemma StoredDate(local: ulong)
    ensures var (c, t) := (CivilOf(local), GetNWTime(MakeNWTime(CivilOf(local))));
      && t.second == c.second / 2 * 2 && t.minute == c.minute && t.hour == c.hour && (c.day < 32 ==> t.day == c.day && t.month == c.month)
      && t.year == YearOut(if YearField(c.year) < 128 then YearField(c.year) else YearField(c.year) - 128) && 1 <= t.month <= 13
  {
    hide CivilOf, YearOut, MakeNWTime, GetNWTime, Packed, Wrap, Or, YearField;
    var c := CivilOf(local);
    CivilFields(local);
    DayFits(local);
    ClockFits(local);
    var even := c.(second := c.second / 2 * 2);
    var f := if YearField(c.year) < 128 then YearField(c.year) else YearField(c.year) - 128;
    MadeSame(c);
    if c.day < 32 {
      MadeIsPacked(even);
      PackedReads(even.second / 2, c.minute, c.hour, c.day, c.month, f);
    } else {
      LateIsPacked(even);
      PackedReads(even.second / 2, c.minute, c.hour, 0, 13, f);
    }
  }

  lemma ClockFits(local: nat)
    ensures local % 60 / 2 < 30 && local / 60 % 60 < 60 && local / 3600 % 24 < 24
  {
  }

  /** second >> 1 drops the last bit. */
  lemma MadeSame(c: Civil)
    ensures MakeNWTime(c.(second := c.second / 2 * 2)) == MakeNWTime(c)
  {
    hide Or, Wrap;
    Doubled(c.second / 2);
  }

  lemma FieldOfYear(year: ulong)
    requires 1980 <= year < 2080
    ensures YearOut(if YearField(year) < 128 then YearField(year) else YearField(year) - 128) == if year < 2048 then year else year - 68
  {
  }

  /** A year outside 1980 to 2079 comes back as another, far away. */
  lemma FieldOfOther(y: int)
    requires -11 <= y < 0 || 100 <= y <= 126
    ensures Wrap(y + 1980) == y + 1980
    ensures var f := YearField(y + 1980);
      var back := TwoDigits(YearOut(if f < 128 then f else f - 128)); back <= 31 && (y < 0 ==> 21 <= back) && (y >= 100 ==> back <= 26)
  {
  }

  /** A system time stored and read back comes back, less what it is past a multiple of four seconds, exactly when its local day is
      one of the 24837 from 1 January 1980 to 31 December 2047. */
  lemma SystemRoundTrip(unix: ulong, minutesWest: int, dst: bool)
    ensures MonthIndex(GetNWTime(SystemToNetware(unix, minutesWest, dst)).month) >= 0
    ensures NetwareToSystem(SystemToNetware(unix, minutesWest, dst), minutesWest, dst) == unix - unix % 4
      <==> 0 <= Local(unix, minutesWest, dst) / 86400 - 3652 < 24837
  {
    hide CivilOf, DaysBack, YearOf, MakeUnixTime, TwoDigits, Wrap, Shift, Local, MakeNWTime, GetNWTime, YearStart, MonthStart, IsLeap,
      YearField, YearOut, MonthIndex;
    var local := Local(unix, minutesWest, dst);
    var k := LocalTurns(unix, minutesWest, dst);
    var c, t := CivilOf(local), GetNWTime(MakeNWTime(CivilOf(local)));
    CivilFields(local);
    StoredDate(local);
    IndexOf(t.month);
    StoredDays(local);
    var off := DaysBack(t.day, t.month, t.year) - local / 86400;
    StoredClock(c, t, local);
    MadeIs(t, minutesWest, dst, local, local / 86400, local % 4);
    Rounds(MakeUnixTime(t, minutesWest, dst), unix, unix - unix % 4, local, Shift(minutesWest, dst), k, off);
  }

  lemma IndexOf(month: ulong)
    requires 1 <= month <= 13
    ensures MonthIndex(month) == month - 1
  {
  }

  /** The first second of 1 January 2048 UTC does not come back. */
  lemma FirstNotBack() returns (unix: ulong)
    ensures unix == 28489 * 86400 && MonthIndex(GetNWTime(SystemToNetware(unix, 0, false)).month) >= 0
    ensures NetwareToSystem(SystemToNetware(unix, 0, false), 0, false) != unix
  {
    hide SystemToNetware, NetwareToSystem, MonthIndex, GetNWTime;
    unix := 28489 * 86400;
    SystemRoundTrip(unix, 0, false);
  }

  /** The day comes back if the year does, and is far off if not. */
  lemma StoredDays(local: ulong)
    ensures MonthIndex(GetNWTime(MakeNWTime(CivilOf(local))).month) >= 0
    ensures var t := GetNWTime(MakeNWTime(CivilOf(local))); var back := DaysBack(t.day, t.month, t.year);
      -49710 <= back - local / 86400 <= 49710 && (back == local / 86400 <==> 0 <= local / 86400 - 3652 < 24837)
  {
    hide CivilOf, YearOf, MakeNWTime, GetNWTime, DaysBack, TwoDigits, YearField, YearOut, MonthIndex, YearStart, MonthStart, IsLeap, Wrap, MonthLength;
    var c, t, d := CivilOf(local), GetNWTime(MakeNWTime(CivilOf(local))), local / 86400 - 3652;
    CivilFields(local);
    StoredDate(local);
    IndexOf(t.month);
    YearFits(d);
    if 0 <= d < 36525 {
      CivilIsGregorian(local);
      FieldOfYear(c.year);
      DayOfMonth(c);
      StoredDay(c, t, d + 3652);
    } else {
      FieldOfOther(YearOf(d));
      DaysBounds(t.day, t.month, t.year);
    }
  }

  lemma DayOfMonth(c: Civil)
    requires ValidDay(c.year, c.month, c.day)
    ensures c.day < 32
  {
  }

  lemma StoredDay(c: Civil, t: Civil, day: int)
    requires ValidDay(c.year, c.month, c.day) && c.year < 2080 && day == DayOf(c.year, c.month, c.day) + 3652
    requires t.day == c.day && t.month == c.month && t.year == if c.year < 2048 then c.year else c.year - 68
    ensures MonthIndex(t.month) >= 0 && -49710 <= DaysBack(t.day, t.month, t.year) - day <= 49710
    ensures (DaysBack(t.day, t.month, t.year) == day <==> c.year < 2048) && (c.year < 2048 <==> day - 3652 < 24837)
  {
    YearStartClosed(c.year - 1980);
    MonthStartTable(IsLeap(c.year), c.month);
    DaysBackIsRight(c.year, c.month, c.day);
    DaysBounds(t.day, t.month, t.year);
    hide DaysBack, YearStart, MonthStart, IsLeap;
  }

  lemma StoredClock(c: Civil, t: Civil, local: nat)
    requires c.second == local % 60 / 2 && c.minute == local / 60 % 60 && c.hour == local / 3600 % 24
    requires t.second == c.second / 2 * 2 && t.minute == c.minute && t.hour == c.hour
    ensures t.second % 32 * 2 + 60 * (t.minute % 64) + t.hour * 3600 == local - local / 86400 * 86400 - local % 4
  {
    TimeOfDay(local);
    QuarterOfMinute(local);
  }

  lemma QuarterOfMinute(t: nat)
    ensures t % 60 / 2 / 2 * 2 % 32 * 2 == t % 60 / 2 % 32 * 2 + t % 2 - t % 4
  {
    var s, m := t % 60, t / 60;
    assert t == 60 * m + s;
    SameQuarter(t, s, 15 * m);
    SameParity(t, s, 30 * m);
    assert s == s / 4 * 4 + s % 4 && s / 2 / 2 == s / 4;
  }
}
