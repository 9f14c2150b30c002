/**
  The calendar conversion of src/net/mn_ntp.c: its year and month loops against closed formulas
  of the Gregorian calendar.
*/
module Calendar {
  import opened Words

  type Minutes = x: int | -32768 <= x < 32768

  /** weekday 0 is Sunday */
  datatype Civil = Civil(year: U16, month: Byte, day: Byte, hour: Byte, minute: Byte, second: Byte, weekday: Byte)

  const DAY: int := 86400

  predicate Leap(y: nat) { (y % 4 == 0 && y % 100 != 0) || y % 400 == 0 }

  function YearLength(y: nat): nat { if Leap(y) then 366 else 365 }

  const MDAYS: seq<Byte> := [31, 28, 31, 30, 31, 30, 31, 31, 30, 31, 30, 31]

  function MonthLength(y: nat, m: nat): nat
    requires 1 <= m <= 12
  {
    if m == 2 && Leap(y) then 29 else MDAYS[m - 1]
  }

  predicate ValidDate(y: nat, m: nat, d: nat) { 1900 <= y && 1 <= m <= 12 && 1 <= d <= MonthLength(y, m) }

  predicate ValidCivil(c: Civil) {
    ValidDate(c.year, c.month, c.day) && c.hour < 24 && c.minute < 60 && c.second < 60 && c.weekday < 7
  }

  // ----- closed formulas -----

  /** How many leap days precede the end of year y. */
  function LeapDays(y: nat): int { y / 4 - y / 100 + y / 400 }

  /** Days from 1900-01-01 to the first of January of year y. */
  function YearStart(y: nat): int
    requires y >= 1900
  {
    365 * (y - 1900) + LeapDays(y - 1) - 460
  }

  /** Days from the first of January to the first of month m. */
  function MonthStart(y: nat, m: nat): int
    requires 1 <= m <= 12
  {
    (367 * m - 362) / 12 - (if m <= 2 then 0 else if Leap(y) then 1 else 2)
  }

  function DayNumber(y: nat, m: nat, d: nat): int
    requires ValidDate(y, m, d)
  {
    YearStart(y) + MonthStart(y, m) + d - 1
  }

  /** Seconds since 1900-01-01 00:00:00. */
  function SecondsSince1900(c: Civil): int
    requires ValidCivil(c)
  {
    DayNumber(c.year, c.month, c.day) * DAY + c.hour * 3600 + c.minute * 60 + c.second
  }

  const SAKAMOTO: seq<nat> := [0, 3, 2, 5, 0, 3, 5, 1, 4, 6, 2, 4]

  /** The day of the week straight from the date, Sunday 0, after T. Sakamoto. */
  function WeekdayOf(y: nat, m: nat, d: nat): nat
    requires ValidDate(y, m, d)
  {
    var y' := if m < 3 then y - 1 else y;
    (y' + LeapDays(y') + SAKAMOTO[m - 1] + d) % 7
  }

  lemma LeapDayStep(y: nat)
    requires y >= 1
    ensures LeapDays(y) == LeapDays(y - 1) + if Leap(y) then 1 else 0
  {
    QuotientStep(y, 4);
    QuotientStep(y, 100);
    QuotientStep(y, 400);
    Centuries(y);
  }

  lemma QuotientStep(y: nat, c: nat)
    requires y >= 1 && (c == 4 || c == 100 || c == 400)
    ensures y / c == (y - 1) / c + if y % c == 0 then 1 else 0
  {
  }

  lemma Centuries(y: nat)
    ensures y % 400 == 0 ==> y % 100 == 0
    ensures y % 100 == 0 ==> y % 4 == 0
  {
    if y % 100 == 0 {
      Multiple(4, 25 * (y / 100));
      assert y == 4 * (25 * (y / 100));
    }
    if y % 400 == 0 {
      Multiple(100, 4 * (y / 400));
      assert y == 100 * (4 * (y / 400));
    }
  }

  lemma Multiple(c: nat, k: nat)
    requires c == 4 || c == 100
    ensures (c * k) % c == 0
  {
  }

  lemma YearStep(y: nat)
    requires y >= 1900
    ensures YearStart(y + 1) == YearStart(y) + YearLength(y)
  {
    LeapDayStep(y);
    hide LeapDays, Leap;
  }

  lemma MonthStep(y: nat, m: nat)
    requires 1 <= m <= 12
    ensures m < 12 ==> MonthStart(y, m + 1) == MonthStart(y, m) + MonthLength(y, m)
    ensures m == 12 ==> MonthStart(y, m) + MonthLength(y, m) == YearLength(y)
    ensures MonthStart(y, 1) == 0
  {
    hide Leap;
  }

  /** Whole years come in order. */
  lemma {:induction false} YearsInOrder(y: nat, z: nat)
    requires 1900 <= y < z
    ensures YearStart(y) + YearLength(y) <= YearStart(z)
  {
    YearStep(z - 1);
    if y < z - 1 {
      YearsInOrder(y, z - 1);
    }
    hide LeapDays;
  }

  lemma {:induction false} MonthsInOrder(y: nat, m: nat, n: nat)
    requires 1 <= m < n <= 12
    ensures MonthStart(y, m) + MonthLength(y, m) <= MonthStart(y, n)
  {
    MonthStep(y, n - 1);
    if m < n - 1 {
      MonthsInOrder(y, m, n - 1);
    }
    hide MonthStart, Leap;
  }

  lemma {:induction false} WithinYear(y: nat, m: nat)
    requires 1 <= m <= 12
    ensures 0 <= MonthStart(y, m) && MonthStart(y, m) + MonthLength(y, m) <= YearLength(y)
  {
    MonthStep(y, m);
    MonthStep(y, 12);
    if m > 1 {
      MonthsInOrder(y, 1, m);
    }
    if m < 12 {
      MonthsInOrder(y, m, 12);
    }
    hide MonthStart, Leap;
  }

  predicate DateBefore(y: nat, m: nat, d: nat, z: nat, n: nat, e: nat) {
    y < z || (y == z && (m < n || (m == n && d < e)))
  }

  /** Dates are numbered in their order. */
  lemma DatesInOrder(y: nat, m: nat, d: nat, z: nat, n: nat, e: nat)
    requires ValidDate(y, m, d) && ValidDate(z, n, e) && DateBefore(y, m, d, z, n, e)
    ensures DayNumber(y, m, d) < DayNumber(z, n, e)
  {
    hide MonthStart, YearStart, YearLength, MonthLength;
    WithinYear(y, m);
    WithinYear(z, n);
    if y < z {
      YearsInOrder(y, z);
    } else if m < n {
      MonthsInOrder(y, m, n);
    }
  }

  /** The closed weekday formula agrees with counting days from Monday 1900-01-01. */
  lemma Weekdays(y: nat, m: nat, d: nat)
    requires ValidDate(y, m, d)
    ensures WeekdayOf(y, m, d) == (DayNumber(y, m, d) + 1) % 7
  {
    hide LeapDays, Leap, MonthStart, MonthWeeks;
    LeapDayStep(y);
    MonthResidue(y, m);
    var y' := if m < 3 then y - 1 else y;
    var a := y' + LeapDays(y') + SAKAMOTO[m - 1] + d;
    var k := 52 * (y - 1900) - 337 + MonthWeeks(y, m);
    assert DayNumber(y, m, d) + 1 == a + 7 * k;
    SevensApart(a, k);
  }

  /** The table holds the days before each month modulo 7, the leap day not counted and March
      first in the year's count. */
  lemma MonthResidue(y: nat, m: nat)
    requires 1 <= m <= 12
    ensures MonthStart(y, m) == 7 * MonthWeeks(y, m) + SAKAMOTO[m - 1]
                                + if m < 3 then 0 else if Leap(y) then 2 else 1
  {
    hide Leap;
  }

  lemma SevensApart(a: int, k: int)
    ensures (a + 7 * k) % 7 == a % 7
  {
  }

  /** The whole weeks before month m. */
  function MonthWeeks(y: nat, m: nat): int
    requires 1 <= m <= 12
  {
    [0, 4, 8, 12, 17, 21, 25, 30, 34, 38, 43, 47][m - 1]
  }

  // ----- the conversion -----

  /** The timestamp read in the era around the pivot 2^31: from 1968 to 2104. */
  function Unwrapped(seconds: U32): int { if seconds < HALF then seconds + M32 else seconds }

  /** The time the caller asked for: local time, never wrapped. */
  function Local(seconds: U32, offset: Minutes): int { Unwrapped(seconds) + offset * 60 }

  predicate InEra(x: int) { HALF <= x < HALF + M32 }

  /** The local time mn_ntp_civil works with: the offset is added in 32 bits before the era is chosen. */
  function Taken(seconds: U32, offset: Minutes): int { Unwrapped(Wrap(seconds + offset * 60)) }

  lemma TakenIsLocal(seconds: U32, offset: Minutes)
    ensures InEra(Taken(seconds, offset))
    ensures Taken(seconds, offset) == Local(seconds, offset) <==> InEra(Local(seconds, offset))
  {
  }

  /** The day and the second of the day of a time in the era, as the source computes them in 32 bits. */
  lemma EraSplit(s: U32)
    ensures var x := Unwrapped(s);
            if s < HALF then x / DAY == 49710 + (s + 23296) / DAY && x % DAY == (s + 23296) % DAY && s + 23296 < M32
            else x / DAY == s / DAY && x % DAY == s % DAY
  {
    if s < HALF {
      assert s + M32 == 49710 * DAY + (s + 23296);
    }
  }

  /** The year of a day and the day of that year. */
  method YearOf(total: nat) returns (y: U16, days: nat)
    requires total < 100000
    ensures 1900 <= y <= 2200 && days < YearLength(y) && total == YearStart(y) + days
  {
    y, days := 1900, total;
    var dy := YearLength(y);
    while days >= dy
      invariant 1900 <= y && 365 * (y - 1900) + days <= total
      invariant dy == YearLength(y) && total == YearStart(y) + days
      decreases days
    {
      YearStep(y);
      hide YearStart;
      days := days - dy;
      y := y + 1;
      dy := YearLength(y);
    }
  }

  /** The month of a day of the year and the day of that month, counted from 0. */
  method MonthOf(y: U16, day: nat) returns (m: Byte, days: nat)
    requires day < YearLength(y)
    ensures 1 <= m <= 12 && days < MonthLength(y, m) && day == MonthStart(y, m) + days
  {
    hide MonthStart, Leap;
    m, days := 0, day;
    MonthStep(y, 1);
    MonthStep(y, 12);
    while m < 12
      invariant m <= 12 && (m < 12 ==> day == MonthStart(y, m as int + 1) + days)
      invariant m == 12 ==> day >= YearLength(y)
      decreases 12 - m
    {
      var dy := if m == 1 && Leap(y) then 29 else MDAYS[m];
      if days < dy {
        break;
      }
      MonthStep(y, m as int + 1);
      days := days - dy;
      m := m + 1;
    }
    m := m + 1;
  }

  /** mn_ntp_civil: the date it gives is valid, is the one date of the local time it works with, and
      has the right weekday. */
  method ToCivil(seconds: U32, offset: Minutes) returns (c: Civil)
    ensures ValidCivil(c) && SecondsSince1900(c) == Taken(seconds, offset)
    ensures c.weekday == WeekdayOf(c.year, c.month, c.day)
  {
    var s := Wrap(seconds + offset * 60);
    EraSplit(s);
    var days: nat, rem: nat;
    if s < HALF {
      days := 49710 + (s + 23296) / DAY;
      rem := (s + 23296) % DAY;
    } else {
      days := s / DAY;
      rem := s % DAY;
    }
    assert days < 100000 && days * DAY + rem == Taken(seconds, offset);
    var hour := rem / 3600;
    rem := rem % 3600;
    var weekday := (days + 1) % 7;
    hide YearStart, MonthStart, YearLength, MonthLength, WeekdayOf, Taken, Unwrapped, Leap;
    var y, ofYear := YearOf(days);
    var m, ofMonth := MonthOf(y, ofYear);
    MonthDays(y, m);
    c := Civil(y, m, ofMonth + 1, hour, rem / 60, rem % 60, weekday);
    Weekdays(c.year, c.month, c.day);
  }

  lemma MonthDays(y: nat, m: nat)
    requires 1 <= m <= 12
    ensures 28 <= MonthLength(y, m) <= 31
  {
    hide Leap;
  }

  /** mn_ntp_civil is right exactly for local times in the era: a date that stands for the time it
      works with stands for the time the caller meant if and only if that lies in [2^31, 2^31 + 2^32). */
  lemma RightInEra(seconds: U32, offset: Minutes, c: Civil)
    requires ValidCivil(c) && SecondsSince1900(c) == Taken(seconds, offset)
    ensures SecondsSince1900(c) == Local(seconds, offset) <==> InEra(Local(seconds, offset))
  {
    TakenIsLocal(seconds, offset);
    hide SecondsSince1900;
  }

  function SecondOfDay(c: Civil): nat { c.hour * 3600 + c.minute * 60 + c.second }

  /** The order of the calendar and the clock. */
  predicate Before(c: Civil, d: Civil) {
    || DateBefore(c.year, c.month, c.day, d.year, d.month, d.day)
    || (c.year == d.year && c.month == d.month && c.day == d.day
        && (c.hour < d.hour || (c.hour == d.hour && (c.minute < d.minute || (c.minute == d.minute && c.second < d.second)))))
  }

  lemma BeforeCounts(c: Civil, d: Civil)
    requires ValidCivil(c) && ValidCivil(d) && Before(c, d)
    ensures SecondsSince1900(c) < SecondsSince1900(d)
  {
    hide DayNumber, ValidDate;
    if DateBefore(c.year, c.month, c.day, d.year, d.month, d.day) {
      DatesInOrder(c.year, c.month, c.day, d.year, d.month, d.day);
    }
  }

  /** The count of seconds is the order of the calendar: it is less exactly for earlier dates, so no two
      dates stand for the same second. */
  lemma InOrder(c: Civil, d: Civil)
    requires ValidCivil(c) && ValidCivil(d)
    ensures SecondsSince1900(c) < SecondsSince1900(d) <==> Before(c, d)
    ensures SecondsSince1900(c) == SecondsSince1900(d) <==> c.(weekday := d.weekday) == d
  {
    hide SecondsSince1900;
    if Before(c, d) {
      BeforeCounts(c, d);
    } else if Before(d, c) {
      BeforeCounts(d, c);
    } else {
      SameSeconds(c, d);
    }
  }

  lemma SameSeconds(c: Civil, d: Civil)
    requires ValidCivil(c) && ValidCivil(d) && c.(weekday := d.weekday) == d
    ensures SecondsSince1900(c) == SecondsSince1900(d)
  {
    hide DayNumber, ValidDate;
  }

  /** The first second of the era and the first one after it. */
  const ERA_BEGINS: Civil := Civil(1968, 1, 20, 3, 14, 8, 6)
  const ERA_ENDS: Civil := Civil(2104, 2, 26, 9, 42, 24, 2)

  /** In dates, the conversion is right from 20 January 1968, 03:14:08, to before 26 February 2104, 09:42:24. */
  lemma EraInDates(c: Civil)
    requires ValidCivil(c)
    ensures ValidCivil(ERA_BEGINS) && ValidCivil(ERA_ENDS)
    ensures InEra(SecondsSince1900(c)) <==> !Before(c, ERA_BEGINS) && Before(c, ERA_ENDS)
  {
    EraBounds();
    InOrder(c, ERA_BEGINS);
    InOrder(c, ERA_ENDS);
    hide SecondsSince1900, Before, ERA_BEGINS, ERA_ENDS;
  }

  lemma EraBounds()
    ensures ValidCivil(ERA_BEGINS) && SecondsSince1900(ERA_BEGINS) == HALF
    ensures ValidCivil(ERA_ENDS) && SecondsSince1900(ERA_ENDS) == HALF + M32
  {
  }
}
