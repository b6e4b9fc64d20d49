/** Proleptic Gregorian days and ISO 8601 weeks over day ordinals: day 1 is Monday, 1 January of year 1. */
module IsoWeeks {

  /** Days in all years before year y. */
  function DaysBefore(y: int): int
    requires y >= 1
  {
    365 * (y - 1) + (y - 1) / 4 - (y - 1) / 100 + (y - 1) / 400
  }

  predicate IsLeap(y: int) {
    y % 4 == 0 && (y % 100 != 0 || y % 400 == 0)
  }

  lemma YearLength(y: int)
    requires y >= 1
    ensures DaysBefore(y + 1) == DaysBefore(y) + if IsLeap(y) then 366 else 365
  {
    assert y / 4 == (y - 1) / 4 + if y % 4 == 0 then 1 else 0;
    assert y / 100 == (y - 1) / 100 + if y % 100 == 0 then 1 else 0;
    assert y / 400 == (y - 1) / 400 + if y % 400 == 0 then 1 else 0;
  }

  /** 0 is Monday, 6 is Sunday. */
  function Weekday(d: int): (w: int)
    ensures 0 <= w <= 6
  {
    (d + 6) % 7
  }

  function MondayOf(d: int): int {
    d - Weekday(d)
  }

  function YearFrom(d: int, y: int): (r: int)
    requires y >= 1 && DaysBefore(y) < d
    ensures r >= y && DaysBefore(r) < d <= DaysBefore(r + 1)
    decreases d - DaysBefore(y)
  {
    YearLength(y);
    if d <= DaysBefore(y + 1) then y else YearFrom(d, y + 1)
  }

  /** The calendar year of a day. */
  function YearOf(d: int): (y: int)
    requires d >= 1
    ensures y >= 1 && DaysBefore(y) < d <= DaysBefore(y + 1)
  {
    YearFrom(d, 1)
  }

  lemma {:induction false} DaysBeforeGrows(y: int, z: int)
    requires 1 <= y <= z
    ensures DaysBefore(z) >= DaysBefore(y) + 365 * (z - y)
    decreases z - y
  {
    if y < z {
      YearLength(z - 1);
      DaysBeforeGrows(y, z - 1);
    }
  }

  lemma YearUnique(d: int, y: int)
    requires d >= 1 && y >= 1 && DaysBefore(y) < d <= DaysBefore(y + 1)
    ensures YearOf(d) == y
  {
    var x := YearOf(d);
    if x < y { DaysBeforeGrows(x + 1, y); } else if y < x { DaysBeforeGrows(y + 1, x); }
  }

  datatype Key = Key(year: int, week: int)

  /** The ISO rule: a week belongs to the year of its Thursday, and is numbered by that Thursday's day of the year. */
  function IsoWeek(d: int): Key
    requires d >= 1
  {
    ThursdayPositive(d);
    var t := MondayOf(d) + 3;
    Key(YearOf(t), (t - DaysBefore(YearOf(t)) - 1) / 7 + 1)
  }

  lemma ThursdayPositive(d: int)
    requires d >= 1
    ensures MondayOf(d) >= 1
  {
  }

  /** The Monday of week 1 as the calendar library finds it, from the weekday of 1 January. */
  function WeekOneMonday(y: int): int
    requires y >= 1
  {
    var first := DaysBefore(y) + 1;
    var m := first - Weekday(first);
    if Weekday(first) > 3 then m + 7 else m
  }

  /** The library's `isocalendar`: start from the calendar year, then step back or forward one year at the ends. */
  function IsoCalendar(d: int): Key
    requires d >= 1
  {
    var y := YearOf(d);
    var week := (d - WeekOneMonday(y)) / 7;
    if week < 0 then
      FirstYearStarts(d);
      Key(y - 1, (d - WeekOneMonday(y - 1)) / 7 + 1)
    else if week >= 52 && d >= WeekOneMonday(y + 1) then Key(y + 1, 1)
    else Key(y, week + 1)
  }

  lemma FirstYearStarts(d: int)
    requires d >= 1 && d < WeekOneMonday(YearOf(d))
    ensures YearOf(d) > 1
  {
    assert WeekOneMonday(1) == 1;
  }

  predicate IsLongYear(y: int)
    requires y >= 1
  {
    var first := Weekday(DaysBefore(y) + 1);
    first == 3 || (first == 2 && IsLeap(y))
  }

  function WeeksIn(y: int): int
    requires y >= 1
  {
    if IsLongYear(y) then 53 else 52
  }

  /** The keys `fromisocalendar` accepts. */
  predicate ValidKey(k: Key) {
    k.year >= 1 && 1 <= k.week <= WeeksIn(k.year)
  }

  function WeekMonday(k: Key): int
    requires ValidKey(k)
  {
    WeekOneMonday(k.year) + 7 * (k.week - 1)
  }

  lemma WeekOneBounds(y: int)
    requires y >= 1
    ensures DaysBefore(y) - 2 <= WeekOneMonday(y) <= DaysBefore(y) + 4
    ensures Weekday(WeekOneMonday(y)) == 0
  {
    hide DaysBefore;
    var first := DaysBefore(y) + 1;
    MondayWeekday(first);
    WeekdayShift(MondayOf(first), 7);
  }

  lemma MondayWeekday(d: int)
    ensures Weekday(MondayOf(d)) == 0
  {
    assert (d + 6) - (d + 6) % 7 == 7 * ((d + 6) / 7);
  }

  lemma WeekdayShift(d: int, n: int)
    requires 0 <= n
    ensures Weekday(d + n) == (Weekday(d) + n) % 7
  {
  }

  /** A year has 53 weeks exactly by the library's rule for long years, and 52 otherwise. */
  lemma WeeksFillYear(y: int)
    requires y >= 1
    ensures WeekOneMonday(y + 1) == WeekOneMonday(y) + 7 * WeeksIn(y)
  {
    hide DaysBefore, Weekday, IsLeap;
    YearLength(y);
    var first := DaysBefore(y) + 1;
    var length := if IsLeap(y) then 366 else 365;
    WeekdayShift(first, length);
    var w := Weekday(first);
    assert Weekday(first + length) == if IsLeap(y) then (w + 2) % 7 else (w + 1) % 7;
    assert w in {0, 1, 2, 3, 4, 5, 6};
  }

  lemma {:induction false} WeekOneGrows(y: int, z: int)
    requires 1 <= y <= z
    ensures WeekOneMonday(y) + 364 * (z - y) <= WeekOneMonday(z)
    decreases z - y
  {
    if y < z {
      WeeksFillYear(z - 1);
      WeekOneGrows(y, z - 1);
    }
  }

  /** The library's answer lies between the first Mondays of its week year and of the next. */
  lemma IsoCalendarInYear(d: int)
    requires d >= 1
    ensures var k := IsoCalendar(d);
            && k.year >= 1 && WeekOneMonday(k.year) <= d < WeekOneMonday(k.year + 1)
            && k.week == (d - WeekOneMonday(k.year)) / 7 + 1
  {
    hide WeekOneMonday, DaysBefore;
    var y := YearOf(d);
    WeekOneBounds(y);
    WeekOneBounds(y + 1);
    WeeksFillYear(y);
    if d < WeekOneMonday(y) {
      FirstYearStarts(d);
      WeekOneBounds(y - 1);
      DaysBeforeGrows(y - 1, y);
      WeeksFillYear(y - 1);
    } else if d >= WeekOneMonday(y + 1) {
      WeeksFillYear(y + 1);
    }
  }

  lemma SameWeekYear(d: int, y: int, z: int)
    requires y >= 1 && z >= 1
    requires WeekOneMonday(y) <= d < WeekOneMonday(y + 1) && WeekOneMonday(z) <= d < WeekOneMonday(z + 1)
    ensures y == z
  {
    hide WeekOneMonday;
    if y < z { WeekOneGrows(y + 1, z); } else if z < y { WeekOneGrows(z + 1, y); }
  }

  /** Exact weeks: a day's key is k iff the day is one of the seven days from k's Monday to its Sunday. */
  lemma WeekKeyExact(d: int, k: Key)
    requires d >= 1
    ensures ValidKey(IsoCalendar(d))
    ensures ValidKey(k) ==> (IsoCalendar(d) == k <==> WeekMonday(k) <= d <= WeekMonday(k) + 6)
  {
    hide WeekOneMonday, DaysBefore, IsoCalendar, IsLongYear;
    IsoCalendarInYear(d);
    var key := IsoCalendar(d);
    WeeksFillYear(key.year);
    if ValidKey(k) {
      WeeksFillYear(k.year);
      if WeekMonday(k) <= d <= WeekMonday(k) + 6 { SameWeekYear(d, k.year, key.year); }
    }
  }

  /** The library agrees with the ISO definition by Thursdays. */
  lemma LibraryFollowsIso(d: int)
    requires d >= 1
    ensures IsoCalendar(d) == IsoWeek(d)
  {
    hide WeekOneMonday, DaysBefore, IsoCalendar, IsLongYear;
    IsoCalendarInYear(d);
    var k := IsoCalendar(d);
    WeekOneBounds(k.year);
    WeekOneBounds(k.year + 1);
    ThursdayPositive(d);
    MondayInWeek(d, WeekOneMonday(k.year));
    WeeksFillYear(k.year);
    YearUnique(MondayOf(d) + 3, k.year);
  }

  /** Counting whole weeks from a Monday reaches the Monday of the day's week. */
  lemma MondayInWeek(d: int, m: int)
    requires m <= d && Weekday(m) == 0
    ensures MondayOf(d) == m + 7 * ((d - m) / 7)
  {
    WeekdayShift(m, d - m);
  }

  lemma WeekMondayIsMonday(d: int)
    requires d >= 1
    ensures ValidKey(IsoCalendar(d)) && WeekMonday(IsoCalendar(d)) == MondayOf(d)
  {
    hide WeekOneMonday, DaysBefore, IsoCalendar, IsLongYear;
    WeekKeyExact(d, IsoCalendar(d));
    IsoCalendarInYear(d);
    WeekOneBounds(IsoCalendar(d).year);
    MondayInWeek(d, WeekOneMonday(IsoCalendar(d).year));
  }

  function NextWeek(k: Key): Key
    requires ValidKey(k)
  {
    if k.week < WeeksIn(k.year) then Key(k.year, k.week + 1) else Key(k.year + 1, 1)
  }

  /** Mondays seven days apart are exactly successive ISO weeks, across 52- and 53-week year ends alike. */
  lemma SevenDaysIsNextWeek(a: Key, b: Key)
    requires ValidKey(a) && ValidKey(b)
    ensures ValidKey(NextWeek(a)) && WeekMonday(NextWeek(a)) == WeekMonday(a) + 7
    ensures WeekMonday(b) == WeekMonday(a) + 7 <==> b == NextWeek(a)
  {
    hide WeekOneMonday, IsLongYear;
    WeeksFillYear(a.year);
    var n := NextWeek(a);
    if WeekMonday(b) == WeekMonday(n) { SameMondaySameKey(b, n); }
  }

  lemma SameMondaySameKey(a: Key, b: Key)
    requires ValidKey(a) && ValidKey(b) && WeekMonday(a) == WeekMonday(b)
    ensures a == b
  {
    hide WeekOneMonday, IsLongYear;
    WeeksFillYear(a.year);
    WeeksFillYear(b.year);
    SameWeekYear(WeekMonday(a), a.year, b.year);
  }
}
