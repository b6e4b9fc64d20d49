/** The chosen week in terms of dates alone: a week with the most offers, and which of several. */
module WeekChoice {
  import opened IsoWeeks
  import opened WeekSelection

  /** Day 1 is a Monday, so Sundays are the multiples of seven. */
  predicate IsMonday(m: int) {
    m >= 1 && m % 7 == 1
  }

  lemma MondayIsMonday(k: Key)
    requires ValidKey(k)
    ensures IsMonday(WeekMonday(k))
  {
    hide WeekOneMonday, DaysBefore;
    WeekOneBounds(k.year);
    DaysBeforeGrows(1, k.year);
    FirstYear();
  }

  lemma FirstYear()
    ensures WeekOneMonday(1) == 1 && DaysBefore(1) == 0
  {
  }

  lemma KeyOfMonday(m: int) returns (k: Key)
    requires IsMonday(m)
    ensures ValidKey(k) && WeekMonday(k) == m && k == IsoCalendar(m)
  {
    hide IsoCalendar, WeekMonday, ValidKey;
    WeekMondayIsMonday(m);
    k := IsoCalendar(m);
  }

  /** Keys are ordered as their Mondays are. */
  lemma KeyOrder(a: Key, b: Key)
    requires ValidKey(a) && ValidKey(b)
    ensures KeyLe(a, b) <==> WeekMonday(a) <= WeekMonday(b)
  {
    hide WeekOneMonday, IsLongYear;
    WeeksFillYear(a.year);
    WeeksFillYear(b.year);
    if a.year < b.year { WeekOneGrows(a.year + 1, b.year); }
    if b.year < a.year { WeekOneGrows(b.year + 1, a.year); }
  }

  function Gap(a: int, b: int): nat {
    if a < b then b - a else a - b
  }

  lemma ModeByDates(rows: seq<Row>, k: Key)
    requires ValidKey(k)
    ensures IsMode(rows, k) <==>
            && InWeekFrom(rows, WeekMonday(k)) != []
            && forall m | IsMonday(m) :: |InWeekFrom(rows, m)| <= |InWeekFrom(rows, WeekMonday(k))|
  {
    hide IsoCalendar, WeekMonday, ValidKey, CountWeek, InWeekFrom, IsMonday;
    WeekRows(rows, k);
    if IsMode(rows, k) {
      forall m | IsMonday(m) ensures |InWeekFrom(rows, m)| <= |InWeekFrom(rows, WeekMonday(k))| {
        var j := KeyOfMonday(m);
        WeekRows(rows, j);
      }
    }
    if InWeekFrom(rows, WeekMonday(k)) != []
       && forall m | IsMonday(m) :: |InWeekFrom(rows, m)| <= |InWeekFrom(rows, WeekMonday(k))| {
      forall j ensures CountWeek(rows, j) <= CountWeek(rows, k) {
        CountsValidKeys(rows, j);
        if CountWeek(rows, j) > 0 {
          MondayIsMonday(j);
          WeekRows(rows, j);
        }
      }
    }
  }

  /** The week taken has the most offers of all weeks. It is the week of the observation day, or of the next day on a
    * Sunday, if that week has as many; otherwise of all weeks with as many the one whose Monday is nearest to that day,
    * the earlier of two at the same distance. */
  lemma ChosenByDates(rows: seq<Row>, local: Day, k: Key)
    requires IsChoice(rows, local, k)
    ensures var monday := WeekMonday(k);
            var most := |InWeekFrom(rows, monday)|;
            var target := if local % 7 == 0 then local + 1 else local;
            var home := target - (target - 1) % 7;
            && IsMonday(monday) && most > 0
            && (forall m | IsMonday(m) :: |InWeekFrom(rows, m)| <= most)
            && (|InWeekFrom(rows, home)| == most ==> monday == home)
            && (|InWeekFrom(rows, home)| < most ==>
                  forall m | IsMonday(m) && |InWeekFrom(rows, m)| == most ::
                    Gap(monday, target) < Gap(m, target)
                    || (Gap(monday, target) == Gap(m, target) && monday <= m))
  {
    hide IsoCalendar, WeekMonday, ValidKey, InWeekFrom, IsMode;
    var target := if local % 7 == 0 then local + 1 else local;
    var home := target - (target - 1) % 7;
    TargetAndHome(local);
    MondayIsMonday(k);
    ModeByDates(rows, k);
    var homeKey := KeyOfMonday(home);
    ModeByDates(rows, homeKey);
    var most := |InWeekFrom(rows, WeekMonday(k))|;
    if |InWeekFrom(rows, home)| < most {
      forall m | IsMonday(m) && |InWeekFrom(rows, m)| == most
        ensures Gap(WeekMonday(k), target) < Gap(m, target)
                || (Gap(WeekMonday(k), target) == Gap(m, target) && WeekMonday(k) <= m)
      {
        var j := KeyOfMonday(m);
        ModeByDates(rows, j);
        KeyOrder(k, j);
        assert CloserOrEqual(k, j, target);
      }
    }
  }

  lemma TargetAndHome(local: Day)
    ensures var target := if local % 7 == 0 then local + 1 else local;
            var home := target - (target - 1) % 7;
            TargetDay(local) == target && IsMonday(home) && IsoCalendar(target) == IsoCalendar(home)
  {
    hide IsoCalendar, WeekMonday, ValidKey;
    var target := if local % 7 == 0 then local + 1 else local;
    var home := target - (target - 1) % 7;
    WeekMondayIsMonday(target);
    WeekMondayIsMonday(home);
    assert MondayOf(target) == home == MondayOf(home);
    SameMondaySameKey(IsoCalendar(target), IsoCalendar(home));
  }
}
