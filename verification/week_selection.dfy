/** The weekly producer's choice of one ISO week among the offers, and the week view it asks the site for. */
module WeekSelection {
  import opened Foundations
  import opened Sorting
  import opened IsoWeeks

  type Day = d: int | d >= 1 witness 1

  /** A structured offer: its promotion's local start date, if any, takes precedence over the price's epoch date. */
  datatype Row = Row(id: string, hasPrice: bool, promoStart: Option<Day>, epochStart: Option<Day>)

  function RowStart(r: Row): Option<Day> {
    if !r.hasPrice then None else if r.promoStart.Some? then r.promoStart else r.epochStart
  }

  /** A priced row dated from a to b: its promotion date decides if it has one, its epoch date otherwise. */
  predicate DatedWithin(r: Row, a: int, b: int) {
    && r.hasPrice
    && (r.promoStart.Some? ==> a <= r.promoStart.value <= b)
    && (r.promoStart.None? ==> r.epochStart.Some? && a <= r.epochStart.value <= b)
  }

  /** The rows dated in the seven days from day m. */
  function InWeekFrom(rows: seq<Row>, m: int): seq<Row> {
    Filter(rows, (r: Row) => DatedWithin(r, m, m + 6))
  }

  function IdsOf(rows: seq<Row>): seq<string> {
    Map(rows, (r: Row) => r.id)
  }

  predicate StartsInWeek(r: Row, k: Key) {
    RowStart(r).Some? && IsoCalendar(RowStart(r).value) == k
  }

  function CountWeek(rows: seq<Row>, k: Key): nat {
    if rows == [] then 0 else
      CountWeek(rows[..|rows| - 1], k) + if StartsInWeek(rows[|rows| - 1], k) then 1 else 0
  }

  function SelectedIds(rows: seq<Row>, k: Key): seq<string> {
    if rows == [] then [] else
      SelectedIds(rows[..|rows| - 1], k) + if StartsInWeek(rows[|rows| - 1], k) then [rows[|rows| - 1].id] else []
  }

  /** On a Sunday the producer looks at the next day's week. */
  function TargetDay(local: Day): Day {
    if Weekday(local) == 6 then local + 1 else local
  }

  function Distance(k: Key, target: Day): int
    requires ValidKey(k)
  {
    var gap := WeekMonday(k) - target;
    if gap < 0 then -gap else gap
  }

  predicate KeyLe(a: Key, b: Key) {
    a.year < b.year || (a.year == b.year && a.week <= b.week)
  }

  /** Nearest Monday first, then the smaller key. */
  predicate CloserOrEqual(a: Key, b: Key, target: Day)
    requires ValidKey(a) && ValidKey(b)
  {
    Distance(a, target) < Distance(b, target) || (Distance(a, target) == Distance(b, target) && KeyLe(a, b))
  }

  /** No week has more offers. */
  ghost predicate IsMode(rows: seq<Row>, k: Key) {
    CountWeek(rows, k) > 0 && forall j :: CountWeek(rows, j) <= CountWeek(rows, k)
  }

  /** The week to take: the target week if it is a mode, otherwise the mode that comes first by distance and key. */
  ghost predicate IsChoice(rows: seq<Row>, local: Day, k: Key) {
    var target := TargetDay(local);
    && ValidKey(k) && IsMode(rows, k)
    && (IsMode(rows, IsoCalendar(target)) ==> k == IsoCalendar(target))
    && (!IsMode(rows, IsoCalendar(target)) ==> forall j | ValidKey(j) && IsMode(rows, j) :: CloserOrEqual(k, j, target))
  }

  datatype Selection = Selection(ids: seq<string>, key: Key, monday: int, sunday: int)

  datatype SelectError = NoDefensibleStart | ZeroOffers

  lemma {:induction false} CountsValidKeys(rows: seq<Row>, k: Key)
    ensures CountWeek(rows, k) > 0 ==> ValidKey(k)
    ensures |SelectedIds(rows, k)| == CountWeek(rows, k)
  {
    if rows != [] {
      CountsValidKeys(rows[..|rows| - 1], k);
      var start := RowStart(rows[|rows| - 1]);
      if start.Some? { WeekKeyExact(start.value, k); }
    }
  }

  /** The counter over the weeks of the rows, with its keys in first-seen order. */
  ghost predicate Counted(rows: seq<Row>, keys: seq<Key>, counts: map<Key, nat>) {
    && (forall k :: k in keys <==> k in counts)
    && (forall k :: CountWeek(rows, k) == if k in counts then counts[k] else 0)
    && (forall k | k in counts :: counts[k] > 0)
  }

  lemma CountStep(rows: seq<Row>, i: nat, keys: seq<Key>, counts: map<Key, nat>, k: Key, keys': seq<Key>,
                  counts': map<Key, nat>)
    requires i < |rows| && Counted(rows[..i], keys, counts)
    requires RowStart(rows[i]).Some? && IsoCalendar(RowStart(rows[i]).value) == k
    requires counts' == counts[k := (if k in counts then counts[k] else 0) + 1]
    requires keys' == if k in counts then keys else keys + [k]
    ensures Counted(rows[..i + 1], keys', counts')
  {
    hide IsoCalendar;
    assert rows[..i + 1][..i] == rows[..i];
  }

  lemma CountSkip(rows: seq<Row>, i: nat, keys: seq<Key>, counts: map<Key, nat>)
    requires i < |rows| && Counted(rows[..i], keys, counts) && RowStart(rows[i]).None?
    ensures Counted(rows[..i + 1], keys, counts)
  {
    hide IsoCalendar;
    assert rows[..i + 1][..i] == rows[..i];
  }

  method CountWeeks(rows: seq<Row>) returns (keys: seq<Key>, counts: map<Key, nat>)
    ensures Counted(rows, keys, counts)
    ensures keys == [] <==> forall i | 0 <= i < |rows| :: RowStart(rows[i]).None?
  {
    hide CountWeek, IsoCalendar;
    keys, counts := [], map[];
    assert forall k :: CountWeek(rows[..0], k) == 0 by { NoRows(rows); }
    for i := 0 to |rows|
      invariant Counted(rows[..i], keys, counts)
      invariant keys == [] <==> forall j | 0 <= j < i :: RowStart(rows[j]).None?
    {
      var start := RowStart(rows[i]);
      if start.Some? {
        var k := IsoCalendar(start.value);
        ghost var keys0, counts0 := keys, counts;
        if k !in counts { keys := keys + [k]; }
        counts := counts[k := (if k in counts then counts[k] else 0) + 1];
        CountStep(rows, i, keys0, counts0, k, keys, counts);
      } else {
        CountSkip(rows, i, keys, counts);
      }
    }
    assert rows[..|rows|] == rows;
  }

  lemma NoRows(rows: seq<Row>)
    ensures forall k :: CountWeek(rows[..0], k) == 0
  {
  }

  method Highest(keys: seq<Key>, counts: map<Key, nat>) returns (h: nat)
    requires keys != [] && forall k :: k in keys <==> k in counts
    ensures (exists k | k in counts :: counts[k] == h) && forall k | k in counts :: counts[k] <= h
  {
    h := counts[keys[0]];
    for i := 0 to |keys|
      invariant exists k | k in counts :: counts[k] == h
      invariant forall j | 0 <= j < i :: counts[keys[j]] <= h
    {
      if counts[keys[i]] > h { h := counts[keys[i]]; }
    }
  }

  /** The first of the tied keys by distance, then key. */
  method Nearest(keys: seq<Key>, counts: map<Key, nat>, h: nat, target: Day) returns (best: Key)
    requires forall k :: k in keys <==> k in counts
    requires forall k | k in counts :: ValidKey(k)
    requires exists k | k in counts :: counts[k] == h
    ensures best in counts && counts[best] == h
    ensures forall k | k in counts && counts[k] == h :: CloserOrEqual(best, k, target)
  {
    hide WeekMonday, ValidKey;
    var found := false;
    best := keys[0];
    for i := 0 to |keys|
      invariant best in counts
      invariant found ==> counts[best] == h
      invariant found <==> exists j | 0 <= j < i :: counts[keys[j]] == h
      invariant found ==> forall j | 0 <= j < i && counts[keys[j]] == h :: CloserOrEqual(best, keys[j], target)
    {
      if counts[keys[i]] == h && (!found || CloserOrEqual(keys[i], best, target)) {
        best, found := keys[i], true;
      }
    }
  }

  /** Selects the offers of one ISO week. It fails only when no row has a start date. */
  method SelectWeek(rows: seq<Row>, local: Day) returns (r: Result<Selection, SelectError>)
    ensures r.Err? <==> forall i | 0 <= i < |rows| ::
              rows[i].hasPrice ==> rows[i].promoStart.None? && rows[i].epochStart.None?
    ensures r.Err? ==> r.error == NoDefensibleStart
    ensures r.Ok? ==> IsChoice(rows, local, r.value.key)
    ensures r.Ok? ==> r.value.monday == WeekMonday(r.value.key) && r.value.sunday == r.value.monday + 6
    ensures r.Ok? ==> r.value.ids == IdsOf(InWeekFrom(rows, r.value.monday)) && r.value.ids != []
  {
    hide IsoCalendar, WeekMonday, CountWeek, ValidKey, SelectedIds, InWeekFrom, IdsOf;
    var keys, counts := CountWeeks(rows);
    if keys == [] { return Err(NoDefensibleStart); }
    SomeStart(rows);
    assert keys[0] in counts;
    forall k | k in counts ensures ValidKey(k) { CountsValidKeys(rows, k); }
    var h := Highest(keys, counts);
    var target := TargetDay(local);
    var targetKey := IsoCalendar(target);
    WeekKeyExact(target, targetKey);
    ModesAreTied(rows, keys, counts, h);
    var chosen: Key;
    if targetKey in counts && counts[targetKey] == h {
      chosen := targetKey;
    } else {
      chosen := Nearest(keys, counts, h, target);
    }
    var ids := Ids(rows, chosen);
    CountsValidKeys(rows, chosen);
    WeekRows(rows, chosen);
    if ids == [] { return Err(ZeroOffers); }
    return Ok(Selection(ids, chosen, WeekMonday(chosen), WeekMonday(chosen) + 6));
  }

  lemma SomeStart(rows: seq<Row>)
    ensures (forall i | 0 <= i < |rows| :: RowStart(rows[i]).None?)
            <==> forall i | 0 <= i < |rows| ::
                   rows[i].hasPrice ==> rows[i].promoStart.None? && rows[i].epochStart.None?
  {
  }

  lemma DatedIsInWeek(r: Row, k: Key)
    requires ValidKey(k)
    ensures DatedWithin(r, WeekMonday(k), WeekMonday(k) + 6) <==> StartsInWeek(r, k)
  {
    hide IsoCalendar, WeekMonday, ValidKey;
    if RowStart(r).Some? { WeekKeyExact(RowStart(r).value, k); }
  }

  lemma {:induction false} SameFilter(rows: seq<Row>, p: Row -> bool, q: Row -> bool)
    requires forall r :: p(r) == q(r)
    ensures Filter(rows, p) == Filter(rows, q)
  {
    if rows != [] { SameFilter(rows[1..], p, q); }
  }

  /** The offers counted in a week are those dated in its seven days. */
  lemma WeekRows(rows: seq<Row>, k: Key)
    requires ValidKey(k)
    ensures CountWeek(rows, k) == |InWeekFrom(rows, WeekMonday(k))|
    ensures SelectedIds(rows, k) == IdsOf(InWeekFrom(rows, WeekMonday(k)))
  {
    hide IsoCalendar, WeekMonday, ValidKey, StartsInWeek, CountWeek, SelectedIds, DatedWithin;
    CountPermuted(rows, k);
    forall r: Row ensures StartsInWeek(r, k) == DatedWithin(r, WeekMonday(k), WeekMonday(k) + 6) {
      DatedIsInWeek(r, k);
    }
    SameFilter(rows, (r: Row) => StartsInWeek(r, k), (r: Row) => DatedWithin(r, WeekMonday(k), WeekMonday(k) + 6));
    var chosen := Filter(rows, (r: Row) => StartsInWeek(r, k));
    assert Map(chosen, (r: Row) => r.id) == IdsOf(chosen);
  }

  lemma ModesAreTied(rows: seq<Row>, keys: seq<Key>, counts: map<Key, nat>, h: nat)
    requires Counted(rows, keys, counts)
    requires (exists k | k in counts :: counts[k] == h) && forall k | k in counts :: counts[k] <= h
    ensures forall k :: IsMode(rows, k) <==> k in counts && counts[k] == h
  {
    hide CountWeek;
    var top :| top in counts && counts[top] == h;
    assert CountWeek(rows, top) == h;
  }

  method Ids(rows: seq<Row>, k: Key) returns (ids: seq<string>)
    ensures ids == SelectedIds(rows, k)
  {
    hide IsoCalendar;
    ids := [];
    for i := 0 to |rows|
      invariant ids == SelectedIds(rows[..i], k)
    {
      assert rows[..i + 1][..i] == rows[..i];
      if StartsInWeek(rows[i], k) { ids := ids + [rows[i].id]; }
    }
    assert rows[..|rows|] == rows;
  }

  // ----- what the choice is worth -----

  /** Which offers are selected: a priced offer with a promotion date counts by that date, whatever its epoch date; one
    * without counts by its epoch date; an unpriced offer never counts. */
  lemma SelectedStartInWeek(rows: seq<Row>, k: Key, i: nat)
    requires ValidKey(k) && i < |rows| && forall j | 0 <= j < |rows| && j != i :: rows[j].id != rows[i].id
    ensures var r, monday := rows[i], WeekMonday(k);
            && (r.hasPrice && r.promoStart.Some?
                ==> (r.id in SelectedIds(rows, k) <==> monday <= r.promoStart.value <= monday + 6))
            && (r.hasPrice && r.promoStart.None? && r.epochStart.Some?
                ==> (r.id in SelectedIds(rows, k) <==> monday <= r.epochStart.value <= monday + 6))
            && (!r.hasPrice || (r.promoStart.None? && r.epochStart.None?) ==> r.id !in SelectedIds(rows, k))
  {
    hide IsoCalendar, WeekMonday, ValidKey, SelectedIds;
    WeekRows(rows, k);
    var kept := InWeekFrom(rows, WeekMonday(k));
    if rows[i].id in IdsOf(kept) {
      var n := IndexOf(IdsOf(kept), rows[i].id);
      assert kept[n] in rows;
      var j := IndexOf(rows, kept[n]);
      assert j == i;
    }
    if DatedWithin(rows[i], WeekMonday(k), WeekMonday(k) + 6) {
      assert rows[i] in rows && rows[i] in kept;
      var n := IndexOf(kept, rows[i]);
      assert IdsOf(kept)[n] == rows[i].id;
    }
  }

  /** At most one week satisfies the rule, so the result is determined. */
  lemma ChoiceUnique(rows: seq<Row>, local: Day, a: Key, b: Key)
    requires IsChoice(rows, local, a) && IsChoice(rows, local, b)
    ensures a == b
  {
    hide IsoCalendar, WeekMonday, ValidKey, IsMode;
  }

  lemma {:induction false} CountPermuted(rows: seq<Row>, k: Key)
    ensures CountWeek(rows, k) == |Filter(rows, (r: Row) => StartsInWeek(r, k))|
    ensures SelectedIds(rows, k) == Map(Filter(rows, (r: Row) => StartsInWeek(r, k)), (r: Row) => r.id)
  {
    hide StartsInWeek;
    var p := (r: Row) => StartsInWeek(r, k);
    if rows != [] {
      var n := |rows| - 1;
      CountPermuted(rows[..n], k);
      assert rows == rows[..n] + [rows[n]];
      FilterConcat(rows[..n], [rows[n]], p);
    }
  }

  /** Row order does not matter: the same week is chosen, with the same offers. */
  lemma OrderIrrelevant(rows: seq<Row>, rows': seq<Row>, local: Day, k: Key)
    requires multiset(rows) == multiset(rows')
    ensures IsChoice(rows, local, k) <==> IsChoice(rows', local, k)
    ensures multiset(SelectedIds(rows, k)) == multiset(SelectedIds(rows', k))
  {
    hide IsoCalendar, WeekMonday, ValidKey, StartsInWeek, CountWeek, SelectedIds;
    forall j
      ensures CountWeek(rows, j) == CountWeek(rows', j)
              && multiset(SelectedIds(rows, j)) == multiset(SelectedIds(rows', j))
    {
      var p := (r: Row) => StartsInWeek(r, j);
      CountPermuted(rows, j);
      CountPermuted(rows', j);
      FilterPermuted(rows, rows', p);
      SameMembers(Filter(rows, p), Filter(rows', p));
      MapPermuted(Filter(rows, p), Filter(rows', p), (r: Row) => r.id);
    }
    assert forall j :: IsMode(rows, j) <==> IsMode(rows', j);
  }

  // ----- the week view -----

  datatype Label = CurrentWeek | FollowingWeek(rolloverAlias: bool)

  /** The view to ask for, or None when the producer refuses the selected week. */
  function WeekViewLabel(local: Day, validFrom: int): Option<Label> {
    var monday := MondayOf(local);
    if validFrom == monday then Some(CurrentWeek)
    else if validFrom == monday + 7 then
      Some(FollowingWeek(Weekday(local) == 6 && validFrom == local + 1))
    else None
  }

  function WeekOf(d: Day): (k: Key)
    ensures k == IsoCalendar(d) && ValidKey(k)
  {
    WeekKeyExact(d, IsoCalendar(d));
    IsoCalendar(d)
  }

  /** Whenever the target week is a mode, the selected week has a view; and a view carries the rollover alias
      iff the local day is a Sunday and the selected week starts the next day. */
  lemma TargetWeekHasView(rows: seq<Row>, local: Day, k: Key)
    requires ValidKey(k) && IsChoice(rows, local, k)
    ensures IsMode(rows, WeekOf(TargetDay(local))) ==> WeekViewLabel(local, WeekMonday(k)).Some?
    ensures WeekViewLabel(local, WeekMonday(k)) == Some(FollowingWeek(true))
            <==> Weekday(local) == 6 && WeekMonday(k) == local + 1
    ensures WeekViewLabel(local, WeekMonday(k)).Some? <==> k == WeekOf(local) || k == NextWeek(WeekOf(local))
  {
    hide IsoCalendar, WeekMonday, ValidKey, IsMode, NextWeek;
    WeekMondayIsMonday(TargetDay(local));
    WeekMondayIsMonday(local);
    SevenDaysIsNextWeek(IsoCalendar(local), k);
    if WeekMonday(k) == MondayOf(local) { SameMondaySameKey(k, IsoCalendar(local)); }
    if Weekday(local) == 6 { SundayIsFollowedByMonday(local); }
  }

  lemma SundayIsFollowedByMonday(d: Day)
    requires Weekday(d) == 6
    ensures MondayOf(d + 1) == d + 1 == MondayOf(d) + 7
  {
  }
}
