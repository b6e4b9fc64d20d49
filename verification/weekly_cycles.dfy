/** Accepted weekly shadow cycles, and what a chain of weekly acceptances guarantees. */
module WeeklyCycles {
  import opened Foundations
  import opened Formats
  import opened IsoWeeks
  import opened WeekSelection

  /** Evidence of one weekly cycle; texts are read stripped. `observedUtc` and `officialSource` say whether the time
    * stamp is a UTC one and whether the source address is an official one. */
  datatype Cycle = Cycle(cycleId: string, evidenceClass: string, origin: string, isoWeek: string, validFrom: Day,
                         validTo: Day, sourceState: string, campaignId: string, runId: nat, observedUtc: bool,
                         officialSource: bool, sourceSha: string, manifestSha: string, artifactSha: string,
                         parserSha: string, paritySha: string, projectionSha: string, ledgerSha: string,
                         semanticSha: string, cardCount: nat, reviewPending: nat, unexplained: nat, replayNew: nat,
                         replayDuplicate: nat, drift: nat, stateBefore: string, stateAfter: string,
                         databaseWrites: nat, reviewWrites: nat, publicationWrites: nat, sourceMutations: nat,
                         immutableEvidence: bool, published: bool, eligible: bool)

  /** Reads YYYY-Www; None for other texts and for weeks that do not exist. */
  function ParseWeek(s: string): (k: Option<Key>)
    ensures k.Some? ==> ValidKey(k.value)
  {
    if |s| != 8 || s[4..6] != "-W" || !IsDigit(s[0]) || !IsDigit(s[1]) || !IsDigit(s[2]) || !IsDigit(s[3])
      || !IsDigit(s[6]) || !IsDigit(s[7])
    then None
    else
      var k := Key(1000 * DigitValue(s[0]) + 100 * DigitValue(s[1]) + 10 * DigitValue(s[2]) + DigitValue(s[3]),
                   10 * DigitValue(s[6]) + DigitValue(s[7]));
      if ValidKey(k) then Some(k) else None
  }

  predicate CampaignOk(id: string) {
    ValidId(id) && NotLegacy(id)
  }

  predicate DigestsOk(c: Cycle) {
    && IsSha256(c.sourceSha) && IsSha256(c.manifestSha) && IsSha256(c.parserSha) && IsSha256(c.paritySha)
    && IsSha256(c.projectionSha) && IsSha256(c.ledgerSha) && IsSha256(c.semanticSha) && IsSha256(c.artifactSha)
    && IsSha256(c.stateBefore) && c.stateBefore == c.stateAfter
  }

  predicate WeekOk(c: Cycle) {
    var week := ParseWeek(c.isoWeek);
    && week.Some?
    && c.validFrom <= c.validTo <= c.validFrom + 7
    && IsoCalendar(c.validFrom) == IsoCalendar(MondayDay(week.value))
  }

  /** The checks on a single cycle, apart from its position. */
  predicate CycleOk(c: Cycle) {
    && c.evidenceClass == "real_weekly_shadow" && c.origin == "rpi5_shadow"
    && WeekOk(c)
    && c.sourceState == "available" && CampaignOk(c.campaignId)
    && c.cardCount >= 1 && c.runId >= 1 && c.observedUtc && c.officialSource
    && c.reviewPending == 0 && c.unexplained == 0 && c.replayNew == 0 && c.replayDuplicate == 0 && c.drift == 0
    && DigestsOk(c)
    && c.databaseWrites + c.reviewWrites + c.publicationWrites + c.sourceMutations == 0
    && c.immutableEvidence && !c.published && !c.eligible
  }

  function MondayDay(k: Key): (d: Day)
    requires ValidKey(k)
    ensures d == WeekMonday(k)
  {
    FirstMondayPositive(k.year);
    WeekMonday(k)
  }

  lemma FirstMondayPositive(y: int)
    requires y >= 1
    ensures WeekOneMonday(y) >= 1
  {
    assert WeekOneMonday(1) == 1;
    WeekOneGrows(1, y);
  }

  /** The two-cycle gate: positions, each cycle, then the two together. */
  predicate TwoCyclesOk(first: Cycle, second: Cycle) {
    && first.cycleId == "cycle-01" && CycleOk(first)
    && second.cycleId == "cycle-02" && CycleOk(second)
    && WeekMonday(ParseWeek(second.isoWeek).value) - WeekMonday(ParseWeek(first.isoWeek).value) == 7
    && first.campaignId != second.campaignId && first.runId != second.runId && first.sourceSha != second.sourceSha
    && first.manifestSha != second.manifestSha && first.artifactSha != second.artifactSha
    && first.parserSha == second.parserSha && first.paritySha == second.paritySha
  }

  /** The bridge renames a cycle for the gate; other identities are refused. */
  function ForGate(c: Cycle, position: string): Option<Cycle> {
    if c.cycleId == "cycle-current" || c.cycleId == position then Some(c.(cycleId := position)) else None
  }

  /** One weekly run: the current cycle stands alone, and follows the prior cycle if one is given. */
  predicate WeekAccepted(prior: Option<Cycle>, current: Cycle) {
    var alone := ForGate(current, "cycle-01");
    && current.cycleId == "cycle-current"
    && alone.Some? && CycleOk(alone.value)
    && (prior.Some? ==>
          var first, second := ForGate(prior.value, "cycle-01"), ForGate(current, "cycle-02");
          first.Some? && second.Some? && TwoCyclesOk(first.value, second.value))
  }

  /** Weekly runs in which each accepted cycle is handed on as the next run's prior cycle. */
  ghost predicate AcceptedChain(cs: seq<Cycle>) {
    && (cs != [] ==> WeekAccepted(None, cs[0]))
    && forall i | 0 < i < |cs| :: WeekAccepted(Some(cs[i - 1]), cs[i])
  }

  /** The declared week; every accepted cycle declares one, other texts count as the first week there is. */
  ghost function WeekOfCycle(c: Cycle): (k: Key)
    ensures ValidKey(k)
    ensures ParseWeek(c.isoWeek).Some? ==> k == ParseWeek(c.isoWeek).value
  {
    match ParseWeek(c.isoWeek) case Some(k) => k case None => Key(1, 1)
  }

  lemma AcceptedCycleOk(prior: Option<Cycle>, current: Cycle)
    requires WeekAccepted(prior, current)
    ensures CycleOk(current)
  {
    hide ParseWeek, IsoCalendar, WeekMonday;
  }

  lemma StepFacts(a: Cycle, b: Cycle)
    requires WeekAccepted(Some(a), b)
    ensures CycleOk(a) && CycleOk(b)
    ensures ParseWeek(a.isoWeek).Some? && ParseWeek(b.isoWeek).Some?
    ensures WeekMonday(WeekOfCycle(b)) == WeekMonday(WeekOfCycle(a)) + 7 && WeekOfCycle(b) == NextWeek(WeekOfCycle(a))
    ensures a.parserSha == b.parserSha && a.paritySha == b.paritySha && a.campaignId != b.campaignId
            && a.sourceSha != b.sourceSha
  {
    hide ParseWeek, IsoCalendar, WeekMonday, ValidKey, NextWeek;
    SevenDaysIsNextWeek(WeekOfCycle(a), WeekOfCycle(b));
  }

  /** The i-th cycle of a chain lies exactly i weeks after the first, with unchanged parser and parity contract. */
  lemma {:induction false} ChainAdvancesWeekly(cs: seq<Cycle>, i: nat)
    requires AcceptedChain(cs) && i < |cs|
    ensures CycleOk(cs[0]) && CycleOk(cs[i])
    ensures ParseWeek(cs[0].isoWeek).Some? && ParseWeek(cs[i].isoWeek).Some?
    ensures WeekMonday(WeekOfCycle(cs[i])) == WeekMonday(WeekOfCycle(cs[0])) + 7 * i
    ensures i > 0 ==> CycleOk(cs[i - 1]) && WeekOfCycle(cs[i]) == NextWeek(WeekOfCycle(cs[i - 1]))
    ensures cs[i].parserSha == cs[0].parserSha && cs[i].paritySha == cs[0].paritySha
  {
    hide ParseWeek, IsoCalendar, WeekMonday, ValidKey, NextWeek, WeekAccepted;
    if i == 0 {
      AcceptedCycleOk(None, cs[0]);
    } else {
      ChainAdvancesWeekly(cs, i - 1);
      StepFacts(cs[i - 1], cs[i]);
    }
  }

  /** No week is repeated in a chain, none between its first and last is skipped, and every campaign starts in its own
    * week. */
  lemma ChainCoversWeeksOnce(cs: seq<Cycle>, k: Key)
    requires AcceptedChain(cs) && cs != [] && ValidKey(k)
    ensures forall i | 0 <= i < |cs| ::
              ParseWeek(cs[i].isoWeek).Some?
              && WeekMonday(WeekOfCycle(cs[i])) <= cs[i].validFrom <= WeekMonday(WeekOfCycle(cs[i])) + 6
    ensures forall i, j | 0 <= i < j < |cs| :: WeekOfCycle(cs[i]) != WeekOfCycle(cs[j])
    ensures WeekMonday(WeekOfCycle(cs[0])) <= WeekMonday(k) <= WeekMonday(WeekOfCycle(cs[|cs| - 1]))
            ==> exists i | 0 <= i < |cs| :: WeekOfCycle(cs[i]) == k
  {
    hide ParseWeek, IsoCalendar, WeekMonday, ValidKey, NextWeek, WeekAccepted;
    forall i | 0 <= i < |cs| ensures ParseWeek(cs[i].isoWeek).Some?
        && WeekMonday(WeekOfCycle(cs[i])) == WeekMonday(WeekOfCycle(cs[0])) + 7 * i
        && WeekMonday(WeekOfCycle(cs[i])) <= cs[i].validFrom <= WeekMonday(WeekOfCycle(cs[i])) + 6 {
      ChainAdvancesWeekly(cs, i);
      OwnWeek(cs[i]);
    }
    var gap := WeekMonday(k) - WeekMonday(WeekOfCycle(cs[0]));
    if 0 <= gap <= 7 * (|cs| - 1) {
      MondaysAligned(WeekOfCycle(cs[0]), k);
      var i := gap / 7;
      SameMondaySameKey(WeekOfCycle(cs[i]), k);
    }
  }

  lemma OwnWeek(c: Cycle)
    requires CycleOk(c)
    ensures ParseWeek(c.isoWeek).Some? && WeekMonday(WeekOfCycle(c)) <= c.validFrom <= WeekMonday(WeekOfCycle(c)) + 6
  {
    hide ParseWeek, IsoCalendar, WeekMonday, ValidKey;
    var k := ParseWeek(c.isoWeek).value;
    WeekKeyExact(MondayDay(k), k);
    WeekKeyExact(c.validFrom, k);
  }

  lemma MondaysAligned(a: Key, b: Key)
    requires ValidKey(a) && ValidKey(b)
    ensures (WeekMonday(b) - WeekMonday(a)) % 7 == 0
  {
    hide WeekOneMonday, IsLongYear, Weekday;
    WeekOneBounds(a.year);
    WeekOneBounds(b.year);
    var m, n := WholeWeeks(WeekOneMonday(a.year)), WholeWeeks(WeekOneMonday(b.year));
    SevenTimes(WeekMonday(b) - WeekMonday(a), n + b.week - m - a.week);
  }

  ghost function WholeWeeks(monday: int): (q: int)
    requires Weekday(monday) == 0
    ensures monday + 6 == 7 * q
  {
    (monday + 6) / 7
  }

  lemma SevenTimes(x: int, q: int)
    requires x == 7 * q
    ensures x % 7 == 0
  {
  }
}
