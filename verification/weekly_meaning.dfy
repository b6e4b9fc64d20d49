/** What a weekly run accepts, said of the evidence's own fields, texts and dates. */
module WeeklyMeaning {
  import opened Foundations
  import opened Formats
  import opened IsoWeeks
  import opened WeeklyCycles

  /** The week's text: four digits of the year, "-W", two of the week. */
  ghost function WeekText(k: Key): string
    requires 0 <= k.year < 10000 && 0 <= k.week < 100
  {
    [Digit(k.year / 1000), Digit(k.year / 100 % 10), Digit(k.year / 10 % 10), Digit(k.year % 10)] + "-W"
    + [Digit(k.week / 10), Digit(k.week % 10)]
  }

  ghost predicate NamesWeek(s: string, k: Key) {
    ValidKey(k) && k.year < 10000 && k.week < 100 && s == WeekText(k)
  }

  lemma DigitBack(c: char)
    requires IsDigit(c)
    ensures Digit(DigitValue(c)) == c
  {
  }

  lemma DigitThere(n: nat)
    requires n < 10
    ensures IsDigit(Digit(n)) && DigitValue(Digit(n)) == n
  {
  }

  lemma FourDigits(a: nat, b: nat, c: nat, d: nat)
    requires a < 10 && b < 10 && c < 10 && d < 10
    ensures var n := 1000 * a + 100 * b + 10 * c + d;
            n / 1000 == a && n / 100 % 10 == b && n / 10 % 10 == c && n % 10 == d
  {
    var n := 1000 * a + 100 * b + 10 * c + d;
    assert n / 10 == 100 * a + 10 * b + c;
    assert n / 100 == 10 * a + b;
  }

  lemma FromFour(n: nat)
    requires n < 10000
    ensures n / 1000 < 10 && n == 1000 * (n / 1000) + 100 * (n / 100 % 10) + 10 * (n / 10 % 10) + n % 10
  {
    assert n / 100 == 10 * (n / 1000) + n / 100 % 10 by { assert n / 100 / 10 == n / 1000; }
    assert n / 10 == 10 * (n / 100) + n / 10 % 10 by { assert n / 10 / 10 == n / 100; }
  }

  lemma ParsedText(s: string, k: Key)
    requires ParseWeek(s) == Some(k)
    ensures NamesWeek(s, k)
  {
    hide ValidKey, Digit, DigitValue;
    var a, b, c, d := DigitValue(s[0]), DigitValue(s[1]), DigitValue(s[2]), DigitValue(s[3]);
    FourDigits(a, b, c, d);
    FourDigits(0, 0, DigitValue(s[6]), DigitValue(s[7]));
    WeekBounds(k);
    DigitBack(s[0]);
    DigitBack(s[1]);
    DigitBack(s[2]);
    DigitBack(s[3]);
    DigitBack(s[6]);
    DigitBack(s[7]);
    assert s == s[..4] + s[4..6] + s[6..];
    assert s[..4] == [s[0], s[1], s[2], s[3]] && s[6..] == [s[6], s[7]];
    TwoDigits(k.week, DigitValue(s[6]), DigitValue(s[7]));
  }

  lemma TwoDigits(n: nat, a: nat, b: nat)
    requires a < 10 && b < 10 && n == 10 * a + b
    ensures n / 10 == a && n % 10 == b
  {
  }

  lemma TextParsed(s: string, k: Key)
    requires NamesWeek(s, k)
    ensures ParseWeek(s) == Some(k)
  {
    hide ValidKey, Digit, DigitValue, IsDigit;
    WeekBounds(k);
    FromFour(k.year);
    DigitThere(k.year / 1000);
    DigitThere(k.year / 100 % 10);
    DigitThere(k.year / 10 % 10);
    DigitThere(k.year % 10);
    DigitThere(k.week / 10);
    DigitThere(k.week % 10);
    assert k.week == 10 * (k.week / 10) + k.week % 10;
    assert |s| == 8 && s[4..6] == "-W";
  }

  /** Reading and writing a week are inverse: exactly the texts of existing weeks are read. */
  lemma WeekTextRead(s: string, k: Key)
    ensures ParseWeek(s) == Some(k) <==> NamesWeek(s, k)
  {
    hide ValidKey, Digit, DigitValue, IsDigit;
    if ParseWeek(s) == Some(k) { ParsedText(s, k); }
    if NamesWeek(s, k) { TextParsed(s, k); }
  }

  lemma WeekBounds(k: Key)
    requires ValidKey(k)
    ensures k.year >= 1 && 1 <= k.week <= 53
  {
  }

  // ----- one cycle -----

  ghost predicate IsHex64(s: string) {
    |s| == 64 && forall c | c in s :: '0' <= c <= '9' || 'a' <= c <= 'f'
  }

  /** A campaign's identifier: 4 to 160 characters, and none of the names of the older baselines. */
  ghost predicate IsCampaign(s: string) {
    && 4 <= |s| <= 160 && ('0' <= s[0] <= '9' || 'a' <= s[0] <= 'z')
    && (forall c | c in s :: '0' <= c <= '9' || 'a' <= c <= 'z' || c == '.' || c == '_' || c == ':' || c == '-')
    && forall i | 0 <= i <= |s| :: !("a30" <= s[i..]) && !("a31" <= s[i..]) && !("49+41" <= s[i..])
  }

  /** The week is one that exists, the validity starts in it and lasts at most eight days. */
  ghost predicate IsInItsWeek(c: Cycle) {
    && c.validFrom <= c.validTo && c.validTo - c.validFrom <= 7
    && exists k :: NamesWeek(c.isoWeek, k) && WeekMonday(k) <= c.validFrom <= WeekMonday(k) + 6
  }

  /** A real weekly shadow cycle: complete, without drift, and it wrote, published and claimed nothing. */
  ghost predicate IsCleanCycle(c: Cycle) {
    && c.evidenceClass == "real_weekly_shadow" && c.origin == "rpi5_shadow" && c.sourceState == "available"
    && IsInItsWeek(c) && IsCampaign(c.campaignId) && c.observedUtc && c.officialSource
    && c.runId > 0 && c.cardCount > 0
    && c.reviewPending == 0 && c.unexplained == 0 && c.replayNew == 0 && c.replayDuplicate == 0 && c.drift == 0
    && IsHex64(c.sourceSha) && IsHex64(c.manifestSha) && IsHex64(c.artifactSha) && IsHex64(c.parserSha)
    && IsHex64(c.paritySha) && IsHex64(c.projectionSha) && IsHex64(c.ledgerSha) && IsHex64(c.semanticSha)
    && IsHex64(c.stateBefore) && c.stateAfter == c.stateBefore
    && c.databaseWrites == 0 && c.reviewWrites == 0 && c.publicationWrites == 0 && c.sourceMutations == 0
    && c.immutableEvidence && !c.published && !c.eligible
  }

  /** One week later, from another run with other files and another campaign, by the same tools. */
  ghost predicate Follows(a: Cycle, b: Cycle) {
    && (exists j, k :: NamesWeek(a.isoWeek, j) && NamesWeek(b.isoWeek, k) && WeekMonday(k) == WeekMonday(j) + 7)
    && a.runId != b.runId && a.campaignId != b.campaignId
    && a.sourceSha != b.sourceSha && a.manifestSha != b.manifestSha && a.artifactSha != b.artifactSha
    && a.parserSha == b.parserSha && a.paritySha == b.paritySha
  }

  lemma HexIff(s: string)
    ensures IsHex64(s) <==> IsSha256(s)
  {
    if IsHex64(s) { assert forall i | 0 <= i < |s| :: s[i] in s; }
  }

  lemma {:induction false} ContainsIff(s: string, t: string)
    ensures Contains(s, t) <==> exists i | 0 <= i <= |s| :: t <= s[i..]
  {
    assert s[0..] == s;
    if s != [] {
      ContainsIff(s[1..], t);
      if i :| 0 <= i <= |s[1..]| && t <= s[1..][i..] { assert s[1..][i..] == s[i + 1..]; }
      if i :| 0 < i <= |s| && t <= s[i..] { assert s[1..][i - 1..] == s[i..]; }
    }
  }

  lemma CampaignIff(s: string)
    ensures IsCampaign(s) <==> CampaignOk(s)
  {
    hide Contains;
    ContainsIff(s, "a30");
    ContainsIff(s, "a31");
    ContainsIff(s, "49+41");
    if IsCampaign(s) {
      forall i | 0 <= i < |s| ensures IsLowerOrDigit(s[i]) || s[i] in "._:-" { assert s[i] in s; }
    }
  }

  lemma InItsWeekIff(c: Cycle)
    ensures IsInItsWeek(c) <==> WeekOk(c)
  {
    hide ValidKey, WeekMonday, IsoCalendar, ParseWeek, NamesWeek;
    forall k ensures ParseWeek(c.isoWeek) == Some(k) <==> NamesWeek(c.isoWeek, k) { WeekTextRead(c.isoWeek, k); }
    if ParseWeek(c.isoWeek).Some? {
      var k := ParseWeek(c.isoWeek).value;
      WeekKeyExact(MondayDay(k), k);
      WeekKeyExact(c.validFrom, k);
    }
  }

  lemma CleanIff(c: Cycle)
    ensures IsCleanCycle(c) <==> CycleOk(c)
  {
    hide IsInItsWeek, WeekOk, IsCampaign, CampaignOk, IsHex64, IsSha256;
    InItsWeekIff(c);
    CampaignIff(c.campaignId);
    HexIff(c.sourceSha);
    HexIff(c.manifestSha);
    HexIff(c.artifactSha);
    HexIff(c.parserSha);
    HexIff(c.paritySha);
    HexIff(c.projectionSha);
    HexIff(c.ledgerSha);
    HexIff(c.semanticSha);
    HexIff(c.stateBefore);
  }

  // ----- one run -----

  lemma PositionFree(c: Cycle, id: string)
    ensures CycleOk(c.(cycleId := id)) <==> CycleOk(c)
  {
    hide WeekOk, CampaignOk, DigestsOk;
    WeekOfText(c, id);
    DigestsFree(c, id);
  }

  lemma WeekOfText(c: Cycle, id: string)
    ensures WeekOk(c.(cycleId := id)) <==> WeekOk(c)
  {
  }

  lemma DigestsFree(c: Cycle, id: string)
    ensures DigestsOk(c.(cycleId := id)) <==> DigestsOk(c)
  {
    hide IsSha256;
  }

  lemma FollowsIff(a: Cycle, b: Cycle)
    requires CycleOk(a) && CycleOk(b)
    ensures Follows(a, b) <==>
            && WeekMonday(ParseWeek(b.isoWeek).value) - WeekMonday(ParseWeek(a.isoWeek).value) == 7
            && a.campaignId != b.campaignId && a.runId != b.runId && a.sourceSha != b.sourceSha
            && a.manifestSha != b.manifestSha && a.artifactSha != b.artifactSha
            && a.parserSha == b.parserSha && a.paritySha == b.paritySha
  {
    hide ValidKey, WeekMonday, ParseWeek, NamesWeek, CampaignOk, DigestsOk, IsoCalendar;
    forall k ensures ParseWeek(a.isoWeek) == Some(k) <==> NamesWeek(a.isoWeek, k) { WeekTextRead(a.isoWeek, k); }
    forall k ensures ParseWeek(b.isoWeek) == Some(k) <==> NamesWeek(b.isoWeek, k) { WeekTextRead(b.isoWeek, k); }
    var j, k := ParseWeek(a.isoWeek).value, ParseWeek(b.isoWeek).value;
    assert NamesWeek(a.isoWeek, j) && NamesWeek(b.isoWeek, k);
  }

  lemma TwoCyclesIff(a: Cycle, b: Cycle)
    ensures TwoCyclesOk(a.(cycleId := "cycle-01"), b.(cycleId := "cycle-02"))
            <==> IsCleanCycle(a) && IsCleanCycle(b) && Follows(a, b)
  {
    hide CycleOk, IsCleanCycle, Follows, ParseWeek, WeekMonday, ValidKey;
    CleanIff(a);
    CleanIff(b);
    PositionFree(a, "cycle-01");
    PositionFree(b, "cycle-02");
    if CycleOk(a) && CycleOk(b) {
      FollowsIff(a, b);
      CleanHasWeek(a);
      CleanHasWeek(b);
    }
  }

  lemma CleanHasWeek(c: Cycle)
    requires CycleOk(c)
    ensures ParseWeek(c.isoWeek).Some?
  {
    hide ParseWeek, IsoCalendar, WeekMonday, CampaignOk, DigestsOk;
  }

  /** A weekly run accepts a clean current cycle, and with a prior one only if that is clean and it follows it. */
  lemma AcceptedIff(prior: Option<Cycle>, current: Cycle)
    ensures WeekAccepted(prior, current) <==>
            && current.cycleId == "cycle-current" && IsCleanCycle(current)
            && (prior.Some? ==>
                  && (prior.value.cycleId == "cycle-current" || prior.value.cycleId == "cycle-01")
                  && IsCleanCycle(prior.value) && Follows(prior.value, current))
  {
    hide CycleOk, IsCleanCycle, Follows, TwoCyclesOk;
    CleanIff(current);
    PositionFree(current, "cycle-01");
    if prior.Some? { TwoCyclesIff(prior.value, current); }
  }
}
