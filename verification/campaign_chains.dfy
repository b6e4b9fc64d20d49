/** Which campaigns a chain of weekly acceptances may carry: neighbouring weeks differ, and nothing else is asked. */
module CampaignChains {
  import opened Foundations
  import opened Formats
  import opened IsoWeeks
  import opened WeekSelection
  import opened WeeklyCycles

  /** The cycle with another campaign, and with the artifact digest that goes with it. */
  function Renamed(c: Cycle, campaign: string, artifact: string): Cycle {
    c.(campaignId := campaign, artifactSha := artifact)
  }

  /** Campaign and artifact are well formed. */
  predicate NameOk(campaign: string, artifact: string) {
    CampaignOk(campaign) && IsSha256(artifact)
  }

  /** Campaign and artifact differ from those of a neighbouring week. */
  predicate DiffersFrom(campaign: string, artifact: string, neighbour: Cycle) {
    campaign != neighbour.campaignId && artifact != neighbour.artifactSha
  }

  lemma RenamedCycle(c: Cycle, campaign: string, artifact: string)
    requires CycleOk(c)
    ensures CycleOk(Renamed(c, campaign, artifact)) <==> NameOk(campaign, artifact)
  {
    hide ParseWeek, IsoCalendar, CampaignOk, IsSha256;
  }

  /** An accepted week stays accepted under another campaign exactly when the campaign is well formed and not that of
    * the week before; likewise for its artifact. */
  lemma CampaignGuard(prior: Cycle, current: Cycle, campaign: string, artifact: string)
    requires WeekAccepted(Some(prior), current)
    ensures WeekAccepted(Some(prior), Renamed(current, campaign, artifact))
            <==> NameOk(campaign, artifact) && DiffersFrom(campaign, artifact, prior)
  {
    hide CycleOk, ParseWeek, WeekMonday, CampaignOk, IsSha256;
    var renamed := Renamed(current, campaign, artifact);
    RenamedCycle(current.(cycleId := "cycle-01"), campaign, artifact);
    RenamedCycle(current.(cycleId := "cycle-02"), campaign, artifact);
    assert renamed.(cycleId := "cycle-01") == Renamed(current.(cycleId := "cycle-01"), campaign, artifact);
    assert renamed.(cycleId := "cycle-02") == Renamed(current.(cycleId := "cycle-02"), campaign, artifact);
  }

  /** The same seen from the week after. */
  lemma PriorCampaignGuard(prior: Cycle, current: Cycle, campaign: string, artifact: string)
    requires WeekAccepted(Some(prior), current)
    ensures WeekAccepted(Some(Renamed(prior, campaign, artifact)), current)
            <==> NameOk(campaign, artifact) && DiffersFrom(campaign, artifact, current)
  {
    hide CycleOk, ParseWeek, WeekMonday, CampaignOk, IsSha256;
    var renamed := Renamed(prior, campaign, artifact);
    RenamedCycle(prior.(cycleId := "cycle-01"), campaign, artifact);
    assert renamed.(cycleId := "cycle-01") == Renamed(prior.(cycleId := "cycle-01"), campaign, artifact);
  }

  lemma FirstCampaignGuard(current: Cycle, campaign: string, artifact: string)
    requires WeekAccepted(None, current)
    ensures WeekAccepted(None, Renamed(current, campaign, artifact)) <==> NameOk(campaign, artifact)
  {
    hide CycleOk, ParseWeek, CampaignOk, IsSha256;
    var renamed := Renamed(current, campaign, artifact);
    RenamedCycle(current.(cycleId := "cycle-01"), campaign, artifact);
    assert renamed.(cycleId := "cycle-01") == Renamed(current.(cycleId := "cycle-01"), campaign, artifact);
  }

  /** A name fits at place j: it is well formed and differs from the names of the weeks next to it. */
  ghost predicate Fits(cs: seq<Cycle>, j: nat, campaign: string, artifact: string)
    requires j < |cs|
  {
    && NameOk(campaign, artifact)
    && (j > 0 ==> DiffersFrom(campaign, artifact, cs[j - 1]))
    && (j + 1 < |cs| ==> DiffersFrom(campaign, artifact, cs[j + 1]))
  }

  ghost predicate StepOk(cs: seq<Cycle>, i: nat)
    requires i < |cs|
  {
    WeekAccepted(if i == 0 then None else Some(cs[i - 1]), cs[i])
  }

  lemma ChainIsSteps(cs: seq<Cycle>)
    ensures AcceptedChain(cs) <==> forall i: nat | i < |cs| :: StepOk(cs, i)
  {
    hide WeekAccepted;
    if AcceptedChain(cs) { forall i: nat | i < |cs| ensures StepOk(cs, i) {} }
    if forall i: nat | i < |cs| :: StepOk(cs, i) {
      forall i | 0 < i < |cs| ensures WeekAccepted(Some(cs[i - 1]), cs[i]) { assert StepOk(cs, i); }
      if cs != [] { assert StepOk(cs, 0); }
    }
  }

  lemma StepRenamed(cs: seq<Cycle>, j: nat, campaign: string, artifact: string)
    requires j < |cs| && StepOk(cs, j) && (j > 0 ==> WeekAccepted(None, cs[0]))
    ensures StepOk(cs[j := Renamed(cs[j], campaign, artifact)], j)
            <==> NameOk(campaign, artifact) && (j > 0 ==> DiffersFrom(campaign, artifact, cs[j - 1]))
  {
    hide WeekAccepted, NameOk, DiffersFrom, Renamed;
    if j == 0 {
      FirstCampaignGuard(cs[0], campaign, artifact);
    } else {
      CampaignGuard(cs[j - 1], cs[j], campaign, artifact);
    }
  }

  lemma NextStepRenamed(cs: seq<Cycle>, j: nat, campaign: string, artifact: string)
    requires j + 1 < |cs| && StepOk(cs, j + 1)
    ensures StepOk(cs[j := Renamed(cs[j], campaign, artifact)], j + 1)
            <==> NameOk(campaign, artifact) && DiffersFrom(campaign, artifact, cs[j + 1])
  {
    hide WeekAccepted, NameOk, DiffersFrom, Renamed;
    PriorCampaignGuard(cs[j], cs[j + 1], campaign, artifact);
  }

  /** Renaming one week of an accepted chain leaves an accepted chain exactly when the name fits between its neighbours:
    * the campaigns of all other weeks play no part. */
  lemma CampaignFits(cs: seq<Cycle>, j: nat, campaign: string, artifact: string)
    requires AcceptedChain(cs) && j < |cs|
    ensures AcceptedChain(cs[j := Renamed(cs[j], campaign, artifact)]) <==> Fits(cs, j, campaign, artifact)
  {
    hide WeekAccepted, NameOk, DiffersFrom, Renamed, AcceptedChain, StepOk;
    var changed := cs[j := Renamed(cs[j], campaign, artifact)];
    ChainIsSteps(cs);
    ChainIsSteps(changed);
    FirstStep(cs);
    StepRenamed(cs, j, campaign, artifact);
    if j + 1 < |cs| { NextStepRenamed(cs, j, campaign, artifact); }
    forall i: nat | i < |cs| && i != j && i != j + 1 ensures StepOk(changed, i) { OtherStep(cs, changed, i); }
  }

  lemma FirstStep(cs: seq<Cycle>)
    requires forall i: nat | i < |cs| :: StepOk(cs, i)
    ensures cs != [] ==> WeekAccepted(None, cs[0])
  {
    hide WeekAccepted;
    if cs != [] { assert StepOk(cs, 0); }
  }

  lemma OtherStep(cs: seq<Cycle>, changed: seq<Cycle>, i: nat)
    requires |cs| == |changed| && i < |cs| && StepOk(cs, i) && changed[i] == cs[i]
             && (i > 0 ==> changed[i - 1] == cs[i - 1])
    ensures StepOk(changed, i)
  {
    hide WeekAccepted;
  }

  lemma CampaignsWellFormed(cs: seq<Cycle>, i: nat)
    requires AcceptedChain(cs) && i < |cs|
    ensures NameOk(cs[i].campaignId, cs[i].artifactSha)
  {
    hide WeekAccepted, CampaignOk, IsSha256, AcceptedChain, ParseWeek, IsoCalendar, WeekMonday, NextWeek, ValidKey;
    ChainAdvancesWeekly(cs, i);
  }

  /** The last week of a chain may take the campaign of any earlier week but the one just before, and of that one's
    * namesakes. */
  lemma EarlierCampaignMayReturn(cs: seq<Cycle>, i: nat)
    requires AcceptedChain(cs) && i + 2 < |cs|
    ensures var last := |cs| - 1;
            AcceptedChain(cs[last := Renamed(cs[last], cs[i].campaignId, cs[last].artifactSha)])
            <==> cs[i].campaignId != cs[last - 1].campaignId
  {
    hide WeekAccepted, CampaignOk, IsSha256, AcceptedChain, Renamed;
    var last := |cs| - 1;
    CampaignsWellFormed(cs, i);
    CampaignsWellFormed(cs, last);
    NeighboursDiffer(cs, last - 1);
    CampaignFits(cs, last, cs[i].campaignId, cs[last].artifactSha);
  }

  /** Neighbouring weeks of a chain never share campaign or artifact. */
  lemma NeighboursDiffer(cs: seq<Cycle>, i: nat)
    requires AcceptedChain(cs) && i + 1 < |cs|
    ensures DiffersFrom(cs[i].campaignId, cs[i].artifactSha, cs[i + 1])
  {
    hide CycleOk, ParseWeek, WeekMonday;
    assert WeekAccepted(Some(cs[i]), cs[i + 1]);
  }

  // ----- chains without a repeated campaign -----

  ghost predicate RepeatFree(cs: seq<Cycle>) {
    forall i, j | 0 <= i < j < |cs| :: cs[i].campaignId != cs[j].campaignId
  }

  /** A chain of at least three weeks is itself a chain with a repeated campaign, or becomes one by renaming its third
    * week after the first. */
  lemma RepeatAtThree(cs: seq<Cycle>)
    requires AcceptedChain(cs) && |cs| >= 3 && RepeatFree(cs)
    ensures AcceptedChain(cs[2 := Renamed(cs[2], cs[0].campaignId, cs[2].artifactSha)])
    ensures !RepeatFree(cs[2 := Renamed(cs[2], cs[0].campaignId, cs[2].artifactSha)])
  {
    hide WeekAccepted, AcceptedChain, CampaignOk, IsSha256;
    var changed := cs[2 := Renamed(cs[2], cs[0].campaignId, cs[2].artifactSha)];
    CampaignsWellFormed(cs, 0);
    CampaignsWellFormed(cs, 2);
    NeighboursDiffer(cs, 1);
    if |cs| > 3 { NeighboursDiffer(cs, 2); }
    CampaignFits(cs, 2, cs[0].campaignId, cs[2].artifactSha);
    assert changed[0].campaignId == changed[2].campaignId;
  }

  /** Chains of a given length are all free of repeated campaigns exactly when the length is at most two, the length the
    * two-cycle gate looks at, or is a length no chain has. */
  lemma RepeatFreeIffShort(n: nat)
    ensures (forall cs: seq<Cycle> | AcceptedChain(cs) && |cs| == n :: RepeatFree(cs))
            <==> n <= 2 || forall cs: seq<Cycle> | AcceptedChain(cs) :: |cs| != n
  {
    hide WeekAccepted, AcceptedChain;
    if n <= 2 {
      forall cs: seq<Cycle> | AcceptedChain(cs) && |cs| == n ensures RepeatFree(cs) {
        if n == 2 { NeighboursDiffer(cs, 0); }
      }
    } else if cs: seq<Cycle> :| AcceptedChain(cs) && |cs| == n {
      if RepeatFree(cs) { RepeatAtThree(cs); }
    }
  }

  // ----- a chain of three weeks in which a campaign returns -----

  function Hex64(c: char): string {
    seq(64, _ => c)
  }

  lemma Hex64IsSha(c: char)
    requires IsDigit(c)
    ensures IsSha256(Hex64(c))
  {
  }

  lemma Hex64Differs(a: char, b: char)
    requires a != b
    ensures Hex64(a) != Hex64(b)
  {
    assert Hex64(a)[0] != Hex64(b)[0];
  }

  function SampleCycle(week: string, monday: Day, campaign: string, run: nat, mark: char): Cycle {
    var own, shared := Hex64(mark), Hex64('0');
    Cycle("cycle-current", "real_weekly_shadow", "rpi5_shadow", week, monday, monday + 6, "available", campaign, run,
          true, true, own, own, own, shared, shared, own, own, own, 1, 0, 0, 0, 0, 0, shared, shared, 0, 0, 0, 0,
          true, false, false)
  }

  /** Letters that do not occur in s cannot occur in a part of it. */
  lemma {:induction false} NotContained(s: string, t: string, i: nat)
    requires i < |t| && t[i] !in s
    ensures !Contains(s, t)
  {
    if t <= s { PrefixLetters(s, t, i); }
    if s != [] { NotContained(s[1..], t, i); }
  }

  lemma PrefixLetters(s: string, t: string, i: nat)
    requires t <= s && i < |t|
    ensures t[i] in s
  {
    assert s[i] == t[i];
  }

  lemma SampleCampaigns()
    ensures CampaignOk("rote") && CampaignOk("blau") && "rote" != "blau"
  {
    hide Contains, NotLegacy;
    NotLegacyWithout("rote");
    NotLegacyWithout("blau");
    assert "rote"[0] != "blau"[0];
  }

  lemma NotLegacyWithout(s: string)
    requires '3' !in s && '+' !in s
    ensures NotLegacy(s)
  {
    hide Contains;
    assert "a30"[1] == '3' && "a31"[1] == '3' && "49+41"[2] == '+';
    NotContained(s, "a30", 1);
    NotContained(s, "a31", 1);
    NotContained(s, "49+41", 2);
  }

  lemma SampleWeeks()
    ensures ParseWeek("2025-W01") == Some(Key(2025, 1)) && ParseWeek("2025-W02") == Some(Key(2025, 2))
    ensures ParseWeek("2025-W03") == Some(Key(2025, 3))
    ensures ValidKey(Key(2025, 1)) && ValidKey(Key(2025, 2)) && ValidKey(Key(2025, 3))
    ensures WeekMonday(Key(2025, 2)) == WeekMonday(Key(2025, 1)) + 7
    ensures WeekMonday(Key(2025, 3)) == WeekMonday(Key(2025, 2)) + 7
  {
    hide WeekOneMonday, IsLongYear;
    assert "2025-W01"[4..6] == "-W" && "2025-W02"[4..6] == "-W" && "2025-W03"[4..6] == "-W";
  }

  lemma SampleOk(week: string, k: Key, campaign: string, run: nat, mark: char, position: string)
    requires ParseWeek(week) == Some(k) && ValidKey(k) && run >= 1 && IsDigit(mark) && CampaignOk(campaign)
    ensures CycleOk(SampleCycle(week, MondayDay(k), campaign, run, mark).(cycleId := position))
  {
    hide ParseWeek, WeekMonday, ValidKey, IsoCalendar, CampaignOk, IsSha256, Hex64;
    Hex64IsSha(mark);
    Hex64IsSha('0');
  }

  lemma SampleStep(week: string, k: Key, campaign: string, run: nat, mark: char,
                   week': string, k': Key, campaign': string, run': nat, mark': char)
    requires ParseWeek(week) == Some(k) && ValidKey(k) && ParseWeek(week') == Some(k') && ValidKey(k')
    requires run >= 1 && run' >= 1 && run != run' && IsDigit(mark) && IsDigit(mark') && mark != mark'
    requires CampaignOk(campaign) && CampaignOk(campaign') && campaign != campaign'
    requires WeekMonday(k') == WeekMonday(k) + 7
    ensures WeekAccepted(Some(SampleCycle(week, MondayDay(k), campaign, run, mark)),
                         SampleCycle(week', MondayDay(k'), campaign', run', mark'))
  {
    hide CycleOk, ParseWeek, WeekMonday, ValidKey, CampaignOk, Hex64;
    SampleOk(week, k, campaign, run, mark, "cycle-01");
    SampleOk(week', k', campaign', run', mark', "cycle-01");
    SampleOk(week', k', campaign', run', mark', "cycle-02");
    Hex64Differs(mark, mark');
  }

  /** A campaign may come back after one week in between, with every run and every digest of the three weeks its own. */
  lemma CampaignsMayRepeat()
    ensures exists cs: seq<Cycle> :: |cs| == 3 && AcceptedChain(cs) && cs[0].campaignId == cs[2].campaignId
              && (forall i, j | 0 <= i < j < 3 :: cs[i].runId != cs[j].runId && cs[i].sourceSha != cs[j].sourceSha
                                                  && cs[i].manifestSha != cs[j].manifestSha
                                                  && cs[i].artifactSha != cs[j].artifactSha)
  {
    hide CycleOk, ParseWeek, WeekMonday, ValidKey, CampaignOk, Hex64, WeekAccepted;
    var k1, k2, k3 := Key(2025, 1), Key(2025, 2), Key(2025, 3);
    SampleWeeks();
    SampleCampaigns();
    var a := SampleCycle("2025-W01", MondayDay(k1), "rote", 1, '1');
    var b := SampleCycle("2025-W02", MondayDay(k2), "blau", 2, '2');
    var c := SampleCycle("2025-W03", MondayDay(k3), "rote", 3, '3');
    SampleFirst("2025-W01", k1, "rote", 1, '1');
    SampleStep("2025-W01", k1, "rote", 1, '1', "2025-W02", k2, "blau", 2, '2');
    SampleStep("2025-W02", k2, "blau", 2, '2', "2025-W03", k3, "rote", 3, '3');
    Hex64Differs('1', '2');
    Hex64Differs('1', '3');
    Hex64Differs('2', '3');
    var cs := [a, b, c];
    assert AcceptedChain(cs) by {
      forall i | 0 < i < |cs| ensures WeekAccepted(Some(cs[i - 1]), cs[i]) { assert i == 1 || i == 2; }
    }
    assert cs[0].campaignId == cs[2].campaignId;
  }

  lemma SampleFirst(week: string, k: Key, campaign: string, run: nat, mark: char)
    requires ParseWeek(week) == Some(k) && ValidKey(k) && run >= 1 && IsDigit(mark) && CampaignOk(campaign)
    ensures WeekAccepted(None, SampleCycle(week, MondayDay(k), campaign, run, mark))
  {
    hide CycleOk, ParseWeek, WeekMonday, ValidKey, CampaignOk, Hex64;
    SampleOk(week, k, campaign, run, mark, "cycle-01");
  }
}
