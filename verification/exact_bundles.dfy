/** What Gate C accepts, said of the lists themselves: an exact two-way report whose summary counts them. */
module ExactBundles {
  import opened Foundations
  import opened Sorting
  import opened ParityModel
  import opened ParityPages
  import opened ParityReports
  import opened CardLedger
  import opened GateC
  import opened GateCAgreement
  import opened AcceptedPlan

  /** A card ID in full, with an ordinal from 1. */
  ghost predicate IsCardText(id: string) {
    exists p: Page, n: nat, ordinal: nat | n < 1000 && 1 <= ordinal < 1000 ::
      id == PageName(p) + ":p" + Pad3(n) + ":c" + Pad3(ordinal)
  }

  /** A mapping is a match to a card, or waits for review for a stated reason. */
  ghost predicate IsSettled(m: Mapping) {
    && m.candidate.offerKey != ""
    && (m.candidate.status == AutoCandidate || m.candidate.status == ReviewRequired)
    && (|| (m.status == Matched && m.cardId.Some? && IsCardText(m.cardId.value))
        || (m.status == ReviewUnmatched && m.cardId == None && m.candidate.status == ReviewRequired
            && m.candidate.reviewReasons != []))
  }

  /** A reverse row lists each offer matched to its card once, and says why if there is none. */
  ghost predicate IsExplained(r: ReverseRow, ms: seq<Mapping>) {
    && IsCardText(r.cardId) && !r.unexplained
    && multiset(r.matchedKeys) == multiset(KeysOf(ms, r.cardId))
    && (r.scope == OutOfScope || KeysOf(ms, r.cardId) != [] || r.unmatchedReason != "")
  }

  ghost function OfStatus(ms: seq<Mapping>, s: MatchStatus): seq<Mapping> {
    Filter(ms, (m: Mapping) => m.status == s)
  }

  ghost function Counted(rs: seq<ReverseRow>): seq<ReverseRow> {
    Filter(rs, (r: ReverseRow) => r.scope != OutOfScope)
  }

  /** The expected numbers are those of the mappings' candidates; a status without candidates has no entry. */
  ghost predicate CountsAre(ms: seq<Mapping>, expected: map<Status, nat>) {
    forall s: Status ::
      var n := |Filter(ms, (m: Mapping) => m.candidate.status == s)|;
      if n == 0 then s !in expected else s in expected && expected[s] == n
  }

  ghost predicate IsExact(b: Report, expected: map<Status, nat>) {
    && b.blockers == []
    && (forall m | m in b.mappings :: IsSettled(m))
    && (forall i, j | 0 <= i < j < |b.mappings| ::
          b.mappings[i].candidate.offerKey != b.mappings[j].candidate.offerKey)
    && (forall r | r in b.reverse :: IsExplained(r, b.mappings))
    && (forall i, j | 0 <= i < j < |b.reverse| :: b.reverse[i].cardId != b.reverse[j].cardId)
    && (forall m | m in b.mappings && m.status == Matched ::
          exists r | r in b.reverse :: m.cardId == Some(r.cardId))
    && CountsAre(b.mappings, expected)
    && b.summary == Summary(expected, |b.mappings|, |OfStatus(b.mappings, Matched)|,
                            |OfStatus(b.mappings, ReviewUnmatched)|, 0, |b.reverse|, |Counted(b.reverse)|, 0, 0,
                            Sha(b.mappings), Sha(b.reverse), true)
  }

  lemma CardTextIff(id: string)
    ensures IsCardText(id) <==> GateCardId(id)
  {
    hide Pad3, ParseCardId, FormatCardId;
    if GateCardId(id) {
      var ref := ParseCardId(id).value;
      ParsedIdBounds(id);
      CardIdRoundTrip(ref, id);
      IdText(ref.page, ref.number, ref.ordinal);
    }
    if IsCardText(id) {
      var p: Page, n: nat, ordinal: nat :|
        n < 1000 && 1 <= ordinal < 1000 && id == PageName(p) + ":p" + Pad3(n) + ":c" + Pad3(ordinal);
      IdText(p, n, ordinal);
      CardIdRoundTrip(CardRef(p, n, ordinal), id);
    }
  }

  lemma SettledIff(m: Mapping)
    ensures IsSettled(m) <==> MappingRowOk(m)
  {
    hide IsCardText, GateCardId;
    if m.cardId.Some? { CardTextIff(m.cardId.value); }
  }

  lemma LastKeyNew(ms: seq<Mapping>)
    requires DistinctOffers(ms) && ms != []
    ensures var n := |ms| - 1; forall m | m in ms[..n] :: m.candidate.offerKey != ms[n].candidate.offerKey
  {
    var n := |ms| - 1;
    forall m | m in ms[..n] ensures m.candidate.offerKey != ms[n].candidate.offerKey {
      var i := IndexOf(ms[..n], m);
      assert ms[i] == m;
    }
  }

  lemma {:induction false} KeysDistinct(ms: seq<Mapping>, id: string)
    requires DistinctOffers(ms)
    ensures NoDup(KeysOf(ms, id))
    ensures forall key | key in KeysOf(ms, id) :: exists m | m in ms :: m.candidate.offerKey == key
  {
    if ms != [] {
      var n := |ms| - 1;
      var p := (m: Mapping) => m.status == Matched && m.cardId == Some(id);
      assert DistinctOffers(ms[..n]);
      KeysDistinct(ms[..n], id);
      FilterLast(ms, p);
      var before := KeysOf(ms[..n], id);
      LastKeyNew(ms);
      if p(ms[n]) {
        assert KeysOf(ms, id) == before + [ms[n].candidate.offerKey];
        NoDupAppend(before, ms[n].candidate.offerKey);
      } else {
        assert KeysOf(ms, id) == before;
      }
    }
  }

  lemma ListsAgree(a: seq<string>, b: seq<string>)
    requires NoDup(b)
    ensures multiset(a) == multiset(b) <==> SameKeys(a, b) && !HasDup(a)
  {
    hide StrLe;
    if multiset(a) == multiset(b) {
      StrLeIsPreorder();
      StringsApart(a);
      SortDeterministic(a, b, StrLe);
      NoDupPermuted(b, a);
      DistinctTest(a);
      assert TokenSet(a) == set x | x in a;
    }
    if SameKeys(a, b) { assert multiset(a) == multiset(Sort(a, StrLe)) == multiset(Sort(b, StrLe)) == multiset(b); }
  }

  lemma StringsApart(s: seq<string>)
    ensures KeysIdentify(s, StrLe)
  {
    forall x, y | x in s && y in s && StrLe(x, y) && StrLe(y, x) ensures x == y { StrLeAntisymmetric(x, y); }
  }

  lemma ExplainedIff(r: ReverseRow, ms: seq<Mapping>)
    requires DistinctOffers(ms)
    ensures IsExplained(r, ms) <==> ReverseRowOk(r, ms)
  {
    hide IsCardText, GateCardId, KeysOf, MatchedKeys, SameKeys, HasDup;
    CardTextIff(r.cardId);
    MatchedKeysAre(ms, r.cardId);
    KeysDistinct(ms, r.cardId);
    ListsAgree(r.matchedKeys, KeysOf(ms, r.cardId));
    if multiset(r.matchedKeys) == multiset(KeysOf(ms, r.cardId)) {
      assert |r.matchedKeys| == |multiset(r.matchedKeys)| == |KeysOf(ms, r.cardId)|;
    }
  }

  lemma {:induction false} CandidatesCounted(ms: seq<Mapping>, s: Status)
    ensures |Filter(ms, (m: Mapping) => m.candidate.status == s)|
            == |Filter(MappingCandidates(ms), (c: Candidate) => c.status == s)|
  {
    if ms != [] {
      var n := |ms| - 1;
      CandidatesCounted(ms[..n], s);
      FilterLast(ms, (m: Mapping) => m.candidate.status == s);
      FilterLast(MappingCandidates(ms), (c: Candidate) => c.status == s);
      assert MappingCandidates(ms)[..n] == MappingCandidates(ms[..n]);
    }
  }

  lemma CountsIff(ms: seq<Mapping>, expected: map<Status, nat>)
    ensures CountsAre(ms, expected) <==> TargetCounts(MappingCandidates(ms)) == expected
  {
    hide TargetCounts, MappingCandidates;
    var counts := TargetCounts(MappingCandidates(ms));
    forall s: Status
      ensures var n := |Filter(ms, (m: Mapping) => m.candidate.status == s)|;
              if n == 0 then s !in counts else s in counts && counts[s] == n
    {
      CandidatesCounted(ms, s);
      TargetsCounted(MappingCandidates(ms), s);
    }
    if CountsAre(ms, expected) {
      forall s: Status ensures s in counts <==> s in expected {}
      forall s | s in counts ensures counts[s] == expected[s] {}
    }
  }

  /** The wrapped gate accepts exactly the exact reports. */
  lemma AcceptedIffExact(b: Report, expected: map<Status, nat>)
    ensures WrapperAccepts(b, expected) <==> IsExact(b, expected)
  {
    hide IsSettled, MappingRowOk, IsExplained, ReverseRowOk, CountsAre, TargetCounts, Total, SummaryOk;
    hide CountsOk, CoversMappedCards, OfStatus, Counted, MappingCandidates;
    forall m | m in b.mappings ensures IsSettled(m) <==> MappingRowOk(m) { SettledIff(m); }
    if DistinctOffers(b.mappings) {
      forall r | r in b.reverse ensures IsExplained(r, b.mappings) <==> ReverseRowOk(r, b.mappings) {
        ExplainedIff(r, b.mappings);
      }
    }
    CountsIff(b.mappings, expected);
    if forall m | m in b.mappings :: MappingRowOk(m) {
      TotalIsLength(b.mappings);
      forall m | m in b.mappings && m.status == Matched ensures m.cardId.Some? { MatchNamesCard(m); }
      CoverageIff(b);
    }
    SummariesAgree(b, expected);
  }

  lemma MatchNamesCard(m: Mapping)
    requires MappingRowOk(m) && m.status == Matched
    ensures m.cardId.Some?
  {
  }

  lemma SummariesAgree(b: Report, expected: map<Status, nat>)
    ensures (SummaryOk(b, expected) && CountsOk(b) && |b.mappings| == Total(expected)) <==>
            && b.blockers == [] && |b.mappings| == Total(expected)
            && b.summary == Summary(expected, |b.mappings|, |OfStatus(b.mappings, Matched)|,
                                    |OfStatus(b.mappings, ReviewUnmatched)|, 0, |b.reverse|, |Counted(b.reverse)|, 0, 0,
                                    Sha(b.mappings), Sha(b.reverse), true)
  {
    hide CountStatus, CountCovered, Total;
    StatusCounted(b.mappings, Matched);
    StatusCounted(b.mappings, ReviewUnmatched);
    UnexplainedCounted(b.reverse);
  }

  lemma TotalIsLength(ms: seq<Mapping>)
    requires forall m | m in ms :: MappingRowOk(m)
    ensures Total(TargetCounts(MappingCandidates(ms))) == |ms|
  {
    hide TargetCounts, Total, GateCardId;
    var cands := MappingCandidates(ms);
    forall c | c in cands ensures IsTargetStatus(c.status) {
      var i := IndexOf(cands, c);
      assert ms[i] in ms;
    }
    CountsTotal(cands);
  }

  lemma CoverageIff(b: Report)
    requires forall m | m in b.mappings :: m.status == Matched ==> m.cardId.Some?
    ensures CoversMappedCards(b) <==>
            forall m | m in b.mappings && m.status == Matched :: exists r | r in b.reverse :: m.cardId == Some(r.cardId)
  {
    var ms, rs := b.mappings, b.reverse;
    if CoversMappedCards(b) {
      forall m | m in ms && m.status == Matched ensures exists r | r in rs :: m.cardId == Some(r.cardId) {
        var i := IndexOf(ms, m);
        var j :| 0 <= j < |rs| && rs[j].cardId == ms[i].cardId.value;
        assert rs[j] in rs;
      }
    }
    if forall m | m in ms && m.status == Matched :: exists r | r in rs :: m.cardId == Some(r.cardId) {
      forall i | 0 <= i < |ms| && ms[i].status.Matched? && ms[i].cardId.Some?
        ensures exists j | 0 <= j < |rs| :: rs[j].cardId == ms[i].cardId.value
      {
        assert ms[i] in ms;
        var r :| r in rs && ms[i].cardId == Some(r.cardId);
        var j := IndexOf(rs, r);
      }
    }
  }
}
