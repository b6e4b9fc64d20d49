/** The parity run and Gate C's validator, written separately, agree; and what an accepted bundle means. */
module GateCAgreement {
  import opened Foundations
  import opened Sorting
  import opened ParityModel
  import opened ParityRun
  import opened ParityOrder
  import opened ParityAccounting
  import opened ParityPages
  import opened CardLedger
  import opened GateC

  // ----- a passing run is an acceptable bundle -----

  lemma {:induction false} NoneBlocked(ms: seq<Mapping>, m: Mapping)
    requires CountStatus(ms, BlockedMatch) == 0 && m in ms
    ensures !m.status.BlockedMatch?
  {
    if m != ms[|ms| - 1] { NoneBlocked(ms[..|ms| - 1], m); }
  }

  lemma {:induction false} NoneUnexplained(rs: seq<ReverseRow>, r: ReverseRow)
    requires CountUnexplained(rs) == 0 && r in rs
    ensures !r.unexplained
  {
    if r != rs[|rs| - 1] { NoneUnexplained(rs[..|rs| - 1], r); }
  }

  /** What Decide promises of one mapping, besides keeping the candidate. */
  lemma DecideShape(c: Candidate, cards: seq<Card>)
    ensures var m := Decide(c, cards);
            && m.candidate == c
            && (m.status.Matched? ==> m.cardId.Some? && exists k | k in cards :: k.id == m.cardId.value)
            && (m.status.ReviewUnmatched? ==> c.status.ReviewRequired? && m.cardId.None? && c.reviewReasons != [])
  {
    hide Score, ScoredCards, Sort, ClaimedId, CardById;
    MatchNamesCard(c, cards);
    DecideKeepsCandidate(c, cards);
  }

  lemma CandidateFacts(rows: seq<Offer>, c: Candidate)
    requires c in Candidates(rows)
    ensures c.offerKey != "" && IsTargetStatus(c.status)
  {
    SortMembers(Views(rows), CandidateLe);
    var o := ViewSource(rows, c);
  }

  ghost predicate OrdinalsPositive(cards: seq<Card>) {
    forall k | k in cards :: GateCardId(k.id)
  }

  lemma PassingMappingRows(rows: seq<Offer>, cards: seq<Card>, expected: map<Status, nat>)
    requires ParityReport(rows, cards, Some(expected)).summary.pass && OrdinalsPositive(cards)
    ensures forall m | m in ParityReport(rows, cards, Some(expected)).mappings :: MappingRowOk(m)
  {
    hide Decide, Candidates, GateCardId;
    var r := ParityReport(rows, cards, Some(expected));
    var cands, sorted := Candidates(rows), SortedCards(cards);
    BlockersCounted(cands, sorted, Some(expected));
    CardsSorted(cards);
    forall m | m in r.mappings ensures MappingRowOk(m) {
      var i := IndexOf(r.mappings, m);
      DecideShape(cands[i], sorted);
      NoneBlocked(r.mappings, m);
      CandidateFacts(rows, cands[i]);
    }
  }

  lemma {:induction false} MatchedKeysSource(ms: seq<Mapping>, id: string)
    ensures forall key ::
              key in MatchedKeys(ms, id)
              <==> exists i | 0 <= i < |ms| :: MatchedTo(ms[i], id) && ms[i].candidate.offerKey == key
  {
    if ms != [] {
      var rest := ms[..|ms| - 1];
      MatchedKeysSource(rest, id);
      forall key ensures key in MatchedKeys(ms, id)
          <==> exists i | 0 <= i < |ms| :: MatchedTo(ms[i], id) && ms[i].candidate.offerKey == key {
        if i :| 0 <= i < |ms| && MatchedTo(ms[i], id) && ms[i].candidate.offerKey == key {
          if i < |rest| { assert rest[i] == ms[i]; }
        }
        if i :| 0 <= i < |rest| && MatchedTo(rest[i], id) && rest[i].candidate.offerKey == key {
          assert rest[i] == ms[i];
        }
      }
    }
  }

  lemma {:induction false} MatchedKeysDistinct(ms: seq<Mapping>, id: string)
    requires DistinctOffers(ms)
    ensures NoDup(MatchedKeys(ms, id))
  {
    if ms != [] {
      var rest, m := ms[..|ms| - 1], ms[|ms| - 1];
      MatchedKeysDistinct(rest, id);
      MatchedKeysSource(rest, id);
      forall i | 0 <= i < |rest| ensures rest[i].candidate.offerKey != m.candidate.offerKey {
        assert ms[i].candidate.offerKey != ms[|ms| - 1].candidate.offerKey;
      }
      assert m.candidate.offerKey !in MatchedKeys(rest, id);
    }
  }

  /** A list has no repeated string iff its set of strings is as large. */
  lemma HasDupIffRepeats(s: seq<string>)
    ensures !HasDup(s) <==> NoDup(s)
    ensures |TokenSet(s)| <= |s|
  {
    DistinctTest(s);
    assert TokenSet(s) == (set x | x in s);
  }

  lemma ReverseRowAccepted(k: Card, ms: seq<Mapping>)
    requires DistinctOffers(ms) && GateCardId(k.id) && !ReverseOf(k, ms).unexplained
    ensures ReverseRowOk(ReverseOf(k, ms), ms)
  {
    hide MatchedKeys, GateCardId;
    var keys := MatchedKeys(ms, k.id);
    MatchedKeysDistinct(ms, k.id);
    OrdersArePreorders();
    SortSorted(keys, StrLe);
    SortIdempotent(Sort(keys, StrLe), StrLe);
    NoDupPermuted(keys, Sort(keys, StrLe));
    HasDupIffRepeats(Sort(keys, StrLe));
  }

  lemma PassingReverseRows(rows: seq<Offer>, cards: seq<Card>, expected: map<Status, nat>)
    requires UniqueOffers(rows) && UniqueCards(cards)
    requires ParityReport(rows, cards, Some(expected)).summary.pass && OrdinalsPositive(cards)
    ensures ReverseOk(ParityReport(rows, cards, Some(expected)).reverse,
                      ParityReport(rows, cards, Some(expected)).mappings)
  {
    hide Decide, Candidates, GateCardId, ReverseOf, MatchedKeys, SortedCards, ReverseRowOk;
    var r := ParityReport(rows, cards, Some(expected));
    var cands, sorted := Candidates(rows), SortedCards(cards);
    BlockersCounted(cands, sorted, Some(expected));
    CardsSorted(cards);
    UniqueCardsPermuted(cards, sorted);
    CandidateKeysDistinct(rows);
    MappingsDistinct(cands, sorted);
    forall i | 0 <= i < |r.reverse| ensures r.reverse[i].cardId == sorted[i].id {
      ReverseUnexplained(sorted[i], r.mappings);
    }
    forall row | row in r.reverse ensures ReverseRowOk(row, r.mappings) {
      var i := IndexOf(r.reverse, row);
      NoneUnexplained(r.reverse, row);
      ReverseRowAccepted(sorted[i], r.mappings);
    }
  }

  lemma {:induction false} CountsTotal(cands: seq<Candidate>)
    requires forall c | c in cands :: IsTargetStatus(c.status)
    ensures Total(TargetCounts(cands)) == |cands|
  {
    if cands != [] {
      CountsTotal(cands[..|cands| - 1]);
      assert IsTargetStatus(cands[|cands| - 1].status);
    }
  }

  lemma MappingCandidatesAre(cands: seq<Candidate>, cards: seq<Card>)
    ensures MappingCandidates(Mappings(cands, cards)) == cands
  {
    hide Decide;
    forall i | 0 <= i < |cands| ensures Mappings(cands, cards)[i].candidate == cands[i] {
      DecideKeepsCandidate(cands[i], cards);
    }
  }

  /** Every matched mapping of a run names a card of its reverse coverage. */
  lemma RunCoversMappedCards(cands: seq<Candidate>, cards: seq<Card>, expected: Option<map<Status, nat>>)
    ensures CoversMappedCards(ReportOf(cands, cards, expected))
  {
    hide Decide, MatchedKeys, AllBlockers;
    var r := ReportOf(cands, cards, expected);
    forall i | 0 <= i < |r.mappings| && r.mappings[i].status.Matched? && r.mappings[i].cardId.Some?
      ensures exists j | 0 <= j < |r.reverse| :: r.reverse[j].cardId == r.mappings[i].cardId.value
    {
      DecideShape(cands[i], cards);
      var k :| k in cards && k.id == r.mappings[i].cardId.value;
      var j := IndexOf(cards, k);
      ReverseUnexplained(k, r.mappings);
      assert r.reverse[j].cardId == k.id;
    }
  }

  /** On a validated ledger whose counts match, a passing run is accepted by Gate C and its wrapper if, and only
      if, no card has the ordinal 000 that the ledger allows and Gate C refuses. */
  lemma PassAcceptedIffOrdinals(rows: seq<Offer>, cards: seq<Card>, expected: map<Status, nat>)
    requires UniqueOffers(rows) && ValidLedger(cards)
    requires ParityReport(rows, cards, Some(expected)).summary.pass
    ensures WrapperAccepts(ParityReport(rows, cards, Some(expected)), expected)
        <==> forall k | k in cards :: ParseCardId(k.id).value.ordinal >= 1
  {
    var r := ParityReport(rows, cards, Some(expected));
    assert OrdinalsPositive(cards) <==> forall k | k in cards :: ParseCardId(k.id).value.ordinal >= 1;
    if OrdinalsPositive(cards) {
      PassAccepted(rows, cards, expected);
    } else {
      OrdinalZeroRefused(rows, cards, expected);
    }
  }

  lemma PassAccepted(rows: seq<Offer>, cards: seq<Card>, expected: map<Status, nat>)
    requires UniqueOffers(rows) && UniqueCards(cards) && OrdinalsPositive(cards)
    requires ParityReport(rows, cards, Some(expected)).summary.pass
    ensures WrapperAccepts(ParityReport(rows, cards, Some(expected)), expected)
  {
    hide Candidates, SortedCards, Mappings, ReverseRows, AllBlockers, MappingsOk, ReverseOk, CoversMappedCards,
         TargetCounts, Total;
    var cands, sorted := Candidates(rows), SortedCards(cards);
    BlockersCounted(cands, sorted, Some(expected));
    PassingMappings(rows, cards, expected);
    PassingReverseRows(rows, cards, expected);
    forall c | c in cands ensures IsTargetStatus(c.status) { CandidateFacts(rows, c); }
    CountsTotal(cands);
    RunCoversMappedCards(cands, sorted, Some(expected));
    MappingsLength(cands, sorted);
  }

  lemma PassingMappings(rows: seq<Offer>, cards: seq<Card>, expected: map<Status, nat>)
    requires UniqueOffers(rows) && OrdinalsPositive(cards)
    requires ParityReport(rows, cards, Some(expected)).summary.pass
    ensures MappingsOk(ParityReport(rows, cards, Some(expected)).mappings, expected)
  {
    hide Candidates, SortedCards, Mappings, AllBlockers, MappingRowOk, TargetCounts;
    var cands, sorted := Candidates(rows), SortedCards(cards);
    BlockersCounted(cands, sorted, Some(expected));
    PassingMappingRows(rows, cards, expected);
    CandidateKeysDistinct(rows);
    MappingsDistinct(cands, sorted);
    MappingCandidatesAre(cands, sorted);
  }

  lemma MappingsLength(cands: seq<Candidate>, cards: seq<Card>)
    ensures |Mappings(cands, cards)| == |cands|
  {
  }

  lemma OrdinalZeroRefused(rows: seq<Offer>, cards: seq<Card>, expected: map<Status, nat>)
    requires !OrdinalsPositive(cards)
    ensures !WrapperAccepts(ParityReport(rows, cards, Some(expected)), expected)
  {
    hide GateCardId, Mappings, AllBlockers, MatchedKeys, Summarise, MappingsOk;
    var r := ParityReport(rows, cards, Some(expected));
    var k :| k in cards && !GateCardId(k.id);
    CardsSorted(cards);
    var i := IndexOf(SortedCards(cards), k);
    assert r.reverse[i] == ReverseOf(k, r.mappings);
    assert !ReverseRowOk(r.reverse[i], r.mappings);
  }

  // ----- an accepted bundle is an exact inverse relation -----

  function CountOf(rs: seq<ReverseRow>, id: string): nat {
    if rs == [] then 0 else CountOf(rs[..|rs| - 1], id) + if rs[|rs| - 1].cardId == id then 1 else 0
  }

  function TotalMatched(rs: seq<ReverseRow>, ms: seq<Mapping>): nat {
    if rs == [] then 0 else TotalMatched(rs[..|rs| - 1], ms) + |MatchedKeys(ms, rs[|rs| - 1].cardId)|
  }

  function TotalListed(rs: seq<ReverseRow>): nat {
    if rs == [] then 0 else TotalListed(rs[..|rs| - 1]) + |rs[|rs| - 1].matchedKeys|
  }

  lemma {:induction false} DistinctCount(rs: seq<ReverseRow>, id: string)
    requires DistinctCards(rs)
    ensures CountOf(rs, id) == if exists j | 0 <= j < |rs| :: rs[j].cardId == id then 1 else 0
  {
    if rs != [] {
      var rest := rs[..|rs| - 1];
      assert DistinctCards(rest) by {
        forall i, j | 0 <= i < j < |rest| ensures rest[i].cardId != rest[j].cardId {
          assert rs[i].cardId != rs[j].cardId;
        }
      }
      DistinctCount(rest, id);
      if j :| 0 <= j < |rest| && rest[j].cardId == id {
        assert rs[j].cardId == id && rs[j].cardId != rs[|rs| - 1].cardId;
      }
      if j :| 0 <= j < |rs| && rs[j].cardId == id { if j < |rest| { assert rest[j].cardId == id; } }
    }
  }

  lemma {:induction false} TotalMatchedStep(rs: seq<ReverseRow>, ms: seq<Mapping>, m: Mapping)
    requires m.status.Matched? ==> m.cardId.Some?
    ensures TotalMatched(rs, ms + [m])
         == TotalMatched(rs, ms) + if m.status.Matched? then CountOf(rs, m.cardId.value) else 0
  {
    if rs != [] {
      TotalMatchedStep(rs[..|rs| - 1], ms, m);
      assert (ms + [m])[..|ms|] == ms;
    }
  }

  lemma {:induction false} TotalMatchedNone(rs: seq<ReverseRow>)
    ensures TotalMatched(rs, []) == 0
  {
    if rs != [] { TotalMatchedNone(rs[..|rs| - 1]); }
  }

  /** Matched mappings are counted once per reverse row carrying their card. */
  lemma {:induction false} TotalMatchedIs(rs: seq<ReverseRow>, ms: seq<Mapping>)
    requires DistinctCards(rs) && forall m | m in ms && m.status.Matched? :: m.cardId.Some?
    ensures TotalMatched(rs, ms) <= CountStatus(ms, Matched)
    ensures TotalMatched(rs, ms) == CountStatus(ms, Matched)
        <==> forall i | 0 <= i < |ms| && ms[i].status.Matched? && ms[i].cardId.Some? ::
               exists j | 0 <= j < |rs| :: rs[j].cardId == ms[i].cardId.value
  {
    if ms == [] {
      TotalMatchedNone(rs);
    } else {
      var rest, m := ms[..|ms| - 1], ms[|ms| - 1];
      assert m in ms && ms == rest + [m];
      TotalMatchedIs(rs, rest);
      TotalMatchedStep(rs, rest, m);
      if m.status.Matched? { DistinctCount(rs, m.cardId.value); }
      assert forall i | 0 <= i < |rest| :: rest[i] == ms[i];
    }
  }

  lemma {:induction false} ListedIsMatched(rs: seq<ReverseRow>, ms: seq<Mapping>)
    requires forall r | r in rs :: SameKeys(r.matchedKeys, MatchedKeys(ms, r.cardId))
    ensures TotalListed(rs) == TotalMatched(rs, ms)
  {
    hide MatchedKeys;
    if rs != [] {
      var r := rs[|rs| - 1];
      assert r in rs;
      ListedIsMatched(rs[..|rs| - 1], ms);
      assert |r.matchedKeys| == |Sort(r.matchedKeys, StrLe)| == |MatchedKeys(ms, r.cardId)|;
    }
  }

  lemma SameKeysMembers(a: seq<string>, b: seq<string>)
    requires SameKeys(a, b)
    ensures forall x :: x in a <==> x in b
  {
    SortMembers(a, StrLe);
    SortMembers(b, StrLe);
  }

  /** A bundle the wrapper accepts lists, under each card, exactly the offers matched to it: the reverse rows
      are the inverse of the mapping, and their lengths add up to the matched count. */
  lemma AcceptedIsInverse(b: Report, expected: map<Status, nat>)
    requires WrapperAccepts(b, expected)
    ensures forall r, key | r in b.reverse :: key in r.matchedKeys
              <==> exists i | 0 <= i < |b.mappings| ::
                     MatchedTo(b.mappings[i], r.cardId) && b.mappings[i].candidate.offerKey == key
    ensures forall i | 0 <= i < |b.mappings| && b.mappings[i].status.Matched? ::
              exists j | 0 <= j < |b.reverse| ::
                MatchedTo(b.mappings[i], b.reverse[j].cardId)
                && b.mappings[i].candidate.offerKey in b.reverse[j].matchedKeys
    ensures TotalListed(b.reverse) == b.summary.matchedCount
  {
    hide MatchedKeys, SameKeys, GateCardId, TargetCounts, HasDup;
    var ms, rs := b.mappings, b.reverse;
    forall r, key | r in rs ensures key in r.matchedKeys
        <==> exists i | 0 <= i < |ms| :: MatchedTo(ms[i], r.cardId) && ms[i].candidate.offerKey == key {
      assert ReverseRowOk(r, ms);
      SameKeysMembers(r.matchedKeys, MatchedKeys(ms, r.cardId));
      MatchedKeysSource(ms, r.cardId);
    }
    forall i | 0 <= i < |ms| && ms[i].status.Matched?
      ensures exists j | 0 <= j < |rs| ::
                MatchedTo(ms[i], rs[j].cardId) && ms[i].candidate.offerKey in rs[j].matchedKeys
    {
      assert MappingRowOk(ms[i]);
      var j :| 0 <= j < |rs| && rs[j].cardId == ms[i].cardId.value;
      assert rs[j] in rs && MatchedTo(ms[i], rs[j].cardId);
    }
    CoreCounts(b, expected);
  }

  /** The core validator alone guarantees the counts iff every mapped card has a reverse row, the check
      that only the wrapper makes. */
  lemma CoreCounts(b: Report, expected: map<Status, nat>)
    requires CoreAccepts(b, expected)
    ensures TotalListed(b.reverse) <= CountStatus(b.mappings, Matched)
    ensures TotalListed(b.reverse) == CountStatus(b.mappings, Matched) <==> CoversMappedCards(b)
  {
    hide MatchedKeys, GateCardId, TargetCounts, HasDup;
    forall m | m in b.mappings && m.status.Matched? ensures m.cardId.Some? { assert MappingRowOk(m); }
    forall r | r in b.reverse ensures SameKeys(r.matchedKeys, MatchedKeys(b.mappings, r.cardId)) {
      assert ReverseRowOk(r, b.mappings);
    }
    ListedIsMatched(b.reverse, b.mappings);
    TotalMatchedIs(b.reverse, b.mappings);
  }
}
