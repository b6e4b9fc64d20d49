/** Reverse rows that go missing from an accepted bundle: the core never notices, the wrapper does when it matters. */
module OrphanRows {
  import opened Foundations
  import opened Sorting
  import opened ParityModel
  import opened ParityPages
  import opened CardLedger
  import opened GateC
  import opened GateCAgreement

  /** The report without its reverse row j, hashed again, with the two card counters as given. */
  function DropRow(b: Report, j: nat, cardCount: nat, covered: nat): Report
    requires j < |b.reverse|
  {
    var rest := Without(b.reverse, j);
    b.(reverse := rest,
       summary := b.summary.(reverseSha := Sha(rest), cardCount := cardCount, coveredCardCount := covered))
  }

  lemma WithoutKeepsOrder<T>(s: seq<T>, j: nat, i: nat)
    requires j < |s| && i < |s| - 1
    ensures Without(s, j)[i] == s[if i < j then i else i + 1]
  {
  }

  lemma WithoutMembers<T>(s: seq<T>, j: nat, x: T)
    requires j < |s|
    ensures x in Without(s, j) ==> x in s
    ensures x in s && x != s[j] ==> x in Without(s, j)
  {
    if x in Without(s, j) {
      var i := IndexOf(Without(s, j), x);
      WithoutKeepsOrder(s, j, i);
    }
    if x in s && x != s[j] {
      var i := IndexOf(s, x);
      WithoutKeepsOrder(s, j, if i < j then i else i - 1);
    }
  }

  /** From any bundle the core accepts, any one reverse row may be taken away. */
  lemma DroppedRowPassesCore(b: Report, expected: map<Status, nat>, j: nat, cardCount: nat, covered: nat)
    requires CoreAccepts(b, expected) && j < |b.reverse|
    ensures CoreAccepts(DropRow(b, j, cardCount, covered), expected)
  {
    hide ReverseRowOk, MappingRowOk, TargetCounts, Without, DistinctOffers;
    var rest := Without(b.reverse, j);
    forall r | r in rest ensures ReverseRowOk(r, b.mappings) { WithoutMembers(b.reverse, j, r); }
    forall p, q | 0 <= p < q < |rest| ensures rest[p].cardId != rest[q].cardId {
      WithoutKeepsOrder(b.reverse, j, p);
      WithoutKeepsOrder(b.reverse, j, q);
    }
  }

  ghost predicate IsMapped(b: Report, id: string) {
    exists i | 0 <= i < |b.mappings| :: MatchedTo(b.mappings[i], id)
  }

  /** A card is mapped exactly when its reverse row lists an offer. */
  lemma MappedIffListed(b: Report, expected: map<Status, nat>, r: ReverseRow)
    requires CoreAccepts(b, expected) && r in b.reverse
    ensures IsMapped(b, r.cardId) <==> r.matchedKeys != []
  {
    hide MatchedKeys, SameKeys, GateCardId, TargetCounts, HasDup, SummaryOk, MappingRowOk;
    assert ReverseRowOk(r, b.mappings);
    SameKeysMembers(r.matchedKeys, MatchedKeys(b.mappings, r.cardId));
    MatchedKeysSource(b.mappings, r.cardId);
    if r.matchedKeys != [] { assert r.matchedKeys[0] in r.matchedKeys; }
    if i :| 0 <= i < |b.mappings| && MatchedTo(b.mappings[i], r.cardId) {
      assert b.mappings[i].candidate.offerKey in r.matchedKeys;
    }
  }

  /** Dropping a row uncovers a mapped card exactly when the row was that card's. */
  lemma CoverageAfterDrop(b: Report, expected: map<Status, nat>, j: nat, cardCount: nat, covered: nat)
    requires WrapperAccepts(b, expected) && j < |b.reverse|
    ensures CoversMappedCards(DropRow(b, j, cardCount, covered)) <==> !IsMapped(b, b.reverse[j].cardId)
  {
    hide CoreAccepts, CountsOk, Without;
    var id := b.reverse[j].cardId;
    var d := DropRow(b, j, cardCount, covered);
    RowsDiffer(b, expected);
    if !IsMapped(b, id) {
      forall i | 0 <= i < |b.mappings| && b.mappings[i].status.Matched? && b.mappings[i].cardId.Some?
        ensures exists k | 0 <= k < |d.reverse| :: d.reverse[k].cardId == b.mappings[i].cardId.value
      {
        var k :| 0 <= k < |b.reverse| && b.reverse[k].cardId == b.mappings[i].cardId.value;
        assert MatchedTo(b.mappings[i], b.reverse[k].cardId);
        WithoutKeepsOrder(b.reverse, j, if k < j then k else k - 1);
      }
    }
    if i :| 0 <= i < |b.mappings| && MatchedTo(b.mappings[i], id) {
      forall k | 0 <= k < |d.reverse| ensures d.reverse[k].cardId != id { WithoutKeepsOrder(b.reverse, j, k); }
    }
  }

  lemma RowsDiffer(b: Report, expected: map<Status, nat>)
    requires WrapperAccepts(b, expected)
    ensures DistinctCards(b.reverse)
  {
    hide SummaryOk, MappingsOk;
  }

  /** The wrapper accepts the shortened bundle exactly when the dropped row listed no offer and both card counters were
    * brought down to the remaining rows: with the counters left alone, or with a mapped card's row gone, it refuses. */
  lemma DroppedRowIffUnlisted(b: Report, expected: map<Status, nat>, j: nat, cardCount: nat, covered: nat)
    requires WrapperAccepts(b, expected) && j < |b.reverse|
    ensures WrapperAccepts(DropRow(b, j, cardCount, covered), expected)
            <==> b.reverse[j].matchedKeys == [] && cardCount == |b.reverse| - 1
                 && covered == CountCovered(Without(b.reverse, j))
  {
    hide CoreAccepts, CoversMappedCards, Without, CountCovered;
    DroppedRowPassesCore(b, expected, j, cardCount, covered);
    MappedIffListed(b, expected, b.reverse[j]);
    CoverageAfterDrop(b, expected, j, cardCount, covered);
  }

  // ----- an accepted bundle at the required counts -----

  const AUTOMATIC: nat := 346
  const REVIEWED: nat := 54
  const TARGET_COUNTS := map[AutoCandidate := AUTOMATIC, ReviewRequired := REVIEWED]
  const CARD := "current:p001:c001"

  function SampleCandidate(i: nat): Candidate
    requires i < 1000
  {
    Candidate(OfferKey(Current, Pad3(i)), Current, Pad3(i), if i < AUTOMATIC then AutoCandidate else ReviewRequired,
              [], [], None, [])
  }

  function SampleCandidates(n: nat): (r: seq<Candidate>)
    requires n <= 1000
    ensures |r| == n && forall i | 0 <= i < n :: r[i] == SampleCandidate(i)
  {
    seq(n, i requires 0 <= i < n => SampleCandidate(i))
  }

  function SampleMappings(n: nat): (r: seq<Mapping>)
    requires n <= 1000
    ensures |r| == n
            && forall i | 0 <= i < n ::
            r[i] == Mapping(SampleCandidate(i), Matched, ExplicitOfferId, Some(CARD), None, [CARD])
  {
    seq(n, i requires 0 <= i < n => Mapping(SampleCandidate(i), Matched, ExplicitOfferId, Some(CARD), None, [CARD]))
  }

  function SampleBundle(): Report {
    var ms := SampleMappings(AUTOMATIC + REVIEWED);
    var rs := [ReverseRow(CARD, Current, 1, InScope, MatchedKeys(ms, CARD), "", false)];
    Report(Summary(TARGET_COUNTS, AUTOMATIC + REVIEWED, CountStatus(ms, Matched), CountStatus(ms, ReviewUnmatched), 0,
                   1, CountCovered(rs), 0, 0, Sha(ms), Sha(rs), true), ms, rs, [])
  }

  /** The counts of the first n sample candidates. */
  function CountsUpTo(n: nat): map<Status, nat> {
    if n == 0 then map[]
    else if n <= AUTOMATIC then map[AutoCandidate := n]
    else map[AutoCandidate := AUTOMATIC, ReviewRequired := n - AUTOMATIC]
  }

  lemma {:induction false} SampleCounts(n: nat)
    requires n <= AUTOMATIC + REVIEWED
    ensures TargetCounts(SampleCandidates(n)) == CountsUpTo(n)
  {
    hide Pad3, OfferKey;
    if n > 0 {
      SampleCounts(n - 1);
      assert SampleCandidates(n)[..n - 1] == SampleCandidates(n - 1);
    }
  }

  lemma SampleRowsOk(n: nat)
    requires n <= 1000
    ensures forall m | m in SampleMappings(n) :: MappingRowOk(m)
    ensures DistinctOffers(SampleMappings(n))
  {
    hide Pad3, OfferKey;
    var ms := SampleMappings(n);
    SampleCard();
    forall i, j | 0 <= i < j < n ensures ms[i].candidate.offerKey != ms[j].candidate.offerKey {
      if ms[i].candidate.offerKey == ms[j].candidate.offerKey {
        OfferKeyInjective(Current, Pad3(i), Current, Pad3(j));
        Pad3RoundTrip(i, Pad3(i));
        Pad3RoundTrip(j, Pad3(j));
      }
    }
    forall m | m in ms ensures MappingRowOk(m) {
      var i := IndexOf(ms, m);
      KeyNotEmpty(Current, Pad3(i));
    }
  }

  lemma KeyNotEmpty(p: Page, id: string)
    ensures OfferKey(p, id) != ""
  {
  }

  lemma SampleCard()
    ensures GateCardId(CARD)
  {
    assert CARD[..7] == "current" && CARD[7..9] == ":p" && CARD[9..12] == "001" && CARD[12..14] == ":c"
           && CARD[14..] == "001";
  }

  lemma SampleReverseOk(n: nat)
    requires 0 < n <= 1000
    ensures ReverseRowOk(ReverseRow(CARD, Current, 1, InScope, MatchedKeys(SampleMappings(n), CARD), "", false),
                         SampleMappings(n))
    ensures MatchedKeys(SampleMappings(n), CARD) != []
  {
    hide Pad3, OfferKey, GateCardId, HasDup, MatchedKeys, SampleCandidate, MappingRowOk;
    var ms := SampleMappings(n);
    SampleCard();
    SampleRowsOk(n);
    MatchedKeysDistinct(ms, CARD);
    HasDupIffRepeats(MatchedKeys(ms, CARD));
    MatchedKeysSource(ms, CARD);
    assert MatchedTo(ms[0], CARD) && ms[0].candidate.offerKey in MatchedKeys(ms, CARD);
  }

  lemma SampleMappingsOk()
    ensures MappingsOk(SampleMappings(AUTOMATIC + REVIEWED), TARGET_COUNTS)
  {
    hide MappingRowOk, DistinctOffers, TargetCounts, SampleCandidate;
    var n := AUTOMATIC + REVIEWED;
    SampleRowsOk(n);
    SampleCounts(n);
    assert MappingCandidates(SampleMappings(n)) == SampleCandidates(n);
  }

  /** At the counts the gate requires, 346 automatic and 54 reviewed candidates, there is an accepted bundle; without
    * its only reverse row the core still accepts it, and the wrapper refuses it whatever the counters. */
  lemma CoreMissesOrphanCards(cardCount: nat, covered: nat)
    ensures var b := SampleBundle();
            && WrapperAccepts(b, TARGET_COUNTS)
            && CoreAccepts(DropRow(b, 0, cardCount, covered), TARGET_COUNTS)
            && !WrapperAccepts(DropRow(b, 0, cardCount, covered), TARGET_COUNTS)
  {
    hide MappingsOk, ReverseRowOk, MatchedKeys, CountStatus, CountCovered, SampleCandidate, DropRow;
    var b := SampleBundle();
    SampleMappingsOk();
    SampleReverseOk(AUTOMATIC + REVIEWED);
    assert CoversMappedCards(b) by { assert b.reverse[0].cardId == CARD; }
    assert ReverseOk(b.reverse, b.mappings);
    assert WrapperAccepts(b, TARGET_COUNTS);
    DroppedRowPassesCore(b, TARGET_COUNTS, 0, cardCount, covered);
    DroppedRowIffUnlisted(b, TARGET_COUNTS, 0, cardCount, covered);
  }
}
