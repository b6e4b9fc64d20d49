/** The reverse rows, blockers and summary of a parity report, read off its mappings and cards. */
module ParityReports {
  import opened Foundations
  import opened Sorting
  import opened ParityModel
  import opened ParityRun
  import opened ParityAccounting
  import opened ParityPages

  // ----- input rows -----

  /** Which rows end a run, and as what the others are read. */
  lemma RawRow(r: RawOffer)
    ensures var wanted := r.status == AutoCandidate || r.status == ReviewRequired;
            var priced := r.price == NoPrice || (r.price.Cents? && r.price.amount > 0);
            var placed := (r.sourcePage == "current" || r.sourcePage == "preview") && r.offerId != "";
            && (RowError(r) == None <==> !wanted || (priced && placed))
            && (RowError(r) == Some(InvalidPrice) <==> wanted && !priced)
            && (RowError(r) == Some(InvalidOfferIdentity) <==> wanted && priced && !placed)
            && (priced && placed ==>
                  OfferOf(r) == Offer(if r.sourcePage == "current" then Current else Preview, r.offerId, r.status,
                                      r.titleTokens, r.brandTokens,
                                      if r.price == NoPrice then None else Some(r.price.amount), r.reviewReasons))
            && OfferOf(r).status == r.status
  {
    assert "current"[0] != "preview"[0];
  }

  // ----- reverse rows -----

  /** The keys of the offers matched to a card. */
  ghost function KeysOf(ms: seq<Mapping>, id: string): seq<string> {
    Map(Filter(ms, (m: Mapping) => m.status == Matched && m.cardId == Some(id)), (m: Mapping) => m.candidate.offerKey)
  }

  lemma {:induction false} MatchedKeysAre(ms: seq<Mapping>, id: string)
    ensures MatchedKeys(ms, id) == KeysOf(ms, id)
  {
    var p := (m: Mapping) => m.status == Matched && m.cardId == Some(id);
    if ms != [] {
      var n := |ms| - 1;
      MatchedKeysAre(ms[..n], id);
      FilterLast(ms, p);
    }
  }

  /** The row repeats the card and lists the offers matched to it in order; it is unexplained when a card that counts
    * has neither an offer nor a reason. */
  ghost predicate IsRowOf(r: ReverseRow, k: Card, ms: seq<Mapping>) {
    && r.cardId == k.id && r.page == k.page && r.pageNumber == k.pageNumber && r.scope == k.scope
    && r.unmatchedReason == k.unmatchedReason
    && IsSorted(r.matchedKeys, StrLe) && multiset(r.matchedKeys) == multiset(KeysOf(ms, k.id))
    && (r.unexplained <==> k.scope != OutOfScope && KeysOf(ms, k.id) == [] && k.unmatchedReason == "")
  }

  lemma RowIsOf(k: Card, ms: seq<Mapping>)
    ensures IsRowOf(ReverseOf(k, ms), k, ms)
  {
    hide StrLe, KeysOf, MatchedKeys;
    MatchedKeysAre(ms, k.id);
    StrLeIsPreorder();
    SortSorted(MatchedKeys(ms, k.id), StrLe);
    assert |Sort(MatchedKeys(ms, k.id), StrLe)| == |MatchedKeys(ms, k.id)|;
  }

  lemma RowsOfCards(all: seq<Card>, ms: seq<Mapping>)
    ensures forall i | 0 <= i < |all| ::
              IsRowOf(ReverseRows(all, ms)[i], all[i], ms) && ReverseRows(all, ms)[i].cardId == all[i].id
  {
    hide IsRowOf, ReverseOf;
    forall i | 0 <= i < |all|
      ensures IsRowOf(ReverseRows(all, ms)[i], all[i], ms) && ReverseRows(all, ms)[i].cardId == all[i].id
    {
      RowIsOf(all[i], ms);
      ReverseUnexplained(all[i], ms);
    }
  }

  lemma CardOrder(cards: seq<Card>)
    ensures |SortedCards(cards)| == |cards| && forall k :: k in SortedCards(cards) <==> k in cards
    ensures forall i, j | 0 <= i < j < |cards| :: StrLe(SortedCards(cards)[i].id, SortedCards(cards)[j].id)
  {
    hide StrLe;
    var all := SortedCards(cards);
    SortMembers(cards, CardLe);
    OrdersArePreorders();
    SortSorted(cards, CardLe);
    assert |all| == |multiset(all)| == |multiset(cards)|;
    forall i, j | 0 <= i < j < |cards| ensures StrLe(all[i].id, all[j].id) { assert CardLe(all[i], all[j]); }
  }

  /** Every card has one reverse row, in card order. */
  lemma ReportReverse(rows: seq<Offer>, cards: seq<Card>, expected: Option<map<Status, nat>>)
    ensures var r := ParityReport(rows, cards, expected);
            && |r.reverse| == |cards|
            && (forall k | k in cards :: exists row | row in r.reverse :: IsRowOf(row, k, r.mappings))
            && (forall row | row in r.reverse :: exists k | k in cards :: IsRowOf(row, k, r.mappings))
            && forall i, j | 0 <= i < j < |r.reverse| :: StrLe(r.reverse[i].cardId, r.reverse[j].cardId)
  {
    hide IsRowOf, StrLe, ReverseRows, Mappings, Candidates, SortedCards, AllBlockers, Summarise;
    var r, all := ParityReport(rows, cards, expected), SortedCards(cards);
    CardOrder(cards);
    assert r.reverse == ReverseRows(all, r.mappings);
    RowsOfCards(all, r.mappings);
    forall k | k in cards ensures exists row | row in r.reverse :: IsRowOf(row, k, r.mappings) {
      var i := IndexOf(all, k);
      assert r.reverse[i] in r.reverse;
    }
    forall row | row in r.reverse ensures exists k | k in cards :: IsRowOf(row, k, r.mappings) {
      var i := IndexOf(r.reverse, row);
      assert all[i] in cards;
    }
  }

  // ----- blockers -----

  /** The blocker of a blocked mapping. */
  ghost predicate IsBlockerOf(b: Blocker, m: Mapping) {
    && m.status == BlockedMatch
    && b == if m.via == ExplicitOfferId && m.cardId.Some?
            then ExplicitOutOfScope(m.candidate.offerKey, m.cardId.value)
            else Undecided(m.via, m.candidate.offerKey, m.candidate.status, m.candidateCardIds)
  }

  lemma BlockerOfMapping(b: Blocker, m: Mapping)
    ensures b in MappingBlocker(m) <==> IsBlockerOf(b, m)
  {
  }

  /** What blocks a run: drifted counts, each blocked mapping and each unexplained card, and nothing else. */
  lemma ReportBlockerMembers(cands: seq<Candidate>, cards: seq<Card>, expected: Option<map<Status, nat>>, b: Blocker)
    ensures var r := ReportOf(cands, cards, expected);
            b in r.blockers
            <==> || (expected.Some? && expected.value != r.summary.targetCounts
                     && b == TargetCountMismatch(expected.value, r.summary.targetCounts))
                 || (exists m | m in r.mappings :: IsBlockerOf(b, m))
                 || (exists row | row in r.reverse :: row.unexplained && b == UnexplainedCard(row.cardId))
  {
    hide Decide, Sort, ReverseOf, MappingBlocker, IsBlockerOf, TargetCounts, AllBlockers;
    var r := ReportOf(cands, cards, expected);
    ReportBlockers(cands, cards, expected, b);
    forall i | 0 <= i < |r.mappings| ensures b in MappingBlocker(r.mappings[i]) <==> IsBlockerOf(b, r.mappings[i]) {
      BlockerOfMapping(b, r.mappings[i]);
    }
    if m :| m in r.mappings && IsBlockerOf(b, m) { var i := IndexOf(r.mappings, m); }
    if i :| 0 <= i < |r.mappings| && b in MappingBlocker(r.mappings[i]) { assert r.mappings[i] in r.mappings; }
    forall i | 0 <= i < |cards| ensures r.reverse[i].cardId == cards[i].id { ReverseUnexplained(cards[i], r.mappings); }
    if row :| row in r.reverse && row.unexplained && b == UnexplainedCard(row.cardId) {
      var i := IndexOf(r.reverse, row);
    }
    if b.UnexplainedCard? {
      if i :| 0 <= i < |cards| && r.reverse[i].unexplained && cards[i].id == b.cardId {
        assert r.reverse[i] in r.reverse;
      }
    }
  }

  /** Ambiguous offers first, then offers listed by a card out of scope, offers without match, drifted counts and
    * unexplained cards. */
  function Kind(b: Blocker): nat {
    match b
    case Undecided(via, _, _, _) => if via == NoMatch then 2 else 0
    case ExplicitOutOfScope(_, _) => 1
    case TargetCountMismatch(_, _) => 3
    case UnexplainedCard(_) => 4
  }

  /** Blockers of one kind are ordered by offer key or card ID. */
  predicate InOrder(a: Blocker, b: Blocker) {
    || Kind(a) < Kind(b)
    || (Kind(a) == Kind(b) &&
        match a
        case TargetCountMismatch(_, _) => true
        case Undecided(_, key, _, _) => StrLe(key, b.offerKey)
        case ExplicitOutOfScope(key, card) => StrLe(key, b.offerKey) && (key == b.offerKey ==> StrLe(card, b.cardId))
        case UnexplainedCard(card) => StrLe(card, b.cardId))
  }

  /** The type names of the blockers start with five letters in alphabetical order. */
  lemma TypeName(b: Blocker)
    ensures BlockerKey(b).0 != ""
    ensures BlockerKey(b).0[0] == "aentu"[Kind(b)]
    ensures forall a | Kind(a) == Kind(b) :: BlockerKey(a).0 == BlockerKey(b).0
  {
  }

  lemma FirstLetters(s: string, t: string)
    requires s != "" && t != "" && StrLe(s, t)
    ensures s[0] <= t[0]
  {
  }

  lemma KeyOrder(a: Blocker, b: Blocker)
    requires BlockerLe(a, b)
    ensures InOrder(a, b)
  {
    hide StrLe;
    TypeName(a);
    TypeName(b);
    if BlockerKey(a).0 != BlockerKey(b).0 {
      FirstLetters(BlockerKey(a).0, BlockerKey(b).0);
      assert Kind(a) != Kind(b);
    }
    StrLeIsPreorder();
  }

  lemma BlockersInOrder(cands: seq<Candidate>, cards: seq<Card>, expected: Option<map<Status, nat>>)
    ensures var bs := ReportOf(cands, cards, expected).blockers;
            forall i, j | 0 <= i < j < |bs| :: InOrder(bs[i], bs[j])
  {
    hide InOrder, Decide, ReverseOf, CountBlocker, MappingBlockers, CardBlockers;
    var bs := ReportOf(cands, cards, expected).blockers;
    PreorderOfBlockers();
    var r := ReportOf(cands, cards, expected);
    SortSorted(CountBlocker(cands, expected) + MappingBlockers(r.mappings) + CardBlockers(r.reverse), BlockerLe);
    forall i, j | 0 <= i < j < |bs| ensures InOrder(bs[i], bs[j]) { KeyOrder(bs[i], bs[j]); }
  }

  // ----- summary -----

  lemma {:induction false} StatusCounted(ms: seq<Mapping>, s: MatchStatus)
    ensures CountStatus(ms, s) == |Filter(ms, (m: Mapping) => m.status == s)|
  {
    if ms != [] {
      var n := |ms| - 1;
      StatusCounted(ms[..n], s);
      FilterLast(ms, (m: Mapping) => m.status == s);
    }
  }

  lemma {:induction false} UnexplainedCounted(rs: seq<ReverseRow>)
    ensures CountUnexplained(rs) == |Filter(rs, (r: ReverseRow) => r.unexplained)|
    ensures CountCovered(rs) == |Filter(rs, (r: ReverseRow) => r.scope != OutOfScope)|
  {
    if rs != [] {
      var n := |rs| - 1;
      UnexplainedCounted(rs[..n]);
      FilterLast(rs, (r: ReverseRow) => r.unexplained);
      FilterLast(rs, (r: ReverseRow) => r.scope != OutOfScope);
    }
  }

  lemma {:induction false} TargetsCounted(cands: seq<Candidate>, s: Status)
    ensures var n := |Filter(cands, (c: Candidate) => c.status == s)|;
            if n == 0 then s !in TargetCounts(cands) else s in TargetCounts(cands) && TargetCounts(cands)[s] == n
  {
    var p := (c: Candidate) => c.status == s;
    if cands != [] {
      var n := |cands| - 1;
      TargetsCounted(cands[..n], s);
      FilterLast(cands, p);
      OneMoreTarget(cands, s);
    }
  }

  lemma OneMoreTarget(cands: seq<Candidate>, s: Status)
    requires cands != []
    ensures var n := |cands| - 1;
            var before, after := TargetCounts(cands[..n]), TargetCounts(cands);
            if cands[n].status == s then s in after && after[s] == (if s in before then before[s] else 0) + 1
            else (s in after <==> s in before) && (s in before ==> after[s] == before[s])
  {
  }

  /** Every number of the summary is the size of a list in the report, both digests are those of its lists, and the run
    * passes exactly without a blocker. */
  lemma SummaryCounts(cands: seq<Candidate>, cards: seq<Card>, expected: Option<map<Status, nat>>, s: Status)
    ensures var r := ReportOf(cands, cards, expected);
            && r.summary.candidateCount == |r.mappings| && r.summary.cardCount == |r.reverse|
            && r.summary.matchedCount == |Filter(r.mappings, (m: Mapping) => m.status == Matched)|
            && r.summary.reviewUnmatchedCount == |Filter(r.mappings, (m: Mapping) => m.status == ReviewUnmatched)|
            && r.summary.blockedCount == |Filter(r.mappings, (m: Mapping) => m.status == BlockedMatch)|
            && r.summary.coveredCardCount == |Filter(r.reverse, (k: ReverseRow) => k.scope != OutOfScope)|
            && r.summary.unexplainedCount == |Filter(r.reverse, (k: ReverseRow) => k.unexplained)|
            && r.summary.blockerCount == |r.blockers| && (r.summary.pass <==> r.blockers == [])
            && r.summary.mappingSha == Sha(r.mappings) && r.summary.reverseSha == Sha(r.reverse)
    ensures var n, counts := |Filter(cands, (c: Candidate) => c.status == s)|,
                             ReportOf(cands, cards, expected).summary.targetCounts;
            if n == 0 then s !in counts else s in counts && counts[s] == n
  {
    hide Decide, Sort, ReverseOf, AllBlockers, TargetCounts, CountStatus, CountCovered, CountUnexplained;
    var r := ReportOf(cands, cards, expected);
    StatusCounted(r.mappings, Matched);
    StatusCounted(r.mappings, ReviewUnmatched);
    StatusCounted(r.mappings, BlockedMatch);
    UnexplainedCounted(r.reverse);
    TargetsCounted(cands, s);
  }
}
