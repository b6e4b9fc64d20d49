/** What a parity run decides, offer by offer and card by card, in terms of its input rows. */
module ParityDecisions {
  import opened Foundations
  import opened Sorting
  import opened ParityModel
  import opened ParityRun
  import opened ParityMatching
  import opened ParityRules
  import opened CardLedger

  // ----- claims -----

  /** The card lists the offer as its own. */
  predicate Lists(k: Card, o: Offer) {
    k.page == o.page && o.offerId in k.explicitIds
  }

  lemma ListsIsClaims(k: Card, o: Offer)
    ensures Claims(k, View(o).offerKey) <==> Lists(k, o)
  {
    if i :| 0 <= i < |k.explicitIds| && OfferKey(k.page, k.explicitIds[i]) == View(o).offerKey {
      OfferKeyInjective(k.page, k.explicitIds[i], o.page, o.offerId);
    }
    if Lists(k, o) {
      var i := IndexOf(k.explicitIds, o.offerId);
      assert OfferKey(k.page, k.explicitIds[i]) == View(o).offerKey;
    }
  }

  lemma {:induction false} NoClaim(o: Offer, cards: seq<Card>)
    requires forall k | k in cards :: !Lists(k, o)
    ensures ClaimedId(View(o).offerKey, cards).None?
  {
    hide Claims, View;
    if cards != [] {
      var n := |cards| - 1;
      assert cards[n] in cards;
      ListsIsClaims(cards[n], o);
      NoClaim(o, cards[..n]);
    }
  }

  lemma {:induction false} OneClaim(o: Offer, cards: seq<Card>, k: Card)
    requires k in cards && Lists(k, o) && forall d | d in cards && d != k :: !Lists(d, o)
    ensures ClaimedId(View(o).offerKey, cards) == Some(k.id)
  {
    hide Claims, View;
    var n := |cards| - 1;
    assert cards[n] in cards;
    ListsIsClaims(cards[n], o);
    if cards[n] != k {
      assert k in cards[..n];
      OneClaim(o, cards[..n], k);
    }
  }

  // ----- one decision -----

  /** The card fits the offer and is ten points ahead of every other card that does. */
  ghost predicate FitsBest(o: Offer, cards: seq<Card>, k: Card) {
    && Fits(o, k)
    && forall d | d in cards && d != k && Fits(o, d) :: Rounded(Points(o, k)) >= Rounded(Points(o, d)) + 10_000_000
  }

  lemma BestIsLeader(o: Offer, cards: seq<Card>, k: Card)
    ensures FitsBest(o, cards, k) <==> LeadsAllOthers(View(o), cards, k)
  {
    hide Fits, Points, Score, View, Rounded, Share;
    ScoredIffFits(o, k);
    if Fits(o, k) {
      ScoreIsPoints(o, k);
      forall d | d in cards && d != k
        ensures Fits(o, d) <==> Score(View(o), d).Some?
        ensures Fits(o, d) ==> Score(View(o), d).value.score == Rounded(Points(o, d))
      {
        ScoredIffFits(o, d);
        if Fits(o, d) { ScoreIsPoints(o, d); }
      }
    }
  }

  /** Whether the offer carries a reason for review. */
  predicate HasReason(o: Offer) {
    exists r | r in o.reviewReasons :: r != ""
  }

  lemma ReasonsKept(o: Offer)
    ensures View(o).reviewReasons != [] <==> HasReason(o)
    ensures IsSorted(View(o).reviewReasons, StrLe)
  {
    hide StrLe;
    StrLeIsPreorder();
    var kept := Filter(o.reviewReasons, NonEmpty);
    SortSorted(kept, StrLe);
    if HasReason(o) {
      var r :| r in o.reviewReasons && r != "";
      assert r in kept;
    }
    if kept != [] { assert kept[0] in kept; }
  }

  /** An offer that no card lists: matched exactly to the card that fits best, if there is one; without any fitting card
    * there is no match; an unmatched offer waits for review if it is one for review and says why, and blocks the run
    * otherwise. */
  lemma UnlistedDecision(o: Offer, cards: seq<Card>)
    requires UniqueCards(cards) && forall k | k in cards :: !Lists(k, o)
    ensures var m := Decide(View(o), cards);
            && (forall k | k in cards :: m.status == Matched && m.cardId == Some(k.id) <==> FitsBest(o, cards, k))
            && (m.status == Matched <==> exists k | k in cards :: FitsBest(o, cards, k))
            && (m.status == Matched <==> m.via == TitleBrandPrice)
            && (m.via == NoMatch <==> forall k | k in cards :: !Fits(o, k))
            && (m.status != Matched ==>
                  && m.cardId == None && (m.via == NoMatch || m.via == AmbiguousMatch)
                  && (m.status == ReviewUnmatched <==> o.status == ReviewRequired && HasReason(o)))
  {
    hide Fits, FitsBest, Score, ScoredCards, Sort, ClaimedId, HasReason;
    var c := View(o);
    NoClaim(o, cards);
    ReasonsKept(o);
    forall k | k in cards
      ensures MatchedTo(Decide(c, cards), k.id) <==> FitsBest(o, cards, k)
    {
      MatchedIffLeads(c, cards, k);
      BestIsLeader(o, cards, k);
    }
    if k :| k in cards && FitsBest(o, cards, k) {}
    Matchable(o, cards);
    NothingFits(o, cards);
  }

  lemma Matchable(o: Offer, cards: seq<Card>)
    requires UniqueCards(cards) && ClaimedBy(View(o).offerKey, cards).None?
    ensures Decide(View(o), cards).status.Matched? <==> exists k | k in cards :: FitsBest(o, cards, k)
  {
    hide FitsBest, Score, Decide, View, ClaimedBy;
    var c := View(o);
    forall k ensures FitsBest(o, cards, k) <==> LeadsAllOthers(c, cards, k) { BestIsLeader(o, cards, k); }
    if cards == [] {
      EmptyRanking(c);
    } else {
      MatchedIffLeads(c, cards, cards[0]);
    }
  }

  lemma EmptyRanking(c: Candidate)
    ensures ClaimedBy(c.offerKey, []).None? ==> !Decide(c, []).status.Matched?
  {
    hide View;
  }

  lemma NothingFits(o: Offer, cards: seq<Card>)
    ensures Sort(ScoredCards(View(o), cards), ScoredLe) == [] <==> forall k | k in cards :: !Fits(o, k)
  {
    hide Fits, Score, View, Sort, ScoredCards;
    var c := View(o);
    ScoredEntries(c, cards);
    var scored := ScoredCards(c, cards);
    assert |Sort(scored, ScoredLe)| == |scored|;
    forall k | k in cards ensures Score(c, k).Some? <==> Fits(o, k) { ScoredIffFits(o, k); }
    if scored != [] {
      assert scored[0] in scored;
      var i :| 0 <= i < |cards| && Score(c, cards[i]) == Some(scored[0].detail) && scored[0].cardId == cards[i].id;
      assert cards[i] in cards;
    }
    if k :| k in cards && Fits(o, k) {
      var i := IndexOf(cards, k);
      assert Scored(Score(c, k).value, k.id) in scored;
    }
  }

  /** An offer listed by one card goes to it whatever its title and price; it blocks the run if the card is out of
    * scope. */
  lemma ListedDecision(o: Offer, cards: seq<Card>, k: Card)
    requires UniqueCards(cards) && k in cards && Lists(k, o) && forall d | d in cards && d != k :: !Lists(d, o)
    ensures var m := Decide(View(o), cards);
            && m.cardId == Some(k.id) && m.via == ExplicitOfferId && m.score == None && m.candidateCardIds == [k.id]
            && m.status == if k.scope == OutOfScope then BlockedMatch else Matched
  {
    OneClaim(o, cards, k);
    ByIdFound(cards, k);
  }

  // ----- the cards named by a decision -----

  /** Card a is named before card b: more points, or as many and an ID that is not greater. */
  ghost predicate Precedes(o: Offer, a: Card, b: Card) {
    var x, y := Rounded(Points(o, a)), Rounded(Points(o, b));
    x > y || (x == y && StrLe(a.id, b.id))
  }

  ghost function FittingCards(o: Offer, cards: seq<Card>): seq<Card> {
    Filter(cards, (k: Card) => Fits(o, k))
  }

  lemma {:induction false} ScoredFitting(o: Offer, cards: seq<Card>)
    ensures |ScoredCards(View(o), cards)| == |FittingCards(o, cards)|
  {
    hide Fits, Score, View;
    if cards != [] {
      var n := |cards| - 1;
      ScoredFitting(o, cards[..n]);
      ScoredIffFits(o, cards[n]);
      FilterLast(cards, (k: Card) => Fits(o, k));
    }
  }

  /** The entry of the ranking that was made for a card. */
  lemma RankOf(o: Offer, cards: seq<Card>, ranked: seq<Scored>, i: nat) returns (k: Card)
    requires ranked == Ranked(View(o), cards) && i < |ranked|
    ensures k in cards && Fits(o, k) && ranked[i].cardId == k.id && ranked[i].detail.score == Rounded(Points(o, k))
    ensures Score(View(o), k) == Some(ranked[i].detail)
  {
    hide Fits, Score, View, Ranked, Points, Rounded, Share;
    k := CardOfEntry(View(o), cards, ranked[i]);
    ScoredIffFits(o, k);
    ScoreIsPoints(o, k);
  }

  /** An undecided or ranked offer names up to five fitting cards, the first ones by points and ID, and the details of
    * the first of them. */
  lemma NamedCards(o: Offer, cards: seq<Card>)
    requires UniqueCards(cards) && forall k | k in cards :: !Lists(k, o)
    ensures var m, n := Decide(View(o), cards), |FittingCards(o, cards)|;
            && |m.candidateCardIds| == (if n < 5 then n else 5)
            && (forall i | 0 <= i < |m.candidateCardIds| ::
                  exists k | k in cards && Fits(o, k) :: k.id == m.candidateCardIds[i])
            && (forall i, j, a, b | 0 <= i < j < |m.candidateCardIds| && a in cards && b in cards
                    && a.id == m.candidateCardIds[i] && b.id == m.candidateCardIds[j] :: Precedes(o, a, b))
            && (forall a, b | a in cards && Fits(o, a) && a.id in m.candidateCardIds
                    && b in cards && Fits(o, b) && b.id !in m.candidateCardIds :: Precedes(o, a, b))
            && (n == 0 ==> m.score == None)
            && (forall k | k in cards && n > 0 && k.id == m.candidateCardIds[0] ::
                  m.score == Score(View(o), k))
  {
    hide Fits, Score, View, Ranked, ScoredCards, ClaimedId, Precedes, UniqueCards, Lists, FittingCards;
    NoClaim(o, cards);
    ScoredFitting(o, cards);
    var c, ranked := View(o), Ranked(View(o), cards);
    RankedIs(o, cards);
    var m := Decide(c, cards);
    forall i | 0 <= i < |m.candidateCardIds|
      ensures exists k | k in cards && Fits(o, k) :: k.id == m.candidateCardIds[i]
    {
      var k := RankOf(o, cards, ranked, i);
    }
    forall i, j, a, b | 0 <= i < j < |m.candidateCardIds| && a in cards && b in cards
        && a.id == m.candidateCardIds[i] && b.id == m.candidateCardIds[j]
      ensures Precedes(o, a, b)
    {
      RankPrecedes(o, cards, i, j, a, b);
    }
    forall a, b | a in cards && Fits(o, a) && a.id in m.candidateCardIds
        && b in cards && Fits(o, b) && b.id !in m.candidateCardIds
      ensures Precedes(o, a, b)
    {
      var i := IndexOf(m.candidateCardIds, a.id);
      var j := RankedAt(o, cards, b);
      RankPrecedes(o, cards, i, j, a, b);
    }
    forall k | k in cards && |ranked| > 0 && k.id == m.candidateCardIds[0] ensures m.score == Score(c, k) {
      var first := RankOf(o, cards, ranked, 0);
      UniqueIds(cards, first, k);
    }
  }

  /** The decision on an offer that no card lists, read off its ranking. */
  lemma RankedIs(o: Offer, cards: seq<Card>)
    requires ClaimedId(View(o).offerKey, cards).None?
    ensures var m, ranked := Decide(View(o), cards), Ranked(View(o), cards);
            && |ranked| == |ScoredCards(View(o), cards)|
            && |m.candidateCardIds| == (if |ranked| < 5 then |ranked| else 5)
            && (forall i | 0 <= i < |m.candidateCardIds| :: m.candidateCardIds[i] == ranked[i].cardId)
            && m.score == if ranked == [] then None else Some(ranked[0].detail)
  {
    hide View, ScoredCards;
    assert |Ranked(View(o), cards)| == |multiset(Ranked(View(o), cards))| == |multiset(ScoredCards(View(o), cards))|;
  }

  lemma RankedAt(o: Offer, cards: seq<Card>, k: Card) returns (j: nat)
    requires k in cards && Fits(o, k)
    ensures j < |Ranked(View(o), cards)| && Ranked(View(o), cards)[j].cardId == k.id
  {
    hide Fits, Score, View, Ranked;
    ScoredIffFits(o, k);
    EntryOfCard(View(o), cards, k);
    j := IndexOf(Ranked(View(o), cards), Scored(Score(View(o), k).value, k.id));
  }

  lemma RankPrecedes(o: Offer, cards: seq<Card>, i: nat, j: nat, a: Card, b: Card)
    requires UniqueCards(cards) && a in cards && b in cards
    requires i < |Ranked(View(o), cards)| && j < |Ranked(View(o), cards)|
    requires Ranked(View(o), cards)[i].cardId == a.id && Ranked(View(o), cards)[j].cardId == b.id
    requires i < j
    ensures Precedes(o, a, b)
  {
    hide Fits, Score, View, Ranked, Points, Rounded;
    var ranked := Ranked(View(o), cards);
    RankedOrder(View(o), cards);
    assert ScoredLe(ranked[i], ranked[j]);
    var x := RankOf(o, cards, ranked, i);
    var y := RankOf(o, cards, ranked, j);
    UniqueIds(cards, x, a);
    UniqueIds(cards, y, b);
  }

  // ----- the whole report -----

  /** Automatic and reviewed offers are the ones a run looks at. */
  predicate IsWanted(o: Offer) {
    o.status == AutoCandidate || o.status == ReviewRequired
  }

  /** The mapping is that of the offer: the fields of the offer under its key, with the reasons given, in order. */
  ghost predicate IsMappingOf(m: Mapping, o: Offer) {
    var c := m.candidate;
    && c.offerKey == (if o.page == Current then "current:" else "preview:") + o.offerId
    && c.page == o.page && c.offerId == o.offerId && c.status == o.status && c.price == o.price
    && c.titleTokens == o.titleTokens && c.brandTokens == o.brandTokens
    && IsSorted(c.reviewReasons, StrLe)
    && multiset(c.reviewReasons) == multiset(Filter(o.reviewReasons, (r: string) => r != ""))
  }

  lemma {:induction false} SameNonEmpty(s: seq<string>)
    ensures Filter(s, NonEmpty) == Filter(s, (r: string) => r != "")
  {
    if s != [] { SameNonEmpty(s[1..]); }
  }

  lemma {:induction false} SameOffers(s: seq<Offer>)
    ensures Filter(s, IsTarget) == Filter(s, IsWanted)
  {
    if s != [] { SameOffers(s[1..]); }
  }

  lemma ViewIsMapping(o: Offer, cards: seq<Card>)
    ensures IsMappingOf(Decide(View(o), cards), o)
  {
    hide Sort, StrLe;
    MatchedHasCard(View(o), cards);
    ReasonsKept(o);
    SameNonEmpty(o.reviewReasons);
    assert (if o.page == Current then "current:" else "preview:") == PageName(o.page) + ":";
  }

  lemma CardsSortedUnique(cards: seq<Card>)
    requires UniqueCards(cards)
    ensures UniqueCards(SortedCards(cards)) && forall k :: k in SortedCards(cards) <==> k in cards
  {
    hide StrLe;
    SortMembers(cards, CardLe);
    var ids, sorted := Map(cards, (k: Card) => k.id), Map(SortedCards(cards), (k: Card) => k.id);
    MapPermuted(cards, SortedCards(cards), (k: Card) => k.id);
    assert NoDup(ids);
    NoDupPermuted(ids, sorted);
    forall i, j | 0 <= i < j < |cards| ensures SortedCards(cards)[i].id != SortedCards(cards)[j].id {
      assert sorted[i] != sorted[j];
    }
  }

  /** The mappings of a report are the decisions on the wanted offers, one each, in key order. */
  lemma ReportMappings(rows: seq<Offer>, cards: seq<Card>, expected: Option<map<Status, nat>>)
    ensures var ms := ParityReport(rows, cards, expected).mappings;
            && |ms| == |Filter(rows, IsWanted)|
            && (forall m | m in ms :: exists o | o in rows && IsWanted(o) ::
                  m == Decide(View(o), SortedCards(cards)) && IsMappingOf(m, o))
            && (forall o | o in rows && IsWanted(o) :: Decide(View(o), SortedCards(cards)) in ms)
            && forall i, j | 0 <= i < j < |ms| :: StrLe(ms[i].candidate.offerKey, ms[j].candidate.offerKey)
  {
    hide Decide, View, StrLe, IsMappingOf, SortedCards;
    var ms, all := ParityReport(rows, cards, expected).mappings, SortedCards(cards);
    var wanted := Filter(rows, IsTarget);
    var views := Map(wanted, View);
    var cands := Sort(views, CandidateLe);
    SameOffers(rows);
    SortMembers(views, CandidateLe);
    OrdersArePreorders();
    SortSorted(views, CandidateLe);
    assert ms == Mappings(cands, all);
    forall m | m in ms
      ensures exists o | o in rows && IsWanted(o) :: m == Decide(View(o), all) && IsMappingOf(m, o)
    {
      var i := IndexOf(ms, m);
      assert cands[i] in cands;
      var n := IndexOf(views, cands[i]);
      assert wanted[n] in wanted;
      ViewIsMapping(wanted[n], all);
    }
    forall o | o in rows && IsWanted(o) ensures Decide(View(o), all) in ms {
      var n := IndexOf(wanted, o);
      assert views[n] in views && views[n] in cands;
      var i := IndexOf(cands, views[n]);
      assert ms[i] == Decide(cands[i], all);
    }
    forall i, j | 0 <= i < j < |ms| ensures StrLe(ms[i].candidate.offerKey, ms[j].candidate.offerKey) {
      MatchedHasCard(cands[i], all);
      MatchedHasCard(cands[j], all);
      assert CandidateLe(cands[i], cands[j]);
    }
  }

  /** In the report of a run, the mapping m of an unlisted offer. */
  lemma UnlistedOffer(rows: seq<Offer>, cards: seq<Card>, expected: Option<map<Status, nat>>, o: Offer, m: Mapping)
    requires UniqueOffers(rows) && UniqueCards(cards) && o in rows && IsWanted(o)
    requires forall k | k in cards :: !Lists(k, o)
    requires m in ParityReport(rows, cards, expected).mappings && IsMappingOf(m, o)
    ensures forall k | k in cards :: m.status == Matched && m.cardId == Some(k.id) <==> FitsBest(o, cards, k)
    ensures m.status == Matched ==> exists k | k in cards :: Fits(o, k) && m.cardId == Some(k.id)
    ensures forall k | k in cards && Fits(o, k) && (forall d | d in cards && Fits(o, d) :: d == k) ::
              m.status == Matched && m.cardId == Some(k.id)
    ensures (forall k | k in cards :: !Fits(o, k)) <==> m.via == NoMatch
    ensures m.via == NoMatch ==> m.status != Matched
    ensures m.status != Matched ==>
              m.cardId == None && (m.status == ReviewUnmatched <==> o.status == ReviewRequired && HasReason(o))
  {
    hide Decide, View, Fits, FitsBest, IsMappingOf, HasReason, SortedCards, ParityReport, UniqueCards, Lists;
    OwnDecision(rows, cards, expected, o, m);
    CardsSortedUnique(cards);
    UnlistedDecision(o, SortedCards(cards));
    forall k ensures FitsBest(o, cards, k) <==> FitsBest(o, SortedCards(cards), k) {
      SameRivals(o, cards, SortedCards(cards), k);
    }
    forall k ensures FitsBest(o, cards, k) ==> Fits(o, k) { BestFits(o, cards, k); }
    forall k | k in cards && Fits(o, k) && (forall d | d in cards && Fits(o, d) :: d == k)
      ensures FitsBest(o, cards, k)
    {
      OnlyOneFits(o, cards, k);
    }
  }

  lemma SameRivals(o: Offer, a: seq<Card>, b: seq<Card>, k: Card)
    requires forall d :: d in a <==> d in b
    ensures FitsBest(o, a, k) <==> FitsBest(o, b, k)
  {
    hide Fits, Points, Rounded;
  }

  lemma BestFits(o: Offer, cards: seq<Card>, k: Card)
    ensures FitsBest(o, cards, k) ==> Fits(o, k)
  {
    hide Fits, Points, Rounded;
  }

  lemma OnlyOneFits(o: Offer, cards: seq<Card>, k: Card)
    requires Fits(o, k) && forall d | d in cards && Fits(o, d) :: d == k
    ensures FitsBest(o, cards, k)
  {
    hide Fits, Points, Rounded;
  }

  /** And of an offer that one card lists. */
  lemma ListedOffer(rows: seq<Offer>, cards: seq<Card>, expected: Option<map<Status, nat>>, o: Offer, m: Mapping,
                    k: Card)
    requires UniqueOffers(rows) && UniqueCards(cards) && o in rows && IsWanted(o)
    requires k in cards && Lists(k, o) && forall d | d in cards && d != k :: !Lists(d, o)
    requires m in ParityReport(rows, cards, expected).mappings && IsMappingOf(m, o)
    ensures m.cardId == Some(k.id) && m.via == ExplicitOfferId && m.score == None && m.candidateCardIds == [k.id]
    ensures m.status == if k.scope == OutOfScope then BlockedMatch else Matched
  {
    hide Decide, View, IsMappingOf, SortedCards;
    OwnDecision(rows, cards, expected, o, m);
    CardsSortedUnique(cards);
    ListedDecision(o, SortedCards(cards), k);
  }

  lemma OwnDecision(rows: seq<Offer>, cards: seq<Card>, expected: Option<map<Status, nat>>, o: Offer, m: Mapping)
    requires UniqueOffers(rows) && o in rows && m in ParityReport(rows, cards, expected).mappings && IsMappingOf(m, o)
    ensures m == Decide(View(o), SortedCards(cards))
  {
    hide Decide, View, SortedCards, ParityReport, IsMappingOf, OfferKey;
    ReportMappings(rows, cards, expected);
    var p :| p in rows && m == Decide(View(p), SortedCards(cards)) && IsMappingOf(m, p);
    OneOffer(m, o, p);
    var i := IndexOf(rows, o);
    var j := IndexOf(rows, p);
  }

  lemma OneOffer(m: Mapping, o: Offer, p: Offer)
    requires IsMappingOf(m, o) && IsMappingOf(m, p)
    ensures OfferKey(o.page, o.offerId) == OfferKey(p.page, p.offerId)
  {
  }
}
