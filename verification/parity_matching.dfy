/** When a parity run matches an offer that no card claims: the ten-point lead, and what scores can decide it. */
module ParityMatching {
  import opened Foundations
  import opened Sorting
  import opened ParityModel
  import opened ParityRun

  // ----- score bounds -----

  lemma HitsPositive(c: Candidate, k: Card)
    requires Score(c, k).Some?
    ensures |TokenSet(c.titleTokens)| > 0 && ScoreDen(c) > 0
    ensures TokenSet(c.brandTokens) == {} ==> BrandHits(c, k) == 0
  {
    ScoreDenPositive(c);
  }

  /** The exact score lies between these bounds, in points. */
  lemma ScoreRange(c: Candidate, k: Card)
    requires Score(c, k).Some?
    ensures 80 * ScoreDen(c) <= ScoreNum(c, k)
    ensures ScoreNum(c, k) <= (if PriceMatch(c, k) then 125 else 105) * ScoreDen(c)
    ensures PriceMatch(c, k) && TitleHits(c, k) == |TokenSet(c.titleTokens)| ==> ScoreNum(c, k) >= 120 * ScoreDen(c)
  {
    HitsPositive(c, k);
    var n, m := |TokenSet(c.titleTokens)|, |TokenSet(c.brandTokens)|;
    RangeOfNumbers(TitleHits(c, k), n, BrandHits(c, k), if m == 0 then 1 else m, PriceMatch(c, k));
  }

  /** The same bounds for title recall t/n and brand overlap b/d. */
  lemma RangeOfNumbers(t: nat, n: nat, b: nat, d: nat, equalPrice: bool)
    requires t <= n && b <= d
    requires (equalPrice && 5 * t >= 3 * n) || 20 * t >= 17 * n
    ensures var x := 100 * (t * d) + (if equalPrice then 20 * (n * d) else 0) + 5 * (b * n);
            && 80 * (n * d) <= x <= (if equalPrice then 125 else 105) * (n * d)
            && (equalPrice && t == n ==> x >= 120 * (n * d))
  {
    var td: nat, nd: nat, bn: nat := t * d, n * d, b * n;
    assert td <= nd by { MulMono(t, n, d); }
    assert bn <= nd by { MulMono(b, d, n); assert d * n == n * d; }
    assert 100 * td + (if equalPrice then 20 * nd else 0) >= 80 * nd by {
      if 20 * t >= 17 * n { Ratio(17, n, 20, t, d); } else { Ratio(3, n, 5, t, d); }
    }
  }

  lemma Ratio(p: nat, a: nat, q: nat, b: nat, d: nat)
    requires p * a <= q * b
    ensures p * (a * d) <= q * (b * d)
  {
    MulMono(p * a, q * b, d);
    Scale(p, a, d);
    Scale(q, b, d);
  }

  lemma MulMono(a: nat, b: nat, d: nat)
    requires a <= b
    ensures a * d <= b * d
  {
    if a < b { MulLt(a, b, d); }
  }

  lemma Scale(k: nat, a: nat, d: nat)
    ensures (k * a) * d == k * (a * d)
  {
  }

  /** Every eligible score is between 80 and 125 points; equal prices with full title recall give at least 120,
      different or missing prices at most 105. */
  lemma ScoreBounds(c: Candidate, k: Card)
    requires Score(c, k).Some?
    ensures var s := Score(c, k).value;
            && 80_000_000 <= s.score <= 125_000_000
            && (!s.priceMatch ==> s.score <= 105_000_000)
            && (s.priceMatch && s.titleRecall == 1_000_000 && TitleHits(c, k) == |TokenSet(c.titleTokens)|
                ==> s.score >= 120_000_000)
  {
    ScoreRange(c, k);
    HitsPositive(c, k);
    var d, x := ScoreDen(c), ScoreNum(c, k);
    var hi := if PriceMatch(c, k) then 125_000_000 else 105_000_000;
    RoundHalfEvenBounds(1_000_000 * x, d, 80_000_000, hi);
    if PriceMatch(c, k) && TitleHits(c, k) == |TokenSet(c.titleTokens)| {
      RoundHalfEvenBounds(1_000_000 * x, d, 120_000_000, hi);
    }
  }

  // ----- ranking -----

  lemma ScoredLeIsPreorder()
    ensures IsPreorder(ScoredLe)
  {
    OrdersArePreorders();
  }

  /** The scored list has one entry per eligible card, in card order. */
  lemma {:induction false} ScoredEntries(c: Candidate, cards: seq<Card>)
    ensures forall e :: e in ScoredCards(c, cards)
                        <==> exists i | 0 <= i < |cards| ::
                          Score(c, cards[i]) == Some(e.detail) && e.cardId == cards[i].id
    ensures UniqueCards(cards) ==> NoDup(ScoredCards(c, cards))
  {
    hide Score;
    if cards != [] {
      var rest, k := cards[..|cards| - 1], cards[|cards| - 1];
      ScoredEntries(c, rest);
      forall e ensures e in ScoredCards(c, cards)
          <==> exists i | 0 <= i < |cards| :: Score(c, cards[i]) == Some(e.detail) && e.cardId == cards[i].id {
        if e in ScoredCards(c, rest) {
          var i :| 0 <= i < |rest| && Score(c, rest[i]) == Some(e.detail) && e.cardId == rest[i].id;
          assert rest[i] == cards[i];
        }
        if i :| 0 <= i < |cards| && Score(c, cards[i]) == Some(e.detail) && e.cardId == cards[i].id {
          if i < |rest| { assert rest[i] == cards[i]; }
        }
      }
      if UniqueCards(cards) {
        assert UniqueCards(rest);
        forall e | e in ScoredCards(c, rest) ensures e.cardId != k.id {
          var i :| 0 <= i < |rest| && Score(c, rest[i]) == Some(e.detail) && e.cardId == rest[i].id;
          assert cards[i].id != cards[|cards| - 1].id;
        }
      }
    }
  }

  ghost predicate LeadsAllOthers(c: Candidate, cards: seq<Card>, k: Card) {
    && Score(c, k).Some?
    && forall d | d in cards && d != k && Score(c, d).Some? ::
         Score(c, k).value.score >= Score(c, d).value.score + LEAD
  }

  lemma UniqueIds(cards: seq<Card>, a: Card, b: Card)
    requires UniqueCards(cards) && a in cards && b in cards && a.id == b.id
    ensures a == b
  {
  }

  function Ranked(c: Candidate, cards: seq<Card>): seq<Scored> {
    Sort(ScoredCards(c, cards), ScoredLe)
  }

  /** Entry e of the scored list was made for card k. */
  ghost predicate EntryFor(c: Candidate, cards: seq<Card>, e: Scored, k: Card) {
    k in cards && Score(c, k) == Some(e.detail) && e.cardId == k.id
  }

  lemma RankedOrder(c: Candidate, cards: seq<Card>)
    requires UniqueCards(cards)
    ensures NoDup(Ranked(c, cards)) && IsSorted(Ranked(c, cards), ScoredLe)
  {
    hide Score, ScoredCards;
    ScoredEntries(c, cards);
    NoDupPermuted(ScoredCards(c, cards), Ranked(c, cards));
    ScoredLeIsPreorder();
    SortSorted(ScoredCards(c, cards), ScoredLe);
  }

  lemma CardOfEntry(c: Candidate, cards: seq<Card>, e: Scored) returns (k: Card)
    requires e in Ranked(c, cards)
    ensures EntryFor(c, cards, e, k)
  {
    hide Score, ScoredCards, Sort;
    ScoredEntries(c, cards);
    SortMembers(ScoredCards(c, cards), ScoredLe);
    var i :| 0 <= i < |cards| && Score(c, cards[i]) == Some(e.detail) && e.cardId == cards[i].id;
    k := cards[i];
  }

  lemma EntryOfCard(c: Candidate, cards: seq<Card>, k: Card)
    requires k in cards && Score(c, k).Some?
    ensures Scored(Score(c, k).value, k.id) in Ranked(c, cards)
  {
    hide Score, ScoredCards, Sort;
    ScoredEntries(c, cards);
    SortMembers(ScoredCards(c, cards), ScoredLe);
    var i := IndexOf(cards, k);
    assert Scored(Score(c, k).value, k.id) in ScoredCards(c, cards);
  }

  lemma LeaderIsFirst(c: Candidate, cards: seq<Card>, k: Card)
    requires UniqueCards(cards) && k in cards && LeadsAllOthers(c, cards, k)
    ensures HasUniqueBest(Ranked(c, cards)) && Ranked(c, cards)[0] == Scored(Score(c, k).value, k.id)
  {
    hide Score, Ranked;
    var ranked := Ranked(c, cards);
    RankedOrder(c, cards);
    EntryOfCard(c, cards, k);
    var p := IndexOf(ranked, Scored(Score(c, k).value, k.id));
    var first := CardOfEntry(c, cards, ranked[0]);
    assert p > 0 ==> ScoredLe(ranked[0], ranked[p]);
    assert first == k;
    if |ranked| > 1 {
      var second := CardOfEntry(c, cards, ranked[1]);
      assert ranked[0] != ranked[1];
    }
  }

  lemma FirstIsLeader(c: Candidate, cards: seq<Card>, k: Card)
    requires UniqueCards(cards) && k in cards
    requires HasUniqueBest(Ranked(c, cards)) && Ranked(c, cards)[0].cardId == k.id
    ensures LeadsAllOthers(c, cards, k)
  {
    hide Score, Ranked;
    var ranked := Ranked(c, cards);
    RankedOrder(c, cards);
    var first := CardOfEntry(c, cards, ranked[0]);
    UniqueIds(cards, first, k);
    forall d | d in cards && d != k && Score(c, d).Some?
      ensures Score(c, k).value.score >= Score(c, d).value.score + LEAD
    {
      EntryOfCard(c, cards, d);
      var q := IndexOf(ranked, Scored(Score(c, d).value, d.id));
      if q == 0 { UniqueIds(cards, d, k); }
      if q > 1 { assert ScoredLe(ranked[1], ranked[q]); }
    }
  }

  /** An unclaimed offer is matched to a card iff that card is eligible and scores at least ten points
      above every other eligible card; it is matched to no card at all iff there is no such card. */
  lemma MatchedIffLeads(c: Candidate, cards: seq<Card>, k: Card)
    requires UniqueCards(cards) && ClaimedBy(c.offerKey, cards).None?
    ensures k in cards ==> (MatchedTo(Decide(c, cards), k.id) <==> LeadsAllOthers(c, cards, k))
    ensures Decide(c, cards).status.Matched? <==> exists d | d in cards :: LeadsAllOthers(c, cards, d)
  {
    hide Score, ScoredCards, ClaimedBy, Sort;
    if k in cards && LeadsAllOthers(c, cards, k) { LeaderIsFirst(c, cards, k); }
    var ranked := Ranked(c, cards);
    if HasUniqueBest(ranked) {
      var first := CardOfEntry(c, cards, ranked[0]);
      FirstIsLeader(c, cards, first);
      if k in cards && ranked[0].cardId == k.id { FirstIsLeader(c, cards, k); }
    }
    if d :| d in cards && LeadsAllOthers(c, cards, d) { LeaderIsFirst(c, cards, d); }
  }

  /** A card with the offer's price and every title token decides alone among cards of other prices:
      if it has no rival with the same price, it is the match. */
  lemma FullRecallPriceMatchWins(c: Candidate, cards: seq<Card>, k: Card)
    requires UniqueCards(cards) && ClaimedBy(c.offerKey, cards).None? && k in cards
    requires Score(c, k).Some? && PriceMatch(c, k) && TitleHits(c, k) == |TokenSet(c.titleTokens)|
    requires forall d | d in cards && d != k && Score(c, d).Some? :: !PriceMatch(c, d)
    ensures MatchedTo(Decide(c, cards), k.id)
  {
    FullRecall(c, k);
    ScoreBounds(c, k);
    forall d | d in cards && d != k && Score(c, d).Some?
      ensures Score(c, k).value.score >= Score(c, d).value.score + LEAD
    {
      ScoreBounds(c, d);
      ScorePrice(c, d);
    }
    MatchedIffLeads(c, cards, k);
  }

  lemma ScorePrice(c: Candidate, k: Card)
    requires Score(c, k).Some?
    ensures Score(c, k).value.priceMatch == PriceMatch(c, k)
  {
  }

  lemma FullRecall(c: Candidate, k: Card)
    requires Score(c, k).Some? && TitleHits(c, k) == |TokenSet(c.titleTokens)|
    ensures Score(c, k).value.titleRecall == 1_000_000 && Score(c, k).value.priceMatch == PriceMatch(c, k)
  {
    HitsPositive(c, k);
    RoundHalfEvenExact(1_000_000, |TokenSet(c.titleTokens)|);
  }

  /** Cards of another price cannot displace such a card or make it ambiguous: with or without them the offer
      goes to it or to no card. */
  lemma OtherPricesNeverInterfere(c: Candidate, cards: seq<Card>, more: seq<Card>, k: Card)
    requires UniqueCards(cards) && UniqueCards(cards + more)
    requires ClaimedBy(c.offerKey, cards).None? && ClaimedBy(c.offerKey, cards + more).None?
    requires k in cards && Score(c, k).Some? && PriceMatch(c, k) && TitleHits(c, k) == |TokenSet(c.titleTokens)|
    requires forall d | d in more && Score(c, d).Some? :: !PriceMatch(c, d)
    ensures MatchedTo(Decide(c, cards + more), k.id) <==> MatchedTo(Decide(c, cards), k.id)
    ensures Decide(c, cards + more).status.Matched? ==> MatchedTo(Decide(c, cards + more), k.id)
  {
    hide Score, Decide, ClaimedBy;
    var all := cards + more;
    MatchedIffLeads(c, cards, k);
    MatchedIffLeads(c, all, k);
    FullRecall(c, k);
    ScoreBounds(c, k);
    forall d | d in more && d != k && Score(c, d).Some?
      ensures Score(c, k).value.score >= Score(c, d).value.score + LEAD
    {
      ScoreBounds(c, d);
      ScorePrice(c, d);
    }
    if d :| d in all && LeadsAllOthers(c, all, d) {
      ScoreBounds(c, d);
      assert d == k;
    }
  }
}
