/** Relabelling loses no card and counts none twice. */
module RelabellingConserves {
  import opened Sorting
  import opened ParityModel
  import opened CardLedger
  import opened GateC
  import opened GateCAgreement
  import opened PageRelabelling

  function NewIdOf(x: Carried): string {
    x.newId
  }

  function SourceIdOf(x: Carried): string {
    x.oldId
  }

  ghost predicate BindingsOf(bindings: map<nat, seq<OldCard>>, rs: seq<ReverseRow>) {
    forall page: nat :: CardsFor(bindings, page) == Bindings(rs, page)
  }

  ghost predicate InjectiveOn(pages: seq<nat>, carry: map<nat, Origin>) {
    forall p, q | p in pages && q in pages && p in carry && q in carry && carry[p].oldPage == carry[q].oldPage :: p == q
  }

  // ----- one page's bindings -----

  lemma {:induction false} CollectedMembers(rs: seq<ReverseRow>, page: nat, c: OldCard)
    ensures c in Collected(rs, page) <==> exists r | r in rs :: OnPreview(r, page) && c == KeptCard(r)
  {
    hide OnPreview, KeptCard;
    if rs != [] {
      var n := |rs| - 1;
      CollectedMembers(rs[..n], page, c);
      assert rs == rs[..n] + [rs[n]];
      forall r ensures r in rs <==> r in rs[..n] || r == rs[n] {}
    }
  }

  lemma NoDupConcat<T>(a: seq<T>, b: seq<T>)
    requires NoDup(a) && NoDup(b) && forall x | x in a :: x !in b
    ensures NoDup(a + b)
  {
    forall i, j | 0 <= i < j < |a + b| ensures (a + b)[i] != (a + b)[j] {
      if i < |a| <= j { assert a[i] in a && b[j - |a|] in b; }
    }
  }

  lemma DistinctCardsPrefix(rs: seq<ReverseRow>)
    requires DistinctCards(rs) && rs != []
    ensures DistinctCards(rs[..|rs| - 1])
    ensures forall r | r in rs[..|rs| - 1] :: r.cardId != rs[|rs| - 1].cardId
  {
  }

  lemma {:induction false} CollectedDistinct(rs: seq<ReverseRow>, page: nat)
    requires DistinctCards(rs)
    ensures NoDup(Map(Collected(rs, page), OldIdOf))
  {
    hide OnPreview;
    if rs != [] {
      var n := |rs| - 1;
      var before := Collected(rs[..n], page);
      DistinctCardsPrefix(rs);
      CollectedDistinct(rs[..n], page);
      forall x | x in Map(before, OldIdOf) ensures x !in [rs[n].cardId] {
        var i := IndexOf(Map(before, OldIdOf), x);
        CollectedMembers(rs[..n], page, before[i]);
      }
      NoDupConcat(Map(before, OldIdOf), [rs[n].cardId]);
      assert Map(before + [KeptCard(rs[n])], OldIdOf) == Map(before, OldIdOf) + [rs[n].cardId];
      assert before + [] == before;
    }
  }

  /** A page's bindings are exactly the preview rows of that page, each once. */
  lemma BindingsExact(rs: seq<ReverseRow>, page: nat)
    requires DistinctCards(rs)
    ensures forall c :: c in Bindings(rs, page) <==> exists r | r in rs :: OnPreview(r, page) && c == KeptCard(r)
    ensures NoDup(Map(Bindings(rs, page), OldIdOf))
  {
    hide Collected, OnPreview, KeptCard, OldCardLe, DistinctCards, NoDup;
    CollectedDistinct(rs, page);
    SortMembers(Collected(rs, page), OldCardLe);
    forall c ensures c in Bindings(rs, page) <==> exists r | r in rs :: OnPreview(r, page) && c == KeptCard(r) {
      CollectedMembers(rs, page, c);
    }
    MapPermuted(Collected(rs, page), Bindings(rs, page), OldIdOf);
    NoDupPermuted(Map(Collected(rs, page), OldIdOf), Map(Bindings(rs, page), OldIdOf));
  }

  lemma BoundId(rs: seq<ReverseRow>, page: nat, c: OldCard)
    requires DistinctCards(rs) && c in Bindings(rs, page)
    ensures ParseCardId(c.cardId).Some? && ParseCardId(c.cardId).value.page.Preview?
            && ParseCardId(c.cardId).value.number == page
  {
    hide ParseCardId, Bindings, DistinctCards;
    BindingsExact(rs, page);
  }

  /** Two cards of one old page that would get the same new ID are the same card. */
  lemma RelabelInjective(page: nat, a: string, b: string)
    requires page < 1000 && ParseCardId(a).Some? && ParseCardId(b).Some?
    requires ParseCardId(a).value.page == ParseCardId(b).value.page
             && ParseCardId(a).value.number == ParseCardId(b).value.number
    requires Relabel(page, a) == Relabel(page, b)
    ensures a == b
  {
    hide ParseCardId, Relabel, FormatCardId;
    RelabelKeepsOrdinal(page, a);
    RelabelKeepsOrdinal(page, b);
    ParsedIdBounds(a);
    CardIdRoundTrip(ParseCardId(a).value, a);
    CardIdRoundTrip(ParseCardId(b).value, b);
  }

  lemma PageIdsDistinct(rs: seq<ReverseRow>, page: nat, oldPage: nat)
    requires DistinctCards(rs) && page < 1000
    ensures var xs := CarryPage(page, oldPage, Bindings(rs, oldPage));
            NoDup(Map(xs, NewIdOf)) && NoDup(Map(xs, SourceIdOf))
  {
    hide ParseCardId, Relabel, Bindings, DistinctCards;
    var cards := Bindings(rs, oldPage);
    BindingsExact(rs, oldPage);
    forall i, j | 0 <= i < j < |cards|
      ensures cards[i].cardId != cards[j].cardId && Relabel(page, cards[i].cardId) != Relabel(page, cards[j].cardId)
    {
      assert Map(cards, OldIdOf)[i] != Map(cards, OldIdOf)[j];
      BoundId(rs, oldPage, cards[i]);
      BoundId(rs, oldPage, cards[j]);
      if Relabel(page, cards[i].cardId) == Relabel(page, cards[j].cardId) {
        RelabelInjective(page, cards[i].cardId, cards[j].cardId);
      }
    }
  }

  // ----- the whole list -----

  /** x carries card c from the old page of p. */
  ghost predicate Carries(x: Carried, p: nat, carry: map<nat, Origin>, rs: seq<ReverseRow>) {
    && p in carry && p < 1000
    && exists r | r in rs :: OnPreview(r, carry[p].oldPage) && x == CarryCard(p, carry[p].oldPage, KeptCard(r))
  }

  lemma CarriedOnMembers(page: nat, carry: map<nat, Origin>, bindings: map<nat, seq<OldCard>>, rs: seq<ReverseRow>,
                         x: Carried)
    requires BindingsOf(bindings, rs) && DistinctCards(rs) && page < 1000
    ensures x in CarriedOn(page, carry, bindings) <==> Carries(x, page, carry, rs)
  {
    hide OnPreview, KeptCard, Bindings, Relabel, DistinctCards;
    if page in carry {
      var source := carry[page].oldPage;
      BindingsExact(rs, source);
      var cards := Bindings(rs, source);
      if x in CarriedOn(page, carry, bindings) {
        var i := IndexOf(CarryPage(page, source, cards), x);
        assert cards[i] in cards;
      }
      if Carries(x, page, carry, rs) {
        var r :| r in rs && OnPreview(r, source) && x == CarryCard(page, source, KeptCard(r));
        var i := IndexOf(cards, KeptCard(r));
        assert CarryPage(page, source, cards)[i] == x;
      }
    }
  }

  /** Exactly the preview cards of the carried pages appear. */
  lemma {:induction false} CarriedMembers(pages: seq<nat>, carry: map<nat, Origin>, bindings: map<nat, seq<OldCard>>,
                                          rs: seq<ReverseRow>, x: Carried)
    requires BindingsOf(bindings, rs) && DistinctCards(rs) && PagesSmall(pages)
    ensures x in CarriedAll(pages, carry, bindings) <==> exists p | p in pages :: Carries(x, p, carry, rs)
  {
    hide Carries, CarriedOn, BindingsOf, DistinctCards;
    if pages != [] {
      var n := |pages| - 1;
      CarriedMembers(pages[..n], carry, bindings, rs, x);
      CarriedOnMembers(pages[n], carry, bindings, rs, x);
      assert pages == pages[..n] + [pages[n]];
      forall p ensures p in pages <==> p in pages[..n] || p == pages[n] {}
    }
  }

  lemma CarriedFacts(x: Carried, p: nat, carry: map<nat, Origin>, rs: seq<ReverseRow>)
    requires Carries(x, p, carry, rs)
    ensures ParseCardId(x.newId).Some? && ParseCardId(x.newId).value.number == p
    ensures ParseCardId(x.oldId).Some? && ParseCardId(x.oldId).value.number == carry[p].oldPage
    ensures x.newPage == p && x.oldPage == carry[p].oldPage
  {
    hide ParseCardId, Relabel;
    var r :| r in rs && OnPreview(r, carry[p].oldPage) && x == CarryCard(p, carry[p].oldPage, KeptCard(r));
    RelabelKeepsOrdinal(p, r.cardId);
  }

  lemma NoDupFront(pages: seq<nat>)
    requires NoDup(pages) && pages != []
    ensures NoDup(pages[..|pages| - 1]) && pages[|pages| - 1] !in pages[..|pages| - 1]
  {
  }

  /** New IDs are unique whatever the carry map; old IDs are unique when no two new pages carry one old page. */
  lemma {:induction false} CarriedDistinct(pages: seq<nat>, carry: map<nat, Origin>, bindings: map<nat, seq<OldCard>>,
                                           rs: seq<ReverseRow>)
    requires BindingsOf(bindings, rs) && DistinctCards(rs) && PagesSmall(pages) && NoDup(pages)
    ensures NoDup(Map(CarriedAll(pages, carry, bindings), NewIdOf))
    ensures InjectiveOn(pages, carry) ==> NoDup(Map(CarriedAll(pages, carry, bindings), SourceIdOf))
  {
    hide Carries, BindingsOf, DistinctCards, ParseCardId, NoDup;
    if pages == [] {
      NothingTwice();
    } else {
      var n := |pages| - 1;
      NoDupFront(pages);
      var before, last := CarriedAll(pages[..n], carry, bindings), CarriedOn(pages[n], carry, bindings);
      CarriedDistinct(pages[..n], carry, bindings, rs);
      LastPageDistinct(pages[n], carry, bindings, rs);
      forall x, y | x in before && y in last
        ensures x.newId != y.newId && (InjectiveOn(pages, carry) ==> x.oldId != y.oldId)
      {
        PagesApart(pages, carry, bindings, rs, x, y);
      }
      Joined(before, last, NewIdOf);
      if InjectiveOn(pages, carry) {
        InjectiveFront(pages, carry);
        Joined(before, last, SourceIdOf);
      }
    }
  }

  lemma NothingTwice()
    ensures NoDup(Map([], NewIdOf)) && NoDup(Map([], SourceIdOf))
  {
  }

  lemma InjectiveFront(pages: seq<nat>, carry: map<nat, Origin>)
    requires InjectiveOn(pages, carry) && pages != []
    ensures InjectiveOn(pages[..|pages| - 1], carry)
  {
  }

  lemma Meeting<T>(a: seq<Carried>, b: seq<Carried>, f: Carried -> T, v: T) returns (x: Carried, y: Carried)
    requires v in Map(a, f) && v in Map(b, f)
    ensures x in a && y in b && f(x) == v == f(y)
  {
    var i := IndexOf(Map(a, f), v);
    var j := IndexOf(Map(b, f), v);
    x, y := a[i], b[j];
  }

  lemma Joined<T>(a: seq<Carried>, b: seq<Carried>, f: Carried -> T)
    requires NoDup(Map(a, f)) && NoDup(Map(b, f)) && forall x, y | x in a && y in b :: f(x) != f(y)
    ensures NoDup(Map(a + b, f))
  {
    hide NoDup;
    forall v | v in Map(a, f) ensures v !in Map(b, f) {
      if v in Map(b, f) { var x, y := Meeting(a, b, f, v); }
    }
    NoDupConcat(Map(a, f), Map(b, f));
    assert Map(a + b, f) == Map(a, f) + Map(b, f);
  }

  lemma LastPageDistinct(page: nat, carry: map<nat, Origin>, bindings: map<nat, seq<OldCard>>, rs: seq<ReverseRow>)
    requires BindingsOf(bindings, rs) && DistinctCards(rs) && page < 1000
    ensures NoDup(Map(CarriedOn(page, carry, bindings), NewIdOf))
            && NoDup(Map(CarriedOn(page, carry, bindings), SourceIdOf))
  {
    hide DistinctCards, Bindings, Relabel, NoDup;
    NothingTwice();
    if page in carry { PageIdsDistinct(rs, page, carry[page].oldPage); }
  }

  lemma PagesApart(pages: seq<nat>, carry: map<nat, Origin>, bindings: map<nat, seq<OldCard>>, rs: seq<ReverseRow>,
                   x: Carried, y: Carried)
    requires BindingsOf(bindings, rs) && DistinctCards(rs) && PagesSmall(pages) && NoDup(pages) && pages != []
    requires x in CarriedAll(pages[..|pages| - 1], carry, bindings)
             && y in CarriedOn(pages[|pages| - 1], carry, bindings)
    ensures x.newId != y.newId
    ensures InjectiveOn(pages, carry) ==> x.oldId != y.oldId
  {
    hide Carries, CarriedAll, CarriedOn, BindingsOf, DistinctCards, ParseCardId, NoDup;
    var n := |pages| - 1;
    NoDupFront(pages);
    CarriedMembers(pages[..n], carry, bindings, rs, x);
    CarriedOnMembers(pages[n], carry, bindings, rs, y);
    var p :| p in pages[..n] && Carries(x, p, carry, rs);
    CarriedFacts(x, p, carry, rs);
    CarriedFacts(y, pages[n], carry, rs);
    InBoth(x, p, y, pages[n], carry, rs);
    assert p in pages && pages[n] in pages;
  }

  lemma InBoth(x: Carried, p: nat, y: Carried, q: nat, carry: map<nat, Origin>, rs: seq<ReverseRow>)
    requires Carries(x, p, carry, rs) && Carries(y, q, carry, rs)
    ensures p in carry && q in carry
  {
  }

  /** The work package holds every preview card of a carried page exactly once, under a new ID of its own, with the
    * offer keys the bundle matched to it. */
  lemma RelabellingIsExact(pages: seq<nat>, carry: map<nat, Origin>, bindings: map<nat, seq<OldCard>>,
                           rs: seq<ReverseRow>)
    requires BindingsOf(bindings, rs) && DistinctCards(rs) && PagesSmall(pages) && NoDup(pages)
    ensures var carried := Sort(CarriedAll(pages, carry, bindings), CarriedLe);
            && (forall x :: x in carried <==> exists p | p in pages :: Carries(x, p, carry, rs))
            && NoDup(Map(carried, NewIdOf))
            && (InjectiveOn(pages, carry) ==> NoDup(Map(carried, SourceIdOf)))
  {
    hide Carries, CarriedAll, BindingsOf, DistinctCards, NoDup, CarriedLe, PagesSmall, InjectiveOn;
    var all := CarriedAll(pages, carry, bindings);
    var carried := Sort(all, CarriedLe);
    SortMembers(all, CarriedLe);
    forall x ensures x in carried <==> exists p | p in pages :: Carries(x, p, carry, rs) {
      CarriedMembers(pages, carry, bindings, rs, x);
    }
    CarriedDistinct(pages, carry, bindings, rs);
    MapPermuted(all, carried, NewIdOf);
    NoDupPermuted(Map(all, NewIdOf), Map(carried, NewIdOf));
    MapPermuted(all, carried, SourceIdOf);
    if InjectiveOn(pages, carry) { NoDupPermuted(Map(all, SourceIdOf), Map(carried, SourceIdOf)); }
  }

  /** With an accepted bundle and an injective carry map no offer key is carried by two cards. */
  lemma OfferKeyCarriedOnce(b: Report, expected: map<Status, nat>, pages: seq<nat>, carry: map<nat, Origin>,
                            x: Carried, y: Carried, p: nat, q: nat, key: string)
    requires CoreAccepts(b, expected) && InjectiveOn(pages, carry)
    requires p in pages && q in pages && Carries(x, p, carry, b.reverse) && Carries(y, q, carry, b.reverse)
    requires key in x.keys && key in y.keys
    ensures x == y
  {
    hide ParseCardId, Relabel, MatchedKeys, SameKeys, GateCardId, TargetCounts, HasDup, SummaryOk, MappingRowOk;
    var r :| r in b.reverse && OnPreview(r, carry[p].oldPage) && x == CarryCard(p, carry[p].oldPage, KeptCard(r));
    var s :| s in b.reverse && OnPreview(s, carry[q].oldPage) && y == CarryCard(q, carry[q].oldPage, KeptCard(s));
    SortMembers(r.matchedKeys, StrLe);
    SortMembers(s.matchedKeys, StrLe);
    KeyNamesCard(b, expected, r, s, key);
  }

  /** One offer key is listed under one reverse row only. */
  lemma KeyNamesCard(b: Report, expected: map<Status, nat>, r: ReverseRow, s: ReverseRow, key: string)
    requires CoreAccepts(b, expected) && r in b.reverse && s in b.reverse && key in r.matchedKeys
             && key in s.matchedKeys
    ensures r == s
  {
    hide MatchedKeys, SameKeys, GateCardId, TargetCounts, HasDup, SummaryOk, MappingRowOk;
    var ms := b.mappings;
    assert ReverseRowOk(r, ms) && ReverseRowOk(s, ms);
    SameKeysMembers(r.matchedKeys, MatchedKeys(ms, r.cardId));
    SameKeysMembers(s.matchedKeys, MatchedKeys(ms, s.cardId));
    MatchedKeysSource(ms, r.cardId);
    MatchedKeysSource(ms, s.cardId);
    var i :| 0 <= i < |ms| && MatchedTo(ms[i], r.cardId) && ms[i].candidate.offerKey == key;
    var j :| 0 <= j < |ms| && MatchedTo(ms[j], s.cardId) && ms[j].candidate.offerKey == key;
    assert i == j;
    var a := IndexOf(b.reverse, r);
    var c := IndexOf(b.reverse, s);
    assert a == c;
  }
}
