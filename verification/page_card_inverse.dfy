/** What the page/card gate's acceptance means: declared candidate lists are the preimages of the card assignment. */
module PageCardInverse {
  import opened Sorting
  import opened Regions
  import opened PageCardRows
  import opened PageCardGate

  /** Some candidate with this ID names this card. */
  ghost predicate Bound(cands: seq<Candidate>, id: string, x: string) {
    exists c | c in cands :: c.cardId == id && c.id == x
  }

  /** Every candidate names a card of its own route, and each card lists exactly the candidates that name it. */
  ghost predicate IsInverse(cands: seq<Candidate>, cards: seq<Card<Region>>) {
    && (forall c | c in cands :: exists k | k in cards :: k.id == c.cardId && k.route == CardRoute(c.route))
    && (forall k, x | k in cards :: x in k.candidateIds <==> Bound(cands, k.id, x))
  }

  ghost predicate RowsOk(cands: seq<Candidate>, cards: seq<Card<Region>>, pageCount: int) {
    && (forall c | c in cands :: CandidateOk(c, pageCount))
    && (forall k | k in cards :: CardOk(k, pageCount) && IsSorted(k.candidateIds, StrLe))
    && NoDup(Map(cands, CandidateKey)) && NoDup(Map(cards, CardKey))
  }

  lemma {:induction false} ReferencesMembers(cands: seq<Candidate>, id: string, x: string)
    ensures x in References(cands, id) <==> Bound(cands, id, x)
  {
    if cands != [] {
      var n := |cands| - 1;
      ReferencesMembers(cands[..n], id, x);
      assert cands == cands[..n] + [cands[n]];
      forall c ensures c in cands <==> c in cands[..n] || c == cands[n] {}
    }
  }

  lemma {:induction false} ReferencesDistinct(cands: seq<Candidate>, id: string)
    requires NoDup(Map(cands, CandidateKey))
    ensures NoDup(References(cands, id))
  {
    if cands != [] {
      var n := |cands| - 1;
      var keys := Map(cands, CandidateKey);
      assert Map(cands[..n], CandidateKey) == keys[..n];
      NoDupPrefix(keys, n);
      ReferencesDistinct(cands[..n], id);
      ReferencesMembers(cands[..n], id, cands[n].id);
      LastKeyIsNew(cands, id);
      NoDupAppend(References(cands[..n], id), cands[n].id);
      assert References(cands[..n], id) + [] == References(cands[..n], id);
    }
  }

  lemma LastKeyIsNew(cands: seq<Candidate>, id: string)
    requires NoDup(Map(cands, CandidateKey)) && cands != []
    ensures !Bound(cands[..|cands| - 1], id, cands[|cands| - 1].id)
  {
    var n := |cands| - 1;
    forall c | c in cands[..n] ensures c.id != cands[n].id {
      var i := IndexOf(cands[..n], c);
      assert Map(cands, CandidateKey)[i] != Map(cands, CandidateKey)[n];
    }
  }

  /** A sorted list without repetitions is the sorted arrangement of any such list with the same members. */
  lemma SortedListIff(declared: seq<string>, observed: seq<string>)
    requires IsSorted(declared, StrLe) && NoDup(declared) && NoDup(observed)
    ensures declared == Sort(observed, StrLe) <==> forall x :: x in declared <==> x in observed
  {
    SortMembers(observed, StrLe);
    if forall x :: x in declared <==> x in observed {
      NoDupCount(declared);
      NoDupCount(observed);
      forall x ensures multiset(declared)[x] == multiset(observed)[x] {
        assert x in multiset(declared) <==> x in declared;
        assert x in multiset(observed) <==> x in observed;
      }
      assert multiset(declared) == multiset(observed);
      StrLeIsPreorder();
      StringsIdentified(declared);
      SortSorted(observed, StrLe);
      SortedUnique(declared, Sort(observed, StrLe), StrLe);
    }
  }

  /** The page and scope comparisons of the forward loop follow from the row checks once card and route agree. */
  lemma PageAndScopeImplied(c: Candidate, k: Card<Region>, pageCount: int)
    requires CandidateOk(c, pageCount) && CardOk(k, pageCount) && k.id == c.cardId
    ensures Fits(c, k) <==> k.route == CardRoute(c.route)
  {
  }

  /** In the reverse loop only the list comparison decides: an in-scope card cannot be unexplained and a declared
    * candidate cannot be unknown. */
  lemma LaterChecksImplied(k: Card<Region>, cands: seq<Candidate>, pageCount: int)
    requires CardOk(k, pageCount)
    ensures ReverseOk(k, cands) <==> k.candidateIds == Sort(References(cands, k.id), StrLe)
  {
    if k.candidateIds == Sort(References(cands, k.id), StrLe) {
      SortMembers(References(cands, k.id), StrLe);
      forall x | x in k.candidateIds ensures x in Map(cands, CandidateKey) {
        ReferencesMembers(cands, k.id, x);
        var c :| c in cands && c.cardId == k.id && c.id == x;
        var i := IndexOf(cands, c);
        assert Map(cands, CandidateKey)[i] == x;
      }
    }
  }

  lemma ReverseIffPreimage(k: Card<Region>, cands: seq<Candidate>, pageCount: int)
    requires CardOk(k, pageCount) && IsSorted(k.candidateIds, StrLe) && NoDup(Map(cands, CandidateKey))
    ensures ReverseOk(k, cands) <==> forall x :: x in k.candidateIds <==> Bound(cands, k.id, x)
  {
    hide ReverseOk, Sort, References, Bound;
    LaterChecksImplied(k, cands, pageCount);
    ReferencesDistinct(cands, k.id);
    SortedListIff(k.candidateIds, References(cands, k.id));
    forall x ensures x in References(cands, k.id) <==> Bound(cands, k.id, x) { ReferencesMembers(cands, k.id, x); }
  }

  lemma ForwardIffRoute(c: Candidate, cands: seq<Candidate>, cards: seq<Card<Region>>, pageCount: int)
    requires RowsOk(cands, cards, pageCount) && c in cands
    ensures ForwardOk(c, cards) <==> exists k | k in cards :: k.id == c.cardId && k.route == CardRoute(c.route)
  {
    hide CandidateOk, CardOk, Fits, NoDup, IsSorted;
    forall k | k in cards && k.id == c.cardId ensures Fits(c, k) <==> k.route == CardRoute(c.route) {
      PageAndScopeImplied(c, k, pageCount);
    }
  }

  /** The two-way check accepts exactly the lists that are inverse to each other. */
  lemma RelationIffInverse(cands: seq<Candidate>, cards: seq<Card<Region>>, pageCount: int)
    requires RowsOk(cands, cards, pageCount)
    ensures RelationOk(cands, cards) <==> IsInverse(cands, cards)
  {
    hide ReverseOk, ForwardOk, CandidateOk, CardOk, Bound, CardRoute;
    forall c | c in cands
      ensures ForwardOk(c, cards) <==> exists k | k in cards :: k.id == c.cardId && k.route == CardRoute(c.route)
    {
      ForwardIffRoute(c, cands, cards, pageCount);
    }
    forall k | k in cards ensures ReverseOk(k, cands) <==> forall x :: x in k.candidateIds <==> Bound(cands, k.id, x) {
      ReverseIffPreimage(k, cands, pageCount);
    }
  }

  // ----- the counts balance route by route -----

  function CountRoute(cands: seq<Candidate>, route: string): nat {
    if cands == [] then 0
    else CountRoute(cands[..|cands| - 1], route) + (if CardRoute(cands[|cands| - 1].route) == route then 1 else 0)
  }

  function CardsOnRoute(cards: seq<Card<Region>>, route: string): nat {
    if cards == [] then 0 else (if cards[0].route == route then 1 else 0) + CardsOnRoute(cards[1..], route)
  }

  /** Candidates declared by the cards of one route, added up. */
  function Declared(cards: seq<Card<Region>>, route: string): nat {
    if cards == [] then 0
    else (if cards[0].route == route then |cards[0].candidateIds| else 0) + Declared(cards[1..], route)
  }

  function Referenced(cards: seq<Card<Region>>, cands: seq<Candidate>, route: string): nat {
    if cards == [] then 0
    else (if cards[0].route == route then |References(cands, cards[0].id)| else 0)
         + Referenced(cards[1..], cands, route)
  }

  ghost predicate OnRoute(cards: seq<Card<Region>>, id: string, route: string) {
    exists k | k in cards :: k.id == id && k.route == route
  }

  lemma DistinctTail(cards: seq<Card<Region>>)
    requires NoDup(Map(cards, CardKey)) && cards != []
    ensures NoDup(Map(cards[1..], CardKey))
    ensures forall k | k in cards[1..] :: k.id != cards[0].id
  {
    var keys := Map(cards, CardKey);
    forall i, j | 0 <= i < j < |cards| - 1 ensures Map(cards[1..], CardKey)[i] != Map(cards[1..], CardKey)[j] {
      assert keys[i + 1] != keys[j + 1];
    }
    forall k | k in cards[1..] ensures k.id != cards[0].id {
      var i := IndexOf(cards[1..], k);
      assert keys[0] != keys[i + 1];
    }
  }

  /** One more candidate adds one reference, on the route of its card. */
  lemma {:induction false} OneMoreReference(cards: seq<Card<Region>>, cands: seq<Candidate>, route: string)
    requires NoDup(Map(cards, CardKey)) && cands != []
    ensures var n := |cands| - 1;
            Referenced(cards, cands, route)
            == Referenced(cards, cands[..n], route) + (if OnRoute(cards, cands[n].cardId, route) then 1 else 0)
  {
    if cards != [] {
      DistinctTail(cards);
      OneMoreReference(cards[1..], cands, route);
      var id := cands[|cands| - 1].cardId;
      OnRouteHead(cards, id, route);
    }
  }

  lemma OnRouteHead(cards: seq<Card<Region>>, id: string, route: string)
    requires cards != [] && NoDup(Map(cards, CardKey))
    ensures OnRoute(cards, id, route)
            <==> (cards[0].id == id && cards[0].route == route) || OnRoute(cards[1..], id, route)
    ensures cards[0].id == id ==> !OnRoute(cards[1..], id, route)
  {
    DistinctTail(cards);
    assert cards == [cards[0]] + cards[1..];
    if OnRoute(cards[1..], id, route) { var k :| k in cards[1..] && k.id == id && k.route == route; assert k in cards; }
  }

  lemma RouteOfCard(cards: seq<Card<Region>>, c: Candidate, route: string)
    requires NoDup(Map(cards, CardKey)) && ForwardOk(c, cards)
    ensures OnRoute(cards, c.cardId, route) <==> CardRoute(c.route) == route
  {
    var k :| k in cards && k.id == c.cardId && Fits(c, k);
    forall k' | k' in cards && k'.id == k.id ensures k' == k { OneCardPerId(cards, k, k'); }
  }

  lemma {:induction false} NoCandidatesNoReferences(cards: seq<Card<Region>>, route: string)
    ensures Referenced(cards, [], route) == 0
  {
    if cards != [] { NoCandidatesNoReferences(cards[1..], route); }
  }

  lemma {:induction false} ReferencedIsCount(cards: seq<Card<Region>>, cands: seq<Candidate>, route: string)
    requires NoDup(Map(cards, CardKey)) && forall c | c in cands :: ForwardOk(c, cards)
    ensures Referenced(cards, cands, route) == CountRoute(cands, route)
  {
    hide Referenced, ForwardOk, OnRoute, CardRoute, NoDup;
    if cands == [] {
      NoCandidatesNoReferences(cards, route);
    } else {
      var n := |cands| - 1;
      forall c | c in cands[..n] ensures ForwardOk(c, cards) { assert c in cands; }
      ReferencedIsCount(cards, cands[..n], route);
      OneMoreReference(cards, cands, route);
      assert cands[n] in cands;
      RouteOfCard(cards, cands[n], route);
    }
  }

  lemma {:induction false} DeclaredIsReferenced(cards: seq<Card<Region>>, cands: seq<Candidate>, route: string)
    requires forall k | k in cards :: ReverseOk(k, cands)
    ensures Declared(cards, route) == Referenced(cards, cands, route)
  {
    if cards != [] {
      assert cards[0] in cards;
      forall k | k in cards[1..] ensures ReverseOk(k, cands) { assert k in cards; }
      DeclaredIsReferenced(cards[1..], cands, route);
    }
  }

  lemma {:induction false} DeclaredAtLeastCards(cards: seq<Card<Region>>)
    requires forall k | k in cards :: k.route == "candidate" ==> k.candidateIds != []
    ensures CardsOnRoute(cards, "candidate") <= Declared(cards, "candidate")
  {
    if cards != [] {
      assert cards[0] in cards;
      DeclaredAtLeastCards(cards[1..]);
    }
  }

  lemma {:induction false} RoutesPartition(cands: seq<Candidate>)
    ensures CountRoute(cands, "candidate") + CountRoute(cands, "review") + CountRoute(cands, "excluded") == |cands|
  {
    if cands != [] { RoutesPartition(cands[..|cands| - 1]); }
  }

  /** Route by route the declared lists hold as many candidates as there are; in all, exactly the candidates;
    * and there are at least as many automatic candidates as in-scope cards. */
  lemma CountsBalance(cands: seq<Candidate>, cards: seq<Card<Region>>, pageCount: int)
    requires RowsOk(cands, cards, pageCount) && RelationOk(cands, cards)
    ensures forall route :: Declared(cards, route) == CountRoute(cands, route)
    ensures Declared(cards, "candidate") + Declared(cards, "review") + Declared(cards, "excluded") == |cands|
    ensures CardsOnRoute(cards, "candidate") <= CountRoute(cands, "candidate")
  {
    hide Declared, Referenced, CountRoute, CardsOnRoute, CandidateOk, NoDup, IsSorted, ForwardOk;
    forall route ensures Declared(cards, route) == CountRoute(cands, route) {
      DeclaredIsReferenced(cards, cands, route);
      ReferencedIsCount(cards, cands, route);
    }
    RoutesPartition(cands);
    DeclaredAtLeastCards(cards);
  }
}
