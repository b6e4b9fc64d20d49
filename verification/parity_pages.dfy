/** A parity run over both flyer pages is the two single-page runs put together. */
module ParityPages {
  import opened Foundations
  import opened Sorting
  import opened ParityModel
  import opened ParityRun
  import opened ParityOrder
  import opened ParityAccounting

  predicate CurrentOffer(o: Offer) { o.page.Current? }
  predicate PreviewOffer(o: Offer) { o.page.Preview? }
  predicate CurrentCard(k: Card) { k.page.Current? }
  predicate PreviewCard(k: Card) { k.page.Preview? }

  /** The ledger's ID rule: a card ID starts with the name of the card's page. */
  ghost predicate IdsNamePages(cards: seq<Card>) {
    forall k | k in cards :: IdNamesPage(k)
  }

  predicate IdNamesPage(k: Card) {
    |k.id| >= 7 && k.id[..7] == PageName(k.page)
  }

  ghost predicate OnPage(cards: seq<Card>, p: Page) {
    forall k | k in cards :: k.page == p && IdNamesPage(k)
  }

  lemma PageOrder(x: string, y: string)
    ensures StrLe(PageName(Current) + x, PageName(Preview) + y)
    ensures PageName(Current) != PageName(Preview)
  {
    assert PageName(Current)[0] < PageName(Preview)[0];
    StrLePrefix(PageName(Current), PageName(Preview), x, y);
  }

  lemma FilterSplit<T(!new)>(s: seq<T>, p: T -> bool, q: T -> bool)
    requires forall x :: p(x) != q(x)
    ensures multiset(s) == multiset(Filter(s, p)) + multiset(Filter(s, q))
  {
    forall x ensures multiset(s)[x] == (multiset(Filter(s, p)) + multiset(Filter(s, q)))[x] {
      FilterMultiset(s, p, x);
      FilterMultiset(s, q, x);
    }
  }

  lemma SortedConcat<T>(a: seq<T>, b: seq<T>, le: (T, T) -> bool)
    requires IsSorted(a, le) && IsSorted(b, le)
    requires forall x, y | x in a && y in b :: le(x, y)
    ensures IsSorted(a + b, le)
  {
  }

  lemma ViewsConcat(a: seq<Offer>, b: seq<Offer>)
    ensures Views(a + b) == Views(a) + Views(b)
  {
    FilterConcat(a, b, IsTarget);
  }

  lemma CandidatesSorted(rows: seq<Offer>)
    ensures IsSorted(Candidates(rows), CandidateLe)
  {
    OrdersArePreorders();
    SortSorted(Views(rows), CandidateLe);
  }

  lemma CandidatesSplit(rows: seq<Offer>)
    ensures multiset(Candidates(rows))
         == multiset(Candidates(Filter(rows, CurrentOffer)) + Candidates(Filter(rows, PreviewOffer)))
  {
    hide Views;
    var cur, pre := Filter(rows, CurrentOffer), Filter(rows, PreviewOffer);
    FilterSplit(rows, CurrentOffer, PreviewOffer);
    ViewsPermuted(rows, cur + pre);
    ViewsConcat(cur, pre);
  }

  lemma CurrentFirst(x: Candidate, y: Candidate)
    requires x.offerKey == OfferKey(Current, x.offerId) && y.offerKey == OfferKey(Preview, y.offerId)
    ensures CandidateLe(x, y)
  {
    PageOrder(":" + x.offerId, ":" + y.offerId);
    assert x.offerKey == PageName(Current) + (":" + x.offerId) && y.offerKey == PageName(Preview) + (":" + y.offerId);
  }

  /** Candidates come out page by page. */
  lemma CandidatesByPage(rows: seq<Offer>)
    requires UniqueOffers(rows)
    ensures Candidates(rows) == Candidates(Filter(rows, CurrentOffer)) + Candidates(Filter(rows, PreviewOffer))
    ensures forall c | c in Candidates(Filter(rows, CurrentOffer)) ::
              c.page.Current? && c.offerKey == OfferKey(Current, c.offerId)
    ensures forall c | c in Candidates(Filter(rows, PreviewOffer)) ::
              c.page.Preview? && c.offerKey == OfferKey(Preview, c.offerId)
  {
    hide Candidates, Views, CandidateLe;
    var cur, pre := Filter(rows, CurrentOffer), Filter(rows, PreviewOffer);
    var a, b := Candidates(cur), Candidates(pre);
    CandidatesKeepPage(cur, Current);
    CandidatesKeepPage(pre, Preview);
    CandidatesSplit(rows);
    CandidatesSorted(cur);
    CandidatesSorted(pre);
    CandidatesSorted(rows);
    forall x, y | x in a && y in b ensures CandidateLe(x, y) { CurrentFirst(x, y); }
    SortedConcat(a, b, CandidateLe);
    CandidateKeysDistinct(rows);
    DistinctKeysIdentify(Candidates(rows));
    OrdersArePreorders();
    SortedUnique(Candidates(rows), a + b, CandidateLe);
  }

  lemma CandidatesKeepPage(rows: seq<Offer>, p: Page)
    requires forall o | o in rows :: o.page == p
    ensures forall c | c in Candidates(rows) :: c.page == p && c.offerKey == OfferKey(p, c.offerId)
  {
    SortMembers(Views(rows), CandidateLe);
    forall c | c in Candidates(rows) ensures c.page == p && c.offerKey == OfferKey(p, c.offerId) {
      var o := ViewSource(rows, c);
    }
  }

  lemma CardsByPage(cards: seq<Card>)
    requires UniqueCards(cards) && IdsNamePages(cards)
    ensures SortedCards(cards) == SortedCards(Filter(cards, CurrentCard)) + SortedCards(Filter(cards, PreviewCard))
    ensures OnPage(SortedCards(Filter(cards, CurrentCard)), Current)
    ensures OnPage(SortedCards(Filter(cards, PreviewCard)), Preview)
  {
    hide SortedCards, CardLe;
    var cur, pre := Filter(cards, CurrentCard), Filter(cards, PreviewCard);
    var a, b := SortedCards(cur), SortedCards(pre);
    CardsSorted(cards);
    CardsSorted(cur);
    CardsSorted(pre);
    FilterSplit(cards, CurrentCard, PreviewCard);
    assert multiset(a + b) == multiset(SortedCards(cards));
    forall x, y | x in a && y in b ensures CardLe(x, y) { CurrentCardFirst(x, y); }
    SortedConcat(a, b, CardLe);
    UniqueCardsPermuted(cards, SortedCards(cards));
    CardsIdentified(SortedCards(cards));
    OrdersArePreorders();
    SortedUnique(SortedCards(cards), a + b, CardLe);
  }

  lemma CardsSorted(cards: seq<Card>)
    ensures IsSorted(SortedCards(cards), CardLe)
    ensures forall k :: k in SortedCards(cards) <==> k in cards
    ensures multiset(SortedCards(cards)) == multiset(cards)
  {
    OrdersArePreorders();
    SortSorted(cards, CardLe);
    SortMembers(cards, CardLe);
  }

  lemma CurrentCardFirst(x: Card, y: Card)
    requires x.page.Current? && IdNamesPage(x) && y.page.Preview? && IdNamesPage(y)
    ensures CardLe(x, y)
  {
    PageOrder(x.id[7..], y.id[7..]);
    assert x.id == PageName(Current) + x.id[7..] && y.id == PageName(Preview) + y.id[7..];
  }

  // ----- neither scores nor claims cross pages -----

  lemma ForeignCard(c: Candidate, k: Card)
    requires c.page != k.page && c.offerKey == OfferKey(c.page, c.offerId)
    ensures Score(c, k).None? && !Claims(k, c.offerKey)
  {
    if i :| 0 <= i < |k.explicitIds| && OfferKey(k.page, k.explicitIds[i]) == c.offerKey {
      OfferKeyInjective(k.page, k.explicitIds[i], c.page, c.offerId);
    }
  }

  lemma {:induction false} ForeignSuffix(c: Candidate, a: seq<Card>, b: seq<Card>)
    requires c.offerKey == OfferKey(c.page, c.offerId) && forall k | k in b :: k.page != c.page
    ensures ScoredCards(c, a + b) == ScoredCards(c, a)
    ensures ClaimedId(c.offerKey, a + b) == ClaimedId(c.offerKey, a)
  {
    hide Score, Claims;
    if b == [] {
      assert a + b == a;
    } else {
      ForeignSuffix(c, a, b[..|b| - 1]);
      ForeignCard(c, b[|b| - 1]);
      assert (a + b)[..|a + b| - 1] == a + b[..|b| - 1];
    }
  }

  lemma {:induction false} ForeignPrefix(c: Candidate, a: seq<Card>, b: seq<Card>)
    requires c.offerKey == OfferKey(c.page, c.offerId) && forall k | k in a :: k.page != c.page
    ensures ScoredCards(c, a + b) == ScoredCards(c, b)
    ensures ClaimedId(c.offerKey, a + b) == ClaimedId(c.offerKey, b)
  {
    hide Score, Claims;
    if b == [] {
      assert [] + a == a == a + b;
      ForeignSuffix(c, [], a);
    } else {
      ForeignPrefix(c, a, b[..|b| - 1]);
      assert (a + b)[..|a + b| - 1] == a + b[..|b| - 1];
    }
  }

  lemma {:induction false} CardByIdConcat(id: string, a: seq<Card>, b: seq<Card>)
    ensures CardById(id, a + b) == if CardById(id, b).Some? then CardById(id, b) else CardById(id, a)
  {
    if b == [] {
      assert a + b == a;
    } else {
      CardByIdConcat(id, a, b[..|b| - 1]);
      assert (a + b)[..|a + b| - 1] == a + b[..|b| - 1];
    }
  }

  lemma {:induction false} CardByIdMember(id: string, cards: seq<Card>)
    ensures CardById(id, cards).Some? ==> CardById(id, cards).value in cards && CardById(id, cards).value.id == id
  {
    if cards != [] { CardByIdMember(id, cards[..|cards| - 1]); }
  }

  lemma {:induction false} ClaimedIdMember(key: string, cards: seq<Card>)
    ensures ClaimedId(key, cards).Some? ==> exists k | k in cards :: k.id == ClaimedId(key, cards).value
  {
    if cards != [] {
      ClaimedIdMember(key, cards[..|cards| - 1]);
      if k :| k in cards[..|cards| - 1] && ClaimedId(key, cards[..|cards| - 1]) == Some(k.id) { assert k in cards; }
      assert cards[|cards| - 1] in cards;
    }
  }

  /** A candidate's outcome uses only the cards of its own page. */
  lemma DecideOwnPage(c: Candidate, a: seq<Card>, b: seq<Card>)
    requires c.offerKey == OfferKey(c.page, c.offerId) && OnPage(a, Current) && OnPage(b, Preview)
    ensures Decide(c, a + b) == Decide(c, if c.page.Current? then a else b)
  {
    hide Score, ScoredCards, ClaimedId, CardById, Claims, DecideRanked, DecideExplicit;
    var own := if c.page.Current? then a else b;
    if c.page.Current? { ForeignSuffix(c, a, b); } else { ForeignPrefix(c, a, b); }
    var claimed := ClaimedId(c.offerKey, own);
    if claimed.Some? {
      ClaimedIdMember(c.offerKey, own);
      CardByIdConcat(claimed.value, a, b);
      CardByIdMember(claimed.value, a);
      CardByIdMember(claimed.value, b);
      ClaimResolves(c.offerKey, claimed.value, own, own);
      PageOrder("", "");
    }
  }

  /** A match names a card of the list it was chosen from. */
  lemma MatchNamesCard(c: Candidate, cards: seq<Card>)
    ensures Decide(c, cards).status.Matched? ==> exists k | k in cards :: Decide(c, cards).cardId == Some(k.id)
  {
    hide Score;
    var m := Decide(c, cards);
    if m.status.Matched? {
      if m.via.ExplicitOfferId? {
        ClaimedIdMember(c.offerKey, cards);
        CardByIdMember(ClaimedId(c.offerKey, cards).value, cards);
      } else {
        SortMembers(ScoredCards(c, cards), ScoredLe);
        var e := Sort(ScoredCards(c, cards), ScoredLe)[0];
        ScoredNamesCard(c, cards, e);
      }
    }
  }

  lemma {:induction false} ScoredNamesCard(c: Candidate, cards: seq<Card>, e: Scored)
    requires e in ScoredCards(c, cards)
    ensures exists k | k in cards :: k.id == e.cardId
  {
    hide Score;
    var k := cards[|cards| - 1];
    if e in ScoredCards(c, cards[..|cards| - 1]) {
      ScoredNamesCard(c, cards[..|cards| - 1], e);
      var x :| x in cards[..|cards| - 1] && x.id == e.cardId;
      assert x in cards;
    } else {
      assert k in cards;
    }
  }

  // ----- reverse coverage by page -----

  lemma {:induction false} MatchedKeysConcat(ms: seq<Mapping>, ns: seq<Mapping>, id: string)
    ensures MatchedKeys(ms + ns, id) == MatchedKeys(ms, id) + MatchedKeys(ns, id)
  {
    if ns == [] {
      assert ms + ns == ms;
    } else {
      MatchedKeysConcat(ms, ns[..|ns| - 1], id);
      assert (ms + ns)[..|ms + ns| - 1] == ms + ns[..|ns| - 1];
    }
  }

  lemma {:induction false} NoMatchedKeys(ms: seq<Mapping>, id: string)
    requires forall m | m in ms :: !MatchedTo(m, id)
    ensures MatchedKeys(ms, id) == []
  {
    if ms != [] { NoMatchedKeys(ms[..|ms| - 1], id); }
  }

  lemma NeverMatchedAcross(cands: seq<Candidate>, cards: seq<Card>, k: Card, p: Page)
    requires OnPage(cards, p) && k.page != p && IdNamesPage(k)
    ensures MatchedKeys(Mappings(cands, cards), k.id) == []
  {
    hide Decide, MatchedKeys;
    var ms := Mappings(cands, cards);
    forall m | m in ms ensures !MatchedTo(m, k.id) {
      var i := IndexOf(ms, m);
      MatchNamesCard(cands[i], cards);
      PageOrder("", "");
    }
    NoMatchedKeys(ms, k.id);
  }

  lemma MappingsByPage(x: seq<Candidate>, y: seq<Candidate>, a: seq<Card>, b: seq<Card>)
    requires OnPage(a, Current) && OnPage(b, Preview)
    requires forall c | c in x :: c.page.Current? && c.offerKey == OfferKey(Current, c.offerId)
    requires forall c | c in y :: c.page.Preview? && c.offerKey == OfferKey(Preview, c.offerId)
    ensures Mappings(x + y, a + b) == Mappings(x, a) + Mappings(y, b)
  {
    hide Decide;
    forall i | 0 <= i < |x + y| ensures Mappings(x + y, a + b)[i] == (Mappings(x, a) + Mappings(y, b))[i] {
      DecideOwnPage((x + y)[i], a, b);
    }
  }

  lemma ReverseByPage(x: seq<Candidate>, y: seq<Candidate>, a: seq<Card>, b: seq<Card>)
    requires OnPage(a, Current) && OnPage(b, Preview)
    ensures ReverseRows(a + b, Mappings(x, a) + Mappings(y, b))
         == ReverseRows(a, Mappings(x, a)) + ReverseRows(b, Mappings(y, b))
  {
    hide Decide, MatchedKeys, OnPage;
    var ms, ns := Mappings(x, a), Mappings(y, b);
    forall k | k in a ensures ReverseOf(k, ms + ns) == ReverseOf(k, ms) {
      MatchedKeysConcat(ms, ns, k.id);
      assert k.page.Current? && IdNamesPage(k) by { OnPageMember(a, Current, k); }
      NeverMatchedAcross(y, b, k, Preview);
      assert MatchedKeys(ms + ns, k.id) == MatchedKeys(ms, k.id);
    }
    forall k | k in b ensures ReverseOf(k, ms + ns) == ReverseOf(k, ns) {
      MatchedKeysConcat(ms, ns, k.id);
      assert k.page.Preview? && IdNamesPage(k) by { OnPageMember(b, Preview, k); }
      NeverMatchedAcross(x, a, k, Current);
      assert MatchedKeys(ms + ns, k.id) == MatchedKeys(ns, k.id);
    }
    ReversePointwise(a, b, ms + ns, ms, ns);
  }

  lemma OnPageMember(cards: seq<Card>, p: Page, k: Card)
    requires OnPage(cards, p) && k in cards
    ensures k.page == p && IdNamesPage(k)
  {
  }

  lemma ReversePointwise(a: seq<Card>, b: seq<Card>, all: seq<Mapping>, ms: seq<Mapping>, ns: seq<Mapping>)
    requires forall k | k in a :: ReverseOf(k, all) == ReverseOf(k, ms)
    requires forall k | k in b :: ReverseOf(k, all) == ReverseOf(k, ns)
    ensures ReverseRows(a + b, all) == ReverseRows(a, ms) + ReverseRows(b, ns)
  {
    hide ReverseOf;
    var r := ReverseRows(a, ms) + ReverseRows(b, ns);
    forall i | 0 <= i < |a + b| ensures ReverseRows(a + b, all)[i] == r[i] {
      if i < |a| { assert a[i] in a; } else { assert b[i - |a|] in b; }
    }
  }

  // ----- blockers by page -----

  lemma {:induction false} MappingBlockersConcat(ms: seq<Mapping>, ns: seq<Mapping>)
    ensures MappingBlockers(ms + ns) == MappingBlockers(ms) + MappingBlockers(ns)
  {
    hide MappingBlocker;
    if ns == [] {
      assert ms + ns == ms;
      assert MappingBlockers(ms) + [] == MappingBlockers(ms);
    } else {
      var before := ns[..|ns| - 1];
      MappingBlockersConcat(ms, before);
      assert (ms + ns)[..|ms + ns| - 1] == ms + before;
      assert MappingBlockers(ms + ns) == MappingBlockers(ms + before) + MappingBlocker(ns[|ns| - 1]);
    }
  }

  lemma {:induction false} CardBlockersConcat(rs: seq<ReverseRow>, qs: seq<ReverseRow>)
    ensures CardBlockers(rs + qs) == CardBlockers(rs) + CardBlockers(qs)
  {
    hide CardBlocker;
    if qs == [] {
      assert rs + qs == rs;
    } else {
      CardBlockersConcat(rs, qs[..|qs| - 1]);
      assert (rs + qs)[..|rs + qs| - 1] == rs + qs[..|qs| - 1];
    }
  }

  ghost predicate DistinctOffers(ms: seq<Mapping>) {
    forall i, j | 0 <= i < j < |ms| :: ms[i].candidate.offerKey != ms[j].candidate.offerKey
  }

  lemma BlockerKeysEqual(x: Blocker, y: Blocker)
    requires BlockerLe(x, y) && BlockerLe(y, x)
    ensures BlockerKey(x) == BlockerKey(y)
  {
    var a, b := BlockerKey(x), BlockerKey(y);
    if a.0 != b.0 { StrLeAntisymmetric(a.0, b.0); }
    else if a.1 != b.1 { StrLeAntisymmetric(a.1, b.1); }
    else { StrLeAntisymmetric(a.2, b.2); }
  }

  lemma SameBlockerKind(x: Blocker, y: Blocker)
    requires BlockerKey(x) == BlockerKey(y)
    ensures x.UnexplainedCard? == y.UnexplainedCard?
    ensures x.UnexplainedCard? ==> x == y
  {
    var t := ["ambiguous_match", "explicit_match_to_out_of_scope_card", "no_match", "target_count_mismatch"];
    assert forall i | 0 <= i < 4 :: t[i][0] != "unexplained_in_scope_card"[0];
  }

  /** Sort keys tell the blockers of a run without a count blocker apart. */
  lemma BlockersIdentified(ms: seq<Mapping>, rs: seq<ReverseRow>)
    requires DistinctOffers(ms)
    ensures KeysIdentify(MappingBlockers(ms) + CardBlockers(rs), BlockerLe)
  {
    hide BlockerLe, BlockerKey;
    var all := MappingBlockers(ms) + CardBlockers(rs);
    forall x, y | x in all && y in all && BlockerLe(x, y) && BlockerLe(y, x) ensures x == y {
      BlockerKeysEqual(x, y);
      SameBlockerKind(x, y);
      MappingBlockerMembers(ms, x);
      MappingBlockerMembers(ms, y);
      CardBlockerMembers(rs, x);
      CardBlockerMembers(rs, y);
      if !x.UnexplainedCard? {
        var i :| 0 <= i < |ms| && x in MappingBlocker(ms[i]);
        var j :| 0 <= j < |ms| && y in MappingBlocker(ms[j]);
        SameOffer(x, y, ms[i], ms[j]);
        assert i == j;
      }
    }
  }

  lemma SameOffer(x: Blocker, y: Blocker, m: Mapping, n: Mapping)
    requires x in MappingBlocker(m) && y in MappingBlocker(n) && BlockerKey(x) == BlockerKey(y)
    ensures m.candidate.offerKey == n.candidate.offerKey
  {
  }

  lemma PreorderOfBlockers()
    ensures IsPreorder(BlockerLe)
  {
    OrdersArePreorders();
    forall x, y ensures BlockerLe(x, y) || BlockerLe(y, x) { }
    forall x, y, z | BlockerLe(x, y) && BlockerLe(y, z) ensures BlockerLe(x, z) { BlockerLeTransitive(x, y, z); }
  }

  lemma BlockerLeTransitive(x: Blocker, y: Blocker, z: Blocker)
    requires BlockerLe(x, y) && BlockerLe(y, z)
    ensures BlockerLe(x, z)
  {
    hide BlockerKey;
    var a, b, c := BlockerKey(x), BlockerKey(y), BlockerKey(z);
    KeyTransitive(a.0, b.0, c.0);
    KeyTransitive(a.1, b.1, c.1);
    KeyTransitive(a.2, b.2, c.2);
  }

  lemma KeyTransitive(a: string, b: string, c: string)
    ensures StrLe(a, b) && StrLe(b, c) ==> StrLe(a, c)
    ensures StrLe(a, b) && StrLe(b, a) ==> a == b
    ensures StrLe(c, b) && StrLe(b, c) ==> b == c
  {
    if StrLe(a, b) && StrLe(b, c) { StrLeTransitive(a, b, c); }
    if StrLe(a, b) && StrLe(b, a) { StrLeAntisymmetric(a, b); }
    if StrLe(c, b) && StrLe(b, c) { StrLeAntisymmetric(c, b); }
  }

  lemma MappingsDistinct(cands: seq<Candidate>, cards: seq<Card>)
    requires NoDup(Map(cands, KeyOf))
    ensures DistinctOffers(Mappings(cands, cards))
  {
    hide Decide;
    var ms, keys := Mappings(cands, cards), Map(cands, KeyOf);
    forall i, j | 0 <= i < j < |ms| ensures ms[i].candidate.offerKey != ms[j].candidate.offerKey {
      DecideKeepsCandidate(cands[i], cards);
      DecideKeepsCandidate(cands[j], cards);
      assert keys[i] != keys[j];
    }
  }

  lemma BlockersByPage(ms: seq<Mapping>, ns: seq<Mapping>, rs: seq<ReverseRow>, qs: seq<ReverseRow>)
    requires DistinctOffers(ms + ns)
    ensures Sort(MappingBlockers(ms + ns) + CardBlockers(rs + qs), BlockerLe)
         == Sort(Sort(MappingBlockers(ms) + CardBlockers(rs), BlockerLe)
                 + Sort(MappingBlockers(ns) + CardBlockers(qs), BlockerLe), BlockerLe)
  {
    hide BlockerLe, MappingBlockers, CardBlockers;
    var all := MappingBlockers(ms + ns) + CardBlockers(rs + qs);
    var parts := Sort(MappingBlockers(ms) + CardBlockers(rs), BlockerLe)
                 + Sort(MappingBlockers(ns) + CardBlockers(qs), BlockerLe);
    MappingBlockersConcat(ms, ns);
    CardBlockersConcat(rs, qs);
    assert multiset(all) == multiset(parts);
    BlockersIdentified(ms + ns, rs + qs);
    PreorderOfBlockers();
    SortDeterministic(all, parts, BlockerLe);
  }

  /** Without expected counts, a run over both pages is the merge of the runs over each page alone. */
  lemma PagesAreIndependent(rows: seq<Offer>, cards: seq<Card>)
    requires UniqueOffers(rows) && UniqueCards(cards) && IdsNamePages(cards)
    ensures var both := ParityReport(rows, cards, None);
            var cur := ParityReport(Filter(rows, CurrentOffer), Filter(cards, CurrentCard), None);
            var pre := ParityReport(Filter(rows, PreviewOffer), Filter(cards, PreviewCard), None);
            && both.mappings == cur.mappings + pre.mappings
            && both.reverse == cur.reverse + pre.reverse
            && both.blockers == Sort(cur.blockers + pre.blockers, BlockerLe)
  {
    hide Candidates, SortedCards, Mappings, ReverseRows, MappingBlockers, CardBlockers, Summarise, Sort, BlockerLe;
    CandidatesByPage(rows);
    CardsByPage(cards);
    var x, y := Candidates(Filter(rows, CurrentOffer)), Candidates(Filter(rows, PreviewOffer));
    var a, b := SortedCards(Filter(cards, CurrentCard)), SortedCards(Filter(cards, PreviewCard));
    MappingsByPage(x, y, a, b);
    ReverseByPage(x, y, a, b);
    CandidateKeysDistinct(rows);
    MappingsDistinct(x + y, a + b);
    var ms, ns := Mappings(x, a), Mappings(y, b);
    BlockersByPage(ms, ns, ReverseRows(a, ms), ReverseRows(b, ns));
    NoCountBlocker(x, ms, ReverseRows(a, ms));
    NoCountBlocker(y, ns, ReverseRows(b, ns));
    NoCountBlocker(x + y, ms + ns, ReverseRows(a + b, ms + ns));
  }

  lemma NoCountBlocker(cands: seq<Candidate>, ms: seq<Mapping>, rs: seq<ReverseRow>)
    ensures AllBlockers(cands, ms, rs, None) == Sort(MappingBlockers(ms) + CardBlockers(rs), BlockerLe)
  {
    hide Sort, MappingBlockers, CardBlockers, TargetCounts;
    assert CountBlocker(cands, None) + MappingBlockers(ms) + CardBlockers(rs) == MappingBlockers(ms) + CardBlockers(rs);
  }
}
