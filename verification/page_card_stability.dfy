/** The gate's verdict as a function of content: row order is irrelevant and its own output is accepted again
  * unchanged. */
module PageCardStability {
  import opened Foundations
  import opened Sorting
  import opened Formats
  import opened Regions
  import opened PageCardRows
  import opened PageCardGate
  import opened PageCardInverse

  lemma CandidatesIdentified(cands: seq<Candidate>)
    requires NoDup(Map(cands, CandidateKey))
    ensures KeysIdentify(cands, CandidateLe)
  {
    forall x, y | x in cands && y in cands && CandidateLe(x, y) && CandidateLe(y, x) ensures x == y {
      StrLeAntisymmetric(x.id, y.id);
      var i := IndexOf(cands, x);
      var j := IndexOf(cands, y);
      NoDupIndex(Map(cands, CandidateKey), i, j);
    }
  }

  lemma CardsIdentified(cards: seq<Card<Region>>)
    requires NoDup(Map(cards, CardKey))
    ensures KeysIdentify(cards, CardLe)
  {
    forall x, y | x in cards && y in cards && CardLe(x, y) && CardLe(y, x) ensures x == y {
      StrLeAntisymmetric(x.id, y.id);
      OneCardPerId(cards, x, y);
    }
  }

  // ----- row order -----

  lemma CandidatesOkPermuted(a: seq<Candidate>, b: seq<Candidate>, pageCount: int)
    requires multiset(Map(a, CleanCandidate)) == multiset(Map(b, CleanCandidate))
    ensures CandidatesOk(a, pageCount) ==> CandidatesOk(b, pageCount)
  {
    hide CandidateOk, CleanCandidate;
    var ca, cb := Map(a, CleanCandidate), Map(b, CleanCandidate);
    SameMembers(ca, cb);
    if CandidatesOk(a, pageCount) {
      MapPermuted(ca, cb, CandidateKey);
      NoDupPermuted(Map(ca, CandidateKey), Map(cb, CandidateKey));
      forall i | 0 <= i < |b| ensures CandidateOk(CleanCandidate(b[i]), pageCount) {
        assert cb[i] in cb;
        var j := IndexOf(ca, cb[i]);
      }
    }
  }

  lemma CardsOkPermuted(a: seq<Card<RawRegion>>, b: seq<Card<RawRegion>>, pageCount: int)
    requires multiset(Map(a, CleanCard)) == multiset(Map(b, CleanCard))
    ensures CardsOk(a, pageCount) ==> CardsOk(b, pageCount)
  {
    hide CardOk, CleanCard;
    var ca, cb := Map(a, CleanCard), Map(b, CleanCard);
    SameMembers(ca, cb);
    if CardsOk(a, pageCount) {
      MapPermuted(ca, cb, CardKey);
      NoDupPermuted(Map(ca, CardKey), Map(cb, CardKey));
      forall i | 0 <= i < |b| ensures CardOk(CleanCard(b[i]), pageCount) {
        assert cb[i] in cb;
        var j := IndexOf(ca, cb[i]);
      }
    }
  }

  lemma CandidatesSame(a: seq<Candidate>, b: seq<Candidate>, pageCount: int, declared: Sha<seq<Candidate>>)
    requires multiset(Map(a, CleanCandidate)) == multiset(Map(b, CleanCandidate))
    ensures CheckedCandidates(a, pageCount, declared) == CheckedCandidates(b, pageCount, declared)
  {
    hide CleanCandidate, CandidateOk, CandidateLe;
    CandidatesOkPermuted(a, b, pageCount);
    CandidatesOkPermuted(b, a, pageCount);
    if CandidatesOk(a, pageCount) {
      CandidatesIdentified(Map(a, CleanCandidate));
      OrdersArePreorders();
      SortDeterministic(Map(a, CleanCandidate), Map(b, CleanCandidate), CandidateLe);
    }
  }

  lemma CardsSame(a: seq<Card<RawRegion>>, b: seq<Card<RawRegion>>, pageCount: int, declared: Sha<seq<Card<Region>>>)
    requires multiset(Map(a, CleanCard)) == multiset(Map(b, CleanCard))
    ensures CheckedCards(a, pageCount, declared) == CheckedCards(b, pageCount, declared)
  {
    hide CleanCard, CardOk, CardLe;
    CardsOkPermuted(a, b, pageCount);
    CardsOkPermuted(b, a, pageCount);
    if CardsOk(a, pageCount) {
      CardsIdentified(Map(a, CleanCard));
      OrdersArePreorders();
      SortDeterministic(Map(a, CleanCard), Map(b, CleanCard), CardLe);
    }
  }

  /** Payloads whose rows agree as multisets once cleaned get the same verdict and the same fingerprint: candidate
    * rows, card rows and the IDs inside a card may come in any order. */
  lemma RowOrderIrrelevant(p: Payload, q: Payload)
    requires p.header == q.header && p.baseline == q.baseline && p.candidateSha == q.candidateSha
             && p.cardSha == q.cardSha
    requires multiset(Map(p.candidates, CleanCandidate)) == multiset(Map(q.candidates, CleanCandidate))
    requires multiset(Map(p.cards, CleanCard)) == multiset(Map(q.cards, CleanCard))
    ensures GateResult(p) == GateResult(q)
  {
    hide CheckedCandidates, CheckedCards, RelationOk;
    CandidatesSame(p.candidates, q.candidates, p.baseline.pageCount, p.candidateSha);
    CardsSame(p.cards, q.cards, p.baseline.pageCount, p.cardSha);
  }

  /** Cards that differ only in the order of their candidate IDs are the same once cleaned. */
  lemma IdOrderIrrelevant(k: Card<RawRegion>, ids: seq<string>)
    requires multiset(ids) == multiset(k.candidateIds)
    ensures CleanCard(k.(candidateIds := ids)) == CleanCard(k)
  {
    CleanIdsPermuted(ids, k.candidateIds);
  }

  // ----- the accepted content -----

  /** The gate's normalized output, read back in as the next payload. */
  function Resubmit(i: Identity): Payload {
    Payload(Header(1, MODE, ISSUE_NUMBER), i.baseline, i.candidates, i.candidateSha, Map(i.cards, AsRaw), i.cardSha)
  }

  lemma CleanedCandidatesStay(rows: seq<Candidate>)
    ensures Map(NormalCandidates(rows), CleanCandidate) == NormalCandidates(rows)
  {
    hide CleanCandidate;
    var clean := Map(rows, CleanCandidate);
    var cands := NormalCandidates(rows);
    SortMembers(clean, CandidateLe);
    forall i | 0 <= i < |cands| ensures CleanCandidate(cands[i]) == cands[i] {
      assert cands[i] in cands;
      var j := IndexOf(clean, cands[i]);
      CleanCandidateIdempotent(rows[j]);
    }
  }

  lemma CardSource(rows: seq<Card<RawRegion>>, k: Card<Region>) returns (i: nat)
    requires k in NormalCards(rows)
    ensures i < |rows| && k == CleanCard(rows[i])
  {
    hide CleanCard, CardLe;
    var clean := Map(rows, CleanCard);
    SortMembers(clean, CardLe);
    i := IndexOf(clean, k);
  }

  lemma CleanedCardsStay(rows: seq<Card<RawRegion>>)
    ensures Map(Map(NormalCards(rows), AsRaw), CleanCard) == NormalCards(rows)
  {
    hide CleanCard, AsRaw, NormalCards;
    var cards := NormalCards(rows);
    forall i | 0 <= i < |cards| ensures CleanCard(AsRaw(cards[i])) == cards[i] {
      assert cards[i] in cards;
      var j := CardSource(rows, cards[i]);
      CleanCardIdempotent(rows[j]);
    }
  }

  lemma CandidatesAgain(rows: seq<Candidate>, pageCount: int, declared: Sha<seq<Candidate>>)
    requires CheckedCandidates(rows, pageCount, declared).Ok?
    ensures var cands := NormalCandidates(rows);
            CheckedCandidates(cands, pageCount, declared) == Ok(cands)
  {
    hide CleanCandidate, CandidateOk, CandidateLe;
    var cands := NormalCandidates(rows);
    CleanedCandidatesStay(rows);
    assert multiset(Map(cands, CleanCandidate)) == multiset(Map(rows, CleanCandidate));
    CandidatesSame(rows, cands, pageCount, declared);
  }

  lemma CardsAgain(rows: seq<Card<RawRegion>>, pageCount: int, declared: Sha<seq<Card<Region>>>)
    requires CheckedCards(rows, pageCount, declared).Ok?
    ensures var cards := NormalCards(rows);
            CheckedCards(Map(cards, AsRaw), pageCount, declared) == Ok(cards)
  {
    hide CleanCard, CardOk, CardLe, AsRaw;
    var cards := NormalCards(rows);
    CleanedCardsStay(rows);
    assert multiset(Map(Map(cards, AsRaw), CleanCard)) == multiset(Map(rows, CleanCard));
    CardsSame(rows, Map(cards, AsRaw), pageCount, declared);
  }

  /** Feeding an accepted payload's normalized output back to the gate gives the same fingerprint. */
  lemma RevalidationIsStable(p: Payload)
    requires GateResult(p).Ok?
    ensures GateResult(Resubmit(GateResult(p).value.content)) == GateResult(p)
  {
    hide NormalCandidates, NormalCards, CandidatesOk, CardsOk, RelationOk;
    StripIdempotent(p.baseline.id);
    CandidatesAgain(p.candidates, p.baseline.pageCount, p.candidateSha);
    CardsAgain(p.cards, p.baseline.pageCount, p.cardSha);
  }

  lemma SortedIdLists(rows: seq<Card<RawRegion>>)
    ensures forall k | k in NormalCards(rows) :: IsSorted(k.candidateIds, StrLe)
  {
    hide NormalCards, CleanIds, IsSorted;
    forall k | k in NormalCards(rows) ensures IsSorted(k.candidateIds, StrLe) {
      var i := CardSource(rows, k);
      CleanIdsSorted(rows[i].candidateIds);
    }
  }

  lemma CleanIdsSorted(ids: seq<string>)
    ensures IsSorted(CleanIds(ids), StrLe)
  {
    hide StrLe;
    StrLeIsPreorder();
    SortSorted(Map(Filter(ids, NonBlank), Strip), StrLe);
  }

  lemma CheckedRows(p: Payload)
    requires CandidatesOk(p.candidates, p.baseline.pageCount) && CardsOk(p.cards, p.baseline.pageCount)
    ensures RowsOk(NormalCandidates(p.candidates), NormalCards(p.cards), p.baseline.pageCount)
  {
    hide NormalCandidates, NormalCards, CandidatesOk, CardsOk, CandidateOk, CardOk, NoDup, IsSorted;
    NormalCandidatesDistinct(p.candidates, p.baseline.pageCount);
    NormalCardsDistinct(p.cards, p.baseline.pageCount);
    SortedIdLists(p.cards);
  }

  /** A payload with good rows and matching digests is accepted if and only if its lists are exact inverses. */
  lemma AcceptedIffInverse(p: Payload)
    requires HeaderOk(p.header) && BaselineOk(CleanBaseline(p.baseline))
    requires CheckedCandidates(p.candidates, p.baseline.pageCount, p.candidateSha).Ok?
    requires CheckedCards(p.cards, p.baseline.pageCount, p.cardSha).Ok?
    ensures GateResult(p).Ok? <==> IsInverse(NormalCandidates(p.candidates), NormalCards(p.cards))
  {
    hide NormalCandidates, NormalCards, CandidatesOk, CardsOk, RelationOk, IsInverse, RowsOk;
    CheckedRows(p);
    RelationIffInverse(NormalCandidates(p.candidates), NormalCards(p.cards), p.baseline.pageCount);
  }

  /** What the fingerprint of an accepted payload certifies. */
  lemma AcceptedBalances(p: Payload)
    requires GateResult(p).Ok?
    ensures var i := GateResult(p).value.content;
            && IsInverse(i.candidates, i.cards)
            && Declared(i.cards, "candidate") + Declared(i.cards, "review")
               + Declared(i.cards, "excluded") == |i.candidates|
            && CardsOnRoute(i.cards, "candidate") <= CountRoute(i.candidates, "candidate")
  {
    hide NormalCandidates, NormalCards, CandidatesOk, CardsOk, RelationOk, IsInverse, RowsOk, Declared, CardsOnRoute,
         CountRoute;
    CheckedRows(p);
    AcceptedIffInverse(p);
    CountsBalance(NormalCandidates(p.candidates), NormalCards(p.cards), p.baseline.pageCount);
  }
}
