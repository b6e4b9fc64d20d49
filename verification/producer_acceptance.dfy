/** Whatever the producer builds from accepted geometry passes the page/card gate. */
module ProducerAcceptance {
  import opened Foundations
  import opened Sorting
  import opened ZeroPadding
  import opened Formats
  import opened Regions
  import opened PageCardRows
  import opened PageCardGate
  import opened PageCardInverse
  import opened PageCardStability
  import opened ShadowProducer

  // ----- the texts the producer writes are in normal form -----

  lemma CandidateIdNormal(hex: string -> string, objectId: string)
    requires IsSha256(hex(objectId))
    ensures ValidId(CandidateId(hex, objectId)) && Strip(CandidateId(hex, objectId)) == CandidateId(hex, objectId)
  {
    var id, h := CandidateId(hex, objectId), hex(objectId)[..32];
    forall i | 0 <= i < |id| ensures IsLowerOrDigit(id[i]) || id[i] in "._:-" {
      if i >= 5 { assert id[i] == hex(objectId)[i - 5]; }
    }
    assert id[|id| - 1] == hex(objectId)[31];
    StripExact(id);
  }

  lemma PadOfDigits(n: nat)
    requires n < 1000
    ensures forall i | 0 <= i < 3 :: IsDigit(Pad3(n)[i])
  {
  }

  lemma CardIdNormal(i: nat)
    requires i < 1000
    ensures CardPage(CardId(i)) == Some(1) && Strip(CardId(i)) == CardId(i)
  {
    hide Pad3, Parse3;
    var id := CardId(i);
    Pad3RoundTrip(i, id);
    PadOfDigits(i);
    OnePage();
    assert id[6..] == Pad3(i) && id[1..4] == "001" && id[4..6] == ":c";
    StripExact(id);
  }

  lemma OnePage()
    ensures Parse3("001") == Some(1)
  {
  }

  /** Card IDs compare as text the way their indices compare as numbers. */
  lemma CardIdOrder(i: nat, j: nat)
    requires i < 1000 && j < 1000
    ensures StrLe(CardId(i), CardId(j)) <==> i <= j
    ensures CardId(i) == CardId(j) ==> i == j
  {
    hide StrLe, Pad3;
    var p := "p001:c";
    StrLePrefix(p, p, Pad3(i), Pad3(j));
    Pad3Order(i, j);
    assert CardId(i)[|p|..] == Pad3(i) && CardId(j)[|p|..] == Pad3(j);
  }

  lemma OneCleanId(id: string)
    requires id != "" && Strip(id) == id
    ensures CleanIds([id]) == [id]
  {
    hide Strip;
    CleanTexts([id]);
  }

  lemma LiteralsAreClean()
    ensures Strip("auto_candidate") == "auto_candidate" && Strip("in_scope") == "in_scope"
            && Strip("candidate") == "candidate" && Strip("") == ""
  {
    StripExact("auto_candidate");
    StripExact("in_scope");
    StripExact("candidate");
    StripExact("");
  }

  // ----- each row passes on its own -----

  lemma CandidateRowPasses(ctx: Context, rows: seq<GeometryRow>, i: nat)
    requires Numbered(ctx, rows) && i < |rows|
    ensures CleanCandidate(CandidateRow(ctx, rows, i)) == CandidateRow(ctx, rows, i)
    ensures CandidateOk(CandidateRow(ctx, rows, i), 1)
  {
    hide Strip, CandidateId, CardId, ValidId, CardPage, IsSha256;
    CandidateIdNormal(ctx.hex, rows[i].objectId);
    CardIdNormal(i + 1);
    LiteralsAreClean();
  }

  lemma CardRowPasses(ctx: Context, rows: seq<GeometryRow>, i: nat)
    requires Numbered(ctx, rows) && RegionsFit(ctx, rows) && i < |rows|
    ensures CleanCard(AsRaw(CardRow(ctx, rows, i))) == CardRow(ctx, rows, i)
    ensures CardOk(CardRow(ctx, rows, i), 1)
    ensures IsSorted(CardRow(ctx, rows, i).candidateIds, StrLe)
  {
    hide Strip, CandidateId, CardId, ValidId, CardPage, IsSha256, RoundReal, CleanIds, StrLe;
    var k := CardRow(ctx, rows, i);
    CandidateIdNormal(ctx.hex, rows[i].objectId);
    IdsAreNotEmpty(k.candidateIds[0]);
    OneCleanId(k.candidateIds[0]);
    CardIdNormal(i + 1);
    LiteralsAreClean();
    MillionthsExact(k.region.x);
    MillionthsExact(k.region.y);
    MillionthsExact(k.region.width);
    MillionthsExact(k.region.height);
  }

  lemma IdsAreNotEmpty(id: string)
    requires ValidId(id)
    ensures id != ""
  {
  }

  // ----- the lists as a whole -----

  lemma CandidatesNormal(ctx: Context, rows: seq<GeometryRow>)
    requires Numbered(ctx, rows)
    ensures Map(CandidateRows(ctx, rows), CleanCandidate) == CandidateRows(ctx, rows)
  {
    hide CleanCandidate, CandidateOk;
    forall i | 0 <= i < |rows| ensures CleanCandidate(CandidateRow(ctx, rows, i)) == CandidateRow(ctx, rows, i) {
      CandidateRowPasses(ctx, rows, i);
    }
  }

  lemma CardsNormal(ctx: Context, rows: seq<GeometryRow>)
    requires Numbered(ctx, rows) && RegionsFit(ctx, rows)
    ensures Map(Map(CardRows(ctx, rows), AsRaw), CleanCard) == CardRows(ctx, rows)
  {
    hide CleanCard, CardOk, AsRaw, IsSorted, RegionsFit;
    forall i | 0 <= i < |rows| ensures CleanCard(AsRaw(CardRow(ctx, rows, i))) == CardRow(ctx, rows, i) {
      CardRowPasses(ctx, rows, i);
    }
  }

  /** The ledger is already in card-ID order: sorting it moves nothing. */
  lemma CardsInIndexOrder(ctx: Context, rows: seq<GeometryRow>)
    requires Numbered(ctx, rows) && RegionsFit(ctx, rows)
    ensures Sort(CardRows(ctx, rows), CardLe) == CardRows(ctx, rows)
    ensures NoDup(Map(CardRows(ctx, rows), CardKey))
  {
    hide CardId, StrLe, RegionsFit;
    var cards := CardRows(ctx, rows);
    forall i, j | 0 <= i < j < |cards| ensures CardLe(cards[i], cards[j]) && cards[i].id != cards[j].id {
      CardIdOrder(i + 1, j + 1);
    }
    SortIdempotent(cards, CardLe);
  }

  lemma CandidatesPass(ctx: Context, rows: seq<GeometryRow>, pageCount: int)
    requires Numbered(ctx, rows) && Buildable(ctx, rows) && pageCount >= 1
    ensures var cands := CandidateRows(ctx, rows);
            CheckedCandidates(cands, pageCount, Sha(Sort(cands, CandidateLe))) == Ok(Sort(cands, CandidateLe))
  {
    hide CandidateLe, CleanCandidate, CandidateRow;
    var cands := CandidateRows(ctx, rows);
    CandidatesNormal(ctx, rows);
    forall i | 0 <= i < |cands| ensures CandidateOk(CleanCandidate(cands[i]), pageCount) {
      CandidateRowPasses(ctx, rows, i);
    }
  }

  lemma CardsPass(ctx: Context, rows: seq<GeometryRow>, pageCount: int)
    requires Numbered(ctx, rows) && Buildable(ctx, rows) && pageCount >= 1 && rows != []
    ensures var cards := CardRows(ctx, rows);
            CheckedCards(Map(cards, AsRaw), pageCount, Sha(Sort(cards, CardLe))) == Ok(cards)
  {
    hide CardLe, CleanCard, CardRow, AsRaw, IsSorted, RegionsFit, NoDup;
    var cards := CardRows(ctx, rows);
    CardsNormal(ctx, rows);
    CardsInIndexOrder(ctx, rows);
    forall i | 0 <= i < |cards| ensures CardOk(CleanCard(AsRaw(cards[i])), pageCount) {
      CardRowPasses(ctx, rows, i);
      CardOkOnMorePages(CardRow(ctx, rows, i), pageCount);
    }
  }

  lemma CardOkOnMorePages(k: Card<Region>, pageCount: int)
    requires CardOk(k, 1) && pageCount >= 1
    ensures CardOk(k, pageCount)
  {
  }

  /** Row i of one list and row i of the other name each other, and nothing else does. */
  lemma RowsAreInverse(ctx: Context, rows: seq<GeometryRow>)
    requires Numbered(ctx, rows) && Buildable(ctx, rows)
    ensures IsInverse(CandidateRows(ctx, rows), CardRows(ctx, rows))
  {
    hide CardId, CandidateId, CanonicalRegion, ContextOk;
    var cands, cards := CandidateRows(ctx, rows), CardRows(ctx, rows);
    forall c | c in cands ensures exists k | k in cards :: k.id == c.cardId && k.route == CardRoute(c.route) {
      var i := IndexOf(cands, c);
      assert cards[i] in cards;
    }
    forall k, x | k in cards ensures x in k.candidateIds <==> Bound(cands, k.id, x) {
      var i := IndexOf(cards, k);
      assert cands[i] in cands;
      assert k.candidateIds == [cands[i].id];
      forall c | c in cands && c.cardId == k.id ensures c == cands[i] {
        var j := IndexOf(cands, c);
        CardIdOrder(i + 1, j + 1);
      }
    }
  }

  lemma InversePermuted(a: seq<Candidate>, b: seq<Candidate>, cards: seq<Card<Region>>)
    requires multiset(a) == multiset(b) && IsInverse(a, cards)
    ensures IsInverse(b, cards)
  {
    hide CardRoute;
    SameMembers(a, b);
    forall k, x | k in cards ensures x in k.candidateIds <==> Bound(b, k.id, x) {
      assert Bound(a, k.id, x) <==> Bound(b, k.id, x);
    }
  }

  /** The gate accepts every payload the producer builds, and keeps the cards in index order. */
  lemma ProducerAccepted(b: Baseline, ctx: Context, rows: seq<GeometryRow>)
    requires BaselineOk(CleanBaseline(b)) && Numbered(ctx, rows) && rows != [] && Buildable(ctx, rows)
    ensures var cands, cards := CandidateRows(ctx, rows), CardRows(ctx, rows);
            GateResult(PayloadOf(b, cands, cards)) == Ok(Fingerprint(CleanBaseline(b), Sort(cands, CandidateLe), cards))
  {
    hide CheckedCandidates, CheckedCards, RelationOk, IsInverse, NormalCards, NormalCandidates, RegionsFit;
    var cands, cards := CandidateRows(ctx, rows), CardRows(ctx, rows);
    CandidatesPass(ctx, rows, b.pageCount);
    CardsPass(ctx, rows, b.pageCount);
    RowsAreInverse(ctx, rows);
    InversePermuted(cands, Sort(cands, CandidateLe), cards);
    NormalIsSorted(PayloadOf(b, cands, cards), cands, cards);
    AcceptedIffInverse(PayloadOf(b, cands, cards));
  }

  lemma NormalIsSorted(p: Payload, cands: seq<Candidate>, cards: seq<Card<Region>>)
    requires CheckedCandidates(p.candidates, p.baseline.pageCount, p.candidateSha) == Ok(Sort(cands, CandidateLe))
    requires CheckedCards(p.cards, p.baseline.pageCount, p.cardSha) == Ok(cards)
    ensures NormalCandidates(p.candidates) == Sort(cands, CandidateLe) && NormalCards(p.cards) == cards
  {
    hide CandidatesOk, CardsOk, NormalCandidates, NormalCards;
  }

  // ----- reading order -----

  lemma RowOrderIsPreorder()
    ensures IsPreorder(RowLe)
  {
    hide Thousandths, StrLe;
    StrLeIsPreorder();
    forall a, b, c: GeometryRow | RowLe(a, b) && RowLe(b, c) ensures RowLe(a, c) {
      assert StrLe(a.objectId, b.objectId) && StrLe(b.objectId, c.objectId) ==> StrLe(a.objectId, c.objectId);
    }
  }

  /** The order in which the page reports its rows does not reach the output. */
  lemma ReportOrderIrrelevant(g: Geometry, h: Geometry, expected: set<string>)
    requires GeometryOk(g, expected) && multiset(h.rows) == multiset(g.rows)
    ensures Sort(h.rows, RowLe) == Sort(g.rows, RowLe)
  {
    hide Thousandths;
    var ids := Map(g.rows, ObjectIdOf);
    forall x, y | x in g.rows && y in g.rows && RowLe(x, y) && RowLe(y, x) ensures x == y {
      StrLeAntisymmetric(x.objectId, y.objectId);
      var i := IndexOf(g.rows, x);
      var j := IndexOf(g.rows, y);
      NoDupIndex(ids, i, j);
    }
    RowOrderIsPreorder();
    SortDeterministic(g.rows, h.rows, RowLe);
  }

  /** A row whose rectangle lies inside the page is refused only when its rounded width or height is zero. */
  lemma InsidePageHasRegion(r: GeometryRow, width: real, height: real)
    requires width > 0.0 && height > 0.0
    requires 0.0 <= r.x && 0.0 <= r.width && r.x + r.width <= width
    requires 0.0 <= r.y && 0.0 <= r.height && r.y + r.height <= height
    ensures CanonicalRegion(r, width, height).Some?
            <==> Millionths(r.width / width) != 0 && Millionths(r.height / height) != 0
  {
    hide Millionths;
    ShareOfPage(r.x, r.width, width);
    ShareOfPage(r.y, r.height, height);
    InsidePageStaysInside(RawRegion(r.x / width, r.y / height, r.width / width, r.height / height));
  }

  lemma ShareOfPage(a: real, b: real, whole: real)
    requires whole > 0.0 && 0.0 <= a && 0.0 <= b && a + b <= whole
    ensures 0.0 <= a / whole && 0.0 <= b / whole && a / whole + b / whole <= 1.0
  {
    var s := a / whole + b / whole;
    assert s * whole == a + b;
    assert s > 1.0 ==> (s - 1.0) * whole > 0.0;
  }
}
