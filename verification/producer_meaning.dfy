/** What the producer writes from a captured page, said of the capture's own fields. */
module ProducerMeaning {
  import opened Foundations
  import opened Sorting
  import opened Formats
  import opened Regions
  import opened PageCardRows
  import opened PageCardGate
  import opened PageCardMeaning
  import opened ShadowProducer
  import opened ProducerAcceptance

  /** What a capture brings besides the geometry: the page digest, the selected offers and the digest function. */
  datatype Capture = Capture(pageSha: string, offers: map<string, Offer>, hex: string -> string)

  ghost predicate CaptureOk(c: Capture) {
    && IsSha256(c.pageSha) && HexDigests(c.hex)
    && forall id | id in c.offers :: IsSha256(c.offers[id].digest)
  }

  function ContextOf(c: Capture, g: Geometry): Context {
    Context(g.width, g.height, c.pageSha, c.offers, c.hex)
  }

  // ----- the geometry, row by row -----

  /** Top edge, then left edge, both to a thousandth of a pixel, then object ID. */
  ghost predicate ReadsBefore(a: GeometryRow, b: GeometryRow) {
    var top, top' := RoundReal(1000.0 * a.y), RoundReal(1000.0 * b.y);
    var left, left' := RoundReal(1000.0 * a.x), RoundReal(1000.0 * b.x);
    || top < top'
    || (top == top' && left < left')
    || (top == top' && left == left' && StrLe(a.objectId, b.objectId))
  }

  /** The row's rectangle as shares of the page. */
  function SharesOf(r: GeometryRow, g: Geometry): RawRegion
    requires g.width > 0.0 && g.height > 0.0
  {
    RawRegion(r.x / g.width, r.y / g.height, r.width / g.width, r.height / g.height)
  }

  /** The n-th of a million parts nearest to the share. */
  ghost predicate IsNearest(n: real, share: real) {
    n == RoundReal(1000000.0 * share) as real / 1000000.0
  }

  /** The text is "aldi:" and the first half of the object ID's digest. */
  ghost predicate IsIdFor(text: string, c: Capture, objectId: string) {
    var h := c.hex(objectId);
    |h| == 64 && text == "aldi:" + h[..32]
  }

  ghost predicate IsCandidateFor(k: Candidate, c: Capture, r: GeometryRow, index: nat) {
    && r.objectId in c.offers && index < 1000
    && IsIdFor(k.id, c, r.objectId) && k.payloadSha == c.offers[r.objectId].digest
    && k.page == 1 && k.cardId == "p001:c" + Pad3(index) && k.route == "auto_candidate" && k.reason == ""
  }

  ghost predicate IsCardFor(k: Card<RawRegion>, c: Capture, g: Geometry, r: GeometryRow, index: nat)
    requires g.width > 0.0 && g.height > 0.0
  {
    && index < 1000 && k.id == "p001:c" + Pad3(index) && k.page == 1 && k.pageSha == c.pageSha
    && IsNearest(k.region.x, r.x / g.width) && IsNearest(k.region.y, r.y / g.height)
    && IsNearest(k.region.width, r.width / g.width) && IsNearest(k.region.height, r.height / g.height)
    && k.scope == "in_scope" && k.route == "candidate" && k.reason == ""
    && |k.candidateIds| == 1 && IsIdFor(k.candidateIds[0], c, r.objectId)
  }

  /** The payload lists the page's rows in reading order, numbered from 1, once as candidates and once as cards, each
    * list with the digest of its normal form. */
  ghost predicate IsPayloadFor(p: Payload, b: Baseline, c: Capture, g: Geometry, order: seq<GeometryRow>)
    requires g.width > 0.0 && g.height > 0.0
  {
    && p.header == Header(1, "ALDI_NEW_BASELINE_PAGE_CARD_PARITY_V01", 682) && p.baseline == b
    && multiset(order) == multiset(g.rows) && |p.candidates| == |order| == |p.cards|
    && (forall i, j | 0 <= i < j < |order| :: ReadsBefore(order[i], order[j]))
    && (forall i | 0 <= i < |order| :: IsCandidateFor(p.candidates[i], c, order[i], i + 1))
    && (forall i | 0 <= i < |order| :: IsCardFor(p.cards[i], c, g, order[i], i + 1))
    && CoversCandidates(p.candidateSha.content, p.candidates) && CoversCards(p.cardSha.content, p.cards)
  }

  /** No two object IDs share the first half of their digests, and every rectangle lies on the page once rounded. */
  ghost predicate CanBeWritten(c: Capture, g: Geometry)
    requires g.width > 0.0 && g.height > 0.0
  {
    && (forall i, j, text | 0 <= i < j < |g.rows| && IsIdFor(text, c, g.rows[i].objectId) ::
          !IsIdFor(text, c, g.rows[j].objectId))
    && forall r | r in g.rows :: IsPlaced(SharesOf(r, g))
  }

  // ----- what the rows say -----

  lemma ReadingOrder(rows: seq<GeometryRow>)
    ensures var s := Sort(rows, RowLe); forall i, j | 0 <= i < j < |s| :: ReadsBefore(s[i], s[j])
  {
    hide StrLe, RoundReal, Sort;
    var s := Sort(rows, RowLe);
    RowOrderIsPreorder();
    SortSorted(rows, RowLe);
    forall i, j | 0 <= i < j < |s| ensures ReadsBefore(s[i], s[j]) {
      assert RowLe(s[i], s[j]);
      OrderRead(s[i], s[j]);
    }
  }

  lemma OrderRead(a: GeometryRow, b: GeometryRow)
    ensures RowLe(a, b) <==> ReadsBefore(a, b)
  {
    hide StrLe, RoundReal;
    assert 1000.0 * a.x == a.x * 1000.0 && 1000.0 * a.y == a.y * 1000.0;
    assert 1000.0 * b.x == b.x * 1000.0 && 1000.0 * b.y == b.y * 1000.0;
  }

  lemma NearestShare(share: real)
    ensures IsNearest(Millionths(share) as real / 1_000_000.0, share)
  {
    hide RoundReal;
    assert 1000000.0 * share == share * 1_000_000.0;
  }

  lemma CardRead(c: Capture, g: Geometry, rows: seq<GeometryRow>, i: nat)
    requires var ctx := ContextOf(c, g); Numbered(ctx, rows) && RegionsFit(ctx, rows) && i < |rows|
    ensures var ctx := ContextOf(c, g); IsCardFor(AsRaw(CardRow(ctx, rows, i)), c, g, rows[i], i + 1)
  {
    hide Pad3, Millionths, IsNearest;
    NearestShare(rows[i].x / g.width);
    NearestShare(rows[i].y / g.height);
    NearestShare(rows[i].width / g.width);
    NearestShare(rows[i].height / g.height);
  }

  lemma CandidateRead(c: Capture, g: Geometry, rows: seq<GeometryRow>, i: nat)
    requires var ctx := ContextOf(c, g); Numbered(ctx, rows) && i < |rows|
    ensures var ctx := ContextOf(c, g); IsCandidateFor(CandidateRow(ctx, rows, i), c, rows[i], i + 1)
  {
    hide Pad3;
  }

  lemma DigestsCover(ctx: Context, rows: seq<GeometryRow>, p: Payload, b: Baseline)
    requires Numbered(ctx, rows) && Buildable(ctx, rows)
    requires p == PayloadOf(b, CandidateRows(ctx, rows), CardRows(ctx, rows))
    ensures CoversCandidates(p.candidateSha.content, p.candidates) && CoversCards(p.cardSha.content, p.cards)
  {
    hide CoversCandidates, CoversCards, NoDup, CandidateRow, CardRow, CleanCandidate, CleanCard, AsRaw, RegionsFit;
    CandidatesNormal(ctx, rows);
    CardsNormal(ctx, rows);
    CardsInIndexOrder(ctx, rows);
    CandidatesCovered(p.candidateSha.content, p.candidates);
    CardsCovered(p.cardSha.content, p.cards);
  }

  lemma PayloadRead(b: Baseline, c: Capture, g: Geometry, rows: seq<GeometryRow>)
    requires var ctx := ContextOf(c, g); Numbered(ctx, rows) && Buildable(ctx, rows)
    requires rows == Sort(g.rows, RowLe)
    ensures var ctx := ContextOf(c, g);
            IsPayloadFor(PayloadOf(b, CandidateRows(ctx, rows), CardRows(ctx, rows)), b, c, g, rows)
  {
    hide CoversCandidates, CoversCards, ReadsBefore, RowLe, IsCandidateFor, IsCardFor, CandidateRow, CardRow, Sort,
         NoDup;
    hide AsRaw, RegionsFit;
    var ctx := ContextOf(c, g);
    var p := PayloadOf(b, CandidateRows(ctx, rows), CardRows(ctx, rows));
    ReadingOrder(g.rows);
    DigestsCover(ctx, rows, p, b);
    forall i | 0 <= i < |rows|
      ensures IsCandidateFor(p.candidates[i], c, rows[i], i + 1) && IsCardFor(p.cards[i], c, g, rows[i], i + 1)
    {
      CandidateRead(c, g, rows, i);
      CardRead(c, g, rows, i);
    }
  }

  // ----- when it can be written -----

  function TextOf(c: Capture): GeometryRow -> string {
    (r: GeometryRow) => var h := c.hex(r.objectId); if |h| == 64 then "aldi:" + h[..32] else ""
  }

  lemma TextsDiffer(c: Capture, rows: seq<GeometryRow>)
    requires CaptureOk(c)
    ensures NoDup(Map(rows, TextOf(c))) <==>
            forall i, j, text | 0 <= i < j < |rows| && IsIdFor(text, c, rows[i].objectId) ::
              !IsIdFor(text, c, rows[j].objectId)
  {
    var texts := Map(rows, TextOf(c));
    forall i | 0 <= i < |rows| ensures IsIdFor(texts[i], c, rows[i].objectId) { HashLength(c, rows[i].objectId); }
    if NoDup(texts) {
      forall i, j, text | 0 <= i < j < |rows| && IsIdFor(text, c, rows[i].objectId)
        ensures !IsIdFor(text, c, rows[j].objectId)
      {
        assert texts[i] != texts[j];
      }
    }
  }

  lemma HashLength(c: Capture, s: string)
    requires CaptureOk(c)
    ensures |c.hex(s)| == 64
  {
    assert IsSha256(c.hex(s));
  }

  lemma PlacedRows(c: Capture, g: Geometry, rows: seq<GeometryRow>)
    requires Numbered(ContextOf(c, g), rows) && multiset(rows) == multiset(g.rows)
    ensures RegionsFit(ContextOf(c, g), rows) <==> forall r | r in g.rows :: IsPlaced(SharesOf(r, g))
  {
    hide IsPlaced, RegionOk, RoundRegion;
    SameMembers(rows, g.rows);
    forall r ensures IsPlaced(SharesOf(r, g)) <==> CanonicalRegion(r, g.width, g.height).Some? {
      PlacedIff(SharesOf(r, g));
    }
    if RegionsFit(ContextOf(c, g), rows) {
      forall r | r in g.rows ensures IsPlaced(SharesOf(r, g)) { var i := IndexOf(rows, r); }
    }
    forall i | 0 <= i < |rows| ensures rows[i] in g.rows { assert rows[i] in rows; }
  }

  lemma WritableIff(c: Capture, g: Geometry, rows: seq<GeometryRow>)
    requires CaptureOk(c) && Numbered(ContextOf(c, g), rows) && multiset(rows) == multiset(g.rows)
    ensures Buildable(ContextOf(c, g), rows) <==> CanBeWritten(c, g)
  {
    hide IsPlaced, RegionsFit, NoDup, IsIdFor;
    var ctx := ContextOf(c, g);
    PlacedRows(c, g, rows);
    TextsDiffer(c, g.rows);
    var ids := Map(CandidateRows(ctx, rows), CandidateKey);
    forall i | 0 <= i < |rows| ensures ids[i] == Map(rows, TextOf(c))[i] { HashLength(c, rows[i].objectId); }
    assert ids == Map(rows, TextOf(c));
    MapPermuted(rows, g.rows, TextOf(c));
    if NoDup(ids) { NoDupPermuted(ids, Map(g.rows, TextOf(c))); }
    if NoDup(Map(g.rows, TextOf(c))) { NoDupPermuted(Map(g.rows, TextOf(c)), ids); }
  }

  /** The producer's last step: check the geometry, order it, number the rows and write both lists. What it writes, the
    * gate accepts. */
  method Produce(b: Baseline, c: Capture, g: Geometry) returns (r: Option<Payload>)
    requires CaptureOk(c)
    ensures r.Some? <==> GeometryOk(g, c.offers.Keys) && CanBeWritten(c, g)
    ensures r.Some? ==> IsPayloadFor(r.value, b, c, g, Sort(g.rows, RowLe))
    ensures r.Some? && BaselineOk(CleanBaseline(b)) ==> GateResult(r.value).Ok?
  {
    hide RowLe, NoDup, Buildable, GateResult, PayloadOf, BaselineOk, IsPayloadFor, CanBeWritten;
    var accepted := ValidatedGeometry(g, c.offers.Keys);
    if accepted.None? { return None; }
    var ctx, rows := ContextOf(c, g), Sort(accepted.value, RowLe);
    SortMembers(accepted.value, RowLe);
    RowsNameOffers(ctx, g, rows);
    WritableIff(c, g, rows);
    var ok, candidates, cards := BuildRows(ctx, rows);
    if !ok { return None; }
    PayloadRead(b, c, g, rows);
    if BaselineOk(CleanBaseline(b)) { ProducerAccepted(b, ctx, rows); }
    r := Some(PayloadOf(b, candidates, cards));
  }

  lemma RowsNameOffers(ctx: Context, g: Geometry, rows: seq<GeometryRow>)
    requires ContextOk(ctx) && GeometryOk(g, ctx.offers.Keys)
    requires |rows| == |g.rows| && forall r | r in rows :: r in g.rows
    ensures Numbered(ctx, rows)
  {
    hide NoDup, ContextOk;
    forall i | 0 <= i < |rows| ensures rows[i].objectId in ctx.offers {
      assert rows[i] in g.rows;
      var j := IndexOf(g.rows, rows[i]);
      assert Map(g.rows, ObjectIdOf)[j] == rows[i].objectId;
    }
  }
}
