/** The weekly producer's binding of selected offers to visible cards, and the rows it writes for the page/card gate. */
module ShadowProducer {
  import opened Foundations
  import opened Sorting
  import opened Formats
  import opened Regions
  import opened PageCardRows
  import opened PageCardGate

  const MAX_VISUAL_CARDS: int := 512

  /** A selected offer with the digest of its payload. */
  datatype Offer = Offer(slug: string, digest: string)

  datatype GeometryRow = GeometryRow(objectId: string, matchCount: int, containerKey: string,
                                     x: real, y: real, width: real, height: real)

  datatype Geometry = Geometry(width: real, height: real, visibleCount: int, rows: seq<GeometryRow>)

  function ObjectIdOf(r: GeometryRow): string {
    r.objectId
  }

  function ContainerOf(r: GeometryRow): string {
    r.containerKey
  }

  // ----- the geometry reported by the page -----

  ghost predicate GeometryOk(g: Geometry, expected: set<string>) {
    && g.width > 0.0 && g.height > 0.0
    && 0 < g.visibleCount <= MAX_VISUAL_CARDS
    && g.visibleCount == |expected| == |g.rows|
    && (forall i | 0 <= i < |g.rows| :: RowOk(g.rows[i]))
    && (forall id :: id in expected <==> id in Map(g.rows, ObjectIdOf))
    && NoDup(Map(g.rows, ObjectIdOf)) && NoDup(Map(g.rows, ContainerOf))
  }

  predicate RowOk(r: GeometryRow) {
    r.objectId != "" && r.matchCount == 1 && r.containerKey != ""
  }

  method ValidatedGeometry(g: Geometry, expected: set<string>) returns (r: Option<seq<GeometryRow>>)
    ensures r == if GeometryOk(g, expected) then Some(g.rows) else None
  {
    if g.width <= 0.0 || g.height <= 0.0 { return None; }
    if !(0 < g.visibleCount <= MAX_VISUAL_CARDS) { return None; }
    if g.visibleCount != |expected| { return None; }
    if |g.rows| != |expected| { return None; }
    var rowIds: seq<string>, containerKeys: seq<string> := [], [];
    var bad: seq<string> := [];
    var normalized: seq<GeometryRow> := [];
    for i := 0 to |g.rows|
      invariant rowIds == Map(g.rows[..i], ObjectIdOf)
      invariant bad == [] <==> forall j | 0 <= j < i :: RowOk(g.rows[j])
      invariant bad == [] ==> normalized == g.rows[..i] && containerKeys == Map(g.rows[..i], ContainerOf)
    {
      var row := g.rows[i];
      if row.objectId == "" { return None; }
      MapGrows(g.rows, i, ObjectIdOf);
      MapGrows(g.rows, i, ContainerOf);
      rowIds := rowIds + [row.objectId];
      if row.matchCount != 1 {
        bad := bad + [row.objectId];
      } else {
        if row.containerKey == "" { return None; }
        containerKeys := containerKeys + [row.containerKey];
        normalized := normalized + [row];
      }
    }
    assert g.rows[..|g.rows|] == g.rows;
    DistinctTest(rowIds);
    if (set s | s in rowIds) != expected || |rowIds| != |(set s | s in rowIds)| { return None; }
    if bad != [] { return None; }
    DistinctTest(containerKeys);
    if |containerKeys| != |(set s | s in containerKeys)| { return None; }
    r := Some(normalized);
  }

  lemma ListedInSet(s: seq<string>, v: set<string>)
    requires NoDup(s) && |s| == |v| && forall x | x in s :: x in v
    ensures forall x :: x in v <==> x in s
  {
    DistinctTest(s);
    SubsetSize((set x | x in s), v);
  }

  /** Accepted geometry pairs offers and visible cards one to one. When every container key names a visible card and
    * the page counted all of them, no visible card is left over. */
  lemma GeometryIsBijection(g: Geometry, expected: set<string>, visible: set<string>)
    requires GeometryOk(g, expected)
    requires |visible| == g.visibleCount && forall i | 0 <= i < |g.rows| :: g.rows[i].containerKey in visible
    ensures forall id | id in expected :: exists i | 0 <= i < |g.rows| :: g.rows[i].objectId == id
    ensures forall key | key in visible :: exists i | 0 <= i < |g.rows| :: g.rows[i].containerKey == key
    ensures forall i, j | 0 <= i < |g.rows| && 0 <= j < |g.rows| ::
              g.rows[i].objectId == g.rows[j].objectId <==> g.rows[i].containerKey == g.rows[j].containerKey
  {
    var ids, keys := Map(g.rows, ObjectIdOf), Map(g.rows, ContainerOf);
    ListedInSet(keys, visible);
    forall id | id in expected ensures exists i | 0 <= i < |g.rows| :: g.rows[i].objectId == id {
      var i := IndexOf(ids, id);
      assert g.rows[i].objectId == id;
    }
    forall key | key in visible ensures exists i | 0 <= i < |g.rows| :: g.rows[i].containerKey == key {
      var i := IndexOf(keys, key);
      assert g.rows[i].containerKey == key;
    }
    forall i, j | 0 <= i < |g.rows| && 0 <= j < |g.rows|
      ensures g.rows[i].objectId == g.rows[j].objectId <==> g.rows[i].containerKey == g.rows[j].containerKey
    {
      if ids[i] == ids[j] { NoDupIndex(ids, i, j); }
      if keys[i] == keys[j] { NoDupIndex(keys, i, j); }
    }
  }

  // ----- candidate and card rows -----

  function Thousandths(r: real): int {
    RoundReal(r * 1000.0)
  }

  /** Reading order: rounded top edge, rounded left edge, object ID. */
  predicate RowLe(a: GeometryRow, b: GeometryRow) {
    var top, top' := Thousandths(a.y), Thousandths(b.y);
    var left, left' := Thousandths(a.x), Thousandths(b.x);
    top < top' || (top == top' && (left < left' || (left == left' && StrLe(a.objectId, b.objectId))))
  }

  function CandidateId(hex: string -> string, objectId: string): string
    requires IsSha256(hex(objectId))
  {
    "aldi:" + hex(objectId)[..32]
  }

  function CardId(index: nat): string
    requires index < 1000
  {
    "p001:c" + Pad3(index)
  }

  function CanonicalRegion(r: GeometryRow, width: real, height: real): Option<Region>
    requires width > 0.0 && height > 0.0
  {
    NormalizeRegion(RawRegion(r.x / width, r.y / height, r.width / width, r.height / height))
  }

  ghost predicate HexDigests(hex: string -> string) {
    forall s :: IsSha256(hex(s))
  }

  /** What the rows are built from: the page size and digest, the offers, and the digest of each object ID. */
  datatype Context = Context(width: real, height: real, pageSha: string, offers: map<string, Offer>,
                             hex: string -> string)

  ghost predicate ContextOk(ctx: Context) {
    && ctx.width > 0.0 && ctx.height > 0.0 && IsSha256(ctx.pageSha) && HexDigests(ctx.hex)
    && forall id | id in ctx.offers :: IsSha256(ctx.offers[id].digest)
  }

  /** The rows numbered from one, as the producer's loop visits them. */
  ghost predicate Numbered(ctx: Context, rows: seq<GeometryRow>) {
    && ContextOk(ctx) && |rows| <= MAX_VISUAL_CARDS
    && forall i | 0 <= i < |rows| :: rows[i].objectId in ctx.offers
  }

  ghost function CandidateRow(ctx: Context, rows: seq<GeometryRow>, i: nat): Candidate
    requires Numbered(ctx, rows) && i < |rows|
  {
    var id := rows[i].objectId;
    Candidate(CandidateId(ctx.hex, id), ctx.offers[id].digest, 1, CardId(i + 1), "auto_candidate", "")
  }

  ghost predicate RegionsFit(ctx: Context, rows: seq<GeometryRow>)
    requires Numbered(ctx, rows)
  {
    forall i | 0 <= i < |rows| :: CanonicalRegion(rows[i], ctx.width, ctx.height).Some?
  }

  ghost function CardRow(ctx: Context, rows: seq<GeometryRow>, i: nat): Card<Region>
    requires Numbered(ctx, rows) && RegionsFit(ctx, rows) && i < |rows|
  {
    Card(CardId(i + 1), 1, ctx.pageSha, CanonicalRegion(rows[i], ctx.width, ctx.height).value,
         "in_scope", "candidate", [CandidateId(ctx.hex, rows[i].objectId)], "")
  }

  ghost function CandidateRows(ctx: Context, rows: seq<GeometryRow>): (cands: seq<Candidate>)
    requires Numbered(ctx, rows)
    ensures |cands| == |rows| && forall i | 0 <= i < |rows| :: cands[i] == CandidateRow(ctx, rows, i)
  {
    seq(|rows|, i requires 0 <= i < |rows| => CandidateRow(ctx, rows, i))
  }

  ghost function CardRows(ctx: Context, rows: seq<GeometryRow>): (cards: seq<Card<Region>>)
    requires Numbered(ctx, rows) && RegionsFit(ctx, rows)
    ensures |cards| == |rows| && forall i | 0 <= i < |rows| :: cards[i] == CardRow(ctx, rows, i)
  {
    seq(|rows|, i requires 0 <= i < |rows| => CardRow(ctx, rows, i))
  }

  /** The producer stops on a digest collision between two object IDs or on a rectangle the gate would refuse. */
  ghost predicate Buildable(ctx: Context, rows: seq<GeometryRow>)
    requires Numbered(ctx, rows)
  {
    NoDup(Map(CandidateRows(ctx, rows), CandidateKey)) && RegionsFit(ctx, rows)
  }

  method BuildRows(ctx: Context, rows: seq<GeometryRow>)
    returns (ok: bool, candidates: seq<Candidate>, cards: seq<Card<Region>>)
    requires Numbered(ctx, rows)
    ensures ok <==> Buildable(ctx, rows)
    ensures ok ==> candidates == CandidateRows(ctx, rows) && cards == CardRows(ctx, rows)
  {
    hide CandidateId, CardId, CanonicalRegion;
    candidates, cards := [], [];
    ghost var all := CandidateRows(ctx, rows);
    ghost var keys := Map(all, CandidateKey);
    var seen: set<string> := {};
    for i := 0 to |rows|
      invariant candidates == all[..i]
      invariant NoDup(keys[..i]) && forall s :: s in seen <==> s in keys[..i]
      invariant |cards| == i
      invariant forall j | 0 <= j < i :: CanonicalRegion(rows[j], ctx.width, ctx.height).Some?
      invariant forall j | 0 <= j < i ::
                  cards[j] == Card(CardId(j + 1), 1, ctx.pageSha, CanonicalRegion(rows[j], ctx.width, ctx.height).value,
                                   "in_scope", "candidate", [CandidateId(ctx.hex, rows[j].objectId)], "")
    {
      var id := rows[i].objectId;
      var candidateId := CandidateId(ctx.hex, id);
      assert keys[i] == candidateId;
      if candidateId in seen {
        RepeatedKey(keys, i);
        return false, candidates, cards;
      }
      seen := seen + {candidateId};
      NoDupAppend(keys[..i], candidateId);
      assert keys[..i + 1] == keys[..i] + [candidateId];
      candidates := candidates
        + [Candidate(candidateId, ctx.offers[id].digest, 1, CardId(i + 1), "auto_candidate", "")];
      var region := CanonicalRegion(rows[i], ctx.width, ctx.height);
      if region.None? { return false, candidates, cards; }
      cards := cards + [Card(CardId(i + 1), 1, ctx.pageSha, region.value, "in_scope", "candidate", [candidateId], "")];
    }
    assert keys[..|rows|] == keys && all[..|rows|] == all;
    ok := true;
  }

  /** The payload for the gate: rows in reading order, each list with the digest of its own sorted form. */
  function PayloadOf(b: Baseline, candidates: seq<Candidate>, cards: seq<Card<Region>>): Payload {
    Payload(Header(1, MODE, ISSUE_NUMBER), b, candidates, Sha(Sort(candidates, CandidateLe)), Map(cards, AsRaw),
            Sha(Sort(cards, CardLe)))
  }
}
