/** Joining parsed EDEKA offers with their normalization into a candidate list bound to one source. */
module EdekaJoin {
  import opened Foundations
  import opened Sorting
  import opened Formats
  import opened EdekaManifest
  import opened EdekaAccounting

  const STORE_NAME: string := "EDEKA Patzer"
  const SOURCE_URL: string := "https://www.edeka.de/maerkte/071897/angebote/"
  const SOURCE_URL_PARTS: Url := Url("https", "www.edeka.de", "", "", "")

  /** The source of a capture cycle. */
  datatype Source = Source(chain: string, scope: string, publicMarket: string, internalMarket: string,
                           storeName: string, url: string, snapshotId: string, validFrom: string,
                           validUntil: string, parser: string, manifestSha: string, rawSha: string)

  /** What the normalization report repeats of the source. */
  datatype SourceRef = SourceRef(publicMarket: string, internalMarket: string, scope: string, url: string,
                                 snapshotId: string, validFrom: string, validUntil: string, parser: string)

  datatype NormRow = NormRow(id: string, status: string)

  datatype Normalization = Normalization(source: SourceRef, offerCount: nat, resolved: nat, review: nat,
                                         rows: seq<NormRow>)

  datatype DbPayload = DbPayload(publicMarket: string, internalMarket: string, fragment: string, dialog: string)

  /** A database row; the payload is absent when its text is not a JSON object. */
  datatype DbRow = DbRow(id: string, market: string, store: string, url: string, snapshotId: string, parser: string,
                         validFrom: string, validUntil: string, payload: Option<DbPayload>)

  predicate SourceOk(src: Source) {
    && src.chain == "edeka" && src.scope == SCOPE
    && src.publicMarket == PUBLIC_MARKET && src.internalMarket == SOURCE_MARKET
    && src.storeName == STORE_NAME && src.url == SOURCE_URL
    && NonBlank(src.snapshotId) && NonBlank(src.validFrom) && NonBlank(src.validUntil)
    && NonBlank(src.parser) && NonBlank(src.manifestSha) && NonBlank(src.rawSha)
  }

  function RefTo(src: Source): SourceRef {
    SourceRef(src.publicMarket, src.internalMarket, src.scope, src.url, src.snapshotId, src.validFrom, src.validUntil,
              src.parser)
  }

  function CampaignId(src: Source): string {
    var sha := Strip(src.rawSha);
    "edeka-" + Strip(src.publicMarket) + "-" + Strip(src.validFrom) + "-" + Strip(src.validUntil) + "-"
    + (if |sha| > 16 then sha[..16] else sha)
  }

  function BindingFor(src: Source): Binding {
    Binding(CampaignId(src), Strip(src.rawSha), Strip(src.manifestSha), Strip(src.parser))
  }

  predicate NotDash(c: char) {
    c != '-'
  }

  /** Snapshot IDs are compared without dashes and in lower case. */
  function SnapshotKey(s: string): string {
    Lower(Filter(s, NotDash))
  }

  function NormId(n: NormRow): string {
    Strip(n.id)
  }

  function DbId(d: DbRow): string {
    Strip(d.id)
  }

  predicate NormRowOk(n: NormRow) {
    NonBlank(n.id) && (Strip(n.status) == "resolved" || Strip(n.status) == "review_required")
  }

  predicate DbRowOk(d: DbRow, src: Source) {
    && NonBlank(d.id)
    && d.market == PUBLIC_MARKET && d.store == STORE_NAME
    && d.url == SOURCE_URL && SnapshotKey(d.snapshotId) == SnapshotKey(Strip(src.snapshotId))
    && d.parser == Strip(src.parser)
    && d.validFrom == Strip(src.validFrom) && d.validUntil == Strip(src.validUntil)
    && d.payload.Some?
    && d.payload.value == DbPayload(PUBLIC_MARKET, SOURCE_MARKET, "#angebot-" + DbId(d), Dialog(DbId(d)))
  }

  function RouteFor(status: string): Route {
    if status == "resolved" then Automatic else Review
  }

  function JoinedRow(b: Binding, id: string, status: string): Row {
    var route := RouteFor(status);
    Row(id, b, 1, Dialog(id), route, route == Review, true)
  }

  /** The rows on both sides name the same offers, each once. */
  ghost predicate RowsMatch(src: Source, norm: seq<NormRow>, db: seq<DbRow>, offerCount: nat) {
    && |norm| == offerCount && |db| == offerCount
    && (forall i | 0 <= i < |norm| :: NormRowOk(norm[i])) && NoDup(Map(norm, NormId))
    && (forall i | 0 <= i < |db| :: DbRowOk(db[i], src) && DbId(db[i]) in Map(norm, NormId)) && NoDup(Map(db, DbId))
  }

  predicate HeaderOk(src: Source, report: Normalization, offerCount: nat) {
    && SourceOk(src) && offerCount > 0
    && report.source == RefTo(src)
    && report.offerCount == offerCount && report.resolved + report.review == offerCount
  }

  ghost predicate JoinOk(src: Source, report: Normalization, db: seq<DbRow>, offerCount: nat) {
    HeaderOk(src, report, offerCount) && RowsMatch(src, report.rows, db, offerCount)
  }

  /** A resolved offer becomes an automatic candidate, one marked for review an ambiguous candidate under review. */
  predicate RoutedBy(r: Row, status: string) {
    || (status == "resolved" && r.route == Automatic && !r.ambiguous)
    || (status == "review_required" && r.route == Review && r.ambiguous)
  }

  /** The row is the database offer, on page 1 under its dialog, routed by the status of its normalization row. */
  ghost predicate Joins(r: Row, b: Binding, norm: seq<NormRow>, id: string) {
    && r.id == id && r.binding == b && r.page == 1 && r.cardId == "dialog-angebot-" + id && r.complete
    && exists k | 0 <= k < |norm| :: Strip(norm[k].id) == id && RoutedBy(r, Strip(norm[k].status))
  }

  ghost predicate IsJoin(rows: seq<Row>, b: Binding, norm: seq<NormRow>, db: seq<DbRow>) {
    |rows| == |db| && forall i | 0 <= i < |db| :: Joins(rows[i], b, norm, DbId(db[i]))
  }

  method ReadNormalization(norm: seq<NormRow>) returns (ok: bool, status: map<string, string>)
    ensures ok <==> (forall i | 0 <= i < |norm| :: NormRowOk(norm[i])) && NoDup(Map(norm, NormId))
    ensures ok ==> forall id :: id in status <==> id in Map(norm, NormId)
    ensures ok
            ==> forall k | 0 <= k < |norm| ::
              NormId(norm[k]) in status && status[NormId(norm[k])] == Strip(norm[k].status)
  {
    hide NormRowOk, Strip;
    status := map[];
    for i := 0 to |norm|
      invariant forall j | 0 <= j < i :: NormRowOk(norm[j])
      invariant NoDup(Map(norm[..i], NormId))
      invariant forall id :: id in status <==> id in Map(norm[..i], NormId)
      invariant forall k | 0 <= k < i :: NormId(norm[k]) in status && status[NormId(norm[k])] == Strip(norm[k].status)
    {
      var id := NormId(norm[i]);
      MapGrows(norm, i, NormId);
      if id in status {
        Repeated(norm, i, NormId);
        return false, status;
      }
      if !NormRowOk(norm[i]) { return false, status; }
      NoDupAppend(Map(norm[..i], NormId), id);
      forall k | 0 <= k < i ensures NormId(norm[k]) != id { assert Map(norm[..i], NormId)[k] == NormId(norm[k]); }
      status := status[id := Strip(norm[i].status)];
    }
    assert norm[..|norm|] == norm;
    ok := true;
  }

  /** The last comparison of the join, of all normalization IDs with all database IDs, cannot fail: the database IDs are
    * as many distinct members of the other set. */
  lemma FinalSetCheckImplied(src: Source, norm: seq<NormRow>, db: seq<DbRow>, offerCount: nat)
    requires RowsMatch(src, norm, db, offerCount)
    ensures multiset(Map(norm, NormId)) == multiset(Map(db, DbId))
    ensures forall id :: id in Map(norm, NormId) <==> id in Map(db, DbId)
  {
    hide NormRowOk, DbRowOk, Strip;
    var a, b := Map(norm, NormId), Map(db, DbId);
    NoDupCount(a);
    NoDupCount(b);
    forall id ensures multiset(b)[id] <= multiset(a)[id] {
      if id in b {
        var i := IndexOf(b, id);
        assert id in a && id in multiset(a);
      } else {
        assert id !in multiset(b);
      }
    }
    assert multiset(b) <= multiset(a);
    SubMultisetSize(multiset(b), multiset(a));
    SameMembers(a, b);
  }

  lemma RowFollowsStatus(b: Binding, id: string, status: string)
    requires status == "resolved" || status == "review_required"
    ensures var r := JoinedRow(b, id, status);
            && r.id == id && r.binding == b && r.page == 1 && r.cardId == "dialog-angebot-" + id && r.complete
            && RoutedBy(r, status)
  {
  }

  lemma RowsAreJoin(b: Binding, norm: seq<NormRow>, db: seq<DbRow>, status: map<string, string>, rows: seq<Row>)
    requires forall i | 0 <= i < |db| :: DbId(db[i]) in Map(norm, NormId)
    requires forall k | 0 <= k < |norm| :: NormId(norm[k]) in status && status[NormId(norm[k])] == Strip(norm[k].status)
    requires forall k | 0 <= k < |norm| :: NormRowOk(norm[k])
    requires |rows| == |db|
    requires forall i | 0 <= i < |db| ::
               DbId(db[i]) in status && rows[i] == JoinedRow(b, DbId(db[i]), status[DbId(db[i])])
    ensures IsJoin(rows, b, norm, db)
  {
    hide JoinedRow, RoutedBy, Strip;
    forall i | 0 <= i < |db| ensures Joins(rows[i], b, norm, DbId(db[i])) {
      var k := IndexOf(Map(norm, NormId), DbId(db[i]));
      assert NormId(norm[k]) == DbId(db[i]);
      RowFollowsStatus(b, DbId(db[i]), Strip(norm[k].status));
    }
  }

  /** The loop over the database rows. */
  method JoinRows(src: Source, norm: seq<NormRow>, db: seq<DbRow>, offerCount: nat) returns (ok: bool, rows: seq<Row>)
    ensures ok <==> RowsMatch(src, norm, db, offerCount)
    ensures ok ==> IsJoin(rows, BindingFor(src), norm, db)
  {
    hide NormRowOk, DbRowOk, JoinedRow, IsJoin, BindingFor, Strip, NoDup;
    NoKeys(DbId);
    var b := BindingFor(src);
    rows := [];
    if |norm| != offerCount { return false, rows; }
    var good, status := ReadNormalization(norm);
    if !good || |db| != offerCount { return false, rows; }
    var seen: set<string> := {};
    for i := 0 to |db|
      invariant forall j | 0 <= j < i :: DbRowOk(db[j], src) && DbId(db[j]) in Map(norm, NormId)
      invariant NoDup(Map(db[..i], DbId)) && forall id :: id in seen <==> id in Map(db[..i], DbId)
      invariant |rows| == i
      invariant forall j | 0 <= j < i ::
                  DbId(db[j]) in status && rows[j] == JoinedRow(b, DbId(db[j]), status[DbId(db[j])])
    {
      var d := db[i];
      var id := DbId(d);
      MapGrows(db, i, DbId);
      if id in seen {
        Repeated(db, i, DbId);
        return false, rows;
      }
      if id !in status || !DbRowOk(d, src) { return false, rows; }
      NoDupAppend(Map(db[..i], DbId), id);
      seen := seen + {id};
      rows := rows + [JoinedRow(b, id, status[id])];
    }
    assert db[..|db|] == db;
    FinalSetCheckImplied(src, norm, db, offerCount);
    RowsAreJoin(b, norm, db, status, rows);
    assert forall id :: id in status.Keys <==> id in seen;
    ok := status.Keys == seen;
  }

  // ----- the joined payload -----

  function ManifestFor(src: Source, review: nat): Manifest {
    Manifest(1, MANIFEST_STRATEGY, "edeka", PUBLIC_MARKET, SOURCE_MARKET, SCOPE, CampaignId(src), Strip(src.validFrom),
             Strip(src.validUntil), SOURCE_URL_PARTS, Strip(src.rawSha), Strip(src.manifestSha), Strip(src.parser),
             if review > 0 then "review_pending" else "available", false, "review_required", NO_WRITES)
  }

  function JoinedPayload(src: Source, review: nat, rows: seq<Row>): Payload {
    Payload(1, STRATEGY, ManifestFor(src, review), rows, NO_WRITES, Strip(src.snapshotId))
  }

  method Join(src: Source, report: Normalization, db: seq<DbRow>, offerCount: nat) returns (r: Option<Payload>)
    ensures r.Some? <==> JoinOk(src, report, db, offerCount)
    ensures r.Some? ==> IsJoin(r.value.rows, BindingFor(src), report.rows, db)
                        && r.value == JoinedPayload(src, report.review, r.value.rows)
    ensures r.Some? ==> forall i, k | 0 <= i < |r.value.rows| && 0 <= k < |report.rows| ::
              Strip(report.rows[k].id) == r.value.rows[i].id ==>
                && (r.value.rows[i].route == Automatic <==> Strip(report.rows[k].status) == "resolved")
                && (r.value.rows[i].route == Review <==> Strip(report.rows[k].status) == "review_required")
                && r.value.rows[i].ambiguous == (r.value.rows[i].route == Review)
  {
    hide RowsMatch, IsJoin, BindingFor, ManifestFor, Strip, SourceOk, RoutedBy;
    if !HeaderOk(src, report, offerCount) { return None; }
    var ok, rows := JoinRows(src, report.rows, db, offerCount);
    if !ok { return None; }
    RoutesFollowStatus(src, report.rows, db, offerCount, rows);
    r := Some(JoinedPayload(src, report.review, rows));
  }

  lemma RoutesFollowStatus(src: Source, norm: seq<NormRow>, db: seq<DbRow>, offerCount: nat, rows: seq<Row>)
    requires RowsMatch(src, norm, db, offerCount) && IsJoin(rows, BindingFor(src), norm, db)
    ensures forall i, k | 0 <= i < |rows| && 0 <= k < |norm| ::
              Strip(norm[k].id) == rows[i].id ==>
                && (rows[i].route == Automatic <==> Strip(norm[k].status) == "resolved")
                && (rows[i].route == Review <==> Strip(norm[k].status) == "review_required")
                && rows[i].ambiguous == (rows[i].route == Review)
  {
    hide NormRowOk, DbRowOk, Strip, BindingFor;
    var b := BindingFor(src);
    forall i, k | 0 <= i < |rows| && 0 <= k < |norm| && Strip(norm[k].id) == rows[i].id
      ensures RoutedBy(rows[i], Strip(norm[k].status))
    {
      assert Joins(rows[i], b, norm, DbId(db[i]));
      var j :| 0 <= j < |norm| && Strip(norm[j].id) == DbId(db[i]) && RoutedBy(rows[i], Strip(norm[j].status));
      NoDupIndex(Map(norm, NormId), j, k);
    }
  }

  /** The formats the manifest validator asks for and the join does not look at. */
  predicate FormatsOk(src: Source, day: string -> Option<int>) {
    && WindowOk(Strip(src.validFrom), Strip(src.validUntil), day)
    && IsSha256(Strip(src.rawSha)) && IsSha256(Strip(src.manifestSha)) && ParserOk(Strip(src.parser))
  }

  /** The manifest a join writes is valid exactly when those formats hold; the rest is right by construction. */
  lemma JoinedManifestOk(src: Source, review: nat, day: string -> Option<int>)
    ensures var m := ManifestFor(src, review);
            && (ManifestOk(m, day) <==> FormatsOk(src, day))
            && ShadowReady(m.state) && BindingOf(m) == BindingFor(src)
  {
    hide Strip, WindowOk, IsSha256, ParserOk, IsSpace;
    var id := CampaignId(src);
    assert id[0] == 'e';
    LetterIsNoSpace();
    NonSpaceStart(id);
    assert Lower("www.edeka.de") == "www.edeka.de";
    assert "www.edeka.de"[3..] == ".edeka.de";
  }

  lemma LetterIsNoSpace()
    ensures !IsSpace('e') && !IsSpace('d')
  {
  }
}
