/** What the EDEKA join and the accounting accept and write, said of the fields they read. */
module EdekaMeaning {
  import opened Foundations
  import opened Sorting
  import opened Formats
  import opened EdekaManifest
  import opened EdekaAccounting
  import opened EdekaJoin
  import opened EdekaConservation

  // ----- what a join takes -----

  ghost predicate IsPatzerSource(s: Source) {
    && s.chain == "edeka" && s.scope == "family_primary_edeka" && s.storeName == "EDEKA Patzer"
    && s.publicMarket == "071897" && s.internalMarket == "587881"
    && s.url == "https://www.edeka.de/maerkte/071897/angebote/"
    && Strip(s.snapshotId) != "" && Strip(s.validFrom) != "" && Strip(s.validUntil) != ""
    && Strip(s.parser) != "" && Strip(s.manifestSha) != "" && Strip(s.rawSha) != ""
  }

  /** The report names the source it was made from and splits its offers in two. */
  ghost predicate IsReportOn(s: Source, r: Normalization, offerCount: nat) {
    && r.source.publicMarket == s.publicMarket && r.source.internalMarket == s.internalMarket
    && r.source.scope == s.scope && r.source.url == s.url && r.source.snapshotId == s.snapshotId
    && r.source.validFrom == s.validFrom && r.source.validUntil == s.validUntil && r.source.parser == s.parser
    && r.offerCount == offerCount && r.resolved + r.review == offerCount && offerCount > 0
    && |r.rows| == offerCount
    && (forall k | 0 <= k < |r.rows| ::
          && Strip(r.rows[k].id) != ""
          && (Strip(r.rows[k].status) == "resolved" || Strip(r.rows[k].status) == "review_required"))
    && forall j, k | 0 <= j < k < |r.rows| :: Strip(r.rows[j].id) != Strip(r.rows[k].id)
  }

  /** The two texts agree once dashes are removed and letters are lower case. */
  ghost predicate SameSnapshot(a: string, b: string) {
    Lower(Filter(a, (c: char) => c != '-')) == Lower(Filter(b, (c: char) => c != '-'))
  }

  /** The row was written from this source, and its payload points at its own dialog. */
  ghost predicate IsRowOf(d: DbRow, s: Source) {
    && Strip(d.id) != "" && d.market == "071897" && d.store == "EDEKA Patzer"
    && d.url == "https://www.edeka.de/maerkte/071897/angebote/" && SameSnapshot(d.snapshotId, Strip(s.snapshotId))
    && d.parser == Strip(s.parser) && d.validFrom == Strip(s.validFrom) && d.validUntil == Strip(s.validUntil)
    && d.payload.Some? && d.payload.value.publicMarket == "071897" && d.payload.value.internalMarket == "587881"
    && d.payload.value.fragment == "#angebot-" + Strip(d.id)
    && d.payload.value.dialog == "dialog-angebot-" + Strip(d.id)
  }

  /** Every offer of the database is one of the report, each once and as many as there are. */
  ghost predicate IsDatabaseOf(s: Source, r: Normalization, db: seq<DbRow>, offerCount: nat) {
    && |db| == offerCount && (forall i | 0 <= i < |db| :: IsRowOf(db[i], s))
    && (forall i | 0 <= i < |db| :: exists k | 0 <= k < |r.rows| :: Strip(r.rows[k].id) == Strip(db[i].id))
    && forall i, j | 0 <= i < j < |db| :: Strip(db[i].id) != Strip(db[j].id)
  }

  lemma SnapshotsAgree(a: string, b: string)
    ensures SameSnapshot(a, b) <==> SnapshotKey(a) == SnapshotKey(b)
  {
    NoDashes(a, (c: char) => c != '-');
    NoDashes(b, (c: char) => c != '-');
  }

  lemma {:induction false} NoDashes(s: string, p: char -> bool)
    requires forall c :: p(c) <==> c != '-'
    ensures Filter(s, p) == Filter(s, NotDash)
  {
    if s != [] { NoDashes(s[1..], p); }
  }

  lemma RowOfIff(d: DbRow, s: Source)
    ensures IsRowOf(d, s) <==> DbRowOk(d, s)
  {
    hide Strip, SnapshotKey, SameSnapshot;
    SnapshotsAgree(d.snapshotId, Strip(s.snapshotId));
  }

  lemma HeadersIff(s: Source, r: Normalization, offerCount: nat)
    ensures HeaderOk(s, r, offerCount) && |r.rows| == offerCount
            && (forall k | 0 <= k < |r.rows| :: NormRowOk(r.rows[k]))
            && NoDup(Map(r.rows, NormId))
            <==> IsPatzerSource(s) && IsReportOn(s, r, offerCount)
  {
    hide Strip;
    var ids := Map(r.rows, NormId);
    assert forall k | 0 <= k < |ids| :: ids[k] == Strip(r.rows[k].id);
    assert forall k | 0 <= k < |r.rows| ::
        NormRowOk(r.rows[k]) <==>
        && Strip(r.rows[k].id) != ""
        && (Strip(r.rows[k].status) == "resolved" || Strip(r.rows[k].status) == "review_required");
  }

  lemma DatabaseIff(s: Source, r: Normalization, db: seq<DbRow>, offerCount: nat)
    ensures |db| == offerCount && (forall i | 0 <= i < |db| :: DbRowOk(db[i], s) && DbId(db[i]) in Map(r.rows, NormId))
            && NoDup(Map(db, DbId))
            <==> IsDatabaseOf(s, r, db, offerCount)
  {
    hide Strip, DbRowOk, IsRowOf;
    var ids, known := Map(db, DbId), Map(r.rows, NormId);
    assert forall i | 0 <= i < |db| :: ids[i] == Strip(db[i].id);
    assert forall k | 0 <= k < |known| :: known[k] == Strip(r.rows[k].id);
    forall i | 0 <= i < |db|
      ensures DbRowOk(db[i], s) <==> IsRowOf(db[i], s)
      ensures DbId(db[i]) in known <==> exists k | 0 <= k < |r.rows| :: Strip(r.rows[k].id) == Strip(db[i].id)
    {
      RowOfIff(db[i], s);
      if DbId(db[i]) in known { var k := IndexOf(known, DbId(db[i])); }
    }
  }

  /** The join goes through exactly for the source, a report on it and the database that belong together. */
  lemma JoinIff(s: Source, r: Normalization, db: seq<DbRow>, offerCount: nat)
    ensures JoinOk(s, r, db, offerCount)
            <==> IsPatzerSource(s) && IsReportOn(s, r, offerCount) && IsDatabaseOf(s, r, db, offerCount)
  {
    hide HeaderOk, NormRowOk, DbRowOk, IsPatzerSource, IsReportOn, IsDatabaseOf, NoDup;
    HeadersIff(s, r, offerCount);
    DatabaseIff(s, r, db, offerCount);
  }

  // ----- what a join writes -----

  /** The campaign's text: market, first and last day, and the first sixteen characters of the file's digest. */
  ghost predicate IsCampaign(id: string, s: Source) {
    exists head, rest ::
      && head + rest == Strip(s.rawSha) && |head| <= 16 && (|head| == 16 || rest == "")
      && id == "edeka-" + Strip(s.publicMarket) + "-" + Strip(s.validFrom) + "-" + Strip(s.validUntil) + "-" + head
  }

  ghost predicate IsManifestFor(m: Manifest, s: Source, review: nat) {
    && m.schemaVersion == 1 && m.strategy == "edeka_regional_source_manifest_v1" && m.retailer == "edeka"
    && m.publicMarket == "071897" && m.sourceMarket == "587881" && m.scope == "family_primary_edeka"
    && IsCampaign(m.campaignId, s) && m.validFrom == Strip(s.validFrom) && m.validTo == Strip(s.validUntil)
    && m.sourceUrl == Url("https", "www.edeka.de", "", "", "") && m.sourceSha == Strip(s.rawSha)
    && m.manifestSha == Strip(s.manifestSha) && m.parser == Strip(s.parser)
    && m.state == (if review == 0 then "available" else "review_pending")
    && !m.fallback && m.ambiguousRoute == "review_required" && m.flags == Flags(false, false, false, false, false)
  }

  /** The row is the offer with that status, bound to the manifest's campaign, files and parser. */
  ghost predicate IsOffer(r: Row, m: Manifest, id: string, status: string) {
    && r.id == id && r.page == 1 && r.cardId == "dialog-angebot-" + id && r.complete
    && r.binding == Binding(m.campaignId, m.sourceSha, m.manifestSha, m.parser)
    && (|| (status == "resolved" && r.route == Automatic && !r.ambiguous)
        || (status == "review_required" && r.route == Review && r.ambiguous))
  }

  /** The offer with the status the report gives it. */
  ghost predicate IsOfferIn(r: Row, m: Manifest, id: string, norm: seq<NormRow>) {
    exists k | 0 <= k < |norm| :: Strip(norm[k].id) == id && IsOffer(r, m, id, Strip(norm[k].status))
  }

  ghost predicate IsJoined(p: Payload, s: Source, r: Normalization, db: seq<DbRow>) {
    && p.schemaVersion == 1 && p.strategy == "edeka_candidate_provenance_v1" && IsManifestFor(p.manifest, s, r.review)
    && p.flags == Flags(false, false, false, false, false) && p.snapshotId == Strip(s.snapshotId)
    && |p.rows| == |db| && forall i | 0 <= i < |db| :: IsOfferIn(p.rows[i], p.manifest, Strip(db[i].id), r.rows)
  }

  lemma CampaignRead(s: Source)
    ensures IsCampaign(CampaignId(s), s)
  {
    hide Strip;
    var sha := Strip(s.rawSha);
    var n := if |sha| > 16 then 16 else |sha|;
    assert sha[..n] + sha[n..] == sha;
  }

  lemma ManifestRead(s: Source, review: nat)
    ensures IsManifestFor(ManifestFor(s, review), s, review)
  {
    hide Strip, CampaignId, IsCampaign;
    CampaignRead(s);
  }

  lemma OfferRead(s: Source, review: nat, r: Row, id: string, norm: seq<NormRow>)
    requires Joins(r, BindingFor(s), norm, id)
    ensures IsOfferIn(r, ManifestFor(s, review), id, norm)
  {
    hide Strip, CampaignId;
    var k :| 0 <= k < |norm| && Strip(norm[k].id) == id && RoutedBy(r, Strip(norm[k].status));
    assert IsOffer(r, ManifestFor(s, review), id, Strip(norm[k].status));
  }

  /** A successful join writes one row for each database offer, and nothing else. */
  lemma JoinedRead(s: Source, r: Normalization, db: seq<DbRow>, rows: seq<Row>)
    requires IsJoin(rows, BindingFor(s), r.rows, db)
    ensures IsJoined(JoinedPayload(s, r.review, rows), s, r, db)
  {
    hide Strip, ManifestFor, IsManifestFor, IsOfferIn, BindingFor, Joins;
    ManifestRead(s, r.review);
    forall i | 0 <= i < |db| ensures IsOfferIn(rows[i], ManifestFor(s, r.review), Strip(db[i].id), r.rows) {
      assert Joins(rows[i], BindingFor(s), r.rows, DbId(db[i]));
      OfferRead(s, r.review, rows[i], DbId(db[i]), r.rows);
    }
  }

  // ----- what the accounting takes -----

  /** Reading an ISO date as a day number succeeds for both, and the window has at most 32 days. */
  ghost predicate IsWindow(from: string, to: string, day: string -> Option<int>) {
    day(from).Some? && day(to).Some? && day(from).value <= day(to).value <= day(from).value + 31
  }

  ghost predicate IsHex64(s: string) {
    |s| == 64 && forall c | c in s :: '0' <= c <= '9' || 'a' <= c <= 'f'
  }

  ghost predicate IsParser(s: string) {
    && 3 <= |s| <= 128 && ('0' <= s[0] <= '9' || 'a' <= s[0] <= 'z' || 'A' <= s[0] <= 'Z')
    && forall c | c in s ::
         '0' <= c <= '9' || 'a' <= c <= 'z' || 'A' <= c <= 'Z' || c == '.' || c == '_' || c == '-'
  }

  ghost predicate IsOfficial(u: Url) {
    && u.scheme == "https" && u.username == "" && u.password == "" && u.fragment == ""
    && (Lower(u.host) == "edeka.de" || exists sub :: Lower(u.host) == sub + ".edeka.de")
  }

  /** A manifest of any source state. */
  ghost predicate IsManifest(m: Manifest, day: string -> Option<int>) {
    && m.schemaVersion == 1 && m.strategy == "edeka_regional_source_manifest_v1" && m.retailer == "edeka"
    && m.publicMarket == "071897" && m.sourceMarket == "587881" && m.scope == "family_primary_edeka"
    && Strip(m.campaignId) != "" && IsWindow(m.validFrom, m.validTo, day) && IsOfficial(m.sourceUrl)
    && IsHex64(m.sourceSha) && IsHex64(m.manifestSha) && IsParser(m.parser)
    && m.state in {"available", "review_pending", "not_published_yet", "source_unavailable", "evidence_mismatch",
                   "parser_failed"}
    && !m.fallback && m.ambiguousRoute == "review_required" && m.flags == Flags(false, false, false, false, false)
  }

  ghost predicate IsReadyManifest(m: Manifest, day: string -> Option<int>) {
    IsManifest(m, day) && (m.state == "available" || m.state == "review_pending")
  }

  /** A row of the list on its own; an ambiguous one is under review, and an automatic one is complete. */
  ghost predicate IsCandidate(r: Row, m: Manifest) {
    && Strip(r.id) != "" && Strip(r.cardId) != "" && r.page >= 1
    && r.binding == Binding(m.campaignId, m.sourceSha, m.manifestSha, m.parser)
    && (|| (r.route == Automatic && r.complete && !r.ambiguous)
        || r.route == Review
        || (r.route == Excluded && !r.ambiguous))
  }

  ghost predicate IsCandidateList(p: Payload, day: string -> Option<int>) {
    && p.schemaVersion == 1 && p.strategy == "edeka_candidate_provenance_v1" && IsReadyManifest(p.manifest, day)
    && p.flags == Flags(false, false, false, false, false)
    && (forall i | 0 <= i < |p.rows| :: IsCandidate(p.rows[i], p.manifest))
    && forall i, j | 0 <= i < j < |p.rows| :: p.rows[i].id != p.rows[j].id
  }

  /** The report balances, was made from this list's files, and excludes distinct cards that are not in the list. */
  ghost predicate IsAccountOf(a: Accounting, p: Payload) {
    && a.complete && !a.loss && a.sourceCards == a.parsedOffers + a.excluded
    && a.parsedOffers == |p.rows| && a.excluded == |a.cards|
    && a.snapshotId == p.snapshotId && a.manifestSha == p.manifest.manifestSha
    && a.rawSha == Some(p.manifest.sourceSha) && a.parser == Some(p.manifest.parser)
    && (forall i | 0 <= i < |p.rows| :: p.rows[i].id != "None")
    && (forall i | 0 <= i < |a.cards| ::
          && Strip(a.cards[i].id) != "" && a.cards[i].dialog == "dialog-angebot-" + a.cards[i].id
          && a.cards[i].route == "excluded" && a.cards[i].reason != "")
    && (forall i, j | 0 <= i < |a.cards| && 0 <= j < |p.rows| :: a.cards[i].id != p.rows[j].id)
    && forall i, j | 0 <= i < j < |a.cards| :: a.cards[i].id != a.cards[j].id
  }

  lemma TextsIff(s: string)
    ensures IsHex64(s) <==> IsSha256(s)
    ensures IsParser(s) <==> ParserOk(s)
  {
    if IsHex64(s) || IsParser(s) { assert forall i | 0 <= i < |s| :: s[i] in s; }
  }

  lemma OfficialIff(u: Url)
    ensures IsOfficial(u) <==> OfficialUrl(u)
  {
    hide Lower;
    var host := Lower(u.host);
    if EndsWith(host, ".edeka.de") { assert host == host[..|host| - 9] + ".edeka.de"; }
    if sub :| host == sub + ".edeka.de" { assert host[|sub|..] == ".edeka.de"; }
    LowerLength(u.host);
  }

  lemma LowerLength(s: string)
    ensures |Lower(s)| == |s|
  {
  }

  lemma ManifestIff(m: Manifest, day: string -> Option<int>)
    ensures IsManifest(m, day) <==> ManifestOk(m, day)
    ensures IsReadyManifest(m, day) <==> ManifestOk(m, day) && ShadowReady(m.state)
  {
    hide Strip, IsOfficial, OfficialUrl, IsHex64, IsSha256, IsParser, ParserOk;
    TextsIff(m.sourceSha);
    TextsIff(m.manifestSha);
    TextsIff(m.parser);
    OfficialIff(m.sourceUrl);
  }

  lemma CandidateIff(r: Row, m: Manifest)
    ensures IsCandidate(r, m) <==> RowValid(r, BindingOf(m))
  {
    hide Strip;
  }

  lemma ListIff(p: Payload, day: string -> Option<int>)
    ensures IsCandidateList(p, day) <==> PayloadOk(p, day)
  {
    hide IsReadyManifest, ManifestOk, ShadowReady, IsCandidate, RowValid, BindingOf;
    ManifestIff(p.manifest, day);
    forall i | 0 <= i < |p.rows| { CandidateIff(p.rows[i], p.manifest); }
    assert forall i | 0 <= i < |p.rows| :: Map(p.rows, IdOf)[i] == p.rows[i].id;
  }

  lemma NoneAbsent(rows: seq<Row>, id: string)
    ensures id in Map(rows, IdOf) <==> exists i | 0 <= i < |rows| :: rows[i].id == id
  {
    if id in Map(rows, IdOf) { var i := IndexOf(Map(rows, IdOf), id); assert rows[i].id == id; }
    if i :| 0 <= i < |rows| && rows[i].id == id { assert Map(rows, IdOf)[i] == id; }
  }

  lemma BlankIsNot(id: string)
    ensures Strip(id) != "" ==> id != ""
  {
  }

  lemma CardsIff(rows: seq<Row>, a: Accounting)
    ensures ExclusionsOk(rows, a.cards) && NoBlankExclusion(a) <==>
            && (forall i | 0 <= i < |a.cards| ::
                  && Strip(a.cards[i].id) != "" && a.cards[i].dialog == "dialog-angebot-" + a.cards[i].id
                  && a.cards[i].route == "excluded" && a.cards[i].reason != "")
            && (forall i, j | 0 <= i < |a.cards| && 0 <= j < |rows| :: a.cards[i].id != rows[j].id)
            && forall i, j | 0 <= i < j < |a.cards| :: a.cards[i].id != a.cards[j].id
  {
    hide Strip;
    assert forall i | 0 <= i < |a.cards| :: Map(a.cards, CardIdOf)[i] == a.cards[i].id;
    forall i | 0 <= i < |a.cards|
      ensures a.cards[i].id in Map(rows, IdOf) <==> exists j | 0 <= j < |rows| :: rows[j].id == a.cards[i].id
      ensures Strip(a.cards[i].id) != "" ==> a.cards[i].id != ""
    {
      NoneAbsent(rows, a.cards[i].id);
      BlankIsNot(a.cards[i].id);
    }
  }

  lemma AccountIff(a: Accounting, p: Payload)
    requires NoDup(Map(p.rows, IdOf))
    ensures IsAccountOf(a, p) <==> AccountingOk(p, a) && NoBlankExclusion(a)
  {
    hide Strip, ExclusionsOk, NoBlankExclusion, NoDup;
    CardsIff(p.rows, a);
    NoneAbsent(p.rows, "None");
  }

  lemma NoneExcluded(rows: seq<Row>)
    ensures RouteCount(rows, Excluded) == 0 <==> forall i | 0 <= i < |rows| :: rows[i].route != Excluded
  {
    var routes := Map(rows, RouteOf);
    assert Excluded in multiset(routes) <==> Excluded in routes;
    if Excluded in routes { var i := IndexOf(routes, Excluded); assert rows[i].route == Excluded; }
    if i :| 0 <= i < |rows| && rows[i].route == Excluded { assert routes[i] in routes; }
  }

  /** The accounting is added exactly to a valid list without exclusions of which it is the account. */
  lemma AugmentedIff(p: Payload, a: Accounting, day: string -> Option<int>)
    ensures AugmentOk(p, a, day) <==>
            && IsCandidateList(p, day) && IsAccountOf(a, p)
            && forall i | 0 <= i < |p.rows| :: p.rows[i].route != Excluded
  {
    hide AugmentOk, PayloadOk, AccountingOk, NoBlankExclusion, RouteCount, IsCandidateList, IsAccountOf;
    AugmentIff(p, a, day);
    ListIff(p, day);
    NoneExcluded(p.rows);
    if PayloadOk(p, day) {
      ValidIdsDistinct(p, day);
      AccountIff(a, p);
    }
  }

  lemma ValidIdsDistinct(p: Payload, day: string -> Option<int>)
    requires PayloadOk(p, day)
    ensures NoDup(Map(p.rows, IdOf))
  {
    hide ManifestOk, RowValid, NoDup;
  }

  /** The row added for an excluded card. */
  ghost predicate IsExcludedRow(r: Row, c: ExcludedCard, m: Manifest) {
    && r.id == c.id && r.page == 1 && r.cardId == "dialog-angebot-" + c.id && r.route == Excluded
    && r.binding == Binding(m.campaignId, m.sourceSha, m.manifestSha, m.parser) && !r.ambiguous && r.complete
  }

  ghost predicate InOrder(rows: seq<Row>) {
    forall i, j | 0 <= i < j < |rows| :: StrLe(rows[i].id, rows[j].id)
  }

  lemma ExclusionRead(p: Payload, a: Accounting, i: nat)
    requires ExclusionsOk(p.rows, a.cards) && i < |a.cards|
    ensures IsExcludedRow(ExcludedRows(BindingOf(p.manifest), a.cards)[i], a.cards[i], p.manifest)
  {
    hide NoDup;
    assert CardOk(a.cards[i]);
  }

  /** The result holds the old rows and one more for every excluded card, in order of ID; all else stays. */
  lemma AugmentedRows(p: Payload, a: Accounting)
    requires AccountingOk(p, a)
    ensures var q := Accounted(p, a);
            && q == p.(rows := q.rows) && |q.rows| == |p.rows| + |a.cards| == a.sourceCards
            && (forall r | r in p.rows :: r in q.rows)
            && (forall c | c in a.cards :: exists r | r in q.rows :: IsExcludedRow(r, c, p.manifest))
            && InOrder(q.rows)
  {
    hide InOrder, RowLe, ExclusionsOk, IsExcludedRow, ExcludedRow, NoDup, BindingOf;
    var extra := ExcludedRows(BindingOf(p.manifest), a.cards);
    var all := p.rows + extra;
    SortMembers(all, RowLe);
    RowsInOrder(all);
    var q := Accounted(p, a);
    assert q.rows == Sort(all, RowLe);
    forall r | r in p.rows ensures r in q.rows { assert r in all; }
    forall c | c in a.cards ensures exists r | r in q.rows :: IsExcludedRow(r, c, p.manifest) {
      var i := IndexOf(a.cards, c);
      ExclusionRead(p, a, i);
      assert all[|p.rows| + i] == extra[i];
      assert extra[i] in q.rows;
    }
  }

  lemma RowsInOrder(rows: seq<Row>)
    ensures InOrder(Sort(rows, RowLe))
  {
    hide StrLe;
    StrLeIsPreorder();
    assert IsPreorder(RowLe);
    SortSorted(rows, RowLe);
    var s := Sort(rows, RowLe);
    forall i, j | 0 <= i < j < |s| ensures StrLe(s[i].id, s[j].id) { assert RowLe(s[i], s[j]); }
  }
}
