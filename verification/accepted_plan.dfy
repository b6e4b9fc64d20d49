/** What the work package of an accepted plan holds, read off the bundle and the plan themselves. */
module AcceptedPlan {
  import opened Foundations
  import opened Sorting
  import opened ParityModel
  import opened CardLedger
  import opened GateC
  import opened GateCAgreement
  import opened PageRelabelling
  import opened RelabellingConserves

  ghost predicate TakesOver(carry: map<nat, Origin>, oldPage: nat) {
    exists p | p in carry :: carry[p].oldPage == oldPage
  }

  /** What the gate checks of the plan it is given: 41 pages, of which 39 take over the cards of old pages one to one.
    * Old pages 37 and 41 are dropped. */
  ghost predicate PlanOk(manifest: seq<ManifestRow>, carry: map<nat, Origin>) {
    && |manifest| == 41
    && (forall i | 0 <= i < |manifest| :: 1 <= manifest[i].page <= 41 && |manifest[i].sha| == 64)
    && (forall i | 0 <= i < |manifest| :: manifest[i].page == 3 ==> manifest[i].sha == PAGE_3_SHA)
    && (forall i | 0 <= i < |manifest| :: manifest[i].page == 41 ==> manifest[i].sha == PAGE_41_SHA)
    && NoDup(Map(manifest, PageOf))
    && (forall p: nat :: p in carry <==> 1 <= p <= 41 && p != 3 && p != 41)
    && (forall p, q | p in carry && q in carry && carry[p].oldPage == carry[q].oldPage :: p == q)
    && (forall n: nat :: TakesOver(carry, n) <==> 1 <= n <= 41 && n != 37 && n != 41)
  }

  /** Every page of an accepted plan has its place, and no old page is carried twice. */
  lemma PlanPlacesPages(manifest: seq<ManifestRow>, carry: map<nat, Origin>)
    requires PlanOk(manifest, carry)
    ensures var pages := Map(manifest, PageOf);
            PagesSmall(pages) && Partitioned(pages, carry) && NoDup(pages) && InjectiveOn(pages, carry)
  {
    var pages := Map(manifest, PageOf);
    forall i | 0 <= i < |pages| ensures pages[i] == manifest[i].page {}
  }

  /** All 41 page numbers occur. */
  lemma AllPagesListed(manifest: seq<ManifestRow>, carry: map<nat, Origin>, page: nat)
    requires PlanOk(manifest, carry) && 1 <= page <= 41
    ensures page in Map(manifest, PageOf)
  {
    var pages := Map(manifest, PageOf);
    DistinctTest(pages);
    var listed := (set p | p in pages);
    forall p | p in listed ensures p in Range(41) {
      var i := IndexOf(pages, p);
      assert pages[i] == manifest[i].page;
    }
    SubsetSize(listed, Range(41));
    assert page in Range(41);
  }

  // ----- cards -----

  /** Old pages whose cards are kept. */
  predicate IsKept(n: nat) {
    1 <= n <= 41 && n != 37 && n != 41
  }

  /** Entry x carries card c of old page n: same scope and reason, the same offer keys in sorted order, and an ID with
    * the same ordinal on the new page that takes over page n. */
  ghost predicate Copies(x: Carried, r: ReverseRow, n: nat, ordinal: nat, carry: map<nat, Origin>)
    requires n < 1000 && ordinal < 1000
  {
    && r.cardId == "preview:p" + Pad3(n) + ":c" + Pad3(ordinal)
    && x.oldId == r.cardId && x.oldPage == n
    && multiset(x.keys) == multiset(r.matchedKeys) && IsSorted(x.keys, StrLe)
    && x.scope == r.scope && x.reason == r.unmatchedReason
    && x.newPage in carry && x.newPage < 1000 && carry[x.newPage].oldPage == n
    && x.newId == "current:p" + Pad3(x.newPage) + ":c" + Pad3(ordinal)
  }

  lemma IdText(p: Page, n: nat, ordinal: nat)
    requires n < 1000 && ordinal < 1000
    ensures FormatCardId(CardRef(p, n, ordinal)) == PageName(p) + ":p" + Pad3(n) + ":c" + Pad3(ordinal)
  {
    hide Pad3;
    var head, mid, tail := PageName(p) + ":p", Pad3(n), Pad3(ordinal);
    assert (head + mid + ":") + ("c" + tail) == head + mid + ":c" + tail;
  }

  lemma OnPreviewIff(r: ReverseRow, n: nat, ordinal: nat)
    requires n < 1000 && ordinal < 1000
    ensures r.cardId == "preview:p" + Pad3(n) + ":c" + Pad3(ordinal)
            <==> ParseCardId(r.cardId) == Some(CardRef(Preview, n, ordinal))
  {
    hide Pad3, ParseCardId, FormatCardId;
    IdText(Preview, n, ordinal);
    CardIdRoundTrip(CardRef(Preview, n, ordinal), r.cardId);
  }

  // ----- the cards kept of the bundle -----

  /** The row is of a card of that preview page. */
  ghost predicate IsOfPreviewPage(r: ReverseRow, n: nat)
    requires n < 1000
  {
    exists ordinal: nat | ordinal < 1000 :: r.cardId == "preview:p" + Pad3(n) + ":c" + Pad3(ordinal)
  }

  /** The entry keeps the row's offer keys, sorted, and its scope and reason. */
  ghost predicate Keeps(c: OldCard, r: ReverseRow) {
    && c.cardId == r.cardId && c.scope == r.scope && c.reason == r.unmatchedReason
    && multiset(c.keys) == multiset(r.matchedKeys) && IsSorted(c.keys, StrLe)
  }

  lemma PreviewPageIff(r: ReverseRow, n: nat)
    requires n < 1000
    ensures IsOfPreviewPage(r, n) <==> OnPreview(r, n)
  {
    hide Pad3, ParseCardId;
    if OnPreview(r, n) {
      ParsedIdBounds(r.cardId);
      OnPreviewIff(r, n, ParseCardId(r.cardId).value.ordinal);
    }
    if ordinal: nat :| ordinal < 1000 && r.cardId == "preview:p" + Pad3(n) + ":c" + Pad3(ordinal) {
      OnPreviewIff(r, n, ordinal);
    }
  }

  lemma KeptKeeps(r: ReverseRow)
    ensures Keeps(KeptCard(r), r)
  {
    hide StrLe;
    StrLeIsPreorder();
    SortSorted(r.matchedKeys, StrLe);
  }

  /** A preview page's bindings are one entry for each of its rows, in order of card ID. */
  lemma BindingsRead(rs: seq<ReverseRow>, n: nat)
    requires DistinctCards(rs) && n < 1000
    ensures var cs := Bindings(rs, n);
            && (forall r | r in rs && IsOfPreviewPage(r, n) :: exists c | c in cs :: Keeps(c, r))
            && (forall c | c in cs :: exists r | r in rs :: IsOfPreviewPage(r, n) && Keeps(c, r))
            && forall i, j | 0 <= i < j < |cs| :: cs[i].cardId != cs[j].cardId && StrLe(cs[i].cardId, cs[j].cardId)
  {
    hide StrLe, OnPreview, IsOfPreviewPage, KeptCard, Keeps, Collected, DistinctCards;
    var cs := Bindings(rs, n);
    BindingsExact(rs, n);
    forall r | r in rs ensures IsOfPreviewPage(r, n) <==> OnPreview(r, n) ensures Keeps(KeptCard(r), r) {
      PreviewPageIff(r, n);
      KeptKeeps(r);
    }
    forall r | r in rs && IsOfPreviewPage(r, n) ensures exists c | c in cs :: Keeps(c, r) { assert KeptCard(r) in cs; }
    StrLeIsPreorder();
    assert IsPreorder(OldCardLe);
    SortSorted(Collected(rs, n), OldCardLe);
    forall i, j | 0 <= i < j < |cs| ensures cs[i].cardId != cs[j].cardId && StrLe(cs[i].cardId, cs[j].cardId) {
      assert Map(cs, OldIdOf)[i] != Map(cs, OldIdOf)[j] && OldCardLe(cs[i], cs[j]);
    }
  }

  lemma CarriedCopies(r: ReverseRow, p: nat, n: nat, ordinal: nat, carry: map<nat, Origin>)
    requires p < 1000 && p in carry && carry[p].oldPage == n && n < 1000 && ordinal < 1000
    requires ParseCardId(r.cardId) == Some(CardRef(Preview, n, ordinal))
    ensures Copies(CarryCard(p, n, KeptCard(r)), r, n, ordinal, carry)
  {
    hide Pad3, ParseCardId, FormatCardId, Relabel, StrLe;
    OnPreviewIff(r, n, ordinal);
    StrLeIsPreorder();
    SortSorted(r.matchedKeys, StrLe);
    RelabelKeepsOrdinal(p, r.cardId);
    IdText(Current, p, ordinal);
    CardIdRoundTrip(CardRef(Current, p, ordinal), Relabel(p, r.cardId));
  }

  lemma OriginOf(manifest: seq<ManifestRow>, carry: map<nat, Origin>, n: nat) returns (p: nat)
    requires PlanOk(manifest, carry) && 1 <= n <= 41 && n != 37 && n != 41
    ensures p < 1000 && p in carry && carry[p].oldPage == n && p in Map(manifest, PageOf)
  {
    assert TakesOver(carry, n);
    p :| p in carry && carry[p].oldPage == n;
    AllPagesListed(manifest, carry, p);
  }

  lemma CarriesIt(r: ReverseRow, p: nat, carry: map<nat, Origin>, rs: seq<ReverseRow>)
    requires r in rs && p in carry && p < 1000 && OnPreview(r, carry[p].oldPage)
    ensures Carries(CarryCard(p, carry[p].oldPage, KeptCard(r)), p, carry, rs)
  {
  }

  /** With an accepted plan every preview card of the bundle on a kept page is carried, by one entry only, and that
    * entry is a copy of the card's own reverse row. */
  lemma EveryCardMoves(manifest: seq<ManifestRow>, carry: map<nat, Origin>, legacy: map<nat, seq<OldCard>>,
                       page3: Option<seq<FreshCandidate>>, rs: seq<ReverseRow>, r: ReverseRow, n: nat, ordinal: nat)
    requires PlanOk(manifest, carry) && BindingsOf(legacy, rs) && DistinctCards(rs)
    requires r in rs && IsKept(n) && ordinal < 1000 && r.cardId == "preview:p" + Pad3(n) + ":c" + Pad3(ordinal)
    ensures PagesSmall(Map(manifest, PageOf)) && Partitioned(Map(manifest, PageOf), carry)
    ensures var carried := WorkOf(manifest, carry, Some(legacy), page3).carried;
            && (exists x | x in carried :: Copies(x, r, n, ordinal, carry))
            && forall i, j | 0 <= i < j < |carried| ::
                 carried[i].oldId != carried[j].oldId && carried[i].newId != carried[j].newId
  {
    hide PlanOk, OnPreview, BindingsOf, DistinctCards, Carries, CarriedAll, InjectiveOn, PageRows, KeptCard, Copies;
    hide ParseCardId, CarryCard, Pad3;
    PlanPlacesPages(manifest, carry);
    var pages := Map(manifest, PageOf);
    var p := OriginOf(manifest, carry, n);
    OnPreviewIff(r, n, ordinal);
    NamesPage(r, n, ordinal);
    RelabellingIsExact(pages, carry, legacy, rs);
    CarriesIt(r, p, carry, rs);
    CarriedCopies(r, p, n, ordinal, carry);
    var carried := WorkOf(manifest, carry, Some(legacy), page3).carried;
    assert CarryCard(p, n, KeptCard(r)) in carried;
    DistinctEntries(carried);
  }

  lemma NamesPage(r: ReverseRow, n: nat, ordinal: nat)
    requires ParseCardId(r.cardId) == Some(CardRef(Preview, n, ordinal))
    ensures OnPreview(r, n)
  {
  }

  lemma DistinctEntries(carried: seq<Carried>)
    requires NoDup(Map(carried, SourceIdOf)) && NoDup(Map(carried, NewIdOf))
    ensures forall i, j | 0 <= i < j < |carried| ::
              carried[i].oldId != carried[j].oldId && carried[i].newId != carried[j].newId
  {
    forall i, j | 0 <= i < j < |carried|
      ensures carried[i].oldId != carried[j].oldId && carried[i].newId != carried[j].newId
    {
      assert Map(carried, SourceIdOf)[i] != Map(carried, SourceIdOf)[j];
      assert Map(carried, NewIdOf)[i] != Map(carried, NewIdOf)[j];
    }
  }

  /** Nothing else is carried. */
  lemma OnlyCardsMove(manifest: seq<ManifestRow>, carry: map<nat, Origin>, legacy: map<nat, seq<OldCard>>,
                      page3: Option<seq<FreshCandidate>>, rs: seq<ReverseRow>, x: Carried)
    returns (r: ReverseRow, n: nat, ordinal: nat)
    requires PlanOk(manifest, carry) && BindingsOf(legacy, rs) && DistinctCards(rs)
    requires PagesSmall(Map(manifest, PageOf)) && Partitioned(Map(manifest, PageOf), carry)
    requires x in WorkOf(manifest, carry, Some(legacy), page3).carried
    ensures r in rs && IsKept(n) && ordinal < 1000 && Copies(x, r, n, ordinal, carry)
  {
    hide BindingsOf, DistinctCards, CarriedAll, InjectiveOn, PageRows, KeptCard, Copies, ParseCardId, CarryCard, Pad3;
    PlanPlacesPages(manifest, carry);
    RelabellingIsExact(Map(manifest, PageOf), carry, legacy, rs);
    var p :| p in Map(manifest, PageOf) && Carries(x, p, carry, rs);
    n := carry[p].oldPage;
    assert TakesOver(carry, n);
    r :| r in rs && OnPreview(r, n) && x == CarryCard(p, n, KeptCard(r));
    ordinal := ParseCardId(r.cardId).value.ordinal;
    ParsedIdBounds(r.cardId);
    CarriedCopies(r, p, n, ordinal, carry);
  }

  /** With an accepted bundle, an offer matched to a preview card of a kept page has its key in exactly one carried
    * entry, that of its card. */
  lemma MatchedOfferMovesOnce(b: Report, expected: map<Status, nat>, manifest: seq<ManifestRow>,
                              carry: map<nat, Origin>, legacy: map<nat, seq<OldCard>>,
                              page3: Option<seq<FreshCandidate>>, m: Mapping, n: nat, ordinal: nat)
    requires WrapperAccepts(b, expected) && PlanOk(manifest, carry) && BindingsOf(legacy, b.reverse)
    requires m in b.mappings && m.status == Matched && IsKept(n) && ordinal < 1000
    requires m.cardId == Some("preview:p" + Pad3(n) + ":c" + Pad3(ordinal))
    ensures PagesSmall(Map(manifest, PageOf)) && Partitioned(Map(manifest, PageOf), carry)
    ensures var carried := WorkOf(manifest, carry, Some(legacy), page3).carried;
            exists i | 0 <= i < |carried| ::
              && carried[i].oldId == m.cardId.value && m.candidate.offerKey in carried[i].keys
              && forall j | 0 <= j < |carried| && j != i :: m.candidate.offerKey !in carried[j].keys
  {
    hide PlanOk, BindingsOf, WrapperAccepts, WorkOf, Pad3, PagesSmall, Partitioned, Copies, CoreAccepts, DistinctCards;
    var r := RowOfMatch(b, expected, m);
    BundleCards(b, expected);
    EveryCardMoves(manifest, carry, legacy, page3, b.reverse, r, n, ordinal);
    var carried := WorkOf(manifest, carry, Some(legacy), page3).carried;
    var x :| x in carried && Copies(x, r, n, ordinal, carry);
    CopiedKeys(x, r, n, ordinal, carry);
    var i := IndexOf(carried, x);
    forall j | 0 <= j < |carried| && j != i ensures m.candidate.offerKey !in carried[j].keys {
      EntryWithoutKey(b, expected, manifest, carry, legacy, page3, r, carried[j], m.candidate.offerKey);
    }
  }

  lemma RowOfMatch(b: Report, expected: map<Status, nat>, m: Mapping) returns (r: ReverseRow)
    requires WrapperAccepts(b, expected) && m in b.mappings && m.status == Matched
    ensures r in b.reverse && m.cardId == Some(r.cardId) && m.candidate.offerKey in r.matchedKeys
  {
    hide WrapperAccepts;
    AcceptedIsInverse(b, expected);
    var q := IndexOf(b.mappings, m);
    var t :| 0 <= t < |b.reverse| && MatchedTo(b.mappings[q], b.reverse[t].cardId)
             && b.mappings[q].candidate.offerKey in b.reverse[t].matchedKeys;
    r := b.reverse[t];
  }

  /** An entry for another card than that of row r does not hold a key of r. */
  lemma EntryWithoutKey(b: Report, expected: map<Status, nat>, manifest: seq<ManifestRow>, carry: map<nat, Origin>,
                        legacy: map<nat, seq<OldCard>>, page3: Option<seq<FreshCandidate>>, r: ReverseRow, x: Carried,
                        key: string)
    requires CoreAccepts(b, expected) && DistinctCards(b.reverse) && PlanOk(manifest, carry)
    requires BindingsOf(legacy, b.reverse)
    requires PagesSmall(Map(manifest, PageOf)) && Partitioned(Map(manifest, PageOf), carry)
    requires x in WorkOf(manifest, carry, Some(legacy), page3).carried
    requires r in b.reverse && key in r.matchedKeys && x.oldId != r.cardId
    ensures key !in x.keys
  {
    hide PlanOk, BindingsOf, CoreAccepts, WorkOf, PagesSmall, Partitioned, Copies, DistinctCards;
    var s, n, ordinal := OnlyCardsMove(manifest, carry, legacy, page3, b.reverse, x);
    CopiedKeys(x, s, n, ordinal, carry);
    if key in x.keys { KeyNamesCard(b, expected, r, s, key); }
  }

  lemma BundleCards(b: Report, expected: map<Status, nat>)
    requires WrapperAccepts(b, expected)
    ensures CoreAccepts(b, expected) && DistinctCards(b.reverse)
  {
  }

  lemma CopiedKeys(x: Carried, r: ReverseRow, n: nat, ordinal: nat, carry: map<nat, Origin>)
    requires n < 1000 && ordinal < 1000 && Copies(x, r, n, ordinal, carry)
    ensures x.oldId == r.cardId && forall key :: key in x.keys <==> key in r.matchedKeys
  {
    SameMembers(x.keys, r.matchedKeys);
  }

  // ----- pages -----

  /** The preview cards of page n. */
  function CardsOn(rs: seq<ReverseRow>, n: nat): seq<ReverseRow>
    requires n < 1000
  {
    Filter(rs, (r: ReverseRow) => "preview:p" + Pad3(n) + ":" <= r.cardId)
  }

  lemma {:induction false} CollectedIsFilter(rs: seq<ReverseRow>, n: nat)
    requires n < 1000 && forall r | r in rs :: ParseCardId(r.cardId).Some?
    ensures |Collected(rs, n)| == |CardsOn(rs, n)|
  {
    hide ParseCardId, Pad3, KeptCard, CardsOn;
    if rs == [] {
      NoCards(n);
    } else {
      var k := |rs| - 1;
      CollectedIsFilter(rs[..k], n);
      assert rs[k] in rs;
      OneMoreCard(rs, n);
      NamedByPrefix(rs[k], n);
    }
  }

  lemma NoCards(n: nat)
    requires n < 1000
    ensures CardsOn([], n) == []
  {
  }

  lemma OneMoreCard(rs: seq<ReverseRow>, n: nat)
    requires n < 1000 && rs != []
    ensures var k := |rs| - 1;
            CardsOn(rs, n)
            == CardsOn(rs[..k], n) + if "preview:p" + Pad3(n) + ":" <= rs[k].cardId then [rs[k]] else []
  {
    hide Pad3;
    FilterLast(rs, (r: ReverseRow) => "preview:p" + Pad3(n) + ":" <= r.cardId);
  }

  lemma NamedByPrefix(r: ReverseRow, n: nat)
    requires n < 1000 && ParseCardId(r.cardId).Some?
    ensures OnPreview(r, n) <==> "preview:p" + Pad3(n) + ":" <= r.cardId
  {
    hide Pad3, ParseCardId;
    PrefixNamesPage(r.cardId, Preview, n);
    assert CardIdPrefix(Preview, n) == "preview:p" + Pad3(n) + ":";
  }

  /** What one page row says: its number and digest, and what becomes of the page. */
  ghost predicate RowSays(row: PageRow, manifest: seq<ManifestRow>, carry: map<nat, Origin>,
                          rs: Option<seq<ReverseRow>>, page3: Option<seq<FreshCandidate>>) {
    && ManifestRow(row.page, row.sha) in manifest
    && (row.page == 3 ==>
          row.action == FreshExtraction(if page3.Some? then Some(|page3.value|) else None))
    && (row.page == 41 ==> row.action == ExcludeInformational)
    && (row.page != 3 && row.page != 41 ==>
          && row.page in carry && carry[row.page].oldPage < 1000
          && row.action == CarryForward(carry[row.page],
               if rs.Some? then Some(|CardsOn(rs.value, carry[row.page].oldPage)|) else None))
  }

  lemma RowIsTrue(row: PageRow, raw: ManifestRow, manifest: seq<ManifestRow>, carry: map<nat, Origin>,
                  legacy: Option<map<nat, seq<OldCard>>>, rs: Option<seq<ReverseRow>>,
                  page3: Option<seq<FreshCandidate>>)
    requires PlanOk(manifest, carry) && raw in manifest && RowFor(raw, carry, legacy, page3) == Some(row)
    requires legacy.Some? == rs.Some?
    requires rs.Some? ==> BindingsOf(legacy.value, rs.value) && forall r | r in rs.value :: ParseCardId(r.cardId).Some?
    ensures RowSays(row, manifest, carry, rs, page3)
  {
    hide ParseCardId, Pad3, Collected, CardsOn;
    var i := IndexOf(manifest, raw);
    if raw.page in carry {
      var n := carry[raw.page].oldPage;
      assert TakesOver(carry, n);
      if rs.Some? { CollectedIsFilter(rs.value, n); }
    }
  }

  lemma {:induction false} Consecutive(pages: seq<PageRow>, i: nat)
    requires i < |pages| && forall k, j | 0 <= k < j < |pages| :: pages[k].page < pages[j].page
    requires forall k | 0 <= k < |pages| :: 1 <= pages[k].page
    ensures pages[i].page >= i + 1
  {
    if i > 0 { Consecutive(pages, i - 1); }
  }

  lemma {:induction false} ConsecutiveFromTop(pages: seq<PageRow>, i: nat)
    requires i < |pages| && forall k, j | 0 <= k < j < |pages| :: pages[k].page < pages[j].page
    requires forall k | 0 <= k < |pages| :: pages[k].page <= |pages|
    ensures pages[i].page <= i + 1
    decreases |pages| - i
  {
    if i + 1 < |pages| { ConsecutiveFromTop(pages, i + 1); }
  }

  function RowPage(r: PageRow): nat {
    r.page
  }

  lemma PagesInOrder(manifest: seq<ManifestRow>, rows: seq<PageRow>, sorted: seq<PageRow>)
    requires |manifest| == 41 && |rows| == 41 && NoDup(Map(manifest, PageOf))
    requires forall i | 0 <= i < 41 :: 1 <= manifest[i].page <= 41 && rows[i].page == manifest[i].page
    requires multiset(sorted) == multiset(rows) && IsSorted(sorted, PageRowLe)
    ensures |sorted| == 41 && forall i | 0 <= i < 41 :: sorted[i].page == i + 1
  {
    assert |sorted| == |multiset(sorted)| == |multiset(rows)|;
    assert Map(rows, RowPage) == Map(manifest, PageOf);
    MapPermuted(rows, sorted, RowPage);
    NoDupPermuted(Map(rows, RowPage), Map(sorted, RowPage));
    SameMembers(rows, sorted);
    forall k, j | 0 <= k < j < |sorted| ensures sorted[k].page < sorted[j].page {
      assert PageRowLe(sorted[k], sorted[j]);
      assert Map(sorted, RowPage)[k] != Map(sorted, RowPage)[j];
    }
    forall k | 0 <= k < |sorted| ensures 1 <= sorted[k].page <= 41 {
      assert sorted[k] in rows;
      var i := IndexOf(rows, sorted[k]);
    }
    forall i | 0 <= i < 41 ensures sorted[i].page == i + 1 {
      Consecutive(sorted, i);
      ConsecutiveFromTop(sorted, i);
    }
  }

  /** The package of an accepted plan: 41 page rows in page order, each saying what becomes of its page; the fresh
    * candidates of page 3; page 41 excluded; complete exactly when bundle and page 3 ledger are there. */
  lemma PackageOfPlan(manifest: seq<ManifestRow>, carry: map<nat, Origin>, legacy: Option<map<nat, seq<OldCard>>>,
                      rs: Option<seq<ReverseRow>>, page3: Option<seq<FreshCandidate>>)
    requires PlanOk(manifest, carry) && legacy.Some? == rs.Some?
    requires rs.Some? ==> BindingsOf(legacy.value, rs.value) && forall r | r in rs.value :: ParseCardId(r.cardId).Some?
    ensures PagesSmall(Map(manifest, PageOf)) && Partitioned(Map(manifest, PageOf), carry)
    ensures var w := WorkOf(manifest, carry, legacy, page3);
            && w.pageCount == |w.pages| == 41
            && (forall i | 0 <= i < 41 :: w.pages[i].page == i + 1)
            && (forall i | 0 <= i < 41 :: RowSays(w.pages[i], manifest, carry, rs, page3))
            && w.freshCandidates == (if page3.Some? then page3.value else [])
            && w.excluded == [41] && (w.parityComplete <==> rs.Some? && page3.Some?)
            && (rs.None? ==> w.carried == [])
  {
    hide RowSays, RowFor, BindingsOf, ParseCardId;
    PlanPlacesPages(manifest, carry);
    var rows := PageRows(manifest, carry, legacy, page3);
    var w := WorkOf(manifest, carry, legacy, page3);
    forall i | 0 <= i < 41 ensures rows[i].page == manifest[i].page { RowKeepsPage(manifest[i], carry, legacy, page3); }
    assert IsPreorder(PageRowLe);
    SortSorted(rows, PageRowLe);
    PagesInOrder(manifest, rows, w.pages);
    SortMembers(rows, PageRowLe);
    forall i | 0 <= i < 41 ensures RowSays(w.pages[i], manifest, carry, rs, page3) {
      assert w.pages[i] in rows;
      var j := IndexOf(rows, w.pages[i]);
      assert manifest[j] in manifest;
      RowIsTrue(rows[j], manifest[j], manifest, carry, legacy, rs, page3);
    }
    if rs.None? { CarryNothing(Map(manifest, PageOf), carry); }
  }

  /** Carried cards are listed by new page, then by new card ID. */
  lemma CarriedInOrder(manifest: seq<ManifestRow>, carry: map<nat, Origin>, legacy: Option<map<nat, seq<OldCard>>>,
                       page3: Option<seq<FreshCandidate>>)
    requires PagesSmall(Map(manifest, PageOf)) && Partitioned(Map(manifest, PageOf), carry)
    ensures var s := WorkOf(manifest, carry, legacy, page3).carried;
            forall i, j | 0 <= i < j < |s| ::
              s[i].newPage < s[j].newPage || (s[i].newPage == s[j].newPage && StrLe(s[i].newId, s[j].newId))
  {
    hide StrLe, CarriedAll;
    StrLeIsPreorder();
    assert IsPreorder(CarriedLe);
    var all := CarriedAll(Map(manifest, PageOf), carry, LegacyCards(legacy));
    SortSorted(all, CarriedLe);
    var s := Sort(all, CarriedLe);
    forall i, j | 0 <= i < j < |s| ensures CarriedLe(s[i], s[j]) {}
  }

  lemma RowKeepsPage(raw: ManifestRow, carry: map<nat, Origin>, legacy: Option<map<nat, seq<OldCard>>>,
                     page3: Option<seq<FreshCandidate>>)
    ensures RowFor(raw, carry, legacy, page3).Some? ==> RowFor(raw, carry, legacy, page3).value.page == raw.page
  {
  }

  lemma {:induction false} CarryNothing(pages: seq<nat>, carry: map<nat, Origin>)
    requires PagesSmall(pages)
    ensures CarriedAll(pages, carry, map[]) == []
  {
    if pages != [] { CarryNothing(pages[..|pages| - 1], carry); }
  }
}
