/** Carrying the cards of an accepted parity bundle over to the pages of a new week under new card IDs. */
module PageRelabelling {
  import opened Foundations
  import opened Sorting
  import opened ParityModel
  import opened CardLedger
  import opened GateC

  /** A preview card of the bundle as the validator keeps it. */
  datatype OldCard = OldCard(cardId: string, scope: Scope, keys: seq<string>, reason: string)

  function KeptCard(r: ReverseRow): OldCard {
    OldCard(r.cardId, r.scope, Sort(r.matchedKeys, StrLe), r.unmatchedReason)
  }

  function OldIdOf(c: OldCard): string {
    c.cardId
  }

  predicate OldCardLe(a: OldCard, b: OldCard) {
    StrLe(a.cardId, b.cardId)
  }

  predicate OnPreview(r: ReverseRow, page: nat) {
    var ref := ParseCardId(r.cardId);
    ref.Some? && ref.value.page.Preview? && ref.value.number == page
  }

  /** The cards collected for one preview page, in list order. */
  function Collected(rs: seq<ReverseRow>, page: nat): seq<OldCard> {
    if rs == [] then []
    else var r := rs[|rs| - 1];
         Collected(rs[..|rs| - 1], page) + (if OnPreview(r, page) then [KeptCard(r)] else [])
  }

  function Bindings(rs: seq<ReverseRow>, page: nat): seq<OldCard> {
    Sort(Collected(rs, page), OldCardLe)
  }

  function CardsFor(m: map<nat, seq<OldCard>>, page: nat): seq<OldCard> {
    if page in m then m[page] else []
  }

  /** The validator's collecting loop, and the sort of each page's cards. */
  method CollectBindings(rs: seq<ReverseRow>) returns (byPage: map<nat, seq<OldCard>>)
    requires forall r | r in rs :: ParseCardId(r.cardId).Some?
    ensures forall page: nat :: CardsFor(byPage, page) == Bindings(rs, page)
  {
    hide ParseCardId, KeptCard, OldCardLe, Collected;
    var collected: map<nat, seq<OldCard>> := map[];
    NothingCollected();
    for i := 0 to |rs|
      invariant forall page: nat :: CardsFor(collected, page) == Collected(rs[..i], page)
    {
      assert rs[i] in rs;
      var ref := ParseCardId(rs[i].cardId).value;
      if ref.page.Preview? {
        var extended := collected[ref.number := CardsFor(collected, ref.number) + [KeptCard(rs[i])]];
        CollectOne(rs, i, collected, extended);
        collected := extended;
      } else {
        CollectOne(rs, i, collected, collected);
      }
    }
    assert rs[..|rs|] == rs;
    byPage := map page | page in collected.Keys :: Sort(collected[page], OldCardLe);
    SortNothing();
  }

  lemma NothingCollected()
    ensures forall page: nat :: Collected([], page) == []
  {
  }

  lemma SortNothing()
    ensures Sort([], OldCardLe) == []
  {
  }

  lemma CollectOne(rs: seq<ReverseRow>, i: nat, before: map<nat, seq<OldCard>>, after: map<nat, seq<OldCard>>)
    requires i < |rs| && ParseCardId(rs[i].cardId).Some?
    requires forall page: nat :: CardsFor(before, page) == Collected(rs[..i], page)
    requires var ref := ParseCardId(rs[i].cardId).value;
             after == if ref.page.Preview?
                      then before[ref.number := CardsFor(before, ref.number) + [KeptCard(rs[i])]]
                      else before
    ensures forall page: nat :: CardsFor(after, page) == Collected(rs[..i + 1], page)
  {
    hide ParseCardId;
    assert rs[..i + 1][..i] == rs[..i];
  }

  // ----- new card IDs -----

  /** The text after the last colon, Python's `split(":")[-1]`. */
  function LastSegment(s: string): string {
    if s == [] || s[|s| - 1] == ':' then [] else LastSegment(s[..|s| - 1]) + [s[|s| - 1]]
  }

  function Relabel(page: nat, oldId: string): string
    requires page < 1000
  {
    "current:p" + Pad3(page) + ":" + LastSegment(oldId)
  }

  lemma {:induction false} SegmentAfterColon(p: string, t: string)
    requires ':' !in t
    ensures LastSegment(p + [':'] + t) == t
  {
    var s := p + [':'] + t;
    if t == [] {
      assert s[|s| - 1] == ':';
    } else {
      var n := |t| - 1;
      assert s[..|s| - 1] == p + [':'] + t[..n];
      SegmentAfterColon(p, t[..n]);
      assert s[|s| - 1] == t[n] && t[n] in t;
      assert t == t[..n] + [t[n]];
    }
  }

  lemma OrdinalHasNoColon(n: nat)
    requires n < 1000
    ensures ':' !in "c" + Pad3(n)
  {
  }

  /** Relabelling keeps the ordinal, moves the card to the new page, and gives an ID the validator accepts again. */
  lemma RelabelKeepsOrdinal(page: nat, oldId: string)
    requires page < 1000 && ParseCardId(oldId).Some?
    ensures ParseCardId(Relabel(page, oldId)) == Some(CardRef(Current, page, ParseCardId(oldId).value.ordinal))
    ensures GateCardId(oldId) ==> GateCardId(Relabel(page, oldId))
  {
    hide ParseCardId, Pad3;
    var ref := ParseCardId(oldId).value;
    ParsedIdBounds(oldId);
    CardIdRoundTrip(ref, oldId);
    OrdinalHasNoColon(ref.ordinal);
    var stem := PageName(ref.page) + ":p" + Pad3(ref.number);
    assert oldId == stem + [':'] + ("c" + Pad3(ref.ordinal));
    SegmentAfterColon(stem, "c" + Pad3(ref.ordinal));
    var moved := CardRef(Current, page, ref.ordinal);
    assert Relabel(page, oldId) == FormatCardId(moved);
    CardIdRoundTrip(moved, oldId);
  }

  // ----- the work package -----

  const PAGE_3_SHA: string := "ad297cdd2f3dc728f0114fcb8a06c6d2c6131f4b342173b134d9e99bd092ae7c"
  const PAGE_41_SHA: string := "4fffb3305f980b0e47da175a4931569440cf541d5e439fa58524c7eabfc7ab85"

  datatype ManifestRow = ManifestRow(page: nat, sha: string)

  datatype Placement = SamePosition | MovedPage

  /** The page of the old week whose cards a new page takes over. */
  datatype Origin = Origin(oldPage: nat, placement: Placement)

  /** A candidate extracted afresh from page 3; all of them stay in review. */
  datatype FreshCandidate = FreshCandidate(candidateId: string, cardId: string, reasons: seq<string>)

  datatype Action =
    | CarryForward(origin: Origin, cardCount: Option<nat>)
    | FreshExtraction(candidateCount: Option<nat>)
    | ExcludeInformational

  datatype PageRow = PageRow(page: nat, sha: string, action: Action)

  datatype Carried = Carried(newPage: nat, oldPage: nat, oldId: string, newId: string, scope: Scope,
                             keys: seq<string>, reason: string)

  /** What the gate hands on; the legacy cards and the page 3 candidates may still be missing. */
  datatype Work = Work(pageCount: nat, pages: seq<PageRow>, carried: seq<Carried>, freshCandidates: seq<FreshCandidate>,
                       excluded: seq<nat>, parityComplete: bool)

  function PageOf(r: ManifestRow): nat {
    r.page
  }

  predicate PageRowLe(a: PageRow, b: PageRow) {
    a.page <= b.page
  }

  predicate CarriedLe(a: Carried, b: Carried) {
    a.newPage < b.newPage || (a.newPage == b.newPage && StrLe(a.newId, b.newId))
  }

  function CardCount(legacy: Option<map<nat, seq<OldCard>>>, page: nat): Option<nat> {
    if legacy.Some? then Some(|CardsFor(legacy.value, page)|) else None
  }

  function FreshCount(page3: Option<seq<FreshCandidate>>): Option<nat> {
    if page3.Some? then Some(|page3.value|) else None
  }

  /** Carried over, page 3 extracted afresh, page 41 excluded; anything else is an error. */
  function RowFor(row: ManifestRow, carry: map<nat, Origin>, legacy: Option<map<nat, seq<OldCard>>>,
                  page3: Option<seq<FreshCandidate>>): Option<PageRow> {
    if row.page in carry then
      var origin := carry[row.page];
      Some(PageRow(row.page, row.sha, CarryForward(origin, CardCount(legacy, origin.oldPage))))
    else if row.page == 3 then Some(PageRow(3, PAGE_3_SHA, FreshExtraction(FreshCount(page3))))
    else if row.page == 41 then Some(PageRow(41, PAGE_41_SHA, ExcludeInformational))
    else None
  }

  function CarryCard(page: nat, oldPage: nat, c: OldCard): Carried
    requires page < 1000
  {
    Carried(page, oldPage, c.cardId, Relabel(page, c.cardId), c.scope, c.keys, c.reason)
  }

  function CarryPage(page: nat, oldPage: nat, cards: seq<OldCard>): (r: seq<Carried>)
    requires page < 1000
    ensures |r| == |cards| && forall i | 0 <= i < |r| :: r[i] == CarryCard(page, oldPage, cards[i])
  {
    seq(|cards|, i requires 0 <= i < |cards| => CarryCard(page, oldPage, cards[i]))
  }

  ghost predicate PagesSmall(pages: seq<nat>) {
    forall i | 0 <= i < |pages| :: pages[i] < 1000
  }

  function CarriedOn(page: nat, carry: map<nat, Origin>, bindings: map<nat, seq<OldCard>>): seq<Carried>
    requires page < 1000
  {
    if page in carry then CarryPage(page, carry[page].oldPage, CardsFor(bindings, carry[page].oldPage)) else []
  }

  function CarriedAll(pages: seq<nat>, carry: map<nat, Origin>, bindings: map<nat, seq<OldCard>>): seq<Carried>
    requires PagesSmall(pages)
  {
    if pages == [] then []
    else CarriedAll(pages[..|pages| - 1], carry, bindings) + CarriedOn(pages[|pages| - 1], carry, bindings)
  }

  /** Every page is carried over, page 3 or page 41. */
  ghost predicate Partitioned(pages: seq<nat>, carry: map<nat, Origin>) {
    forall i | 0 <= i < |pages| :: pages[i] in carry || pages[i] == 3 || pages[i] == 41
  }

  ghost function PageRows(manifest: seq<ManifestRow>, carry: map<nat, Origin>,
                          legacy: Option<map<nat, seq<OldCard>>>,
                          page3: Option<seq<FreshCandidate>>): (r: seq<PageRow>)
    requires Partitioned(Map(manifest, PageOf), carry)
    ensures |r| == |manifest|
    ensures forall i | 0 <= i < |r| :: RowFor(manifest[i], carry, legacy, page3) == Some(r[i])
  {
    assert forall i | 0 <= i < |manifest| :: Map(manifest, PageOf)[i] == manifest[i].page;
    seq(|manifest|, i requires 0 <= i < |manifest| => RowFor(manifest[i], carry, legacy, page3).value)
  }

  function LegacyCards(legacy: Option<map<nat, seq<OldCard>>>): map<nat, seq<OldCard>> {
    if legacy.Some? then legacy.value else map[]
  }

  ghost function WorkOf(manifest: seq<ManifestRow>, carry: map<nat, Origin>,
                        legacy: Option<map<nat, seq<OldCard>>>, page3: Option<seq<FreshCandidate>>): Work
    requires PagesSmall(Map(manifest, PageOf)) && Partitioned(Map(manifest, PageOf), carry)
  {
    Work(41, Sort(PageRows(manifest, carry, legacy, page3), PageRowLe),
         Sort(CarriedAll(Map(manifest, PageOf), carry, LegacyCards(legacy)), CarriedLe),
         if page3.Some? then page3.value else [], [41], legacy.Some? && page3.Some?)
  }

  /** The inner loop: one page's cards appended under their new IDs. */
  method AppendCards(carried: seq<Carried>, page: nat, oldPage: nat, cards: seq<OldCard>) returns (r: seq<Carried>)
    requires page < 1000
    ensures r == carried + CarryPage(page, oldPage, cards)
  {
    hide CarryCard;
    r := carried;
    for k := 0 to |cards|
      invariant r == carried + CarryPage(page, oldPage, cards[..k])
    {
      var next := CarryCard(page, oldPage, cards[k]);
      assert CarryPage(page, oldPage, cards[..k + 1]) == CarryPage(page, oldPage, cards[..k]) + [next];
      r := r + [next];
    }
    assert cards[..|cards|] == cards;
  }

  lemma NothingCarried(carry: map<nat, Origin>, bindings: map<nat, seq<OldCard>>)
    ensures CarriedAll([], carry, bindings) == []
  {
  }

  lemma CarriedStep(pages: seq<nat>, i: nat, carry: map<nat, Origin>, bindings: map<nat, seq<OldCard>>)
    requires i < |pages| && PagesSmall(pages)
    ensures CarriedAll(pages[..i + 1], carry, bindings)
         == CarriedAll(pages[..i], carry, bindings) + CarriedOn(pages[i], carry, bindings)
  {
    assert pages[..i + 1][..i] == pages[..i];
  }

  lemma RowExists(manifest: seq<ManifestRow>, i: nat, carry: map<nat, Origin>,
                  legacy: Option<map<nat, seq<OldCard>>>, page3: Option<seq<FreshCandidate>>)
    requires i < |manifest|
    ensures var page := Map(manifest, PageOf)[i];
            RowFor(manifest[i], carry, legacy, page3).Some? <==> page in carry || page == 3 || page == 41
  {
  }

  /** The package of all pages, built in one pass; a page without a place stops it. */
  method BuildPageWorkPackage(manifest: seq<ManifestRow>, carry: map<nat, Origin>,
                              legacy: Option<map<nat, seq<OldCard>>>, page3: Option<seq<FreshCandidate>>)
    returns (r: Option<Work>)
    requires PagesSmall(Map(manifest, PageOf))
    ensures r == if Partitioned(Map(manifest, PageOf), carry)
                 then Some(WorkOf(manifest, carry, legacy, page3))
                 else None
  {
    hide CarriedAll, CarryPage, CardsFor, PageRowLe, CarriedLe, LegacyCards;
    ghost var all := Map(manifest, PageOf);
    var bindings := LegacyCards(legacy);
    var rows: seq<PageRow>, carried: seq<Carried> := [], [];
    NothingCarried(carry, bindings);
    for i := 0 to |manifest|
      invariant |rows| == i
      invariant forall j | 0 <= j < i :: RowFor(manifest[j], carry, legacy, page3) == Some(rows[j])
      invariant carried == CarriedAll(all[..i], carry, bindings)
    {
      var raw := manifest[i];
      CarriedStep(all, i, carry, bindings);
      RowExists(manifest, i, carry, legacy, page3);
      if raw.page in carry {
        var origin := carry[raw.page];
        var cards := CardsFor(bindings, origin.oldPage);
        CountedCards(legacy, origin.oldPage);
        rows := rows + [PageRow(raw.page, raw.sha, CarryForward(origin, if legacy.Some? then Some(|cards|) else None))];
        carried := AppendCards(carried, raw.page, origin.oldPage, cards);
      } else if raw.page == 3 {
        rows := rows + [PageRow(3, PAGE_3_SHA, FreshExtraction(FreshCount(page3)))];
      } else if raw.page == 41 {
        rows := rows + [PageRow(41, PAGE_41_SHA, ExcludeInformational)];
      } else {
        return None;
      }
    }
    AllPlaced(manifest, rows, carry, legacy, page3);
    assert all[..|manifest|] == all;
    r := Some(Work(41, Sort(rows, PageRowLe), Sort(carried, CarriedLe), if page3.Some? then page3.value else [], [41],
                   legacy.Some? && page3.Some?));
  }

  lemma CountedCards(legacy: Option<map<nat, seq<OldCard>>>, page: nat)
    ensures CardCount(legacy, page) == if legacy.Some? then Some(|CardsFor(LegacyCards(legacy), page)|) else None
  {
  }

  lemma AllPlaced(manifest: seq<ManifestRow>, rows: seq<PageRow>, carry: map<nat, Origin>,
                  legacy: Option<map<nat, seq<OldCard>>>, page3: Option<seq<FreshCandidate>>)
    requires |rows| == |manifest|
    requires forall i | 0 <= i < |rows| :: RowFor(manifest[i], carry, legacy, page3) == Some(rows[i])
    ensures Partitioned(Map(manifest, PageOf), carry)
    ensures rows == PageRows(manifest, carry, legacy, page3)
  {
    hide RowFor;
    forall i | 0 <= i < |manifest|
      ensures Map(manifest, PageOf)[i] in carry || manifest[i].page == 3 || manifest[i].page == 41
    {
      RowExists(manifest, i, carry, legacy, page3);
    }
  }
}
