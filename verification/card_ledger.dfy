/** Stable card IDs and the card ledger that a parity run starts from. */
module CardLedger {
  import opened Foundations
  import opened Sorting
  import opened Regions
  import opened ParityModel
  import opened ParityOrder
  import opened ParityPages

  // ----- card IDs of the form <page>:pNNN:cNNN -----

  datatype CardRef = CardRef(page: Page, number: nat, ordinal: nat)

  function ParseCardId(s: string): Option<CardRef> {
    if |s| != 17 || s[7..9] != ":p" || s[12..14] != ":c" then None
    else match (PageNamed(s[..7]), Parse3(s[9..12]), Parse3(s[14..]))
         case (Some(p), Some(n), Some(k)) => Some(CardRef(p, n, k))
         case _ => None
  }

  function CardIdPrefix(p: Page, number: nat): (s: string)
    requires number < 1000
    ensures |s| == 13
  {
    PageName(p) + ":p" + Pad3(number) + ":"
  }

  function FormatCardId(r: CardRef): string
    requires r.number < 1000 && r.ordinal < 1000
  {
    CardIdPrefix(r.page, r.number) + "c" + Pad3(r.ordinal)
  }

  /** Formatting and parsing are inverse: an ID is exactly the text of its page, page number and ordinal. */
  lemma CardIdRoundTrip(r: CardRef, s: string)
    requires r.number < 1000 && r.ordinal < 1000
    ensures ParseCardId(FormatCardId(r)) == Some(r)
    ensures ParseCardId(s) == Some(r) ==> s == FormatCardId(r)
  {
    hide Parse3, Pad3;
    var f := FormatCardId(r);
    assert f[..7] == PageName(r.page) && f[7..9] == ":p" && f[9..12] == Pad3(r.number) && f[12..14] == ":c"
           && f[14..] == Pad3(r.ordinal);
    Pad3RoundTrip(r.number, s);
    Pad3RoundTrip(r.ordinal, s);
    if ParseCardId(s) == Some(r) {
      Pad3RoundTrip(r.number, s[9..12]);
      Pad3RoundTrip(r.ordinal, s[14..]);
      assert s == s[..7] + s[7..9] + s[9..12] + s[12..14] + s[14..];
    }
  }

  lemma ParsedIdBounds(s: string)
    requires ParseCardId(s).Some?
    ensures ParseCardId(s).value.number < 1000 && ParseCardId(s).value.ordinal < 1000
  {
  }

  /** The ledger's prefix test on a well-formed ID says which page and page number the ID names. */
  lemma PrefixNamesPage(s: string, p: Page, n: nat)
    requires ParseCardId(s).Some? && n < 1000
    ensures CardIdPrefix(p, n) <= s <==> ParseCardId(s).value.page == p && ParseCardId(s).value.number == n
  {
    hide Parse3, Pad3;
    var r := ParseCardId(s).value;
    ParsedIdBounds(s);
    CardIdRoundTrip(r, s);
    assert s[..13] == CardIdPrefix(r.page, r.number);
    if CardIdPrefix(p, n) <= s {
      var a, b := CardIdPrefix(p, n), CardIdPrefix(r.page, r.number);
      assert a == b;
      assert a[..7] == PageName(p) && b[..7] == PageName(r.page) && a[9..12] == Pad3(n) && b[9..12] == Pad3(r.number);
      PageOrder("", "");
      Pad3RoundTrip(n, a);
      Pad3RoundTrip(r.number, a);
    }
  }

  // ----- ledger rows -----

  /** A ledger row with its text fields stripped. */
  datatype RawCard = RawCard(cardId: string, sourcePage: string, pageNumber: int, region: RawRegion, scope: string,
                             title: string, tokens: seq<string>, price: RawPrice, explicitIds: seq<string>,
                             unmatchedReason: string)

  /** The ledger's own test of a rectangle: each number lies in 0..1 as given, and the rounded rectangle is in
    * bounds. */
  predicate LedgerRegionOk(r: RawRegion) {
    && 0.0 <= r.x <= 1.0 && 0.0 <= r.y <= 1.0 && 0.0 <= r.width <= 1.0 && 0.0 <= r.height <= 1.0
    && RegionOk(RoundRegion(r))
  }

  /** A whole ledger, bound to a frozen set of pages. */
  datatype RawLedger = RawLedger(schema: int, pageSetSha: string, rows: seq<RawCard>)

  function PageCount(p: Page): nat {
    match p case Current => 49 case Preview => 41
  }

  function ScopeNamed(name: string): Option<Scope> {
    if name == "in_scope" then Some(InScope)
    else if name == "review" then Some(InReview)
    else if name == "out_of_scope" then Some(OutOfScope)
    else None
  }

  function ExplicitIds(r: RawCard): seq<string> {
    Filter(r.explicitIds, NonEmpty)
  }

  function ClaimKeys(r: RawCard): set<string> {
    set id | id in ExplicitIds(r) :: r.sourcePage + ":" + id
  }

  predicate HasDup(s: seq<string>) {
    |TokenSet(s)| != |s|
  }

  ghost predicate RowOk(r: RawCard) {
    && ParseCardId(r.cardId).Some?
    && PageNamed(r.sourcePage).Some?
    && 1 <= r.pageNumber <= PageCount(PageNamed(r.sourcePage).value)
    && ParseCardId(r.cardId).value.page == PageNamed(r.sourcePage).value
    && ParseCardId(r.cardId).value.number == r.pageNumber
    && ScopeNamed(r.scope).Some?
    && (r.scope == "out_of_scope" || r.title != "")
    && !HasDup(ExplicitIds(r))
    && LedgerRegionOk(r.region)
    && PriceOk(r.price)
  }

  ghost predicate LedgerOk(rows: seq<RawCard>) {
    && (forall i | 0 <= i < |rows| :: RowOk(rows[i]))
    && (forall i, j | 0 <= i < j < |rows| :: rows[i].cardId != rows[j].cardId)
    && (forall i, j | 0 <= i < j < |rows| :: ClaimKeys(rows[i]) !! ClaimKeys(rows[j]))
  }

  function CardOf(r: RawCard): Card
    requires PageNamed(r.sourcePage).Some? && ScopeNamed(r.scope).Some? && r.pageNumber >= 0
  {
    Card(r.cardId, PageNamed(r.sourcePage).value, r.pageNumber, ScopeNamed(r.scope).value, r.tokens, PriceOf(r.price),
         Sort(ExplicitIds(r), StrLe), r.unmatchedReason)
  }

  ghost predicate RowsTyped(rows: seq<RawCard>) {
    forall i | 0 <= i < |rows| ::
      PageNamed(rows[i].sourcePage).Some? && ScopeNamed(rows[i].scope).Some? && rows[i].pageNumber >= 0
  }

  ghost function CardsOf(rows: seq<RawCard>): (cards: seq<Card>)
    requires RowsTyped(rows)
    ensures |cards| == |rows| && forall i | 0 <= i < |rows| :: cards[i] == CardOf(rows[i])
  {
    seq(|rows|, i requires 0 <= i < |rows| => CardOf(rows[i]))
  }

  datatype LedgerError = WrongSchema | WrongPageSet | BadRow(index: nat)

  /** One row's own checks, in the ledger's order. */
  method CheckRow(row: RawCard) returns (ok: bool)
    ensures ok <==> RowOk(row)
  {
    if ParseCardId(row.cardId).None? { return false; }
    var page := PageNamed(row.sourcePage);
    if page.None? { return false; }
    if !(1 <= row.pageNumber <= PageCount(page.value)) { return false; }
    PrefixNamesPage(row.cardId, page.value, row.pageNumber);
    if !(CardIdPrefix(page.value, row.pageNumber) <= row.cardId) { return false; }
    if ScopeNamed(row.scope).None? { return false; }
    if row.scope != "out_of_scope" && row.title == "" { return false; }
    if HasDup(ExplicitIds(row)) { return false; }
    return LedgerRegionOk(row.region) && PriceOk(row.price);
  }

  /** Accepts a ledger iff its schema and page set are right, every row is well formed, card IDs are unique and no offer
    * is claimed by two cards; an accepted ledger comes back in card ID order. */
  method ValidateLedger(ledger: RawLedger, pageSetSha: string) returns (r: Result<seq<Card>, LedgerError>)
    ensures r.Ok? <==> ledger.schema == 1 && ledger.pageSetSha == pageSetSha && LedgerOk(ledger.rows)
    ensures r.Ok? ==> r.value == Sort(CardsOf(ledger.rows), CardLe)
    ensures r == Err(WrongSchema) <==> ledger.schema != 1
  {
    hide LedgerOk, CardsOf, RowsTyped;
    if ledger.schema != 1 { return Err(WrongSchema); }
    if ledger.pageSetSha != pageSetSha { return Err(WrongPageSet); }
    r := ValidateRows(ledger.rows);
  }

  /** The loop over the rows. */
  method ValidateRows(rows: seq<RawCard>) returns (r: Result<seq<Card>, LedgerError>)
    ensures r.Ok? <==> LedgerOk(rows)
    ensures r.Ok? ==> r.value == Sort(CardsOf(rows), CardLe)
    ensures r.Err? ==> r.error.BadRow? && r.error.index < |rows|
  {
    hide RowOk, ClaimKeys, CardOf, Sort;
    var ids: set<string>, claimed: set<string>, cards: seq<Card> := {}, {}, [];
    for i := 0 to |rows|
      invariant Accepted(rows, i, ids, claimed)
      invariant RowsTyped(rows[..i]) && cards == CardsOf(rows[..i])
    {
      var row := rows[i];
      var ok := CheckRow(row);
      if !ok || row.cardId in ids || !(ClaimKeys(row) !! claimed) {
        Rejected(rows, i, ids, claimed);
        return Err(BadRow(i));
      }
      AcceptRow(rows, i, ids, claimed);
      ids := ids + {row.cardId};
      claimed := claimed + ClaimKeys(row);
      OkRowsTyped(rows[..i + 1]);
      cards := cards + [CardOf(row)];
    }
    assert rows[..|rows|] == rows;
    return Ok(Sort(cards, CardLe));
  }

  /** The loop state after i accepted rows. */
  ghost predicate Accepted(rows: seq<RawCard>, i: nat, ids: set<string>, claimed: set<string>)
    requires i <= |rows|
  {
    && LedgerOk(rows[..i])
    && (forall id :: id in ids <==> exists j | 0 <= j < i :: rows[j].cardId == id)
    && (forall key :: key in claimed <==> exists j | 0 <= j < i :: key in ClaimKeys(rows[j]))
  }

  lemma OkRowsTyped(rows: seq<RawCard>)
    requires LedgerOk(rows)
    ensures RowsTyped(rows)
  {
  }

  lemma AcceptRow(rows: seq<RawCard>, i: nat, ids: set<string>, claimed: set<string>)
    requires i < |rows| && Accepted(rows, i, ids, claimed)
    requires RowOk(rows[i]) && rows[i].cardId !in ids && ClaimKeys(rows[i]) !! claimed
    ensures Accepted(rows, i + 1, ids + {rows[i].cardId}, claimed + ClaimKeys(rows[i]))
  {
    hide RowOk, ClaimKeys;
    var done := rows[..i + 1];
    assert forall j | 0 <= j < i :: done[j] == rows[..i][j];
    forall a, b | 0 <= a < b < |done|
      ensures done[a].cardId != done[b].cardId && ClaimKeys(done[a]) !! ClaimKeys(done[b])
    {
      if b == i {
        assert rows[a].cardId in ids;
        forall key | key in ClaimKeys(rows[a]) ensures key in claimed { }
      } else {
        assert rows[..i][a].cardId != rows[..i][b].cardId;
      }
    }
  }

  lemma Rejected(rows: seq<RawCard>, i: nat, ids: set<string>, claimed: set<string>)
    requires i < |rows| && Accepted(rows, i, ids, claimed)
    requires !RowOk(rows[i]) || rows[i].cardId in ids || !(ClaimKeys(rows[i]) !! claimed)
    ensures !LedgerOk(rows)
  {
    hide RowOk, ClaimKeys;
    if RowOk(rows[i]) && rows[i].cardId !in ids {
      var key :| key in ClaimKeys(rows[i]) && key in claimed;
      var j :| 0 <= j < i && key in ClaimKeys(rows[j]);
      assert !(ClaimKeys(rows[j]) !! ClaimKeys(rows[i]));
    }
  }

  // ----- what an accepted ledger guarantees -----

  /** A card's ID names its own page and page number. */
  predicate IdMatchesCard(k: Card) {
    var r := ParseCardId(k.id);
    r.Some? && r.value.page == k.page && r.value.number == k.pageNumber
  }

  ghost predicate ClaimsDisjoint(cards: seq<Card>) {
    forall x, y, key | x in cards && y in cards && Claims(x, key) && Claims(y, key) :: x == y
  }

  ghost predicate ValidLedger(cards: seq<Card>) {
    UniqueCards(cards) && (forall k | k in cards :: IdMatchesCard(k)) && ClaimsDisjoint(cards)
  }

  lemma ClaimKey(r: RawCard, key: string)
    requires PageNamed(r.sourcePage).Some? && ScopeNamed(r.scope).Some? && r.pageNumber >= 0
    requires Claims(CardOf(r), key)
    ensures key in ClaimKeys(r)
  {
    var k := CardOf(r);
    SortMembers(ExplicitIds(r), StrLe);
    var i :| 0 <= i < |k.explicitIds| && OfferKey(k.page, k.explicitIds[i]) == key;
    assert k.explicitIds[i] in ExplicitIds(r);
    assert PageName(k.page) == r.sourcePage;
  }

  /** Whatever a ledger lists, once accepted: unique IDs naming their own pages, and no offer claimed twice. */
  lemma LedgerCardsValid(rows: seq<RawCard>)
    requires LedgerOk(rows)
    ensures RowsTyped(rows) && ValidLedger(Sort(CardsOf(rows), CardLe))
  {
    OkRowsTyped(rows);
    hide CardOf, Sort, RowOk, IdMatchesCard, Claims, ClaimsDisjoint;
    var given := CardsOf(rows);
    var cards := Sort(given, CardLe);
    SortMembers(given, CardLe);
    LedgerIds(rows);
    UniqueCardsPermuted(given, cards);
    LedgerClaimsDisjoint(rows);
    DisjointSubset(given, cards);
  }

  lemma DisjointSubset(a: seq<Card>, b: seq<Card>)
    requires ClaimsDisjoint(a) && forall k | k in b :: k in a
    ensures ClaimsDisjoint(b)
  {
    hide Claims;
  }

  lemma LedgerIds(rows: seq<RawCard>)
    requires LedgerOk(rows) && RowsTyped(rows)
    ensures UniqueCards(CardsOf(rows)) && forall k | k in CardsOf(rows) :: IdMatchesCard(k)
  {
    hide CardOf, RowOk, IdMatchesCard, ClaimKeys;
    var given := CardsOf(rows);
    forall i, j | 0 <= i < j < |given| ensures given[i].id != given[j].id { IdKept(rows[i]); IdKept(rows[j]); }
    forall k | k in given ensures IdMatchesCard(k) {
      var i := IndexOf(given, k);
      IdKept(rows[i]);
    }
  }

  lemma IdKept(r: RawCard)
    requires RowOk(r)
    ensures CardOf(r).id == r.cardId && IdMatchesCard(CardOf(r))
  {
  }

  lemma LedgerClaimsDisjoint(rows: seq<RawCard>)
    requires LedgerOk(rows) && RowsTyped(rows)
    ensures ClaimsDisjoint(CardsOf(rows))
  {
    hide CardOf, RowOk, ClaimKeys, Claims;
    var given := CardsOf(rows);
    forall x, y, key | x in given && y in given && Claims(x, key) && Claims(y, key) ensures x == y {
      var i := IndexOf(given, x);
      var j := IndexOf(given, y);
      ClaimKey(rows[i], key);
      ClaimKey(rows[j], key);
      OneClaimant(rows, i, j, key);
    }
  }

  lemma OneClaimant(rows: seq<RawCard>, i: nat, j: nat, key: string)
    requires LedgerOk(rows) && i < |rows| && j < |rows|
    requires key in ClaimKeys(rows[i]) && key in ClaimKeys(rows[j])
    ensures i == j
  {
    hide RowOk, ClaimKeys;
    assert key in ClaimKeys(rows[i]) * ClaimKeys(rows[j]);
  }

  /** On a valid ledger, and without expected counts, a run over both pages is the merge of the runs over each page. */
  lemma LedgerPagesAreIndependent(rows: seq<Offer>, cards: seq<Card>)
    requires UniqueOffers(rows) && ValidLedger(cards)
    ensures var both := ParityReport(rows, cards, None);
            var cur := ParityReport(Filter(rows, CurrentOffer), Filter(cards, CurrentCard), None);
            var pre := ParityReport(Filter(rows, PreviewOffer), Filter(cards, PreviewCard), None);
            && both.mappings == cur.mappings + pre.mappings
            && both.reverse == cur.reverse + pre.reverse
            && both.blockers == Sort(cur.blockers + pre.blockers, BlockerLe)
  {
    hide ParityReport, BlockerLe, Claims, UniqueOffers, UniqueCards, ClaimsDisjoint;
    IdsNameTheirPages(cards);
    PagesAreIndependent(rows, cards);
  }

  lemma IdsNameTheirPages(cards: seq<Card>)
    requires forall k | k in cards :: IdMatchesCard(k)
    ensures IdsNamePages(cards)
  {
  }

  /** On a valid ledger the one card listing an offer is the card the run uses for it. */
  lemma ClaimIsUnambiguous(cards: seq<Card>, k: Card, key: string)
    requires ValidLedger(cards) && k in cards && Claims(k, key)
    ensures ClaimedBy(key, cards) == Some(k)
  {
    hide Claims;
    ClaimFound(cards, cards, k, key);
    ByIdFound(cards, k);
  }

  lemma {:induction false} ClaimFound(cards: seq<Card>, all: seq<Card>, k: Card, key: string)
    requires ClaimsDisjoint(all) && cards <= all && k in cards && Claims(k, key)
    ensures ClaimedId(key, cards) == Some(k.id)
  {
    hide Claims;
    var last := cards[|cards| - 1];
    assert last in all && k in all;
    if !Claims(last, key) { ClaimFound(cards[..|cards| - 1], all, k, key); }
  }

  lemma {:induction false} ByIdFound(cards: seq<Card>, k: Card)
    requires UniqueCards(cards) && k in cards
    ensures CardById(k.id, cards) == Some(k)
  {
    var last := cards[|cards| - 1];
    if last.id != k.id {
      ByIdFound(cards[..|cards| - 1], k);
    } else {
      var i := IndexOf(cards, k);
    }
  }
}
