/** What the card ledger accepts and how it reads a row, said of the row's own texts and numbers. */
module ExactLedgers {
  import opened Foundations
  import opened Sorting
  import opened Regions
  import opened ParityModel
  import opened CardLedger
  import opened AcceptedPlan
  import opened ParityDecisions

  /** Each number is a fraction, and the rectangle rounded to millionths has area and leaves the page by at most one. */
  ghost predicate IsOnPage(r: RawRegion) {
    var x, y := RoundReal(1000000.0 * r.x), RoundReal(1000000.0 * r.y);
    var w, h := RoundReal(1000000.0 * r.width), RoundReal(1000000.0 * r.height);
    && 0.0 <= r.x <= 1.0 && 0.0 <= r.y <= 1.0 && 0.0 <= r.width <= 1.0 && 0.0 <= r.height <= 1.0
    && w >= 1 && h >= 1 && x + w <= 1_000_001 && y + h <= 1_000_001
  }

  /** Only blank texts occur twice. */
  ghost predicate Apart(s: seq<string>) {
    forall i, j | 0 <= i < j < |s| :: s[i] == s[j] ==> s[i] == ""
  }

  /** A row of the ledger on its own: its ID spells out its page and page number. */
  ghost predicate IsGoodRow(r: RawCard) {
    && (r.sourcePage == "current" || r.sourcePage == "preview")
    && 1 <= r.pageNumber <= (if r.sourcePage == "current" then 49 else 41)
    && (exists ordinal: nat | ordinal < 1000 ::
          r.cardId == r.sourcePage + ":p" + Pad3(r.pageNumber) + ":c" + Pad3(ordinal))
    && (r.scope == "in_scope" || r.scope == "review" || r.scope == "out_of_scope")
    && (r.scope != "out_of_scope" ==> r.title != "")
    && Apart(r.explicitIds)
    && (r.price == NoPrice || (r.price.Cents? && r.price.amount > 0))
    && IsOnPage(r.region)
  }

  /** No card ID twice, and no offer listed by two cards of one page. */
  ghost predicate IsGoodLedger(rows: seq<RawCard>) {
    && (forall i | 0 <= i < |rows| :: IsGoodRow(rows[i]))
    && (forall i, j | 0 <= i < j < |rows| :: rows[i].cardId != rows[j].cardId)
    && (forall i, j, s | 0 <= i < j < |rows| && s in rows[i].explicitIds && s in rows[j].explicitIds ::
          s == "" || rows[i].sourcePage != rows[j].sourcePage)
  }

  lemma OnPageIff(r: RawRegion)
    ensures IsOnPage(r) <==> LedgerRegionOk(r)
  {
    hide RoundReal;
    assert 1000000.0 * r.x == r.x * 1_000_000.0 && 1000000.0 * r.y == r.y * 1_000_000.0;
    assert 1000000.0 * r.width == r.width * 1_000_000.0 && 1000000.0 * r.height == r.height * 1_000_000.0;
    if 0.0 <= r.x <= 1.0 && 0.0 <= r.y <= 1.0 && 0.0 <= r.width <= 1.0 && 0.0 <= r.height <= 1.0 {
      RoundedWithin(r.x);
      RoundedWithin(r.y);
      RoundedWithin(r.width);
      RoundedWithin(r.height);
    }
  }

  lemma ApartLast(s: seq<string>)
    requires s != []
    ensures var n := |s| - 1; Apart(s) <==> Apart(s[..n]) && (s[n] == "" || s[n] !in s[..n])
  {
    var n := |s| - 1;
    if Apart(s) {
      forall x | x in s[..n] ensures x == s[n] ==> x == "" { var i := IndexOf(s[..n], x); }
      forall i, j | 0 <= i < j < n ensures s[..n][i] == s[..n][j] ==> s[..n][i] == "" {
        assert s[i] == s[j] ==> s[i] == "";
      }
    }
    if Apart(s[..n]) && (s[n] == "" || s[n] !in s[..n]) {
      forall i, j | 0 <= i < j < |s| ensures s[i] == s[j] ==> s[i] == "" {
        assert s[..n][i] == s[i] && s[i] in s[..n];
        if j < n { assert s[..n][j] == s[j]; }
      }
    }
  }

  lemma {:induction false} NonBlankDistinct(s: seq<string>)
    ensures NoDup(Filter(s, NonEmpty)) <==> Apart(s)
  {
    hide Apart, NoDup;
    if s == [] {
      NothingTwice();
    } else {
      var n := |s| - 1;
      NonBlankDistinct(s[..n]);
      ApartLast(s);
      FilterLast(s, NonEmpty);
      var front := Filter(s[..n], NonEmpty);
      if NonEmpty(s[n]) {
        assert Filter(s, NonEmpty) == front + [s[n]];
        LastDistinct(front, s[n]);
      } else {
        assert Filter(s, NonEmpty) == front;
      }
    }
  }

  lemma NothingTwice()
    ensures NoDup(Filter([], NonEmpty)) && Apart([])
  {
  }

  lemma LastDistinct(s: seq<string>, x: string)
    ensures NoDup(s + [x]) <==> NoDup(s) && x !in s
  {
    if NoDup(s + [x]) {
      NoDupPrefix(s + [x], |s|);
      assert (s + [x])[..|s|] == s;
    }
    if NoDup(s) { NoDupAppend(s, x); }
  }

  lemma IdSpelled(r: RawCard, p: Page, n: nat)
    requires n < 1000
    ensures (exists ordinal: nat | ordinal < 1000 :: r.cardId == PageName(p) + ":p" + Pad3(n) + ":c" + Pad3(ordinal))
            <==> ParseCardId(r.cardId).Some? && ParseCardId(r.cardId).value.page == p
                 && ParseCardId(r.cardId).value.number == n
  {
    hide Pad3, ParseCardId, FormatCardId;
    if ParseCardId(r.cardId).Some? && ParseCardId(r.cardId).value.page == p && ParseCardId(r.cardId).value.number == n {
      var ref := ParseCardId(r.cardId).value;
      ParsedIdBounds(r.cardId);
      CardIdRoundTrip(ref, r.cardId);
      IdText(p, n, ref.ordinal);
    }
    if ordinal: nat :| ordinal < 1000 && r.cardId == PageName(p) + ":p" + Pad3(n) + ":c" + Pad3(ordinal) {
      IdText(p, n, ordinal);
      CardIdRoundTrip(CardRef(p, n, ordinal), r.cardId);
    }
  }

  lemma NoDupTest(r: RawCard)
    ensures HasDup(ExplicitIds(r)) <==> !NoDup(Filter(r.explicitIds, NonEmpty))
  {
    DistinctTest(ExplicitIds(r));
    assert TokenSet(ExplicitIds(r)) == set x | x in ExplicitIds(r);
  }

  lemma GoodRowIff(r: RawCard)
    ensures IsGoodRow(r) <==> RowOk(r)
  {
    hide Pad3, ParseCardId, LedgerRegionOk, IsOnPage, HasDup, NoDup, ExplicitIds, Apart;
    OnPageIff(r.region);
    NonBlankDistinct(r.explicitIds);
    NoDupTest(r);
    PagesNamed(r.sourcePage);
    if PageNamed(r.sourcePage).Some? && 1 <= r.pageNumber <= PageCount(PageNamed(r.sourcePage).value) {
      IdSpelled(r, PageNamed(r.sourcePage).value, r.pageNumber);
    }
  }

  lemma PagesNamed(name: string)
    ensures PageNamed(name).Some? <==> name == "current" || name == "preview"
    ensures name == "current" ==> PageNamed(name) == Some(Current)
    ensures name == "preview" ==> PageNamed(name) == Some(Preview)
    ensures PageNamed(name).Some? ==> PageName(PageNamed(name).value) == name
  {
    assert "current"[0] != "preview"[0];
  }

  lemma ClaimsApart(a: RawCard, b: RawCard)
    requires |a.sourcePage| == |b.sourcePage| == 7
    ensures ClaimKeys(a) !! ClaimKeys(b) <==>
            forall s | s in a.explicitIds && s in b.explicitIds :: s == "" || a.sourcePage != b.sourcePage
  {
    if s :| s in a.explicitIds && s in b.explicitIds && s != "" && a.sourcePage == b.sourcePage {
      assert s in ExplicitIds(a) && s in ExplicitIds(b);
      assert a.sourcePage + ":" + s in ClaimKeys(a) && b.sourcePage + ":" + s in ClaimKeys(b);
    }
    if key :| key in ClaimKeys(a) && key in ClaimKeys(b) { SharedClaim(a, b, key); }
  }

  lemma SharedClaim(a: RawCard, b: RawCard, key: string)
    requires |a.sourcePage| == |b.sourcePage| == 7 && key in ClaimKeys(a) && key in ClaimKeys(b)
    ensures a.sourcePage == b.sourcePage
    ensures exists s | s in a.explicitIds && s in b.explicitIds :: s != ""
  {
    var s :| s in ExplicitIds(a) && a.sourcePage + ":" + s == key;
    var t :| t in ExplicitIds(b) && b.sourcePage + ":" + t == key;
    assert key[..7] == a.sourcePage == b.sourcePage && key[8..] == s == t;
  }

  /** The ledger accepts exactly the good lists of rows. */
  lemma LedgerIffGood(rows: seq<RawCard>)
    ensures LedgerOk(rows) <==> IsGoodLedger(rows)
  {
    hide IsGoodRow, RowOk, ClaimKeys;
    forall i | 0 <= i < |rows| ensures IsGoodRow(rows[i]) <==> RowOk(rows[i]) { GoodRowIff(rows[i]); }
    if forall i | 0 <= i < |rows| :: IsGoodRow(rows[i]) {
      forall i, j | 0 <= i < j < |rows|
        ensures ClaimKeys(rows[i]) !! ClaimKeys(rows[j]) <==>
                forall s | s in rows[i].explicitIds && s in rows[j].explicitIds ::
                  s == "" || rows[i].sourcePage != rows[j].sourcePage
      {
        GoodPageName(rows[i]);
        GoodPageName(rows[j]);
        ClaimsApart(rows[i], rows[j]);
      }
    }
  }

  lemma GoodPageName(r: RawCard)
    requires IsGoodRow(r)
    ensures |r.sourcePage| == 7
  {
  }

  /** How an accepted row is read: everything under its own name, blank offer IDs left out, the others in order. */
  lemma CardReadsRow(r: RawCard)
    requires IsGoodRow(r)
    ensures PageNamed(r.sourcePage).Some? && ScopeNamed(r.scope).Some? && r.pageNumber >= 0
    ensures var k := CardOf(r);
            && k.id == r.cardId && k.pageNumber == r.pageNumber && k.tokens == r.tokens
            && k.unmatchedReason == r.unmatchedReason
            && k.page == (if r.sourcePage == "current" then Current else Preview)
            && (k.scope == InScope <==> r.scope == "in_scope") && (k.scope == InReview <==> r.scope == "review")
            && k.price == (if r.price.Cents? then Some(r.price.amount) else None)
            && IsSorted(k.explicitIds, StrLe)
            && multiset(k.explicitIds) == multiset(Filter(r.explicitIds, (s: string) => s != ""))
  {
    hide IsOnPage, Pad3, StrLe;
    PagesNamed(r.sourcePage);
    ScopesNamed(r.scope);
    StrLeIsPreorder();
    SortSorted(ExplicitIds(r), StrLe);
    SameNonEmpty(r.explicitIds);
  }

  lemma ScopesNamed(name: string)
    ensures name == "in_scope" ==> ScopeNamed(name) == Some(InScope)
    ensures name == "review" ==> ScopeNamed(name) == Some(InReview)
    ensures name == "out_of_scope" ==> ScopeNamed(name) == Some(OutOfScope)
  {
    assert "in_scope"[0] != "review"[0] && "review"[0] != "out_of_scope"[0] && "in_scope"[0] != "out_of_scope"[0];
  }
}
