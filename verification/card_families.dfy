/** The visual-card bridge diagnostic: identity-token families, how well each bridges offers to cards, and the
  * decision. */
module CardFamilies {
  import opened Foundations
  import opened Sorting

  datatype Token = Token(fieldPath: string, kind: string, cardKeys: seq<string>)

  datatype Row = Row(objectId: string, tokens: seq<Token>)

  datatype Family = Family(fieldPath: string, kind: string)

  /** The cards an offer's tokens of one family were found on, by offer. */
  type OfferCards = map<string, set<string>>

  predicate InFamily(t: Token, f: Family) {
    t.fieldPath == f.fieldPath && t.kind == f.kind && f.fieldPath != "" && f.kind != ""
  }

  predicate HasFamily(r: Row, f: Family) {
    exists i | 0 <= i < |r.tokens| :: InFamily(r.tokens[i], f)
  }

  function KeySet(keys: seq<string>): set<string> {
    set k | k in keys
  }

  function CardsOf(ts: seq<Token>, f: Family): set<string> {
    if ts == [] then {} else
      CardsOf(ts[..|ts| - 1], f) + if InFamily(ts[|ts| - 1], f) then KeySet(ts[|ts| - 1].cardKeys) else {}
  }

  function CardsByOffer(rows: seq<Row>, f: Family): OfferCards {
    if rows == [] then map[] else
      var before, r := CardsByOffer(rows[..|rows| - 1], f), rows[|rows| - 1];
      if HasFamily(r, f) then before[r.objectId := CardsOf(r.tokens, f)] else before
  }

  ghost predicate Occurs(rows: seq<Row>, f: Family) {
    exists i | 0 <= i < |rows| :: HasFamily(rows[i], f)
  }

  // ----- one family's summary -----

  function Bridged(oc: OfferCards): set<string> { set o | o in oc && |oc[o]| == 1 }
  function Ambiguous(oc: OfferCards): set<string> { set o | o in oc && |oc[o]| > 1 }
  function Unmatched(oc: OfferCards): set<string> { set o | o in oc && |oc[o]| == 0 }

  /** Offers bridged to exactly this card. */
  function BridgedTo(oc: OfferCards, card: string): set<string> { set o | o in oc && oc[o] == {card} }

  function BridgeCards(oc: OfferCards): set<string> { set o, c | o in oc && |oc[o]| == 1 && c in oc[o] :: c }

  function Collisions(oc: OfferCards): set<string> { set c | c in BridgeCards(oc) && |BridgedTo(oc, c)| > 1 }

  datatype Summary = Summary(family: Family, offersWithToken: nat, bridged: nat, missing: int, ambiguous: nat,
                             collisions: nat, coveragePpm: int)

  function Summarise(f: Family, oc: OfferCards, selected: nat): Summary {
    Summary(f, |oc|, |Bridged(oc)|, selected - |oc| + |Unmatched(oc)|, |Ambiguous(oc)|, |Collisions(oc)|,
            if selected == 0 then 0 else |Bridged(oc)| * 1_000_000 / selected)
  }

  /** Most bridged first, then fewest ambiguous, fewest collisions, field path and kind. */
  predicate SummaryLe(a: Summary, b: Summary) {
    if a.bridged != b.bridged then a.bridged > b.bridged
    else if a.ambiguous != b.ambiguous then a.ambiguous < b.ambiguous
    else if a.collisions != b.collisions then a.collisions < b.collisions
    else if a.family.fieldPath != b.family.fieldPath then StrLe(a.family.fieldPath, b.family.fieldPath)
    else StrLe(a.family.kind, b.family.kind)
  }

  const MAX_FAMILIES := 96

  function Truncated(ss: seq<Summary>): seq<Summary> {
    if |ss| > MAX_FAMILIES then ss[..MAX_FAMILIES] else ss
  }

  datatype Decision = ExactBridge | PartialBridge | NoBridge

  predicate IsExact(s: Summary, selected: nat) {
    s.bridged == selected && s.missing == 0 && s.ambiguous == 0 && s.collisions == 0
  }

  function Decide(ss: seq<Summary>, selected: nat): Decision {
    if exists i | 0 <= i < |ss| :: IsExact(ss[i], selected) then ExactBridge
    else if exists i | 0 <= i < |ss| :: ss[i].bridged > 0 then PartialBridge
    else NoBridge
  }

  // ----- the summary as it is computed -----

  /** Groups one offer's tokens: each family it has, in first-seen order, with the cards found. */
  method GroupTokens(r: Row) returns (order: seq<Family>, grouped: map<Family, set<string>>)
    ensures forall f :: f in order <==> f in grouped
    ensures forall f :: f in grouped <==> HasFamily(r, f)
    ensures forall f | f in grouped :: grouped[f] == CardsOf(r.tokens, f)
  {
    hide CardsOf;
    order, grouped := [], map[];
    for i := 0 to |r.tokens|
      invariant forall f :: f in order <==> f in grouped
      invariant forall f :: f in grouped <==> exists j | 0 <= j < i :: InFamily(r.tokens[j], f)
      invariant forall f | f in grouped :: grouped[f] == CardsOf(r.tokens[..i], f)
    {
      var t := r.tokens[i];
      var f := Family(t.fieldPath, t.kind);
      GroupStep(r.tokens, i);
      if InFamily(t, f) {
        var cards := KeySet(t.cardKeys);
        if f !in grouped { order := order + [f]; }
        grouped := grouped[f := (if f in grouped then grouped[f] else {}) + cards];
      }
    }
    assert r.tokens[..|r.tokens|] == r.tokens;
  }

  lemma GroupStep(ts: seq<Token>, i: nat)
    requires i < |ts|
    ensures forall f :: CardsOf(ts[..i + 1], f)
              == if InFamily(ts[i], f) then CardsOf(ts[..i], f) + KeySet(ts[i].cardKeys) else CardsOf(ts[..i], f)
    ensures forall f :: (forall j | 0 <= j < i :: !InFamily(ts[j], f)) ==> CardsOf(ts[..i], f) == {}
  {
    assert ts[..i + 1][..i] == ts[..i];
    forall f | forall j | 0 <= j < i :: !InFamily(ts[j], f) ensures CardsOf(ts[..i], f) == {} { NoTokens(ts[..i], f); }
  }

  lemma {:induction false} NoTokens(ts: seq<Token>, f: Family)
    requires forall j | 0 <= j < |ts| :: !InFamily(ts[j], f)
    ensures CardsOf(ts, f) == {}
  {
    if ts != [] { NoTokens(ts[..|ts| - 1], f); }
  }

  /** The buckets after the rows: which families occurred, and each one's offers and cards. */
  ghost predicate Buckets(rows: seq<Row>, order: seq<Family>, buckets: map<Family, OfferCards>) {
    && (forall f :: f in order <==> f in buckets)
    && NoDup(order)
    && (forall f :: f in buckets <==> Occurs(rows, f))
    && (forall f | f in buckets :: buckets[f] == CardsByOffer(rows, f))
  }

  method CollectFamilies(rows: seq<Row>) returns (order: seq<Family>, buckets: map<Family, OfferCards>)
    ensures Buckets(rows, order, buckets)
  {
    hide CardsByOffer, CardsOf, HasFamily;
    order, buckets := [], map[];
    for i := 0 to |rows|
      invariant Buckets(rows[..i], order, buckets)
    {
      var families, grouped := GroupTokens(rows[i]);
      order, buckets := AddOffer(rows, i, rows[i].objectId, order, buckets, families, grouped);
    }
    assert rows[..|rows|] == rows;
  }

  method AddOffer(ghost rows: seq<Row>, ghost i: nat, id: string, order: seq<Family>, buckets: map<Family, OfferCards>,
                  families: seq<Family>, grouped: map<Family, set<string>>)
    returns (order': seq<Family>, buckets': map<Family, OfferCards>)
    requires i < |rows| && id == rows[i].objectId && Buckets(rows[..i], order, buckets)
    requires forall f :: f in families <==> f in grouped
    requires forall f :: f in grouped <==> HasFamily(rows[i], f)
    requires forall f | f in grouped :: grouped[f] == CardsOf(rows[i].tokens, f)
    ensures Buckets(rows[..i + 1], order', buckets')
  {
    hide CardsByOffer, CardsOf, HasFamily, Occurs;
    order', buckets' := order, buckets;
    for j := 0 to |families|
      invariant NoDup(order') && forall f :: f in order' <==> f in buckets'
      invariant forall f :: f in buckets' <==> f in buckets || f in families[..j]
      invariant forall f | f in buckets' :: buckets'[f] ==
                  if f in families[..j] then (if f in buckets then buckets[f] else map[])[id := grouped[f]]
                  else buckets[f]
    {
      var f := families[j];
      assert families[..j + 1] == families[..j] + [f];
      var bucket: OfferCards := if f in buckets' then buckets'[f] else map[];
      if f !in buckets' { order' := order' + [f]; }
      buckets' := buckets'[f := bucket[id := grouped[f]]];
    }
    assert families[..|families|] == families;
    BucketStep(rows, i);
  }

  lemma BucketStep(rows: seq<Row>, i: nat)
    requires i < |rows|
    ensures forall f :: Occurs(rows[..i + 1], f) <==> Occurs(rows[..i], f) || HasFamily(rows[i], f)
    ensures forall f :: CardsByOffer(rows[..i + 1], f) == if HasFamily(rows[i], f)
              then CardsByOffer(rows[..i], f)[rows[i].objectId := CardsOf(rows[i].tokens, f)]
              else CardsByOffer(rows[..i], f)
    ensures forall f :: !Occurs(rows[..i], f) ==> CardsByOffer(rows[..i], f) == map[]
  {
    hide HasFamily, CardsOf;
    assert rows[..i + 1][..i] == rows[..i];
    assert rows[..i + 1] == rows[..i] + [rows[i]];
    forall f ensures Occurs(rows[..i + 1], f) <==> Occurs(rows[..i], f) || HasFamily(rows[i], f) {
      OccursAppend(rows[..i], rows[i], f);
    }
    forall f | !Occurs(rows[..i], f) ensures CardsByOffer(rows[..i], f) == map[] { NoOffers(rows[..i], f); }
  }

  lemma OccursAppend(rows: seq<Row>, r: Row, f: Family)
    ensures Occurs(rows + [r], f) <==> Occurs(rows, f) || HasFamily(r, f)
  {
    hide HasFamily;
    var all := rows + [r];
    if HasFamily(r, f) { assert HasFamily(all[|rows|], f); }
    if n :| 0 <= n < |rows| && HasFamily(rows[n], f) { assert HasFamily(all[n], f); }
    if n :| 0 <= n < |all| && HasFamily(all[n], f) { if n < |rows| { assert HasFamily(rows[n], f); } }
  }

  lemma {:induction false} NoOffers(rows: seq<Row>, f: Family)
    requires !Occurs(rows, f)
    ensures CardsByOffer(rows, f) == map[]
  {
    hide HasFamily, CardsOf;
    if rows != [] {
      var rest, last := rows[..|rows| - 1], rows[|rows| - 1];
      assert rows == rest + [last];
      OccursAppend(rest, last, f);
      NoOffers(rest, f);
    }
  }

  /** s is the summary of some occurring family. */
  ghost predicate IsSummary(s: Summary, rows: seq<Row>, selected: nat) {
    exists f :: Occurs(rows, f) && s == Summarise(f, CardsByOffer(rows, f), selected)
  }

  /** The loop over the buckets: one summary for each occurring family, in first-seen order. */
  method SummariseFamilies(rows: seq<Row>, selected: nat) returns (result: seq<Summary>)
    ensures NoDup(result) && forall s :: s in result <==> IsSummary(s, rows, selected)
  {
    hide CardsByOffer, Summarise, Occurs;
    var order, buckets := CollectFamilies(rows);
    result := [];
    for i := 0 to |order|
      invariant |result| == i
                && forall j | 0 <= j < i :: result[j] == Summarise(order[j], CardsByOffer(rows, order[j]), selected)
    {
      assert order[i] in buckets;
      result := result + [Summarise(order[i], buckets[order[i]], selected)];
    }
    forall s ensures s in result <==> IsSummary(s, rows, selected) {
      if s in result { var j :| 0 <= j < |result| && result[j] == s; assert order[j] in order; }
      if f :| Occurs(rows, f) && s == Summarise(f, CardsByOffer(rows, f), selected) {
        assert f in order;
        var j :| 0 <= j < |order| && order[j] == f;
        assert result[j] == s;
      }
    }
    forall i, j | 0 <= i < j < |result| ensures result[i] != result[j] {
      SummaryOfFamily(rows, order[i], selected);
      SummaryOfFamily(rows, order[j], selected);
    }
  }

  /** The best 96 of the occurring families, each once and best first; a family left out is no better than any kept. */
  method FamilySummary(rows: seq<Row>, selected: nat) returns (kept: seq<Summary>, ghost all: seq<Summary>)
    ensures IsSorted(kept, SummaryLe) && NoDup(kept) && |kept| <= MAX_FAMILIES
    ensures forall s | s in kept :: IsSummary(s, rows, selected)
    ensures forall s | IsSummary(s, rows, selected) ::
              s in kept || (|kept| == MAX_FAMILIES && forall k | k in kept :: SummaryLe(k, s))
    ensures kept == Truncated(all) && IsSorted(all, SummaryLe) && forall s :: s in all <==> IsSummary(s, rows, selected)
  {
    hide IsSummary, SummaryLe, Truncated, NoDup, IsSorted;
    var result := SummariseFamilies(rows, selected);
    SortedSummaries(result);
    all := Sort(result, SummaryLe);
    kept := Truncated(Sort(result, SummaryLe));
    TruncationKeepsBest(all);
  }

  lemma TruncationKeepsBest(all: seq<Summary>)
    requires IsSorted(all, SummaryLe) && NoDup(all)
    ensures IsSorted(Truncated(all), SummaryLe) && NoDup(Truncated(all)) && |Truncated(all)| <= MAX_FAMILIES
    ensures forall s | s in Truncated(all) :: s in all
    ensures forall s | s in all ::
              s in Truncated(all)
              || (|Truncated(all)| == MAX_FAMILIES && forall k | k in Truncated(all) :: SummaryLe(k, s))
  {
    hide SummaryLe;
    var kept := Truncated(all);
    forall s, k | s in all && s !in kept && k in kept ensures |kept| == MAX_FAMILIES && SummaryLe(k, s) {
      var i := IndexOf(all, s);
      var j := IndexOf(kept, k);
      KeptPrefix(all, i);
    }
    forall s | s in all && s !in kept ensures |kept| == MAX_FAMILIES { var i := IndexOf(all, s); }
  }

  lemma KeptPrefix(all: seq<Summary>, i: nat)
    requires i < |all|
    ensures i < |Truncated(all)| ==> all[i] in Truncated(all)
  {
    assert i < |Truncated(all)| ==> Truncated(all)[i] == all[i];
  }

  lemma SortedSummaries(result: seq<Summary>)
    requires NoDup(result)
    ensures IsSorted(Sort(result, SummaryLe), SummaryLe) && NoDup(Sort(result, SummaryLe))
    ensures forall s :: s in Sort(result, SummaryLe) <==> s in result
  {
    hide SummaryLe;
    NoDupPermuted(result, Sort(result, SummaryLe));
    SummaryLeIsPreorder();
    SortSorted(result, SummaryLe);
    SortMembers(result, SummaryLe);
  }

  lemma SummaryOfFamily(rows: seq<Row>, f: Family, selected: nat)
    ensures Summarise(f, CardsByOffer(rows, f), selected).family == f
  {
  }

  lemma SummaryLeIsPreorder()
    ensures IsPreorder(SummaryLe)
  {
    StrLeIsPreorder();
    forall a, b, c | SummaryLe(a, b) && SummaryLe(b, c) ensures SummaryLe(a, c) {
      PathOrder(a.family.fieldPath, b.family.fieldPath, c.family.fieldPath);
    }
  }

  lemma PathOrder(a: string, b: string, c: string)
    ensures StrLe(a, b) && StrLe(b, c) && a == c ==> a == b
  {
    if StrLe(a, b) && StrLe(b, c) && a == c { StrLeAntisymmetric(a, b); }
  }

  // ----- counts -----

  /** Bridged, ambiguous and missing offers add up to the selected count. */
  lemma OffersAccountedFor(f: Family, oc: OfferCards, selected: nat)
    ensures var s := Summarise(f, oc, selected); s.bridged + s.ambiguous + s.missing == selected
  {
    var b, a, u := Bridged(oc), Ambiguous(oc), Unmatched(oc);
    assert oc.Keys == b + a + u;
    assert |b + a + u| == |b| + |a| + |u|;
    assert |oc| == |oc.Keys|;
  }

  lemma BridgedWithin(f: Family, oc: OfferCards, offers: set<string>)
    requires oc.Keys <= offers
    ensures Summarise(f, oc, |offers|).bridged <= |offers|
    ensures Summarise(f, oc, |offers|).bridged == |offers| <==> Bridged(oc) == offers
  {
    SubsetSize(Bridged(oc), offers);
  }

  /** Coverage is a million parts per million exactly when every selected offer is bridged. */
  lemma FullCoverage(f: Family, oc: OfferCards, offers: set<string>)
    requires oc.Keys <= offers && offers != {}
    ensures Summarise(f, oc, |offers|).coveragePpm == 1_000_000 <==> Bridged(oc) == offers
  {
    BridgedWithin(f, oc, offers);
    Quotient(|Bridged(oc)|, |offers|);
  }

  lemma Quotient(b: nat, n: nat)
    requires b <= n && n > 0
    ensures b * 1_000_000 / n == 1_000_000 <==> b == n
  {
    var q := b * 1_000_000 / n;
    assert q * n <= b * 1_000_000 < q * n + n;
    if b == n { assert 1_000_000 * n == n * 1_000_000; MulCancel(q, 1_000_000, n); }
  }

  lemma MulCancel(q: nat, k: nat, n: nat)
    requires n > 0 && q * n <= k * n < q * n + n
    ensures q == k
  {
    if q < k { MulLt(q, k, n); } else if k < q { MulLt(k, q, n); }
  }

  /** No collision means no two bridged offers share a card. */
  lemma NoCollisions(oc: OfferCards)
    ensures |Collisions(oc)| == 0 <==> forall a, b | a in Bridged(oc) && b in Bridged(oc) && oc[a] == oc[b] :: a == b
  {
    if |Collisions(oc)| == 0 {
      forall a, b | a in Bridged(oc) && b in Bridged(oc) && oc[a] == oc[b] ensures a == b {
        var c := Only(oc[a]);
        assert c in BridgeCards(oc);
        assert c !in Collisions(oc);
        assert {a, b} <= BridgedTo(oc, c);
        SubsetSize({a, b}, BridgedTo(oc, c));
      }
    } else {
      var c :| c in Collisions(oc);
      var a, b := TwoOf(BridgedTo(oc, c));
      assert oc[a] == {c} && oc[b] == {c};
      assert a in Bridged(oc) && b in Bridged(oc);
    }
  }

  lemma Only(s: set<string>) returns (c: string)
    requires |s| == 1
    ensures s == {c}
  {
    c :| c in s;
    SubsetSize({c}, s);
  }

  lemma TwoOf(s: set<string>) returns (a: string, b: string)
    requires |s| > 1
    ensures a in s && b in s && a != b
  {
    a :| a in s;
    assert |s - {a}| == |s| - 1;
    b :| b in s - {a};
  }

  /** A family is exact iff it maps every selected offer to exactly one card, different offers to different cards. */
  lemma ExactIsInjection(f: Family, oc: OfferCards, offers: set<string>)
    requires oc.Keys <= offers
    ensures IsExact(Summarise(f, oc, |offers|), |offers|)
        <==> && (forall o | o in offers :: o in oc && |oc[o]| == 1)
             && (forall a, b | a in offers && b in offers && a in oc && b in oc && oc[a] == oc[b] :: a == b)
  {
    OffersAccountedFor(f, oc, |offers|);
    BridgedWithin(f, oc, offers);
    NoCollisions(oc);
    if IsExact(Summarise(f, oc, |offers|), |offers|) {
      assert forall o | o in offers :: o in Bridged(oc);
    }
    if forall o | o in offers :: o in oc && |oc[o]| == 1 {
      assert Bridged(oc) == offers;
    }
  }

  // ----- truncation -----

  ghost predicate WithinSelection(s: Summary, selected: nat) {
    s.bridged <= selected && s.bridged + s.ambiguous + s.missing == selected
  }

  /** The first family decides: it is exact iff some family is, and bridges something iff some family does. */
  lemma FirstDecides(ss: seq<Summary>, selected: nat)
    requires IsSorted(ss, SummaryLe) && forall s | s in ss :: WithinSelection(s, selected)
    ensures (exists s | s in ss :: IsExact(s, selected)) <==> ss != [] && IsExact(ss[0], selected)
    ensures (exists s | s in ss :: s.bridged > 0) <==> ss != [] && ss[0].bridged > 0
  {
    forall i | 0 <= i < |ss|
      ensures ss[i].bridged <= ss[0].bridged && (IsExact(ss[i], selected) ==> IsExact(ss[0], selected))
    {
      assert ss[i] in ss && ss[0] in ss;
      assert i > 0 ==> SummaryLe(ss[0], ss[i]);
    }
    if s :| s in ss && IsExact(s, selected) { var i :| 0 <= i < |ss| && ss[i] == s; }
    if s :| s in ss && s.bridged > 0 { var i :| 0 <= i < |ss| && ss[i] == s; }
    if ss != [] { assert ss[0] in ss; }
  }

  lemma DecideByMembers(ss: seq<Summary>, selected: nat)
    ensures (exists i | 0 <= i < |ss| :: IsExact(ss[i], selected)) <==> exists s | s in ss :: IsExact(s, selected)
    ensures (exists i | 0 <= i < |ss| :: ss[i].bridged > 0) <==> exists s | s in ss :: s.bridged > 0
  {
    if i :| 0 <= i < |ss| && IsExact(ss[i], selected) { assert ss[i] in ss; }
    if i :| 0 <= i < |ss| && ss[i].bridged > 0 { assert ss[i] in ss; }
    if s :| s in ss && IsExact(s, selected) { var i :| 0 <= i < |ss| && ss[i] == s; }
    if s :| s in ss && s.bridged > 0 { var i :| 0 <= i < |ss| && ss[i] == s; }
  }

  lemma FirstDecision(ss: seq<Summary>, selected: nat)
    requires IsSorted(ss, SummaryLe) && forall s | s in ss :: WithinSelection(s, selected)
    ensures Decide(ss, selected) == if ss != [] && IsExact(ss[0], selected) then ExactBridge
                                    else if ss != [] && ss[0].bridged > 0 then PartialBridge else NoBridge
  {
    hide IsExact;
    FirstDecides(ss, selected);
    DecideByMembers(ss, selected);
  }

  /** Keeping only the first 96 families never changes the decision. */
  lemma TruncationKeepsDecision(all: seq<Summary>, selected: nat)
    requires IsSorted(all, SummaryLe) && forall s | s in all :: WithinSelection(s, selected)
    ensures Decide(Truncated(all), selected) == Decide(all, selected)
  {
    hide SummaryLe, IsExact, WithinSelection;
    var kept := Truncated(all);
    assert IsSorted(kept, SummaryLe);
    forall s | s in kept ensures WithinSelection(s, selected) { assert s in all; }
    FirstDecision(all, selected);
    FirstDecision(kept, selected);
  }

  /** The hypothesis of the last lemma holds of every inventory whose offers are selected ones, repeated or not. */
  lemma {:induction false} OffersStaySelected(rows: seq<Row>, f: Family, offers: set<string>)
    requires forall i | 0 <= i < |rows| :: rows[i].objectId in offers
    ensures CardsByOffer(rows, f).Keys <= offers
    ensures WithinSelection(Summarise(f, CardsByOffer(rows, f), |offers|), |offers|)
  {
    hide HasFamily, CardsOf, Summarise;
    if rows != [] { OffersStaySelected(rows[..|rows| - 1], f, offers); }
    BridgedWithin(f, CardsByOffer(rows, f), offers);
    OffersAccountedFor(f, CardsByOffer(rows, f), |offers|);
  }

  /** End to end: the decision over the kept families says whether some token family maps the selected offers
      one-to-one onto cards, and otherwise whether any offer is bridged at all. */
  method Diagnose(rows: seq<Row>, offers: set<string>) returns (d: Decision)
    requires forall i | 0 <= i < |rows| :: rows[i].objectId in offers
    ensures d.ExactBridge?
            <==> exists f :: Occurs(rows, f) && IsExact(Summarise(f, CardsByOffer(rows, f), |offers|), |offers|)
    ensures d.NoBridge? <==> (forall f :: Occurs(rows, f) ==> Bridged(CardsByOffer(rows, f)) == {}) && !d.ExactBridge?
  {
    hide CardsByOffer, Occurs, IsExact, SummaryLe, WithinSelection;
    var kept: seq<Summary>;
    ghost var all: seq<Summary>;
    kept, all := FamilySummary(rows, |offers|);
    d := Decide(kept, |offers|);
    forall s | s in all ensures WithinSelection(s, |offers|) {
      var f :| Occurs(rows, f) && s == Summarise(f, CardsByOffer(rows, f), |offers|);
      OffersStaySelected(rows, f, offers);
    }
    TruncationKeepsDecision(all, |offers|);
    DecideByMembers(all, |offers|);
    forall f | Occurs(rows, f) ensures Summarise(f, CardsByOffer(rows, f), |offers|) in all { }
    forall f
      ensures Summarise(f, CardsByOffer(rows, f), |offers|).bridged > 0 <==> Bridged(CardsByOffer(rows, f)) != {}
    {
    }
  }
}
