/** What the page/card gate accepts, said of the payload's own fields and without its row checks. */
module PageCardMeaning {
  import opened Foundations
  import opened Sorting
  import opened Formats
  import opened Regions
  import opened PageCardRows
  import opened PageCardGate
  import opened PageCardInverse
  import opened PageCardStability

  // ----- texts -----

  ghost predicate IsIdText(s: string) {
    && 4 <= |s| <= 160 && (IsDigit(s[0]) || 'a' <= s[0] <= 'z')
    && forall c | c in s :: IsDigit(c) || 'a' <= c <= 'z' || c == '.' || c == '_' || c == ':' || c == '-'
  }

  ghost predicate IsDigestText(s: string) {
    |s| == 64 && forall c | c in s :: IsDigit(c) || 'a' <= c <= 'f'
  }

  /** The ID of a card on the page: both numbers in three digits. */
  ghost predicate IsCardOf(id: string, page: int) {
    0 <= page < 1000 && exists m: nat | m < 1000 :: id == "p" + Pad3(page) + ":c" + Pad3(m)
  }

  // ----- rows -----

  ghost predicate IsGoodCandidate(c: Candidate, pageCount: int) {
    && IsIdText(Strip(c.id)) && IsDigestText(c.payloadSha)
    && 1 <= c.page <= pageCount && IsCardOf(Strip(c.cardId), c.page)
    && (|| (Strip(c.route) == "auto_candidate" && Strip(c.reason) == "")
        || ((Strip(c.route) == "review_required" || Strip(c.route) == "excluded") && Strip(c.reason) != ""))
  }

  /** The rectangle rounded to millionths lies on the page, with at most one millionth beyond its far edges. */
  ghost predicate IsPlaced(r: RawRegion) {
    var x, y := RoundReal(1000000.0 * r.x), RoundReal(1000000.0 * r.y);
    var w, h := RoundReal(1000000.0 * r.width), RoundReal(1000000.0 * r.height);
    && x >= 0 && y >= 0 && 1_000_000 >= w >= 1 && 1_000_000 >= h >= 1
    && x <= 1_000_000 && y <= 1_000_000 && x + w <= 1_000_001 && y + h <= 1_000_001
  }

  /** The card lists an ID that is x once stripped. */
  ghost predicate ListsId<R>(k: Card<R>, x: string) {
    exists s | s in k.candidateIds :: Strip(s) == x
  }

  ghost predicate ListsOnce(ids: seq<string>) {
    forall i, j | 0 <= i < j < |ids| :: Strip(ids[i]) == Strip(ids[j]) ==> Strip(ids[i]) == ""
  }

  ghost predicate IsGoodCard(k: Card<RawRegion>, pageCount: int) {
    && IsDigestText(k.pageSha) && IsPlaced(k.region) && ListsOnce(k.candidateIds)
    && 1 <= k.page <= pageCount && IsCardOf(Strip(k.id), k.page)
    && (|| (Strip(k.scope) == "in_scope" && Strip(k.route) == "candidate" && Strip(k.reason) == ""
            && exists s | s in k.candidateIds :: Strip(s) != "")
        || (Strip(k.scope) == "review" && Strip(k.route) == "review" && Strip(k.reason) != "")
        || (Strip(k.scope) == "excluded" && Strip(k.route) == "excluded" && Strip(k.reason) != ""))
  }

  lemma TextsIff(s: string)
    ensures IsIdText(s) <==> ValidId(s)
    ensures IsDigestText(s) <==> IsSha256(s)
  {
    if IsIdText(s) {
      forall i | 0 <= i < |s| ensures IsLowerOrDigit(s[i]) || s[i] in "._:-" { assert s[i] in s; }
    }
    if IsDigestText(s) {
      forall i | 0 <= i < |s| ensures IsDigit(s[i]) || 'a' <= s[i] <= 'f' { assert s[i] in s; }
    }
  }

  lemma CardOfIff(id: string, page: int)
    ensures IsCardOf(id, page) <==> CardPage(id) == Some(page)
  {
    hide Pad3, Parse3;
    if IsCardOf(id, page) {
      var m: nat :| m < 1000 && id == "p" + Pad3(page) + ":c" + Pad3(m);
      assert id[1..4] == Pad3(page) && id[4..6] == ":c" && id[6..] == Pad3(m);
      Pad3RoundTrip(page, id);
      Pad3RoundTrip(m, id);
    }
    if CardPage(id) == Some(page) {
      var m := Parse3(id[6..]).value;
      ParsedBelow(id[1..4]);
      ParsedBelow(id[6..]);
      Pad3RoundTrip(page, id[1..4]);
      Pad3RoundTrip(m, id[6..]);
      assert id == [id[0]] + id[1..4] + id[4..6] + id[6..];
      assert id == "p" + Pad3(page) + ":c" + Pad3(m);
    }
  }

  lemma ParsedBelow(s: string)
    ensures Parse3(s).Some? ==> Parse3(s).value < 1000
  {
  }

  lemma CandidateIff(c: Candidate, pageCount: int)
    ensures IsGoodCandidate(c, pageCount) <==> CandidateOk(CleanCandidate(c), pageCount)
  {
    hide Strip, IsIdText, ValidId, IsDigestText, IsSha256, IsCardOf, CardPage;
    TextsIff(Strip(c.id));
    TextsIff(c.payloadSha);
    CardOfIff(Strip(c.cardId), c.page);
  }

  lemma PlacedIff(r: RawRegion)
    ensures IsPlaced(r) <==> RegionOk(RoundRegion(r))
  {
    hide RoundReal;
    assert 1000000.0 * r.x == r.x * 1_000_000.0 && 1000000.0 * r.y == r.y * 1_000_000.0;
    assert 1000000.0 * r.width == r.width * 1_000_000.0 && 1000000.0 * r.height == r.height * 1_000_000.0;
  }

  lemma CleanedMembers(k: Card<RawRegion>, x: string)
    ensures x in CleanCard(k).candidateIds <==> x != "" && ListsId(k, x)
  {
    hide Strip, RoundRegion;
    var kept := Filter(k.candidateIds, NonBlank);
    var texts := Map(kept, Strip);
    SortMembers(texts, StrLe);
    if x in texts {
      var i := IndexOf(texts, x);
      assert kept[i] in k.candidateIds;
    }
    if x != "" && ListsId(k, x) {
      var s :| s in k.candidateIds && Strip(s) == x;
      var i := IndexOf(kept, s);
      assert texts[i] == x;
    }
  }

  lemma OnceLast(ids: seq<string>)
    requires ids != []
    ensures var n := |ids| - 1;
            ListsOnce(ids) <==> ListsOnce(ids[..n])
                                && (Strip(ids[n]) == "" || forall s | s in ids[..n] :: Strip(s) != Strip(ids[n]))
  {
    hide Strip;
    var n := |ids| - 1;
    if ListsOnce(ids[..n]) && (Strip(ids[n]) == "" || forall s | s in ids[..n] :: Strip(s) != Strip(ids[n])) {
      forall i, j | 0 <= i < j < |ids| && Strip(ids[i]) == Strip(ids[j]) ensures Strip(ids[i]) == "" {
        if j < n { assert ids[..n][i] == ids[i] && ids[..n][j] == ids[j]; } else { assert ids[..n][i] in ids[..n]; }
      }
    }
    if ListsOnce(ids) && Strip(ids[n]) != "" {
      forall s | s in ids[..n] ensures Strip(s) != Strip(ids[n]) { var i := IndexOf(ids[..n], s); }
    }
  }

  lemma {:induction false} OnceIff(ids: seq<string>)
    ensures ListsOnce(ids) <==> NoDup(Map(Filter(ids, NonBlank), Strip))
  {
    hide Strip;
    if ids != [] {
      var n := |ids| - 1;
      OnceIff(ids[..n]);
      OnceLast(ids);
      FilterLast(ids, NonBlank);
      var kept := Filter(ids[..n], NonBlank);
      var texts := Map(kept, Strip);
      if NonBlank(ids[n]) {
        assert Map(Filter(ids, NonBlank), Strip) == texts + [Strip(ids[n])];
        AppendedText(ids[..n], ids[n]);
        if NoDup(texts) { NoDupAppend(texts, Strip(ids[n])); } else { RepeatStays(texts, Strip(ids[n])); }
      } else {
        assert Filter(ids, NonBlank) == kept;
      }
    }
  }

  lemma AppendedText(ids: seq<string>, t: string)
    requires NonBlank(t)
    ensures Strip(t) in Map(Filter(ids, NonBlank), Strip) <==> exists s | s in ids :: Strip(s) == Strip(t)
  {
    hide Strip;
    var kept := Filter(ids, NonBlank);
    var texts := Map(kept, Strip);
    if Strip(t) in texts {
      var i := IndexOf(texts, Strip(t));
      assert kept[i] in ids;
    }
    if s :| s in ids && Strip(s) == Strip(t) {
      var i := IndexOf(kept, s);
      assert texts[i] == Strip(t);
    }
  }

  lemma RepeatStays(s: seq<string>, x: string)
    requires !NoDup(s)
    ensures !NoDup(s + [x])
  {
    var i, j :| 0 <= i < j < |s| && s[i] == s[j];
    assert (s + [x])[i] == (s + [x])[j];
  }

  lemma CleanedOnce(k: Card<RawRegion>)
    ensures ListsOnce(k.candidateIds) <==> NoDup(CleanCard(k).candidateIds)
  {
    hide Strip, RoundRegion, ListsOnce;
    var texts := Map(Filter(k.candidateIds, NonBlank), Strip);
    OnceIff(k.candidateIds);
    if NoDup(texts) { NoDupPermuted(texts, Sort(texts, StrLe)); }
    if NoDup(Sort(texts, StrLe)) { NoDupPermuted(Sort(texts, StrLe), texts); }
  }

  lemma CardIff(k: Card<RawRegion>, pageCount: int)
    ensures IsGoodCard(k, pageCount) <==> CardOk(CleanCard(k), pageCount)
  {
    hide Strip, IsDigestText, IsSha256, IsCardOf, CardPage, IsPlaced, RegionOk, ListsOnce, NoDup, CleanIds, ListsId;
    TextsIff(k.pageSha);
    CardOfIff(Strip(k.id), k.page);
    PlacedIff(k.region);
    CleanedOnce(k);
    var c := CleanCard(k);
    if c.candidateIds != [] {
      CleanedMembers(k, c.candidateIds[0]);
      ListedId(k, c.candidateIds[0]);
    }
    if s :| s in k.candidateIds && Strip(s) != "" {
      CleanedMembers(k, Strip(s));
      ListedId(k, Strip(s));
    }
  }

  lemma ListedId(k: Card<RawRegion>, x: string)
    ensures ListsId(k, x) <==> exists s | s in k.candidateIds :: Strip(s) == x
  {
  }

  // ----- lists -----

  /** The digest covers the stripped rows in order of ID, and nothing else. */
  ghost predicate CoversCandidates(content: seq<Candidate>, rows: seq<Candidate>) {
    && |content| == |rows|
    && (forall i, j | 0 <= i < j < |content| :: StrLe(content[i].id, content[j].id))
    && forall c | c in rows ::
         Candidate(Strip(c.id), c.payloadSha, c.page, Strip(c.cardId), Strip(c.route), Strip(c.reason)) in content
  }

  /** The row with texts stripped, sides rounded to millionths and the non-blank candidate IDs in order. */
  ghost predicate IsNormalCard(n: Card<Region>, k: Card<RawRegion>) {
    && n.id == Strip(k.id) && n.page == k.page && n.pageSha == k.pageSha && n.scope == Strip(k.scope)
    && n.route == Strip(k.route) && n.reason == Strip(k.reason)
    && n.region == Region(RoundReal(1000000.0 * k.region.x), RoundReal(1000000.0 * k.region.y),
                          RoundReal(1000000.0 * k.region.width), RoundReal(1000000.0 * k.region.height))
    && (forall i, j | 0 <= i < j < |n.candidateIds| :: StrLe(n.candidateIds[i], n.candidateIds[j]))
    && multiset(n.candidateIds) == multiset(Map(Filter(k.candidateIds, (s: string) => Strip(s) != ""), Strip))
  }

  ghost predicate CoversCards(content: seq<Card<Region>>, rows: seq<Card<RawRegion>>) {
    && |content| == |rows|
    && (forall i, j | 0 <= i < j < |content| :: StrLe(content[i].id, content[j].id))
    && forall k | k in rows :: exists n | n in content :: IsNormalCard(n, k)
  }

  /** A card bears the candidate's card ID and the route that goes with the candidate's. */
  ghost predicate HasCard(c: Candidate, cards: seq<Card<RawRegion>>) {
    exists k | k in cards ::
      && Strip(k.id) == Strip(c.cardId)
      && (|| (Strip(c.route) == "auto_candidate" && Strip(k.route) == "candidate")
          || (Strip(c.route) == "review_required" && Strip(k.route) == "review")
          || (Strip(c.route) == "excluded" && Strip(k.route) == "excluded"))
  }

  /** The card lists exactly the candidates that name it. */
  ghost predicate ListsItsOwn(k: Card<RawRegion>, cands: seq<Candidate>) {
    forall x | x != "" ::
      ListsId(k, x) <==> exists c | c in cands :: Strip(c.cardId) == Strip(k.id) && Strip(c.id) == x
  }

  ghost predicate IsTwoWay(cands: seq<Candidate>, cards: seq<Card<RawRegion>>) {
    (forall c | c in cands :: HasCard(c, cards)) && (forall k | k in cards :: ListsItsOwn(k, cands))
  }

  ghost predicate IsGoodPayload(p: Payload) {
    && p.header.schemaVersion == 1 && p.header.mode == "ALDI_NEW_BASELINE_PAGE_CARD_PARITY_V01"
    && p.header.issueNumber == 682
    && p.baseline.gateMode == "ALDI_NEW_IMMUTABLE_BASELINE_GATE_A_V01"
    && p.baseline.gateDecision == "READY_FOR_NEW_BASELINE_ADJUDICATION"
    && IsIdText(Strip(p.baseline.id)) && !Contains(Strip(p.baseline.id), "a30")
    && !Contains(Strip(p.baseline.id), "a31") && !Contains(Strip(p.baseline.id), "49+41")
    && 1 <= p.baseline.pageCount <= 128 && !p.baseline.claimed
    && IsDigestText(p.baseline.fingerprint) && IsDigestText(p.baseline.manifestSha)
    && |p.candidates| <= 4096 && 1 <= |p.cards| <= 8192
    && (forall i | 0 <= i < |p.candidates| :: IsGoodCandidate(p.candidates[i], p.baseline.pageCount))
    && (forall i | 0 <= i < |p.cards| :: IsGoodCard(p.cards[i], p.baseline.pageCount))
    && (forall i, j | 0 <= i < j < |p.candidates| :: Strip(p.candidates[i].id) != Strip(p.candidates[j].id))
    && (forall i, j | 0 <= i < j < |p.cards| :: Strip(p.cards[i].id) != Strip(p.cards[j].id))
    && CoversCandidates(p.candidateSha.content, p.candidates) && CoversCards(p.cardSha.content, p.cards)
    && IsTwoWay(p.candidates, p.cards)
  }

  lemma CoverPermutes<T(!new)>(content: seq<T>, rows: seq<T>)
    requires NoDup(rows) && |content| == |rows| && forall x | x in rows :: x in content
    ensures multiset(content) == multiset(rows)
  {
    NoDupCount(rows);
    forall x ensures multiset(rows)[x] <= multiset(content)[x] {
      assert x in multiset(rows) <==> x in rows;
      assert x in multiset(content) <==> x in content;
    }
    SubMultisetSize(multiset(rows), multiset(content));
  }

  lemma KeysApart<T>(rows: seq<T>, key: T -> string)
    requires NoDup(Map(rows, key))
    ensures NoDup(rows)
  {
    forall i, j | 0 <= i < j < |rows| ensures rows[i] != rows[j] { assert Map(rows, key)[i] != Map(rows, key)[j]; }
  }

  lemma CoverIsSort<T(!new)>(content: seq<T>, rows: seq<T>, le: (T, T) -> bool)
    requires IsPreorder(le) && KeysIdentify(rows, le) && NoDup(rows)
    ensures (|content| == |rows| && IsSorted(content, le) && forall x | x in rows :: x in content)
            <==> content == Sort(rows, le)
  {
    SortSorted(rows, le);
    SortMembers(rows, le);
    if |content| == |rows| && IsSorted(content, le) && forall x | x in rows :: x in content {
      CoverPermutes(content, rows);
      SameMembers(content, rows);
      SortedUnique(content, Sort(rows, le), le);
    }
  }

  lemma CandidatesCovered(content: seq<Candidate>, rows: seq<Candidate>)
    requires NoDup(Map(Map(rows, CleanCandidate), CandidateKey))
    ensures CoversCandidates(content, rows) <==> content == NormalCandidates(rows)
  {
    hide Strip, Sort, NoDup, StrLe;
    var clean := Map(rows, CleanCandidate);
    CandidatesIdentified(clean);
    KeysApart(clean, CandidateKey);
    OrdersArePreorders();
    CoverIsSort(content, clean, CandidateLe);
    forall c | c in rows
      ensures CleanCandidate(c) == Candidate(Strip(c.id), c.payloadSha, c.page, Strip(c.cardId), Strip(c.route),
                                             Strip(c.reason))
      ensures CleanCandidate(c) in clean
    {
      var i := IndexOf(rows, c);
      assert clean[i] == CleanCandidate(c);
    }
    if CoversCandidates(content, rows) {
      forall x | x in clean ensures x in content { var i := IndexOf(clean, x); assert rows[i] in rows; }
    }
  }

  lemma SortIs(ids: seq<string>, texts: seq<string>)
    ensures IsSorted(ids, StrLe) && multiset(ids) == multiset(texts) <==> ids == Sort(texts, StrLe)
  {
    hide StrLe;
    StrLeIsPreorder();
    StringsIdentified(ids);
    SortSorted(texts, StrLe);
    if IsSorted(ids, StrLe) && multiset(ids) == multiset(texts) { SortedUnique(ids, Sort(texts, StrLe), StrLe); }
  }

  lemma RoundedSides(r: RawRegion)
    ensures RoundRegion(r) == Region(RoundReal(1000000.0 * r.x), RoundReal(1000000.0 * r.y),
                                     RoundReal(1000000.0 * r.width), RoundReal(1000000.0 * r.height))
  {
    hide RoundReal;
    assert 1000000.0 * r.x == r.x * 1_000_000.0 && 1000000.0 * r.y == r.y * 1_000_000.0;
    assert 1000000.0 * r.width == r.width * 1_000_000.0 && 1000000.0 * r.height == r.height * 1_000_000.0;
  }

  lemma NormalCardIs(n: Card<Region>, k: Card<RawRegion>)
    ensures IsNormalCard(n, k) <==> n == CleanCard(k)
  {
    hide Strip, RoundReal, StrLe, Sort, RoundRegion, Filter;
    SameFilter(k.candidateIds, (s: string) => Strip(s) != "");
    RoundedSides(k.region);
    SortIs(n.candidateIds, Map(Filter(k.candidateIds, NonBlank), Strip));
  }

  lemma {:induction false} SameFilter(ids: seq<string>, p: string -> bool)
    requires forall s :: p(s) <==> NonBlank(s)
    ensures Filter(ids, p) == Filter(ids, NonBlank)
  {
    hide Strip;
    if ids != [] { SameFilter(ids[1..], p); }
  }

  lemma CardsCovered(content: seq<Card<Region>>, rows: seq<Card<RawRegion>>)
    requires NoDup(Map(Map(rows, CleanCard), CardKey))
    ensures CoversCards(content, rows) <==> content == NormalCards(rows)
  {
    hide CleanCard, IsNormalCard, Sort, NoDup, StrLe;
    var clean := Map(rows, CleanCard);
    CardsIdentified(clean);
    KeysApart(clean, CardKey);
    OrdersArePreorders();
    CoverIsSort(content, clean, CardLe);
    forall n, k ensures IsNormalCard(n, k) <==> n == CleanCard(k) { NormalCardIs(n, k); }
    if CoversCards(content, rows) {
      forall x | x in clean ensures x in content {
        var i := IndexOf(clean, x);
        assert rows[i] in rows;
        var n :| n in content && IsNormalCard(n, rows[i]);
      }
    }
    if content == NormalCards(rows) {
      forall k | k in rows ensures exists n | n in content :: IsNormalCard(n, k) {
        var i := IndexOf(rows, k);
        assert clean[i] in content && IsNormalCard(clean[i], k);
      }
    }
  }

  // ----- the two-way relation -----

  lemma NormalMembers(p: Payload)
    ensures forall c :: c in NormalCandidates(p.candidates) <==> exists r | r in p.candidates :: c == CleanCandidate(r)
    ensures forall k :: k in NormalCards(p.cards) <==> exists r | r in p.cards :: k == CleanCard(r)
  {
    hide CleanCandidate, CleanCard;
    var cands, cards := Map(p.candidates, CleanCandidate), Map(p.cards, CleanCard);
    SortMembers(cands, CandidateLe);
    SortMembers(cards, CardLe);
    forall c ensures c in cands <==> exists r | r in p.candidates :: c == CleanCandidate(r) {
      if c in cands { var i := IndexOf(cands, c); assert p.candidates[i] in p.candidates; }
      if r :| r in p.candidates && c == CleanCandidate(r) { var i := IndexOf(p.candidates, r); assert cands[i] == c; }
    }
    forall k ensures k in cards <==> exists r | r in p.cards :: k == CleanCard(r) {
      if k in cards { var i := IndexOf(cards, k); assert p.cards[i] in p.cards; }
      if r :| r in p.cards && k == CleanCard(r) { var i := IndexOf(p.cards, r); assert cards[i] == k; }
    }
  }

  lemma RouteFits(c: Candidate, k: Card<RawRegion>, pageCount: int)
    requires IsGoodCandidate(c, pageCount)
    ensures CleanCard(k).route == CardRoute(CleanCandidate(c).route) <==>
            || (Strip(c.route) == "auto_candidate" && Strip(k.route) == "candidate")
            || (Strip(c.route) == "review_required" && Strip(k.route) == "review")
            || (Strip(c.route) == "excluded" && Strip(k.route) == "excluded")
  {
    hide Strip, CleanIds, RoundRegion, IsIdText, IsDigestText, IsCardOf;
  }

  lemma HasCardIff(c: Candidate, p: Payload)
    requires IsGoodCandidate(c, p.baseline.pageCount)
    ensures HasCard(c, p.cards) <==>
            var d := CleanCandidate(c);
            exists n | n in NormalCards(p.cards) :: n.id == d.cardId && n.route == CardRoute(d.route)
  {
    hide Strip, NormalCards, NormalCandidates, CardRoute, IsGoodCandidate, CleanIds, RoundRegion;
    var d := CleanCandidate(c);
    NormalMembers(p);
    if HasCard(c, p.cards) {
      var k :| k in p.cards && Strip(k.id) == Strip(c.cardId)
        && (|| (Strip(c.route) == "auto_candidate" && Strip(k.route) == "candidate")
            || (Strip(c.route) == "review_required" && Strip(k.route) == "review")
            || (Strip(c.route) == "excluded" && Strip(k.route) == "excluded"));
      RouteFits(c, k, p.baseline.pageCount);
      assert CleanCard(k) in NormalCards(p.cards);
    }
    if n :| n in NormalCards(p.cards) && n.id == d.cardId && n.route == CardRoute(d.route) {
      var k :| k in p.cards && n == CleanCard(k);
      RouteFits(c, k, p.baseline.pageCount);
    }
  }

  lemma BoundIff(p: Payload, id: string, x: string)
    ensures Bound(NormalCandidates(p.candidates), id, x)
            <==> exists c | c in p.candidates :: Strip(c.cardId) == id && Strip(c.id) == x
  {
    hide Strip, NormalCards, NormalCandidates, CleanCard;
    NormalMembers(p);
    if c :| c in p.candidates && Strip(c.cardId) == id && Strip(c.id) == x {
      assert CleanCandidate(c) in NormalCandidates(p.candidates);
    }
    if c :| c in NormalCandidates(p.candidates) && c.cardId == id && c.id == x {
      var r :| r in p.candidates && c == CleanCandidate(r);
    }
  }

  lemma ListsItsOwnIff(k: Card<RawRegion>, p: Payload)
    requires forall c | c in p.candidates :: Strip(c.id) != ""
    ensures var n := CleanCard(k);
            ListsItsOwn(k, p.candidates) <==>
            forall x :: x in n.candidateIds <==> Bound(NormalCandidates(p.candidates), n.id, x)
  {
    hide Strip, ListsId, CleanIds, RoundRegion, NormalCandidates, Bound;
    var n := CleanCard(k);
    forall x
      ensures x in n.candidateIds <==> x != "" && ListsId(k, x)
      ensures Bound(NormalCandidates(p.candidates), n.id, x)
              <==> exists c | c in p.candidates :: Strip(c.cardId) == Strip(k.id) && Strip(c.id) == x
    {
      CleanedMembers(k, x);
      BoundIff(p, n.id, x);
    }
  }

  ghost predicate FindsCard(d: Candidate, cards: seq<Card<Region>>) {
    exists n | n in cards :: n.id == d.cardId && n.route == CardRoute(d.route)
  }

  lemma ForwardIff(p: Payload)
    requires forall c | c in p.candidates :: IsGoodCandidate(c, p.baseline.pageCount)
    ensures (forall c | c in p.candidates :: HasCard(c, p.cards)) <==>
            forall d | d in NormalCandidates(p.candidates) :: FindsCard(d, NormalCards(p.cards))
  {
    hide IsGoodCandidate, NormalCandidates, NormalCards, CleanCandidate, CleanCard, CardRoute, HasCard;
    NormalMembers(p);
    forall c | c in p.candidates
      ensures HasCard(c, p.cards) <==> FindsCard(CleanCandidate(c), NormalCards(p.cards))
    {
      HasCardIff(c, p);
    }
  }

  ghost predicate ListsBound(n: Card<Region>, cands: seq<Candidate>) {
    forall x :: x in n.candidateIds <==> Bound(cands, n.id, x)
  }

  lemma ReverseIff(p: Payload)
    requires forall c | c in p.candidates :: IsGoodCandidate(c, p.baseline.pageCount)
    ensures (forall k | k in p.cards :: ListsItsOwn(k, p.candidates)) <==>
            forall n | n in NormalCards(p.cards) :: ListsBound(n, NormalCandidates(p.candidates))
  {
    hide IsGoodCandidate, NormalCandidates, NormalCards, CleanCandidate, CleanCard, Bound, ListsItsOwn, Strip;
    NormalMembers(p);
    forall c | c in p.candidates ensures Strip(c.id) != "" { GoodIdNotEmpty(c, p.baseline.pageCount); }
    forall k | k in p.cards
      ensures ListsItsOwn(k, p.candidates) <==> ListsBound(CleanCard(k), NormalCandidates(p.candidates))
    {
      ListsItsOwnIff(k, p);
    }
  }

  lemma TwoWayIff(p: Payload)
    requires forall c | c in p.candidates :: IsGoodCandidate(c, p.baseline.pageCount)
    ensures IsTwoWay(p.candidates, p.cards) <==> IsInverse(NormalCandidates(p.candidates), NormalCards(p.cards))
  {
    hide IsGoodCandidate, NormalCandidates, NormalCards, Bound, HasCard, ListsItsOwn, CardRoute;
    ForwardIff(p);
    ReverseIff(p);
  }

  lemma GoodIdNotEmpty(c: Candidate, pageCount: int)
    requires IsGoodCandidate(c, pageCount)
    ensures Strip(c.id) != ""
  {
  }

  // ----- the verdict -----

  lemma CandidateListIff(rows: seq<Candidate>, pageCount: int)
    ensures CandidatesOk(rows, pageCount) <==>
            && |rows| <= 4096 && (forall i | 0 <= i < |rows| :: IsGoodCandidate(rows[i], pageCount))
            && forall i, j | 0 <= i < j < |rows| :: Strip(rows[i].id) != Strip(rows[j].id)
  {
    hide IsGoodCandidate, CandidateOk, Strip, NoDup;
    var keys := Map(Map(rows, CleanCandidate), CandidateKey);
    assert forall i | 0 <= i < |rows| :: keys[i] == Strip(rows[i].id);
    DifferIff(keys);
    forall i | 0 <= i < |rows| { CandidateIff(rows[i], pageCount); }
  }

  lemma DifferIff(keys: seq<string>)
    ensures NoDup(keys) <==> forall i, j | 0 <= i < j < |keys| :: keys[i] != keys[j]
  {
  }

  lemma CardListIff(rows: seq<Card<RawRegion>>, pageCount: int)
    ensures CardsOk(rows, pageCount) <==>
            && 1 <= |rows| <= 8192 && (forall i | 0 <= i < |rows| :: IsGoodCard(rows[i], pageCount))
            && forall i, j | 0 <= i < j < |rows| :: Strip(rows[i].id) != Strip(rows[j].id)
  {
    hide IsGoodCard, CardOk, Strip, NoDup, CleanIds, RoundRegion;
    var keys := Map(Map(rows, CleanCard), CardKey);
    assert forall i | 0 <= i < |rows| :: keys[i] == Strip(rows[i].id);
    DifferIff(keys);
    forall i | 0 <= i < |rows| { CardIff(rows[i], pageCount); }
  }

  lemma CandidatesChecked(p: Payload)
    ensures CheckedCandidates(p.candidates, p.baseline.pageCount, p.candidateSha).Ok? <==>
            CandidatesOk(p.candidates, p.baseline.pageCount) && CoversCandidates(p.candidateSha.content, p.candidates)
  {
    hide CoversCandidates, NormalCandidates, CandidateOk, CleanCandidate, NoDup;
    if CandidatesOk(p.candidates, p.baseline.pageCount) {
      CandidatesCovered(p.candidateSha.content, p.candidates);
    }
  }

  lemma CardsChecked(p: Payload)
    ensures CheckedCards(p.cards, p.baseline.pageCount, p.cardSha).Ok? <==>
            CardsOk(p.cards, p.baseline.pageCount) && CoversCards(p.cardSha.content, p.cards)
  {
    hide CoversCards, NormalCards, CardOk, CleanCard, NoDup;
    if CardsOk(p.cards, p.baseline.pageCount) { CardsCovered(p.cardSha.content, p.cards); }
  }

  lemma HeadIff(p: Payload)
    ensures HeaderOk(p.header) && BaselineOk(CleanBaseline(p.baseline)) <==>
            && p.header.schemaVersion == 1 && p.header.mode == "ALDI_NEW_BASELINE_PAGE_CARD_PARITY_V01"
            && p.header.issueNumber == 682
            && p.baseline.gateMode == "ALDI_NEW_IMMUTABLE_BASELINE_GATE_A_V01"
            && p.baseline.gateDecision == "READY_FOR_NEW_BASELINE_ADJUDICATION"
            && IsIdText(Strip(p.baseline.id)) && !Contains(Strip(p.baseline.id), "a30")
            && !Contains(Strip(p.baseline.id), "a31") && !Contains(Strip(p.baseline.id), "49+41")
            && 1 <= p.baseline.pageCount <= 128 && !p.baseline.claimed
            && IsDigestText(p.baseline.fingerprint) && IsDigestText(p.baseline.manifestSha)
  {
    hide Strip, Contains, IsIdText, IsDigestText, ValidId, IsSha256;
    TextsIff(Strip(p.baseline.id));
    TextsIff(p.baseline.fingerprint);
    TextsIff(p.baseline.manifestSha);
  }

  lemma VerdictParts(p: Payload)
    ensures GateResult(p).Ok? <==>
            && HeaderOk(p.header) && BaselineOk(CleanBaseline(p.baseline))
            && CheckedCandidates(p.candidates, p.baseline.pageCount, p.candidateSha).Ok?
            && CheckedCards(p.cards, p.baseline.pageCount, p.cardSha).Ok?
            && IsInverse(NormalCandidates(p.candidates), NormalCards(p.cards))
    ensures GateResult(p).Ok? ==>
              GateResult(p).value.content
              == Identity(p.baseline.(id := Strip(p.baseline.id)), p.candidateSha, p.cardSha, p.candidateSha.content,
                          p.cardSha.content)
  {
    hide HeaderOk, BaselineOk, CandidatesOk, CardsOk, NormalCandidates, NormalCards, IsInverse, Strip, RelationOk;
    if HeaderOk(p.header) && BaselineOk(CleanBaseline(p.baseline))
       && CheckedCandidates(p.candidates, p.baseline.pageCount, p.candidateSha).Ok?
       && CheckedCards(p.cards, p.baseline.pageCount, p.cardSha).Ok?
    {
      AcceptedIffInverse(p);
    }
  }

  /** The gate accepts exactly the good payloads, and the fingerprint covers the stripped baseline and the contents of
    * the two digests. */
  lemma AcceptedIffGood(p: Payload)
    ensures GateResult(p).Ok? <==> IsGoodPayload(p)
    ensures GateResult(p).Ok? ==>
              GateResult(p).value.content
              == Identity(p.baseline.(id := Strip(p.baseline.id)), p.candidateSha, p.cardSha, p.candidateSha.content,
                          p.cardSha.content)
  {
    hide HeaderOk, BaselineOk, CheckedCandidates, CheckedCards, CandidatesOk, CardsOk, IsTwoWay, CoversCards;
    hide CoversCandidates, IsGoodCandidate, IsGoodCard, Strip, Contains, IsIdText, IsDigestText;
    HeadIff(p);
    CandidateListIff(p.candidates, p.baseline.pageCount);
    CardListIff(p.cards, p.baseline.pageCount);
    CandidatesChecked(p);
    CardsChecked(p);
    VerdictParts(p);
    if forall i | 0 <= i < |p.candidates| :: IsGoodCandidate(p.candidates[i], p.baseline.pageCount) {
      forall c | c in p.candidates ensures IsGoodCandidate(c, p.baseline.pageCount) {
        var i := IndexOf(p.candidates, c);
      }
      TwoWayIff(p);
    }
  }
}
