/** The page/card gate as it runs: row validation, then the two-way check between candidates and cards. */
module PageCardGate {
  import opened Foundations
  import opened Sorting
  import opened Formats
  import opened Regions
  import opened PageCardRows

  const MODE: string := "ALDI_NEW_BASELINE_PAGE_CARD_PARITY_V01"
  const ISSUE_NUMBER: int := 682
  const GATE_A_MODE: string := "ALDI_NEW_IMMUTABLE_BASELINE_GATE_A_V01"
  const GATE_A_DECISION: string := "READY_FOR_NEW_BASELINE_ADJUDICATION"

  datatype GateError =
    | BadHeader
    | BadBaseline
    | BadCandidates
    | CandidateDigestMismatch
    | BadCards
    | CardDigestMismatch
    | BadRelation

  datatype Header = Header(schemaVersion: int, mode: string, issueNumber: int)

  predicate HeaderOk(h: Header) {
    h == Header(1, MODE, ISSUE_NUMBER)
  }

  /** The binding to the frozen baseline; `claimed` is the claim that the historical corpus is complete. */
  datatype Baseline = Baseline(gateMode: string, gateDecision: string, id: string, fingerprint: string,
                               manifestSha: string, pageCount: int, claimed: bool)

  function CleanBaseline(b: Baseline): Baseline {
    b.(id := Strip(b.id))
  }

  predicate BaselineOk(b: Baseline) {
    && b.gateMode == GATE_A_MODE && b.gateDecision == GATE_A_DECISION
    && ValidId(b.id) && NotLegacy(b.id)
    && 1 <= b.pageCount <= 128
    && !b.claimed
    && IsSha256(b.fingerprint) && IsSha256(b.manifestSha)
  }

  // ----- candidate and card lists -----

  ghost predicate CandidatesOk(rows: seq<Candidate>, pageCount: int) {
    && |rows| <= 4096
    && (forall i | 0 <= i < |rows| :: CandidateOk(CleanCandidate(rows[i]), pageCount))
    && NoDup(Map(Map(rows, CleanCandidate), CandidateKey))
  }

  function NormalCandidates(rows: seq<Candidate>): seq<Candidate> {
    Sort(Map(rows, CleanCandidate), CandidateLe)
  }

  ghost function CheckedCandidates(rows: seq<Candidate>, pageCount: int,
                                   declared: Sha<seq<Candidate>>): Result<seq<Candidate>, GateError> {
    if !CandidatesOk(rows, pageCount) then Err(BadCandidates)
    else if declared != Sha(NormalCandidates(rows)) then Err(CandidateDigestMismatch)
    else Ok(NormalCandidates(rows))
  }

  ghost predicate CardsOk(rows: seq<Card<RawRegion>>, pageCount: int) {
    && 1 <= |rows| <= 8192
    && (forall i | 0 <= i < |rows| :: CardOk(CleanCard(rows[i]), pageCount))
    && NoDup(Map(Map(rows, CleanCard), CardKey))
  }

  function NormalCards(rows: seq<Card<RawRegion>>): seq<Card<Region>> {
    Sort(Map(rows, CleanCard), CardLe)
  }

  ghost function CheckedCards(rows: seq<Card<RawRegion>>, pageCount: int,
                              declared: Sha<seq<Card<Region>>>): Result<seq<Card<Region>>, GateError> {
    if !CardsOk(rows, pageCount) then Err(BadCards)
    else if declared != Sha(NormalCards(rows)) then Err(CardDigestMismatch)
    else Ok(NormalCards(rows))
  }

  method ValidateCandidates(rows: seq<Candidate>, pageCount: int, declared: Sha<seq<Candidate>>)
    returns (r: Result<seq<Candidate>, GateError>)
    ensures r == CheckedCandidates(rows, pageCount, declared)
  {
    hide CandidateOk, CleanCandidate, CandidateLe;
    if |rows| > 4096 { return Err(BadCandidates); }
    ghost var clean := Map(rows, CleanCandidate);
    ghost var keys := Map(clean, CandidateKey);
    var normalized: seq<Candidate> := [];
    var ids: set<string> := {};
    for i := 0 to |rows|
      invariant normalized == clean[..i]
      invariant forall j | 0 <= j < i :: CandidateOk(CleanCandidate(rows[j]), pageCount)
      invariant NoDup(keys[..i]) && forall s :: s in ids <==> s in keys[..i]
    {
      var row := CleanCandidate(rows[i]);
      assert keys[i] == row.id;
      if !CandidateOk(row, pageCount) { return Err(BadCandidates); }
      if row.id in ids {
        RepeatedKey(keys, i);
        return Err(BadCandidates);
      }
      ids := ids + {row.id};
      normalized := normalized + [row];
      NoDupAppend(keys[..i], row.id);
      assert keys[..i + 1] == keys[..i] + [row.id];
    }
    assert clean[..|rows|] == clean && keys[..|rows|] == keys;
    normalized := Sort(normalized, CandidateLe);
    if declared != Sha(normalized) { return Err(CandidateDigestMismatch); }
    r := Ok(normalized);
  }

  predicate CardTest(c: Card<Region>, pageCount: int)
    ensures CardTest(c, pageCount) <==> CardOk(c, pageCount)
  {
    hide IsSha256, RegionOk, CardPage;
    DistinctTest(c.candidateIds);
    && CardPage(c.id) == Some(c.page) && 1 <= c.page <= pageCount && PairOk(c.scope, c.route)
    && |(set s | s in c.candidateIds)| == |c.candidateIds|
    && (if c.route == "candidate" then c.candidateIds != [] && c.reason == "" else c.reason != "")
    && IsSha256(c.pageSha) && RegionOk(c.region)
  }

  method ValidateCards(rows: seq<Card<RawRegion>>, pageCount: int, declared: Sha<seq<Card<Region>>>)
    returns (r: Result<seq<Card<Region>>, GateError>)
    ensures r == CheckedCards(rows, pageCount, declared)
  {
    hide CardOk, CleanCard, CardLe, CardTest;
    if !(1 <= |rows| <= 8192) { return Err(BadCards); }
    ghost var clean := Map(rows, CleanCard);
    ghost var keys := Map(clean, CardKey);
    var normalized: seq<Card<Region>> := [];
    var ids: set<string> := {};
    for i := 0 to |rows|
      invariant normalized == clean[..i]
      invariant forall j | 0 <= j < i :: CardOk(CleanCard(rows[j]), pageCount)
      invariant NoDup(keys[..i]) && forall s :: s in ids <==> s in keys[..i]
    {
      var row := CleanCard(rows[i]);
      assert keys[i] == row.id;
      if !CardTest(row, pageCount) { return Err(BadCards); }
      if row.id in ids {
        RepeatedKey(keys, i);
        return Err(BadCards);
      }
      ids := ids + {row.id};
      normalized := normalized + [row];
      NoDupAppend(keys[..i], row.id);
      assert keys[..i + 1] == keys[..i] + [row.id];
    }
    assert clean[..|rows|] == clean && keys[..|rows|] == keys;
    normalized := Sort(normalized, CardLe);
    if declared != Sha(normalized) { return Err(CardDigestMismatch); }
    r := Ok(normalized);
  }

  // ----- the two-way relation -----

  /** The candidates bound to one card, in list order. */
  function References(cands: seq<Candidate>, id: string): seq<string> {
    if cands == [] then []
    else var n := |cands| - 1;
         References(cands[..n], id) + (if cands[n].cardId == id then [cands[n].id] else [])
  }

  function Lookup(m: map<string, seq<string>>, id: string): seq<string> {
    if id in m then m[id] else []
  }

  /** Scope and route a card must have for a candidate of the given route. */
  function CardRoute(route: string): string {
    if route == "auto_candidate" then "candidate" else if route == "review_required" then "review" else "excluded"
  }

  function CardScope(route: string): string {
    if route == "auto_candidate" then "in_scope" else if route == "review_required" then "review" else "excluded"
  }

  predicate Fits(c: Candidate, k: Card<Region>) {
    c.page == k.page && k.scope == CardScope(c.route) && k.route == CardRoute(c.route)
  }

  ghost predicate ForwardOk(c: Candidate, cards: seq<Card<Region>>) {
    exists k | k in cards :: k.id == c.cardId && Fits(c, k)
  }

  ghost predicate ReverseOk(k: Card<Region>, cands: seq<Candidate>) {
    && k.candidateIds == Sort(References(cands, k.id), StrLe)
    && (k.route == "candidate" ==> k.candidateIds != [])
    && (forall id | id in k.candidateIds :: id in Map(cands, CandidateKey))
  }

  ghost predicate RelationOk(cands: seq<Candidate>, cards: seq<Card<Region>>) {
    (forall c | c in cards :: ReverseOk(c, cands)) && (forall c | c in cands :: ForwardOk(c, cards))
  }

  lemma OneCardPerId(cards: seq<Card<Region>>, a: Card<Region>, b: Card<Region>)
    requires NoDup(Map(cards, CardKey)) && a in cards && b in cards && a.id == b.id
    ensures a == b
  {
    var i := IndexOf(cards, a);
    var j := IndexOf(cards, b);
    NoDupIndex(Map(cards, CardKey), i, j);
  }

  method IndexById(cards: seq<Card<Region>>) returns (byId: map<string, Card<Region>>)
    requires NoDup(Map(cards, CardKey))
    ensures forall id :: id in byId ==> byId[id] in cards && byId[id].id == id
    ensures forall k | k in cards :: k.id in byId && byId[k.id] == k
  {
    byId := map[];
    for i := 0 to |cards|
      invariant forall id :: id in byId ==> byId[id] in cards && byId[id].id == id
      invariant forall j | 0 <= j < i :: cards[j].id in byId && byId[cards[j].id] == cards[j]
    {
      forall j | 0 <= j < i ensures cards[j].id != cards[i].id {
        assert Map(cards, CardKey)[j] != Map(cards, CardKey)[i];
      }
      byId := byId[cards[i].id := cards[i]];
    }
  }

  lemma NoReferences()
    ensures forall id :: References([], id) == []
  {
  }

  lemma ReferencesGrow(cands: seq<Candidate>, i: nat, before: map<string, seq<string>>, after: map<string, seq<string>>)
    requires i < |cands| && forall id :: Lookup(before, id) == References(cands[..i], id)
    requires after == before[cands[i].cardId := Lookup(before, cands[i].cardId) + [cands[i].id]]
    ensures forall id :: Lookup(after, id) == References(cands[..i + 1], id)
  {
    assert cands[..i + 1][..i] == cands[..i];
  }

  /** The first loop: every candidate finds its card, which collects the reference. */
  method CollectReferences(cands: seq<Candidate>, cards: seq<Card<Region>>)
    returns (ok: bool, referenced: map<string, seq<string>>)
    requires NoDup(Map(cards, CardKey))
    ensures ok <==> forall c | c in cands :: ForwardOk(c, cards)
    ensures ok ==> forall id :: Lookup(referenced, id) == References(cands, id)
  {
    hide Fits, References;
    referenced := map[];
    NoReferences();
    var byId := IndexById(cards);
    for i := 0 to |cands|
      invariant forall j | 0 <= j < i :: ForwardOk(cands[j], cards)
      invariant forall id :: Lookup(referenced, id) == References(cands[..i], id)
    {
      var c := cands[i];
      if c.cardId !in byId || !Fits(c, byId[c.cardId]) {
        assert c in cands;
        return false, referenced;
      }
      var k := byId[c.cardId];
      var extended := referenced[k.id := Lookup(referenced, k.id) + [c.id]];
      ReferencesGrow(cands, i, referenced, extended);
      referenced := extended;
    }
    assert cands[..|cands|] == cands;
    ok := true;
  }

  /** The second loop: every card declares exactly what it collected. */
  method CheckDeclared(cands: seq<Candidate>, cards: seq<Card<Region>>, referenced: map<string, seq<string>>)
    returns (ok: bool)
    requires forall id :: Lookup(referenced, id) == References(cands, id)
    ensures ok <==> forall k | k in cards :: ReverseOk(k, cands)
  {
    hide References, StrLe;
    var candidateIds := Map(cands, CandidateKey);
    for i := 0 to |cards|
      invariant forall j | 0 <= j < i :: ReverseOk(cards[j], cands)
    {
      var k := cards[i];
      var observed := Sort(Lookup(referenced, k.id), StrLe);
      if k.candidateIds != observed
         || (k.route == "candidate" && observed == [])
         || !(forall id | id in k.candidateIds :: id in candidateIds) {
        assert k in cards && !ReverseOk(k, cands);
        return false;
      }
    }
    ok := true;
  }

  method ValidateBidirectional(cands: seq<Candidate>, cards: seq<Card<Region>>) returns (ok: bool)
    requires NoDup(Map(cards, CardKey))
    ensures ok <==> RelationOk(cands, cards)
  {
    hide ForwardOk, ReverseOk, References;
    var found, referenced := CollectReferences(cands, cards);
    if !found { return false; }
    ok := CheckDeclared(cands, cards, referenced);
  }

  // ----- the whole gate -----

  datatype Payload = Payload(header: Header, baseline: Baseline,
                             candidates: seq<Candidate>, candidateSha: Sha<seq<Candidate>>,
                             cards: seq<Card<RawRegion>>, cardSha: Sha<seq<Card<Region>>>)

  datatype Identity = Identity(baseline: Baseline, candidateSha: Sha<seq<Candidate>>, cardSha: Sha<seq<Card<Region>>>,
                               candidates: seq<Candidate>, cards: seq<Card<Region>>)

  function Fingerprint(b: Baseline, cands: seq<Candidate>, cards: seq<Card<Region>>): Sha<Identity> {
    Sha(Identity(b, Sha(cands), Sha(cards), cands, cards))
  }

  /** The gate's verdict; an accepted payload is reported by the fingerprint of its normalized content. */
  ghost function GateResult(p: Payload): Result<Sha<Identity>, GateError> {
    if !HeaderOk(p.header) then Err(BadHeader)
    else if !BaselineOk(CleanBaseline(p.baseline)) then Err(BadBaseline)
    else match CheckedCandidates(p.candidates, p.baseline.pageCount, p.candidateSha)
      case Err(e) => Err(e)
      case Ok(cands) =>
        match CheckedCards(p.cards, p.baseline.pageCount, p.cardSha)
        case Err(e) => Err(e)
        case Ok(cards) =>
          if RelationOk(cands, cards) then Ok(Fingerprint(CleanBaseline(p.baseline), cands, cards))
          else Err(BadRelation)
  }

  lemma NormalCardsDistinct(rows: seq<Card<RawRegion>>, pageCount: int)
    requires CardsOk(rows, pageCount)
    ensures NoDup(Map(NormalCards(rows), CardKey))
    ensures forall k | k in NormalCards(rows) :: CardOk(k, pageCount)
  {
    hide CleanCard, CardOk, CardLe;
    var clean := Map(rows, CleanCard);
    MapPermuted(clean, NormalCards(rows), CardKey);
    NoDupPermuted(Map(clean, CardKey), Map(NormalCards(rows), CardKey));
    SortMembers(clean, CardLe);
    forall k | k in NormalCards(rows) ensures CardOk(k, pageCount) { var i := IndexOf(clean, k); }
  }

  lemma NormalCandidatesDistinct(rows: seq<Candidate>, pageCount: int)
    requires CandidatesOk(rows, pageCount)
    ensures NoDup(Map(NormalCandidates(rows), CandidateKey))
    ensures forall c | c in NormalCandidates(rows) :: CandidateOk(c, pageCount)
  {
    hide CleanCandidate, CandidateOk, CandidateLe;
    var clean := Map(rows, CleanCandidate);
    MapPermuted(clean, NormalCandidates(rows), CandidateKey);
    NoDupPermuted(Map(clean, CandidateKey), Map(NormalCandidates(rows), CandidateKey));
    SortMembers(clean, CandidateLe);
    forall c | c in NormalCandidates(rows) ensures CandidateOk(c, pageCount) { var i := IndexOf(clean, c); }
  }

  method ValidateParity(p: Payload) returns (r: Result<Sha<Identity>, GateError>)
    ensures r == GateResult(p)
  {
    hide CandidatesOk, CardsOk, RelationOk, NormalCards, NormalCandidates;
    if !HeaderOk(p.header) { return Err(BadHeader); }
    var baseline := CleanBaseline(p.baseline);
    if !BaselineOk(baseline) { return Err(BadBaseline); }
    var c := ValidateCandidates(p.candidates, p.baseline.pageCount, p.candidateSha);
    if c.Err? { return Err(c.error); }
    var k := ValidateCards(p.cards, p.baseline.pageCount, p.cardSha);
    if k.Err? { return Err(k.error); }
    NormalCardsDistinct(p.cards, p.baseline.pageCount);
    var ok := ValidateBidirectional(c.value, k.value);
    r := if ok then Ok(Fingerprint(baseline, c.value, k.value)) else Err(BadRelation);
  }
}
