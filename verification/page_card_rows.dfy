/** Candidate and card rows of the page/card gate, and the checks a row passes on its own. */
module PageCardRows {
  import opened Foundations
  import opened Sorting
  import opened Formats
  import opened Regions

  /** The page number in a card ID `pNNN:cNNN`. */
  function CardPage(s: string): Option<nat> {
    if |s| == 9 && s[0] == 'p' && s[4..6] == ":c" && Parse3(s[6..]).Some? then Parse3(s[1..4]) else None
  }

  // ----- candidate rows -----

  datatype Candidate = Candidate(id: string, payloadSha: string, page: int, cardId: string, route: string,
                                 reason: string)

  function CleanCandidate(c: Candidate): Candidate {
    c.(id := Strip(c.id), cardId := Strip(c.cardId), route := Strip(c.route), reason := Strip(c.reason))
  }

  predicate CandidateOk(c: Candidate, pageCount: int) {
    && ValidId(c.id)
    && 1 <= c.page <= pageCount
    && CardPage(c.cardId) == Some(c.page)
    && (c.route == "auto_candidate" || c.route == "review_required" || c.route == "excluded")
    && (c.route == "auto_candidate" <==> c.reason == "")
    && IsSha256(c.payloadSha)
  }

  function CandidateKey(c: Candidate): string {
    c.id
  }

  predicate CandidateLe(a: Candidate, b: Candidate) {
    StrLe(a.id, b.id)
  }

  // ----- card rows -----

  datatype Card<R> = Card(id: string, page: int, pageSha: string, region: R, scope: string, route: string,
                          candidateIds: seq<string>, reason: string)

  function CleanIds(ids: seq<string>): seq<string> {
    Sort(Map(Filter(ids, NonBlank), Strip), StrLe)
  }

  function CleanCard(c: Card<RawRegion>): Card<Region> {
    Card(Strip(c.id), c.page, c.pageSha, RoundRegion(c.region), Strip(c.scope), Strip(c.route),
         CleanIds(c.candidateIds), Strip(c.reason))
  }

  predicate PairOk(scope: string, route: string) {
    || (scope == "in_scope" && route == "candidate")
    || (scope == "review" && route == "review")
    || (scope == "excluded" && route == "excluded")
  }

  ghost predicate CardOk(c: Card<Region>, pageCount: int) {
    && CardPage(c.id) == Some(c.page)
    && 1 <= c.page <= pageCount
    && PairOk(c.scope, c.route)
    && NoDup(c.candidateIds)
    && (c.route == "candidate" ==> c.candidateIds != [] && c.reason == "")
    && (c.route != "candidate" ==> c.reason != "")
    && IsSha256(c.pageSha)
    && RegionOk(c.region)
  }

  function CardKey(c: Card<Region>): string {
    c.id
  }

  predicate CardLe(a: Card<Region>, b: Card<Region>) {
    StrLe(a.id, b.id)
  }

  lemma OrdersArePreorders()
    ensures IsPreorder(CandidateLe) && IsPreorder(CardLe) && IsPreorder(StrLe)
  {
    StrLeIsPreorder();
  }

  // ----- a normalized row is its own normal form -----

  lemma CleanCandidateIdempotent(c: Candidate)
    ensures CleanCandidate(CleanCandidate(c)) == CleanCandidate(c)
  {
    StripIdempotent(c.id);
    StripIdempotent(c.cardId);
    StripIdempotent(c.route);
    StripIdempotent(c.reason);
  }

  lemma CleanTexts(ids: seq<string>)
    requires forall s | s in ids :: s != "" && Strip(s) == s
    ensures Map(Filter(ids, NonBlank), Strip) == ids
  {
    hide Strip;
    FilterAll(ids, NonBlank);
    forall i | 0 <= i < |ids| ensures Strip(ids[i]) == ids[i] { assert ids[i] in ids; }
  }

  lemma CleanIdsAreClean(ids: seq<string>)
    ensures forall s | s in CleanIds(ids) :: s != "" && Strip(s) == s
  {
    hide Strip;
    var kept := Filter(ids, NonBlank);
    var texts := Map(kept, Strip);
    SortMembers(texts, StrLe);
    forall s | s in Sort(texts, StrLe) ensures s != "" && Strip(s) == s {
      var i := IndexOf(texts, s);
      assert kept[i] in kept;
      StripIdempotent(kept[i]);
    }
  }

  lemma CleanIdsIdempotent(ids: seq<string>)
    ensures CleanIds(CleanIds(ids)) == CleanIds(ids)
  {
    CleanIdsAreClean(ids);
    CleanTexts(CleanIds(ids));
    StrLeIsPreorder();
    SortSorted(Map(Filter(ids, NonBlank), Strip), StrLe);
    SortIdempotent(CleanIds(ids), StrLe);
  }

  /** The candidate IDs of a card may be listed in any order. */
  lemma CleanIdsPermuted(a: seq<string>, b: seq<string>)
    requires multiset(a) == multiset(b)
    ensures CleanIds(a) == CleanIds(b)
  {
    FilterPermuted(a, b, NonBlank);
    MapPermuted(Filter(a, NonBlank), Filter(b, NonBlank), Strip);
    StringsIdentified(Map(Filter(a, NonBlank), Strip));
    StrLeIsPreorder();
    SortDeterministic(Map(Filter(a, NonBlank), Strip), Map(Filter(b, NonBlank), Strip), StrLe);
  }

  lemma StringsIdentified(s: seq<string>)
    ensures KeysIdentify(s, StrLe)
  {
    forall x, y | x in s && y in s && StrLe(x, y) && StrLe(y, x) ensures x == y { StrLeAntisymmetric(x, y); }
  }

  /** A normalized card row as the next run of the gate would read it. */
  function AsRaw(c: Card<Region>): Card<RawRegion> {
    Card(c.id, c.page, c.pageSha, AsFractions(c.region), c.scope, c.route, c.candidateIds, c.reason)
  }

  lemma CleanCardIdempotent(c: Card<RawRegion>)
    ensures CleanCard(AsRaw(CleanCard(c))) == CleanCard(c)
  {
    hide Strip, CleanIds, Millionths;
    StripIdempotent(c.id);
    StripIdempotent(c.scope);
    StripIdempotent(c.route);
    StripIdempotent(c.reason);
    CleanIdsIdempotent(c.candidateIds);
    var r := RoundRegion(c.region);
    MillionthsExact(r.x);
    MillionthsExact(r.y);
    MillionthsExact(r.width);
    MillionthsExact(r.height);
  }
}
