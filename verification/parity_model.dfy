/** Offer-to-card parity: rows, scoring and the report that a run must produce. */
module ParityModel {
  import opened Foundations
  import opened Sorting

  datatype Page = Current | Preview

  /** Both names have seven letters, so a key's first seven letters are its page. */
  function PageName(p: Page): (s: string)
    ensures |s| == 7
  {
    match p case Current => "current" case Preview => "preview"
  }

  datatype Status = AutoCandidate | ReviewRequired | OutOfTarget

  predicate IsTargetStatus(s: Status) {
    s.AutoCandidate? || s.ReviewRequired?
  }

  datatype Scope = InScope | InReview | OutOfScope

  /** A projection row whose text has been tokenised and whose price is in cents. */
  datatype Offer = Offer(page: Page, offerId: string, status: Status, titleTokens: seq<string>,
                         brandTokens: seq<string>, price: Option<int>, reviewReasons: seq<string>)

  datatype Candidate = Candidate(offerKey: string, page: Page, offerId: string, status: Status,
                                 titleTokens: seq<string>, brandTokens: seq<string>, price: Option<int>,
                                 reviewReasons: seq<string>)

  /** A validated ledger card; `tokens` are the tokens of its brand and title together. */
  datatype Card = Card(id: string, page: Page, pageNumber: nat, scope: Scope, tokens: seq<string>,
                       price: Option<int>, explicitIds: seq<string>, unmatchedReason: string)

  function OfferKey(p: Page, offerId: string): string {
    PageName(p) + ":" + offerId
  }

  lemma OfferKeyInjective(p: Page, x: string, q: Page, y: string)
    requires OfferKey(p, x) == OfferKey(q, y)
    ensures p == q && x == y
  {
    var a, b := OfferKey(p, x), OfferKey(q, y);
    assert PageName(p) == a[..7] == b[..7] == PageName(q);
    assert PageName(p)[0] == PageName(q)[0];
    assert x == a[8..] && y == b[8..];
  }

  predicate IsTarget(o: Offer) {
    IsTargetStatus(o.status)
  }

  predicate NonEmpty(s: string) {
    s != ""
  }

  /** A price field: absent, an amount in cents, or something that is not a number. */
  datatype RawPrice = NoPrice | Cents(amount: int) | NotANumber

  /** Prices that are given must be numbers above zero. */
  predicate PriceOk(p: RawPrice) {
    match p case NoPrice => true case Cents(n) => n > 0 case NotANumber => false
  }

  function PriceOf(p: RawPrice): Option<int> {
    match p case Cents(n) => Some(n) case _ => None
  }

  function PageNamed(name: string): Option<Page> {
    if name == "current" then Some(Current) else if name == "preview" then Some(Preview) else None
  }

  /** A projection row as it is read, with page and price unchecked. */
  datatype RawOffer = RawOffer(sourcePage: string, offerId: string, status: Status, titleTokens: seq<string>,
                               brandTokens: seq<string>, price: RawPrice, reviewReasons: seq<string>)

  /** The row once checked; rows that fail the checks end the run before this value is looked at. */
  function OfferOf(r: RawOffer): Offer {
    Offer(if PageNamed(r.sourcePage) == Some(Preview) then Preview else Current, r.offerId, r.status, r.titleTokens,
          r.brandTokens, PriceOf(r.price), r.reviewReasons)
  }

  function View(o: Offer): Candidate {
    Candidate(OfferKey(o.page, o.offerId), o.page, o.offerId, o.status, o.titleTokens, o.brandTokens, o.price,
              Sort(Filter(o.reviewReasons, NonEmpty), StrLe))
  }

  predicate CandidateLe(a: Candidate, b: Candidate) {
    StrLe(a.offerKey, b.offerKey)
  }

  predicate CardLe(a: Card, b: Card) {
    StrLe(a.id, b.id)
  }

  function Views(rows: seq<Offer>): seq<Candidate> {
    Map(Filter(rows, IsTarget), View)
  }

  function Candidates(rows: seq<Offer>): seq<Candidate> {
    Sort(Views(rows), CandidateLe)
  }

  // ----- scoring -----

  /** Scores and ratios in millionths. */
  datatype Detail = Detail(score: int, titleRecall: int, brandOverlap: int, priceMatch: bool)

  function TokenSet(s: seq<string>): set<string> {
    set t | t in s
  }

  predicate PriceMatch(c: Candidate, k: Card) {
    c.price.Some? && c.price == k.price
  }

  function TitleHits(c: Candidate, k: Card): (n: nat)
    ensures n <= |TokenSet(c.titleTokens)|
  {
    SubsetSize(TokenSet(c.titleTokens) * TokenSet(k.tokens), TokenSet(c.titleTokens));
    |TokenSet(c.titleTokens) * TokenSet(k.tokens)|
  }

  function BrandHits(c: Candidate, k: Card): (n: nat)
    ensures n <= |TokenSet(c.brandTokens)|
  {
    SubsetSize(TokenSet(c.brandTokens) * TokenSet(k.tokens), TokenSet(c.brandTokens));
    |TokenSet(c.brandTokens) * TokenSet(k.tokens)|
  }

  /** Title recall is at least 60% with equal prices, or at least 85% with some brand evidence if a brand is known. */
  predicate Eligible(c: Candidate, k: Card) {
    var n, hits := |TokenSet(c.titleTokens)|, TitleHits(c, k);
    (PriceMatch(c, k) && 5 * hits >= 3 * n)
    || (20 * hits >= 17 * n && (TokenSet(c.brandTokens) == {} || BrandHits(c, k) > 0))
  }

  /** The exact value of 100*recall + 20*priceMatch + 5*overlap is ScoreNum / ScoreDen. */
  function ScoreDen(c: Candidate): (d: nat) {
    var m := |TokenSet(c.brandTokens)|;
    |TokenSet(c.titleTokens)| * (if m == 0 then 1 else m)
  }

  function ScoreNum(c: Candidate, k: Card): (n: nat) {
    var m := |TokenSet(c.brandTokens)|;
    var title: nat := TitleHits(c, k) * if m == 0 then 1 else m;
    var brand: nat := BrandHits(c, k) * |TokenSet(c.titleTokens)|;
    100 * title + (if PriceMatch(c, k) then 20 * ScoreDen(c) else 0) + 5 * brand
  }

  function Score(c: Candidate, k: Card): Option<Detail> {
    if c.page != k.page || k.scope.OutOfScope? then None
    else if TokenSet(c.titleTokens) == {} || TokenSet(k.tokens) == {} then None
    else if !Eligible(c, k) then None
    else
      var n, m := |TokenSet(c.titleTokens)|, |TokenSet(c.brandTokens)|;
      ScoreDenPositive(c);
      Some(Detail(RoundHalfEven(1_000_000 * ScoreNum(c, k), ScoreDen(c)),
                  RoundHalfEven(1_000_000 * TitleHits(c, k), n),
                  if m == 0 then 0 else RoundHalfEven(1_000_000 * BrandHits(c, k), m),
                  PriceMatch(c, k)))
  }

  lemma ScoreDenPositive(c: Candidate)
    requires TokenSet(c.titleTokens) != {}
    ensures ScoreDen(c) > 0 && |TokenSet(c.titleTokens)| > 0
  {
    var m := |TokenSet(c.brandTokens)|;
    var n := |TokenSet(c.titleTokens)|;
    assert n > 0;
    assert n * (if m == 0 then 1 else m) > 0;
  }

  // ----- one mapping per candidate -----

  datatype Scored = Scored(detail: Detail, cardId: string)

  /** Highest score first, then card ID. */
  predicate ScoredLe(a: Scored, b: Scored) {
    a.detail.score > b.detail.score || (a.detail.score == b.detail.score && StrLe(a.cardId, b.cardId))
  }

  function ScoredCards(c: Candidate, cards: seq<Card>): seq<Scored> {
    if cards == [] then [] else
      ScoredCards(c, cards[..|cards| - 1]) + ScoredCard(c, cards[|cards| - 1])
  }

  function ScoredCard(c: Candidate, k: Card): seq<Scored> {
    match Score(c, k) case None => [] case Some(d) => [Scored(d, k.id)]
  }

  datatype MatchStatus = Matched | ReviewUnmatched | BlockedMatch

  datatype MatchMethod = ExplicitOfferId | TitleBrandPrice | AmbiguousMatch | NoMatch

  datatype Mapping = Mapping(candidate: Candidate, status: MatchStatus, via: MatchMethod, cardId: Option<string>,
                             score: Option<Detail>, candidateCardIds: seq<string>)

  const LEAD := 10_000_000

  function FirstIds(s: seq<Scored>): (ids: seq<string>) {
    var t := if |s| > 5 then s[..5] else s;
    seq(|t|, i requires 0 <= i < |t| => t[i].cardId)
  }

  predicate HasUniqueBest(ranked: seq<Scored>) {
    ranked != [] && (|ranked| == 1 || ranked[0].detail.score - ranked[1].detail.score >= LEAD)
  }

  /** The outcome for a candidate whose key no card claims explicitly. */
  function DecideRanked(c: Candidate, ranked: seq<Scored>): Mapping {
    if HasUniqueBest(ranked) then
      Mapping(c, Matched, TitleBrandPrice, Some(ranked[0].cardId), Some(ranked[0].detail), FirstIds(ranked))
    else
      Mapping(c, if c.status.ReviewRequired? && c.reviewReasons != [] then ReviewUnmatched else BlockedMatch,
              if ranked == [] then NoMatch else AmbiguousMatch, None,
              if ranked == [] then None else Some(ranked[0].detail), FirstIds(ranked))
  }

  /** An explicit claim: blocked only when the claiming card is out of scope. */
  function DecideExplicit(c: Candidate, k: Card): Mapping {
    Mapping(c, if k.scope.OutOfScope? then BlockedMatch else Matched, ExplicitOfferId, Some(k.id), None, [k.id])
  }

  /** The ID of the card claiming the key; the later card in the list wins, as a dict assignment does. */
  function ClaimedId(key: string, cards: seq<Card>): Option<string> {
    if cards == [] then None else
      var k := cards[|cards| - 1];
      if Claims(k, key) then Some(k.id) else ClaimedId(key, cards[..|cards| - 1])
  }

  predicate Claims(k: Card, key: string) {
    exists i | 0 <= i < |k.explicitIds| :: OfferKey(k.page, k.explicitIds[i]) == key
  }

  /** The card with the ID, again the later one in the list. */
  function CardById(id: string, cards: seq<Card>): Option<Card> {
    if cards == [] then None else
      var k := cards[|cards| - 1];
      if k.id == id then Some(k) else CardById(id, cards[..|cards| - 1])
  }

  function ClaimedBy(key: string, cards: seq<Card>): Option<Card> {
    match ClaimedId(key, cards) case None => None case Some(id) => CardById(id, cards)
  }

  function Decide(c: Candidate, cards: seq<Card>): Mapping {
    match ClaimedBy(c.offerKey, cards)
    case Some(k) => DecideExplicit(c, k)
    case None => DecideRanked(c, Sort(ScoredCards(c, cards), ScoredLe))
  }

  function Mappings(cands: seq<Candidate>, cards: seq<Card>): (r: seq<Mapping>)
    ensures |r| == |cands| && forall i | 0 <= i < |r| :: r[i] == Decide(cands[i], cards)
  {
    seq(|cands|, i requires 0 <= i < |cands| => Decide(cands[i], cards))
  }

  // ----- reverse coverage and blockers -----

  predicate MatchedTo(m: Mapping, cardId: string) {
    m.status.Matched? && m.cardId == Some(cardId)
  }

  function MatchedKeys(ms: seq<Mapping>, cardId: string): seq<string> {
    if ms == [] then [] else
      var m := ms[|ms| - 1];
      MatchedKeys(ms[..|ms| - 1], cardId) + if MatchedTo(m, cardId) then [m.candidate.offerKey] else []
  }

  datatype ReverseRow = ReverseRow(cardId: string, page: Page, pageNumber: nat, scope: Scope,
                                   matchedKeys: seq<string>, unmatchedReason: string, unexplained: bool)

  predicate Unexplained(k: Card, matched: seq<string>) {
    !k.scope.OutOfScope? && matched == [] && k.unmatchedReason == ""
  }

  function ReverseOf(k: Card, ms: seq<Mapping>): ReverseRow {
    var matched := Sort(MatchedKeys(ms, k.id), StrLe);
    ReverseRow(k.id, k.page, k.pageNumber, k.scope, matched, k.unmatchedReason, Unexplained(k, matched))
  }

  function ReverseRows(cards: seq<Card>, ms: seq<Mapping>): (r: seq<ReverseRow>)
    ensures |r| == |cards| && forall i | 0 <= i < |r| :: r[i] == ReverseOf(cards[i], ms)
  {
    seq(|cards|, i requires 0 <= i < |cards| => ReverseOf(cards[i], ms))
  }

  datatype Blocker =
    | TargetCountMismatch(expected: map<Status, nat>, actual: map<Status, nat>)
    | ExplicitOutOfScope(offerKey: string, cardId: string)
    | Undecided(kind: MatchMethod, offerKey: string, status: Status, candidateCardIds: seq<string>)
    | UnexplainedCard(cardId: string)

  /** The sort key (type, offer_key, card_id), an absent field counting as the empty string. */
  function BlockerKey(b: Blocker): (string, string, string) {
    match b
    case TargetCountMismatch(_, _) => ("target_count_mismatch", "", "")
    case ExplicitOutOfScope(o, k) => ("explicit_match_to_out_of_scope_card", o, k)
    case Undecided(kind, o, _, _) => (if kind.NoMatch? then "no_match" else "ambiguous_match", o, "")
    case UnexplainedCard(k) => ("unexplained_in_scope_card", "", k)
  }

  predicate BlockerLe(a: Blocker, b: Blocker) {
    var x, y := BlockerKey(a), BlockerKey(b);
    if x.0 != y.0 then StrLe(x.0, y.0) else if x.1 != y.1 then StrLe(x.1, y.1) else StrLe(x.2, y.2)
  }

  function MappingBlocker(m: Mapping): (b: seq<Blocker>)
    ensures |b| == if m.status.BlockedMatch? then 1 else 0
  {
    if !m.status.BlockedMatch? then []
    else if m.via.ExplicitOfferId? && m.cardId.Some? then [ExplicitOutOfScope(m.candidate.offerKey, m.cardId.value)]
    else [Undecided(m.via, m.candidate.offerKey, m.candidate.status, m.candidateCardIds)]
  }

  function MappingBlockers(ms: seq<Mapping>): seq<Blocker> {
    if ms == [] then [] else MappingBlockers(ms[..|ms| - 1]) + MappingBlocker(ms[|ms| - 1])
  }

  function CardBlocker(r: ReverseRow): seq<Blocker> {
    if r.unexplained then [UnexplainedCard(r.cardId)] else []
  }

  function CardBlockers(rs: seq<ReverseRow>): seq<Blocker> {
    if rs == [] then [] else CardBlockers(rs[..|rs| - 1]) + CardBlocker(rs[|rs| - 1])
  }

  /** Python's Counter over statuses: a status that does not occur has no entry. */
  function TargetCounts(cands: seq<Candidate>): map<Status, nat> {
    if cands == [] then map[] else
      var before := TargetCounts(cands[..|cands| - 1]);
      var s := cands[|cands| - 1].status;
      before[s := (if s in before then before[s] else 0) + 1]
  }

  function CountBlocker(cands: seq<Candidate>, expected: Option<map<Status, nat>>): seq<Blocker> {
    if expected.Some? && TargetCounts(cands) != expected.value
    then [TargetCountMismatch(expected.value, TargetCounts(cands))] else []
  }

  function CountStatus(ms: seq<Mapping>, s: MatchStatus): nat {
    if ms == [] then 0 else CountStatus(ms[..|ms| - 1], s) + if ms[|ms| - 1].status == s then 1 else 0
  }

  function CountUnexplained(rs: seq<ReverseRow>): nat {
    if rs == [] then 0 else CountUnexplained(rs[..|rs| - 1]) + if rs[|rs| - 1].unexplained then 1 else 0
  }

  function CountCovered(rs: seq<ReverseRow>): nat {
    if rs == [] then 0 else CountCovered(rs[..|rs| - 1]) + if rs[|rs| - 1].scope.OutOfScope? then 0 else 1
  }

  datatype Summary = Summary(targetCounts: map<Status, nat>, candidateCount: nat, matchedCount: nat,
                             reviewUnmatchedCount: nat, blockedCount: nat, cardCount: nat, coveredCardCount: nat,
                             unexplainedCount: nat, blockerCount: nat, mappingSha: Sha<seq<Mapping>>,
                             reverseSha: Sha<seq<ReverseRow>>, pass: bool)

  datatype Report = Report(summary: Summary, mappings: seq<Mapping>, reverse: seq<ReverseRow>, blockers: seq<Blocker>)

  function Summarise(cands: seq<Candidate>, ms: seq<Mapping>, rs: seq<ReverseRow>, bs: seq<Blocker>): Summary {
    Summary(TargetCounts(cands), |cands|, CountStatus(ms, Matched), CountStatus(ms, ReviewUnmatched),
            CountStatus(ms, BlockedMatch), |rs|, CountCovered(rs), CountUnexplained(rs), |bs|, Sha(ms), Sha(rs),
            bs == [])
  }

  function AllBlockers(cands: seq<Candidate>, ms: seq<Mapping>, rs: seq<ReverseRow>,
                       expected: Option<map<Status, nat>>): seq<Blocker> {
    Sort(CountBlocker(cands, expected) + MappingBlockers(ms) + CardBlockers(rs), BlockerLe)
  }

  /** The report of a run over already sorted candidates and cards. */
  function ReportOf(cands: seq<Candidate>, cards: seq<Card>, expected: Option<map<Status, nat>>): Report {
    var ms := Mappings(cands, cards);
    var rs := ReverseRows(cards, ms);
    var bs := AllBlockers(cands, ms, rs, expected);
    Report(Summarise(cands, ms, rs, bs), ms, rs, bs)
  }

  function SortedCards(cards: seq<Card>): seq<Card> {
    Sort(cards, CardLe)
  }

  function ParityReport(rows: seq<Offer>, cards: seq<Card>, expected: Option<map<Status, nat>>): Report {
    ReportOf(Candidates(rows), SortedCards(cards), expected)
  }

  // ----- what the callers of a run guarantee -----

  /** Offer keys are unique among the projection rows. */
  ghost predicate UniqueOffers(rows: seq<Offer>) {
    forall i, j | 0 <= i < j < |rows| ::
      OfferKey(rows[i].page, rows[i].offerId) != OfferKey(rows[j].page, rows[j].offerId)
  }

  ghost predicate UniqueCards(cards: seq<Card>) {
    forall i, j | 0 <= i < j < |cards| :: cards[i].id != cards[j].id
  }
}
