/** The parity run as the tool performs it: dictionaries and lists filled in loops, then sorted. */
module ParityRun {
  import opened Foundations
  import opened Sorting
  import opened ParityModel

  datatype ParityError = InvalidPrice | InvalidOfferIdentity

  lemma OrdersArePreorders()
    ensures IsPreorder(StrLe) && IsPreorder(CandidateLe) && IsPreorder(CardLe)
  {
    StrLeIsPreorder();
  }

  predicate MappingLe(a: Mapping, b: Mapping) {
    StrLe(a.candidate.offerKey, b.candidate.offerKey)
  }

  predicate ReverseLe(a: ReverseRow, b: ReverseRow) {
    StrLe(a.cardId, b.cardId)
  }

  /** Why a row ends the run, if it does: only target rows are looked at, and the price before the identity. */
  function RowError(r: RawOffer): Option<ParityError> {
    if !IsTargetStatus(r.status) then None
    else if !PriceOk(r.price) then Some(InvalidPrice)
    else if PageNamed(r.sourcePage).None? || r.offerId == "" then Some(InvalidOfferIdentity)
    else None
  }

  /** The first row in error, if any. */
  ghost predicate FailsWith(rows: seq<RawOffer>, e: ParityError) {
    exists i | 0 <= i < |rows| :: RowError(rows[i]) == Some(e) && forall j | 0 <= j < i :: RowError(rows[j]).None?
  }

  lemma NoViews()
    ensures Views([]) == []
  {
  }

  lemma ViewsStep(rows: seq<Offer>, i: nat)
    requires i < |rows|
    ensures Views(rows[..i + 1]) == Views(rows[..i]) + if IsTarget(rows[i]) then [View(rows[i])] else []
  {
    assert rows[..i + 1] == rows[..i] + [rows[i]];
    FilterConcat(rows[..i], [rows[i]], IsTarget);
  }

  /** Views of the target rows in input order; the first target row with a bad price or identity aborts the run. */
  method CollectCandidates(rows: seq<RawOffer>) returns (r: Result<seq<Candidate>, ParityError>)
    ensures r.Ok? <==> forall i | 0 <= i < |rows| :: RowError(rows[i]).None?
    ensures r.Err? ==> FailsWith(rows, r.error)
    ensures r.Ok? ==> r.value == Views(Map(rows, OfferOf))
  {
    hide Views, View, OfferOf, PriceOk, PageNamed;
    var out: seq<Candidate> := [];
    ghost var offers := Map(rows, OfferOf);
    NoViews();
    for i := 0 to |rows|
      invariant out == Views(offers[..i])
      invariant forall j | 0 <= j < i :: RowError(rows[j]).None?
    {
      ViewsStep(offers, i);
      SameStatus(rows[i]);
      if IsTargetStatus(rows[i].status) {
        if !PriceOk(rows[i].price) {
          assert RowError(rows[i]) == Some(InvalidPrice);
          return Err(InvalidPrice);
        }
        if PageNamed(rows[i].sourcePage).None? || rows[i].offerId == "" {
          assert RowError(rows[i]) == Some(InvalidOfferIdentity);
          return Err(InvalidOfferIdentity);
        }
        out := out + [View(OfferOf(rows[i]))];
      }
    }
    assert offers[..|rows|] == offers;
    return Ok(out);
  }

  lemma SameStatus(r: RawOffer)
    ensures IsTarget(OfferOf(r)) <==> IsTargetStatus(r.status)
  {
  }

  /** The `explicit` dictionary: offer key to the ID of the last card claiming it. */
  method IndexExplicit(cards: seq<Card>) returns (explicit: map<string, string>)
    ensures forall key :: ClaimedId(key, cards) == if key in explicit then Some(explicit[key]) else None
  {
    explicit := map[];
    for i := 0 to |cards|
      invariant forall key :: ClaimedId(key, cards[..i]) == if key in explicit then Some(explicit[key]) else None
    {
      var k := cards[i];
      ghost var before := explicit;
      for j := 0 to |k.explicitIds|
        invariant forall key :: (if key in explicit then Some(explicit[key]) else None) == (
                    if exists n | 0 <= n < j :: OfferKey(k.page, k.explicitIds[n]) == key then Some(k.id)
                    else if key in before then Some(before[key]) else None)
      {
        explicit := explicit[OfferKey(k.page, k.explicitIds[j]) := k.id];
      }
      assert cards[..i + 1][..i] == cards[..i];
    }
    assert cards[..|cards|] == cards;
  }

  /** The `card_by_id` dictionary. */
  method IndexCards(cards: seq<Card>) returns (byId: map<string, Card>)
    ensures forall id :: CardById(id, cards) == if id in byId then Some(byId[id]) else None
  {
    byId := map[];
    for i := 0 to |cards|
      invariant forall id :: CardById(id, cards[..i]) == if id in byId then Some(byId[id]) else None
    {
      byId := byId[cards[i].id := cards[i]];
      assert cards[..i + 1][..i] == cards[..i];
    }
    assert cards[..|cards|] == cards;
  }

  method ScoreAgainst(c: Candidate, cards: seq<Card>) returns (scored: seq<Scored>)
    ensures scored == ScoredCards(c, cards)
  {
    scored := [];
    for i := 0 to |cards|
      invariant scored == ScoredCards(c, cards[..i])
    {
      var detail := Score(c, cards[i]);
      if detail.Some? {
        scored := scored + [Scored(detail.value, cards[i].id)];
      }
      assert cards[..i + 1][..i] == cards[..i];
    }
    assert cards[..|cards|] == cards;
  }

  /** A claim always resolves to a card. */
  lemma {:induction false} ClaimResolves(key: string, id: string, cards: seq<Card>, all: seq<Card>)
    requires ClaimedId(key, cards) == Some(id) && cards <= all
    ensures CardById(id, all).Some?
  {
    var k := cards[|cards| - 1];
    if !Claims(k, key) {
      ClaimResolves(key, id, cards[..|cards| - 1], all);
    } else {
      CardPresent(id, all, |cards| - 1);
    }
  }

  lemma {:induction false} CardPresent(id: string, cards: seq<Card>, i: nat)
    requires i < |cards| && cards[i].id == id
    ensures CardById(id, cards).Some?
  {
    if cards[|cards| - 1].id != id { CardPresent(id, cards[..|cards| - 1], i); }
  }

  /** What the loop over candidates knows of its three accumulators after the first i candidates. */
  ghost predicate Progress(ms: seq<Mapping>, byCard: map<string, seq<string>>, bs: seq<Blocker>, first: seq<Blocker>) {
    && bs == first + MappingBlockers(ms)
    && forall id :: MatchedKeys(ms, id) == if id in byCard then byCard[id] else []
  }

  lemma ProgressStart(first: seq<Blocker>)
    ensures Progress([], map[], first, first)
  {
    assert first + MappingBlockers([]) == first;
  }

  lemma ProgressStep(ms: seq<Mapping>, byCard: map<string, seq<string>>, bs: seq<Blocker>, first: seq<Blocker>,
                     m: Mapping, byCard': map<string, seq<string>>)
    requires Progress(ms, byCard, bs, first)
    requires byCard' == if m.status.Matched? && m.cardId.Some?
                        then byCard[m.cardId.value := Lookup(byCard, m.cardId.value) + [m.candidate.offerKey]]
                        else byCard
    ensures Progress(ms + [m], byCard', bs + MappingBlocker(m), first)
  {
    assert (ms + [m])[..|ms|] == ms;
    assert bs + MappingBlocker(m) == first + (MappingBlockers(ms) + MappingBlocker(m));
  }

  function Lookup(byCard: map<string, seq<string>>, id: string): seq<string> {
    if id in byCard then byCard[id] else []
  }

  /** One candidate: an explicit claim decides it, otherwise its scored cards do. */
  method DecideOne(c: Candidate, cards: seq<Card>, byId: map<string, Card>, explicit: map<string, string>)
    returns (m: Mapping)
    requires forall id :: CardById(id, cards) == if id in byId then Some(byId[id]) else None
    requires forall key :: ClaimedId(key, cards) == if key in explicit then Some(explicit[key]) else None
    ensures m == Decide(c, cards) && m.candidate == c
    ensures m.status.Matched? ==> m.cardId.Some?
  {
    if c.offerKey in explicit {
      ClaimResolves(c.offerKey, explicit[c.offerKey], cards, cards);
      m := DecideExplicit(c, byId[explicit[c.offerKey]]);
    } else {
      var scored := ScoreAgainst(c, cards);
      m := DecideRanked(c, Sort(scored, ScoredLe));
    }
  }

  method Record(ghost ms: seq<Mapping>, byCard: map<string, seq<string>>, bs: seq<Blocker>, ghost first: seq<Blocker>,
                m: Mapping)
    returns (byCard': map<string, seq<string>>, bs': seq<Blocker>)
    requires Progress(ms, byCard, bs, first)
    requires m.status.Matched? ==> m.cardId.Some?
    ensures Progress(ms + [m], byCard', bs', first)
  {
    byCard' := byCard;
    if m.status.Matched? {
      byCard' := byCard[m.cardId.value := Lookup(byCard, m.cardId.value) + [m.candidate.offerKey]];
    }
    bs' := bs + MappingBlocker(m);
    ProgressStep(ms, byCard, bs, first, m, byCard');
  }

  method MapCandidates(cands: seq<Candidate>, cards: seq<Card>, first: seq<Blocker>)
    returns (ms: seq<Mapping>, byCard: map<string, seq<string>>, bs: seq<Blocker>)
    ensures ms == Mappings(cands, cards)
    ensures Progress(ms, byCard, bs, first)
  {
    hide Decide, MatchedKeys, MappingBlockers;
    var byId := IndexCards(cards);
    var explicit := IndexExplicit(cards);
    ms, byCard, bs := [], map[], first;
    ProgressStart(first);
    ghost var all := Mappings(cands, cards);
    for i := 0 to |cands|
      invariant ms == all[..i]
      invariant Progress(ms, byCard, bs, first)
    {
      var m := DecideOne(cands[i], cards, byId, explicit);
      byCard, bs := Record(ms, byCard, bs, first, m);
      ms := ms + [m];
    }
  }

  lemma MatchedHasCard(c: Candidate, cards: seq<Card>)
    ensures Decide(c, cards).candidate == c
    ensures Decide(c, cards).status.Matched? ==> Decide(c, cards).cardId.Some?
  {
  }

  method CoverOne(k: Card, ghost ms: seq<Mapping>, byCard: map<string, seq<string>>) returns (row: ReverseRow)
    requires forall id :: MatchedKeys(ms, id) == if id in byCard then byCard[id] else []
    ensures row == ReverseOf(k, ms)
  {
    var matched := Sort(Lookup(byCard, k.id), StrLe);
    row := ReverseRow(k.id, k.page, k.pageNumber, k.scope, matched, k.unmatchedReason, Unexplained(k, matched));
  }

  lemma CoverStep(rs: seq<ReverseRow>, row: ReverseRow, first: seq<Blocker>)
    ensures first + CardBlockers(rs + [row]) == first + CardBlockers(rs) + CardBlocker(row)
  {
    assert (rs + [row])[..|rs|] == rs;
  }

  method CoverCards(cards: seq<Card>, ms: seq<Mapping>, byCard: map<string, seq<string>>, first: seq<Blocker>)
    returns (rs: seq<ReverseRow>, bs: seq<Blocker>)
    requires forall id :: MatchedKeys(ms, id) == if id in byCard then byCard[id] else []
    ensures rs == ReverseRows(cards, ms)
    ensures bs == first + CardBlockers(rs)
  {
    rs, bs := [], first;
    ghost var all := ReverseRows(cards, ms);
    for i := 0 to |cards|
      invariant rs == all[..i]
      invariant bs == first + CardBlockers(rs)
    {
      var row := CoverOne(cards[i], ms, byCard);
      CoverStep(rs, row, first);
      bs := bs + CardBlocker(row);
      rs := rs + [row];
    }
  }

  method RunParity(rows: seq<RawOffer>, inputCards: seq<Card>, expected: Option<map<Status, nat>>)
    returns (r: Result<Report, ParityError>)
    ensures r.Ok? <==> forall i | 0 <= i < |rows| :: RowError(rows[i]).None?
    ensures r.Err? ==> FailsWith(rows, r.error)
    ensures r.Ok? ==> r.value == ParityReport(Map(rows, OfferOf), inputCards, expected)
  {
    hide RowError, FailsWith, OfferOf, Views;
    var collected := CollectCandidates(rows);
    if collected.Err? { return Err(collected.error); }
    var cands := Sort(collected.value, CandidateLe);
    var cards := Sort(inputCards, CardLe);
    var ms, byCard, bs := MapCandidates(cands, cards, CountBlocker(cands, expected));
    var rs;
    rs, bs := CoverCards(cards, ms, byCard, bs);
    MappingsSorted(collected.value, cards);
    ReverseSorted(inputCards, ms);
    ms := Sort(ms, MappingLe);
    rs := Sort(rs, ReverseLe);
    bs := Sort(bs, BlockerLe);
    return Ok(Report(Summarise(cands, ms, rs, bs), ms, rs, bs));
  }

  /** Mapping rows already come out in key order, so sorting them changes nothing. */
  lemma MappingsSorted(views: seq<Candidate>, cards: seq<Card>)
    ensures Sort(Mappings(Sort(views, CandidateLe), cards), MappingLe) == Mappings(Sort(views, CandidateLe), cards)
  {
    var cands := Sort(views, CandidateLe);
    var ms := Mappings(cands, cards);
    OrdersArePreorders();
    SortSorted(views, CandidateLe);
    forall i, j | 0 <= i < j < |ms| ensures MappingLe(ms[i], ms[j]) {
      MatchedHasCard(cands[i], cards);
      MatchedHasCard(cands[j], cards);
      assert CandidateLe(cands[i], cands[j]);
    }
    SortIdempotent(ms, MappingLe);
  }

  lemma ReverseSorted(inputCards: seq<Card>, ms: seq<Mapping>)
    ensures var rs := ReverseRows(Sort(inputCards, CardLe), ms); Sort(rs, ReverseLe) == rs
  {
    var cards := Sort(inputCards, CardLe);
    var rs := ReverseRows(cards, ms);
    OrdersArePreorders();
    SortSorted(inputCards, CardLe);
    forall i, j | 0 <= i < j < |rs| ensures ReverseLe(rs[i], rs[j]) {
      assert CardLe(cards[i], cards[j]);
    }
    SortIdempotent(rs, ReverseLe);
  }
}
