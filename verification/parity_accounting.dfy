/** Nothing is lost between candidates, mappings, counters and blockers of a parity report. */
module ParityAccounting {
  import opened Foundations
  import opened Sorting
  import opened ParityModel

  lemma {:induction false} StatusesPartition(ms: seq<Mapping>)
    ensures CountStatus(ms, Matched) + CountStatus(ms, ReviewUnmatched) + CountStatus(ms, BlockedMatch) == |ms|
  {
    if ms != [] { StatusesPartition(ms[..|ms| - 1]); }
  }

  lemma {:induction false} OneBlockerPerBlockedMapping(ms: seq<Mapping>)
    ensures |MappingBlockers(ms)| == CountStatus(ms, BlockedMatch)
  {
    if ms != [] { OneBlockerPerBlockedMapping(ms[..|ms| - 1]); }
  }

  lemma {:induction false} OneBlockerPerUnexplainedCard(rs: seq<ReverseRow>)
    ensures |CardBlockers(rs)| == CountUnexplained(rs)
  {
    if rs != [] { OneBlockerPerUnexplainedCard(rs[..|rs| - 1]); }
  }

  lemma {:induction false} MappingBlockerMembers(ms: seq<Mapping>, b: Blocker)
    ensures b in MappingBlockers(ms) <==> exists i | 0 <= i < |ms| :: b in MappingBlocker(ms[i])
  {
    if ms != [] {
      var rest := ms[..|ms| - 1];
      MappingBlockerMembers(rest, b);
      if i :| 0 <= i < |ms| && b in MappingBlocker(ms[i]) { if i < |rest| { assert rest[i] == ms[i]; } }
      if i :| 0 <= i < |rest| && b in MappingBlocker(rest[i]) { assert rest[i] == ms[i]; }
    }
  }

  lemma {:induction false} CardBlockerMembers(rs: seq<ReverseRow>, b: Blocker)
    ensures b in CardBlockers(rs)
            <==> b.UnexplainedCard? && exists i | 0 <= i < |rs| :: rs[i].unexplained && rs[i].cardId == b.cardId
  {
    if rs != [] {
      var rest := rs[..|rs| - 1];
      CardBlockerMembers(rest, b);
      if b.UnexplainedCard? {
        if i :| 0 <= i < |rs| && rs[i].unexplained && rs[i].cardId == b.cardId {
          if i < |rest| { assert rest[i] == rs[i]; }
        }
        if i :| 0 <= i < |rest| && rest[i].unexplained && rest[i].cardId == b.cardId { assert rest[i] == rs[i]; }
      }
    }
  }

  ghost predicate Blocks(b: Blocker, m: Mapping) {
    m.status.BlockedMatch? && (b.Undecided? || b.ExplicitOutOfScope?) && b.offerKey == m.candidate.offerKey
  }

  /** Every candidate has exactly one mapping, in order; the three outcomes add up to the candidates. */
  lemma EveryCandidateMapped(rows: seq<Offer>, cards: seq<Card>, expected: Option<map<Status, nat>>)
    ensures var r := ParityReport(rows, cards, expected);
            && |r.mappings| == r.summary.candidateCount == |Filter(rows, IsTarget)|
            && multiset(Map(r.mappings, (m: Mapping) => m.candidate)) == multiset(Map(Filter(rows, IsTarget), View))
            && r.summary.matchedCount + r.summary.reviewUnmatchedCount
               + r.summary.blockedCount == r.summary.candidateCount
  {
    var r := ParityReport(rows, cards, expected);
    var cands := Candidates(rows);
    StatusesPartition(r.mappings);
    forall i | 0 <= i < |cands| ensures r.mappings[i].candidate == cands[i] {
      DecideKeepsCandidate(cands[i], SortedCards(cards));
    }
    assert Map(r.mappings, (m: Mapping) => m.candidate) == cands;
  }

  lemma DecideKeepsCandidate(c: Candidate, cards: seq<Card>)
    ensures Decide(c, cards).candidate == c
    ensures Decide(c, cards).status.BlockedMatch? && Decide(c, cards).via.ExplicitOfferId?
            ==> Decide(c, cards).cardId.Some?
  {
  }

  /** The blocker count is exactly blocked candidates, unexplained cards, and one more when the status counts
      differ from the expected ones; the run passes iff all three are absent. */
  lemma BlockersCounted(cands: seq<Candidate>, cards: seq<Card>, expected: Option<map<Status, nat>>)
    ensures var s := ReportOf(cands, cards, expected).summary;
            var drift := expected.Some? && TargetCounts(cands) != expected.value;
            && s.blockerCount == s.blockedCount + s.unexplainedCount + (if drift then 1 else 0)
            && (s.pass <==> s.blockedCount == 0 && s.unexplainedCount == 0 && !drift)
  {
    hide Decide, ReverseOf;
    var r := ReportOf(cands, cards, expected);
    OneBlockerPerBlockedMapping(r.mappings);
    OneBlockerPerUnexplainedCard(r.reverse);
    assert |r.blockers| == |CountBlocker(cands, expected)| + |MappingBlockers(r.mappings)| + |CardBlockers(r.reverse)|;
  }

  /** A blocker naming an offer exists iff that offer's mapping is blocked; an unexplained-card blocker exists
      iff the card is in scope or under review with neither a match nor a reason. */
  lemma BlockersSoundAndComplete(cands: seq<Candidate>, cards: seq<Card>, expected: Option<map<Status, nat>>,
                                 b: Blocker)
    ensures var r := ReportOf(cands, cards, expected);
            && ((b.Undecided? || b.ExplicitOutOfScope?) && b in r.blockers
                ==> exists m | m in r.mappings :: Blocks(b, m))
            && (forall m | m in r.mappings && m.status.BlockedMatch? :: exists x | x in r.blockers :: Blocks(x, m))
            && (b.UnexplainedCard? ==> (b in r.blockers <==>
                  exists k | k in cards && k.id == b.cardId :: Unexplained(k, MatchedKeys(r.mappings, k.id))))
  {
    hide Decide, Sort, ReverseOf, AllBlockers;
    var r := ReportOf(cands, cards, expected);
    ReportBlockers(cands, cards, expected, b);
    if b in r.blockers && (b.Undecided? || b.ExplicitOutOfScope?) {
      var i :| 0 <= i < |r.mappings| && b in MappingBlocker(r.mappings[i]);
      assert Blocks(b, r.mappings[i]);
    }
    forall m | m in r.mappings && m.status.BlockedMatch? ensures exists x | x in r.blockers :: Blocks(x, m) {
      var i := IndexOf(r.mappings, m);
      var x := MappingBlocker(m)[0];
      ReportBlockers(cands, cards, expected, x);
      assert x in MappingBlocker(r.mappings[i]);
      assert Blocks(x, m);
    }
    if b.UnexplainedCard? {
      forall k ensures ReverseOf(k, r.mappings).unexplained <==> Unexplained(k, MatchedKeys(r.mappings, k.id)) {
        ReverseUnexplained(k, r.mappings);
      }
      if i :| 0 <= i < |cards| && r.reverse[i].unexplained && r.reverse[i].cardId == b.cardId {
        assert cards[i] in cards;
      }
      if k :| k in cards && k.id == b.cardId && Unexplained(k, MatchedKeys(r.mappings, k.id)) {
        var i := IndexOf(cards, k);
        assert r.reverse[i] == ReverseOf(k, r.mappings);
      }
    }
  }

  lemma ReverseUnexplained(k: Card, ms: seq<Mapping>)
    ensures ReverseOf(k, ms).unexplained <==> Unexplained(k, MatchedKeys(ms, k.id))
    ensures ReverseOf(k, ms).cardId == k.id
  {
  }

  lemma ReportBlockers(cands: seq<Candidate>, cards: seq<Card>, expected: Option<map<Status, nat>>, b: Blocker)
    ensures var r := ReportOf(cands, cards, expected);
            b in r.blockers <==> (b in CountBlocker(cands, expected)
              || (exists i | 0 <= i < |r.mappings| :: b in MappingBlocker(r.mappings[i]))
              || (b.UnexplainedCard? && exists i | 0 <= i < |cards| ::
                r.reverse[i].unexplained && cards[i].id == b.cardId))
  {
    hide Decide, Sort, ReverseOf;
    var r := ReportOf(cands, cards, expected);
    SortMembers(CountBlocker(cands, expected) + MappingBlockers(r.mappings) + CardBlockers(r.reverse), BlockerLe);
    MappingBlockerMembers(r.mappings, b);
    CardBlockerMembers(r.reverse, b);
    forall i | 0 <= i < |cards| ensures r.reverse[i].cardId == cards[i].id { ReverseUnexplained(cards[i], r.mappings); }
  }
}
