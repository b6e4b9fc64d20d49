/** Gate C's own check of a finished parity bundle, and what it shares with the run that produced it. */
module GateC {
  import opened Foundations
  import opened Sorting
  import opened ParityModel
  import opened ParityRun
  import opened ParityPages
  import opened CardLedger

  /** Gate C card IDs have an ordinal of at least one; the ledger also lets c000 through. */
  predicate GateCardId(id: string) {
    ParseCardId(id).Some? && ParseCardId(id).value.ordinal >= 1
  }

  predicate MappingRowOk(m: Mapping) {
    && m.candidate.offerKey != ""
    && IsTargetStatus(m.candidate.status)
    && !m.status.BlockedMatch?
    && (m.status.Matched? ==> m.cardId.Some? && GateCardId(m.cardId.value))
    && (m.status.ReviewUnmatched?
        ==> m.candidate.status.ReviewRequired? && m.cardId.None? && m.candidate.reviewReasons != [])
  }

  function MappingCandidates(ms: seq<Mapping>): (r: seq<Candidate>)
    ensures |r| == |ms| && forall i | 0 <= i < |ms| :: r[i] == ms[i].candidate
  {
    seq(|ms|, i requires 0 <= i < |ms| => ms[i].candidate)
  }

  ghost predicate MappingsOk(ms: seq<Mapping>, expected: map<Status, nat>) {
    && (forall m | m in ms :: MappingRowOk(m))
    && DistinctOffers(ms)
    && TargetCounts(MappingCandidates(ms)) == expected
  }

  predicate SameKeys(a: seq<string>, b: seq<string>) {
    Sort(a, StrLe) == Sort(b, StrLe)
  }

  predicate ReverseRowOk(r: ReverseRow, ms: seq<Mapping>) {
    && GateCardId(r.cardId)
    && !HasDup(r.matchedKeys)
    && SameKeys(r.matchedKeys, MatchedKeys(ms, r.cardId))
    && !r.unexplained
    && (r.scope.OutOfScope? || r.matchedKeys != [] || r.unmatchedReason != "")
  }

  ghost predicate DistinctCards(rs: seq<ReverseRow>) {
    forall i, j | 0 <= i < j < |rs| :: rs[i].cardId != rs[j].cardId
  }

  ghost predicate ReverseOk(rs: seq<ReverseRow>, ms: seq<Mapping>) {
    (forall r | r in rs :: ReverseRowOk(r, ms)) && DistinctCards(rs)
  }

  predicate SummaryOk(b: Report, expected: map<Status, nat>) {
    var s := b.summary;
    && b.blockers == []
    && s.pass && s.targetCounts == expected
    && s.candidateCount == Total(expected) && s.blockedCount == 0 && s.unexplainedCount == 0 && s.blockerCount == 0
    && s.mappingSha == Sha(b.mappings) && s.reverseSha == Sha(b.reverse)
  }

  /** 346 automatic candidates and 54 for review make the 400 the bundle must hold. */
  function Total(expected: map<Status, nat>): nat {
    (if AutoCandidate in expected then expected[AutoCandidate] else 0)
      + (if ReviewRequired in expected then expected[ReviewRequired] else 0)
  }

  /** What the core validator accepts. */
  ghost predicate CoreAccepts(b: Report, expected: map<Status, nat>) {
    && SummaryOk(b, expected)
    && MappingsOk(b.mappings, expected) && |b.mappings| == Total(expected)
    && ReverseOk(b.reverse, b.mappings)
  }

  predicate CoversMappedCards(b: Report) {
    forall i | 0 <= i < |b.mappings| && b.mappings[i].status.Matched? && b.mappings[i].cardId.Some? ::
      exists j | 0 <= j < |b.reverse| :: b.reverse[j].cardId == b.mappings[i].cardId.value
  }

  predicate CountsOk(b: Report) {
    var s := b.summary;
    && s.cardCount == |b.reverse| && s.coveredCardCount == CountCovered(b.reverse)
    && s.matchedCount == CountStatus(b.mappings, Matched)
    && s.reviewUnmatchedCount == CountStatus(b.mappings, ReviewUnmatched)
  }

  /** What the wrapper accepts: the core checks, reverse coverage of every mapped card, and the counters. */
  ghost predicate WrapperAccepts(b: Report, expected: map<Status, nat>) {
    CoreAccepts(b, expected) && CoversMappedCards(b) && CountsOk(b)
  }

  // ----- the validators as they run -----

  method CheckMappings(ms: seq<Mapping>, expected: map<Status, nat>)
    returns (ok: bool, byCard: map<string, seq<string>>)
    ensures ok <==> MappingsOk(ms, expected)
    ensures ok ==> forall id :: MatchedKeys(ms, id) == Lookup(byCard, id)
  {
    hide MatchedKeys, MappingRowOk, TargetCounts;
    var seen: set<string> := {};
    byCard := map[];
    NoKeysYet();
    for i := 0 to |ms|
      invariant DistinctOffers(ms[..i]) && forall j | 0 <= j < i :: MappingRowOk(ms[j])
      invariant forall key :: key in seen <==> exists j | 0 <= j < i :: ms[j].candidate.offerKey == key
      invariant forall id :: MatchedKeys(ms[..i], id) == Lookup(byCard, id)
    {
      var m := ms[i];
      if !MappingRowOk(m) || m.candidate.offerKey in seen {
        assert m in ms;
        return false, byCard;
      }
      MatchedRowNamesCard(m);
      seen := seen + {m.candidate.offerKey};
      CollectKey(ms, i, byCard);
      if m.status.Matched? {
        byCard := byCard[m.cardId.value := Lookup(byCard, m.cardId.value) + [m.candidate.offerKey]];
      }
    }
    assert ms[..|ms|] == ms;
    ok := TargetCounts(MappingCandidates(ms)) == expected;
  }

  lemma NoKeysYet()
    ensures forall id :: MatchedKeys([], id) == []
  {
  }

  lemma MatchedRowNamesCard(m: Mapping)
    requires MappingRowOk(m)
    ensures m.status.Matched? ==> m.cardId.Some?
  {
  }

  lemma CollectKey(ms: seq<Mapping>, i: nat, byCard: map<string, seq<string>>)
    requires i < |ms| && MappingRowOk(ms[i])
    requires forall id :: MatchedKeys(ms[..i], id) == Lookup(byCard, id)
    ensures var m := ms[i];
            var byCard' := if m.status.Matched? && m.cardId.Some?
                           then byCard[m.cardId.value := Lookup(byCard, m.cardId.value) + [m.candidate.offerKey]]
                           else byCard;
            forall id :: MatchedKeys(ms[..i + 1], id) == Lookup(byCard', id)
  {
    assert ms[..i + 1][..i] == ms[..i];
  }

  method CheckReverse(rs: seq<ReverseRow>, ghost ms: seq<Mapping>, byCard: map<string, seq<string>>) returns (ok: bool)
    requires forall id :: MatchedKeys(ms, id) == Lookup(byCard, id)
    ensures ok <==> ReverseOk(rs, ms)
  {
    hide MatchedKeys, GateCardId, SameKeys, HasDup;
    var ids: set<string> := {};
    for i := 0 to |rs|
      invariant DistinctCards(rs[..i]) && forall j | 0 <= j < i :: ReverseRowOk(rs[j], ms)
      invariant forall id :: id in ids <==> exists j | 0 <= j < i :: rs[j].cardId == id
    {
      var r := rs[i];
      if !GateCardId(r.cardId) || r.cardId in ids || HasDup(r.matchedKeys)
         || !SameKeys(r.matchedKeys, Lookup(byCard, r.cardId)) || r.unexplained
         || !(r.scope.OutOfScope? || r.matchedKeys != [] || r.unmatchedReason != "") {
        assert r in rs;
        return false;
      }
      ids := ids + {r.cardId};
    }
    assert rs[..|rs|] == rs;
    ok := true;
  }

  method CheckReport(b: Report, expected: map<Status, nat>) returns (ok: bool)
    ensures ok <==> CoreAccepts(b, expected)
  {
    if !SummaryOk(b, expected) { return false; }
    var good, byCard := CheckMappings(b.mappings, expected);
    if !good || |b.mappings| != Total(expected) { return false; }
    ok := CheckReverse(b.reverse, b.mappings, byCard);
  }

  // ----- the bundle around the report -----

  /** The fixed values of a bundle and its summary: formats, bindings and the flags that must stay off. */
  datatype Envelope = Envelope(schema: int, mode: string, projectionSha: string, summarySchema: int, strategy: string,
                               shadowOnly: bool, eligible: bool, applyAuthorized: bool, databaseWrite: bool,
                               deployment: bool, collectorRun: bool, approvals: int, publications: int)

  predicate EnvelopeOk(e: Envelope, projectionSha: string) {
    && e.schema == 1 && e.mode == "ALDI_A31_COMPLETED_PARITY_BUNDLE_V01" && e.projectionSha == projectionSha
    && e.summarySchema == 1 && e.strategy == "aldi_a31_deterministic_bidirectional_parity_v1"
    && e.shadowOnly && !e.eligible && !e.applyAuthorized && !e.databaseWrite && !e.deployment && !e.collectorRun
    && e.approvals == 0 && e.publications == 0
  }

  datatype Bundle = Bundle(envelope: Envelope, report: Report)

  /** The core takes a bundle whose fixed values, report and file digest are right. */
  ghost predicate CoreTakes(b: Bundle, projectionSha: string, fileSha: Sha<Bundle>, expected: map<Status, nat>) {
    EnvelopeOk(b.envelope, projectionSha) && CoreAccepts(b.report, expected) && fileSha == Sha(b)
  }

  /** The fixed values one after the other. */
  method CheckEnvelope(e: Envelope, projectionSha: string) returns (ok: bool)
    ensures ok <==> EnvelopeOk(e, projectionSha)
  {
    if e.schema != 1 { return false; }
    if e.mode != "ALDI_A31_COMPLETED_PARITY_BUNDLE_V01" { return false; }
    if e.projectionSha != projectionSha { return false; }
    if e.summarySchema != 1 { return false; }
    if e.strategy != "aldi_a31_deterministic_bidirectional_parity_v1" { return false; }
    if !e.shadowOnly { return false; }
    if e.eligible || e.applyAuthorized || e.databaseWrite || e.deployment || e.collectorRun { return false; }
    if e.approvals != 0 { return false; }
    ok := e.publications == 0;
  }

  method ValidateCore(b: Bundle, projectionSha: string, fileSha: Sha<Bundle>, expected: map<Status, nat>)
    returns (ok: bool)
    ensures ok <==> CoreTakes(b, projectionSha, fileSha, expected)
  {
    hide CoreAccepts, EnvelopeOk;
    ok := CheckEnvelope(b.envelope, projectionSha);
    if !ok { return; }
    ok := CheckReport(b.report, expected);
    if ok { ok := fileSha == Sha(b); }
  }

  /** The wrapper runs the core and then its own checks. */
  method ValidateBundle(b: Bundle, projectionSha: string, fileSha: Sha<Bundle>, expected: map<Status, nat>)
    returns (ok: bool)
    ensures ok <==> EnvelopeOk(b.envelope, projectionSha) && WrapperAccepts(b.report, expected) && fileSha == Sha(b)
  {
    hide CoreAccepts, EnvelopeOk;
    ok := ValidateCore(b, projectionSha, fileSha, expected);
    if ok { ok := CoversMappedCards(b.report) && CountsOk(b.report); }
  }
}
