/** The replay gate and the two-cycle gate as instances of the prior-result protocol. */
module ReplayGate {
  import opened Foundations
  import opened Formats
  import opened GateResults

  // ----- the two replay observations -----

  /** The accepted parity result a replay is bound to; digests are opaque texts. */
  datatype GateB = GateB(baselineId: string, baselineFingerprint: string, parityFingerprint: string,
                         projectionSha: string, ledgerSha: string, candidateCount: nat, cardCount: nat)

  /** The digest every replay must name as its input. */
  datatype ReplayInput = ReplayInput(baselineId: string, baselineFingerprint: string, parityFingerprint: string,
                                     projectionSha: string, ledgerSha: string)

  function ExpectedInput(b: GateB): Sha<ReplayInput> {
    Sha(ReplayInput(b.baselineId, b.baselineFingerprint, b.parityFingerprint, b.projectionSha, b.ledgerSha))
  }

  datatype Replay = Replay(id: string, executionClass: string, input: Sha<ReplayInput>, semanticSha: string,
                           projectionSha: string, ledgerSha: string, candidateCount: int, cardCount: int,
                           unexplained: int, duplicates: int,
                           stateWrites: int, candidateWrites: int, reviewWrites: int, databaseWrites: int)

  /** The one replay row that is acceptable under a given ID with a given output. */
  function ExpectedReplay(b: GateB, id: string, semanticSha: string): Replay {
    Replay(id, "offline_shadow_replay", ExpectedInput(b), semanticSha, b.projectionSha, b.ledgerSha,
           b.candidateCount, b.cardCount, 0, 0, 0, 0, 0, 0)
  }

  function ReplayId(index: nat): string
    requires index < 100
  {
    "replay-" + [Digit(index / 10), Digit(index % 10)]
  }

  predicate IsReplayId(s: string) {
    |s| == 9 && s[..7] == "replay-" && IsDigit(s[7]) && IsDigit(s[8])
  }

  /** The checks of one row, in the source's order. */
  predicate RowAccepted(b: GateB, index: nat, r: Replay)
    requires index < 100
  {
    && IsReplayId(r.id) && r.id == ReplayId(index)
    && r.executionClass == "offline_shadow_replay"
    && r.input == ExpectedInput(b)
    && r.projectionSha == b.projectionSha && r.ledgerSha == b.ledgerSha
    && r.candidateCount >= 0 && r.cardCount >= 1
    && r.candidateCount == b.candidateCount && r.cardCount == b.cardCount
    && r.unexplained == 0 && r.duplicates == 0
    && r.stateWrites >= 0 && r.candidateWrites >= 0 && r.reviewWrites >= 0 && r.databaseWrites >= 0
    && r.stateWrites + r.candidateWrites + r.reviewWrites + r.databaseWrites == 0
    && IsSha256(r.semanticSha)
  }

  /** Two rows are acceptable exactly when they are the two expected rows for one and the same output digest. */
  ghost predicate ReplaysOk(b: GateB, rows: seq<Replay>) {
    exists output | IsSha256(output) ::
      rows == [ExpectedReplay(b, "replay-01", output), ExpectedReplay(b, "replay-02", output)]
  }

  lemma ReplayIds()
    ensures ReplayId(1) == "replay-01" && ReplayId(2) == "replay-02" && IsReplayId("replay-01")
            && IsReplayId("replay-02")
  {
  }

  lemma RowAcceptedIff(b: GateB, index: nat, r: Replay)
    requires b.cardCount >= 1 && (index == 1 || index == 2)
    ensures RowAccepted(b, index, r)
            <==> IsSha256(r.semanticSha) && r == ExpectedReplay(b, ReplayId(index), r.semanticSha)
  {
    hide IsSha256, ReplayId, IsReplayId, ExpectedInput;
    ReplayIds();
  }

  /** Drift between the rows, repeated IDs and writes are all caught row by row, except drift of the output itself. */
  method ValidateReplays(b: GateB, rows: seq<Replay>) returns (r: Option<seq<Replay>>)
    requires b.cardCount >= 1
    ensures r.Some? <==> ReplaysOk(b, rows)
    ensures r.Some? ==> r.value == rows
  {
    hide RowAccepted, IsSha256, ExpectedInput, ReplayId;
    ReplayIds();
    if |rows| != 2 { return None; }
    var normalized: seq<Replay> := [];
    var seen: set<string> := {};
    for i := 0 to 2
      invariant normalized == rows[..i]
      invariant seen == (set j | 0 <= j < i :: rows[j].id)
      invariant forall j | 0 <= j < i ::
                  IsSha256(rows[j].semanticSha) && rows[j] == ExpectedReplay(b, ReplayId(j + 1), rows[j].semanticSha)
    {
      RowAcceptedIff(b, i + 1, rows[i]);
      if rows[i].id in seen || !RowAccepted(b, i + 1, rows[i]) { return None; }
      seen := seen + {rows[i].id};
      normalized := normalized + [rows[i]];
    }
    var first, second := normalized[0], normalized[1];
    if first.semanticSha != second.semanticSha { return None; }
    if first.projectionSha != second.projectionSha || first.ledgerSha != second.ledgerSha { return None; }
    if first.candidateCount != second.candidateCount || first.cardCount != second.cardCount { return None; }
    assert rows == [rows[0], rows[1]];
    r := Some(normalized);
  }

  /** The row replays this parity result: it names the result's identity as its input, gives back the result's digests
    * and counts, and wrote nothing. */
  ghost predicate IsReplayOf(r: Replay, b: GateB, id: string) {
    && r.id == id && r.executionClass == "offline_shadow_replay"
    && r.input.content.baselineId == b.baselineId && r.input.content.baselineFingerprint == b.baselineFingerprint
    && r.input.content.parityFingerprint == b.parityFingerprint
    && r.input.content.projectionSha == b.projectionSha && r.input.content.ledgerSha == b.ledgerSha
    && r.projectionSha == b.projectionSha && r.ledgerSha == b.ledgerSha
    && r.candidateCount == b.candidateCount && r.cardCount == b.cardCount
    && r.unexplained == 0 && r.duplicates == 0
    && r.stateWrites == 0 && r.candidateWrites == 0 && r.reviewWrites == 0 && r.databaseWrites == 0
  }

  /** Accepted are two replays under the first two IDs that produced one and the same output. */
  lemma ReplaysRead(b: GateB, rows: seq<Replay>)
    ensures ReplaysOk(b, rows) <==>
            && |rows| == 2 && IsReplayOf(rows[0], b, "replay-01") && IsReplayOf(rows[1], b, "replay-02")
            && rows[0].semanticSha == rows[1].semanticSha && IsSha256(rows[0].semanticSha)
  {
    hide IsSha256;
    if |rows| == 2 {
      assert rows == [rows[0], rows[1]];
      forall i, id | 0 <= i < 2
        ensures IsReplayOf(rows[i], b, id) <==> rows[i] == ExpectedReplay(b, id, rows[i].semanticSha)
      {
      }
    }
  }

  // ----- the identity digest of a replay result -----

  function GateBValue(b: GateB): Value {
    Object(map[Field("baseline_id") := Text(b.baselineId), Field("baseline_fingerprint") := Text(b.baselineFingerprint),
               Field("parity_fingerprint") := Text(b.parityFingerprint),
               Field("candidate_projection_sha256") := Text(b.projectionSha),
               Field("card_ledger_sha256") := Text(b.ledgerSha),
               Field("candidate_count") := Whole(b.candidateCount), Field("card_count") := Whole(b.cardCount)])
  }

  function ReplayValue(r: Replay): Value {
    Object(map[Field("replay_id") := Text(r.id), Field("semantic_output_sha256") := Text(r.semanticSha)])
  }

  function IdentityOf(b: GateB, rows: seq<Replay>): Value
    requires |rows| == 2
  {
    Object(map[Field("gate_b") := GateBValue(b), Field("semantic_output_sha256") := Text(rows[0].semanticSha),
               Field("replays") := List([ReplayValue(rows[0]), ReplayValue(rows[1])])])
  }

  /** The identity of a replay result names the parity result, the output, and both replays in order. */
  lemma IdentityRead(b: GateB, rows: seq<Replay>)
    requires |rows| == 2
    ensures IdentityOf(b, rows).Object? && |IdentityOf(b, rows).fields| == 3
    ensures var f := IdentityOf(b, rows).fields;
            && Field("gate_b") in f && f[Field("gate_b")] == GateBValue(b)
            && Field("semantic_output_sha256") in f && f[Field("semantic_output_sha256")] == Text(rows[0].semanticSha)
            && Field("replays") in f && f[Field("replays")].List? && |f[Field("replays")].items| == 2
            && forall i | 0 <= i < 2 ::
                 f[Field("replays")].items[i]
                 == Object(map[Field("replay_id") := Text(rows[i].id),
                               Field("semantic_output_sha256") := Text(rows[i].semanticSha)])
  {
    hide GateBValue;
    var f := IdentityOf(b, rows).fields;
    assert f.Keys == {Field("gate_b"), Field("semantic_output_sha256"), Field("replays")};
  }

  lemma GateBValueInjective(a: GateB, b: GateB)
    requires GateBValue(a) == GateBValue(b)
    ensures a == b
  {
    var x, y := GateBValue(a).fields, GateBValue(b).fields;
    assert x[Field("baseline_id")] == y[Field("baseline_id")];
    assert x[Field("baseline_fingerprint")] == y[Field("baseline_fingerprint")];
    assert x[Field("parity_fingerprint")] == y[Field("parity_fingerprint")];
    assert x[Field("candidate_projection_sha256")] == y[Field("candidate_projection_sha256")];
    assert x[Field("card_ledger_sha256")] == y[Field("card_ledger_sha256")];
    assert x[Field("candidate_count")] == y[Field("candidate_count")];
    assert x[Field("card_count")] == y[Field("card_count")];
  }

  /** Two accepted replay payloads have one identity digest exactly when parity binding and replay rows are all the
    * same. */
  lemma SameIdentityIff(b: GateB, rows: seq<Replay>, b': GateB, rows': seq<Replay>)
    requires ReplaysOk(b, rows) && ReplaysOk(b', rows')
    ensures Digest(IdentityOf(b, rows)) == Digest(IdentityOf(b', rows')) <==> b == b' && rows == rows'
  {
    hide GateBValue, ReplayValue, IsSha256, ExpectedInput;
    if IdentityOf(b, rows) == IdentityOf(b', rows') {
      var x, y := IdentityOf(b, rows).fields, IdentityOf(b', rows').fields;
      assert x[Field("gate_b")] == y[Field("gate_b")];
      assert x[Field("semantic_output_sha256")] == y[Field("semantic_output_sha256")];
      GateBValueInjective(b, b');
    }
  }

  // ----- the READY result of the replay gate -----

  const SAFETY := Object(map[Field("contract_only") := Flag(true),
                             Field("network_acquisition_authorized") := Flag(false),
                             Field("production_deployment_authorized") := Flag(false)])

  const REPLAY_GATE := Gate(
    "ALDI_NEW_BASELINE_GATE_C_REPLAY_V01", 682, "READY_FOR_TWO_CONSECUTIVE_WEEKLY_SHADOW_CYCLES", "NO_OP",
    ReplayIdentity,
    map[DeterministicReplay := true, DuplicateFree := true, Idempotency := true, NoMutation := true,
        HistoricalClaimed := false, ProductionEligible := false, PromotionReady := false, CyclesComplete := false],
    SAFETY)

  function ReplayExtra(identity: Value): Fields {
    map[NextGate := Object(map[Field("requires_exact_gate_c_replay_identity") := Digest(identity)])]
  }

  function ReplayReady(identity: Value): Fields {
    ReadyResult(REPLAY_GATE, identity, ReplayExtra(identity))
  }

  const TWO_CYCLE_GATE := Gate(
    "ALDI_NEW_BASELINE_TWO_CYCLE_SHADOW_GATE_V01", 682, "READY_FOR_PRODUCTION_CANARY_PLAN", "NO_OP",
    AcceptanceFingerprint,
    map[TwoCyclesVerified := true, FailuresObserved := true,
        HistoricalClaimed := false, ProductionEligible := false, PromotionReady := false, CanaryAuthorized := false],
    SAFETY)

  function TwoCycleExtra(identity: Value): Fields {
    map[CampaignsDistinct := Flag(true), ProvenanceImmutable := Flag(true), ReplayNoOp := Flag(true),
        DuplicateFree := Flag(true), NoDrift := Flag(true), CanaryPlanReady := Flag(true),
        NextGate := Object(map[Field("requires_exact_acceptance_fingerprint") := Digest(identity)])]
  }

  function TwoCycleReady(identity: Value): Fields {
    ReadyResult(TWO_CYCLE_GATE, identity, TwoCycleExtra(identity))
  }

  lemma GatesOk()
    ensures GateOk(REPLAY_GATE) && GateOk(TWO_CYCLE_GATE)
  {
  }

  lemma BothAreReady(identity: Value)
    ensures IsReady(REPLAY_GATE, ReplayReady(identity))
            && Get(ReplayReady(identity), ReplayIdentity) == Digest(identity)
    ensures IsReady(TWO_CYCLE_GATE, TwoCycleReady(identity))
            && Get(TwoCycleReady(identity), AcceptanceFingerprint) == Digest(identity)
  {
    hide GateOk, ReadyResult, IsReady;
    GatesOk();
    ReadyResultIsReady(REPLAY_GATE, identity, ReplayExtra(identity));
    ReadyResultIsReady(TWO_CYCLE_GATE, identity, TwoCycleExtra(identity));
  }

  /** The flags the two-cycle gate reports but does not test one by one. */
  predicate Untested(k: Key) {
    || k.CampaignsDistinct? || k.ProvenanceImmutable? || k.ReplayNoOp? || k.DuplicateFree? || k.NoDrift?
    || k.CanaryPlanReady?
  }

  lemma UntestedKeys(identity: Value, k: Key)
    requires Untested(k)
    ensures k !in TWO_CYCLE_GATE.strict && k in TwoCycleReady(identity) && TwoCycleReady(identity)[k] == Flag(true)
  {
    hide GateOk, ReadyResult, TwoCycleExtra;
    GatesOk();
    UntestedIsFree(k);
    UntestedIsExtra(identity, k);
    ReadyField(TWO_CYCLE_GATE, identity, TwoCycleExtra(identity), k);
  }

  lemma UntestedIsFree(k: Key)
    requires Untested(k)
    ensures k !in TWO_CYCLE_GATE.strict && !HeaderKey(k) && k != TWO_CYCLE_GATE.digestKey
  {
  }

  lemma UntestedIsExtra(identity: Value, k: Key)
    requires Untested(k)
    ensures k in TwoCycleExtra(identity) && TwoCycleExtra(identity)[k] == Flag(true)
  {
  }

  /** Fed its own last answer, either gate answers READY once and NO_OP ever after, with one identity. */
  lemma GatesAreStable(identity: Value, n: nat)
    requires n > 0
    ensures Run(REPLAY_GATE, ReplayReady(identity), n) == Done(ReplayReady(identity)[Decision := Text("NO_OP")])
    ensures Run(TWO_CYCLE_GATE, TwoCycleReady(identity), n) == Done(TwoCycleReady(identity)[Decision := Text("NO_OP")])
  {
    hide Run, IsReady, ReplayReady, TwoCycleReady;
    BothAreReady(identity);
    ChainIsStable(REPLAY_GATE, ReplayReady(identity), n);
    ChainIsStable(TWO_CYCLE_GATE, TwoCycleReady(identity), n);
  }

  /** In both gates a prior is accepted exactly when it is the READY result up to READY or NO_OP, with boolean strict
    * flags. */
  lemma PriorsOfBothGates(identity: Value, prior: Fields)
    ensures PriorAccepted(REPLAY_GATE, prior, ReplayReady(identity)) <==>
            && DecisionOk(REPLAY_GATE, prior) && StrictFlags(REPLAY_GATE, prior)
            && SameResult(prior[Decision := Text(REPLAY_GATE.ready)], ReplayReady(identity))
    ensures PriorAccepted(TWO_CYCLE_GATE, prior, TwoCycleReady(identity)) <==>
            && DecisionOk(TWO_CYCLE_GATE, prior) && StrictFlags(TWO_CYCLE_GATE, prior)
            && SameResult(prior[Decision := Text(TWO_CYCLE_GATE.ready)], TwoCycleReady(identity))
  {
    hide PriorAccepted, IsReady, ReplayReady, TwoCycleReady, DecisionOk, StrictFlags, SameResult;
    BothAreReady(identity);
    PriorAcceptedIff(REPLAY_GATE, prior, ReplayReady(identity));
    PriorAcceptedIff(TWO_CYCLE_GATE, prior, TwoCycleReady(identity));
  }

  /** Six flags of a two-cycle result may be written as the number 1; the prior is accepted all the same. */
  lemma TwoCycleToleratesNumbers(identity: Value, k: Key)
    requires || k == CampaignsDistinct || k == ProvenanceImmutable || k == ReplayNoOp || k == DuplicateFree
             || k == NoDrift || k == CanaryPlanReady
    ensures BuildResult(TWO_CYCLE_GATE, TwoCycleReady(identity), Some(TwoCycleReady(identity)[k := Whole(1)]))
            == Done(TwoCycleReady(identity)[Decision := Text("NO_OP")])
  {
    hide IsReady, BuildResult, TwoCycleReady;
    BothAreReady(identity);
    UntestedKeys(identity, k);
    NumberElsewhereAccepted(TWO_CYCLE_GATE, TwoCycleReady(identity), k, true);
  }

  /** The gates differ in one respect: the duplicate-free flag written as 1 is refused by the replay gate, which tests
    * it, and tolerated by the two-cycle gate, which does not. */
  lemma GatesDifferOnNumbers(identity: Value)
    ensures !PriorAccepted(REPLAY_GATE, ReplayReady(identity)[DuplicateFree := Whole(1)], ReplayReady(identity))
    ensures BuildResult(TWO_CYCLE_GATE, TwoCycleReady(identity),
                        Some(TwoCycleReady(identity)[DuplicateFree := Whole(1)]))
            == Done(TwoCycleReady(identity)[Decision := Text("NO_OP")])
  {
    hide PriorAccepted, IsReady, BuildResult, SameResult, ReplayReady, TwoCycleReady;
    BothAreReady(identity);
    NumberForFlagRefused(REPLAY_GATE, ReplayReady(identity), DuplicateFree);
    TwoCycleToleratesNumbers(identity, DuplicateFree);
  }

  // ----- the replay gate's result inside the two-cycle gate -----

  /** The two-cycle identity records the replay gate's decision beside its identity; the rest is given. */
  function TwoCycleIdentity(replayResult: Fields, rest: Fields): Value {
    Object(rest[Field("gate_c") := Object(map[Decision := Get(replayResult, Decision),
                                              ReplayIdentity := Get(replayResult, ReplayIdentity)])])
  }

  /** Over the same rest, two replay results give one two-cycle identity exactly when they agree in decision and in
    * replay identity. */
  lemma TwoCycleIdentityIff(x: Fields, y: Fields, rest: Fields)
    ensures TwoCycleIdentity(x, rest) == TwoCycleIdentity(y, rest)
            <==> Get(x, Decision) == Get(y, Decision) && Get(x, ReplayIdentity) == Get(y, ReplayIdentity)
  {
    hide Get;
    var a, b := TwoCycleIdentity(x, rest).fields, TwoCycleIdentity(y, rest).fields;
    if TwoCycleIdentity(x, rest) == TwoCycleIdentity(y, rest) {
      assert a[Field("gate_c")].fields[Decision] == b[Field("gate_c")].fields[Decision];
      assert a[Field("gate_c")].fields[ReplayIdentity] == b[Field("gate_c")].fields[ReplayIdentity];
    }
  }

  /** The acceptance fingerprints agree exactly when decision and replay identity do; otherwise a two-cycle result
    * obtained with the one replay result is refused as a prior with the other. */
  lemma FingerprintIff(x: Fields, y: Fields, rest: Fields)
    ensures var a, b := TwoCycleReady(TwoCycleIdentity(x, rest)), TwoCycleReady(TwoCycleIdentity(y, rest));
            && (Get(a, AcceptanceFingerprint) == Get(b, AcceptanceFingerprint)
                <==> Get(x, Decision) == Get(y, Decision) && Get(x, ReplayIdentity) == Get(y, ReplayIdentity))
            && (BuildResult(TWO_CYCLE_GATE, b, Some(a)).Done?
                <==> Get(x, Decision) == Get(y, Decision) && Get(x, ReplayIdentity) == Get(y, ReplayIdentity))
  {
    hide TwoCycleReady, IsReady, SameResult, TwoCycleIdentity, PriorAccepted;
    var i, j := TwoCycleIdentity(x, rest), TwoCycleIdentity(y, rest);
    TwoCycleIdentityIff(x, y, rest);
    BothAreReady(i);
    BothAreReady(j);
    if i == j {
      DecisionPresent(TWO_CYCLE_GATE, TwoCycleReady(j));
      ReadyOrNoOpAccepted(TWO_CYCLE_GATE, TwoCycleReady(j), TWO_CYCLE_GATE.ready);
    } else {
      OtherDigestRefused(TWO_CYCLE_GATE, TwoCycleReady(i), TwoCycleReady(j));
    }
  }

  lemma OtherDigestRefused(g: Gate, prior: Fields, ready: Fields)
    requires Get(prior, g.digestKey).Digest? && Get(ready, g.digestKey).Digest?
    requires Get(prior, g.digestKey) != Get(ready, g.digestKey)
    ensures !PriorAccepted(g, prior, ready)
  {
    hide SameResult;
  }

  /** In particular READY and NO_OP, with one replay identity, lead to different fingerprints. */
  lemma ReplayDecisionReachesFingerprint(identity: Value, rest: Fields)
    ensures var ready := TwoCycleReady(TwoCycleIdentity(ReplayReady(identity), rest));
            var again := TwoCycleReady(TwoCycleIdentity(ReplayReady(identity)[Decision := Text("NO_OP")], rest));
            Get(ready, AcceptanceFingerprint) != Get(again, AcceptanceFingerprint)
            && BuildResult(TWO_CYCLE_GATE, again, Some(ready)) == Blocked
  {
    hide ReplayReady, TwoCycleReady, TwoCycleIdentity, IsReady, BuildResult;
    BothAreReady(identity);
    FingerprintIff(ReplayReady(identity), ReplayReady(identity)[Decision := Text("NO_OP")], rest);
    ReadyDecision(ReplayReady(identity));
  }

  lemma ReadyDecision(r: Fields)
    requires IsReady(REPLAY_GATE, r)
    ensures Get(r, Decision) != Text("NO_OP") && Get(r[Decision := Text("NO_OP")], Decision) == Text("NO_OP")
  {
    assert |REPLAY_GATE.ready| != |"NO_OP"|;
  }
}
