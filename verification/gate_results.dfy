/** JSON results of the replay and two-cycle gates, and when a prior result is taken as the same one. */
module GateResults {
  import opened Foundations

  /** Keys of a gate result; every other JSON key is a Field. */
  datatype Key =
    | SchemaVersion | Mode | IssueNumber | Decision | IdentityKey | Safety | NextGate
    | ReplayIdentity | AcceptanceFingerprint
    | DeterministicReplay | DuplicateFree | Idempotency | NoMutation | HistoricalClaimed | ProductionEligible
    | PromotionReady
    | CyclesComplete | TwoCyclesVerified | CampaignsDistinct | ProvenanceImmutable | ReplayNoOp | NoDrift
    | FailuresObserved
    | CanaryPlanReady | CanaryAuthorized
    | Field(name: string)

  /** A parsed JSON value; Digest is the hexadecimal SHA-256 of a value's canonical encoding. */
  datatype Value =
    | Null | Flag(on: bool) | Whole(n: int) | Fraction(r: real) | Text(s: string) | Digest(of: Value)
    | List(items: seq<Value>) | Object(fields: map<Key, Value>)

  type Fields = map<Key, Value>

  /** Python counts True as 1 and False as 0, and compares whole and fractional numbers by value. */
  function Number(v: Value): Option<real> {
    match v
    case Flag(b) => Some(if b then 1.0 else 0.0)
    case Whole(n) => Some(n as real)
    case Fraction(r) => Some(r)
    case _ => None
  }

  /** Python's == on parsed JSON. */
  predicate PyEq(a: Value, b: Value) {
    if Number(a).Some? || Number(b).Some? then Number(a) == Number(b)
    else if a.List? && b.List? then
      |a.items| == |b.items| && forall i | 0 <= i < |a.items| :: PyEq(a.items[i], b.items[i])
    else if a.Object? && b.Object? then
      a.fields.Keys == b.fields.Keys && forall k | k in a.fields.Keys :: PyEq(a.fields[k], b.fields[k])
    else a == b
  }

  predicate SameResult(a: Fields, b: Fields) {
    a.Keys == b.Keys && forall k | k in a.Keys :: PyEq(a[k], b[k])
  }

  lemma {:induction false} PyEqReflexive(v: Value)
    ensures PyEq(v, v)
  {
    match v
    case List(items) => forall i | 0 <= i < |items| ensures PyEq(items[i], items[i]) { PyEqReflexive(items[i]); }
    case Object(fields) => forall k | k in fields.Keys ensures PyEq(fields[k], fields[k]) { PyEqReflexive(fields[k]); }
    case _ =>
  }

  lemma SameResultReflexive(a: Fields)
    ensures SameResult(a, a)
  {
    forall k | k in a.Keys ensures PyEq(a[k], a[k]) { PyEqReflexive(a[k]); }
  }

  // ----- accepting a prior result -----

  /** What differs between the two gates: names, which key carries the identity digest, and which flags are compared
    * with `is` for a given truth value. */
  datatype Gate = Gate(mode: string, issue: int, ready: string, noOp: string, digestKey: Key, strict: map<Key, bool>,
                       safety: Value)

  function Get(r: Fields, k: Key): Value {
    if k in r then r[k] else Null
  }

  /** A READY result of the gate. */
  predicate IsReady(g: Gate, r: Fields) {
    && Get(r, SchemaVersion) == Whole(1) && Get(r, Mode) == Text(g.mode) && Get(r, IssueNumber) == Whole(g.issue)
    && Decision in r && r[Decision] == Text(g.ready)
    && Get(r, g.digestKey).Digest?
    && Get(r, Safety) == g.safety && g.safety.Object?
    && (forall k | k in g.strict :: Get(r, k) == Flag(g.strict[k]))
    && Decision !in g.strict && g.digestKey != Decision
  }

  /** The header every result carries, keys outside the strict flags. */
  predicate HeaderKey(k: Key) {
    k.SchemaVersion? || k.Mode? || k.IssueNumber? || k.Decision? || k.IdentityKey? || k.Safety?
  }

  predicate GateOk(g: Gate) {
    && g.safety.Object? && !HeaderKey(g.digestKey) && g.digestKey !in g.strict
    && forall k | k in g.strict :: !HeaderKey(k)
  }

  /** The READY result over a validated identity: header, identity digest, strict flags and what else the gate
    * reports. */
  function ReadyResult(g: Gate, identity: Value, extra: Fields): Fields {
    var body := extra + (map k | k in g.strict :: Flag(g.strict[k]));
    body[g.digestKey := Digest(identity)]
        [SchemaVersion := Whole(1)][Mode := Text(g.mode)][IssueNumber := Whole(g.issue)][Decision := Text(g.ready)]
        [IdentityKey := identity][Safety := g.safety]
  }

  lemma ReadyHeader(g: Gate, identity: Value, extra: Fields)
    requires GateOk(g)
    ensures var r := ReadyResult(g, identity, extra);
            && Get(r, SchemaVersion) == Whole(1) && Get(r, Mode) == Text(g.mode)
            && Get(r, IssueNumber) == Whole(g.issue)
            && Decision in r && r[Decision] == Text(g.ready) && Get(r, Safety) == g.safety
            && Get(r, g.digestKey) == Digest(identity)
  {
  }

  lemma ReadyField(g: Gate, identity: Value, extra: Fields, k: Key)
    requires GateOk(g) && !HeaderKey(k) && k != g.digestKey
    ensures k in g.strict ==> Get(ReadyResult(g, identity, extra), k) == Flag(g.strict[k])
    ensures k !in g.strict && k in extra
            ==> k in ReadyResult(g, identity, extra) && ReadyResult(g, identity, extra)[k] == extra[k]
  {
  }

  lemma ReadyResultIsReady(g: Gate, identity: Value, extra: Fields)
    requires GateOk(g)
    ensures IsReady(g, ReadyResult(g, identity, extra))
    ensures Get(ReadyResult(g, identity, extra), g.digestKey) == Digest(identity)
  {
    hide ReadyResult;
    ReadyHeader(g, identity, extra);
    forall k | k in g.strict ensures Get(ReadyResult(g, identity, extra), k) == Flag(g.strict[k]) {
      ReadyField(g, identity, extra, k);
    }
  }

  predicate DecisionOk(g: Gate, prior: Fields) {
    Get(prior, Decision) == Text(g.ready) || Get(prior, Decision) == Text(g.noOp)
  }

  /** `validate_prior_result`: the checks field by field, then the whole result with its decision set back to READY. */
  predicate PriorAccepted(g: Gate, prior: Fields, ready: Fields) {
    && PyEq(Get(prior, SchemaVersion), Whole(1)) && PyEq(Get(prior, Mode), Text(g.mode))
    && PyEq(Get(prior, IssueNumber), Whole(g.issue))
    && DecisionOk(g, prior)
    && PyEq(Get(prior, g.digestKey), Get(ready, g.digestKey))
    && (forall k | k in g.strict :: Get(prior, k) == Flag(g.strict[k]))
    && PyEq(Get(prior, Safety), g.safety)
    && SameResult(prior[Decision := Text(g.ready)], ready)
  }

  /** The strict flags of a prior are booleans, not the numbers 0 and 1. */
  predicate StrictFlags(g: Gate, prior: Fields) {
    forall k | k in g.strict :: Get(prior, k).Flag?
  }

  lemma SameField(g: Gate, prior: Fields, ready: Fields, k: Key)
    requires SameResult(prior[Decision := Text(g.ready)], ready) && k != Decision
    ensures PyEq(Get(prior, k), Get(ready, k))
  {
    var normalized := prior[Decision := Text(g.ready)];
    assert k in prior <==> k in normalized.Keys;
    assert k in ready <==> k in ready.Keys;
  }

  /** A prior is accepted exactly when it equals the READY result once its READY or NO_OP decision is set back and its
    * strict flags are booleans: every other field check follows from the comparison of the whole. */
  lemma PriorAcceptedIff(g: Gate, prior: Fields, ready: Fields)
    requires IsReady(g, ready)
    ensures PriorAccepted(g, prior, ready) <==>
            DecisionOk(g, prior) && StrictFlags(g, prior) && SameResult(prior[Decision := Text(g.ready)], ready)
  {
    hide PyEq, SameResult;
    if DecisionOk(g, prior) && StrictFlags(g, prior) && SameResult(prior[Decision := Text(g.ready)], ready) {
      assert SchemaVersion != Decision && Mode != Decision && IssueNumber != Decision && Safety != Decision;
      SameField(g, prior, ready, SchemaVersion);
      SameField(g, prior, ready, Mode);
      SameField(g, prior, ready, IssueNumber);
      SameField(g, prior, ready, Safety);
      SameField(g, prior, ready, g.digestKey);
      forall k | k in g.strict ensures Get(prior, k) == Flag(g.strict[k]) {
        SameField(g, prior, ready, k);
        FlagsCompare(Get(prior, k), Get(ready, k));
      }
    }
  }

  lemma FlagsCompare(a: Value, b: Value)
    requires a.Flag? && b.Flag? && PyEq(a, b)
    ensures a == b
  {
  }

  // ----- running the gate again and again -----

  datatype Outcome = Blocked | Done(result: Fields)

  /** `build_result` once the payload has given its READY result. */
  function BuildResult(g: Gate, ready: Fields, prior: Option<Fields>): Outcome {
    match prior
    case None => Done(ready)
    case Some(p) => if PriorAccepted(g, p, ready) then Done(ready[Decision := Text(g.noOp)]) else Blocked
  }

  /** The n-th run over one payload, each run fed the result of the one before. */
  function Run(g: Gate, ready: Fields, n: nat): Outcome {
    if n == 0 then BuildResult(g, ready, None)
    else match Run(g, ready, n - 1)
      case Blocked => Blocked
      case Done(r) => BuildResult(g, ready, Some(r))
  }

  lemma ReadyOrNoOpAccepted(g: Gate, ready: Fields, decision: string)
    requires IsReady(g, ready) && (decision == g.ready || decision == g.noOp)
    ensures PriorAccepted(g, ready[Decision := Text(decision)], ready)
  {
    hide PyEq, SameResult;
    var prior := ready[Decision := Text(decision)];
    assert prior[Decision := Text(g.ready)] == ready;
    SameResultReflexive(ready);
    forall k | k in g.strict ensures Get(prior, k).Flag? { assert Get(prior, k) == Get(ready, k); }
    PriorAcceptedIff(g, prior, ready);
  }

  /** The first run is READY and every later one is the same result marked NO_OP: the identity never changes. */
  lemma {:induction false} ChainIsStable(g: Gate, ready: Fields, n: nat)
    requires IsReady(g, ready)
    ensures Run(g, ready, n) == Done(if n == 0 then ready else ready[Decision := Text(g.noOp)])
  {
    hide PriorAccepted, IsReady;
    if n > 0 {
      ChainIsStable(g, ready, n - 1);
      assert IsReady(g, ready);
      DecisionPresent(g, ready);
      ReadyOrNoOpAccepted(g, ready, if n == 1 then g.ready else g.noOp);
    }
  }

  lemma DecisionPresent(g: Gate, ready: Fields)
    requires IsReady(g, ready)
    ensures ready[Decision := Text(g.ready)] == ready
  {
  }

  // ----- where the comparison of the whole is laxer than the field checks -----

  lemma NumberEqualsFlag(on: bool)
    ensures PyEq(Whole(if on then 1 else 0), Flag(on))
  {
  }

  /** A prior that spells a strict flag as a number passes the comparison of the whole and is refused all the same. */
  lemma NumberForFlagRefused(g: Gate, ready: Fields, k: Key)
    requires IsReady(g, ready) && k in g.strict
    ensures var prior := ready[k := Whole(if g.strict[k] then 1 else 0)];
            && SameResult(prior[Decision := Text(g.ready)], ready)
            && !PriorAccepted(g, prior, ready)
  {
    hide PriorAccepted, PyEq;
    var v := Whole(if g.strict[k] then 1 else 0);
    var prior := ready[k := v];
    assert k != Decision && k in ready;
    assert prior[Decision := Text(g.ready)] == prior;
    SameResultReflexive(ready);
    NumberEqualsFlag(g.strict[k]);
    assert !Get(prior, k).Flag?;
    PriorAcceptedIff(g, prior, ready);
  }

  /** Any other key may spell its flag as a number: the prior is accepted and the answer is NO_OP. */
  lemma NumberElsewhereAccepted(g: Gate, ready: Fields, k: Key, on: bool)
    requires IsReady(g, ready) && k !in g.strict && k in ready && ready[k] == Flag(on)
    ensures var prior := ready[k := Whole(if on then 1 else 0)];
            BuildResult(g, ready, Some(prior)) == Done(ready[Decision := Text(g.noOp)])
  {
    hide PriorAccepted, PyEq;
    var v := Whole(if on then 1 else 0);
    var prior := ready[k := v];
    assert k != Decision;
    assert prior[Decision := Text(g.ready)] == prior;
    SameResultReflexive(ready);
    NumberEqualsFlag(on);
    forall s | s in g.strict ensures Get(prior, s).Flag? { assert Get(prior, s) == Get(ready, s); }
    PriorAcceptedIff(g, prior, ready);
  }
}
