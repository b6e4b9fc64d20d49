/** Repeated preflight runs: the core refuses its own NO_OP answer as a prior, the wrapper does not. */
module PreflightChain {
  import opened Foundations
  import opened PageRelabelling
  import opened AcceptedPlan

  /** Digests are texts of 64 characters; the first four are fixed by the gate, the others come from the inputs. */
  datatype Bindings = Bindings(plan: string, fingerprint: string, manifest: string, archive: string)

  /** What the replay identity digests. */
  datatype ReplayKey = ReplayKey(plan: string, fingerprint: string, manifest: string,
                                 a21: string, legacy: string, page3: string, work: Sha<Work>)

  datatype Identity = Identity(plan: string, fingerprint: string, manifest: string, archive: string,
                               a21: Option<string>, legacy: Option<string>, page3: Option<string>,
                               work: Sha<Work>, replay: Option<Sha<ReplayKey>>)

  datatype Decision = Wait | Ready | NoOp | OtherDecision(name: string)

  datatype Missing = MissingA21 | MissingLegacy | MissingPage3

  datatype NextStep = SupplyEvidence | ExecuteReplay | InputsUnchanged | OtherStep(name: string)

  /** `header` stands for schema, mode, issue and upstream bindings, `safe` for the safety contract. */
  datatype Preflight = Preflight(header: bool, decision: Decision, missing: seq<Missing>, partitionsExpected: bool,
                                 identity: Identity, work: Work, parityClaimed: bool, productionEligible: bool,
                                 promotionReady: bool, nextStep: NextStep, safe: bool)

  datatype Outcome = Blocked | Done(result: Preflight)

  /** The validated parity bundle and page 3 ledger, each with the digest of its file. */
  datatype Legacy = Legacy(sha: string, bindings: map<nat, seq<OldCard>>)

  datatype Page3 = Page3(sha: string, candidates: seq<FreshCandidate>)

  datatype Inputs = Inputs(bindings: Bindings, manifest: seq<ManifestRow>, carry: map<nat, Origin>,
                           a21: Option<string>, legacy: Option<Legacy>, page3: Option<Page3>)

  predicate IsDigest(s: string) {
    |s| == 64
  }

  predicate DigestPresent(s: Option<string>) {
    s.Some? && IsDigest(s.value)
  }

  ghost predicate InputsOk(i: Inputs) {
    && PlanOk(i.manifest, i.carry)
    && IsDigest(i.bindings.plan) && IsDigest(i.bindings.fingerprint) && IsDigest(i.bindings.manifest)
    && (i.a21.Some? ==> IsDigest(i.a21.value))
    && (i.legacy.Some? ==> IsDigest(i.legacy.value.sha))
    && (i.page3.Some? ==> IsDigest(i.page3.value.sha))
  }

  predicate Complete(i: Inputs) {
    i.a21.Some? && i.legacy.Some? && i.page3.Some?
  }

  function MissingOf(i: Inputs): seq<Missing> {
    (if i.a21.None? then [MissingA21] else [])
    + (if i.legacy.None? then [MissingLegacy] else [])
    + (if i.page3.None? then [MissingPage3] else [])
  }

  function ShaOfLegacy(i: Inputs): Option<string> {
    if i.legacy.Some? then Some(i.legacy.value.sha) else None
  }

  function ShaOfPage3(i: Inputs): Option<string> {
    if i.page3.Some? then Some(i.page3.value.sha) else None
  }

  /** The work package of these inputs, as far as they are present. */
  ghost function WorkFrom(i: Inputs): Work
    requires PlanOk(i.manifest, i.carry)
  {
    PlanPlacesPages(i.manifest, i.carry);
    WorkOf(i.manifest, i.carry, if i.legacy.Some? then Some(i.legacy.value.bindings) else None,
           if i.page3.Some? then Some(i.page3.value.candidates) else None)
  }

  function KeyOf(d: Identity): ReplayKey
    requires d.a21.Some? && d.legacy.Some? && d.page3.Some?
  {
    ReplayKey(d.plan, d.fingerprint, d.manifest, d.a21.value, d.legacy.value, d.page3.value, d.work)
  }

  ghost function IdentityOf(i: Inputs): Identity
    requires PlanOk(i.manifest, i.carry)
  {
    var b := i.bindings;
    var open := Identity(b.plan, b.fingerprint, b.manifest, b.archive, i.a21, ShaOfLegacy(i), ShaOfPage3(i),
                         Sha(WorkFrom(i)), None);
    if MissingOf(i) == [] then open.(replay := Some(Sha(KeyOf(open)))) else open
  }

  /** The result without a prior. */
  ghost function Fresh(i: Inputs): Preflight
    requires PlanOk(i.manifest, i.carry)
  {
    var waiting := MissingOf(i) != [];
    Preflight(true, if waiting then Wait else Ready, MissingOf(i), true, IdentityOf(i), WorkFrom(i), !waiting, false,
              false, if waiting then SupplyEvidence else ExecuteReplay, true)
  }

  /** The core's `validate_prior_result`. */
  predicate CoreAccepts(p: Preflight) {
    && p.header && p.decision == Ready && p.missing == [] && p.safe
    && IsDigest(p.identity.plan) && IsDigest(p.identity.fingerprint) && IsDigest(p.identity.manifest)
    && DigestPresent(p.identity.a21) && DigestPresent(p.identity.legacy) && DigestPresent(p.identity.page3)
    && p.identity.replay.Some?
    && p.identity.work == Sha(p.work)
    && p.identity.replay == Some(Sha(KeyOf(p.identity)))
  }

  /** The wrapper's replacement: it checks more, and sets a NO_OP decision back to READY before asking the core. */
  predicate WrapperAccepts(p: Preflight) {
    && (p.decision == Ready || p.decision == NoOp)
    && p.partitionsExpected && p.parityClaimed && !p.productionEligible && !p.promotionReady
    && p.nextStep == (if p.decision == NoOp then InputsUnchanged else ExecuteReplay)
    && CoreAccepts(p.(decision := Ready))
  }

  datatype Validator = Core | Wrapper

  predicate Accepts(v: Validator, p: Preflight) {
    match v case Core => CoreAccepts(p) case Wrapper => WrapperAccepts(p)
  }

  /** `build_result`: with all inputs present a prior must have the same replay identity, and the answer is NO_OP. */
  ghost function Build(v: Validator, i: Inputs, prior: Option<Preflight>): Outcome
    requires PlanOk(i.manifest, i.carry)
  {
    var r := Fresh(i);
    match prior
    case None => Done(r)
    case Some(p) =>
      if !Accepts(v, p) then Blocked
      else if r.decision != Ready then Done(r)
      else if r.identity.replay != p.identity.replay then Blocked
      else Done(r.(decision := NoOp, nextStep := InputsUnchanged))
  }

  ghost function Run(v: Validator, i: Inputs, n: nat): Outcome
    requires PlanOk(i.manifest, i.carry)
  {
    if n == 0 then Build(v, i, None)
    else match Run(v, i, n - 1)
      case Blocked => Blocked
      case Done(r) => Build(v, i, Some(r))
  }

  ghost function Repeated(i: Inputs): Preflight
    requires PlanOk(i.manifest, i.carry)
  {
    Fresh(i).(decision := NoOp, nextStep := InputsUnchanged)
  }

  lemma FreshAccepted(i: Inputs)
    requires InputsOk(i) && Complete(i)
    ensures Fresh(i).decision == Ready && Accepts(Core, Fresh(i)) && Accepts(Wrapper, Fresh(i))
    ensures !Accepts(Core, Repeated(i)) && Accepts(Wrapper, Repeated(i))
  {
    hide WorkFrom, PlanOk;
  }

  /** Over fixed complete inputs the wrapped gate answers READY once and NO_OP for ever, with one identity. */
  lemma {:induction false} WrapperChainIsStable(i: Inputs, n: nat)
    requires InputsOk(i) && Complete(i)
    ensures Run(Wrapper, i, n) == Done(if n == 0 then Fresh(i) else Repeated(i))
    ensures Repeated(i).identity == Fresh(i).identity
  {
    hide Accepts, IdentityOf;
    FreshAccepted(i);
    if n > 0 { WrapperChainIsStable(i, n - 1); }
  }

  /** The core alone gets through one repetition and is then blocked for good. */
  lemma {:induction false} CoreChainStops(i: Inputs, n: nat)
    requires InputsOk(i) && Complete(i)
    ensures Run(Core, i, n) == (if n == 0 then Done(Fresh(i)) else if n == 1 then Done(Repeated(i)) else Blocked)
  {
    hide Accepts, IdentityOf;
    FreshAccepted(i);
    if n > 0 { CoreChainStops(i, n - 1); }
  }

  /** For complete inputs, an accepted prior leads to NO_OP exactly when its digests and its whole work package are the
    * current ones: the equality of one digest carries over to everything below it. */
  lemma NoOpIffSameInputs(v: Validator, i: Inputs, p: Preflight)
    requires InputsOk(i) && Complete(i) && Accepts(v, p)
    ensures Build(v, i, Some(p)) == Done(Repeated(i)) <==>
            && p.work == WorkFrom(i)
            && p.identity.(archive := i.bindings.archive) == IdentityOf(i)
    ensures Build(v, i, Some(p)) == Done(Repeated(i)) || Build(v, i, Some(p)) == Blocked
  {
    hide WorkFrom, PlanOk;
    var d := IdentityOf(i);
    assert d.replay == Some(Sha(KeyOf(d)));
    assert p.identity.replay == Some(Sha(KeyOf(p.identity))) && p.identity.work == Sha(p.work);
  }

  /** While an input is missing the answer is to wait, whatever acceptable prior is supplied; and a waiting answer is
    * never an acceptable prior. */
  lemma WaitingNeverConcludes(v: Validator, i: Inputs, p: Preflight)
    requires !Complete(i) && PlanOk(i.manifest, i.carry)
    ensures Build(v, i, Some(p)) == (if Accepts(v, p) then Done(Fresh(i)) else Blocked)
    ensures Fresh(i).decision == Wait && !Accepts(v, Fresh(i))
  {
    hide WorkFrom, PlanOk;
  }

  // ----- what the results say, field by field -----

  ghost predicate IsText64(s: Option<string>) {
    s.Some? && |s.value| == 64
  }

  /** The replay digest covers the three fixed digests, those of the three inputs and the work digest. */
  ghost predicate ReplayCovers(d: Identity) {
    && d.replay.Some? && d.a21.Some? && d.legacy.Some? && d.page3.Some?
    && var k := d.replay.value.content;
       && k.plan == d.plan && k.fingerprint == d.fingerprint && k.manifest == d.manifest
       && k.a21 == d.a21.value && k.legacy == d.legacy.value && k.page3 == d.page3.value && k.work == d.work
  }

  /** The result bears out its digests and concludes nothing but replay readiness. */
  ghost predicate IsConclusive(p: Preflight) {
    && p.header && p.safe && p.missing == []
    && |p.identity.plan| == 64 && |p.identity.fingerprint| == 64 && |p.identity.manifest| == 64
    && IsText64(p.identity.a21) && IsText64(p.identity.legacy) && IsText64(p.identity.page3)
    && p.identity.work.content == p.work && ReplayCovers(p.identity)
  }

  lemma ReplayRead(d: Identity)
    requires d.a21.Some? && d.legacy.Some? && d.page3.Some?
    ensures ReplayCovers(d) <==> d.replay == Some(Sha(KeyOf(d)))
  {
  }

  lemma ConclusiveIff(p: Preflight)
    ensures CoreAccepts(p) <==> p.decision == Ready && IsConclusive(p)
  {
    hide ReplayCovers;
    var d := p.identity;
    if d.a21.Some? && d.legacy.Some? && d.page3.Some? { ReplayRead(d); }
    if ReplayCovers(d) { CoversParts(d); }
  }

  lemma CoversParts(d: Identity)
    requires ReplayCovers(d)
    ensures d.replay.Some? && d.a21.Some? && d.legacy.Some? && d.page3.Some?
  {
  }

  /** The core takes a conclusive READY result as a prior; the wrapper takes READY or NO_OP with the next step that goes
    * with it, and looks at four more fields. */
  lemma AcceptsIff(p: Preflight)
    ensures Accepts(Core, p) <==> p.decision == Ready && IsConclusive(p)
    ensures Accepts(Wrapper, p) <==>
            && IsConclusive(p) && p.partitionsExpected && p.parityClaimed && !p.productionEligible && !p.promotionReady
            && ((p.decision == Ready && p.nextStep == ExecuteReplay)
                || (p.decision == NoOp && p.nextStep == InputsUnchanged))
  {
    hide IsConclusive, CoreAccepts;
    ConclusiveIff(p);
    ConclusiveIff(p.(decision := Ready));
    SameConclusion(p);
  }

  lemma SameConclusion(p: Preflight)
    ensures IsConclusive(p.(decision := Ready)) <==> IsConclusive(p)
  {
  }

  /** The first result names what is missing, digests what is there, and is READY when nothing is missing. */
  lemma FreshRead(i: Inputs)
    requires PlanOk(i.manifest, i.carry)
    ensures var r := Fresh(i);
            && r.work == WorkFrom(i) && r.header && r.safe && r.partitionsExpected && !r.productionEligible
            && !r.promotionReady
            && (MissingA21 in r.missing <==> i.a21.None?) && (MissingLegacy in r.missing <==> i.legacy.None?)
            && (MissingPage3 in r.missing <==> i.page3.None?) && |r.missing| <= 3
            && (r.missing == [] ==> r.decision == Ready && r.nextStep == ExecuteReplay && r.parityClaimed)
            && (r.missing != [] ==> r.decision == Wait && r.nextStep == SupplyEvidence && !r.parityClaimed)
    ensures var d := Fresh(i).identity;
            && d.plan == i.bindings.plan && d.fingerprint == i.bindings.fingerprint
            && d.manifest == i.bindings.manifest && d.archive == i.bindings.archive && d.a21 == i.a21
            && (if i.legacy.Some? then d.legacy == Some(i.legacy.value.sha) else d.legacy == None)
            && (if i.page3.Some? then d.page3 == Some(i.page3.value.sha) else d.page3 == None)
            && d.work == Sha(Fresh(i).work)
            && (if Complete(i) then ReplayCovers(d) else d.replay == None)
  {
    hide WorkFrom, PlanOk;
  }

  /** With the wrapper, any prior that leads to NO_OP is the first or the repeated result of the same inputs, in every
    * field but the digest of the archive. */
  lemma NoOpPriorIsOwnResult(i: Inputs, p: Preflight)
    requires InputsOk(i) && Complete(i)
    ensures Build(Wrapper, i, Some(p)) == Done(Repeated(i)) <==>
            var q := p.(identity := p.identity.(archive := i.bindings.archive));
            q == Fresh(i) || q == Repeated(i)
  {
    hide WorkFrom, PlanOk, IsConclusive;
    var q := p.(identity := p.identity.(archive := i.bindings.archive));
    FreshAccepted(i);
    ArchiveFree(p, i.bindings.archive);
    if Accepts(Wrapper, p) {
      NoOpIffSameInputs(Wrapper, i, p);
      AcceptsIff(p);
      ConclusiveParts(p);
      FreshRead(i);
    }
  }

  lemma ConclusiveParts(p: Preflight)
    requires IsConclusive(p)
    ensures p.header && p.safe && p.missing == []
  {
  }

  /** Neither validator looks at the archive's digest. */
  lemma ArchiveFree(p: Preflight, archive: string)
    ensures forall v :: Accepts(v, p.(identity := p.identity.(archive := archive))) == Accepts(v, p)
  {
  }
}
