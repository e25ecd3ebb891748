/**
 The adapters that turn execution-integrity evidence into validation cases and
 independent observations, and what a report made from them can say.  The
 recomputation of receipts and proofs is abstract, a flag says whether it
 succeeded; hashes and signatures are any functions.
 */
module Adapters {
  import opened Bytes
  import opened JsonCanonical
  import opened Strings
  import opened ValidationModel
  import opened ValidationSpec
  import opened ValidationVerdicts

  const ADAPTER_VERSION := "koschei-defense-" + "execution-integrity-adapter/" + "v0.2.0"
  const BINDING_VERSION := "koschei-defense-" + "observation-binding/" + "v0.2.0"
  const FINDING_KIND := "defense_validation_observation"
  const SUBJECT_TYPE := "defense_validation_case"
  const SINGLE_DIFFERENCE := "approved_intent_and_" + "executable_action_" + "identity"

  datatype ContainmentReason =
    | IntentMismatch | AuthorityChanged | AssetBoundsExceeded | CodeIntegrityChanged | HiddenExecutionPath
    | ContainmentInvariantFailed | OtherContainmentReason(code: string)

  datatype ContainmentDecision = Contain | Release | Unavailable

  datatype ProofDecision = Allow | Block

  datatype ProofReason = PayloadMismatch | ProofInvariantFailed | OtherProofReason(code: string)

  // What the receipt, the proof and the two actions say.
  datatype Artifacts = Artifacts(
    receiptVerified: bool, backendAvailable: bool, proofVerified: bool, proofBound: bool, actionsBound: bool,
    valuesPositive: bool, observed: map<string, string>, singleDifference: string,
    approvedAction: string, candidateAction: string, approvedIntent: string, candidateIntent: string,
    approvedPayload: string, candidatePayload: string,
    decision: ContainmentDecision, containmentReasons: seq<ContainmentReason>,
    proofDecision: ProofDecision, proofReasons: seq<ProofReason>,
    receiptDigest: string, proofDigest: string, chainId: nat, preState: string, postState: string)

  datatype ExecutionInput = ExecutionInput(
    ref: string, kind: string, techniqueId: string, mode: string, impact: Option<int>, window: int, mainnetSent: bool,
    control: Control, scenario: Scenario, selectsIntegrityControl: bool, artifacts: Artifacts)

  // A verified execution: its case, and whether the control signaled it.
  datatype Execution = Execution(kase: Case, receiptDigest: string, proofDigest: string, signaled: bool)

  // What the hash of an execution covers.
  datatype ExecutionRecord = ExecutionRecord(
    adapterVersion: string, controlRef: string, configurationHash: string,
    scenarioRef: string, scenarioVersion: string, contractHash: string, chain: string, chainId: nat,
    caseRef: string, kind: string, techniqueId: string, mode: string,
    receiptDigest: string, decision: ContainmentDecision, proofDigest: string, proofDecision: ProofDecision,
    approvedAction: string, candidateAction: string, preState: string, postState: string,
    impact: Option<int>, deadline: Option<int>, window: int, mainnetSent: bool)

  // Hashes of configurations, executions and bindings, and the verification of an
  // event's signature for a producer under a key.
  datatype Digests = Digests(
    configuration: string -> string, execution: ExecutionRecord -> string, binding: Binding -> string,
    authentic: (Event, string, string) -> bool)

  // ---------- the control ----------

  // The control as its collector key determines it.
  function BindControl(digests: Digests, raw: Control): Option<Control> {
    var c := NormControl(raw);
    var hash := digests.configuration(c.collectorKey);
    if c.ref == "" || c.collectorRef == "" || c.ref == c.collectorRef || !ValidCollectorKey(c.collectorKey)
       || c.adapterVersion != ADAPTER_VERSION || Lower(c.configurationHash) != Lower(hash) then None
    else Some(c.(configurationHash := hash))
  }

  // ---------- the scenario case ----------

  function NamedCases(cases: seq<ScenarioCase>, ref: string): seq<ScenarioCase> {
    if cases == [] then [] else
      var last := cases[|cases| - 1];
      NamedCases(cases[..|cases| - 1], ref) + (if ScenarioKey(last) == ref then [last] else [])
  }

  // The evidence agrees with the case on kind, timing and every matched field.
  predicate MatchesEvidence(x: ExecutionInput, sc: ScenarioCase) {
    && Trim(sc.kind) == x.kind && sc.window == x.window && sc.impact == x.impact && x.artifacts.valuesPositive
    && forall f :: f in Map(Trim, x.scenario.matchedFields) ==>
         f in x.artifacts.observed && f in sc.matchedValues
         && Canonical(sc.matchedValues[f]) == Some(x.artifacts.observed[f])
  }

  function BoundCase(x: ExecutionInput): Option<ScenarioCase> {
    var named := NamedCases(x.scenario.cases, x.ref);
    if |named| == 1 && MatchesEvidence(x, named[0]) then Some(named[0]) else None
  }

  method BindScenarioCase(x: ExecutionInput) returns (r: Option<ScenarioCase>)
    ensures r == BoundCase(x)
  {
    r := OnlyNamed(x.scenario.cases, x.ref, sc => MatchesEvidence(x, sc));
  }

  // The loop over the matrix: every case of the name must fit, and there must be
  // one such case.
  method OnlyNamed(cases: seq<ScenarioCase>, ref: string, fits: ScenarioCase -> bool) returns (r: Option<ScenarioCase>)
    ensures var named := NamedCases(cases, ref);
            r == if |named| == 1 && fits(named[0]) then Some(named[0]) else None
  {
    var matched := 0;
    var bound: Option<ScenarioCase> := None;
    ghost var named: seq<ScenarioCase> := [];
    for i := 0 to |cases|
      invariant named == NamedCases(cases[..i], ref) && matched == |named|
      invariant forall j :: 0 <= j < matched ==> fits(named[j])
      invariant matched > 0 ==> bound == Some(named[matched - 1])
    {
      NamedNext(cases, ref, i);
      if ScenarioKey(cases[i]) != ref {
        continue;
      }
      if !fits(cases[i]) {
        NamedKept(cases, ref, i);
        return None;
      }
      named := named + [cases[i]];
      matched := matched + 1;
      bound := Some(cases[i]);
    }
    assert cases[..|cases|] == cases;
    return if matched == 1 then bound else None;
  }

  lemma NamedNext(cases: seq<ScenarioCase>, ref: string, i: nat)
    requires i < |cases|
    ensures NamedCases(cases[..i + 1], ref)
            == NamedCases(cases[..i], ref) + (if ScenarioKey(cases[i]) == ref then [cases[i]] else [])
  {
    assert cases[..i + 1][..i] == cases[..i];
  }

  lemma {:induction false} NamedGrows(cases: seq<ScenarioCase>, ref: string, i: nat)
    requires i <= |cases|
    ensures NamedCases(cases[..i], ref) <= NamedCases(cases, ref)
    decreases |cases| - i
  {
    if i < |cases| {
      assert cases[..i + 1][..i] == cases[..i];
      NamedGrows(cases, ref, i + 1);
    } else {
      assert cases[..i] == cases;
    }
  }

  lemma NamedKept(cases: seq<ScenarioCase>, ref: string, i: nat)
    requires i < |cases| && ScenarioKey(cases[i]) == ref
    ensures cases[i] in NamedCases(cases, ref)
    ensures |NamedCases(cases, ref)| == 1 ==> NamedCases(cases, ref)[0] == cases[i]
  {
    assert cases[..i + 1][..i] == cases[..i];
    NamedGrows(cases, ref, i + 1);
    var (named, all) := (NamedCases(cases[..i + 1], ref), NamedCases(cases, ref));
    assert named[|named| - 1] == cases[i] && all[|named| - 1] == named[|named| - 1];
  }

  lemma {:induction false} NamedAreCases(cases: seq<ScenarioCase>, ref: string)
    ensures forall sc :: sc in NamedCases(cases, ref) ==> sc in cases && ScenarioKey(sc) == ref
    decreases |cases|
  {
    if cases != [] {
      NamedAreCases(cases[..|cases| - 1], ref);
      assert cases == cases[..|cases| - 1] + [cases[|cases| - 1]];
    }
  }

  // ---------- what the artifacts say ----------

  predicate AttackReason(r: ContainmentReason) {
    !r.OtherContainmentReason?
  }

  predicate ActionsMatch(a: Artifacts) {
    Lower(a.approvedAction) == Lower(a.candidateAction)
  }

  predicate IntentOrPayloadDiffers(a: Artifacts) {
    Lower(a.approvedIntent) != Lower(a.candidateIntent) || Lower(a.approvedPayload) != Lower(a.candidatePayload)
  }

  predicate AttackShown(a: Artifacts) {
    && !ActionsMatch(a) && IntentOrPayloadDiffers(a) && a.decision == Contain && IntentMismatch in a.containmentReasons
    && (forall r :: r in a.containmentReasons ==> AttackReason(r))
    && (forall r :: r in a.proofReasons ==> r == PayloadMismatch || r == ProofInvariantFailed)
  }

  predicate BenignShown(a: Artifacts) {
    && ActionsMatch(a) && !IntentOrPayloadDiffers(a) && a.decision == Release && a.containmentReasons == []
    && a.proofDecision == Allow && a.proofReasons == []
  }

  // Whether the control signaled; None when the artifacts do not fit the kind.
  function Semantics(x: ExecutionInput): Option<bool> {
    if Trim(x.artifacts.singleDifference) != SINGLE_DIFFERENCE then None
    else if x.kind == ATTACK then (if AttackShown(x.artifacts) then Some(true) else None)
    else if x.kind == BENIGN then (if BenignShown(x.artifacts) then Some(false) else None)
    else None
  }

  method ValidateSemantics(x: ExecutionInput) returns (signaled: Option<bool>)
    ensures signaled == Semantics(x)
  {
    var a := x.artifacts;
    if Trim(a.singleDifference) != SINGLE_DIFFERENCE {
      return None;
    }
    var actionsMatch := Lower(a.approvedAction) == Lower(a.candidateAction);
    var intentOrPayloadMismatch :=
      Lower(a.approvedIntent) != Lower(a.candidateIntent) || Lower(a.approvedPayload) != Lower(a.candidatePayload);
    if x.kind == ATTACK {
      if actionsMatch || !intentOrPayloadMismatch || a.decision != Contain || IntentMismatch !in a.containmentReasons {
        return None;
      }
      for i := 0 to |a.containmentReasons|
        invariant forall j :: 0 <= j < i ==> AttackReason(a.containmentReasons[j])
      {
        if a.containmentReasons[i].OtherContainmentReason? {
          assert a.containmentReasons[i] in a.containmentReasons;
          return None;
        }
      }
      for i := 0 to |a.proofReasons|
        invariant forall j :: 0 <= j < i ==>
                    a.proofReasons[j] == PayloadMismatch || a.proofReasons[j] == ProofInvariantFailed
      {
        if a.proofReasons[i] != PayloadMismatch && a.proofReasons[i] != ProofInvariantFailed {
          assert a.proofReasons[i] in a.proofReasons;
          return None;
        }
      }
      return Some(true);
    }
    if x.kind == BENIGN {
      if !actionsMatch || intentOrPayloadMismatch || a.decision != Release || |a.containmentReasons| != 0
         || a.proofDecision != Allow || |a.proofReasons| != 0 {
        return None;
      }
      return Some(false);
    }
    return None;
  }

  // ---------- the case ----------

  function HashRef(value: string): string {
    var v := Lower(Trim(value));
    if "sha256:" <= v then v else "sha256:" + v
  }

  predicate WellTimed(x: ExecutionInput) {
    && x.ref != "" && x.techniqueId != "" && (x.kind == ATTACK || x.kind == BENIGN)
    && (x.mode == FORK || x.mode == SANDBOX)
    && !x.mainnetSent && x.window > 0
    && (x.kind == ATTACK ==> Within(x.impact, x.window)) && (x.kind == BENIGN ==> x.impact.None?)
  }

  predicate ArtifactsVerified(x: ExecutionInput) {
    && x.artifacts.receiptVerified && x.artifacts.backendAvailable && x.artifacts.proofVerified
    && x.artifacts.proofBound
    && x.artifacts.actionsBound && x.scenario.isSealed && x.selectsIntegrityControl
    && ModeMatches(x.scenario.mode, x.mode)
    && ValidScenarioCases(x.scenario.matchedFields, x.scenario.cases)
  }

  function Normal(raw: ExecutionInput): ExecutionInput {
    raw.(ref := Trim(raw.ref), kind := Trim(raw.kind), techniqueId := Trim(raw.techniqueId), mode := Trim(raw.mode))
  }

  function RecordOf(x: ExecutionInput, control: Control, sc: ScenarioCase): ExecutionRecord {
    var a := x.artifacts;
    ExecutionRecord(
      ADAPTER_VERSION, control.ref, control.configurationHash,
      Trim(x.scenario.ref), Trim(x.scenario.version), x.scenario.digest, Lower(Trim(x.scenario.chain)), a.chainId,
      x.ref, x.kind, x.techniqueId, x.mode,
      Lower(a.receiptDigest), a.decision, Lower(a.proofDigest), a.proofDecision,
      Lower(a.approvedAction), Lower(a.candidateAction), Lower(a.preState), Lower(a.postState),
      x.impact, sc.latestDetection, x.window, false)
  }

  function CaseFrom(digests: Digests, x: ExecutionInput, control: Control, sc: ScenarioCase): Case {
    var hash := digests.execution(RecordOf(x, control, sc));
    Case(x.ref, x.kind, x.techniqueId, control.ref, control.configurationHash,
         Trim(x.scenario.ref), Trim(x.scenario.version), x.scenario.digest, Lower(Trim(x.scenario.chain)),
         x.artifacts.chainId,
         x.mode, "defense-execution:" + hash, hash, HashRef(x.artifacts.preState), HashRef(x.artifacts.postState),
         VERIFIED, x.impact, sc.latestDetection, x.window, false)
  }

  function AdaptCase(digests: Digests, raw: ExecutionInput): Option<Execution> {
    var x := Normal(raw);
    var control := BindControl(digests, x.control);
    var sc := BoundCase(x);
    var signaled := Semantics(x);
    if !WellTimed(x) || control.None? || !ArtifactsVerified(x) || sc.None? || signaled.None? then None
    else
      Some(Execution(CaseFrom(digests, x, control.value, sc.value),
                     Lower(x.artifacts.receiptDigest), Lower(x.artifacts.proofDigest), signaled.value))
  }

  method AdaptExecutionIntegrityCase(digests: Digests, raw: ExecutionInput) returns (r: Option<Execution>)
    ensures r == AdaptCase(digests, raw)
  {
    var x := raw.(ref := Trim(raw.ref), kind := Trim(raw.kind), techniqueId := Trim(raw.techniqueId),
                  mode := Trim(raw.mode));
    if !WellTimed(x) {
      return None;
    }
    var control := BindControl(digests, x.control);
    if control.None? || !ArtifactsVerified(x) {
      return None;
    }
    var sc := BindScenarioCase(x);
    if sc.None? {
      return None;
    }
    var signaled := ValidateSemantics(x);
    if signaled.None? {
      return None;
    }
    r := Some(Execution(CaseFrom(digests, x, control.value, sc.value),
                        Lower(x.artifacts.receiptDigest), Lower(x.artifacts.proofDigest), signaled.value));
  }

  // ---------- the observation ----------

  datatype Binding = Binding(
    version: string, chain: string, controlRef: string, caseRef: string, status: string, executionHash: string,
    alertOffset: Option<int>, completed: int)

  datatype Finding = Finding(id: string, kind: string, verified: bool, evidence: string)

  // A signed event in canonical form.
  datatype Event = Event(
    signature: string, producer: string, chain: string, subjectType: string, subjectId: string, from: int, to: int,
    sourceDigests: seq<string>, findings: seq<Finding>, digest: string)

  function NormalBinding(b: Binding): Binding {
    b.(version := if Trim(b.version) == "" then BINDING_VERSION else Trim(b.version), chain := Lower(Trim(b.chain)),
       controlRef := Trim(b.controlRef), caseRef := Trim(b.caseRef),
       status := Trim(b.status),
       executionHash := Lower(Trim(b.executionHash)))
  }

  predicate CompleteBinding(b: Binding) {
    && b.version == BINDING_VERSION && b.chain != "" && b.controlRef != "" && b.caseRef != ""
    && ValidHash(b.executionHash) && b.completed >= 0
    && (b.status == ALERTED || b.status == NO_ALERT)
    && (b.status == ALERTED ==> Within(b.alertOffset, b.completed)) && (b.status == NO_ALERT ==> b.alertOffset.None?)
  }

  function FindingId(controlRef: string, caseRef: string): string {
    "dv-observation:" + Trim(controlRef) + ":" + Trim(caseRef)
  }

  predicate Concerns(f: Finding, id: string) {
    f.id == id && f.kind == FINDING_KIND
  }

  function Concerning(findings: seq<Finding>, id: string): seq<Finding> {
    if findings == [] then [] else
      var last := findings[|findings| - 1];
      Concerning(findings[..|findings| - 1], id) + (if Concerns(last, id) then [last] else [])
  }

  predicate Confirms(f: Finding, digest: string) {
    f.verified && Lower(f.evidence) == Lower(digest)
  }

  // Exactly one finding concerns the case, and it is verified against the binding.
  predicate OneFinding(findings: seq<Finding>, id: string, digest: string) {
    |Concerning(findings, id)| == 1 && Confirms(Concerning(findings, id)[0], digest)
  }

  method CountFindings(findings: seq<Finding>, id: string, digest: string) returns (ok: bool)
    ensures ok <==> OneFinding(findings, id, digest)
  {
    var matched := 0;
    for i := 0 to |findings|
      invariant matched == |Concerning(findings[..i], id)|
      invariant forall f :: f in Concerning(findings[..i], id) ==> Confirms(f, digest)
    {
      assert findings[..i + 1][..i] == findings[..i];
      if !Concerns(findings[i], id) {
        continue;
      }
      ConcerningGrows(findings, id, i + 1);
      matched := matched + 1;
      if !Confirms(findings[i], digest) {
        var (some, all) := (Concerning(findings[..i + 1], id), Concerning(findings, id));
        assert some[|some| - 1] == findings[i] && all[|some| - 1] == some[|some| - 1];
        return false;
      }
    }
    assert findings[..|findings|] == findings;
    return matched == 1;
  }

  lemma {:induction false} ConcerningGrows(findings: seq<Finding>, id: string, i: nat)
    requires i <= |findings|
    ensures Concerning(findings[..i], id) <= Concerning(findings, id)
    decreases |findings| - i
  {
    if i < |findings| {
      assert findings[..i + 1][..i] == findings[..i];
      ConcerningGrows(findings, id, i + 1);
    } else {
      assert findings[..i] == findings;
    }
  }

  predicate HasDigest(values: seq<string>, expected: string) {
    exists i :: 0 <= i < |values| && Lower(Trim(values[i])) == Lower(Trim(expected))
  }

  predicate MatchesExecution(control: Control, x: Execution, b: Binding) {
    && x.kase.controlRef == control.ref && Lower(x.kase.configurationHash) == Lower(control.configurationHash)
    && b.chain == x.kase.chain && b.controlRef == control.ref && b.caseRef == x.kase.ref
    && Lower(b.executionHash) == Lower(x.kase.executionHash)
    && b.status == (if x.signaled then ALERTED else NO_ALERT)
    && b.completed >= x.kase.window
  }

  predicate EventFits(digests: Digests, control: Control, x: Execution, b: Binding, e: Event) {
    && digests.authentic(e, control.collectorRef, control.collectorKey) && e.producer == control.collectorRef
    && e.chain == b.chain && e.subjectType == SUBJECT_TYPE && e.subjectId == x.kase.ref
    && e.to - e.from >= b.completed
    && HasDigest(e.sourceDigests, x.receiptDigest) && HasDigest(e.sourceDigests, x.proofDigest)
    && OneFinding(e.findings, FindingId(control.ref, x.kase.ref), digests.binding(b))
  }

  function ObservationFrom(control: Control, x: Execution, b: Binding, e: Event, digest: string): Observation {
    var alerted := b.status == ALERTED;
    Observation(control.ref, control.collectorRef, x.kase.ref, b.status,
                "security-evidence:event:" + Lower(e.digest), HashRef(e.digest), b.alertOffset,
                if alerted then "security-evidence:finding:" + FindingId(control.ref, x.kase.ref) else "",
                if alerted then HashRef(digest) else "", b.completed, VERIFIED)
  }

  function AdaptObservation(digests: Digests, raw: Control, x: Execution, binding: Binding,
                            e: Event): Option<Observation> {
    var control := BindControl(digests, raw);
    var b := NormalBinding(binding);
    if control.None? || !MatchesExecution(control.value, x, b) || !CompleteBinding(b)
       || !EventFits(digests, control.value, x, b, e) then None
    else Some(ObservationFrom(control.value, x, b, e, digests.binding(b)))
  }

  method AdaptSecurityEvidenceObservation(digests: Digests, raw: Control, x: Execution, binding: Binding, e: Event)
    returns (r: Option<Observation>)
    ensures r == AdaptObservation(digests, raw, x, binding, e)
  {
    var control := BindControl(digests, raw);
    if control.None? {
      return None;
    }
    var c := control.value;
    var b := NormalBinding(binding);
    if !MatchesExecution(c, x, b) || !CompleteBinding(b) {
      return None;
    }
    var digest := digests.binding(b);
    if !digests.authentic(e, c.collectorRef, c.collectorKey) || e.producer != c.collectorRef || e.chain != b.chain
       || e.subjectType != SUBJECT_TYPE || e.subjectId != x.kase.ref || e.to - e.from < b.completed
       || !HasDigest(e.sourceDigests, x.receiptDigest) || !HasDigest(e.sourceDigests, x.proofDigest) {
      return None;
    }
    var one := CountFindings(e.findings, FindingId(c.ref, x.kase.ref), digest);
    if !one {
      return None;
    }
    return Some(ObservationFrom(c, x, b, e, digest));
  }

  // ---------- what adapted evidence says ----------

  // What a verified execution of a scenario says: it is a case of the scenario,
  // and the control signaled exactly if the case is an attack.
  lemma AdaptedCase(digests: Digests, raw: ExecutionInput, x: Execution) returns (sc: ScenarioCase)
    requires AdaptCase(digests, raw) == Some(x)
    ensures sc in raw.scenario.cases && ScenarioKey(sc) == x.kase.ref && Trim(sc.kind) == x.kase.kind
            && sc.window == x.kase.window
    ensures x.kase.evidence == VERIFIED && (x.kase.kind == ATTACK || x.kase.kind == BENIGN)
    ensures x.signaled <==> x.kase.kind == ATTACK
  {
    var y := Normal(raw);
    sc := BoundCase(y).value;
    NamedAreCases(y.scenario.cases, y.ref);
    assert sc in NamedCases(y.scenario.cases, y.ref);
    assert ATTACK[0] != BENIGN[0];
  }

  lemma AdaptedObservation(digests: Digests, control: Control, x: Execution, binding: Binding, e: Event, o: Observation)
    requires AdaptObservation(digests, control, x, binding, e) == Some(o)
    ensures o.evidence == VERIFIED && o.completed >= x.kase.window && o.caseRef == x.kase.ref
    ensures o.status == if x.signaled then ALERTED else NO_ALERT
  {
  }

  // The two adapters as functions of their inputs.
  type CaseAdapter = ExecutionInput -> Option<Execution>
  type ObservationAdapter = (Control, Execution, Binding, Event) -> Option<Observation>

  function CasesBy(digests: Digests): CaseAdapter {
    raw => AdaptCase(digests, raw)
  }

  function ObservationsBy(digests: Digests): ObservationAdapter {
    (control, x, binding, e) => AdaptObservation(digests, control, x, binding, e)
  }

  ghost predicate FromCase(adapt: CaseAdapter, scenario: Scenario, k: Case) {
    exists raw: ExecutionInput :: raw.scenario == scenario && MadeFrom(adapt, raw, k)
  }

  predicate MadeFrom(adapt: CaseAdapter, raw: ExecutionInput, k: Case) {
    adapt(raw).Some? && adapt(raw).value.kase == k
  }

  // An observation of some execution of the scenario, not necessarily of the one
  // that is reported.
  ghost predicate FromObservation(adapt: CaseAdapter, observe: ObservationAdapter, scenario: Scenario, o: Observation) {
    exists raw: ExecutionInput, control, binding, e ::
      raw.scenario == scenario && ObservedFrom(adapt, observe, raw, control, binding, e, o)
  }

  predicate ObservedFrom(adapt: CaseAdapter, observe: ObservationAdapter, raw: ExecutionInput, control: Control,
                         binding: Binding, e: Event, o: Observation) {
    adapt(raw).Some? && observe(control, adapt(raw).value, binding, e) == Some(o)
  }

  ghost predicate CasesAdapted(adapt: CaseAdapter, scenario: Scenario, cases: seq<Case>) {
    forall k :: k in cases ==> FromCase(adapt, scenario, k)
  }

  ghost predicate ObservationsAdapted(adapt: CaseAdapter, observe: ObservationAdapter, scenario: Scenario,
                                      observations: seq<Observation>) {
    forall o :: o in observations ==> FromObservation(adapt, observe, scenario, o)
  }

  ghost predicate Adapted(digests: Digests, input: Input) {
    && CasesAdapted(CasesBy(digests), input.scenario, input.cases)
    && ObservationsAdapted(CasesBy(digests), ObservationsBy(digests), input.scenario, input.observations)
  }

  // The facts about a case and an observation that survive normalization.
  ghost predicate VerifiedCase(k: Case) {
    k.evidence == VERIFIED
  }

  ghost predicate VerifiedObservation(cases: seq<ScenarioCase>, o: Observation) {
    && o.evidence == VERIFIED
    && exists sc :: sc in cases && ScenarioKey(sc) == o.caseRef && o.completed >= sc.window
                    && o.status == (if Trim(sc.kind) == ATTACK then ALERTED else NO_ALERT)
  }

  lemma ConstantsNormal()
    ensures Lower(Trim(VERIFIED)) == VERIFIED && Lower(Trim(ALERTED)) == ALERTED && Lower(Trim(NO_ALERT)) == NO_ALERT
  {
    LowerTrimmed(VERIFIED);
    LowerTrimmed(ALERTED);
    LowerTrimmed(NO_ALERT);
  }

  lemma LowerTrimmed(s: string)
    requires forall i :: 0 <= i < |s| ==> 'a' <= s[i] <= 'z' || s[i] == '_'
    ensures Lower(Trim(s)) == s
  {
    TrimTrimmed(s);
    assert Lower(s) == s;
  }

  lemma NormalizedCase(digests: Digests, scenario: Scenario, k: Case)
    requires FromCase(CasesBy(digests), scenario, k)
    ensures VerifiedCase(NormCase(k))
  {
    ConstantsNormal();
    var raw: ExecutionInput :| raw.scenario == scenario && MadeFrom(CasesBy(digests), raw, k);
    var sc := AdaptedCase(digests, raw, AdaptCase(digests, raw).value);
  }

  // The facts that an adapted observation is made with.
  lemma ObservedFacts(digests: Digests, scenario: Scenario, o: Observation) returns (sc: ScenarioCase)
    requires FromObservation(CasesBy(digests), ObservationsBy(digests), scenario, o)
    ensures sc in scenario.cases && ScenarioKey(sc) == o.caseRef && o.completed >= sc.window && o.evidence == VERIFIED
    ensures o.status == if Trim(sc.kind) == ATTACK then ALERTED else NO_ALERT
  {
    var raw: ExecutionInput, control, binding, e :|
      raw.scenario == scenario && ObservedFrom(CasesBy(digests), ObservationsBy(digests), raw, control, binding, e, o);
    var x := AdaptCase(digests, raw).value;
    sc := AdaptedCase(digests, raw, x);
    AdaptedObservation(digests, control, x, binding, e, o);
  }

  lemma NormalizationKeeps(cases: seq<ScenarioCase>, o: Observation, sc: ScenarioCase)
    requires sc in cases && ScenarioKey(sc) == o.caseRef && o.completed >= sc.window && o.evidence == VERIFIED
    requires o.status == if Trim(sc.kind) == ATTACK then ALERTED else NO_ALERT
    ensures VerifiedObservation(cases, NormObservation(o))
  {
    StatusKept(o.status);
    StatusKept(o.evidence);
    TrimTrimmed(sc.ref);
    var m := NormObservation(o);
    assert m.caseRef == o.caseRef && m.status == o.status && m.evidence == o.evidence && m.completed == o.completed;
  }

  lemma StatusKept(s: string)
    requires s == ALERTED || s == NO_ALERT || s == VERIFIED
    ensures Lower(Trim(s)) == s
  {
    ConstantsNormal();
  }

  lemma NormalizedObservation(digests: Digests, scenario: Scenario, o: Observation)
    requires FromObservation(CasesBy(digests), ObservationsBy(digests), scenario, o)
    ensures VerifiedObservation(scenario.cases, NormObservation(o))
  {
    var sc := ObservedFacts(digests, scenario, o);
    NormalizationKeeps(scenario.cases, o, sc);
  }

  lemma AdaptedNormalized(digests: Digests, input: Input)
    requires Adapted(digests, input)
    ensures forall k :: k in Normalized(input).cases ==> VerifiedCase(k)
    ensures forall o :: o in Normalized(input).observations ==> VerifiedObservation(input.scenario.cases, o)
  {
    var n := Normalized(input);
    forall k | k in n.cases ensures VerifiedCase(k) {
      var i :| 0 <= i < |n.cases| && n.cases[i] == k;
      NormalizedCase(digests, input.scenario, input.cases[i]);
    }
    forall o | o in n.observations ensures VerifiedObservation(input.scenario.cases, o) {
      var i :| 0 <= i < |n.observations| && n.observations[i] == o;
      NormalizedObservation(digests, input.scenario, input.observations[i]);
    }
  }

  // ---------- main result ----------

  // What a case of an adapted run is scored, by its evidence alone.
  ghost predicate ScoredAsCaught(e: Evidence, c: Control, sc: ScenarioCase)
    requires Coherent(e) && sc in e.expected
  {
    var (k, o) := (CaseFor(e, c.ref, ScenarioKey(sc)), ObservationFor(e, c.ref, ScenarioKey(sc)));
    var outcome := OutcomeAt(e, c, ScenarioKey(sc));
    if k.None? || o.None? then outcome == Incomplete
    else if sc.kind == BENIGN then outcome == Clean
    else o.value.alertOffset.Some? && sc.latestDetection.Some?
         && outcome == if o.value.alertOffset.value <= sc.latestDetection.value then CaughtInTime else CaughtLate
  }

  lemma AdaptedOutcome(e: Evidence, c: Control, sc: ScenarioCase, cases: seq<ScenarioCase>)
    requires Sound(e) && sc in e.expected && e.expected == set x | x in cases
    requires forall k :: k in e.cases ==> VerifiedCase(k)
    requires forall o :: o in e.observations ==> VerifiedObservation(cases, o)
    ensures ScoredAsCaught(e, c, sc)
  {
    var (k, o) := (CaseFor(e, c.ref, ScenarioKey(sc)), ObservationFor(e, c.ref, ScenarioKey(sc)));
    if k.Some? && o.Some? {
      assert VerifiedCase(k.value) && VerifiedObservation(cases, o.value) && Agrees(k.value, sc) && KnownKind(sc);
      var x :| x in cases && ScenarioKey(x) == o.value.caseRef && o.value.completed >= x.window
        && o.value.status == (if Trim(x.kind) == ATTACK then ALERTED else NO_ALERT);
      assert x in e.expected && x == sc;
      assert ATTACK[0] != BENIGN[0] && ALERTED[0] != NO_ALERT[0];
      ScoreExact(k.value, o.value);
    }
  }

  // A report made from adapted cases and observations of its own scenario never
  // says missed or false positive: a case is incomplete exactly when its execution
  // or its observation is absent, and otherwise an attack is caught, in time or
  // late, and a benign case is clean.
  lemma AdaptedReport(digests: Digests, input: Input, c: Control, sc: ScenarioCase)
    requires Adapted(digests, input) && Accepted(Normalized(input)) && sc in input.scenario.cases
    ensures Sound(EvidenceOf(Normalized(input)))
    ensures ScoredAsCaught(EvidenceOf(Normalized(input)), c, sc)
  {
    AcceptedIsSound(Normalized(input));
    AdaptedNormalized(digests, input);
    AdaptedOutcome(EvidenceOf(Normalized(input)), c, sc, input.scenario.cases);
  }

  lemma AdaptedNeverMissed(digests: Digests, input: Input, control: ControlResult, r: CaseResult)
    requires Adapted(digests, input) && Accepted(Normalized(input))
    requires Coherent(EvidenceOf(Normalized(input)))
    requires control in ReportOf(Normalized(input)).controls && r in control.cases
    ensures r.outcome != Missed && r.outcome != FalsePositive
  {
    var e := EvidenceOf(Normalized(input));
    var c := OnlyControlsListed(e, control);
    var sc := OnlyOutcomesListed(e, c, r);
    AdaptedReport(digests, input, c, sc);
  }

  // ---------- the verdict of such a report ----------

  // The case of the control was executed and observed.
  ghost predicate Seen(e: Evidence, c: Control, sc: ScenarioCase, k: Case, o: Observation) {
    && k in e.cases && k.controlRef == c.ref && k.ref == ScenarioKey(sc)
    && o in e.observations && o.controlRef == c.ref && o.caseRef == ScenarioKey(sc)
  }

  // The control alerted on an attack, but after the deadline.
  predicate LateAlert(sc: ScenarioCase, o: Observation) {
    && sc.kind == ATTACK && o.alertOffset.Some? && sc.latestDetection.Some?
    && o.alertOffset.value > sc.latestDetection.value
  }

  ghost predicate SeenLate(e: Evidence, c: Control, sc: ScenarioCase) {
    exists k, o :: Seen(e, c, sc, k, o) && LateAlert(sc, o)
  }

  ghost predicate SeenInTime(e: Evidence, c: Control, sc: ScenarioCase) {
    exists k, o :: Seen(e, c, sc, k, o) && !LateAlert(sc, o)
  }

  lemma SeenFacts(e: Evidence, c: Control, sc: ScenarioCase, cases: seq<ScenarioCase>, k: Case, o: Observation)
    requires Sound(e) && sc in e.expected && e.expected == set x | x in cases
    requires VerifiedCase(k) && VerifiedObservation(cases, o) && Seen(e, c, sc, k, o)
    ensures Evidenced(e, c, sc, k, o) && (Good(sc, o) <==> !LateAlert(sc, o))
  {
    assert Agrees(k, sc) && KnownKind(sc) && Readable(o) && Scorable(k);
    var x :| x in cases && ScenarioKey(x) == o.caseRef && o.completed >= x.window
      && o.status == (if Trim(x.kind) == ATTACK then ALERTED else NO_ALERT);
    assert x in e.expected && x == sc;
    assert ATTACK[0] != BENIGN[0] && ALERTED[0] != NO_ALERT[0];
  }

  lemma SeenExact(e: Evidence, c: Control, sc: ScenarioCase, cases: seq<ScenarioCase>)
    requires Sound(e) && sc in e.expected && e.expected == set x | x in cases
    requires forall k :: k in e.cases ==> VerifiedCase(k)
    requires forall o :: o in e.observations ==> VerifiedObservation(cases, o)
    ensures (Fails(e, c, sc) <==> SeenLate(e, c, sc)) && (Passes(e, c, sc) <==> SeenInTime(e, c, sc))
  {
    forall k, o | Seen(e, c, sc, k, o) ensures Evidenced(e, c, sc, k, o) && (Good(sc, o) <==> !LateAlert(sc, o)) {
      SeenFacts(e, c, sc, cases, k, o);
    }
    assert forall k, o :: Evidenced(e, c, sc, k, o) ==> Seen(e, c, sc, k, o);
  }

  // A report on adapted evidence fails exactly when some attack was executed and
  // observed with an alert after its deadline, and validates exactly when every case
  // was executed and observed, and every attack with an alert in time.
  lemma AdaptedVerdict(digests: Digests, input: Input)
    requires Adapted(digests, input) && Accepted(Normalized(input))
    ensures Coherent(EvidenceOf(Normalized(input)))
    ensures var (n, e) := (Normalized(input), EvidenceOf(Normalized(input)));
            && (ReportOf(n).verdict == Failed
                <==> exists c, sc :: c in n.controls && sc in n.scenario.cases && SeenLate(e, c, sc))
            && (ReportOf(n).verdict == Validated
                <==> forall c, sc :: c in n.controls && sc in n.scenario.cases ==> SeenInTime(e, c, sc))
  {
    AdaptedNormalized(digests, input);
    VerdictBySight(Normalized(input));
  }

  lemma VerdictBySight(n: Input)
    requires Accepted(n) && forall k :: k in n.cases ==> VerifiedCase(k)
    requires forall o :: o in n.observations ==> VerifiedObservation(n.scenario.cases, o)
    ensures Coherent(EvidenceOf(n))
    ensures ReportOf(n).verdict == Failed
            <==> exists c, sc :: c in n.controls && sc in n.scenario.cases && SeenLate(EvidenceOf(n), c, sc)
    ensures ReportOf(n).verdict == Validated
            <==> forall c, sc :: c in n.controls && sc in n.scenario.cases ==> SeenInTime(EvidenceOf(n), c, sc)
  {
    var e := EvidenceOf(n);
    AcceptedIsSound(n);
    VerdictExact(n);
    forall c, sc | sc in n.scenario.cases
      ensures (Fails(e, c, sc) <==> SeenLate(e, c, sc)) && (Passes(e, c, sc) <==> SeenInTime(e, c, sc))
    {
      SeenExact(e, c, sc, n.scenario.cases);
    }
  }
}
