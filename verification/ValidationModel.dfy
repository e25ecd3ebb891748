/**
 The entities of a defense validation run and the scoring of one case.
 Offsets are milliseconds; a missing optional offset is None.
 */
module ValidationModel {
  import opened Bytes
  import opened JsonCanonical
  import opened Strings

  const RULESET := "koschei-defense-" + "validation-rules-" + "v0.2.0"
  const ATTACK := "attack"
  const BENIGN := "benign"
  const FORK := "fork"
  const SANDBOX := "sandbox"
  const VERIFIED := "verified"
  const OBSERVED := "observed"
  const UNVERIFIED := "unverified"
  const ALERTED := "alerted"
  const NO_ALERT := "no_alert"

  datatype Control = Control(ref: string, adapterVersion: string, configurationHash: string, collectorRef: string,
                             collectorKey: string)

  datatype Case = Case(
    ref: string, kind: string, techniqueId: string, controlRef: string, configurationHash: string,
    scenarioRef: string, scenarioVersion: string, contractHash: string, chain: string, chainId: nat,
    mode: string, executionRef: string, executionHash: string, preStateHash: string, postStateHash: string,
    evidence: string, impact: Option<int>, deadline: Option<int>, window: int, mainnetSent: bool)

  datatype Observation = Observation(
    controlRef: string, collectorRef: string, caseRef: string, status: string, evidenceRef: string,
    evidenceHash: string,
    alertOffset: Option<int>, alertRef: string, alertHash: string, completed: int, evidence: string)

  datatype ScenarioCase = ScenarioCase(
    ref: string, kind: string, description: string, impact: Option<int>, window: int,
    alertRequired: bool, latestDetection: Option<int>, falsePositiveForbidden: bool, matchedValues: map<string, string>)

  // `isSealed` says that the complete parsed contract is attached, unmutated, and
  // that its sections other than the case matrix are valid.
  datatype Scenario = Scenario(
    ref: string, version: string, chain: string, ruleset: string, mode: string,
    matchedFields: seq<string>, cases: seq<ScenarioCase>, isSealed: bool, digest: string)

  datatype Input = Input(
    runRef: string, scenario: Scenario, scenarioRef: string, scenarioVersion: string, contractHash: string,
    chain: string, chainId: nat, ruleset: string,
    controls: seq<Control>, cases: seq<Case>, observations: seq<Observation>)

  datatype Outcome = CaughtInTime | CaughtLate | Missed | FalsePositive | Clean | Incomplete

  datatype Verdict = Validated | Failed | Unfinished

  // DV-R01 to DV-R06.
  datatype Rule =
    VerifiedExecution | IndependentAlert | DetectionDeadline | MissedAttack | BenignControl | CompleteMatrix

  datatype CaseResult = CaseResult(
    controlRef: string, caseRef: string, kind: string, techniqueId: string, mode: string, executionEvidence: string,
    impact: Option<int>, deadline: Option<int>, window: int, observationStatus: string, observationEvidence: string,
    outcome: Outcome, detection: Option<int>, leadTime: Option<int>,
    rules: set<Rule>, evidenceRefs: seq<string>, evidenceHashes: seq<string>, limitations: seq<string>)

  datatype Counts = Counts(
    attackCases: nat, benignCases: nat, caughtInTime: nat, caughtLate: nat, missed: nat, falsePositives: nat,
    clean: nat, incomplete: nat)

  datatype ControlResult = ControlResult(control: Control, verdict: Verdict, rules: set<Rule>, counts: Counts,
                                         cases: seq<CaseResult>)

  datatype Report = Report(
    runRef: string, scenarioRef: string, scenarioVersion: string, contractHash: string, chain: string, chainId: nat,
    ruleset: string, verdict: Verdict, controls: seq<ControlResult>)

  // ---------- keys ----------

  function PairKey(controlRef: string, caseRef: string): string {
    controlRef + [0 as char] + caseRef
  }

  function ControlKey(c: Control): string { c.ref }

  function CaseKey(c: Case): string { PairKey(c.controlRef, c.ref) }

  function ObservationKey(o: Observation): string { PairKey(o.controlRef, o.caseRef) }

  function ScenarioKey(c: ScenarioCase): string { Trim(c.ref) }

  function ResultKey(r: CaseResult): string { r.caseRef }

  function OutcomeOf(r: CaseResult): Outcome { r.outcome }

  function IsAttack(r: CaseResult): bool { r.kind == ATTACK }

  lemma PairKeyInjective(controlRef: string, a: string, b: string)
    requires PairKey(controlRef, a) == PairKey(controlRef, b)
    ensures a == b
  {
    assert PairKey(controlRef, a)[|controlRef| + 1..] == a;
    assert PairKey(controlRef, b)[|controlRef| + 1..] == b;
  }

  // ---------- scoring ----------

  // What scoring needs to find: a deadline on every attack, an offset on every
  // alert, and one of the two statuses.
  predicate Scorable(k: Case) {
    (k.kind == ATTACK || k.kind == BENIGN) && (k.kind == ATTACK ==> k.deadline.Some?)
  }

  predicate Readable(o: Observation) {
    (o.status == ALERTED || o.status == NO_ALERT) && (o.status == ALERTED <==> o.alertOffset.Some?)
  }

  // How far the evidence for a case goes.
  datatype Stage = NoExecution | NoObservation | WeakObservation | OpenWindow | Complete

  function StageOf(k: Case, observation: Option<Observation>): Stage {
    if k.evidence != VERIFIED then NoExecution
    else if observation.None? then NoObservation
    else if observation.value.evidence != VERIFIED then WeakObservation
    else if observation.value.completed < k.window then OpenWindow
    else Complete
  }

  function OutcomeFor(k: Case, observation: Option<Observation>): Outcome
    requires Scorable(k) && (observation.Some? ==> Readable(observation.value))
  {
    if StageOf(k, observation) != Complete then Incomplete
    else if k.kind == BENIGN then (if observation.value.status == ALERTED then FalsePositive else Clean)
    else if observation.value.status == NO_ALERT then Missed
    else if observation.value.alertOffset.value <= k.deadline.value then CaughtInTime
    else CaughtLate
  }

  function RulesFor(stage: Stage, outcome: Outcome): set<Rule> {
    match stage
    case NoExecution => {VerifiedExecution}
    case NoObservation => {CompleteMatrix}
    case WeakObservation => {IndependentAlert}
    case OpenWindow => {CompleteMatrix}
    case Complete =>
      if outcome == FalsePositive then {BenignControl}
      else if outcome == Missed then {MissedAttack}
      else if outcome == CaughtLate then {DetectionDeadline}
      else {}
  }

  function LimitationsFor(stage: Stage): seq<string> {
    match stage
    case NoExecution => ["case execution evidence is not verified"]
    case NoObservation => ["independent control observation is missing"]
    case WeakObservation => ["control observation evidence is not verified"]
    case OpenWindow => ["observation window did not complete"]
    case Complete => []
  }

  // The references and hashes of the evidence that a stage has established.
  function EvidenceRefsFor(k: Case, observation: Option<Observation>): seq<string> {
    var stage := StageOf(k, observation);
    if stage.NoExecution? then []
    else if stage.NoObservation? || stage.WeakObservation? then [k.executionRef]
    else
      var o := observation.value;
      [k.executionRef, o.evidenceRef] + (if stage.Complete? && o.alertRef != "" then [o.alertRef] else [])
  }

  function EvidenceHashesFor(k: Case, observation: Option<Observation>): seq<string> {
    var stage := StageOf(k, observation);
    if stage.NoExecution? then []
    else if stage.NoObservation? || stage.WeakObservation? then [k.executionHash, k.preStateHash, k.postStateHash]
    else
      var o := observation.value;
      [k.executionHash, k.preStateHash, k.postStateHash, o.evidenceHash]
      + (if stage.Complete? && o.alertRef != "" then [o.alertHash] else [])
  }

  // The result of a case, with its evidence as collected.
  function CollectedCase(control: Control, k: Case, observation: Option<Observation>): CaseResult
    requires Scorable(k) && (observation.Some? ==> Readable(observation.value))
  {
    var stage := StageOf(k, observation);
    var outcome := OutcomeFor(k, observation);
    var seen := !stage.NoExecution? && !stage.NoObservation?;
    var alert := if stage.Complete? then observation.value.alertOffset else None;
    CaseResult(
      control.ref, k.ref, k.kind, k.techniqueId, k.mode, k.evidence, k.impact, k.deadline, k.window,
      if seen then observation.value.status else "", if seen then observation.value.evidence else "",
      outcome, alert,
      if alert.Some? && k.kind == ATTACK then Some(k.deadline.value - alert.value) else None,
      RulesFor(stage, outcome), EvidenceRefsFor(k, observation), EvidenceHashesFor(k, observation),
      LimitationsFor(stage))
  }

  function Finalized(r: CaseResult): CaseResult {
    r.(evidenceRefs := SortedUnique(r.evidenceRefs), evidenceHashes := SortedUnique(r.evidenceHashes))
  }

  function EvaluateCase(control: Control, k: Case, observation: Option<Observation>): CaseResult
    requires Scorable(k) && (observation.Some? ==> Readable(observation.value))
  {
    Finalized(CollectedCase(control, k, observation))
  }

  function MissingCase(control: Control, expected: ScenarioCase): CaseResult {
    CaseResult(control.ref, Trim(expected.ref), Trim(expected.kind), "", "", UNVERIFIED,
               expected.impact, expected.latestDetection, expected.window,
               "", "", Incomplete, None, None, {CompleteMatrix}, [], [], ["scenario case execution is missing"])
  }

  // ---------- normalization of the input ----------

  function NormControl(c: Control): Control {
    Control(Trim(c.ref), Trim(c.adapterVersion), Lower(Trim(c.configurationHash)), Trim(c.collectorRef),
            Trim(c.collectorKey))
  }

  function NormCase(c: Case): Case {
    Case(Trim(c.ref), Lower(Trim(c.kind)), Trim(c.techniqueId), Trim(c.controlRef), Lower(Trim(c.configurationHash)),
         Trim(c.scenarioRef), Trim(c.scenarioVersion), Lower(Trim(c.contractHash)), Lower(Trim(c.chain)), c.chainId,
         Lower(Trim(c.mode)), Trim(c.executionRef), Lower(Trim(c.executionHash)), Lower(Trim(c.preStateHash)),
         Lower(Trim(c.postStateHash)), Lower(Trim(c.evidence)), c.impact, c.deadline, c.window, c.mainnetSent)
  }

  function NormObservation(o: Observation): Observation {
    Observation(Trim(o.controlRef), Trim(o.collectorRef), Trim(o.caseRef), Lower(Trim(o.status)), Trim(o.evidenceRef),
                Lower(Trim(o.evidenceHash)), o.alertOffset, Trim(o.alertRef), Lower(Trim(o.alertHash)), o.completed,
                Lower(Trim(o.evidence)))
  }

  // Normalized, in the order of the input.
  function Normalized(input: Input): Input {
    input.(runRef := Trim(input.runRef), scenarioRef := Trim(input.scenarioRef),
           scenarioVersion := Trim(input.scenarioVersion),
           contractHash := Lower(Trim(input.contractHash)), chain := Lower(Trim(input.chain)),
           ruleset := Trim(input.ruleset),
           controls := Map(NormControl, input.controls), cases := Map(NormCase, input.cases),
           observations := Map(NormObservation, input.observations))
  }

  // ---------- validity ----------

  predicate IsHex(c: char) {
    '0' <= c <= '9' || 'a' <= c <= 'f' || 'A' <= c <= 'F'
  }

  predicate ValidHash(value: string) {
    "sha256:" <= value && |value| == 71 && forall i :: 7 <= i < 71 ==> IsHex(value[i])
  }

  // Base64url of 32 bytes without padding: 43 characters, the last of which
  // carries no stray bits.
  predicate ValidCollectorKey(value: string) {
    |value| == 43 && (forall i :: 0 <= i < 43 ==> Base64Url(value[i]).Some?) && Base64Url(value[42]).value % 4 == 0
  }

  function Base64Url(c: char): Option<nat> {
    if 'A' <= c <= 'Z' then Some(c as int - 'A' as int)
    else if 'a' <= c <= 'z' then Some(c as int - 'a' as int + 26)
    else if '0' <= c <= '9' then Some(c as int - '0' as int + 52)
    else if c == '-' then Some(62)
    else if c == '_' then Some(63)
    else None
  }

  predicate ValidEvidence(state: string) {
    state == VERIFIED || state == OBSERVED || state == UNVERIFIED
  }

  predicate ModeMatches(scenarioMode: string, mode: string) {
    var s := Lower(Trim(scenarioMode));
    (mode == FORK && (s == FORK || s == "isolated_pinned_fork"))
      || (mode == SANDBOX && (s == SANDBOX || s == "isolated_sandbox"))
  }

  predicate Within(offset: Option<int>, bound: int) {
    offset.Some? && 0 <= offset.value <= bound
  }

  const WINDOW_FIELD := "observation_window_ms"

  function Decimal(n: nat): string {
    if n < 10 then [(n + '0' as int) as char] else Decimal(n / 10) + [(n % 10 + '0' as int) as char]
  }

  // The canonical text of the value a case gives for a matched field.
  function FieldText(c: ScenarioCase, field: string): Option<string> {
    if field !in c.matchedValues || Trim(c.matchedValues[field]) == "" || Trim(c.matchedValues[field]) == "null"
    then None
    else Canonical(c.matchedValues[field])
  }

  predicate ValidFields(names: seq<string>) {
    names != [] && "" !in names && forall i, j :: 0 <= i < j < |names| ==> names[i] != names[j]
  }

  // The declared fields are exactly the ones given, and the one that repeats the
  // observation window repeats it correctly.
  predicate ValidMatchedValues(c: ScenarioCase, names: seq<string>) {
    && c.matchedValues.Keys == (set f | f in names)
    && (forall f :: f in names ==> FieldText(c, f).Some?)
    && (WINDOW_FIELD in names ==> c.window > 0 && FieldText(c, WINDOW_FIELD) == Some(Decimal(c.window)))
  }

  predicate ValidTiming(c: ScenarioCase) {
    && (c.kind == ATTACK || c.kind == BENIGN)
    && (c.kind == ATTACK ==>
          && Within(c.impact, c.window) && c.alertRequired
          && Within(c.latestDetection, c.window) && c.latestDetection.value <= c.impact.value)
    && (c.kind == BENIGN ==> c.impact.None? && c.latestDetection.None? && !c.alertRequired && c.falsePositiveForbidden)
  }

  predicate ValidScenarioCase(c: ScenarioCase, names: seq<string>) {
    Trim(c.ref) != "" && Trim(c.description) != "" && c.window > 0 && ValidMatchedValues(c, names) && ValidTiming(c)
  }

  predicate SameFields(a: ScenarioCase, b: ScenarioCase, names: seq<string>) {
    forall f :: f in names ==> FieldText(a, f) == FieldText(b, f)
  }

  // An attack and a benign case at least, with distinct references, every two of
  // which give the same value for every matched field.
  predicate ValidMatrix(names: seq<string>, cases: seq<ScenarioCase>) {
    && (forall c :: c in cases ==> ValidScenarioCase(c, names))
    && (forall a, b :: a in cases && b in cases ==> SameFields(a, b, names))
    && DistinctKeys(cases, ScenarioKey)
    && (exists c :: c in cases && c.kind == ATTACK)
    && (exists c :: c in cases && c.kind == BENIGN)
  }

  predicate ValidScenarioCases(fields: seq<string>, cases: seq<ScenarioCase>) {
    ValidFields(Map(Trim, fields)) && ValidMatrix(Map(Trim, fields), cases)
  }

  predicate ValidIdentity(n: Input) {
    && n.runRef != "" && n.scenarioRef != "" && n.scenarioVersion != "" && n.chain != ""
    && n.ruleset == RULESET && ValidHash(n.contractHash) && n.scenario.isSealed
    && n.scenarioRef == Trim(n.scenario.ref) && n.scenarioVersion == Trim(n.scenario.version)
    && n.chain == Lower(Trim(n.scenario.chain)) && n.ruleset == Trim(n.scenario.ruleset)
    && Lower(n.contractHash) == Lower(n.scenario.digest)
    && n.controls != []
  }

  predicate ValidHeader(n: Input) {
    ValidIdentity(n) && ValidScenarioCases(n.scenario.matchedFields, n.scenario.cases)
  }

  predicate ValidControl(c: Control) {
    && c.ref != "" && c.adapterVersion != "" && c.collectorRef != "" && ValidHash(c.configurationHash)
    && ValidCollectorKey(c.collectorKey) && c.ref != c.collectorRef
  }

  predicate MatchesScenario(k: Case, expected: ScenarioCase) {
    && k.kind == Trim(expected.kind) && k.window == expected.window
    && k.impact == expected.impact && k.deadline == expected.latestDetection
  }

  predicate MatchesControl(k: Case, control: Control) {
    ValidHash(k.configurationHash) && Lower(k.configurationHash) == Lower(control.configurationHash)
  }

  // The checks on a case that look at nothing but the case and the header.
  predicate ValidCaseAlone(n: Input, k: Case) {
    && k.ref != "" && k.techniqueId != "" && k.executionRef != ""
    && (k.kind == ATTACK || k.kind == BENIGN)
    && k.scenarioRef == n.scenarioRef && k.scenarioVersion == n.scenarioVersion
    && ValidHash(k.contractHash) && Lower(k.contractHash) == Lower(n.contractHash)
    && (k.chain == "" <==> k.chainId == 0)
    && (k.chain != "" ==> k.chain == n.chain && k.chainId == n.chainId)
    && (k.mode == FORK || k.mode == SANDBOX) && ModeMatches(n.scenario.mode, k.mode)
    && ValidEvidence(k.evidence)
    && ValidHash(k.executionHash) && ValidHash(k.preStateHash) && ValidHash(k.postStateHash)
    && k.window > 0 && !k.mainnetSent
    && (k.kind == ATTACK ==>
          && Within(k.impact, k.window) && Within(k.deadline, k.window) && k.deadline.value <= k.impact.value)
    && (k.kind == BENIGN ==> k.impact.None? && k.deadline.None?)
  }

  predicate ValidObservation(o: Observation) {
    && o.controlRef != "" && o.collectorRef != "" && o.caseRef != "" && o.evidenceRef != ""
    && ValidHash(o.evidenceHash) && ValidEvidence(o.evidence)
    && (o.status == ALERTED || o.status == NO_ALERT) && o.completed >= 0
    && (o.status == ALERTED ==> Within(o.alertOffset, o.completed) && o.alertRef != "" && ValidHash(o.alertHash))
    && (o.status == NO_ALERT ==> o.alertOffset.None? && o.alertRef == "" && o.alertHash == "")
  }
}
