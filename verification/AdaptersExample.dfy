/**
 A run whose cases and observations are adapted from evidence: it is accepted for
 every alert inside the observation window, validated when the alert is in time, and
 failed when it is late.
 */
module AdaptersExample {
  import opened Adapters
  import opened Bytes
  import opened Strings
  import opened ValidationExample
  import opened ValidationModel
  import opened ValidationSpec
  import opened ValidationVerdicts

  function ExampleDigests(): Digests {
    Digests(_ => HASH, _ => HASH, _ => HASH, (e: Event, producer, key) => e.signature == producer + key)
  }

  predicate OfScenario(sc: ScenarioCase) {
    sc == ATTACK_CASE || sc == BENIGN_CASE
  }

  function ArtifactsOf(attack: bool): Artifacts {
    var candidate := if attack then "b" else "a";
    Artifacts(true, true, true, true, true, true, map[FIELD := FIELD_TEXT], SINGLE_DIFFERENCE,
              "a", candidate, "a", candidate, "a", candidate,
              if attack then Contain else Release, if attack then [IntentMismatch] else [],
              if attack then Block else Allow, if attack then [PayloadMismatch] else [],
              HASH, HASH, 1, HASH, HASH)
  }

  function Executing(sc: ScenarioCase): ExecutionInput {
    ExecutionInput(sc.ref, sc.kind, "t", FORK, sc.impact, sc.window, false, CONTROL, SCENARIO, true,
                   ArtifactsOf(sc.kind == ATTACK))
  }

  function ExecutionOf(sc: ScenarioCase): Execution {
    Execution(Executed(sc), HASH, HASH, sc.kind == ATTACK)
  }

  // ---------- the texts are normal ----------

  lemma HashKept()
    ensures Trim(HASH) == HASH && Lower(HASH) == HASH && HashRef(HASH) == HASH
  {
    HashValid();
    assert HASH[0] == 's' && HASH[70] == '0';
    TrimTrimmed(HASH);
    assert forall i :: 0 <= i < 7 ==> HASH[i] == "sha256:"[i] && LowerRune(HASH[i]) == HASH[i];
    assert forall i :: 7 <= i < 71 ==> HASH[i] == '0';
  }

  lemma KindsKept(sc: ScenarioCase)
    requires OfScenario(sc)
    ensures Trim(sc.kind) == sc.kind && Lower(sc.kind) == sc.kind && Trim(sc.ref) == sc.ref && Lower(sc.ref) == sc.ref
    ensures (sc.kind == ATTACK <==> sc == ATTACK_CASE) && (sc.kind == BENIGN <==> sc == BENIGN_CASE)
  {
    LetterKept('a');
    LetterKept('b');
    KindKept(sc.kind);
    assert ATTACK[0] != BENIGN[0];
  }

  lemma KindKept(kind: string)
    requires kind == ATTACK || kind == BENIGN
    ensures Trim(kind) == kind && Lower(kind) == kind
  {
    KindTrimmed(kind);
    LowerTrimmed(kind);
  }

  lemma ControlKept()
    ensures NormControl(CONTROL) == CONTROL
  {
    HashKept();
    LetterKept('k');
    LetterKept('o');
    VersionKept();
    assert KEY[0] == 'A' && KEY[42] == 'A';
    TrimTrimmed(KEY);
  }

  lemma VersionKept()
    ensures Trim(ADAPTER_VERSION) == ADAPTER_VERSION
  {
    assert ADAPTER_VERSION[0] == 'k' && ADAPTER_VERSION[|ADAPTER_VERSION| - 1] == "v0.2.0"[5];
    TrimTrimmed(ADAPTER_VERSION);
  }

  // ---------- the executions ----------

  lemma ExecutingNormal(sc: ScenarioCase)
    requires OfScenario(sc)
    ensures Normal(Executing(sc)) == Executing(sc)
  {
    KindsKept(sc);
    LetterKept('t');
    ForkKept();
  }

  lemma ControlBound()
    ensures BindControl(ExampleDigests(), CONTROL) == Some(CONTROL)
  {
    ControlKept();
    ControlValid();
  }

  lemma ExecutingTimed(sc: ScenarioCase)
    requires OfScenario(sc)
    ensures WellTimed(Executing(sc))
  {
    KindsKept(sc);
  }

  lemma ExecutingVerified(sc: ScenarioCase)
    requires OfScenario(sc)
    ensures ArtifactsVerified(Executing(sc))
  {
    Matrix();
    ForkKept();
  }

  lemma ExecutingBound(sc: ScenarioCase)
    requires OfScenario(sc)
    ensures BoundCase(Executing(sc)) == Some(sc)
  {
    EvidenceFits(sc);
    CaseNamed(sc);
  }

  lemma CaseNamed(sc: ScenarioCase)
    requires OfScenario(sc)
    ensures NamedCases(SCENARIO.cases, sc.ref) == [sc]
  {
    LetterKept('a');
    LetterKept('b');
    var cases := SCENARIO.cases;
    assert cases[..1] == [ATTACK_CASE] && cases[..1][..0] == [];
    assert "a"[0] != "b"[0];
    assert NamedCases(cases[..1], sc.ref) == if sc == ATTACK_CASE then [ATTACK_CASE] else [];
  }

  lemma EvidenceFits(sc: ScenarioCase)
    requires OfScenario(sc)
    ensures MatchesEvidence(Executing(sc), sc)
  {
    KindsKept(sc);
    FieldsValid();
    FieldTextValid();
  }

  lemma ExecutingSignals(sc: ScenarioCase)
    requires OfScenario(sc)
    ensures Semantics(Executing(sc)) == Some(sc.kind == ATTACK)
  {
    KindsKept(sc);
    DifferenceKept();
    ArtifactsShow(true);
    ArtifactsShow(false);
  }

  lemma ArtifactsShow(attack: bool)
    ensures attack ==> AttackShown(ArtifactsOf(attack))
    ensures !attack ==> BenignShown(ArtifactsOf(attack))
  {
    LetterKept('a');
    LetterKept('b');
    assert "a"[0] != "b"[0];
  }

  lemma DifferenceKept()
    ensures Trim(SINGLE_DIFFERENCE) == SINGLE_DIFFERENCE
  {
    assert SINGLE_DIFFERENCE[0] == 'a' && SINGLE_DIFFERENCE[|SINGLE_DIFFERENCE| - 1] == "identity"[7];
    TrimTrimmed(SINGLE_DIFFERENCE);
  }

  lemma CaseMade(sc: ScenarioCase)
    requires OfScenario(sc)
    ensures CaseFrom(ExampleDigests(), Executing(sc), CONTROL, sc) == Executed(sc)
  {
    HashKept();
    LetterKept('s');
    LetterKept('v');
    LetterKept('c');
  }

  lemma ExecutionAdapted(sc: ScenarioCase)
    requires OfScenario(sc)
    ensures AdaptCase(ExampleDigests(), Executing(sc)) == Some(ExecutionOf(sc))
  {
    ExecutingNormal(sc);
    ControlBound();
    ExecutingTimed(sc);
    ExecutingVerified(sc);
    ExecutingBound(sc);
    ExecutingSignals(sc);
    CaseMade(sc);
    HashKept();
  }

  // ---------- the observations ----------

  // An alert inside the window on the attack, none on the benign case.
  predicate Alerting(sc: ScenarioCase, alert: Option<int>) {
    (sc == ATTACK_CASE && Within(alert, 20)) || (sc == BENIGN_CASE && alert.None?)
  }

  function BindingOf(sc: ScenarioCase, alert: Option<int>): Binding {
    Binding(BINDING_VERSION, "c", "k", sc.ref, if alert.Some? then ALERTED else NO_ALERT, HASH, alert, 20)
  }

  function EventOf(sc: ScenarioCase): Event {
    Event("o" + KEY, "o", "c", SUBJECT_TYPE, sc.ref, 0, 20, [HASH],
          [Finding(FindingId("k", sc.ref), FINDING_KIND, true, HASH)], HASH)
  }

  lemma BindingVersionKept()
    ensures Trim(BINDING_VERSION) == BINDING_VERSION && BINDING_VERSION != ""
  {
    assert BINDING_VERSION[0] == 'k' && BINDING_VERSION[|BINDING_VERSION| - 1] == "v0.2.0"[5];
    TrimTrimmed(BINDING_VERSION);
  }

  lemma StatusTrimmed(alert: Option<int>)
    ensures var status := if alert.Some? then ALERTED else NO_ALERT; Trim(status) == status
  {
    TrimTrimmed(ALERTED);
    TrimTrimmed(NO_ALERT);
  }

  lemma TrimmedKept(b: Binding)
    requires Trim(b.version) == b.version && b.version != "" && Lower(Trim(b.chain)) == b.chain
    requires Trim(b.controlRef) == b.controlRef && Trim(b.caseRef) == b.caseRef && Trim(b.status) == b.status
    requires Lower(Trim(b.executionHash)) == b.executionHash
    ensures NormalBinding(b) == b
  {
  }

  lemma BindingNormal(sc: ScenarioCase, alert: Option<int>)
    requires OfScenario(sc)
    ensures NormalBinding(BindingOf(sc, alert)) == BindingOf(sc, alert)
  {
    KindsKept(sc);
    HashKept();
    LetterKept('c');
    LetterKept('k');
    StatusTrimmed(alert);
    BindingVersionKept();
    TrimmedKept(BindingOf(sc, alert));
  }

  lemma BindingFits(sc: ScenarioCase, alert: Option<int>)
    requires OfScenario(sc) && Alerting(sc, alert)
    ensures MatchesExecution(CONTROL, ExecutionOf(sc), BindingOf(sc, alert)) && CompleteBinding(BindingOf(sc, alert))
  {
    KindsKept(sc);
    HashValid();
    assert ALERTED[0] != NO_ALERT[0];
  }

  lemma OneConfirmed(sc: ScenarioCase)
    ensures OneFinding(EventOf(sc).findings, FindingId("k", sc.ref), HASH)
  {
    var findings := EventOf(sc).findings;
    assert findings[..0] == [];
  }

  lemma EventConfirms(sc: ScenarioCase, alert: Option<int>)
    requires OfScenario(sc)
    ensures EventFits(ExampleDigests(), CONTROL, ExecutionOf(sc), BindingOf(sc, alert), EventOf(sc))
  {
    OneConfirmed(sc);
    HashKept();
    assert EventOf(sc).sourceDigests[0] == HASH;
  }

  lemma ObservationMade(sc: ScenarioCase, alert: Option<int>)
    requires OfScenario(sc)
    ensures ObservationFrom(CONTROL, ExecutionOf(sc), BindingOf(sc, alert), EventOf(sc), HASH) == Observed(sc, alert)
  {
    HashKept();
    assert ALERTED[0] != NO_ALERT[0];
  }

  lemma ObservationAdapted(sc: ScenarioCase, alert: Option<int>)
    requires OfScenario(sc) && Alerting(sc, alert)
    ensures AdaptObservation(ExampleDigests(), CONTROL, ExecutionOf(sc), BindingOf(sc, alert), EventOf(sc))
            == Some(Observed(sc, alert))
  {
    ControlBound();
    BindingNormal(sc, alert);
    BindingFits(sc, alert);
    EventConfirms(sc, alert);
    ObservationMade(sc, alert);
  }

  // ---------- the run ----------

  lemma CaseFromEvidence(sc: ScenarioCase)
    requires OfScenario(sc)
    ensures FromCase(CasesBy(ExampleDigests()), SCENARIO, Executed(sc))
  {
    ExecutionAdapted(sc);
    assert MadeFrom(CasesBy(ExampleDigests()), Executing(sc), Executed(sc));
  }

  lemma ObservationFromEvidence(sc: ScenarioCase, alert: Option<int>)
    requires OfScenario(sc) && Alerting(sc, alert)
    ensures FromObservation(CasesBy(ExampleDigests()), ObservationsBy(ExampleDigests()), SCENARIO, Observed(sc, alert))
  {
    ExecutionAdapted(sc);
    ObservationAdapted(sc, alert);
    assert ObservedFrom(CasesBy(ExampleDigests()), ObservationsBy(ExampleDigests()), Executing(sc), CONTROL,
                        BindingOf(sc, alert), EventOf(sc), Observed(sc, alert));
  }

  lemma TwoCases(adapt: CaseAdapter, scenario: Scenario, j: Case, k: Case)
    requires FromCase(adapt, scenario, j) && FromCase(adapt, scenario, k)
    ensures CasesAdapted(adapt, scenario, [j, k])
  {
  }

  lemma TwoObservations(adapt: CaseAdapter, observe: ObservationAdapter, scenario: Scenario, o: Observation,
                        p: Observation)
    requires FromObservation(adapt, observe, scenario, o) && FromObservation(adapt, observe, scenario, p)
    ensures ObservationsAdapted(adapt, observe, scenario, [o, p])
  {
  }

  lemma CasesFromEvidence(adapt: CaseAdapter)
    requires adapt == CasesBy(ExampleDigests())
    ensures CasesAdapted(adapt, SCENARIO, [Executed(ATTACK_CASE), Executed(BENIGN_CASE)])
  {
    CaseFromEvidence(ATTACK_CASE);
    CaseFromEvidence(BENIGN_CASE);
    TwoCases(adapt, SCENARIO, Executed(ATTACK_CASE), Executed(BENIGN_CASE));
  }

  lemma ObservationsFromEvidence(adapt: CaseAdapter, observe: ObservationAdapter, offset: int)
    requires adapt == CasesBy(ExampleDigests()) && observe == ObservationsBy(ExampleDigests()) && 0 <= offset <= 20
    ensures ObservationsAdapted(adapt, observe, SCENARIO, BothObserved(Some(offset)))
  {
    ObservationFromEvidence(ATTACK_CASE, Some(offset));
    ObservationFromEvidence(BENIGN_CASE, None);
    TwoObservations(adapt, observe, SCENARIO, Observed(ATTACK_CASE, Some(offset)), Observed(BENIGN_CASE, None));
  }

  lemma RunAdapted(offset: int)
    requires 0 <= offset <= 20
    ensures Adapted(ExampleDigests(), Run(BothObserved(Some(offset))))
  {
    CasesFromEvidence(CasesBy(ExampleDigests()));
    ObservationsFromEvidence(CasesBy(ExampleDigests()), ObservationsBy(ExampleDigests()), offset);
  }

  lemma CaseKept(sc: ScenarioCase)
    requires OfScenario(sc)
    ensures NormCase(Executed(sc)) == Executed(sc)
  {
    KindsKept(sc);
    HashKept();
    LetterKept('t');
    LetterKept('k');
    LetterKept('s');
    LetterKept('v');
    LetterKept('c');
    ForkKept();
    ConstantsNormal();
    ReferenceKept("defense-execution:", HASH);
  }

  lemma ObservationKept(sc: ScenarioCase, alert: Option<int>)
    requires OfScenario(sc)
    ensures NormObservation(Observed(sc, alert)) == Observed(sc, alert)
  {
    KindsKept(sc);
    HashKept();
    LetterKept('k');
    LetterKept('o');
    ConstantsNormal();
    ReferenceKept("security-evidence:event:", HASH);
    FindingKept(sc.ref[0]);
    TrimTrimmed("");
  }

  lemma FindingKept(c: char)
    requires 'a' <= c <= 'z'
    ensures var reference := "security-evidence:finding:" + FindingId("k", [c]); Trim(reference) == reference
  {
    LetterKept(c);
    var id := FindingId("k", [c]);
    assert id[|id| - 1] == c;
    ReferenceKept("security-evidence:finding:", id);
  }

  lemma ControlsKept()
    ensures Map(NormControl, [CONTROL]) == [CONTROL]
  {
    ControlKept();
  }

  lemma CasesKept()
    ensures Map(NormCase, [Executed(ATTACK_CASE), Executed(BENIGN_CASE)])
            == [Executed(ATTACK_CASE), Executed(BENIGN_CASE)]
  {
    CaseKept(ATTACK_CASE);
    CaseKept(BENIGN_CASE);
    PairKept(NormCase, Executed(ATTACK_CASE), Executed(BENIGN_CASE));
  }

  lemma ObservationsKept(alert: Option<int>)
    ensures Map(NormObservation, BothObserved(alert)) == BothObserved(alert)
  {
    ObservationKept(ATTACK_CASE, alert);
    ObservationKept(BENIGN_CASE, None);
    PairKept(NormObservation, Observed(ATTACK_CASE, alert), Observed(BENIGN_CASE, None));
  }

  lemma RunNormalized(alert: Option<int>)
    ensures Normalized(Run(BothObserved(alert))) == Run(BothObserved(alert))
  {
    ControlsKept();
    CasesKept();
    ObservationsKept(alert);
    HeaderKept(BothObserved(alert));
  }

  lemma HeaderKept(observations: seq<Observation>)
    ensures var input := Run(observations);
            && Trim(input.runRef) == input.runRef && Trim(input.scenarioRef) == input.scenarioRef
            && Trim(input.scenarioVersion) == input.scenarioVersion && Lower(Trim(input.chain)) == input.chain
            && Lower(Trim(input.contractHash)) == input.contractHash && Trim(input.ruleset) == input.ruleset
  {
    HashKept();
    LetterKept('r');
    LetterKept('s');
    LetterKept('v');
    LetterKept('c');
    RulesetKept();
  }

  lemma RulesetKept()
    ensures Trim(RULESET) == RULESET
  {
    assert RULESET[0] == 'k' && RULESET[|RULESET| - 1] == "v0.2.0"[5];
    TrimTrimmed(RULESET);
  }

  lemma PairKept<T>(f: T -> T, a: T, b: T)
    requires f(a) == a && f(b) == b
    ensures Map(f, [a, b]) == [a, b]
  {
  }

  // ---------- main result ----------

  // Adapted evidence is accepted, and its verdict hangs on the alert's offset alone:
  // five milliseconds are the deadline, twenty the window.
  lemma AdaptedIsAccepted(offset: int)
    requires 0 <= offset <= 20
    ensures Adapted(ExampleDigests(), Run(BothObserved(Some(offset))))
    ensures Accepted(Normalized(Run(BothObserved(Some(offset)))))
    ensures Coherent(EvidenceOf(Normalized(Run(BothObserved(Some(offset))))))
    ensures ReportOf(Normalized(Run(BothObserved(Some(offset))))).verdict == if offset <= 5 then Validated else Failed
  {
    RunNormalized(Some(offset));
    RunAdapted(offset);
    RunAccepted(Some(offset));
    if offset <= 5 {
      InTimeIsValidated(offset);
    } else {
      LateIsFailed(offset);
    }
  }

  lemma LateIsFailed(offset: int)
    requires 5 < offset <= 20
    ensures Accepted(Run(BothObserved(Some(offset)))) && Coherent(EvidenceOf(Run(BothObserved(Some(offset)))))
    ensures ReportOf(Run(BothObserved(Some(offset)))).verdict == Failed
  {
    RunNormalized(Some(offset));
    RunAdapted(offset);
    RunAccepted(Some(offset));
    AdaptedVerdict(ExampleDigests(), Run(BothObserved(Some(offset))));
    LateSeen(offset);
  }

  lemma LateSeen(offset: int)
    requires 5 < offset <= 20
    ensures var n := Run(BothObserved(Some(offset)));
            CONTROL in n.controls && ATTACK_CASE in n.scenario.cases && SeenLate(EvidenceOf(n), CONTROL, ATTACK_CASE)
  {
    var n := Run(BothObserved(Some(offset)));
    AttackEvidenced(Some(offset));
    assert n.controls[0] == CONTROL && n.scenario.cases[0] == ATTACK_CASE;
    assert Seen(EvidenceOf(n), CONTROL, ATTACK_CASE, Executed(ATTACK_CASE), Observed(ATTACK_CASE, Some(offset)));
  }

  // A text that neither starts nor ends with a space.
  lemma ReferenceKept(start: string, end: string)
    requires start != "" && !IsSpaceRune(start[0]) && end != "" && !IsSpaceRune(end[|end| - 1])
    ensures Trim(start + end) == start + end
  {
    TrimTrimmed(start + end);
  }
}
