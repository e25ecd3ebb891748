/**
 A request that the service answers, for every alert inside the observation window:
 validated when the alert is in time, failed when it is late.
 */
module ServiceExample {
  import opened Adapters
  import opened AdaptersExample
  import opened Bytes
  import opened Strings
  import opened ValidationExample
  import opened ValidationModel
  import opened ValidationService
  import opened ValidationSpec

  const REGISTRY: map<string, string> := map["o" := KEY]

  function RawOf(sc: ScenarioCase, alert: Option<int>): RawCase {
    RawCase("k", true, Executing(sc), Some(BindingOf(sc, alert)), Some(EventOf(sc)))
  }

  function RequestOf(offset: int): Request {
    Request("r", Some(SCENARIO), [RawControl("k", "o", KEY)],
            [RawOf(ATTACK_CASE, Some(offset)), RawOf(BENIGN_CASE, None)])
  }

  function ServedOf(sc: ScenarioCase, alert: Option<int>): Served {
    Served(ValidationExample.Executed(sc), Some(Observed(sc, alert)))
  }

  function AllOf(offset: int): seq<Served> {
    [ServedOf(ATTACK_CASE, Some(offset)), ServedOf(BENIGN_CASE, None)]
  }

  lemma KeyKept()
    ensures Trim(KEY) == KEY
  {
    assert KEY[0] == 'A' && KEY[42] == 'A';
    TrimTrimmed(KEY);
  }

  lemma OneRegistered(registry: map<string, string>, raw: RawControl)
    requires Trim(raw.collectorRef) in registry
    requires registry[Trim(raw.collectorRef)] == Trim(raw.collectorKey)
    ensures Registered(registry, [raw])
  {
  }

  lemma RequestAdmissible(offset: int)
    ensures Admissible(REGISTRY, RequestOf(offset))
  {
    LetterKept('o');
    LetterKept('r');
    KeyKept();
    OneRegistered(REGISTRY, RawControl("k", "o", KEY));
  }

  lemma OneControlMade(digests: Digests, raw: RawControl, control: Control)
    requires NewControl(digests, raw) == Some(control)
    ensures ControlsMade(digests, [raw], [control])
  {
  }

  lemma ControlMade(offset: int)
    ensures ControlsMade(ExampleDigests(), RequestOf(offset).controls, [CONTROL])
  {
    LetterKept('k');
    LetterKept('o');
    KeyKept();
    ControlValid();
    OneControlMade(ExampleDigests(), RawControl("k", "o", KEY), CONTROL);
  }

  lemma EvidenceGiven(sc: ScenarioCase, alert: Option<int>)
    requires OfScenario(sc)
    ensures Given(SCENARIO, CONTROL, RawOf(sc, alert)) == Executing(sc)
  {
    ExecutingNormal(sc);
  }

  lemma BothAdapted(digests: Digests, scenario: Scenario, control: Control, raw: RawCase, x: Execution, o: Observation)
    requires raw.actionsDecoded && raw.binding.Some? && raw.event.Some?
    requires AdaptCase(digests, Given(scenario, control, raw)) == Some(x)
    requires AdaptObservation(digests, control, x, raw.binding.value, raw.event.value) == Some(o)
    ensures ServeCase(digests, scenario, control, raw) == Some(Served(x.kase, Some(o)))
  {
  }

  lemma ServedByOne(digests: Digests, scenario: Scenario, control: Control, raw: RawCase, s: Served)
    requires control.ref == Trim(raw.controlRef) && ServeCase(digests, scenario, control, raw) == Some(s)
    ensures IsServed(digests, scenario, [control], raw, s)
  {
    assert [control][0] == control;
    assert ServedWith(digests, scenario, [control], raw, s, control);
  }

  lemma CaseServed(sc: ScenarioCase, alert: Option<int>)
    requires OfScenario(sc) && Alerting(sc, alert)
    ensures IsServed(ExampleDigests(), SCENARIO, [CONTROL], RawOf(sc, alert), ServedOf(sc, alert))
  {
    EvidenceGiven(sc, alert);
    ExecutionAdapted(sc);
    ObservationAdapted(sc, alert);
    LetterKept('k');
    BothAdapted(ExampleDigests(), SCENARIO, CONTROL, RawOf(sc, alert), ExecutionOf(sc), Observed(sc, alert));
    ServedByOne(ExampleDigests(), SCENARIO, CONTROL, RawOf(sc, alert), ServedOf(sc, alert));
  }

  lemma TwoServed(digests: Digests, scenario: Scenario, controls: seq<Control>, a: RawCase, b: RawCase, s: Served,
                  t: Served)
    requires IsServed(digests, scenario, controls, a, s) && IsServed(digests, scenario, controls, b, t)
    ensures AllServed(digests, scenario, controls, [a, b], [s, t])
  {
    var (raws, all) := ([a, b], [s, t]);
    forall i | 0 <= i < 2 ensures IsServed(digests, scenario, controls, raws[i], all[i]) {
      assert i == 0 || i == 1;
    }
  }

  lemma SameChain(s: Served, t: Served)
    requires s.kase.chainId == t.kase.chainId
    ensures OneChain([s, t])
  {
  }

  lemma RequestServed(offset: int)
    requires 0 <= offset <= 20
    ensures AllServed(ExampleDigests(), SCENARIO, [CONTROL], RequestOf(offset).cases, AllOf(offset))
    ensures OneChain(AllOf(offset))
  {
    CaseServed(ATTACK_CASE, Some(offset));
    CaseServed(BENIGN_CASE, None);
    TwoServed(ExampleDigests(), SCENARIO, [CONTROL], RawOf(ATTACK_CASE, Some(offset)), RawOf(BENIGN_CASE, None),
              ServedOf(ATTACK_CASE, Some(offset)), ServedOf(BENIGN_CASE, None));
    SameChain(ServedOf(ATTACK_CASE, Some(offset)), ServedOf(BENIGN_CASE, None));
  }

  lemma RequestAmounts(offset: int)
    requires 0 <= offset <= 20
    ensures AmountsTo(ExampleDigests(), REGISTRY, RequestOf(offset), [CONTROL], AllOf(offset))
  {
    RequestAdmissible(offset);
    ControlMade(offset);
    RequestServed(offset);
  }

  lemma TwoObserved(s: Served, t: Served)
    requires s.observation.Some? && t.observation.Some?
    ensures Map(CaseOf, [s, t]) == [s.kase, t.kase]
    ensures ObservationsOf([s, t]) == [s.observation.value, t.observation.value]
  {
    assert [s, t][..1] == [s] && [s][..0] == [];
    assert ObservationsOf([s]) == [s.observation.value];
  }

  lemma RequestIsRun(offset: int)
    ensures RunOf(RequestOf(offset), [CONTROL], AllOf(offset)) == Run(BothObserved(Some(offset)))
  {
    LetterKept('r');
    TwoObserved(ServedOf(ATTACK_CASE, Some(offset)), ServedOf(BENIGN_CASE, None));
  }

  // The request is not refused, and its verdict hangs on the alert's offset alone.
  lemma RequestAnswered(offset: int) returns (response: Response)
    requires 0 <= offset <= 20
    ensures Answers(ExampleDigests(), REGISTRY, RequestOf(offset), response, [CONTROL], AllOf(offset))
    ensures !Refused(ExampleDigests(), REGISTRY, RequestOf(offset))
    ensures response.report.verdict == if offset <= 5 then Validated else Failed
  {
    RequestAmounts(offset);
    RequestIsRun(offset);
    AdaptedIsAccepted(offset);
    var n := Normalized(Run(BothObserved(Some(offset))));
    var all := AllOf(offset);
    response := Response(HASH, |all|, |ObservationsOf(all)|, ReportOf(n));
  }
}
