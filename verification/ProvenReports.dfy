/**
 Provenance lifted to the report: behind every case result that is not incomplete
 stand an attested execution and an authentic event of the report's own control.
 */
module ProvenReports {
  import opened Adapters
  import opened Bytes
  import opened Provenance
  import opened Strings
  import opened ValidationModel
  import opened ValidationReasons
  import opened ValidationSpec
  import opened ValidationVerdicts

  // The case is made from evidence under a control of the run and its scenario.
  predicate OwnCase(digests: Digests, input: Input, raw: ExecutionInput, k: Case) {
    && raw.control in input.controls && raw.scenario == input.scenario
    && AdaptCase(digests, raw).Some? && AdaptCase(digests, raw).value.kase == k
  }

  // The observation is made under the same control, of an execution in the run.
  predicate OwnObservation(digests: Digests, input: Input, raw: ExecutionInput, binding: Binding, e: Event,
                           o: Observation) {
    && raw.control in input.controls && raw.scenario == input.scenario
    && AdaptCase(digests, raw).Some? && AdaptCase(digests, raw).value.kase in input.cases
    && AdaptObservation(digests, raw.control, AdaptCase(digests, raw).value, binding, e) == Some(o)
  }

  ghost predicate HasOwnCase(digests: Digests, input: Input, k: Case) {
    exists raw :: OwnCase(digests, input, raw, k)
  }

  ghost predicate HasOwnObservation(digests: Digests, input: Input, o: Observation) {
    exists raw, binding, e :: OwnObservation(digests, input, raw, binding, e, o)
  }

  // Cases and observations are all adapted with the controls of the run.
  ghost predicate OwnRun(digests: Digests, input: Input) {
    && (forall k :: k in input.cases ==> HasOwnCase(digests, input, k))
    && (forall o :: o in input.observations ==> HasOwnObservation(digests, input, o))
  }

  // What stands behind a result of the control's entry in the report.
  ghost predicate Backed(digests: Digests, c: Control, r: CaseResult, raw: ExecutionInput, x: Execution,
                         sc: ScenarioCase, o: Observation, b: Binding, e: Event) {
    && NormControl(raw.control) == c
    && Attested(digests, raw, x, sc) && Vouches(digests, c, x, o, b, e)
    && Cites(c, x.kase, o, e, digests.binding(b)) && Consistent(x, o)
    && x.kase.ref == r.caseRef && x.kase.kind == r.kind && x.kase.controlRef == r.controlRef
    && r.detection == o.alertOffset
  }

  // ---------- from the normalized evidence back to the input ----------

  lemma Origin<T>(f: T -> T, s: seq<T>, y: T) returns (x: T)
    requires y in Map(f, s)
    ensures x in s && f(x) == y
  {
    var i :| 0 <= i < |s| && Map(f, s)[i] == y;
    x := s[i];
  }

  lemma Image<T>(f: T -> T, s: seq<T>, x: T)
    requires x in s
    ensures f(x) in Map(f, s)
  {
    var i :| 0 <= i < |s| && s[i] == x;
    assert Map(f, s)[i] == f(x);
  }

  // The observation's adapter inputs, with all that they stand for.
  lemma OwnFacts(digests: Digests, input: Input, o: Observation)
    returns (raw: ExecutionInput, x: Execution, sc: ScenarioCase, b: Binding, e: Event)
    requires HasOwnObservation(digests, input, o)
    ensures raw.control in input.controls && raw.scenario == input.scenario && x.kase in input.cases
    ensures Attested(digests, raw, x, sc) && Observes(digests, NormControl(raw.control), x, o, b, e)
  {
    var binding: Binding;
    raw, binding, e :| OwnObservation(digests, input, raw, binding, e, o);
    x := AdaptCase(digests, raw).value;
    b := NormalBinding(binding);
    sc := AdaptedIsAttested(digests, raw, x);
    ObservationExactly(digests, raw.control, x, binding, e, o);
  }

  lemma KindNormal(kind: string)
    requires kind == ATTACK || kind == BENIGN
    ensures Lower(Trim(kind)) == kind
  {
    LowerTrimmed(kind);
  }

  // Both keys of an adapted observation are trimmed already.
  lemma KeysKept(digests: Digests, c: Control, raw: ExecutionInput, x: Execution, sc: ScenarioCase, o: Observation,
                 b: Binding, e: Event)
    requires c == NormControl(raw.control)
    requires Attested(digests, raw, x, sc) && Observes(digests, c, x, o, b, e)
    ensures NormObservation(o).controlRef == c.ref && NormObservation(o).caseRef == x.kase.ref
    ensures NormObservation(o).alertOffset == o.alertOffset
    ensures NormCase(x.kase).controlRef == c.ref && NormCase(x.kase).ref == x.kase.ref
    ensures NormCase(x.kase).kind == x.kase.kind
  {
    TrimTrimmed(raw.control.ref);
    TrimTrimmed(raw.ref);
    KindNormal(x.kase.kind);
  }

  // The evidence that a judged result of a control was scored by.
  lemma JudgedBy(e: Evidence, c: Control, r: CaseResult) returns (k: Case, o: Observation)
    requires Sound(e) && r in ControlReport(e, c).cases && r.outcome != Incomplete
    ensures k in e.cases && k.controlRef == c.ref && k.ref == r.caseRef
    ensures o in e.observations && o.controlRef == c.ref && o.caseRef == r.caseRef
    ensures r.kind == k.kind && r.controlRef == c.ref && r.detection == o.alertOffset
  {
    var sc := OnlyOutcomesListed(e, c, r);
    k, o := EvidenceOfOutcome(e, c, sc);
    assert Reported(e, c, sc, r);
    assert Agrees(k, sc);
    DetailsExact(e, c, sc, r);
    TimingExact(e, c, sc, r);
    assert TimedBy(r, sc, o);
  }

  lemma SameControlOfRun(n: Input, c: Control, d: Control)
    requires Accepted(n) && c in n.controls && d in n.controls && c.ref == d.ref
    ensures c == d
  {
    SameKeySameElement(n.controls, ControlKey, c, d);
  }

  lemma SameCaseOfRun(n: Input, j: Case, k: Case)
    requires Accepted(n) && j in n.cases && k in n.cases && j.controlRef == k.controlRef && j.ref == k.ref
    ensures j == k
  {
    SameKeySameElement(n.cases, CaseKey, j, k);
  }

  // References determine the control and the case of an accepted run.
  lemma OneOfRun(input: Input, c: Control, control: Control, k: Case, kase: Case)
    requires Accepted(Normalized(input)) && c in Normalized(input).controls && k in Normalized(input).cases
    requires control in input.controls && NormControl(control).ref == c.ref
    requires kase in input.cases && NormCase(kase).controlRef == k.controlRef && NormCase(kase).ref == k.ref
    ensures NormControl(control) == c && NormCase(kase) == k
  {
    Image(NormControl, input.controls, control);
    SameControlOfRun(Normalized(input), c, NormControl(control));
    Image(NormCase, input.cases, kase);
    SameCaseOfRun(Normalized(input), NormCase(kase), k);
  }

  // The observation of the input is the one that was scored, and its execution is
  // the one that was reported.
  lemma Matched(digests: Digests, input: Input, c: Control, k: Case, o: Observation, r: CaseResult)
    returns (raw: ExecutionInput, x: Execution, sc: ScenarioCase, given: Observation, b: Binding, e: Event)
    requires OwnRun(digests, input) && Accepted(Normalized(input)) && c in Normalized(input).controls
    requires k in Normalized(input).cases && k.controlRef == c.ref && k.ref == r.caseRef
    requires o in Normalized(input).observations && o.controlRef == c.ref && o.caseRef == r.caseRef
    requires r.kind == k.kind && r.controlRef == c.ref && r.detection == o.alertOffset
    ensures raw.control in input.controls && raw.scenario == input.scenario && given in input.observations
    ensures Backed(digests, c, r, raw, x, sc, given, b, e)
  {
    given := Origin(NormObservation, input.observations, o);
    raw, x, sc, b, e := OwnFacts(digests, input, given);
    KeysKept(digests, NormControl(raw.control), raw, x, sc, given, b, e);
    OneOfRun(input, c, raw.control, k, x.kase);
  }

  // Behind every result of an accepted run of its own that is not incomplete stand
  // an attested execution and an event that vouches for it under the collector key
  // of the control that the report names.
  lemma ResultBacked(digests: Digests, input: Input, entry: ControlResult, r: CaseResult)
    returns (raw: ExecutionInput, x: Execution, sc: ScenarioCase, o: Observation, b: Binding, e: Event)
    requires OwnRun(digests, input) && Accepted(Normalized(input)) && Coherent(EvidenceOf(Normalized(input)))
    requires entry in ReportOf(Normalized(input)).controls && r in entry.cases && r.outcome != Incomplete
    ensures raw.control in input.controls && raw.scenario == input.scenario && o in input.observations
    ensures Backed(digests, entry.control, r, raw, x, sc, o, b, e)
  {
    var evidence := EvidenceOf(Normalized(input));
    AcceptedIsSound(Normalized(input));
    var c := OnlyControlsListed(evidence, entry);
    var k, seen := JudgedBy(evidence, c, r);
    raw, x, sc, o, b, e := Matched(digests, input, c, k, seen, r);
  }

  // Such a run is adapted in the wider sense too, so its report is never missed and
  // never a false positive.
  lemma OwnIsAdapted(digests: Digests, input: Input)
    requires OwnRun(digests, input)
    ensures Adapted(digests, input)
  {
    forall k | k in input.cases ensures FromCase(CasesBy(digests), input.scenario, k) {
      var raw :| OwnCase(digests, input, raw, k);
      assert MadeFrom(CasesBy(digests), raw, k);
    }
    forall o | o in input.observations
      ensures FromObservation(CasesBy(digests), ObservationsBy(digests), input.scenario, o)
    {
      var raw, binding, e :| OwnObservation(digests, input, raw, binding, e, o);
      assert ObservedFrom(CasesBy(digests), ObservationsBy(digests), raw, raw.control, binding, e, o);
    }
  }
}
