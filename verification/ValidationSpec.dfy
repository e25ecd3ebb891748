/**
 When a validation input is accepted and what its report says, stated over the
 sets of controls, cases and observations and so independent of their order.
 The main results: the exact meaning of each verdict, and the conservation of
 the outcome counts.
 */
module ValidationSpec {
  import opened Bytes
  import opened JsonCanonical
  import opened Strings
  import opened ValidationModel

  // ---------- acceptance ----------

  ghost predicate CaseBound(n: Input, k: Case) {
    && (exists sc :: sc in n.scenario.cases && ScenarioKey(sc) == k.ref && MatchesScenario(k, sc))
    && (exists c :: c in n.controls && c.ref == k.controlRef && MatchesControl(k, c))
  }

  ghost predicate ObservationBound(n: Input, o: Observation) {
    && (exists c :: c in n.controls && c.ref == o.controlRef && c.collectorRef == o.collectorRef)
    && (exists k :: k in n.cases && k.controlRef == o.controlRef && k.ref == o.caseRef
          && (o.alertOffset.Some? ==> o.alertOffset.value <= k.window))
  }

  ghost predicate ValidMembers(n: Input) {
    && (forall c :: c in n.controls ==> ValidControl(c))
    && DistinctKeys(n.controls, ControlKey)
    && (forall k :: k in n.cases ==> ValidCaseAlone(n, k) && CaseBound(n, k))
    && DistinctKeys(n.cases, CaseKey)
    && (forall o :: o in n.observations ==> ValidObservation(o))
  }

  ghost predicate ValidInput(n: Input) {
    ValidHeader(n) && ValidMembers(n)
  }

  ghost predicate Accepted(n: Input) {
    && ValidInput(n)
    && (forall o :: o in n.observations ==> ObservationBound(n, o))
    && DistinctKeys(n.observations, ObservationKey)
  }

  // ---------- the reference report ----------

  datatype Evidence = Evidence(expected: set<ScenarioCase>, controls: set<Control>, cases: set<Case>,
                               observations: set<Observation>)

  function EvidenceOf(n: Input): Evidence {
    Evidence(set x | x in n.scenario.cases, set x | x in n.controls, set x | x in n.cases, set x | x in n.observations)
  }

  ghost predicate Coherent(e: Evidence) {
    && (forall a, b :: a in e.expected && b in e.expected && ScenarioKey(a) == ScenarioKey(b) ==> a == b)
    && (forall a, b :: a in e.controls && b in e.controls && a.ref == b.ref ==> a == b)
    && (forall a, b :: a in e.cases && b in e.cases && a.controlRef == b.controlRef && a.ref == b.ref ==> a == b)
    && (forall a, b ::
          a in e.observations && b in e.observations && a.controlRef == b.controlRef && a.caseRef == b.caseRef
          ==> a == b)
    && (forall k :: k in e.cases ==> Scorable(k) && k.ref in Refs(e))
    && (forall o :: o in e.observations ==> Readable(o))
  }

  function Refs(e: Evidence): set<string> {
    set c | c in e.expected :: ScenarioKey(c)
  }

  ghost function ExpectedFor(e: Evidence, ref: string): ScenarioCase
    requires ref in Refs(e)
  {
    var c :| c in e.expected && ScenarioKey(c) == ref;
    c
  }

  ghost function CaseFor(e: Evidence, controlRef: string, ref: string): (r: Option<Case>)
    ensures r.Some? ==> r.value in e.cases && r.value.controlRef == controlRef && r.value.ref == ref
    ensures r.None? ==> forall k :: k in e.cases ==> !(k.controlRef == controlRef && k.ref == ref)
  {
    if exists k :: k in e.cases && k.controlRef == controlRef && k.ref == ref then
      var k :| k in e.cases && k.controlRef == controlRef && k.ref == ref;
      Some(k)
    else
      None
  }

  ghost function ObservationFor(e: Evidence, controlRef: string, ref: string): (r: Option<Observation>)
    ensures r.Some? ==> r.value in e.observations && r.value.controlRef == controlRef && r.value.caseRef == ref
    ensures r.None? ==> forall o :: o in e.observations ==> !(o.controlRef == controlRef && o.caseRef == ref)
  {
    if exists o :: o in e.observations && o.controlRef == controlRef && o.caseRef == ref then
      var o :| o in e.observations && o.controlRef == controlRef && o.caseRef == ref;
      Some(o)
    else
      None
  }

  ghost function ResultFor(e: Evidence, control: Control, ref: string): (r: CaseResult)
    requires Coherent(e) && ref in Refs(e)
    ensures r.caseRef == ref
  {
    match CaseFor(e, control.ref, ref)
    case Some(k) => EvaluateCase(control, k, ObservationFor(e, control.ref, ref))
    case None => MissingCase(control, ExpectedFor(e, ref))
  }

  predicate Bad(o: Outcome) {
    o == CaughtLate || o == Missed || o == FalsePositive
  }

  ghost predicate HasBad(results: seq<CaseResult>) {
    exists r :: r in results && Bad(r.outcome)
  }

  ghost predicate HasIncomplete(results: seq<CaseResult>) {
    exists r :: r in results && r.outcome == Incomplete
  }

  ghost function VerdictOf(results: seq<CaseResult>): Verdict {
    if HasBad(results) then Failed else if HasIncomplete(results) then Unfinished else Validated
  }

  ghost function RulesOf(results: seq<CaseResult>): set<Rule> {
    set r, x | r in results && x in r.rules :: x
  }

  function CountsOf(results: seq<CaseResult>): Counts {
    var kinds := multiset(Map(IsAttack, results));
    var outcomes := multiset(Map(OutcomeOf, results));
    Counts(kinds[true], kinds[false], outcomes[CaughtInTime], outcomes[CaughtLate], outcomes[Missed],
           outcomes[FalsePositive], outcomes[Clean], outcomes[Incomplete])
  }

  ghost function Tally(control: Control, results: seq<CaseResult>): ControlResult {
    ControlResult(control, VerdictOf(results), RulesOf(results), CountsOf(results), results)
  }

  // One result per scenario case, in the order of the case references.
  ghost function ControlReport(e: Evidence, control: Control): ControlResult
    requires Coherent(e)
  {
    var refs := Sorted(Refs(e));
    Tally(control, seq(|refs|, i requires 0 <= i < |refs| => InRefs(e, refs, i); ResultFor(e, control, refs[i])))
  }

  lemma InRefs(e: Evidence, refs: seq<string>, i: nat)
    requires refs == Sorted(Refs(e)) && i < |refs|
    ensures refs[i] in Refs(e)
  {
    assert refs[i] in refs;
  }

  ghost function ReportVerdict(controls: seq<ControlResult>): Verdict {
    if exists c :: c in controls && c.verdict == Failed then Failed
    else if exists c :: c in controls && c.verdict == Unfinished then Unfinished
    else Validated
  }

  function ControlRefs(e: Evidence): set<string> {
    set c | c in e.controls :: c.ref
  }

  ghost function ControlFor(e: Evidence, ref: string): (c: Control)
    requires ref in ControlRefs(e)
    ensures c in e.controls && c.ref == ref
  {
    var c :| c in e.controls && c.ref == ref;
    c
  }

  ghost function ControlReports(e: Evidence): seq<ControlResult>
    requires Coherent(e)
  {
    var refs := Sorted(ControlRefs(e));
    seq(|refs|, i requires 0 <= i < |refs| => InControlRefs(e, refs, i); ControlReport(e, ControlFor(e, refs[i])))
  }

  lemma InControlRefs(e: Evidence, refs: seq<string>, i: nat)
    requires refs == Sorted(ControlRefs(e)) && i < |refs|
    ensures refs[i] in ControlRefs(e)
  {
    assert refs[i] in refs;
  }

  ghost function ReportOf(n: Input): Report
    requires Coherent(EvidenceOf(n))
  {
    var controls := ControlReports(EvidenceOf(n));
    Report(n.runRef, n.scenarioRef, n.scenarioVersion, n.contractHash, n.chain, n.chainId, n.ruleset,
           ReportVerdict(controls), controls)
  }

  lemma AcceptedCase(n: Input, k: Case)
    requires Accepted(n) && k in n.cases
    ensures Scorable(k) && k.ref in Refs(EvidenceOf(n))
  {
    assert ValidCaseAlone(n, k) && CaseBound(n, k);
  }

  lemma AcceptedObservation(n: Input, o: Observation)
    requires Accepted(n) && o in n.observations
    ensures Readable(o)
  {
    assert ValidObservation(o);
  }

  lemma SameKeySameElement<T>(s: seq<T>, key: T -> string, a: T, b: T)
    requires DistinctKeys(s, key) && a in s && b in s && key(a) == key(b)
    ensures a == b
  {
  }

  lemma AcceptedIsCoherent(n: Input)
    requires Accepted(n)
    ensures Coherent(EvidenceOf(n))
  {
    var e := EvidenceOf(n);
    forall a, b | a in e.expected && b in e.expected && ScenarioKey(a) == ScenarioKey(b) ensures a == b {
      SameKeySameElement(n.scenario.cases, ScenarioKey, a, b);
    }
    forall a, b | a in e.controls && b in e.controls && a.ref == b.ref ensures a == b {
      SameKeySameElement(n.controls, ControlKey, a, b);
    }
    forall a, b | a in e.cases && b in e.cases && a.controlRef == b.controlRef && a.ref == b.ref ensures a == b {
      SameKeySameElement(n.cases, CaseKey, a, b);
    }
    forall a, b | a in e.observations && b in e.observations && a.controlRef == b.controlRef && a.caseRef == b.caseRef
      ensures a == b
    {
      SameKeySameElement(n.observations, ObservationKey, a, b);
    }
    forall k | k in e.cases ensures Scorable(k) && k.ref in Refs(e) {
      AcceptedCase(n, k);
    }
    forall o | o in e.observations ensures Readable(o) {
      AcceptedObservation(n, o);
    }
  }

  // ---------- order independence ----------

  // The same input with controls, cases and observations in another order.
  predicate Rearranged(x: Input, y: Input) {
    && multiset(x.controls) == multiset(y.controls)
    && multiset(x.cases) == multiset(y.cases)
    && multiset(x.observations) == multiset(y.observations)
    && y == x.(controls := y.controls, cases := y.cases, observations := y.observations)
  }

  lemma RearrangedCase(x: Input, y: Input, k: Case)
    requires Rearranged(x, y) && ValidCaseAlone(x, k) && CaseBound(x, k)
    ensures ValidCaseAlone(y, k) && CaseBound(y, k)
  {
    SameMembers(x.controls, y.controls);
    var sc :| sc in x.scenario.cases && ScenarioKey(sc) == k.ref && MatchesScenario(k, sc);
    assert sc in y.scenario.cases;
    var c :| c in x.controls && c.ref == k.controlRef && MatchesControl(k, c);
    assert c in y.controls;
  }

  lemma RearrangedObservation(x: Input, y: Input, o: Observation)
    requires Rearranged(x, y) && ObservationBound(x, o)
    ensures ObservationBound(y, o)
  {
    SameMembers(x.controls, y.controls);
    SameMembers(x.cases, y.cases);
    var c :| c in x.controls && c.ref == o.controlRef && c.collectorRef == o.collectorRef;
    assert c in y.controls;
    var k :| k in x.cases && k.controlRef == o.controlRef && k.ref == o.caseRef
      && (o.alertOffset.Some? ==> o.alertOffset.value <= k.window);
    assert k in y.cases;
  }

  lemma RearrangedEvidence(x: Input, y: Input)
    requires Rearranged(x, y)
    ensures EvidenceOf(x) == EvidenceOf(y)
  {
    SameMembers(x.controls, y.controls);
    SameMembers(x.cases, y.cases);
    SameMembers(x.observations, y.observations);
  }

  lemma RearrangedInput(x: Input, y: Input)
    requires Rearranged(x, y) && ValidInput(x)
    ensures ValidInput(y)
  {
    SameMembers(x.controls, y.controls);
    SameMembers(x.cases, y.cases);
    SameMembers(x.observations, y.observations);
    DistinctPermutation(x.controls, y.controls, ControlKey);
    DistinctPermutation(x.cases, y.cases, CaseKey);
    RearrangedHeader(x, y);
    forall k | k in y.cases ensures ValidCaseAlone(y, k) && CaseBound(y, k) {
      RearrangedCase(x, y, k);
    }
  }

  lemma RearrangedHeader(x: Input, y: Input)
    requires Rearranged(x, y) && ValidHeader(x)
    ensures ValidHeader(y)
  {
    SameMembers(x.controls, y.controls);
  }

  lemma RearrangedAccepted(x: Input, y: Input)
    requires Rearranged(x, y) && Accepted(x)
    ensures Accepted(y) && EvidenceOf(x) == EvidenceOf(y)
  {
    RearrangedInput(x, y);
    RearrangedEvidence(x, y);
    SameMembers(x.observations, y.observations);
    DistinctPermutation(x.observations, y.observations, ObservationKey);
    forall o | o in y.observations ensures ObservationBound(y, o) {
      RearrangedObservation(x, y, o);
    }
  }

  lemma RearrangedNormalized(x: Input, y: Input)
    requires Rearranged(x, y)
    ensures Rearranged(Normalized(x), Normalized(y))
  {
    MapPermutation(NormControl, x.controls, y.controls);
    MapPermutation(NormCase, x.cases, y.cases);
    MapPermutation(NormObservation, x.observations, y.observations);
  }

  // Rearranging the input changes neither whether it is accepted nor the report.
  lemma OrderIndependent(x: Input, y: Input)
    requires Rearranged(x, y)
    ensures Accepted(Normalized(x)) <==> Accepted(Normalized(y))
    ensures Accepted(Normalized(x)) ==>
              && Coherent(EvidenceOf(Normalized(x))) && Coherent(EvidenceOf(Normalized(y)))
              && ReportOf(Normalized(x)) == ReportOf(Normalized(y))
  {
    RearrangedNormalized(x, y);
    if Accepted(Normalized(x)) {
      RearrangedAccepted(Normalized(x), Normalized(y));
      AcceptedIsCoherent(Normalized(x));
    }
    if Accepted(Normalized(y)) {
      RearrangedAccepted(Normalized(y), Normalized(x));
    }
  }
}
