/**
 The service in front of the evaluator: it checks the collectors against a registry
 of trusted keys, adapts every case and observation with the run's own controls, and
 evaluates the result.  What it reports is backed by events that are authentic under
 registered keys.
 */
module ValidationService {
  import opened Adapters
  import opened Bytes
  import opened ProvenReports
  import opened Strings
  import opened ValidationEvaluator
  import opened ValidationModel
  import opened ValidationRun
  import opened ValidationSpec

  const MAX_CONTROLS := 8
  const MAX_CASES := 64

  datatype RawControl = RawControl(ref: string, collectorRef: string, collectorKey: string)

  // The evidence of a case; its control and scenario are set by the service.
  datatype RawCase = RawCase(controlRef: string, actionsDecoded: bool, evidence: ExecutionInput,
                             binding: Option<Binding>, event: Option<Event>)

  // The scenario is None when its contract is rejected.
  datatype Request = Request(runRef: string, scenario: Option<Scenario>, controls: seq<RawControl>,
                             cases: seq<RawCase>)

  datatype Response = Response(contractHash: string, verifiedExecutions: nat, verifiedObservations: nat,
                               report: Report)

  // ---------- what is made of a request ----------

  function NewControl(digests: Digests, raw: RawControl): Option<Control> {
    var (ref, collector, key) := (Trim(raw.ref), Trim(raw.collectorRef), Trim(raw.collectorKey));
    if ref == "" || collector == "" || ref == collector || !ValidCollectorKey(key) then None
    else Some(Control(ref, ADAPTER_VERSION, digests.configuration(key), collector, key))
  }

  // Every control names a registered collector with the key registered for it.
  predicate Registered(registry: map<string, string>, raws: seq<RawControl>) {
    && registry != map[]
    && forall i :: 0 <= i < |raws| ==>
         && Trim(raws[i].collectorRef) in registry
         && Trim(raws[i].collectorKey) == registry[Trim(raws[i].collectorRef)]
  }

  predicate ControlsMade(digests: Digests, raws: seq<RawControl>, controls: seq<Control>) {
    && |controls| == |raws| && DistinctKeys(controls, ControlKey)
    && forall i :: 0 <= i < |raws| ==> NewControl(digests, raws[i]) == Some(controls[i])
  }

  // The evidence as the service hands it to the adapter.
  function Given(scenario: Scenario, control: Control, raw: RawCase): ExecutionInput {
    raw.evidence.(ref := Trim(raw.evidence.ref), kind := Trim(raw.evidence.kind),
                  techniqueId := Trim(raw.evidence.techniqueId), mode := Trim(raw.evidence.mode),
                  mainnetSent := false, control := control, scenario := scenario)
  }

  datatype Served = Served(kase: Case, observation: Option<Observation>)

  function ServeCase(digests: Digests, scenario: Scenario, control: Control, raw: RawCase): Option<Served> {
    var x := AdaptCase(digests, Given(scenario, control, raw));
    if !raw.actionsDecoded || x.None? || raw.binding.Some? != raw.event.Some? then None
    else if raw.binding.None? then Some(Served(x.value.kase, None))
    else
      var o := AdaptObservation(digests, control, x.value, raw.binding.value, raw.event.value);
      if o.None? then None else Some(Served(x.value.kase, o))
  }

  // The case is served with the control of the request that it names.
  predicate ServedWith(digests: Digests, scenario: Scenario, controls: seq<Control>, raw: RawCase, s: Served,
                       control: Control) {
    control in controls && control.ref == Trim(raw.controlRef)
    && ServeCase(digests, scenario, control, raw) == Some(s)
  }

  ghost predicate IsServed(digests: Digests, scenario: Scenario, controls: seq<Control>, raw: RawCase, s: Served) {
    exists control :: ServedWith(digests, scenario, controls, raw, s, control)
  }

  ghost predicate AllServed(digests: Digests, scenario: Scenario, controls: seq<Control>, raws: seq<RawCase>,
                            all: seq<Served>) {
    |all| == |raws| && forall i :: 0 <= i < |raws| ==> IsServed(digests, scenario, controls, raws[i], all[i])
  }

  // Once a case names a chain, all later cases name the same.
  predicate OneChain(all: seq<Served>) {
    forall i, j :: 0 <= i < j < |all| ==> all[i].kase.chainId != 0 ==> all[j].kase.chainId == all[i].kase.chainId
  }

  function LastChain(all: seq<Served>): nat {
    if all == [] then 0 else all[|all| - 1].kase.chainId
  }

  function CaseOf(s: Served): Case { s.kase }

  function ObservationsOf(all: seq<Served>): seq<Observation> {
    if all == [] then [] else
      var last := all[|all| - 1];
      ObservationsOf(all[..|all| - 1]) + (if last.observation.Some? then [last.observation.value] else [])
  }

  predicate Admissible(registry: map<string, string>, q: Request) {
    && Registered(registry, q.controls) && Trim(q.runRef) != "" && q.scenario.Some?
    && 0 < |q.controls| <= MAX_CONTROLS && |q.cases| <= MAX_CASES
  }

  function RunOf(q: Request, controls: seq<Control>, all: seq<Served>): Input
    requires q.scenario.Some?
  {
    var s := q.scenario.value;
    Input(Trim(q.runRef), s, s.ref, s.version, s.digest, s.chain, LastChain(all), RULESET, controls,
          Map(CaseOf, all), ObservationsOf(all))
  }

  // The input that a request amounts to, if the service gets so far as to have one.
  ghost predicate AmountsTo(digests: Digests, registry: map<string, string>, q: Request, controls: seq<Control>,
                            all: seq<Served>) {
    && Admissible(registry, q) && ControlsMade(digests, q.controls, controls)
    && AllServed(digests, q.scenario.value, controls, q.cases, all) && OneChain(all)
  }

  // ---------- the service ----------

  method CheckTrust(registry: map<string, string>, raws: seq<RawControl>) returns (ok: bool)
    ensures ok <==> Registered(registry, raws)
  {
    if |registry| == 0 {
      return false;
    }
    for i := 0 to |raws|
      invariant forall j :: 0 <= j < i ==>
                  && Trim(raws[j].collectorRef) in registry
                  && Trim(raws[j].collectorKey) == registry[Trim(raws[j].collectorRef)]
    {
      var collector := Trim(raws[i].collectorRef);
      if collector !in registry || Trim(raws[i].collectorKey) != registry[collector] {
        return false;
      }
    }
    return true;
  }

  // The controls in order and by reference; fails at the first that is invalid or
  // repeats a reference.
  method MakeControls(digests: Digests, raws: seq<RawControl>)
    returns (r: Option<seq<Control>>, byRef: map<string, Control>)
    ensures r.Some? ==> ControlsMade(digests, raws, r.value) && Indexed(byRef, r.value, ControlKey)
    ensures r.None? ==> forall controls: seq<Control> :: !ControlsMade(digests, raws, controls)
  {
    var controls: seq<Control> := [];
    byRef := map[];
    for i := 0 to |raws|
      invariant ControlsMade(digests, raws[..i], controls) && Indexed(byRef, controls, ControlKey)
    {
      var control := NewControl(digests, raws[i]);
      if control.None? || control.value.ref in byRef {
        NoControls(digests, raws, i, controls, byRef);
        return None, byRef;
      }
      IndexNext(byRef, controls, ControlKey, control.value);
      controls := controls + [control.value];
      byRef := byRef[control.value.ref := control.value];
      PrefixNext(raws, i);
    }
    assert raws[..|raws|] == raws;
    return Some(controls), byRef;
  }

  lemma NoControls(digests: Digests, raws: seq<RawControl>, i: nat, controls: seq<Control>,
                   byRef: map<string, Control>)
    requires i < |raws| && ControlsMade(digests, raws[..i], controls) && Indexed(byRef, controls, ControlKey)
    requires var control := NewControl(digests, raws[i]); control.None? || control.value.ref in byRef
    ensures forall others: seq<Control> :: !ControlsMade(digests, raws, others)
  {
    forall others ensures !ControlsMade(digests, raws, others) {
      if ControlsMade(digests, raws, others) {
        SameControls(digests, raws, i, controls, others);
        RepeatedKey(others, ControlKey, i, byRef);
      }
    }
  }

  lemma SameControls(digests: Digests, raws: seq<RawControl>, i: nat, controls: seq<Control>, others: seq<Control>)
    requires i < |raws| && ControlsMade(digests, raws[..i], controls) && ControlsMade(digests, raws, others)
    ensures others[..i] == controls && NewControl(digests, raws[i]) == Some(others[i])
  {
    forall j | 0 <= j < i ensures others[j] == controls[j] {
      assert raws[..i][j] == raws[j];
    }
  }

  method Adapt(digests: Digests, scenario: Scenario, control: Control, raw: RawCase) returns (r: Option<Served>)
    ensures r == ServeCase(digests, scenario, control, raw)
  {
    if !raw.actionsDecoded {
      return None;
    }
    var x := AdaptExecutionIntegrityCase(digests, Given(scenario, control, raw));
    if x.None? {
      return None;
    }
    var (hasBinding, hasEvent) := (raw.binding.Some?, raw.event.Some?);
    if hasBinding != hasEvent {
      return None;
    }
    if !hasBinding {
      return Some(Served(x.value.kase, None));
    }
    var o := AdaptSecurityEvidenceObservation(digests, control, x.value, raw.binding.value, raw.event.value);
    if o.None? {
      return None;
    }
    return Some(Served(x.value.kase, o));
  }

  // A case is served with the one control that it names.
  lemma ServedByName(digests: Digests, scenario: Scenario, controls: seq<Control>, byRef: map<string, Control>,
                     raw: RawCase, s: Served)
    requires Indexed(byRef, controls, ControlKey)
    ensures IsServed(digests, scenario, controls, raw, s) <==>
              && Trim(raw.controlRef) in byRef
              && ServeCase(digests, scenario, byRef[Trim(raw.controlRef)], raw) == Some(s)
  {
    var ref := Trim(raw.controlRef);
    if control :| ServedWith(digests, scenario, controls, raw, s, control) {
      assert byRef[ControlKey(control)] == control;
    }
    if ref in byRef && ServeCase(digests, scenario, byRef[ref], raw) == Some(s) {
      assert ControlKey(byRef[ref]) == ref;
      assert ServedWith(digests, scenario, controls, raw, s, byRef[ref]);
    }
  }

  lemma NotServed(digests: Digests, scenario: Scenario, controls: seq<Control>, byRef: map<string, Control>,
                  raws: seq<RawCase>, i: nat)
    requires Indexed(byRef, controls, ControlKey) && i < |raws|
    requires var ref := Trim(raws[i].controlRef);
             ref !in byRef || ServeCase(digests, scenario, byRef[ref], raws[i]).None?
    ensures forall others :: !AllServed(digests, scenario, controls, raws, others)
  {
    forall others ensures !AllServed(digests, scenario, controls, raws, others) {
      if |others| == |raws| {
        ServedByName(digests, scenario, controls, byRef, raws[i], others[i]);
      }
    }
  }

  lemma NextServed(digests: Digests, scenario: Scenario, controls: seq<Control>, byRef: map<string, Control>,
                   raws: seq<RawCase>, i: nat, all: seq<Served>, s: Served)
    requires Indexed(byRef, controls, ControlKey) && i < |raws|
    requires AllServed(digests, scenario, controls, raws[..i], all)
    requires var ref := Trim(raws[i].controlRef);
             ref in byRef && ServeCase(digests, scenario, byRef[ref], raws[i]) == Some(s)
    ensures AllServed(digests, scenario, controls, raws[..i + 1], all + [s])
  {
    ServedByName(digests, scenario, controls, byRef, raws[i], s);
    forall j | 0 <= j < i + 1 ensures IsServed(digests, scenario, controls, raws[..i + 1][j], (all + [s])[j]) {
      if j < i {
        assert raws[..i][j] == raws[j];
      }
    }
  }

  // The cases before a place are served in one way only.
  lemma SameServed(digests: Digests, scenario: Scenario, controls: seq<Control>, byRef: map<string, Control>,
                   raws: seq<RawCase>, i: nat, all: seq<Served>, others: seq<Served>)
    requires Indexed(byRef, controls, ControlKey) && i <= |raws|
    requires AllServed(digests, scenario, controls, raws[..i], all)
    requires AllServed(digests, scenario, controls, raws, others)
    ensures others[..i] == all
  {
    forall j | 0 <= j < i ensures others[j] == all[j] {
      assert raws[..i][j] == raws[j];
      ServedByName(digests, scenario, controls, byRef, raws[j], others[j]);
      ServedByName(digests, scenario, controls, byRef, raws[j], all[j]);
    }
  }

  lemma ChainBroken(all: seq<Served>, s: Served, others: seq<Served>)
    requires |all| < |others| && others[..|all| + 1] == all + [s]
    requires LastChain(all) != 0 && LastChain(all) != s.kase.chainId
    ensures !OneChain(others)
  {
    var i := |all|;
    assert others[i - 1] == (all + [s])[i - 1] && others[i] == (all + [s])[i];
  }

  lemma OtherChain(digests: Digests, scenario: Scenario, controls: seq<Control>, byRef: map<string, Control>,
                   raws: seq<RawCase>, i: nat, all: seq<Served>, s: Served)
    requires Indexed(byRef, controls, ControlKey) && i < |raws|
    requires AllServed(digests, scenario, controls, raws[..i + 1], all + [s]) && |all| == i
    requires LastChain(all) != 0 && LastChain(all) != s.kase.chainId
    ensures forall others :: AllServed(digests, scenario, controls, raws, others) ==> !OneChain(others)
  {
    forall others | AllServed(digests, scenario, controls, raws, others) ensures !OneChain(others) {
      SameServed(digests, scenario, controls, byRef, raws, i + 1, all + [s], others);
      ChainBroken(all, s, others);
    }
  }

  lemma OneMoreServed(all: seq<Served>, s: Served)
    requires OneChain(all) && (LastChain(all) == 0 || LastChain(all) == s.kase.chainId)
    ensures OneChain(all + [s]) && LastChain(all + [s]) == s.kase.chainId
    ensures Map(CaseOf, all + [s]) == Map(CaseOf, all) + [s.kase]
    ensures ObservationsOf(all + [s])
            == ObservationsOf(all) + (if s.observation.Some? then [s.observation.value] else [])
  {
    assert (all + [s])[..|all|] == all;
  }

  // The cases and observations in order; fails at the first case that is refused or
  // names another chain than those before it.
  method AdaptAll(digests: Digests, scenario: Scenario, controls: seq<Control>, byRef: map<string, Control>,
                  raws: seq<RawCase>)
    returns (ok: bool, cases: seq<Case>, observations: seq<Observation>, chainId: nat, ghost all: seq<Served>)
    requires Indexed(byRef, controls, ControlKey)
    ensures ok ==> AllServed(digests, scenario, controls, raws, all) && OneChain(all)
    ensures ok ==> cases == Map(CaseOf, all) && observations == ObservationsOf(all) && chainId == LastChain(all)
    ensures !ok ==> forall others: seq<Served> ::
                      !(AllServed(digests, scenario, controls, raws, others) && OneChain(others))
  {
    ok, cases, observations, chainId, all := false, [], [], 0, [];
    for i := 0 to |raws|
      invariant AllServed(digests, scenario, controls, raws[..i], all) && OneChain(all)
      invariant cases == Map(CaseOf, all) && observations == ObservationsOf(all) && chainId == LastChain(all)
    {
      var ref := Trim(raws[i].controlRef);
      if ref !in byRef {
        NotServed(digests, scenario, controls, byRef, raws, i);
        return;
      }
      var s := Adapt(digests, scenario, byRef[ref], raws[i]);
      if s.None? {
        NotServed(digests, scenario, controls, byRef, raws, i);
        return;
      }
      NextServed(digests, scenario, controls, byRef, raws, i, all, s.value);
      if chainId != 0 && chainId != s.value.kase.chainId {
        OtherChain(digests, scenario, controls, byRef, raws, i, all, s.value);
        return;
      }
      chainId := s.value.kase.chainId;
      cases := cases + [s.value.kase];
      if s.value.observation.Some? {
        observations := observations + [s.value.observation.value];
      }
      OneMoreServed(all, s.value);
      all := all + [s.value];
    }
    assert raws[..|raws|] == raws;
    ok := true;
  }

  // The report on what the request amounts to, when that is an accepted input.
  ghost predicate Reports(q: Request, controls: seq<Control>, all: seq<Served>, response: Response)
    requires q.scenario.Some?
  {
    var n := Normalized(RunOf(q, controls, all));
    && Accepted(n) && Coherent(EvidenceOf(n)) && response.report == ReportOf(n)
    && response.contractHash == q.scenario.value.digest
    && response.verifiedExecutions == |all| && response.verifiedObservations == |ObservationsOf(all)|
  }

  ghost predicate Answers(digests: Digests, registry: map<string, string>, q: Request, response: Response,
                          controls: seq<Control>, all: seq<Served>) {
    AmountsTo(digests, registry, q, controls, all) && Reports(q, controls, all, response)
  }

  // Whatever the request amounts to is not accepted.
  ghost predicate Refused(digests: Digests, registry: map<string, string>, q: Request) {
    forall controls, all ::
      AmountsTo(digests, registry, q, controls, all) ==> !Accepted(Normalized(RunOf(q, controls, all)))
  }

  method Respond(q: Request, controls: seq<Control>, cases: seq<Case>, observations: seq<Observation>, chainId: nat,
                 ghost all: seq<Served>)
    returns (r: Option<Response>)
    requires q.scenario.Some?
    requires cases == Map(CaseOf, all) && observations == ObservationsOf(all) && chainId == LastChain(all)
    ensures r.Some? <==> Accepted(Normalized(RunOf(q, controls, all)))
    ensures r.Some? ==> Reports(q, controls, all, r.value)
  {
    var s := q.scenario.value;
    var report := Evaluate(Input(Trim(q.runRef), s, s.ref, s.version, s.digest, s.chain, chainId, RULESET, controls,
                                 cases, observations));
    if report.None? {
      return None;
    }
    return Some(Response(s.digest, |cases|, |observations|, report.value));
  }

  // A request is answered exactly when it amounts to an accepted input, and then
  // with the report on that input.
  method Serve(digests: Digests, registry: map<string, string>, q: Request)
    returns (r: Option<Response>, ghost controls: seq<Control>, ghost all: seq<Served>)
    ensures r.Some? ==> Answers(digests, registry, q, r.value, controls, all)
    ensures r.None? ==> Refused(digests, registry, q)
  {
    r, controls, all := None, [], [];
    var trusted := CheckTrust(registry, q.controls);
    if !trusted || Trim(q.runRef) == "" || q.scenario.None? || |q.controls| == 0 || |q.controls| > MAX_CONTROLS
       || |q.cases| > MAX_CASES {
      assert !Admissible(registry, q);
      return;
    }
    var made, byRef := MakeControls(digests, q.controls);
    if made.None? {
      return;
    }
    controls := made.value;
    var ok, cases, observations, chainId;
    ok, cases, observations, chainId, all := AdaptAll(digests, q.scenario.value, made.value, byRef, q.cases);
    if !ok {
      UnservedRefused(digests, registry, q, controls);
      return;
    }
    r := Respond(q, made.value, cases, observations, chainId, all);
    if r.None? {
      OneAmount(digests, registry, q, controls, byRef, all);
    }
  }

  lemma UnservedRefused(digests: Digests, registry: map<string, string>, q: Request, controls: seq<Control>)
    requires q.scenario.Some? && ControlsMade(digests, q.controls, controls)
    requires forall all ::
               !(AllServed(digests, q.scenario.value, controls, q.cases, all) && OneChain(all))
    ensures Refused(digests, registry, q)
  {
    forall cs, all ensures !AmountsTo(digests, registry, q, cs, all) {
      if AmountsTo(digests, registry, q, cs, all) {
        OnlyControls(digests, q.controls, controls, cs);
      }
    }
  }

  // A request amounts to one input at most.
  lemma OneAmount(digests: Digests, registry: map<string, string>, q: Request, controls: seq<Control>,
                  byRef: map<string, Control>, all: seq<Served>)
    requires AmountsTo(digests, registry, q, controls, all) && Indexed(byRef, controls, ControlKey)
    ensures forall cs, ss :: AmountsTo(digests, registry, q, cs, ss) ==> cs == controls && ss == all
  {
    forall cs, ss | AmountsTo(digests, registry, q, cs, ss) ensures cs == controls && ss == all {
      OnlyControls(digests, q.controls, controls, cs);
      assert q.cases[..|q.cases|] == q.cases && ss[..|q.cases|] == ss;
      SameServed(digests, q.scenario.value, controls, byRef, q.cases, |q.cases|, all, ss);
    }
  }

  lemma OnlyControls(digests: Digests, raws: seq<RawControl>, a: seq<Control>, b: seq<Control>)
    requires ControlsMade(digests, raws, a) && ControlsMade(digests, raws, b)
    ensures a == b
  {
  }

  // ---------- what stands behind a response ----------

  lemma CaseOwned(digests: Digests, input: Input, control: Control, raw: RawCase, s: Served)
    requires control in input.controls && ServeCase(digests, input.scenario, control, raw) == Some(s)
    requires s.kase in input.cases
    ensures HasOwnCase(digests, input, s.kase)
    ensures s.observation.Some? ==> HasOwnObservation(digests, input, s.observation.value)
  {
    var given := Given(input.scenario, control, raw);
    assert OwnCase(digests, input, given, s.kase);
    if s.observation.Some? {
      assert OwnObservation(digests, input, given, raw.binding.value, raw.event.value, s.observation.value);
    }
  }

  lemma {:induction false} ObservationServed(all: seq<Served>, o: Observation) returns (i: nat)
    requires o in ObservationsOf(all)
    ensures i < |all| && all[i].observation == Some(o)
    decreases |all|
  {
    var last := |all| - 1;
    if all[last].observation == Some(o) {
      i := last;
    } else {
      i := ObservationServed(all[..last], o);
    }
  }

  lemma ServedOwned(digests: Digests, q: Request, controls: seq<Control>, all: seq<Served>, i: nat)
    requires q.scenario.Some? && AllServed(digests, q.scenario.value, controls, q.cases, all) && i < |all|
    ensures HasOwnCase(digests, RunOf(q, controls, all), all[i].kase)
    ensures all[i].observation.Some? ==> HasOwnObservation(digests, RunOf(q, controls, all), all[i].observation.value)
  {
    var input := RunOf(q, controls, all);
    assert IsServed(digests, q.scenario.value, controls, q.cases[i], all[i]);
    var control :| ServedWith(digests, q.scenario.value, controls, q.cases[i], all[i], control);
    assert Map(CaseOf, all)[i] == all[i].kase;
    CaseOwned(digests, input, control, q.cases[i], all[i]);
  }

  // All that the service evaluates is adapted with the controls of the request.
  lemma ServedIsOwn(digests: Digests, q: Request, controls: seq<Control>, all: seq<Served>)
    requires q.scenario.Some? && AllServed(digests, q.scenario.value, controls, q.cases, all)
    ensures OwnRun(digests, RunOf(q, controls, all))
  {
    var input := RunOf(q, controls, all);
    forall k | k in input.cases ensures HasOwnCase(digests, input, k) {
      var i :| 0 <= i < |all| && input.cases[i] == k;
      ServedOwned(digests, q, controls, all, i);
    }
    forall o | o in input.observations ensures HasOwnObservation(digests, input, o) {
      var i := ObservationServed(all, o);
      ServedOwned(digests, q, controls, all, i);
    }
  }

  // The key of a control in a served run is the one registered for its collector.
  lemma KeyRegistered(digests: Digests, registry: map<string, string>, raws: seq<RawControl>, controls: seq<Control>,
                      c: Control)
    requires Registered(registry, raws) && ControlsMade(digests, raws, controls) && c in controls
    ensures NormControl(c).collectorRef in registry
    ensures NormControl(c).collectorKey == registry[NormControl(c).collectorRef]
  {
    var i :| 0 <= i < |controls| && controls[i] == c;
    TrimTrimmed(raws[i].collectorRef);
    TrimTrimmed(raws[i].collectorKey);
    assert NewControl(digests, raws[i]) == Some(c);
  }

  // Behind every result in a response that is not incomplete stand an attested
  // execution and an event that is authentic under the key registered for the
  // collector of the control that the report names.
  lemma ResponseBacked(digests: Digests, registry: map<string, string>, q: Request, response: Response,
                       controls: seq<Control>, all: seq<Served>, entry: ControlResult, r: CaseResult)
    returns (raw: ExecutionInput, x: Execution, sc: ScenarioCase, o: Observation, b: Binding, e: Event)
    requires Answers(digests, registry, q, response, controls, all)
    requires entry in response.report.controls && r in entry.cases && r.outcome != Incomplete
    ensures Backed(digests, entry.control, r, raw, x, sc, o, b, e) && raw.scenario == q.scenario.value
    ensures entry.control.collectorRef in registry
    ensures digests.authentic(e, entry.control.collectorRef, registry[entry.control.collectorRef])
  {
    ServedIsOwn(digests, q, controls, all);
    raw, x, sc, o, b, e := ResultBacked(digests, RunOf(q, controls, all), entry, r);
    KeyRegistered(digests, registry, q.controls, controls, raw.control);
  }

  // And no result is missed or a false positive.
  lemma ResponseNeverMissed(digests: Digests, registry: map<string, string>, q: Request, response: Response,
                            controls: seq<Control>, all: seq<Served>, entry: ControlResult, r: CaseResult)
    requires Answers(digests, registry, q, response, controls, all)
    requires entry in response.report.controls && r in entry.cases
    ensures r.outcome != Missed && r.outcome != FalsePositive
  {
    ServedIsOwn(digests, q, controls, all);
    OwnIsAdapted(digests, RunOf(q, controls, all));
    AdaptedNeverMissed(digests, RunOf(q, controls, all), entry, r);
  }
}
