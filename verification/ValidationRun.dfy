/**
 A whole evaluation: normalize and sort the input, validate it, index the
 observations, evaluate every control.  Evaluate succeeds exactly on the
 accepted inputs, and what it returns is the reference report.
 */
module ValidationRun {
  import opened Bytes
  import opened JsonCanonical
  import opened Strings
  import opened ScenarioCases
  import opened ValidationModel
  import opened ValidationSpec
  import opened ValidationTally
  import opened ValidationVerdicts
  import opened ValidationEvaluator

  // ---------- normalization ----------

  // Trims and lower-cases every field, then sorts controls, cases and
  // observations by their keys.
  method Normalize(input: Input) returns (n: Input)
    ensures Rearranged(Normalized(input), n)
    ensures Ordered(n.controls, ControlKey) && Ordered(n.cases, CaseKey) && Ordered(n.observations, ObservationKey)
  {
    n := Normalized(input);
    var controls := SortBy(n.controls, ControlKey);
    var cases := SortBy(n.cases, CaseKey);
    var observations := SortBy(n.observations, ObservationKey);
    n := n.(controls := controls, cases := cases, observations := observations);
  }

  // ---------- validation ----------

  method ValidateControls(controls: seq<Control>) returns (r: Option<map<string, Control>>)
    ensures r.Some? <==> (forall c :: c in controls ==> ValidControl(c)) && DistinctKeys(controls, ControlKey)
    ensures r.Some? ==> Indexed(r.value, controls, ControlKey)
  {
    var seen: map<string, Control> := map[];
    for i := 0 to |controls|
      invariant forall c :: c in controls[..i] ==> ValidControl(c)
      invariant Indexed(seen, controls[..i], ControlKey) && DistinctKeys(controls[..i], ControlKey)
    {
      var control := controls[i];
      if !ValidControl(control) {
        assert control in controls;
        return None;
      }
      if control.ref in seen {
        RepeatedKey(controls, ControlKey, i, seen);
        return None;
      }
      IndexNext(seen, controls[..i], ControlKey, control);
      seen := seen[control.ref := control];
      assert controls[..i + 1] == controls[..i] + [control];
    }
    assert controls[..|controls|] == controls;
    return Some(seen);
  }

  method CheckBound(n: Input, k: Case, expected: map<string, ScenarioCase>, controls: map<string, Control>)
    returns (ok: bool)
    requires Indexed(expected, n.scenario.cases, ScenarioKey) && Indexed(controls, n.controls, ControlKey)
    ensures ok <==> CaseBound(n, k)
  {
    if k.ref !in expected || !MatchesScenario(k, expected[k.ref]) {
      return false;
    }
    return k.controlRef in controls && MatchesControl(k, controls[k.controlRef]);
  }

  method AdmitCase(n: Input, k: Case, expected: map<string, ScenarioCase>, controls: map<string, Control>)
    returns (ok: bool)
    requires Indexed(expected, n.scenario.cases, ScenarioKey) && Indexed(controls, n.controls, ControlKey)
    ensures ok <==> Admitted(n, k)
  {
    ok := CheckBound(n, k, expected, controls);
    ok := ok && ValidCaseAlone(n, k);
  }

  ghost predicate Admitted(n: Input, k: Case) {
    ValidCaseAlone(n, k) && CaseBound(n, k)
  }

  lemma AdmittedNext(n: Input, i: nat)
    requires i < |n.cases| && Admitted(n, n.cases[i]) && forall k :: k in n.cases[..i] ==> Admitted(n, k)
    ensures forall k :: k in n.cases[..i + 1] ==> Admitted(n, k)
  {
    PrefixNext(n.cases, i);
  }

  method ValidateCases(n: Input, expected: map<string, ScenarioCase>, controls: map<string, Control>) returns (ok: bool)
    requires Indexed(expected, n.scenario.cases, ScenarioKey) && Indexed(controls, n.controls, ControlKey)
    ensures ok <==> (forall k :: k in n.cases ==> Admitted(n, k)) && DistinctKeys(n.cases, CaseKey)
  {
    var seen: map<string, Case> := map[];
    for i := 0 to |n.cases|
      invariant forall k :: k in n.cases[..i] ==> Admitted(n, k)
      invariant Indexed(seen, n.cases[..i], CaseKey) && DistinctKeys(n.cases[..i], CaseKey)
    {
      var k := n.cases[i];
      if CaseKey(k) in seen {
        RepeatedKey(n.cases, CaseKey, i, seen);
        return false;
      }
      var admitted := AdmitCase(n, k, expected, controls);
      if !admitted {
        assert k in n.cases;
        return false;
      }
      AdmittedNext(n, i);
      IndexNext(seen, n.cases[..i], CaseKey, k);
      PrefixNext(n.cases, i);
      seen := seen[CaseKey(k) := k];
    }
    assert n.cases[..|n.cases|] == n.cases;
    return true;
  }

  method ValidateObservations(observations: seq<Observation>) returns (ok: bool)
    ensures ok <==> forall o :: o in observations ==> ValidObservation(o)
  {
    for i := 0 to |observations|
      invariant forall o :: o in observations[..i] ==> ValidObservation(o)
    {
      if !ValidObservation(observations[i]) {
        return false;
      }
      assert observations[..i + 1] == observations[..i] + [observations[i]];
    }
    assert observations[..|observations|] == observations;
    return true;
  }

  method ValidateMembers(n: Input) returns (ok: bool)
    requires DistinctKeys(n.scenario.cases, ScenarioKey)
    ensures ok <==> ValidMembers(n)
  {
    var expected := Index(n.scenario.cases, ScenarioKey);
    var controls := ValidateControls(n.controls);
    if controls.None? {
      return false;
    }
    var cases := ValidateCases(n, expected.value, controls.value);
    if !cases {
      return false;
    }
    ok := ValidateObservations(n.observations);
  }

  method ValidateInput(n: Input) returns (ok: bool)
    ensures ok <==> ValidInput(n)
  {
    if !ValidIdentity(n) {
      return false;
    }
    var matrix := ValidateScenarioCases(n.scenario.matchedFields, n.scenario.cases);
    if !matrix {
      return false;
    }
    ok := ValidateMembers(n);
  }

  // ---------- observations ----------

  // The lookup by joined key and the comparison of the control reference
  // together identify the pair, whatever characters the references contain.
  method CheckObservation(n: Input, o: Observation, cases: map<string, Case>, controls: map<string, Control>)
    returns (ok: bool)
    requires Indexed(cases, n.cases, CaseKey) && Indexed(controls, n.controls, ControlKey)
    ensures ok <==> ObservationBound(n, o)
  {
    ok := false;
    if o.controlRef in controls && ObservationKey(o) in cases {
      var control, k := controls[o.controlRef], cases[ObservationKey(o)];
      ok := o.collectorRef == control.collectorRef && k.controlRef == control.ref
        && !(o.alertOffset.Some? && o.alertOffset.value > k.window);
      if k.controlRef == o.controlRef {
        PairKeyInjective(o.controlRef, k.ref, o.caseRef);
      }
    }
    if ObservationBound(n, o) {
      var c :| c in n.controls && c.ref == o.controlRef && c.collectorRef == o.collectorRef;
      assert ControlKey(c) in controls;
      var k :| k in n.cases && k.controlRef == o.controlRef && k.ref == o.caseRef
        && (o.alertOffset.Some? ==> o.alertOffset.value <= k.window);
      assert CaseKey(k) in cases;
    }
  }

  method IndexObservations(n: Input) returns (r: Option<map<string, Observation>>)
    requires ValidInput(n)
    ensures r.Some? <==> Accepted(n)
    ensures r.Some? ==> Indexed(r.value, n.observations, ObservationKey)
  {
    var cases := Index(n.cases, CaseKey);
    var controls := Index(n.controls, ControlKey);
    r := BindObservations(n, cases.value, controls.value);
  }

  method BindObservations(n: Input, cases: map<string, Case>, controls: map<string, Control>)
    returns (r: Option<map<string, Observation>>)
    requires Indexed(cases, n.cases, CaseKey) && Indexed(controls, n.controls, ControlKey)
    ensures r.Some? <==>
              && (forall o :: o in n.observations ==> ObservationBound(n, o))
              && DistinctKeys(n.observations, ObservationKey)
    ensures r.Some? ==> Indexed(r.value, n.observations, ObservationKey)
  {
    var observations: map<string, Observation> := map[];
    for i := 0 to |n.observations|
      invariant forall o :: o in n.observations[..i] ==> ObservationBound(n, o)
      invariant Indexed(observations, n.observations[..i], ObservationKey)
      invariant DistinctKeys(n.observations[..i], ObservationKey)
    {
      var o := n.observations[i];
      assert o in n.observations;
      var bound := CheckObservation(n, o, cases, controls);
      if !bound {
        return None;
      }
      if ObservationKey(o) in observations {
        RepeatedKey(n.observations, ObservationKey, i, observations);
        return None;
      }
      IndexNext(observations, n.observations[..i], ObservationKey, o);
      observations := observations[ObservationKey(o) := o];
      PrefixNext(n.observations, i);
    }
    assert n.observations[..|n.observations|] == n.observations;
    return Some(observations);
  }

  // ---------- one control ----------

  function Lookup(m: map<string, Observation>, key: string): Option<Observation> {
    if key in m then Some(m[key]) else None
  }

  // Looking an observation up by joined key finds the one for the pair.
  lemma LookupExact(n: Input, m: map<string, Observation>, k: Case)
    requires Accepted(n) && Coherent(EvidenceOf(n)) && Indexed(m, n.observations, ObservationKey) && k in n.cases
    ensures Lookup(m, CaseKey(k)) == ObservationFor(EvidenceOf(n), k.controlRef, k.ref)
  {
    var e := EvidenceOf(n);
    var found := ObservationFor(e, k.controlRef, k.ref);
    if found.Some? {
      assert found.value in n.observations && ObservationKey(found.value) == CaseKey(k);
    }
    if CaseKey(k) in m {
      ObservedPair(n, m[CaseKey(k)], k);
    }
  }

  lemma ObservedPair(n: Input, o: Observation, k: Case)
    requires Accepted(n) && o in n.observations && k in n.cases && ObservationKey(o) == CaseKey(k)
    ensures o.controlRef == k.controlRef && o.caseRef == k.ref
  {
    assert ObservationBound(n, o);
    var x :| x in n.cases && x.controlRef == o.controlRef && x.ref == o.caseRef;
    SameKeySameElement(n.cases, CaseKey, x, k);
  }

  lemma ExecutedResult(n: Input, control: Control, k: Case, observation: Option<Observation>)
    requires Coherent(EvidenceOf(n)) && k in n.cases && k.controlRef == control.ref
    requires observation == ObservationFor(EvidenceOf(n), k.controlRef, k.ref)
    ensures k.ref in Refs(EvidenceOf(n)) && Scorable(k) && (observation.Some? ==> Readable(observation.value))
    ensures Table(EvidenceOf(n), control)[k.ref] == EvaluateCase(control, k, observation)
  {
    var e := EvidenceOf(n);
    assert k in e.cases;
    assert CaseFor(e, control.ref, k.ref) == Some(k);
  }

  lemma MissingResult(n: Input, control: Control, sc: ScenarioCase)
    requires Coherent(EvidenceOf(n)) && sc in n.scenario.cases
    requires forall k :: k in n.cases ==> !(k.controlRef == control.ref && k.ref == ScenarioKey(sc))
    ensures ScenarioKey(sc) in Refs(EvidenceOf(n))
    ensures Table(EvidenceOf(n), control)[ScenarioKey(sc)] == MissingCase(control, sc)
  {
    var e := EvidenceOf(n);
    assert sc in e.expected;
    assert CaseFor(e, control.ref, ScenarioKey(sc)) == None;
    assert ExpectedFor(e, ScenarioKey(sc)) == sc;
  }

  // Looking up by joined key finds the observation of every case.
  ghost predicate Finds(n: Input, m: map<string, Observation>) {
    && DistinctKeys(n.cases, CaseKey)
    && forall k :: k in n.cases ==> Lookup(m, CaseKey(k)) == ObservationFor(EvidenceOf(n), k.controlRef, k.ref)
  }

  method ScoreOne(ghost n: Input, control: Control, k: Case, observations: map<string, Observation>)
    returns (r: CaseResult)
    requires Coherent(EvidenceOf(n)) && Finds(n, observations)
    requires k in n.cases && k.controlRef == control.ref
    ensures r.caseRef == k.ref && k.ref in Refs(EvidenceOf(n)) && r == Table(EvidenceOf(n), control)[k.ref]
  {
    var observation := Lookup(observations, PairKey(control.ref, k.ref));
    ExecutedResult(n, control, k, observation);
    r := ScoreCase(control, k, observation);
    r := FinalizeCase(r);
  }

  // The cases s that were executed under the control.
  ghost predicate Executed(s: seq<Case>, control: Control, ref: string) {
    exists k :: k in s && k.controlRef == control.ref && k.ref == ref
  }

  lemma ExecutedNext(s: seq<Case>, control: Control, k: Case, ref: string)
    ensures Executed(s + [k], control, ref)
            <==> Executed(s, control, ref) || (k.controlRef == control.ref && k.ref == ref)
  {
    assert k in s + [k];
    if x :| x in s && x.controlRef == control.ref && x.ref == ref {
      assert x in s + [k];
    }
  }

  lemma NotYetExecuted(cases: seq<Case>, control: Control, i: nat)
    requires DistinctKeys(cases, CaseKey) && i < |cases| && cases[i].controlRef == control.ref
    ensures !Executed(cases[..i], control, cases[i].ref)
  {
  }

  // The loop over the executed cases has covered s.
  ghost predicate CoversExecuted(table: map<string, CaseResult>, control: Control, s: seq<Case>, t: Running,
                                 seen: set<string>) {
    && Tallies(t) && Collected(table, t.results, seen)
    && forall ref :: ref in seen <==> Executed(s, control, ref)
  }

  lemma CoversNext(table: map<string, CaseResult>, control: Control, s: seq<Case>, k: Case, t: Running,
                   seen: set<string>)
    requires CoversExecuted(table, control, s, t, seen) && k.controlRef != control.ref
    ensures CoversExecuted(table, control, s + [k], t, seen)
  {
    forall ref ensures Executed(s + [k], control, ref) <==> Executed(s, control, ref) {
      ExecutedNext(s, control, k, ref);
    }
  }

  lemma CoversScored(table: map<string, CaseResult>, control: Control, s: seq<Case>, k: Case, t: Running,
                     seen: set<string>,
                     r: CaseResult, next: Running)
    requires CoversExecuted(table, control, s, t, seen) && k.controlRef == control.ref && !Executed(s, control, k.ref)
    requires r.caseRef == k.ref && k.ref in table && r == table[k.ref]
    requires Tallies(next) && next.results == t.results + [r]
    ensures CoversExecuted(table, control, s + [k], next, seen + {k.ref})
  {
    CollectedNext(table, t.results, seen, r);
    forall ref ensures Executed(s + [k], control, ref) <==> Executed(s, control, ref) || k.ref == ref {
      ExecutedNext(s, control, k, ref);
    }
  }

  method ScoreExecuted(ghost n: Input, control: Control, cases: seq<Case>, observations: map<string, Observation>)
    returns (t: Running, seen: set<string>)
    requires Coherent(EvidenceOf(n)) && Finds(n, observations)
    requires cases == n.cases
    ensures CoversExecuted(Table(EvidenceOf(n), control), control, cases, t, seen)
  {
    ghost var table := Table(EvidenceOf(n), control);
    t := Running(Validated, {}, Counts(0, 0, 0, 0, 0, 0, 0, 0), []);
    EmptyTallies();
    seen := {};
    for i := 0 to |cases|
      invariant CoversExecuted(table, control, cases[..i], t, seen)
    {
      PrefixNext(cases, i);
      t, seen := ScoreNext(n, control, cases, i, observations, t, seen);
    }
    assert cases[..|cases|] == cases;
  }

  // One turn of the loop over the cases: those of other controls are skipped.
  method ScoreNext(ghost n: Input, control: Control, cases: seq<Case>, i: nat, observations: map<string, Observation>,
                   t: Running, seen: set<string>)
    returns (next: Running, seen': set<string>)
    requires Coherent(EvidenceOf(n)) && Finds(n, observations)
    requires cases == n.cases && i < |cases|
    requires CoversExecuted(Table(EvidenceOf(n), control), control, cases[..i], t, seen)
    ensures CoversExecuted(Table(EvidenceOf(n), control), control, cases[..i] + [cases[i]], next, seen')
  {
    ghost var table := Table(EvidenceOf(n), control);
    if cases[i].controlRef != control.ref {
      CoversNext(table, control, cases[..i], cases[i], t, seen);
      return t, seen;
    }
    var r := ScoreOne(n, control, cases[i], observations);
    next := Add(t, r);
    seen' := seen + {cases[i].ref};
    NotYetExecuted(cases, control, i);
    CoversScored(table, control, cases[..i], cases[i], t, seen, r, next);
  }

  // The loop over the scenario cases has covered the executed ones and s.
  ghost predicate CoversExpected(table: map<string, CaseResult>, s: seq<ScenarioCase>, t: Running, seen: set<string>) {
    Tallies(t) && Collected(table, t.results, seen + KeysOf(s, ScenarioKey))
  }

  // Adds a result for every scenario case that was not executed.
  method AddMissing(ghost n: Input, control: Control, expected: seq<ScenarioCase>, seen: set<string>, start: Running)
    returns (t: Running)
    requires Coherent(EvidenceOf(n)) && expected == n.scenario.cases && DistinctKeys(expected, ScenarioKey)
    requires CoversExecuted(Table(EvidenceOf(n), control), control, n.cases, start, seen)
    ensures Tallies(t) && Collected(Table(EvidenceOf(n), control), t.results, Refs(EvidenceOf(n)))
  {
    ghost var table := Table(EvidenceOf(n), control);
    t := start;
    assert seen + KeysOf(expected[..0], ScenarioKey) == seen;
    for i := 0 to |expected|
      invariant CoversExpected(table, expected[..i], t, seen)
    {
      t := AddIfMissing(n, control, expected, i, seen, t);
    }
    assert expected[..|expected|] == expected;
    AllCovered(n, control, seen);
  }

  method AddIfMissing(ghost n: Input, control: Control, expected: seq<ScenarioCase>, i: nat, seen: set<string>,
                      t: Running)
    returns (next: Running)
    requires Coherent(EvidenceOf(n)) && expected == n.scenario.cases && DistinctKeys(expected, ScenarioKey)
             && i < |expected|
    requires forall ref :: ref in seen <==> Executed(n.cases, control, ref)
    requires CoversExpected(Table(EvidenceOf(n), control), expected[..i], t, seen)
    ensures CoversExpected(Table(EvidenceOf(n), control), expected[..i + 1], next, seen)
  {
    KeysOfNext(expected, ScenarioKey, i);
    ghost var covered := seen + KeysOf(expected[..i], ScenarioKey);
    UnionNext(seen, KeysOf(expected[..i], ScenarioKey), ScenarioKey(expected[i]));
    if Trim(expected[i].ref) in seen {
      return t;
    }
    assert !Executed(n.cases, control, ScenarioKey(expected[i]));
    MissingResult(n, control, expected[i]);
    NotYetCovered(expected, i);
    var r := MissingCase(control, expected[i]);
    CollectedNext(Table(EvidenceOf(n), control), t.results, covered, r);
    next := Add(t, r);
  }

  lemma KeysOfNext<T>(s: seq<T>, key: T -> string, i: nat)
    requires i < |s|
    ensures KeysOf(s[..i + 1], key) == KeysOf(s[..i], key) + {key(s[i])}
  {
    assert forall j :: 0 <= j < i ==> s[..i + 1][j] == s[..i][j];
    assert s[..i + 1][i] == s[i];
  }

  lemma UnionNext(a: set<string>, b: set<string>, x: string)
    ensures a + (b + {x}) == (a + b) + {x}
    ensures x in a ==> a + (b + {x}) == a + b
  {
  }

  lemma NotYetCovered(expected: seq<ScenarioCase>, i: nat)
    requires DistinctKeys(expected, ScenarioKey) && i < |expected|
    ensures ScenarioKey(expected[i]) !in KeysOf(expected[..i], ScenarioKey)
  {
  }

  lemma AllCovered(n: Input, control: Control, seen: set<string>)
    requires Coherent(EvidenceOf(n)) && forall ref :: ref in seen <==> Executed(n.cases, control, ref)
    ensures seen + KeysOf(n.scenario.cases, ScenarioKey) == Refs(EvidenceOf(n))
  {
    var e := EvidenceOf(n);
    forall ref | ref in seen ensures ref in Refs(e) {
      var k :| k in n.cases && k.controlRef == control.ref && k.ref == ref;
      assert k in e.cases;
    }
    forall ref | ref in Refs(e) ensures ref in KeysOf(n.scenario.cases, ScenarioKey) {
      var sc :| sc in e.expected && ScenarioKey(sc) == ref;
      var i :| 0 <= i < |n.scenario.cases| && n.scenario.cases[i] == sc;
    }
    forall ref | ref in KeysOf(n.scenario.cases, ScenarioKey) ensures ref in Refs(e) {
      var i :| 0 <= i < |n.scenario.cases| && ScenarioKey(n.scenario.cases[i]) == ref;
      assert n.scenario.cases[i] in e.expected;
    }
  }

  // What the evaluation of a control needs to know about an accepted input.
  ghost predicate Ready(n: Input, m: map<string, Observation>) {
    && Sound(EvidenceOf(n)) && Finds(n, m) && DistinctKeys(n.scenario.cases, ScenarioKey) && BothKinds(EvidenceOf(n))
  }

  lemma AcceptedIsReady(n: Input, m: map<string, Observation>)
    requires Accepted(n) && Indexed(m, n.observations, ObservationKey)
    ensures Ready(n, m)
  {
    AcceptedIsSound(n);
    AcceptedHasBothKinds(n);
    forall k | k in n.cases ensures Lookup(m, CaseKey(k)) == ObservationFor(EvidenceOf(n), k.controlRef, k.ref) {
      LookupExact(n, m, k);
    }
  }

  // Scores the executed cases, adds the missing ones, and sorts the results.
  method EvaluateControl(ghost n: Input, control: Control, cases: seq<Case>, expected: seq<ScenarioCase>,
                         observations: map<string, Observation>)
    returns (report: ControlResult)
    requires Ready(n, observations) && cases == n.cases && expected == n.scenario.cases
    ensures report == ControlReport(EvidenceOf(n), control)
  {
    var t, seen := ScoreExecuted(n, control, cases, observations);
    t := AddMissing(n, control, expected, seen, t);
    var sorted := SortBy(t.results, ResultKey);
    TalliesPermuted(t, sorted);
    CollectedPermuted(Table(EvidenceOf(n), control), t.results, sorted, Refs(EvidenceOf(n)));
    t := t.(results := sorted);
    report := ControlResult(control, t.verdict, t.rules, t.counts, t.results);
    CollectedReport(EvidenceOf(n), control, t, report);
    BothKindsCounted(EvidenceOf(n), control);
    if t.counts.attackCases == 0 || t.counts.benignCases == 0 {
      assert false;
    }
  }

  // ---------- the whole evaluation ----------

  lemma ReportVerdictNext(controls: seq<ControlResult>, r: ControlResult)
    ensures ReportVerdict(controls + [r]) ==
              if r.verdict == Failed then Failed
              else if r.verdict == Unfinished && ReportVerdict(controls) != Failed then Unfinished
              else ReportVerdict(controls)
  {
    assert r in controls + [r];
    assert forall x :: x in controls + [r] <==> x in controls || x == r;
  }

  ghost predicate ReportsOn(e: Evidence, controls: seq<Control>, results: seq<ControlResult>) {
    && Coherent(e) && |results| == |controls|
    && forall i :: 0 <= i < |controls| ==> results[i] == ControlReport(e, controls[i])
  }

  method EvaluateControls(ghost n: Input, controls: seq<Control>, cases: seq<Case>, expected: seq<ScenarioCase>,
                          observations: map<string, Observation>)
    returns (verdict: Verdict, results: seq<ControlResult>)
    requires Ready(n, observations)
    requires controls == n.controls && cases == n.cases && expected == n.scenario.cases
    ensures ReportsOn(EvidenceOf(n), controls, results) && verdict == ReportVerdict(results)
  {
    verdict, results := Validated, [];
    for i := 0 to |controls|
      invariant ReportsOn(EvidenceOf(n), controls[..i], results) && verdict == ReportVerdict(results)
    {
      var result := EvaluateControl(n, controls[i], cases, expected, observations);
      ReportVerdictNext(results, result);
      ReportsNext(EvidenceOf(n), controls, i, results, result);
      results := results + [result];
      if result.verdict == Failed {
        verdict := Failed;
      } else if result.verdict == Unfinished && verdict != Failed {
        verdict := Unfinished;
      }
    }
    assert controls[..|controls|] == controls;
  }

  lemma ReportsNext(e: Evidence, controls: seq<Control>, i: nat, results: seq<ControlResult>, result: ControlResult)
    requires i < |controls| && ReportsOn(e, controls[..i], results) && result == ControlReport(e, controls[i])
    ensures ReportsOn(e, controls[..i + 1], results + [result])
  {
    PrefixNext(controls, i);
  }

  lemma ControlKeysInOrder(e: Evidence, controls: seq<Control>)
    requires e.controls == set c | c in controls
    requires Ordered(controls, ControlKey) && DistinctKeys(controls, ControlKey)
    ensures |controls| == |Sorted(ControlRefs(e))|
    ensures forall i :: 0 <= i < |controls| ==>
              Sorted(ControlRefs(e))[i] == controls[i].ref && controls[i] in e.controls
  {
    forall ref | ref in ControlRefs(e) ensures exists c :: c in controls && ControlKey(c) == ref {
      assert ControlFor(e, ref) in controls;
    }
    OrderedKeys(controls, ControlKey, ControlRefs(e));
    assert forall i :: 0 <= i < |controls| ==> Map(ControlKey, controls)[i] == controls[i].ref;
  }

  // The sorted controls are those of the report.
  lemma ControlsInOrder(e: Evidence, controls: seq<Control>, results: seq<ControlResult>)
    requires ReportsOn(e, controls, results) && e.controls == set c | c in controls
    requires Ordered(controls, ControlKey) && DistinctKeys(controls, ControlKey)
    ensures results == ControlReports(e)
  {
    ControlKeysInOrder(e, controls);
    forall i | 0 <= i < |controls| ensures results[i] == ControlReports(e)[i] {
      ControlAt(e, controls[i], i);
    }
  }

  lemma ControlAt(e: Evidence, c: Control, i: nat)
    requires Coherent(e) && i < |Sorted(ControlRefs(e))| && Sorted(ControlRefs(e))[i] == c.ref && c in e.controls
    ensures ControlReports(e)[i] == ControlReport(e, c)
  {
    InControlRefs(e, Sorted(ControlRefs(e)), i);
    assert ControlFor(e, c.ref) == c;
  }

  method EvaluateSorted(n: Input) returns (report: Option<Report>)
    requires Ordered(n.controls, ControlKey)
    ensures report.Some? <==> Accepted(n)
    ensures report.Some? ==> Coherent(EvidenceOf(n)) && report.value == ReportOf(n)
  {
    var valid := ValidateInput(n);
    if !valid {
      return None;
    }
    var observations := IndexObservations(n);
    if observations.None? {
      return None;
    }
    AcceptedIsReady(n, observations.value);
    var verdict, controls := EvaluateControls(n, n.controls, n.cases, n.scenario.cases, observations.value);
    ControlsInOrder(EvidenceOf(n), n.controls, controls);
    return Some(Report(n.runRef, n.scenarioRef, n.scenarioVersion, n.contractHash, n.chain, n.chainId, n.ruleset,
                       verdict, controls));
  }

  // Succeeds exactly on the accepted inputs, with the report that their evidence
  // determines; together with OrderIndependent, whatever the order of the input.
  method Evaluate(input: Input) returns (report: Option<Report>)
    ensures report.Some? <==> Accepted(Normalized(input))
    ensures report.Some? ==> Coherent(EvidenceOf(Normalized(input))) && report.value == ReportOf(Normalized(input))
  {
    var n := Normalize(input);
    report := EvaluateSorted(n);
    SameReport(Normalized(input), n);
  }

  lemma SameReport(x: Input, y: Input)
    requires Rearranged(x, y)
    ensures Accepted(x) <==> Accepted(y)
    ensures Accepted(x) ==> Coherent(EvidenceOf(x)) && Coherent(EvidenceOf(y)) && ReportOf(x) == ReportOf(y)
  {
    if Accepted(x) {
      RearrangedAccepted(x, y);
      AcceptedIsCoherent(x);
    }
    if Accepted(y) {
      RearrangedAccepted(y, x);
    }
  }
}
