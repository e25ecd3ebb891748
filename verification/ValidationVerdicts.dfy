/**
 What an accepted report says: the exact meaning of each verdict in terms of the
 evidence, and the conservation of the outcome counts.
 */
module ValidationVerdicts {
  import opened Bytes
  import opened JsonCanonical
  import opened Strings
  import opened ValidationModel
  import opened ValidationSpec

  // A verified execution of the scenario case under the control, together with a
  // verified observation of it whose window completed.
  ghost predicate Evidenced(e: Evidence, c: Control, sc: ScenarioCase, k: Case, o: Observation) {
    && k in e.cases && k.controlRef == c.ref && k.ref == ScenarioKey(sc) && k.evidence == VERIFIED
    && o in e.observations && o.controlRef == c.ref && o.caseRef == ScenarioKey(sc) && o.evidence == VERIFIED
    && o.completed >= sc.window
  }

  // The cases agree with the scenario cases they name.
  ghost predicate Sound(e: Evidence) {
    && Coherent(e)
    && (forall sc :: sc in e.expected ==> KnownKind(sc))
    && (forall k, sc :: k in e.cases && sc in e.expected && k.ref == ScenarioKey(sc) ==> Agrees(k, sc))
  }

  predicate KnownKind(sc: ScenarioCase) {
    Trim(sc.kind) == sc.kind && (sc.kind == ATTACK || sc.kind == BENIGN)
  }

  predicate Agrees(k: Case, sc: ScenarioCase) {
    k.kind == sc.kind && k.window == sc.window && k.impact == sc.impact && k.deadline == sc.latestDetection
  }

  // An attack is alerted at or before the deadline, a benign case is not alerted.
  predicate Good(sc: ScenarioCase, o: Observation) {
    if sc.kind == ATTACK then
      o.alertOffset.Some? && sc.latestDetection.Some? && o.alertOffset.value <= sc.latestDetection.value
    else
      o.alertOffset.None?
  }

  ghost predicate Passes(e: Evidence, c: Control, sc: ScenarioCase) {
    exists k, o :: Evidenced(e, c, sc, k, o) && Good(sc, o)
  }

  ghost predicate Fails(e: Evidence, c: Control, sc: ScenarioCase) {
    exists k, o :: Evidenced(e, c, sc, k, o) && !Good(sc, o)
  }

  // ---------- one case ----------

  // How one observed case is scored.
  lemma ScoreExact(k: Case, o: Observation)
    requires Scorable(k) && Readable(o)
    ensures var outcome := OutcomeFor(k, Some(o));
            if k.evidence != VERIFIED || o.evidence != VERIFIED || o.completed < k.window then outcome == Incomplete
            else if k.kind == BENIGN then outcome == (if o.alertOffset.Some? then FalsePositive else Clean)
            else if o.alertOffset.None? then outcome == Missed
            else outcome == (if o.alertOffset.value <= k.deadline.value then CaughtInTime else CaughtLate)
  {
  }

  // Outcome and kind of the result for a scenario case, without the rest of it.
  ghost function OutcomeAt(e: Evidence, c: Control, ref: string): Outcome
    requires Coherent(e) && ref in Refs(e)
  {
    var k := CaseFor(e, c.ref, ref);
    if k.Some? then OutcomeFor(k.value, ObservationFor(e, c.ref, ref)) else Incomplete
  }

  ghost function KindAt(e: Evidence, c: Control, ref: string): string
    requires Coherent(e) && ref in Refs(e)
  {
    var k := CaseFor(e, c.ref, ref);
    if k.Some? then k.value.kind else Trim(ExpectedFor(e, ref).kind)
  }

  lemma ResultAt(e: Evidence, c: Control, ref: string)
    requires Coherent(e) && ref in Refs(e)
    ensures ResultFor(e, c, ref).outcome == OutcomeAt(e, c, ref)
    ensures ResultFor(e, c, ref).kind == KindAt(e, c, ref)
  {
  }

  lemma OutcomeOfEvidence(e: Evidence, c: Control, sc: ScenarioCase, k: Case, o: Observation)
    requires Sound(e) && sc in e.expected && Evidenced(e, c, sc, k, o)
    ensures OutcomeAt(e, c, ScenarioKey(sc)) != Incomplete
    ensures Bad(OutcomeAt(e, c, ScenarioKey(sc))) <==> !Good(sc, o)
  {
    assert CaseFor(e, c.ref, ScenarioKey(sc)) == Some(k);
    assert ObservationFor(e, c.ref, ScenarioKey(sc)) == Some(o);
    ScoreExact(k, o);
  }

  lemma EvidenceOfOutcome(e: Evidence, c: Control, sc: ScenarioCase) returns (k: Case, o: Observation)
    requires Sound(e) && sc in e.expected && OutcomeAt(e, c, ScenarioKey(sc)) != Incomplete
    ensures Evidenced(e, c, sc, k, o)
  {
    k := CaseFor(e, c.ref, ScenarioKey(sc)).value;
    o := ObservationFor(e, c.ref, ScenarioKey(sc)).value;
    ScoreExact(k, o);
  }

  // The outcome of a scenario case says exactly what its evidence shows.
  lemma OutcomeExact(e: Evidence, c: Control, sc: ScenarioCase)
    requires Sound(e) && sc in e.expected
    ensures var outcome := OutcomeAt(e, c, ScenarioKey(sc));
            && (Bad(outcome) <==> Fails(e, c, sc))
            && (outcome == Incomplete <==> forall k, o :: !Evidenced(e, c, sc, k, o))
            && (outcome == CaughtInTime || outcome == Clean <==> Passes(e, c, sc))
  {
    var outcome := OutcomeAt(e, c, ScenarioKey(sc));
    forall k, o | Evidenced(e, c, sc, k, o) ensures outcome != Incomplete && (Bad(outcome) <==> !Good(sc, o)) {
      OutcomeOfEvidence(e, c, sc, k, o);
    }
    if outcome != Incomplete {
      var k, o := EvidenceOfOutcome(e, c, sc);
      assert Evidenced(e, c, sc, k, o);
    }
  }

  lemma KindExact(e: Evidence, c: Control, sc: ScenarioCase)
    requires Sound(e) && sc in e.expected
    ensures KindAt(e, c, ScenarioKey(sc)) == sc.kind
  {
    assert KnownKind(sc) && KnownKind(ExpectedFor(e, ScenarioKey(sc)));
  }

  // ---------- one control ----------

  // The outcomes of a control's results are those of the scenario cases.
  lemma EveryOutcomeListed(e: Evidence, c: Control, sc: ScenarioCase) returns (r: CaseResult)
    requires Coherent(e) && sc in e.expected
    ensures r in ControlReport(e, c).cases && r.caseRef == ScenarioKey(sc)
    ensures r.outcome == OutcomeAt(e, c, ScenarioKey(sc)) && r.kind == KindAt(e, c, ScenarioKey(sc))
  {
    var refs := Sorted(Refs(e));
    assert ScenarioKey(sc) in refs;
    var i :| 0 <= i < |refs| && refs[i] == ScenarioKey(sc);
    r := ControlReport(e, c).cases[i];
    ResultAt(e, c, refs[i]);
  }

  lemma OnlyOutcomesListed(e: Evidence, c: Control, r: CaseResult) returns (sc: ScenarioCase)
    requires Coherent(e) && r in ControlReport(e, c).cases
    ensures sc in e.expected && r.caseRef == ScenarioKey(sc)
    ensures r.outcome == OutcomeAt(e, c, ScenarioKey(sc)) && r.kind == KindAt(e, c, ScenarioKey(sc))
  {
    var refs := Sorted(Refs(e));
    var i :| 0 <= i < |refs| && ControlReport(e, c).cases[i] == r;
    InRefs(e, refs, i);
    sc :| sc in e.expected && ScenarioKey(sc) == refs[i];
    ResultAt(e, c, refs[i]);
  }

  lemma ResultsInOrder(e: Evidence, c: Control)
    requires Coherent(e)
    ensures var cases := ControlReport(e, c).cases;
            forall i, j :: 0 <= i < j < |cases| ==> Less(cases[i].caseRef, cases[j].caseRef)
    ensures |ControlReport(e, c).cases| == |Refs(e)|
  {
  }

  ghost predicate SomeFails(e: Evidence, c: Control) {
    exists sc :: sc in e.expected && Fails(e, c, sc)
  }

  ghost predicate AllPass(e: Evidence, c: Control) {
    forall sc :: sc in e.expected ==> Passes(e, c, sc)
  }

  lemma BadOutcomeFails(e: Evidence, c: Control)
    requires Sound(e) && HasBad(ControlReport(e, c).cases)
    ensures SomeFails(e, c)
  {
    var r :| r in ControlReport(e, c).cases && Bad(r.outcome);
    var sc := OnlyOutcomesListed(e, c, r);
    OutcomeExact(e, c, sc);
  }

  lemma FailureListed(e: Evidence, c: Control)
    requires Sound(e) && SomeFails(e, c)
    ensures HasBad(ControlReport(e, c).cases)
  {
    var sc :| sc in e.expected && Fails(e, c, sc);
    OutcomeExact(e, c, sc);
    var r := EveryOutcomeListed(e, c, sc);
  }

  lemma ControlFails(e: Evidence, c: Control)
    requires Sound(e)
    ensures VerdictOf(ControlReport(e, c).cases) == Failed <==> SomeFails(e, c)
  {
    if HasBad(ControlReport(e, c).cases) {
      BadOutcomeFails(e, c);
    } else if SomeFails(e, c) {
      FailureListed(e, c);
    }
  }

  lemma IncompleteFailsToPass(e: Evidence, c: Control)
    requires Sound(e) && (HasBad(ControlReport(e, c).cases) || HasIncomplete(ControlReport(e, c).cases))
    ensures !AllPass(e, c)
  {
    var r :| r in ControlReport(e, c).cases && (Bad(r.outcome) || r.outcome == Incomplete);
    var sc := OnlyOutcomesListed(e, c, r);
    OutcomeExact(e, c, sc);
    assert !Passes(e, c, sc);
  }

  lemma GoodOutcomePasses(e: Evidence, c: Control, sc: ScenarioCase)
    requires Sound(e) && sc in e.expected
    requires !HasBad(ControlReport(e, c).cases) && !HasIncomplete(ControlReport(e, c).cases)
    ensures Passes(e, c, sc)
  {
    OutcomeExact(e, c, sc);
    var r := EveryOutcomeListed(e, c, sc);
  }

  lemma ControlPasses(e: Evidence, c: Control)
    requires Sound(e)
    ensures VerdictOf(ControlReport(e, c).cases) == Validated <==> AllPass(e, c)
  {
    if HasBad(ControlReport(e, c).cases) || HasIncomplete(ControlReport(e, c).cases) {
      IncompleteFailsToPass(e, c);
    } else {
      forall sc | sc in e.expected ensures Passes(e, c, sc) {
        GoodOutcomePasses(e, c, sc);
      }
    }
  }

  // ---------- the report ----------

  lemma EveryControlListed(e: Evidence, c: Control)
    requires Coherent(e) && c in e.controls
    ensures ControlReport(e, c) in ControlReports(e)
  {
    var refs := Sorted(ControlRefs(e));
    assert c.ref in refs;
    var i :| 0 <= i < |refs| && refs[i] == c.ref;
    assert ControlFor(e, refs[i]) == c;
    assert ControlReports(e)[i] == ControlReport(e, c);
  }

  lemma OnlyControlsListed(e: Evidence, r: ControlResult) returns (c: Control)
    requires Coherent(e) && r in ControlReports(e)
    ensures c in e.controls && ControlReport(e, c) == r
  {
    var refs := Sorted(ControlRefs(e));
    var i :| 0 <= i < |refs| && ControlReports(e)[i] == r;
    InControlRefs(e, refs, i);
    c := ControlFor(e, refs[i]);
  }

  lemma ReportFails(e: Evidence)
    requires Sound(e)
    ensures ReportVerdict(ControlReports(e)) == Failed <==>
              exists c, sc :: c in e.controls && sc in e.expected && Fails(e, c, sc)
  {
    if r :| r in ControlReports(e) && r.verdict == Failed {
      var c := OnlyControlsListed(e, r);
      ControlFails(e, c);
    }
    if c, sc :| c in e.controls && sc in e.expected && Fails(e, c, sc) {
      ControlFails(e, c);
      EveryControlListed(e, c);
    }
  }

  lemma ReportPasses(e: Evidence)
    requires Sound(e)
    ensures ReportVerdict(ControlReports(e)) == Validated <==>
              forall c, sc :: c in e.controls && sc in e.expected ==> Passes(e, c, sc)
  {
    if r :| r in ControlReports(e) && r.verdict != Validated {
      var c := OnlyControlsListed(e, r);
      ControlPasses(e, c);
    } else {
      forall c, sc | c in e.controls && sc in e.expected ensures Passes(e, c, sc) {
        EveryControlListed(e, c);
        ControlPasses(e, c);
      }
    }
  }

  lemma KindTrimmed(kind: string)
    requires kind == ATTACK || kind == BENIGN
    ensures Trim(kind) == kind
  {
    TrimTrimmed(kind);
  }

  lemma AcceptedAgrees(n: Input, k: Case, sc: ScenarioCase)
    requires Accepted(n) && k in n.cases && sc in n.scenario.cases && k.ref == ScenarioKey(sc)
    ensures Agrees(k, sc)
  {
    assert CaseBound(n, k);
    var x :| x in n.scenario.cases && ScenarioKey(x) == k.ref && MatchesScenario(k, x);
    SameKeySameElement(n.scenario.cases, ScenarioKey, x, sc);
    AcceptedKind(n, sc);
  }

  lemma AcceptedKind(n: Input, sc: ScenarioCase)
    requires Accepted(n) && sc in n.scenario.cases
    ensures KnownKind(sc)
  {
    assert ValidScenarioCase(sc, Map(Trim, n.scenario.matchedFields));
    KindTrimmed(sc.kind);
  }

  lemma AcceptedIsSound(n: Input)
    requires Accepted(n)
    ensures Sound(EvidenceOf(n))
  {
    AcceptedIsCoherent(n);
    forall sc | sc in n.scenario.cases ensures KnownKind(sc) {
      AcceptedKind(n, sc);
    }
    forall k, sc | k in n.cases && sc in n.scenario.cases && k.ref == ScenarioKey(sc) ensures Agrees(k, sc) {
      AcceptedAgrees(n, k, sc);
    }
  }

  lemma SoundVerdict(n: Input)
    requires Sound(EvidenceOf(n))
    ensures ReportOf(n).verdict == Validated <==>
              forall c, sc :: c in n.controls && sc in n.scenario.cases ==> Passes(EvidenceOf(n), c, sc)
    ensures ReportOf(n).verdict == Failed <==>
              exists c, sc :: c in n.controls && sc in n.scenario.cases && Fails(EvidenceOf(n), c, sc)
  {
    ReportPasses(EvidenceOf(n));
    ReportFails(EvidenceOf(n));
  }

  // Validated: every control has, for every scenario case, full evidence that it
  // behaved well.  Failed: some full evidence shows that it did not.
  lemma VerdictExact(n: Input)
    requires Accepted(n)
    ensures Coherent(EvidenceOf(n))
    ensures ReportOf(n).verdict == Validated <==>
              forall c, sc :: c in n.controls && sc in n.scenario.cases ==> Passes(EvidenceOf(n), c, sc)
    ensures ReportOf(n).verdict == Failed <==>
              exists c, sc :: c in n.controls && sc in n.scenario.cases && Fails(EvidenceOf(n), c, sc)
  {
    AcceptedIsSound(n);
    SoundVerdict(n);
  }

  // ---------- conservation ----------

  lemma {:induction false} KindsAddUp(s: seq<bool>)
    ensures multiset(s)[true] + multiset(s)[false] == |s|
    decreases |s|
  {
    if s != [] {
      KindsAddUp(s[1..]);
      assert s == [s[0]] + s[1..];
      assert forall x :: multiset(s)[x] == multiset(s[1..])[x] + (if s[0] == x then 1 else 0);
    }
  }

  lemma {:induction false} OutcomesAddUp(s: seq<Outcome>)
    ensures var m := multiset(s);
            m[CaughtInTime] + m[CaughtLate] + m[Missed] + m[FalsePositive] + m[Clean] + m[Incomplete] == |s|
    decreases |s|
  {
    if s != [] {
      OutcomesAddUp(s[1..]);
      assert s == [s[0]] + s[1..];
      assert forall x :: multiset(s)[x] == multiset(s[1..])[x] + (if s[0] == x then 1 else 0);
    }
  }

  function KeysOf<T>(s: seq<T>, key: T -> string): set<string> {
    set i | 0 <= i < |s| :: key(s[i])
  }

  lemma {:induction false} CountKeys<T>(s: seq<T>, key: T -> string)
    requires DistinctKeys(s, key)
    ensures |KeysOf(s, key)| == |s|
    decreases |s|
  {
    if s == [] {
      assert KeysOf(s, key) == {};
    } else {
      var rest := s[..|s| - 1];
      CountKeys(rest, key);
      assert forall i :: 0 <= i < |rest| ==> rest[i] == s[i];
      assert KeysOf(s, key) == KeysOf(rest, key) + {key(s[|s| - 1])};
    }
  }

  lemma CountedIfMember(results: seq<CaseResult>, r: CaseResult)
    requires r in results
    ensures multiset(Map(IsAttack, results))[IsAttack(r)] > 0
  {
    var i :| 0 <= i < |results| && results[i] == r;
    assert Map(IsAttack, results)[i] == IsAttack(r);
    assert IsAttack(r) in Map(IsAttack, results);
  }

  lemma KindCounted(e: Evidence, c: Control, sc: ScenarioCase)
    requires Sound(e) && sc in e.expected
    ensures multiset(Map(IsAttack, ControlReport(e, c).cases))[sc.kind == ATTACK] > 0
  {
    KindExact(e, c, sc);
    var r := EveryOutcomeListed(e, c, sc);
    CountedIfMember(ControlReport(e, c).cases, r);
  }

  // Every scenario case has exactly one result and is counted once by kind and
  // once by outcome; both kinds occur, so the guard for a matrix without attacks
  // or without benign cases never fires.
  lemma CountsConserved(n: Input, c: Control)
    requires Accepted(n) && c in n.controls
    ensures Coherent(EvidenceOf(n))
    ensures var (counts, cases) := (ControlReport(EvidenceOf(n), c).counts, |n.scenario.cases|);
            && |ControlReport(EvidenceOf(n), c).cases| == cases
            && counts.attackCases + counts.benignCases == cases
            && counts.caughtInTime + counts.caughtLate + counts.missed + counts.falsePositives + counts.clean
               + counts.incomplete == cases
            && counts.attackCases > 0 && counts.benignCases > 0
  {
    AcceptedIsSound(n);
    var e := EvidenceOf(n);
    var results := ControlReport(e, c).cases;
    RefsCounted(e, n.scenario.cases);
    ResultsInOrder(e, c);
    KindsAddUp(Map(IsAttack, results));
    OutcomesAddUp(Map(OutcomeOf, results));
    AcceptedHasBothKinds(n);
    BothKindsCounted(e, c);
  }

  lemma RefsCounted(e: Evidence, cases: seq<ScenarioCase>)
    requires DistinctKeys(cases, ScenarioKey) && e.expected == set x | x in cases
    ensures |Refs(e)| == |cases|
  {
    CountKeys(cases, ScenarioKey);
    assert Refs(e) == KeysOf(cases, ScenarioKey);
  }

  ghost predicate BothKinds(e: Evidence) {
    && (exists sc :: sc in e.expected && sc.kind == ATTACK)
    && (exists sc :: sc in e.expected && sc.kind == BENIGN)
  }

  lemma AcceptedHasBothKinds(n: Input)
    requires Accepted(n)
    ensures BothKinds(EvidenceOf(n))
  {
    var a :| a in n.scenario.cases && a.kind == ATTACK;
    var b :| b in n.scenario.cases && b.kind == BENIGN;
    assert a in EvidenceOf(n).expected && b in EvidenceOf(n).expected;
  }

  lemma BothKindsCounted(e: Evidence, c: Control)
    requires Sound(e) && BothKinds(e)
    ensures ControlReport(e, c).counts.attackCases > 0 && ControlReport(e, c).counts.benignCases > 0
  {
    var a :| a in e.expected && a.kind == ATTACK;
    var b :| b in e.expected && b.kind == BENIGN;
    KindCounted(e, c, a);
    KindCounted(e, c, b);
  }
}
