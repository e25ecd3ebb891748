/**
 Inputs that are accepted: one control, one attack and one benign case, both
 executed and observed.  With an alert in time the report says validated, without
 an alert it says failed, and without observations it says incomplete.
 */
module ValidationExample {
  import opened Adapters
  import opened Bytes
  import opened JsonLayouts
  import opened JsonText
  import opened JsonValue
  import opened JsonCanonical
  import opened Strings
  import opened ValidationModel
  import opened ValidationSpec
  import opened ValidationVerdicts

  function Repeat(c: char, n: nat): (s: string)
    ensures |s| == n && forall i :: 0 <= i < n ==> s[i] == c
  {
    seq(n, i => c)
  }

  const HASH := "sha256:" + Repeat('0', 64)
  const KEY := Repeat('A', 43)
  const FIELD := "treasury_asset"
  const FIELD_TEXT := Print(Scalar(Text("native")))

  lemma HashValid()
    ensures ValidHash(HASH)
  {
    assert forall i :: 7 <= i < 71 ==> HASH[i] == '0';
    assert HASH[..7] == "sha256:";
  }

  lemma FieldTextValid()
    ensures Canonical(FIELD_TEXT) == Some(FIELD_TEXT) && Trim(FIELD_TEXT) != "" && Trim(FIELD_TEXT) != "null"
  {
    PrintThenRead(Scalar(Text("native")));
    SpelledText("native");
    TrimTrimmed(FIELD_TEXT);
    assert FIELD_TEXT[0] == '"' != "null"[0];
  }

  lemma SpelledText(s: string)
    ensures Print(Scalar(Text(s))) == "\"" + Escape(s) + "\""
  {
    var token := Text(s);
    assert Render(CanonicalTree(Scalar(token))) == [token];
    var spaces := NoSpaces(2);
    assert [token][1..] == [] && spaces[0] == "" && spaces[1..][0] == "";
    var texts := SpellTokens([token]);
    assert Interleave(texts[1..], spaces[1..]) == "";
    assert Interleave(texts, spaces) == SpellToken(token);
  }

  const ATTACK_CASE := ScenarioCase("a", ATTACK, "d", Some(10), 20, true, Some(5), false, map[FIELD := FIELD_TEXT])
  const BENIGN_CASE := ScenarioCase("b", BENIGN, "d", None, 20, false, None, true, map[FIELD := FIELD_TEXT])
  const SCENARIO := Scenario("s", "v", "c", RULESET, FORK, [FIELD], [ATTACK_CASE, BENIGN_CASE], true, HASH)
  const CONTROL := Control("k", ADAPTER_VERSION, HASH, "o", KEY)

  function Executed(sc: ScenarioCase): Case {
    Case(sc.ref, sc.kind, "t", "k", HASH, "s", "v", HASH, "c", 1, FORK, "defense-execution:" + HASH,
         HASH, HASH, HASH, VERIFIED,
         sc.impact, sc.latestDetection, sc.window, false)
  }

  // An observation of the case, with the alert offset if there was an alert.
  function Observed(sc: ScenarioCase, alert: Option<int>): Observation {
    Observation("k", "o", sc.ref, if alert.Some? then ALERTED else NO_ALERT, "security-evidence:event:" + HASH, HASH,
                alert, if alert.Some? then "security-evidence:finding:" + FindingId("k", sc.ref) else "",
                if alert.Some? then HASH else "", 20, VERIFIED)
  }

  function Run(observations: seq<Observation>): Input {
    Input("r", SCENARIO, "s", "v", HASH, "c", 1, RULESET, [CONTROL], [Executed(ATTACK_CASE), Executed(BENIGN_CASE)],
          observations)
  }

  function BothObserved(alert: Option<int>): seq<Observation> {
    [Observed(ATTACK_CASE, alert), Observed(BENIGN_CASE, None)]
  }

  lemma LetterKept(c: char)
    requires 'a' <= c <= 'z' || '0' <= c <= '9'
    ensures Trim([c]) == [c] && Lower([c]) == [c]
  {
    TrimTrimmed([c]);
  }

  lemma Identity(observations: seq<Observation>)
    ensures ValidIdentity(Run(observations))
  {
    HashValid();
    LetterKept('s');
    LetterKept('v');
    LetterKept('c');
    TrimTrimmed(RULESET);
    assert RULESET[0] == 'k' && RULESET[|RULESET| - 1] == "v0.2.0"[5];
    assert Trim(RULESET) == RULESET;
  }

  lemma FieldValid(sc: ScenarioCase)
    requires sc.matchedValues == map[FIELD := FIELD_TEXT]
    ensures FieldText(sc, FIELD) == Some(FIELD_TEXT) && ValidMatchedValues(sc, [FIELD])
  {
    FieldTextValid();
    assert |WINDOW_FIELD| != |FIELD|;
    assert sc.matchedValues.Keys == set f | f in [FIELD];
  }

  lemma AttackValid()
    ensures ValidScenarioCase(ATTACK_CASE, [FIELD]) && ScenarioKey(ATTACK_CASE) == "a"
    ensures FieldText(ATTACK_CASE, FIELD) == Some(FIELD_TEXT)
  {
    LetterKept('a');
    LetterKept('d');
    FieldValid(ATTACK_CASE);
    assert ATTACK[0] != BENIGN[0];
  }

  lemma BenignValid()
    ensures ValidScenarioCase(BENIGN_CASE, [FIELD]) && ScenarioKey(BENIGN_CASE) == "b"
    ensures FieldText(BENIGN_CASE, FIELD) == Some(FIELD_TEXT)
  {
    LetterKept('b');
    LetterKept('d');
    FieldValid(BENIGN_CASE);
    assert ATTACK[0] != BENIGN[0];
  }

  lemma TwoCaseMatrix(a: ScenarioCase, b: ScenarioCase, names: seq<string>)
    requires ValidScenarioCase(a, names) && ValidScenarioCase(b, names) && SameFields(a, b, names)
    requires ScenarioKey(a) != ScenarioKey(b) && a.kind == ATTACK && b.kind == BENIGN
    ensures ValidMatrix(names, [a, b])
  {
    var cases := [a, b];
    assert cases[0] == a && cases[1] == b;
    assert forall c :: c in cases <==> c == a || c == b;
    assert SameFields(b, a, names) && SameFields(a, a, names) && SameFields(b, b, names);
  }

  lemma FieldKept()
    ensures Trim(FIELD) == FIELD && FIELD != ""
  {
    assert FIELD[0] == 't' && FIELD[13] == 't';
    TrimTrimmed(FIELD);
  }

  lemma FieldsValid()
    ensures Map(Trim, [FIELD]) == [FIELD] && ValidFields([FIELD])
  {
    FieldKept();
  }

  lemma SameField(a: ScenarioCase, b: ScenarioCase)
    requires FieldText(a, FIELD) == FieldText(b, FIELD)
    ensures SameFields(a, b, [FIELD])
  {
  }

  lemma CasesMatch()
    ensures ValidMatrix([FIELD], [ATTACK_CASE, BENIGN_CASE])
  {
    AttackValid();
    BenignValid();
    assert "a"[0] != "b"[0];
    SameField(ATTACK_CASE, BENIGN_CASE);
    TwoCaseMatrix(ATTACK_CASE, BENIGN_CASE, [FIELD]);
  }

  lemma Matrix()
    ensures ValidScenarioCases([FIELD], [ATTACK_CASE, BENIGN_CASE])
  {
    FieldsValid();
    CasesMatch();
  }

  lemma ExecutedAlone(sc: ScenarioCase, observations: seq<Observation>)
    requires sc == ATTACK_CASE || sc == BENIGN_CASE
    ensures ValidCaseAlone(Run(observations), Executed(sc))
  {
    HashValid();
    assert ATTACK[0] != BENIGN[0];
    ForkKept();
  }

  lemma ForkKept()
    ensures Lower(Trim(FORK)) == FORK && Trim(FORK) == FORK
  {
    TrimTrimmed(FORK);
  }

  lemma ExecutedBound(sc: ScenarioCase, observations: seq<Observation>)
    requires sc == ATTACK_CASE || sc == BENIGN_CASE
    ensures CaseBound(Run(observations), Executed(sc))
  {
    HashValid();
    LetterKept('a');
    LetterKept('b');
    KindTrimmed(sc.kind);
    var n := Run(observations);
    assert sc in n.scenario.cases && ScenarioKey(sc) == Executed(sc).ref && MatchesScenario(Executed(sc), sc);
    assert CONTROL in n.controls && MatchesControl(Executed(sc), CONTROL);
  }

  lemma ExecutedValid(sc: ScenarioCase, observations: seq<Observation>)
    requires sc == ATTACK_CASE || sc == BENIGN_CASE
    ensures ValidCaseAlone(Run(observations), Executed(sc)) && CaseBound(Run(observations), Executed(sc))
  {
    ExecutedAlone(sc, observations);
    ExecutedBound(sc, observations);
  }

  lemma MembersValid(observations: seq<Observation>)
    requires forall o :: o in observations ==> ValidObservation(o)
    ensures ValidMembers(Run(observations))
  {
    ControlValid();
    ExecutedValid(ATTACK_CASE, observations);
    ExecutedValid(BENIGN_CASE, observations);
    ExecutedDistinct();
    TwoCasesValid(Run(observations), CONTROL, Executed(ATTACK_CASE), Executed(BENIGN_CASE));
  }

  lemma TwoCasesValid(n: Input, c: Control, j: Case, k: Case)
    requires n.controls == [c] && ValidControl(c) && n.cases == [j, k] && DistinctKeys(n.cases, CaseKey)
    requires ValidCaseAlone(n, j) && CaseBound(n, j) && ValidCaseAlone(n, k) && CaseBound(n, k)
    requires forall o :: o in n.observations ==> ValidObservation(o)
    ensures ValidMembers(n)
  {
    TwoAlone(n, j, k);
    TwoBoundCases(n, j, k);
  }

  lemma TwoAlone(n: Input, j: Case, k: Case)
    requires ValidCaseAlone(n, j) && ValidCaseAlone(n, k)
    ensures forall x :: x in [j, k] ==> ValidCaseAlone(n, x)
  {
  }

  lemma TwoBoundCases(n: Input, j: Case, k: Case)
    requires CaseBound(n, j) && CaseBound(n, k)
    ensures forall x :: x in [j, k] ==> CaseBound(n, x)
  {
  }

  lemma ControlValid()
    ensures ValidControl(CONTROL)
  {
    HashValid();
    assert forall i :: 0 <= i < 43 ==> KEY[i] == 'A';
    assert "k"[0] != "o"[0];
  }

  lemma ExecutedDistinct()
    ensures DistinctKeys([Executed(ATTACK_CASE), Executed(BENIGN_CASE)], CaseKey)
  {
    assert CaseKey(Executed(ATTACK_CASE))[2] == 'a' && CaseKey(Executed(BENIGN_CASE))[2] == 'b';
  }

  lemma ObservedValid(sc: ScenarioCase, alert: Option<int>)
    requires (sc == ATTACK_CASE && (alert.Some? ==> 0 <= alert.value <= 20)) || (sc == BENIGN_CASE && alert.None?)
    ensures ValidObservation(Observed(sc, alert))
  {
    HashValid();
    assert ALERTED[0] != NO_ALERT[0];
  }

  lemma ObservedBound(sc: ScenarioCase, alert: Option<int>, observations: seq<Observation>)
    requires (sc == ATTACK_CASE && (alert.Some? ==> 0 <= alert.value <= 20)) || (sc == BENIGN_CASE && alert.None?)
    ensures ObservationBound(Run(observations), Observed(sc, alert))
  {
    var (n, k) := (Run(observations), Executed(sc));
    assert CONTROL in n.controls;
    assert n.cases[0] == Executed(ATTACK_CASE) && n.cases[1] == Executed(BENIGN_CASE) && k in n.cases;
  }

  lemma BothValid(alert: Option<int>)
    requires alert.Some? ==> 0 <= alert.value <= 20
    ensures forall o :: o in BothObserved(alert) ==> ValidObservation(o)
  {
    ObservedValid(ATTACK_CASE, alert);
    ObservedValid(BENIGN_CASE, None);
  }

  lemma BothBound(alert: Option<int>)
    requires alert.Some? ==> 0 <= alert.value <= 20
    ensures forall o :: o in BothObserved(alert) ==> ObservationBound(Run(BothObserved(alert)), o)
  {
    ObservedBound(ATTACK_CASE, alert, BothObserved(alert));
    ObservedBound(BENIGN_CASE, None, BothObserved(alert));
    TwoBound(Run(BothObserved(alert)), Observed(ATTACK_CASE, alert), Observed(BENIGN_CASE, None));
  }

  lemma TwoBound(n: Input, o: Observation, p: Observation)
    requires ObservationBound(n, o) && ObservationBound(n, p)
    ensures forall x :: x in [o, p] ==> ObservationBound(n, x)
  {
  }

  lemma RunAccepted(alert: Option<int>)
    requires alert.Some? ==> 0 <= alert.value <= 20
    ensures Accepted(Run(BothObserved(alert)))
  {
    BothValid(alert);
    HeaderAndMembers(BothObserved(alert));
    BothBound(alert);
    ObservedDistinct(alert);
  }

  lemma ObservedDistinct(alert: Option<int>)
    ensures DistinctKeys(BothObserved(alert), ObservationKey)
  {
    assert ObservationKey(Observed(ATTACK_CASE, alert))[2] == 'a'
           && ObservationKey(Observed(BENIGN_CASE, None))[2] == 'b';
  }

  lemma HeaderAndMembers(observations: seq<Observation>)
    requires forall o :: o in observations ==> ValidObservation(o)
    ensures ValidInput(Run(observations))
  {
    Identity(observations);
    Matrix();
    MembersValid(observations);
  }

  lemma AttackEvidenced(alert: Option<int>)
    ensures Evidenced(EvidenceOf(Run(BothObserved(alert))), CONTROL, ATTACK_CASE, Executed(ATTACK_CASE),
                      Observed(ATTACK_CASE, alert))
  {
    LetterKept('a');
    EvidencedAt(Run(BothObserved(alert)), 0, ATTACK_CASE, alert);
  }

  lemma EvidencedAt(n: Input, i: nat, sc: ScenarioCase, alert: Option<int>)
    requires i < |n.cases| && n.cases[i] == Executed(sc) && i < |n.observations|
             && n.observations[i] == Observed(sc, alert)
    requires ScenarioKey(sc) == sc.ref && sc.window <= 20
    ensures Evidenced(EvidenceOf(n), CONTROL, sc, Executed(sc), Observed(sc, alert))
  {
  }

  lemma BenignEvidenced(alert: Option<int>)
    ensures Evidenced(EvidenceOf(Run(BothObserved(alert))), CONTROL, BENIGN_CASE, Executed(BENIGN_CASE),
                      Observed(BENIGN_CASE, None))
  {
    LetterKept('b');
    EvidencedAt(Run(BothObserved(alert)), 1, BENIGN_CASE, None);
  }

  // All three verdicts are reports on accepted inputs.
  lemma InTimeIsValidated(offset: int)
    requires 0 <= offset <= 5
    ensures Accepted(Run(BothObserved(Some(offset)))) && Coherent(EvidenceOf(Run(BothObserved(Some(offset)))))
    ensures ReportOf(Run(BothObserved(Some(offset)))).verdict == Validated
  {
    RunAccepted(Some(offset));
    VerdictExact(Run(BothObserved(Some(offset))));
    EveryPasses(offset);
  }

  lemma EveryPasses(offset: int)
    requires 0 <= offset <= 5
    ensures var n := Run(BothObserved(Some(offset)));
            forall c, sc :: c in n.controls && sc in n.scenario.cases ==> Passes(EvidenceOf(n), c, sc)
  {
    var n := Run(BothObserved(Some(offset)));
    AttackEvidenced(Some(offset));
    BenignEvidenced(Some(offset));
    BothPass(EvidenceOf(n), offset);
    OneControlTwoCases(BothObserved(Some(offset)));
  }

  lemma OneControlTwoCases(observations: seq<Observation>)
    ensures forall c :: c in Run(observations).controls ==> c == CONTROL
    ensures forall sc :: sc in Run(observations).scenario.cases ==> sc == ATTACK_CASE || sc == BENIGN_CASE
  {
  }

  lemma BothPass(e: Evidence, offset: int)
    requires offset <= 5
    requires Evidenced(e, CONTROL, ATTACK_CASE, Executed(ATTACK_CASE), Observed(ATTACK_CASE, Some(offset)))
    requires Evidenced(e, CONTROL, BENIGN_CASE, Executed(BENIGN_CASE), Observed(BENIGN_CASE, None))
    ensures Passes(e, CONTROL, ATTACK_CASE) && Passes(e, CONTROL, BENIGN_CASE)
  {
    assert Good(ATTACK_CASE, Observed(ATTACK_CASE, Some(offset)));
    assert ATTACK[0] != BENIGN[0];
    assert Good(BENIGN_CASE, Observed(BENIGN_CASE, None));
  }

  lemma UnalertedIsFailed()
    ensures Accepted(Run(BothObserved(None))) && Coherent(EvidenceOf(Run(BothObserved(None))))
    ensures ReportOf(Run(BothObserved(None))).verdict == Failed
  {
    var n := Run(BothObserved(None));
    RunAccepted(None);
    AttackEvidenced(None);
    VerdictExact(n);
    assert !Good(ATTACK_CASE, Observed(ATTACK_CASE, None));
    assert n.controls[0] == CONTROL && n.scenario.cases[0] == ATTACK_CASE;
    assert CONTROL in n.controls && ATTACK_CASE in n.scenario.cases && Fails(EvidenceOf(n), CONTROL, ATTACK_CASE);
  }

  lemma UnobservedNeverPasses()
    ensures var n := Run([]);
            CONTROL in n.controls && ATTACK_CASE in n.scenario.cases && !Passes(EvidenceOf(n), CONTROL, ATTACK_CASE)
  {
    var n := Run([]);
    assert n.controls[0] == CONTROL && n.scenario.cases[0] == ATTACK_CASE;
  }

  lemma UnobservedIsIncomplete()
    ensures Accepted(Run([])) && Coherent(EvidenceOf(Run([])))
    ensures ReportOf(Run([])).verdict == Unfinished
  {
    var n := Run([]);
    HeaderAndMembers([]);
    VerdictExact(n);
    UnobservedNeverPasses();
  }
}
