/**
 What a report gives as its reasons, in terms of the evidence: which rule each
 result names, when the alert came and by how much it met the deadline, and which
 references and hashes of evidence it rests on.
 */
module ValidationReasons {
  import opened Bytes
  import opened JsonCanonical
  import opened Strings
  import opened ValidationModel
  import opened ValidationSpec
  import opened ValidationVerdicts

  // ---------- what the evidence shows ----------

  // The execution of a scenario case under a control.
  predicate Executed(e: Evidence, c: Control, sc: ScenarioCase, k: Case) {
    k in e.cases && k.controlRef == c.ref && k.ref == ScenarioKey(sc)
  }

  // An observation of a scenario case under a control.
  predicate Watched(e: Evidence, c: Control, sc: ScenarioCase, o: Observation) {
    o in e.observations && o.controlRef == c.ref && o.caseRef == ScenarioKey(sc)
  }

  ghost predicate IsExecuted(e: Evidence, c: Control, sc: ScenarioCase) {
    exists k :: Executed(e, c, sc, k)
  }

  ghost predicate IsWatched(e: Evidence, c: Control, sc: ScenarioCase) {
    exists o :: Watched(e, c, sc, o)
  }

  // A verified execution, with a verified observation in the second case.
  ghost predicate ProvenRun(e: Evidence, c: Control, sc: ScenarioCase, k: Case) {
    Executed(e, c, sc, k) && k.evidence == VERIFIED
  }

  ghost predicate ProvenWatch(e: Evidence, c: Control, sc: ScenarioCase, k: Case, o: Observation) {
    ProvenRun(e, c, sc, k) && Watched(e, c, sc, o) && o.evidence == VERIFIED
  }

  ghost predicate UnprovenRun(e: Evidence, c: Control, sc: ScenarioCase) {
    exists k :: Executed(e, c, sc, k) && k.evidence != VERIFIED
  }

  ghost predicate UnseenRun(e: Evidence, c: Control, sc: ScenarioCase) {
    (exists k :: ProvenRun(e, c, sc, k)) && !IsWatched(e, c, sc)
  }

  ghost predicate UnprovenWatch(e: Evidence, c: Control, sc: ScenarioCase) {
    exists k, o :: ProvenRun(e, c, sc, k) && Watched(e, c, sc, o) && o.evidence != VERIFIED
  }

  ghost predicate CutWatch(e: Evidence, c: Control, sc: ScenarioCase) {
    exists k, o :: ProvenWatch(e, c, sc, k, o) && o.completed < sc.window
  }

  // An attack that was watched for its whole window without an alert.
  ghost predicate Unnoticed(e: Evidence, c: Control, sc: ScenarioCase) {
    sc.kind == ATTACK && exists k, o :: Evidenced(e, c, sc, k, o) && o.status == NO_ALERT
  }

  // An attack that was alerted, but after the latest offset that the scenario allows.
  ghost predicate NoticedLate(e: Evidence, c: Control, sc: ScenarioCase) {
    && sc.kind == ATTACK
    && exists k, o ::
         && Evidenced(e, c, sc, k, o) && o.status == ALERTED
         && o.alertOffset.Some? && sc.latestDetection.Some? && o.alertOffset.value > sc.latestDetection.value
  }

  // A benign case that raised an alert.
  ghost predicate FalselyNoticed(e: Evidence, c: Control, sc: ScenarioCase) {
    sc.kind == BENIGN && exists k, o :: Evidenced(e, c, sc, k, o) && o.status == ALERTED
  }

  // What the evidence must show for a rule to be broken.
  ghost predicate Broken(e: Evidence, c: Control, sc: ScenarioCase, rule: Rule) {
    match rule
    case VerifiedExecution => UnprovenRun(e, c, sc)
    case IndependentAlert => UnprovenWatch(e, c, sc)
    case DetectionDeadline => NoticedLate(e, c, sc)
    case MissedAttack => Unnoticed(e, c, sc)
    case BenignControl => FalselyNoticed(e, c, sc)
    case CompleteMatrix => !IsExecuted(e, c, sc) || UnseenRun(e, c, sc) || CutWatch(e, c, sc)
  }

  // The references that the evidence of a scenario case gives, as far as it goes.
  ghost predicate GivesRef(e: Evidence, c: Control, sc: ScenarioCase, ref: string) {
    || (exists k :: ProvenRun(e, c, sc, k) && ref == k.executionRef)
    || (exists k, o :: ProvenWatch(e, c, sc, k, o) && ref == o.evidenceRef)
    || (exists k, o :: Evidenced(e, c, sc, k, o) && o.alertRef != "" && ref == o.alertRef)
  }

  ghost predicate GivesHash(e: Evidence, c: Control, sc: ScenarioCase, hash: string) {
    || (exists k :: ProvenRun(e, c, sc, k) && hash in [k.executionHash, k.preStateHash, k.postStateHash])
    || (exists k, o :: ProvenWatch(e, c, sc, k, o) && hash == o.evidenceHash)
    || (exists k, o :: Evidenced(e, c, sc, k, o) && o.alertRef != "" && hash == o.alertHash)
  }

  // The result of a scenario case in the report of a control.
  ghost predicate Reported(e: Evidence, c: Control, sc: ScenarioCase, r: CaseResult)
    requires Coherent(e)
  {
    sc in e.expected && r in ControlReport(e, c).cases && r.caseRef == ScenarioKey(sc)
  }

  // ---------- one case and its observation ----------

  // The execution and the observation that a result is computed from, if any.
  predicate Found(e: Evidence, c: Control, sc: ScenarioCase, k: Option<Case>, o: Option<Observation>) {
    && (if k.Some? then Executed(e, c, sc, k.value) else forall x :: x in e.cases ==> !Executed(e, c, sc, x))
    && (if o.Some? then Watched(e, c, sc, o.value) else forall x :: x in e.observations ==> !Watched(e, c, sc, x))
  }

  ghost function Result(c: Control, sc: ScenarioCase, k: Option<Case>, o: Option<Observation>): CaseResult
    requires k.Some? ==> Scorable(k.value)
    requires o.Some? ==> Readable(o.value)
  {
    if k.Some? then EvaluateCase(c, k.value, o) else MissingCase(c, sc)
  }

  lemma FoundAgrees(e: Evidence, c: Control, sc: ScenarioCase, k: Option<Case>, o: Option<Observation>)
    requires Sound(e) && sc in e.expected && Found(e, c, sc, k, o)
    ensures k.Some? ==> Scorable(k.value) && Agrees(k.value, sc)
    ensures o.Some? ==> Readable(o.value)
  {
  }

  lemma ReportedResult(e: Evidence, c: Control, sc: ScenarioCase, r: CaseResult)
    requires Coherent(e) && Reported(e, c, sc, r)
    ensures r == ResultFor(e, c, ScenarioKey(sc))
  {
    var refs := Sorted(Refs(e));
    var i :| 0 <= i < |refs| && ControlReport(e, c).cases[i] == r;
    InRefs(e, refs, i);
  }

  lemma FoundResult(e: Evidence, c: Control, sc: ScenarioCase)
    requires Coherent(e) && sc in e.expected && ExpectedFor(e, ScenarioKey(sc)) == sc
    ensures var (k, o) := (CaseFor(e, c.ref, ScenarioKey(sc)), ObservationFor(e, c.ref, ScenarioKey(sc)));
            ResultFor(e, c, ScenarioKey(sc)) == Result(c, sc, k, o)
  {
  }

  lemma ResultIsFound(e: Evidence, c: Control, sc: ScenarioCase, r: CaseResult)
    returns (k: Option<Case>, o: Option<Observation>)
    requires Sound(e) && Reported(e, c, sc, r)
    ensures Found(e, c, sc, k, o)
    ensures k.Some? ==> Scorable(k.value) && Agrees(k.value, sc)
    ensures o.Some? ==> Readable(o.value)
    ensures r == Result(c, sc, k, o)
  {
    k, o := CaseFor(e, c.ref, ScenarioKey(sc)), ObservationFor(e, c.ref, ScenarioKey(sc));
    FoundAgrees(e, c, sc, k, o);
    ReportedResult(e, c, sc, r);
    assert ExpectedFor(e, ScenarioKey(sc)) == sc;
    FoundResult(e, c, sc);
  }

  lemma OnlyFound(e: Evidence, c: Control, sc: ScenarioCase, k: Option<Case>, o: Option<Observation>)
    requires Coherent(e) && Found(e, c, sc, k, o)
    ensures forall x :: Executed(e, c, sc, x) <==> k == Some(x)
    ensures forall x :: Watched(e, c, sc, x) <==> o == Some(x)
  {
  }

  // The shortcomings of the evidence, read off the one execution and the one
  // observation.
  lemma ShortcomingsFound(e: Evidence, c: Control, sc: ScenarioCase, k: Option<Case>, o: Option<Observation>)
    requires Coherent(e) && Found(e, c, sc, k, o)
    ensures IsExecuted(e, c, sc) <==> k.Some?
    ensures UnprovenRun(e, c, sc) <==> k.Some? && k.value.evidence != VERIFIED
    ensures UnseenRun(e, c, sc) <==> k.Some? && k.value.evidence == VERIFIED && o.None?
    ensures UnprovenWatch(e, c, sc) <==>
              k.Some? && k.value.evidence == VERIFIED && o.Some? && o.value.evidence != VERIFIED
    ensures CutWatch(e, c, sc) <==>
              && k.Some? && k.value.evidence == VERIFIED && o.Some? && o.value.evidence == VERIFIED
              && o.value.completed < sc.window
  {
    OnlyFound(e, c, sc, k, o);
    if k.Some? {
      assert Executed(e, c, sc, k.value);
      assert k.value.evidence == VERIFIED ==> ProvenRun(e, c, sc, k.value);
      if o.Some? {
        assert Watched(e, c, sc, o.value);
        assert k.value.evidence == VERIFIED && o.value.evidence == VERIFIED
          ==> ProvenWatch(e, c, sc, k.value, o.value);
      }
    }
  }

  predicate Full(sc: ScenarioCase, k: Option<Case>, o: Option<Observation>) {
    && k.Some? && k.value.evidence == VERIFIED && o.Some? && o.value.evidence == VERIFIED
    && o.value.completed >= sc.window
  }

  lemma FullFound(e: Evidence, c: Control, sc: ScenarioCase, k: Option<Case>, o: Option<Observation>)
    requires Coherent(e) && Found(e, c, sc, k, o)
    ensures forall x, y :: Evidenced(e, c, sc, x, y) <==> Full(sc, k, o) && k == Some(x) && o == Some(y)
  {
    OnlyFound(e, c, sc, k, o);
    forall x, y ensures Evidenced(e, c, sc, x, y) <==> Full(sc, k, o) && k == Some(x) && o == Some(y) {
      assert Executed(e, c, sc, x) <==> k == Some(x);
      assert Watched(e, c, sc, y) <==> o == Some(y);
    }
  }

  lemma ConductFound(e: Evidence, c: Control, sc: ScenarioCase, k: Option<Case>, o: Option<Observation>)
    requires Coherent(e) && Found(e, c, sc, k, o) && (o.Some? ==> Readable(o.value))
    requires sc.kind == ATTACK ==> sc.latestDetection.Some?
    ensures Unnoticed(e, c, sc) <==> Full(sc, k, o) && sc.kind == ATTACK && o.value.status == NO_ALERT
    ensures NoticedLate(e, c, sc) <==>
              && Full(sc, k, o) && sc.kind == ATTACK && o.value.status == ALERTED
              && o.value.alertOffset.value > sc.latestDetection.value
    ensures FalselyNoticed(e, c, sc) <==> Full(sc, k, o) && sc.kind == BENIGN && o.value.status == ALERTED
  {
    FullFound(e, c, sc, k, o);
    if Full(sc, k, o) {
      assert Evidenced(e, c, sc, k.value, o.value);
    }
  }

  // ---------- one result ----------

  // What Sound says of an execution and an observation of a scenario case.
  predicate Fits(sc: ScenarioCase, k: Option<Case>, o: Option<Observation>) {
    && KnownKind(sc)
    && (k.Some? ==> Scorable(k.value) && Agrees(k.value, sc))
    && (o.Some? ==> Readable(o.value))
  }

  // Rules and times of a result, without the rest of it.
  predicate Scored(k: Option<Case>, o: Option<Observation>, r: CaseResult)
    requires k.Some? ==> Scorable(k.value)
    requires o.Some? ==> Readable(o.value)
  {
    if k.None? then
      r.rules == {CompleteMatrix} && r.detection.None? && r.leadTime.None?
    else
      var stage := StageOf(k.value, o);
      && r.rules == RulesFor(stage, OutcomeFor(k.value, o))
      && r.detection == (if stage.Complete? then o.value.alertOffset else None)
      && r.leadTime == (if r.detection.Some? && k.value.kind == ATTACK
                        then Some(k.value.deadline.value - r.detection.value) else None)
  }

  lemma CollectedIsScored(c: Control, k: Case, o: Option<Observation>)
    requires Scorable(k) && (o.Some? ==> Readable(o.value))
    ensures Scored(Some(k), o, CollectedCase(c, k, o))
  {
  }

  lemma FinalizedScored(k: Option<Case>, o: Option<Observation>, r: CaseResult)
    requires (k.Some? ==> Scorable(k.value)) && (o.Some? ==> Readable(o.value)) && Scored(k, o, r)
    ensures Scored(k, o, Finalized(r))
  {
  }

  lemma ResultIsScored(c: Control, sc: ScenarioCase, k: Option<Case>, o: Option<Observation>)
    requires Fits(sc, k, o)
    ensures Scored(k, o, Result(c, sc, k, o))
  {
    if k.Some? {
      CollectedIsScored(c, k.value, o);
      FinalizedScored(k, o, CollectedCase(c, k.value, o));
    }
  }

  lemma RulesScored(sc: ScenarioCase, k: Option<Case>, o: Option<Observation>, r: CaseResult)
    requires Fits(sc, k, o) && Scored(k, o, r)
    ensures VerifiedExecution in r.rules <==> k.Some? && k.value.evidence != VERIFIED
    ensures IndependentAlert in r.rules <==>
              k.Some? && k.value.evidence == VERIFIED && o.Some? && o.value.evidence != VERIFIED
    ensures CompleteMatrix in r.rules <==>
              || k.None? || (k.value.evidence == VERIFIED && o.None?)
              || (&& k.value.evidence == VERIFIED && o.Some? && o.value.evidence == VERIFIED
                  && o.value.completed < sc.window)
    ensures MissedAttack in r.rules <==> Full(sc, k, o) && sc.kind == ATTACK && o.value.status == NO_ALERT
    ensures BenignControl in r.rules <==> Full(sc, k, o) && sc.kind == BENIGN && o.value.status == ALERTED
    ensures DetectionDeadline in r.rules <==>
              && Full(sc, k, o) && sc.kind == ATTACK && o.value.status == ALERTED
              && o.value.alertOffset.value > sc.latestDetection.value
    ensures r.rules == {} <==> Full(sc, k, o) && Good(sc, o.value)
    ensures |r.rules| <= 1
  {
  }

  lemma RulesFound(e: Evidence, c: Control, sc: ScenarioCase, k: Option<Case>, o: Option<Observation>, r: CaseResult,
                   rule: Rule)
    requires Coherent(e) && Found(e, c, sc, k, o) && Fits(sc, k, o) && Scored(k, o, r)
    ensures rule in r.rules <==> Broken(e, c, sc, rule)
  {
    RulesScored(sc, k, o, r);
    ShortcomingsFound(e, c, sc, k, o);
    if k.Some? {
      ConductFound(e, c, sc, k, o);
    } else {
      FullFound(e, c, sc, k, o);
    }
  }

  // A result names exactly the rules that the evidence shows to be broken.
  lemma RulesExact(e: Evidence, c: Control, sc: ScenarioCase, r: CaseResult)
    requires Sound(e) && Reported(e, c, sc, r)
    ensures forall rule :: rule in r.rules <==> Broken(e, c, sc, rule)
  {
    var k, o := ResultIsFound(e, c, sc, r);
    ResultIsScored(c, sc, k, o);
    forall rule ensures rule in r.rules <==> Broken(e, c, sc, rule) {
      RulesFound(e, c, sc, k, o, r, rule);
    }
  }

  lemma PassFound(e: Evidence, c: Control, sc: ScenarioCase, k: Option<Case>, o: Option<Observation>, r: CaseResult)
    requires Coherent(e) && Found(e, c, sc, k, o) && Fits(sc, k, o) && Scored(k, o, r)
    ensures r.rules == {} <==> Passes(e, c, sc)
    ensures |r.rules| <= 1
  {
    RulesScored(sc, k, o, r);
    FullFound(e, c, sc, k, o);
    if Full(sc, k, o) {
      assert Evidenced(e, c, sc, k.value, o.value);
    }
  }

  // No rule is named exactly when the evidence is complete and shows good
  // conduct, and never more than one.
  lemma NoRuleIffPasses(e: Evidence, c: Control, sc: ScenarioCase, r: CaseResult)
    requires Sound(e) && Reported(e, c, sc, r)
    ensures r.rules == {} <==> Passes(e, c, sc)
    ensures |r.rules| <= 1
  {
    var k, o := ResultIsFound(e, c, sc, r);
    ResultIsScored(c, sc, k, o);
    PassFound(e, c, sc, k, o, r);
  }

  // The alert that a result speaks of, and the time it left until the deadline.
  ghost predicate TimedBy(r: CaseResult, sc: ScenarioCase, o: Observation) {
    && r.detection == o.alertOffset
    && r.leadTime.Some? == (sc.kind == ATTACK && o.alertOffset.Some?)
    && (r.leadTime.Some? ==>
          sc.latestDetection.Some? && o.alertOffset.value + r.leadTime.value == sc.latestDetection.value)
  }

  lemma TimingFound(sc: ScenarioCase, k: Option<Case>, o: Option<Observation>, r: CaseResult)
    requires Fits(sc, k, o) && Scored(k, o, r)
    ensures if Full(sc, k, o) then TimedBy(r, sc, o.value) else r.detection.None? && r.leadTime.None?
  {
  }

  // Detection is the offset of the alert in full evidence, and lead time is what
  // an attack's alert left until the deadline, negative when it came too late.
  lemma TimingExact(e: Evidence, c: Control, sc: ScenarioCase, r: CaseResult)
    requires Sound(e) && Reported(e, c, sc, r)
    ensures forall k, o :: Evidenced(e, c, sc, k, o) ==> TimedBy(r, sc, o)
    ensures r.detection.Some? <==> exists k, o :: Evidenced(e, c, sc, k, o) && o.alertOffset.Some?
    ensures r.leadTime.Some? ==> r.detection.Some?
    ensures DetectionDeadline in r.rules <==> r.leadTime.Some? && r.leadTime.value < 0
  {
    var k, o := ResultIsFound(e, c, sc, r);
    ResultIsScored(c, sc, k, o);
    TimingFound(sc, k, o, r);
    FullFound(e, c, sc, k, o);
    if Full(sc, k, o) {
      assert Evidenced(e, c, sc, k.value, o.value);
    }
    LateFound(sc, k, o, r);
  }

  lemma LateFound(sc: ScenarioCase, k: Option<Case>, o: Option<Observation>, r: CaseResult)
    requires Fits(sc, k, o) && Scored(k, o, r)
    ensures DetectionDeadline in r.rules <==> r.leadTime.Some? && r.leadTime.value < 0
  {
  }

  // ---------- the evidence cited ----------

  lemma SortedMember(values: seq<string>, x: string)
    ensures x in SortedUnique(values) <==> exists v :: v in values && Trim(v) != "" && Trim(v) == x
  {
  }

  function RefsOf(k: Option<Case>, o: Option<Observation>): seq<string> {
    if k.Some? then EvidenceRefsFor(k.value, o) else []
  }

  function HashesOf(k: Option<Case>, o: Option<Observation>): seq<string> {
    if k.Some? then EvidenceHashesFor(k.value, o) else []
  }

  predicate ProvenBoth(k: Option<Case>, o: Option<Observation>) {
    k.Some? && k.value.evidence == VERIFIED && o.Some? && o.value.evidence == VERIFIED
  }

  lemma RefsListed(sc: ScenarioCase, k: Case, o: Option<Observation>, v: string)
    requires Fits(sc, Some(k), o)
    ensures v in EvidenceRefsFor(k, o) <==>
              || (k.evidence == VERIFIED && v == k.executionRef)
              || (ProvenBoth(Some(k), o) && v == o.value.evidenceRef)
              || (Full(sc, Some(k), o) && o.value.alertRef != "" && v == o.value.alertRef)
  {
  }

  lemma HashesListed(sc: ScenarioCase, k: Case, o: Option<Observation>, v: string)
    requires Fits(sc, Some(k), o)
    ensures v in EvidenceHashesFor(k, o) <==>
              || (k.evidence == VERIFIED && v in [k.executionHash, k.preStateHash, k.postStateHash])
              || (ProvenBoth(Some(k), o) && v == o.value.evidenceHash)
              || (Full(sc, Some(k), o) && o.value.alertRef != "" && v == o.value.alertHash)
  {
  }

  lemma ProvenFound(e: Evidence, c: Control, sc: ScenarioCase, k: Option<Case>, o: Option<Observation>)
    requires Coherent(e) && Found(e, c, sc, k, o)
    ensures forall x :: ProvenRun(e, c, sc, x) <==> k == Some(x) && x.evidence == VERIFIED
    ensures forall x, y :: ProvenWatch(e, c, sc, x, y) <==> ProvenBoth(k, o) && k == Some(x) && o == Some(y)
  {
    OnlyFound(e, c, sc, k, o);
  }

  // The references of a stage are those of the evidence it has established.
  lemma RefsFound(e: Evidence, c: Control, sc: ScenarioCase, k: Option<Case>, o: Option<Observation>, v: string)
    requires Coherent(e) && Found(e, c, sc, k, o) && Fits(sc, k, o)
    ensures GivesRef(e, c, sc, v) <==> v in RefsOf(k, o)
  {
    ProvenFound(e, c, sc, k, o);
    FullFound(e, c, sc, k, o);
    if k.Some? {
      RefsListed(sc, k.value, o, v);
      assert k.value.evidence == VERIFIED ==> ProvenRun(e, c, sc, k.value);
      assert ProvenBoth(k, o) ==> ProvenWatch(e, c, sc, k.value, o.value);
      assert Full(sc, k, o) ==> Evidenced(e, c, sc, k.value, o.value);
    }
  }

  lemma HashesFound(e: Evidence, c: Control, sc: ScenarioCase, k: Option<Case>, o: Option<Observation>, v: string)
    requires Coherent(e) && Found(e, c, sc, k, o) && Fits(sc, k, o)
    ensures GivesHash(e, c, sc, v) <==> v in HashesOf(k, o)
  {
    ProvenFound(e, c, sc, k, o);
    FullFound(e, c, sc, k, o);
    if k.Some? {
      HashesListed(sc, k.value, o, v);
      assert k.value.evidence == VERIFIED ==> ProvenRun(e, c, sc, k.value);
      assert ProvenBoth(k, o) ==> ProvenWatch(e, c, sc, k.value, o.value);
      assert Full(sc, k, o) ==> Evidenced(e, c, sc, k.value, o.value);
    }
  }

  ghost predicate CitesRef(e: Evidence, c: Control, sc: ScenarioCase, ref: string) {
    exists v :: GivesRef(e, c, sc, v) && Trim(v) != "" && Trim(v) == ref
  }

  ghost predicate CitesHash(e: Evidence, c: Control, sc: ScenarioCase, hash: string) {
    exists v :: GivesHash(e, c, sc, v) && Trim(v) != "" && Trim(v) == hash
  }

  // A result cites exactly the evidence there is, in increasing order: nothing
  // of an unverified execution, nothing of an unverified observation, and an
  // alert only of a completed window.
  lemma CitationsExact(e: Evidence, c: Control, sc: ScenarioCase, r: CaseResult)
    requires Sound(e) && Reported(e, c, sc, r)
    ensures forall x :: x in r.evidenceRefs <==> CitesRef(e, c, sc, x)
    ensures forall x :: x in r.evidenceHashes <==> CitesHash(e, c, sc, x)
    ensures forall i, j :: 0 <= i < j < |r.evidenceRefs| ==> Less(r.evidenceRefs[i], r.evidenceRefs[j])
    ensures forall i, j :: 0 <= i < j < |r.evidenceHashes| ==> Less(r.evidenceHashes[i], r.evidenceHashes[j])
  {
    var k, o := ResultIsFound(e, c, sc, r);
    CitedLists(c, sc, k, o);
    forall x ensures x in r.evidenceRefs <==> CitesRef(e, c, sc, x) {
      RefCited(e, c, sc, k, o, x);
    }
    forall x ensures x in r.evidenceHashes <==> CitesHash(e, c, sc, x) {
      HashCited(e, c, sc, k, o, x);
    }
  }

  lemma CitedLists(c: Control, sc: ScenarioCase, k: Option<Case>, o: Option<Observation>)
    requires Fits(sc, k, o)
    ensures Result(c, sc, k, o).evidenceRefs == SortedUnique(RefsOf(k, o))
    ensures Result(c, sc, k, o).evidenceHashes == SortedUnique(HashesOf(k, o))
  {
    assert SortedUnique([]) == [];
  }

  lemma RefCited(e: Evidence, c: Control, sc: ScenarioCase, k: Option<Case>, o: Option<Observation>, x: string)
    requires Coherent(e) && Found(e, c, sc, k, o) && Fits(sc, k, o)
    ensures x in SortedUnique(RefsOf(k, o)) <==> CitesRef(e, c, sc, x)
  {
    SortedMember(RefsOf(k, o), x);
    forall v ensures GivesRef(e, c, sc, v) <==> v in RefsOf(k, o) {
      RefsFound(e, c, sc, k, o, v);
    }
  }

  lemma HashCited(e: Evidence, c: Control, sc: ScenarioCase, k: Option<Case>, o: Option<Observation>, x: string)
    requires Coherent(e) && Found(e, c, sc, k, o) && Fits(sc, k, o)
    ensures x in SortedUnique(HashesOf(k, o)) <==> CitesHash(e, c, sc, x)
  {
    SortedMember(HashesOf(k, o), x);
    forall v ensures GivesHash(e, c, sc, v) <==> v in HashesOf(k, o) {
      HashesFound(e, c, sc, k, o, v);
    }
  }

  // ---------- the rest of a result ----------

  // What a result repeats of the scenario case, the execution and the
  // observation it belongs to.
  predicate Describes(c: Control, sc: ScenarioCase, r: CaseResult) {
    && r.controlRef == c.ref && r.caseRef == ScenarioKey(sc) && r.kind == sc.kind
    && r.impact == sc.impact && r.deadline == sc.latestDetection && r.window == sc.window
  }

  predicate RepeatsRun(r: CaseResult, techniqueId: string, mode: string, evidence: string) {
    r.techniqueId == techniqueId && r.mode == mode && r.executionEvidence == evidence
  }

  predicate RepeatsWatch(r: CaseResult, status: string, evidence: string) {
    r.observationStatus == status && r.observationEvidence == evidence
  }

  predicate RepeatsFound(k: Option<Case>, o: Option<Observation>, r: CaseResult) {
    && (if k.Some? then RepeatsRun(r, k.value.techniqueId, k.value.mode, k.value.evidence)
        else RepeatsRun(r, "", "", UNVERIFIED))
    && (if k.Some? && k.value.evidence == VERIFIED && o.Some?
        then RepeatsWatch(r, o.value.status, o.value.evidence)
        else RepeatsWatch(r, "", ""))
  }

  lemma DetailsFound(c: Control, sc: ScenarioCase, k: Option<Case>, o: Option<Observation>)
    requires Fits(sc, k, o)
    requires k.Some? ==> k.value.ref == ScenarioKey(sc)
    ensures Describes(c, sc, Result(c, sc, k, o))
    ensures RepeatsFound(k, o, Result(c, sc, k, o))
  {
  }

  // A result describes the scenario case it is listed for, repeats the execution
  // of it, and repeats an observation once the execution is verified.
  lemma DetailsExact(e: Evidence, c: Control, sc: ScenarioCase, r: CaseResult)
    requires Sound(e) && Reported(e, c, sc, r)
    ensures Describes(c, sc, r)
    ensures forall k :: Executed(e, c, sc, k) ==> RepeatsRun(r, k.techniqueId, k.mode, k.evidence)
    ensures !IsExecuted(e, c, sc) ==> RepeatsRun(r, "", "", UNVERIFIED)
    ensures forall k, o :: ProvenRun(e, c, sc, k) && Watched(e, c, sc, o) ==> RepeatsWatch(r, o.status, o.evidence)
    ensures (forall k :: !ProvenRun(e, c, sc, k)) || !IsWatched(e, c, sc) ==> RepeatsWatch(r, "", "")
  {
    var k, o := ResultIsFound(e, c, sc, r);
    DetailsFound(c, sc, k, o);
    OnlyFound(e, c, sc, k, o);
    if k.Some? {
      assert Executed(e, c, sc, k.value);
      assert k.value.evidence == VERIFIED ==> ProvenRun(e, c, sc, k.value);
    }
    if o.Some? {
      assert Watched(e, c, sc, o.value);
    }
  }

  // What a result remarks on, in the words of the report.
  ghost predicate Remarked(e: Evidence, c: Control, sc: ScenarioCase, text: string) {
    || (text == "scenario case execution is missing" && !IsExecuted(e, c, sc))
    || (text == "case execution evidence is not verified" && UnprovenRun(e, c, sc))
    || (text == "independent control observation is missing" && UnseenRun(e, c, sc))
    || (text == "control observation evidence is not verified" && UnprovenWatch(e, c, sc))
    || (text == "observation window did not complete" && CutWatch(e, c, sc))
  }

  predicate RemarksFound(sc: ScenarioCase, k: Option<Case>, o: Option<Observation>, remarks: seq<string>) {
    if k.None? then remarks == ["scenario case execution is missing"]
    else if k.value.evidence != VERIFIED then remarks == ["case execution evidence is not verified"]
    else if o.None? then remarks == ["independent control observation is missing"]
    else if o.value.evidence != VERIFIED then remarks == ["control observation evidence is not verified"]
    else if o.value.completed < sc.window then remarks == ["observation window did not complete"]
    else remarks == []
  }

  lemma RemarksOfResult(c: Control, sc: ScenarioCase, k: Option<Case>, o: Option<Observation>)
    requires Fits(sc, k, o)
    ensures RemarksFound(sc, k, o, Result(c, sc, k, o).limitations)
  {
  }

  lemma RemarksAgree(e: Evidence, c: Control, sc: ScenarioCase, k: Option<Case>, o: Option<Observation>,
                     remarks: seq<string>)
    requires Coherent(e) && Found(e, c, sc, k, o) && RemarksFound(sc, k, o, remarks)
    ensures forall text :: text in remarks <==> Remarked(e, c, sc, text)
    ensures |remarks| <= 1
  {
    ShortcomingsFound(e, c, sc, k, o);
  }

  lemma RemarksExact(e: Evidence, c: Control, sc: ScenarioCase, r: CaseResult)
    requires Sound(e) && Reported(e, c, sc, r)
    ensures forall text :: text in r.limitations <==> Remarked(e, c, sc, text)
    ensures |r.limitations| <= 1
  {
    var k, o := ResultIsFound(e, c, sc, r);
    RemarksOfResult(c, sc, k, o);
    RemarksAgree(e, c, sc, k, o, r.limitations);
  }

  // What each outcome says.
  ghost predicate Concluded(e: Evidence, c: Control, sc: ScenarioCase, outcome: Outcome) {
    match outcome
    case Missed => Unnoticed(e, c, sc)
    case CaughtLate => NoticedLate(e, c, sc)
    case FalsePositive => FalselyNoticed(e, c, sc)
    case CaughtInTime => sc.kind == ATTACK && Passes(e, c, sc)
    case Clean => sc.kind == BENIGN && Passes(e, c, sc)
    case Incomplete => forall k, o :: !Evidenced(e, c, sc, k, o)
  }

  lemma OutcomeScored(sc: ScenarioCase, k: Option<Case>, o: Option<Observation>)
    requires Fits(sc, k, o)
    ensures var outcome := if k.Some? then OutcomeFor(k.value, o) else Incomplete;
            if !Full(sc, k, o) then outcome == Incomplete
            else if sc.kind == BENIGN then outcome == (if o.value.status == ALERTED then FalsePositive else Clean)
            else if o.value.status == NO_ALERT then outcome == Missed
            else outcome == (if Good(sc, o.value) then CaughtInTime else CaughtLate)
  {
  }

  lemma OutcomeFound(e: Evidence, c: Control, sc: ScenarioCase, k: Option<Case>, o: Option<Observation>)
    requires Coherent(e) && Found(e, c, sc, k, o) && Fits(sc, k, o)
    ensures Concluded(e, c, sc, if k.Some? then OutcomeFor(k.value, o) else Incomplete)
  {
    OutcomeScored(sc, k, o);
    FullFound(e, c, sc, k, o);
    if Full(sc, k, o) {
      ConductFound(e, c, sc, k, o);
      assert Evidenced(e, c, sc, k.value, o.value);
    }
  }

  lemma OneConclusion(e: Evidence, c: Control, sc: ScenarioCase, x: Outcome, y: Outcome)
    requires Sound(e) && Concluded(e, c, sc, x) && Concluded(e, c, sc, y) && sc in e.expected
    ensures x == y
  {
    assert KnownKind(sc);
  }

  // A result has the one outcome that the evidence shows.
  lemma ConclusionExact(e: Evidence, c: Control, sc: ScenarioCase, r: CaseResult)
    requires Sound(e) && Reported(e, c, sc, r)
    ensures forall outcome :: Concluded(e, c, sc, outcome) <==> outcome == r.outcome
  {
    var k, o := ResultIsFound(e, c, sc, r);
    OutcomeFound(e, c, sc, k, o);
    forall outcome | Concluded(e, c, sc, outcome) ensures outcome == r.outcome {
      OneConclusion(e, c, sc, outcome, r.outcome);
    }
  }

  // ---------- a control and the report ----------

  lemma ResultListed(e: Evidence, c: Control, sc: ScenarioCase) returns (r: CaseResult)
    requires Coherent(e) && sc in e.expected
    ensures Reported(e, c, sc, r)
  {
    r := EveryOutcomeListed(e, c, sc);
  }

  // A control's report names a rule exactly when some scenario case breaks it.
  lemma ControlRulesExact(e: Evidence, c: Control, rule: Rule)
    requires Sound(e)
    ensures rule in ControlReport(e, c).rules <==> exists sc :: sc in e.expected && Broken(e, c, sc, rule)
  {
    if rule in ControlReport(e, c).rules {
      var r :| r in ControlReport(e, c).cases && rule in r.rules;
      var sc := OnlyOutcomesListed(e, c, r);
      RulesExact(e, c, sc, r);
    }
    if sc :| sc in e.expected && Broken(e, c, sc, rule) {
      var r := ResultListed(e, c, sc);
      RulesExact(e, c, sc, r);
    }
  }

  // Everything that the result of one scenario case says.
  ghost predicate Explained(e: Evidence, c: Control, sc: ScenarioCase, r: CaseResult) {
    && Describes(c, sc, r)
    && (forall outcome :: Concluded(e, c, sc, outcome) <==> outcome == r.outcome)
    && (forall rule :: rule in r.rules <==> Broken(e, c, sc, rule))
    && (forall k, o :: Evidenced(e, c, sc, k, o) ==> TimedBy(r, sc, o))
    && (forall x :: x in r.evidenceRefs <==> CitesRef(e, c, sc, x))
    && (forall x :: x in r.evidenceHashes <==> CitesHash(e, c, sc, x))
    && (forall text :: text in r.limitations <==> Remarked(e, c, sc, text))
  }

  lemma ResultExplained(e: Evidence, c: Control, sc: ScenarioCase, r: CaseResult)
    requires Sound(e) && Reported(e, c, sc, r)
    ensures Explained(e, c, sc, r)
  {
    DetailsExact(e, c, sc, r);
    ConclusionExact(e, c, sc, r);
    RulesExact(e, c, sc, r);
    TimingExact(e, c, sc, r);
    CitationsExact(e, c, sc, r);
    RemarksExact(e, c, sc, r);
  }

  // A control's part of a report: one explained result for each scenario case,
  // no others, and the rules that any scenario case breaks.
  ghost predicate EntryExplained(e: Evidence, c: Control, entry: ControlResult) {
    && entry.control == c
    && (forall rule :: rule in entry.rules <==> exists sc :: sc in e.expected && Broken(e, c, sc, rule))
    && (forall sc :: sc in e.expected ==> HasExplained(e, c, sc, entry.cases))
    && (forall r :: r in entry.cases ==> exists sc :: sc in e.expected && Explained(e, c, sc, r))
  }

  ghost predicate HasExplained(e: Evidence, c: Control, sc: ScenarioCase, results: seq<CaseResult>) {
    exists r :: r in results && Explained(e, c, sc, r)
  }

  lemma EveryCaseExplained(e: Evidence, c: Control, sc: ScenarioCase)
    requires Sound(e) && sc in e.expected
    ensures HasExplained(e, c, sc, ControlReport(e, c).cases)
  {
    var r := ResultListed(e, c, sc);
    ResultExplained(e, c, sc, r);
  }

  lemma EveryResultExplained(e: Evidence, c: Control, r: CaseResult)
    requires Sound(e) && r in ControlReport(e, c).cases
    ensures exists sc :: sc in e.expected && Explained(e, c, sc, r)
  {
    var sc := OnlyOutcomesListed(e, c, r);
    ResultExplained(e, c, sc, r);
  }

  lemma ControlExplained(e: Evidence, c: Control)
    requires Sound(e)
    ensures EntryExplained(e, c, ControlReport(e, c))
  {
    forall rule ensures rule in ControlReport(e, c).rules <==> exists sc :: sc in e.expected && Broken(e, c, sc, rule) {
      ControlRulesExact(e, c, rule);
    }
    forall sc | sc in e.expected ensures HasExplained(e, c, sc, ControlReport(e, c).cases) {
      EveryCaseExplained(e, c, sc);
    }
    forall r | r in ControlReport(e, c).cases ensures exists sc :: sc in e.expected && Explained(e, c, sc, r) {
      EveryResultExplained(e, c, r);
    }
  }

  // One explained entry for each control and no others.
  ghost predicate AllExplained(e: Evidence, entries: seq<ControlResult>) {
    && (forall c :: c in e.controls ==> exists entry :: entry in entries && EntryExplained(e, c, entry))
    && (forall entry :: entry in entries ==> exists c :: c in e.controls && EntryExplained(e, c, entry))
  }

  // The report of an accepted input explains itself, control by control.
  lemma ReportExplained(n: Input)
    requires Accepted(n)
    ensures Coherent(EvidenceOf(n))
    ensures AllExplained(EvidenceOf(n), ReportOf(n).controls)
  {
    AcceptedIsSound(n);
    EntriesExplained(EvidenceOf(n));
  }

  lemma EntriesExplained(e: Evidence)
    requires Sound(e)
    ensures AllExplained(e, ControlReports(e))
  {
    forall c | c in e.controls ensures exists entry :: entry in ControlReports(e) && EntryExplained(e, c, entry) {
      EveryControlListed(e, c);
      ControlExplained(e, c);
    }
    forall entry | entry in ControlReports(e) ensures exists c :: c in e.controls && EntryExplained(e, c, entry) {
      var c := OnlyControlsListed(e, entry);
      ControlExplained(e, c);
    }
  }

  lemma HeaderRepeated(n: Input)
    requires Coherent(EvidenceOf(n))
    ensures var report := ReportOf(n);
            && report.runRef == n.runRef && report.scenarioRef == n.scenarioRef
            && report.scenarioVersion == n.scenarioVersion && report.contractHash == n.contractHash
            && report.chain == n.chain && report.chainId == n.chainId && report.ruleset == n.ruleset
  {
  }

  lemma LowerTwice(s: string)
    ensures Lower(Lower(s)) == Lower(s)
  {
  }

  lemma IdentityAgrees(n: Input)
    requires ValidIdentity(n)
    ensures n.runRef != "" && n.ruleset == RULESET && n.scenario.isSealed
    ensures n.scenarioRef == Trim(n.scenario.ref) && n.scenarioVersion == Trim(n.scenario.version)
    ensures n.chain == Lower(Trim(n.scenario.chain)) && Lower(n.contractHash) == Lower(n.scenario.digest)
  {
  }

  // The report names the run and the sealed contract it was made for, whatever
  // the letter case and the white space of the input.
  lemma ReportNamesItsContract(input: Input)
    requires Accepted(Normalized(input))
    ensures Coherent(EvidenceOf(Normalized(input)))
    ensures var report := ReportOf(Normalized(input));
            && report.runRef == Trim(input.runRef) && report.runRef != "" && report.chainId == input.chainId
            && report.scenarioRef == Trim(input.scenario.ref) && report.scenarioVersion == Trim(input.scenario.version)
            && report.chain == Lower(Trim(input.scenario.chain)) && report.ruleset == RULESET
            && report.contractHash == Lower(input.scenario.digest) && input.scenario.isSealed
  {
    AcceptedIsCoherent(Normalized(input));
    IdentityAgrees(Normalized(input));
    LowerTwice(Trim(input.contractHash));
    HeaderRepeated(Normalized(input));
  }
}
