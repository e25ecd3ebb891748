/**
 What adapted evidence vouches for.  A case is made exactly from evidence that
 attests it, and an observation exactly from an event that vouches for it under the
 collector key of the control; both are said here without the adapters.
 */
module Provenance {
  import opened Adapters
  import opened Bytes
  import opened JsonCanonical
  import opened Strings
  import opened ValidationModel

  // ---------- what vouches for an observation ----------

  // The digest is listed, whatever its letter case and the white space around it.
  predicate Listed(digests: seq<string>, digest: string) {
    exists d :: d in digests && Lower(Trim(d)) == Lower(Trim(digest))
  }

  predicate IsFinding(f: Finding, controlRef: string, caseRef: string) {
    f.kind == FINDING_KIND && f.id == "dv-observation:" + controlRef + ":" + caseRef
  }

  // The finding at one place confirms the digest, and no other is about the pair.
  predicate OnlyFindingAt(findings: seq<Finding>, controlRef: string, caseRef: string, digest: string, i: nat) {
    && i < |findings| && IsFinding(findings[i], controlRef, caseRef)
    && findings[i].verified && Lower(findings[i].evidence) == Lower(digest)
    && forall j :: 0 <= j < |findings| && j != i ==> !IsFinding(findings[j], controlRef, caseRef)
  }

  ghost predicate OnlyFinding(findings: seq<Finding>, controlRef: string, caseRef: string, digest: string) {
    exists i: nat :: OnlyFindingAt(findings, controlRef, caseRef, digest, i)
  }

  // The binding that an event's finding must confirm: this execution, with the
  // status and the offsets of the observation.
  predicate Binds(b: Binding, c: Control, k: Case, o: Observation) {
    && b.version == BINDING_VERSION && b.chain == k.chain && b.controlRef == c.ref && b.caseRef == k.ref
    && Lower(b.executionHash) == Lower(k.executionHash)
    && b.status == o.status && b.alertOffset == o.alertOffset && b.completed == o.completed
  }

  // The event is authentic under the key of the control's collector, names the
  // collector, the chain and the case, covers the observation, and is bound to both
  // artifacts and, by exactly one finding, to the binding.
  ghost predicate Vouches(digests: Digests, c: Control, x: Execution, o: Observation, b: Binding, e: Event) {
    && digests.authentic(e, c.collectorRef, c.collectorKey) && e.producer == c.collectorRef
    && e.chain == x.kase.chain && e.subjectType == SUBJECT_TYPE && e.subjectId == x.kase.ref
    && e.to - e.from >= o.completed >= x.kase.window
    && Listed(e.sourceDigests, x.receiptDigest) && Listed(e.sourceDigests, x.proofDigest)
    && Binds(b, c, x.kase, o) && OnlyFinding(e.findings, c.ref, x.kase.ref, digests.binding(b))
  }

  // A control with an independent collector, whose configuration is that of the
  // collector's key.
  predicate Trusted(digests: Digests, c: Control) {
    && c.ref != "" && c.collectorRef != "" && c.ref != c.collectorRef && ValidCollectorKey(c.collectorKey)
    && c.adapterVersion == ADAPTER_VERSION
    && Lower(c.configurationHash) == Lower(digests.configuration(c.collectorKey))
  }

  // The reference to a hash: the hash in lower case, with the prefix once.
  predicate RefersTo(reference: string, hash: string) {
    var h := Lower(Trim(hash));
    "sha256:" <= reference && (reference == h || (reference == "sha256:" + h && !("sha256:" <= h)))
  }

  // What the observation says of itself.
  predicate Cites(c: Control, k: Case, o: Observation, e: Event, digest: string) {
    && o.controlRef == c.ref && o.collectorRef == c.collectorRef && o.caseRef == k.ref && o.evidence == VERIFIED
    && o.evidenceRef == "security-evidence:event:" + Lower(e.digest) && RefersTo(o.evidenceHash, e.digest)
    && (if o.status == ALERTED
        then o.alertRef == "security-evidence:finding:dv-observation:" + c.ref + ":" + k.ref
             && RefersTo(o.alertHash, digest)
        else o.alertRef == "" && o.alertHash == "")
  }

  // An alert within the observation when the control signaled, else none.
  predicate Consistent(x: Execution, o: Observation) {
    if x.signaled then o.status == ALERTED && Within(o.alertOffset, o.completed)
    else o.status == NO_ALERT && o.alertOffset.None? && o.completed >= 0
  }

  // The execution is one of the control, on a chain and with a hash of its own.
  predicate Concerned(digests: Digests, c: Control, x: Execution, b: Binding) {
    && x.kase.controlRef == c.ref
    && Lower(x.kase.configurationHash) == Lower(digests.configuration(c.collectorKey))
    && b.chain != "" && b.caseRef != "" && ValidHash(b.executionHash)
  }

  // ---------- findings ----------

  lemma {:induction false} NoneConcerning(findings: seq<Finding>, id: string)
    ensures Concerning(findings, id) == [] <==> forall j :: 0 <= j < |findings| ==> !Concerns(findings[j], id)
    decreases |findings|
  {
    if findings != [] {
      var rest := findings[..|findings| - 1];
      NoneConcerning(rest, id);
      assert forall j :: 0 <= j < |rest| ==> rest[j] == findings[j];
    }
  }

  // The place of the only finding that concerns the identifier.
  lemma {:induction false} OnePlace(findings: seq<Finding>, id: string) returns (i: nat)
    requires |Concerning(findings, id)| == 1
    ensures i < |findings| && Concerns(findings[i], id) && Concerning(findings, id) == [findings[i]]
    ensures forall j :: 0 <= j < |findings| && j != i ==> !Concerns(findings[j], id)
    decreases |findings|
  {
    var n := |findings| - 1;
    var rest := findings[..n];
    assert forall j :: 0 <= j < n ==> rest[j] == findings[j];
    if Concerns(findings[n], id) {
      NoneConcerning(rest, id);
      i := n;
    } else {
      i := OnePlace(rest, id);
    }
  }

  lemma {:induction false} PlaceIsOne(findings: seq<Finding>, id: string, i: nat)
    requires i < |findings| && Concerns(findings[i], id)
    requires forall j :: 0 <= j < |findings| && j != i ==> !Concerns(findings[j], id)
    ensures Concerning(findings, id) == [findings[i]]
    decreases |findings|
  {
    var n := |findings| - 1;
    var rest := findings[..n];
    assert forall j :: 0 <= j < n ==> rest[j] == findings[j];
    if i == n {
      NoneConcerning(rest, id);
    } else {
      PlaceIsOne(rest, id, i);
    }
  }

  lemma OneFindingExactly(findings: seq<Finding>, controlRef: string, caseRef: string, digest: string)
    requires Trim(controlRef) == controlRef && Trim(caseRef) == caseRef
    ensures OneFinding(findings, FindingId(controlRef, caseRef), digest)
            <==> OnlyFinding(findings, controlRef, caseRef, digest)
  {
    var id := FindingId(controlRef, caseRef);
    assert forall f :: Concerns(f, id) <==> IsFinding(f, controlRef, caseRef);
    if OneFinding(findings, id, digest) {
      var i := OnePlace(findings, id);
      assert OnlyFindingAt(findings, controlRef, caseRef, digest, i);
    }
    if OnlyFinding(findings, controlRef, caseRef, digest) {
      var i: nat :| OnlyFindingAt(findings, controlRef, caseRef, digest, i);
      PlaceIsOne(findings, id, i);
    }
  }

  lemma DigestListed(digests: seq<string>, digest: string)
    ensures HasDigest(digests, digest) <==> Listed(digests, digest)
  {
    if HasDigest(digests, digest) {
      var i :| 0 <= i < |digests| && Lower(Trim(digests[i])) == Lower(Trim(digest));
      assert digests[i] in digests;
    }
    if d :| d in digests && Lower(Trim(d)) == Lower(Trim(digest)) {
      var i :| 0 <= i < |digests| && digests[i] == d;
      assert Lower(Trim(digests[i])) == Lower(Trim(digest));
    }
  }

  lemma HashRefExactly(reference: string, hash: string)
    ensures reference == HashRef(hash) <==> RefersTo(reference, hash)
  {
  }

  // ---------- an observation is made exactly from an event that vouches ----------

  lemma TrustedExactly(digests: Digests, raw: Control)
    ensures var c := NormControl(raw);
            if Trusted(digests, c)
            then BindControl(digests, raw) == Some(c.(configurationHash := digests.configuration(c.collectorKey)))
            else BindControl(digests, raw).None?
  {
  }

  // The same control, with its configuration hash as the adapters write it.
  predicate SameControl(digests: Digests, c: Control, bound: Control) {
    bound == c.(configurationHash := digests.configuration(c.collectorKey))
  }

  lemma EventVouches(digests: Digests, c: Control, bound: Control, x: Execution, b: Binding, e: Event, o: Observation)
    requires SameControl(digests, c, bound) && Trim(c.ref) == c.ref && Trim(b.caseRef) == b.caseRef
    requires Binds(b, c, x.kase, o) && o.completed >= x.kase.window
    ensures EventFits(digests, bound, x, b, e) <==> Vouches(digests, c, x, o, b, e)
  {
    OneFindingExactly(e.findings, c.ref, x.kase.ref, digests.binding(b));
    DigestListed(e.sourceDigests, x.receiptDigest);
    DigestListed(e.sourceDigests, x.proofDigest);
  }

  lemma ObservationCites(c: Control, bound: Control, x: Execution, b: Binding, e: Event, o: Observation, digest: string)
    requires bound == c.(configurationHash := bound.configurationHash)
    requires Trim(c.ref) == c.ref && Trim(x.kase.ref) == x.kase.ref
    requires b.status == ALERTED || b.status == NO_ALERT
    ensures o == ObservationFrom(bound, x, b, e, digest) <==>
              && Cites(c, x.kase, o, e, digest) && o.status == b.status && o.alertOffset == b.alertOffset
              && o.completed == b.completed
  {
    HashRefExactly(o.evidenceHash, e.digest);
    HashRefExactly(o.alertHash, digest);
    FindingReference(c.ref, x.kase.ref);
  }

  lemma FindingReference(controlRef: string, caseRef: string)
    requires Trim(controlRef) == controlRef && Trim(caseRef) == caseRef
    ensures "security-evidence:finding:" + FindingId(controlRef, caseRef)
            == "security-evidence:finding:dv-observation:" + controlRef + ":" + caseRef
  {
    var (a, b) := ("security-evidence:finding:", "dv-observation:");
    assert a + b == "security-evidence:finding:dv-observation:";
    assert a + (b + controlRef + ":" + caseRef) == a + b + controlRef + ":" + caseRef;
  }

  // All that an adapted observation stands for.
  ghost predicate Observes(digests: Digests, c: Control, x: Execution, o: Observation, b: Binding, e: Event) {
    && Trusted(digests, c) && Concerned(digests, c, x, b) && Consistent(x, o)
    && Vouches(digests, c, x, o, b, e) && Cites(c, x.kase, o, e, digests.binding(b))
  }

  lemma BindingNormalized(binding: Binding)
    ensures Trim(NormalBinding(binding).caseRef) == NormalBinding(binding).caseRef
  {
    TrimTrimmed(binding.caseRef);
  }

  lemma BindingExactly(c: Control, bound: Control, digests: Digests, x: Execution, b: Binding, o: Observation)
    requires Trusted(digests, c) && SameControl(digests, c, bound)
    requires b.status == o.status && b.alertOffset == o.alertOffset && b.completed == o.completed
    ensures MatchesExecution(bound, x, b) && CompleteBinding(b) <==>
              && Concerned(digests, c, x, b) && Consistent(x, o) && Binds(b, c, x.kase, o)
              && o.completed >= x.kase.window
  {
    assert ALERTED[0] != NO_ALERT[0];
  }

  // The adapter makes an observation exactly when the event vouches for it, and
  // then that observation and no other.
  lemma ObservationExactly(digests: Digests, raw: Control, x: Execution, binding: Binding, e: Event, o: Observation)
    ensures AdaptObservation(digests, raw, x, binding, e) == Some(o) <==>
              Observes(digests, NormControl(raw), x, o, NormalBinding(binding), e)
  {
    var (c, b) := (NormControl(raw), NormalBinding(binding));
    TrustedExactly(digests, raw);
    TrimTrimmed(raw.ref);
    BindingNormalized(binding);
    if Trusted(digests, c) {
      var bound := BindControl(digests, raw).value;
      BoundExactly(digests, c, bound, x, b, e, o);
    }
  }

  lemma BoundExactly(digests: Digests, c: Control, bound: Control, x: Execution, b: Binding, e: Event, o: Observation)
    requires Trusted(digests, c) && SameControl(digests, c, bound)
    requires Trim(c.ref) == c.ref && Trim(b.caseRef) == b.caseRef
    ensures MatchesExecution(bound, x, b) && CompleteBinding(b) && EventFits(digests, bound, x, b, e)
            && o == ObservationFrom(bound, x, b, e, digests.binding(b))
            <==> Observes(digests, c, x, o, b, e)
  {
    if b.status == o.status && b.alertOffset == o.alertOffset && b.completed == o.completed {
      BindingExactly(c, bound, digests, x, b, o);
      if Binds(b, c, x.kase, o) && o.completed >= x.kase.window && Consistent(x, o) {
        EventVouches(digests, c, bound, x, b, e, o);
        ObservationCites(c, bound, x, b, e, o, digests.binding(b));
      }
    }
  }

  // ---------- what attests a case ----------

  // Receipt, proof and actions were recomputed and belong together.
  predicate Recomputed(a: Artifacts) {
    a.receiptVerified && a.backendAvailable && a.proofVerified && a.proofBound && a.actionsBound && a.valuesPositive
  }

  // Every matched field of the scenario was observed with the value of the case.
  predicate ValuesObserved(fields: seq<string>, sc: ScenarioCase, observed: map<string, string>) {
    forall f :: f in fields ==>
      && Trim(f) in observed && Trim(f) in sc.matchedValues
      && Canonical(sc.matchedValues[Trim(f)]) == Some(observed[Trim(f)])
  }

  // An attack changed the action and was contained for it; a benign action was
  // the approved one and went through.
  predicate Conduct(kind: string, a: Artifacts) {
    var sameAction := Lower(a.approvedAction) == Lower(a.candidateAction);
    var sameIntent := Lower(a.approvedIntent) == Lower(a.candidateIntent);
    var samePayload := Lower(a.approvedPayload) == Lower(a.candidatePayload);
    if kind == ATTACK then
      && !sameAction && !(sameIntent && samePayload) && a.decision == Contain
      && IntentMismatch in a.containmentReasons
      && (forall r :: r in a.containmentReasons ==> !r.OtherContainmentReason?)
      && (forall r :: r in a.proofReasons ==> !r.OtherProofReason?)
    else
      && kind == BENIGN && sameAction && sameIntent && samePayload && a.decision == Release
      && |a.containmentReasons| == 0 && a.proofDecision == Allow && |a.proofReasons| == 0
  }

  // The only scenario case of the reference.
  predicate OnlyCaseAt(cases: seq<ScenarioCase>, ref: string, i: nat) {
    && i < |cases| && Trim(cases[i].ref) == ref
    && forall j :: 0 <= j < |cases| && j != i ==> Trim(cases[j].ref) != ref
  }

  ghost predicate OnlyCase(cases: seq<ScenarioCase>, ref: string, sc: ScenarioCase) {
    exists i: nat :: OnlyCaseAt(cases, ref, i) && cases[i] == sc
  }

  // What the case repeats of the evidence, its control and its scenario.
  predicate Repeats(raw: ExecutionInput, c: Control, k: Case) {
    && k.ref == Trim(raw.ref) && k.kind == Trim(raw.kind) && k.techniqueId == Trim(raw.techniqueId)
    && k.mode == Trim(raw.mode) && k.impact == raw.impact && k.window == raw.window && k.controlRef == c.ref
    && k.scenarioRef == Trim(raw.scenario.ref) && k.scenarioVersion == Trim(raw.scenario.version)
    && k.contractHash == raw.scenario.digest && k.chain == Lower(Trim(raw.scenario.chain))
    && k.chainId == raw.artifacts.chainId && !k.mainnetSent && k.evidence == VERIFIED
  }

  // The case is that of the scenario, in time and kind.
  predicate AsPlanned(k: Case, sc: ScenarioCase) {
    && k.ref != "" && k.techniqueId != "" && k.window > 0 && (k.mode == FORK || k.mode == SANDBOX)
    && k.kind == Trim(sc.kind) && k.window == sc.window && k.impact == sc.impact && k.deadline == sc.latestDetection
    && (if k.kind == ATTACK then Within(k.impact, k.window) else k.kind == BENIGN && k.impact.None?)
  }

  // The execution hash covers the whole case, both artifacts with their decisions,
  // both actions and both states; the state hashes are those of the receipt.
  predicate Hashed(digests: Digests, a: Artifacts, x: Execution) {
    var k := x.kase;
    && x.receiptDigest == Lower(a.receiptDigest) && x.proofDigest == Lower(a.proofDigest)
    && k.executionHash == digests.execution(ExecutionRecord(
         ADAPTER_VERSION, k.controlRef, k.configurationHash, k.scenarioRef, k.scenarioVersion, k.contractHash,
         k.chain, k.chainId, k.ref, k.kind, k.techniqueId, k.mode, x.receiptDigest, a.decision, x.proofDigest,
         a.proofDecision, Lower(a.approvedAction), Lower(a.candidateAction), Lower(a.preState), Lower(a.postState),
         k.impact, k.deadline, k.window, k.mainnetSent))
    && k.executionRef == "defense-execution:" + k.executionHash
    && RefersTo(k.preStateHash, a.preState) && RefersTo(k.postStateHash, a.postState)
  }

  // The scenario selects the control, admits the mode and is valid as a whole.
  predicate Planned(raw: ExecutionInput) {
    && raw.scenario.isSealed && raw.selectsIntegrityControl && !raw.mainnetSent
    && ModeMatches(raw.scenario.mode, Trim(raw.mode))
    && ValidScenarioCases(raw.scenario.matchedFields, raw.scenario.cases)
    && Trim(raw.artifacts.singleDifference) == SINGLE_DIFFERENCE
  }

  // All that an adapted execution stands for.
  ghost predicate Attested(digests: Digests, raw: ExecutionInput, x: Execution, sc: ScenarioCase) {
    var (c, k) := (NormControl(raw.control), x.kase);
    && Trusted(digests, c) && Planned(raw) && Recomputed(raw.artifacts)
    && Repeats(raw, c, k) && k.configurationHash == digests.configuration(c.collectorKey)
    && OnlyCase(raw.scenario.cases, k.ref, sc) && AsPlanned(k, sc)
    && ValuesObserved(raw.scenario.matchedFields, sc, raw.artifacts.observed)
    && Conduct(k.kind, raw.artifacts) && (x.signaled <==> k.kind == ATTACK)
    && Hashed(digests, raw.artifacts, x)
  }

  lemma {:induction false} NoneNamed(cases: seq<ScenarioCase>, ref: string)
    ensures NamedCases(cases, ref) == [] <==> forall j :: 0 <= j < |cases| ==> Trim(cases[j].ref) != ref
    decreases |cases|
  {
    if cases != [] {
      var rest := cases[..|cases| - 1];
      NoneNamed(rest, ref);
      assert forall j :: 0 <= j < |rest| ==> rest[j] == cases[j];
    }
  }

  // A last case of another reference makes no difference.
  lemma OnlyCaseBefore(cases: seq<ScenarioCase>, ref: string, i: nat)
    requires cases != [] && i < |cases| - 1 && Trim(cases[|cases| - 1].ref) != ref
    ensures OnlyCaseAt(cases, ref, i) <==> OnlyCaseAt(cases[..|cases| - 1], ref, i)
  {
    var rest := cases[..|cases| - 1];
    assert forall j :: 0 <= j < |rest| ==> rest[j] == cases[j];
  }

  // A last case of the reference is the only one when none is named before it.
  lemma OnlyCaseLast(cases: seq<ScenarioCase>, ref: string)
    requires cases != [] && Trim(cases[|cases| - 1].ref) == ref
    ensures OnlyCaseAt(cases, ref, |cases| - 1) <==> NamedCases(cases[..|cases| - 1], ref) == []
  {
    var rest := cases[..|cases| - 1];
    NoneNamed(rest, ref);
    assert forall j :: 0 <= j < |rest| ==> rest[j] == cases[j];
  }

  lemma {:induction false} NamedPlace(cases: seq<ScenarioCase>, ref: string) returns (i: nat)
    requires |NamedCases(cases, ref)| == 1
    ensures OnlyCaseAt(cases, ref, i) && NamedCases(cases, ref) == [cases[i]]
    decreases |cases|
  {
    var n := |cases| - 1;
    if Trim(cases[n].ref) == ref {
      OnlyCaseLast(cases, ref);
      i := n;
    } else {
      i := NamedPlace(cases[..n], ref);
      OnlyCaseBefore(cases, ref, i);
    }
  }

  lemma {:induction false} PlaceIsNamed(cases: seq<ScenarioCase>, ref: string, i: nat)
    requires OnlyCaseAt(cases, ref, i)
    ensures NamedCases(cases, ref) == [cases[i]]
    decreases |cases|
  {
    if i == |cases| - 1 {
      OnlyCaseLast(cases, ref);
    } else {
      OnlyCaseBefore(cases, ref, i);
      PlaceIsNamed(cases[..|cases| - 1], ref, i);
    }
  }

  lemma OnlyCaseExactly(cases: seq<ScenarioCase>, ref: string, sc: ScenarioCase)
    ensures NamedCases(cases, ref) == [sc] <==> OnlyCase(cases, ref, sc)
  {
    if NamedCases(cases, ref) == [sc] {
      var i := NamedPlace(cases, ref);
      assert OnlyCaseAt(cases, ref, i) && cases[i] == sc;
    }
    if OnlyCase(cases, ref, sc) {
      var i: nat :| OnlyCaseAt(cases, ref, i) && cases[i] == sc;
      PlaceIsNamed(cases, ref, i);
    }
  }

  lemma ValuesExactly(fields: seq<string>, sc: ScenarioCase, observed: map<string, string>)
    ensures ValuesObserved(fields, sc, observed) <==>
              forall f :: f in Map(Trim, fields) ==>
                f in observed && f in sc.matchedValues && Canonical(sc.matchedValues[f]) == Some(observed[f])
  {
    var names := Map(Trim, fields);
    forall f | f in fields ensures Trim(f) in names {
      var i :| 0 <= i < |fields| && fields[i] == f;
      assert names[i] == Trim(f);
    }
    forall f | f in names ensures exists g :: g in fields && Trim(g) == f {
      var i :| 0 <= i < |names| && names[i] == f;
      assert fields[i] in fields && Trim(fields[i]) == f;
    }
  }

  lemma ConductExactly(x: ExecutionInput)
    requires Trim(x.artifacts.singleDifference) == SINGLE_DIFFERENCE
    ensures Conduct(x.kind, x.artifacts) <==> Semantics(x).Some?
    ensures Semantics(x).Some? ==> Semantics(x) == Some(x.kind == ATTACK)
  {
    assert ATTACK[0] != BENIGN[0];
  }

  lemma BoundCaseExactly(x: ExecutionInput, sc: ScenarioCase)
    ensures BoundCase(x) == Some(sc) <==>
              && OnlyCase(x.scenario.cases, x.ref, sc) && Trim(sc.kind) == x.kind && sc.window == x.window
              && sc.impact == x.impact && x.artifacts.valuesPositive
              && ValuesObserved(x.scenario.matchedFields, sc, x.artifacts.observed)
  {
    OnlyCaseExactly(x.scenario.cases, x.ref, sc);
    ValuesExactly(x.scenario.matchedFields, sc, x.artifacts.observed);
    var named := NamedCases(x.scenario.cases, x.ref);
    assert |named| == 1 ==> named == [named[0]];
  }

  lemma MadeCaseExactly(digests: Digests, raw: ExecutionInput, c: Control, sc: ScenarioCase, x: Execution)
    requires c.configurationHash == digests.configuration(c.collectorKey)
    ensures var y := Normal(raw);
            x.kase == CaseFrom(digests, y, c, sc) && x.receiptDigest == Lower(y.artifacts.receiptDigest)
            && x.proofDigest == Lower(y.artifacts.proofDigest)
            <==>
            && Repeats(raw, c, x.kase) && x.kase.configurationHash == digests.configuration(c.collectorKey)
            && x.kase.deadline == sc.latestDetection && Hashed(digests, raw.artifacts, x)
  {
    HashRefExactly(x.kase.preStateHash, raw.artifacts.preState);
    HashRefExactly(x.kase.postStateHash, raw.artifacts.postState);
  }

  // The conditions on the artifacts and the scenario, and those on the case.
  lemma ArtifactsExactly(raw: ExecutionInput)
    ensures var y := Normal(raw);
            ArtifactsVerified(y) && !y.mainnetSent && y.artifacts.valuesPositive
            && Trim(y.artifacts.singleDifference) == SINGLE_DIFFERENCE
            <==> Planned(raw) && Recomputed(raw.artifacts)
  {
  }

  lemma TimingExactly(raw: ExecutionInput, c: Control, k: Case, sc: ScenarioCase)
    requires Repeats(raw, c, k) && k.deadline == sc.latestDetection
    ensures var y := Normal(raw);
            WellTimed(y) && Trim(sc.kind) == y.kind && sc.window == y.window && sc.impact == y.impact
            <==> AsPlanned(k, sc) && !y.mainnetSent
  {
    assert ATTACK[0] != BENIGN[0];
  }

  // Every execution that the adapter makes is attested by its evidence.
  lemma AdaptedIsAttested(digests: Digests, raw: ExecutionInput, x: Execution) returns (sc: ScenarioCase)
    requires AdaptCase(digests, raw) == Some(x)
    ensures Attested(digests, raw, x, sc)
  {
    var y := Normal(raw);
    sc := BoundCase(y).value;
    TrustedExactly(digests, y.control);
    var bound := BindControl(digests, y.control).value;
    MadeCaseExactly(digests, raw, bound, sc, x);
    BoundCaseExactly(y, sc);
    ArtifactsExactly(raw);
    TimingExactly(raw, bound, x.kase, sc);
    ConductExactly(y);
  }

  lemma PartsAttested(digests: Digests, raw: ExecutionInput, bound: Control, x: Execution, sc: ScenarioCase)
    requires Attested(digests, raw, x, sc) && BindControl(digests, raw.control) == Some(bound)
    ensures var y := Normal(raw);
            && WellTimed(y) && ArtifactsVerified(y) && BoundCase(y) == Some(sc) && Semantics(y) == Some(x.signaled)
            && x.kase == CaseFrom(digests, y, bound, sc)
            && x.receiptDigest == Lower(y.artifacts.receiptDigest) && x.proofDigest == Lower(y.artifacts.proofDigest)
  {
    var y := Normal(raw);
    TrustedExactly(digests, raw.control);
    MadeCaseExactly(digests, raw, bound, sc, x);
    BoundCaseExactly(y, sc);
    ArtifactsExactly(raw);
    TimingExactly(raw, bound, x.kase, sc);
    ConductExactly(y);
  }

  lemma PartsMake(digests: Digests, raw: ExecutionInput, bound: Control, x: Execution, sc: ScenarioCase)
    requires BindControl(digests, raw.control) == Some(bound)
    requires var y := Normal(raw);
             && WellTimed(y) && ArtifactsVerified(y) && BoundCase(y) == Some(sc) && Semantics(y) == Some(x.signaled)
             && x.kase == CaseFrom(digests, y, bound, sc)
             && x.receiptDigest == Lower(y.artifacts.receiptDigest) && x.proofDigest == Lower(y.artifacts.proofDigest)
    ensures AdaptCase(digests, raw) == Some(x)
  {
  }

  // And whatever is attested is made.
  lemma AttestedIsAdapted(digests: Digests, raw: ExecutionInput, x: Execution, sc: ScenarioCase)
    requires Attested(digests, raw, x, sc)
    ensures AdaptCase(digests, raw) == Some(x)
  {
    TrustedExactly(digests, raw.control);
    var bound := BindControl(digests, raw.control).value;
    PartsAttested(digests, raw, bound, x, sc);
    PartsMake(digests, raw, bound, x, sc);
  }

  // The adapter makes an execution exactly when the evidence attests it.
  lemma CaseExactly(digests: Digests, raw: ExecutionInput, x: Execution)
    ensures AdaptCase(digests, raw) == Some(x) <==> exists sc :: Attested(digests, raw, x, sc)
  {
    if AdaptCase(digests, raw) == Some(x) {
      var sc := AdaptedIsAttested(digests, raw, x);
    }
    if sc :| Attested(digests, raw, x, sc) {
      AttestedIsAdapted(digests, raw, x, sc);
    }
  }
}
