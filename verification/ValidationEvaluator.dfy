/**
 The evaluator itself, step by step as the service runs it: normalization and
 sorting, validation, indexing, scoring, totals.  Evaluate succeeds exactly on
 the accepted inputs and returns the reference report.
 */
module ValidationEvaluator {
  import opened Bytes
  import opened Strings
  import opened ValidationModel

  // ---------- small helpers ----------

  // Collects the distinct non-empty values and sorts them.
  method SortUnique(values: seq<string>) returns (r: seq<string>)
    ensures r == SortedUnique(values)
  {
    var seen: set<string> := {};
    for i := 0 to |values|
      invariant seen == set v | v in values[..i] && Trim(v) != "" :: Trim(v)
    {
      assert values[..i + 1] == values[..i] + [values[i]];
      if Trim(values[i]) != "" {
        seen := seen + {Trim(values[i])};
      }
    }
    assert values[..|values|] == values;
    r := SortKeys(seen);
  }

  // Elements by key; none when two elements share a key.
  ghost predicate Indexed<T>(m: map<string, T>, s: seq<T>, key: T -> string) {
    && (forall x :: x in s ==> key(x) in m && m[key(x)] == x)
    && (forall k :: k in m ==> m[k] in s && key(m[k]) == k)
  }

  lemma IndexNext<T>(m: map<string, T>, s: seq<T>, key: T -> string, x: T)
    requires Indexed(m, s, key) && key(x) !in m
    ensures Indexed(m[key(x) := x], s + [x], key)
    ensures DistinctKeys(s, key) ==> DistinctKeys(s + [x], key)
  {
    assert x in s + [x];
    assert forall y :: y in s ==> y in s + [x];
    forall i, j | DistinctKeys(s, key) && 0 <= i < j < |s| + 1 ensures key((s + [x])[i]) != key((s + [x])[j]) {
      assert (s + [x])[i] in s;
    }
  }

  lemma RepeatedKey<T>(s: seq<T>, key: T -> string, i: nat, m: map<string, T>)
    requires i < |s| && Indexed(m, s[..i], key) && key(s[i]) in m
    ensures !DistinctKeys(s, key)
  {
    var j :| 0 <= j < i && s[..i][j] == m[key(s[i])];
    assert s[j] == m[key(s[i])];
  }

  method Index<T>(s: seq<T>, key: T -> string) returns (r: Option<map<string, T>>)
    ensures r.Some? <==> DistinctKeys(s, key)
    ensures r.Some? ==> Indexed(r.value, s, key)
  {
    var m: map<string, T> := map[];
    for i := 0 to |s|
      invariant Indexed(m, s[..i], key) && DistinctKeys(s[..i], key)
    {
      if key(s[i]) in m {
        RepeatedKey(s, key, i, m);
        return None;
      }
      IndexNext(m, s[..i], key, s[i]);
      m := m[key(s[i]) := s[i]];
      assert s[..i + 1] == s[..i] + [s[i]];
    }
    assert s[..|s|] == s;
    return Some(m);
  }

  // ---------- one case ----------

  // Scores one case, stopping at the first piece of evidence that is missing.
  method ScoreCase(control: Control, k: Case, observation: Option<Observation>) returns (r: CaseResult)
    requires Scorable(k) && (observation.Some? ==> Readable(observation.value))
    ensures r == CollectedCase(control, k, observation)
  {
    r := CaseResult(control.ref, k.ref, k.kind, k.techniqueId, k.mode, k.evidence, k.impact, k.deadline, k.window,
                    "", "", Incomplete, None, None, {}, [], [], []);
    if k.evidence != VERIFIED {
      r := r.(rules := {VerifiedExecution}, limitations := ["case execution evidence is not verified"]);
      return;
    }
    r := r.(evidenceRefs := [k.executionRef], evidenceHashes := [k.executionHash, k.preStateHash, k.postStateHash]);
    if observation.None? {
      r := r.(rules := {CompleteMatrix}, limitations := ["independent control observation is missing"]);
      return;
    }
    var o := observation.value;
    r := r.(observationStatus := o.status, observationEvidence := o.evidence);
    if o.evidence != VERIFIED {
      r := r.(rules := {IndependentAlert}, limitations := ["control observation evidence is not verified"]);
      return;
    }
    r := r.(evidenceRefs := r.evidenceRefs + [o.evidenceRef], evidenceHashes := r.evidenceHashes + [o.evidenceHash]);
    if o.completed < k.window {
      r := r.(rules := {CompleteMatrix}, limitations := ["observation window did not complete"]);
      return;
    }
    if o.alertRef != "" {
      r := r.(evidenceRefs := r.evidenceRefs + [o.alertRef], evidenceHashes := r.evidenceHashes + [o.alertHash]);
    }
    r := Judge(r, k, o);
  }

  // The judgement of a case with full evidence.
  method Judge(start: CaseResult, k: Case, o: Observation) returns (r: CaseResult)
    requires Scorable(k) && Readable(o) && StageOf(k, Some(o)) == Complete
    requires start.rules == {} && start.detection == None && start.leadTime == None
    ensures var outcome := OutcomeFor(k, Some(o));
            r == start.(outcome := outcome, rules := RulesFor(Complete, outcome), detection := o.alertOffset,
                        leadTime := if o.alertOffset.Some? && k.kind == ATTACK
                                    then Some(k.deadline.value - o.alertOffset.value) else None)
  {
    r := start;
    if k.kind == BENIGN {
      if o.status == ALERTED {
        r := r.(outcome := FalsePositive, detection := o.alertOffset, rules := {BenignControl});
      } else {
        r := r.(outcome := Clean);
      }
      return;
    }
    if o.status == NO_ALERT {
      r := r.(outcome := Missed, rules := {MissedAttack});
      return;
    }
    var leadTime := k.deadline.value - o.alertOffset.value;
    r := r.(detection := o.alertOffset, leadTime := Some(leadTime));
    if leadTime >= 0 {
      r := r.(outcome := CaughtInTime);
    } else {
      r := r.(outcome := CaughtLate, rules := {DetectionDeadline});
    }
  }

  method FinalizeCase(r: CaseResult) returns (s: CaseResult)
    ensures s == Finalized(r)
  {
    var refs := SortUnique(r.evidenceRefs);
    var hashes := SortUnique(r.evidenceHashes);
    s := r.(evidenceRefs := refs, evidenceHashes := hashes);
  }
}
