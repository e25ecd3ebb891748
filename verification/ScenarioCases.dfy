/** The check of a scenario's case matrix, as the contract validator runs it. */
module ScenarioCases {
  import opened Bytes
  import opened JsonCanonical
  import opened Strings
  import opened ValidationModel

  // The trimmed field names, when they are distinct and not empty.
  method DeclaredFields(fields: seq<string>) returns (r: Option<seq<string>>)
    ensures r.Some? <==> ValidFields(Map(Trim, fields))
    ensures r.Some? ==> r.value == Map(Trim, fields)
  {
    var matched: seq<string> := [];
    var seen: set<string> := {};
    for i := 0 to |fields|
      invariant matched == Map(Trim, fields)[..i]
      invariant seen == set f | f in matched
      invariant "" !in matched
      invariant forall a, b :: 0 <= a < b < i ==> matched[a] != matched[b]
    {
      var field := Trim(fields[i]);
      assert Map(Trim, fields)[i] == field;
      if field == "" {
        assert "" in Map(Trim, fields);
        return None;
      }
      if field in seen {
        var a :| 0 <= a < i && matched[a] == field;
        assert Map(Trim, fields)[a] == Map(Trim, fields)[i];
        return None;
      }
      matched := matched + [field];
      seen := seen + {field};
    }
    assert Map(Trim, fields)[..|fields|] == Map(Trim, fields);
    return if matched == [] then None else Some(matched);
  }

  lemma {:induction false} SizeOfNames(names: seq<string>)
    requires forall i, j :: 0 <= i < j < |names| ==> names[i] != names[j]
    ensures |set f | f in names| == |names|
    decreases |names|
  {
    if names != [] {
      var rest := names[..|names| - 1];
      SizeOfNames(rest);
      assert names == rest + [names[|names| - 1]];
      assert (set f | f in names) == (set f | f in rest) + {names[|names| - 1]};
    }
  }

  // As many values as fields, and one for every field, leave no room for others.
  lemma KeysAreNames(values: map<string, string>, names: seq<string>)
    requires forall i, j :: 0 <= i < j < |names| ==> names[i] != names[j]
    requires |values| == |names| && forall f :: f in names ==> f in values
    ensures values.Keys == set f | f in names
  {
    SizeOfNames(names);
    SubsetOfSameSize((set f | f in names), values.Keys);
  }

  lemma {:induction false} SubsetOfSameSize(a: set<string>, b: set<string>)
    requires a <= b && |a| == |b|
    ensures a == b
  {
    if x :| x in b && x !in a {
      SmallerSubset(a, b - {x});
    }
  }

  lemma {:induction false} SmallerSubset(a: set<string>, b: set<string>)
    requires a <= b
    ensures |a| <= |b|
    decreases |a|
  {
    if x :| x in a {
      SmallerSubset(a - {x}, b - {x});
    }
  }

  // Whether a case names only declared fields.
  method DeclaresOnly(c: ScenarioCase, names: seq<string>) returns (ok: bool)
    ensures ok <==> forall f :: f in c.matchedValues ==> Trim(f) in names
  {
    var left := c.matchedValues.Keys;
    while left != {}
      invariant left <= c.matchedValues.Keys
      invariant forall f :: f in c.matchedValues.Keys - left ==> Trim(f) in names
      decreases |left|
    {
      var f :| f in left;
      if Trim(f) !in names {
        return false;
      }
      left := left - {f};
    }
    return true;
  }

  // The canonical text of every matched field of a case, or None at the first
  // field that is absent, null, not valid or in conflict with the window or the
  // baseline.
  method MatchedTexts(c: ScenarioCase, names: seq<string>, baseline: map<string, string>, first: bool)
    returns (r: Option<map<string, string>>)
    requires c.window > 0
    requires !first ==> forall f :: f in names ==> f in baseline
    ensures r.Some? <==> forall f :: f in names ==> TextAgrees(c, f, baseline, first)
    ensures r.Some? ==> forall f :: f in names ==> f in r.value && FieldText(c, f) == Some(r.value[f])
  {
    var texts: map<string, string> := map[];
    for i := 0 to |names|
      invariant forall f :: f in names[..i] ==> TextAgrees(c, f, baseline, first)
      invariant forall f :: f in names[..i] ==> f in texts && FieldText(c, f) == Some(texts[f])
    {
      var field := names[i];
      assert field in names;
      assert names[..i + 1] == names[..i] + [field];
      if field !in c.matchedValues || Trim(c.matchedValues[field]) == "" || Trim(c.matchedValues[field]) == "null" {
        assert !TextAgrees(c, field, baseline, first);
        return None;
      }
      var encoded := Canonicalize(c.matchedValues[field]);
      if encoded.Err? {
        assert !TextAgrees(c, field, baseline, first);
        return None;
      }
      if field == WINDOW_FIELD && encoded.value != Decimal(c.window) {
        assert !TextAgrees(c, field, baseline, first);
        return None;
      }
      if !first && baseline[field] != encoded.value {
        assert !TextAgrees(c, field, baseline, first);
        return None;
      }
      texts := texts[field := encoded.value];
    }
    assert names[..|names|] == names;
    return Some(texts);
  }

  predicate TextAgrees(c: ScenarioCase, field: string, baseline: map<string, string>, first: bool)
    requires c.window > 0
  {
    && FieldText(c, field).Some?
    && (field == WINDOW_FIELD ==> FieldText(c, field).value == Decimal(c.window))
    && (first || (field in baseline && FieldText(c, field).value == baseline[field]))
  }

  method CheckTiming(c: ScenarioCase) returns (ok: bool)
    ensures ok <==> ValidTiming(c)
  {
    if c.kind == ATTACK {
      if c.impact.None? || c.impact.value < 0 || c.impact.value > c.window {
        return false;
      }
      return c.alertRequired && c.latestDetection.Some? && 0 <= c.latestDetection.value <= c.window
        && c.latestDetection.value <= c.impact.value;
    } else if c.kind == BENIGN {
      return c.impact.None? && c.latestDetection.None? && !c.alertRequired && c.falsePositiveForbidden;
    }
    return false;
  }

  // One case: its own checks, and agreement with the baseline of the first case.
  method CheckCase(c: ScenarioCase, names: seq<string>, baseline: map<string, string>, first: bool)
    returns (r: Option<map<string, string>>)
    requires ValidFields(names) && forall f :: f in names ==> Trim(f) == f
    requires !first ==> forall f :: f in names ==> f in baseline
    ensures r.Some? <==>
              ValidScenarioCase(c, names) && (first || forall f :: f in names ==> FieldText(c, f) == Some(baseline[f]))
    ensures r.Some? ==> forall f :: f in names ==> f in r.value && FieldText(c, f) == Some(r.value[f])
  {
    if Trim(c.ref) == "" || Trim(c.description) == "" || c.window <= 0 {
      return None;
    }
    SizeOfNames(names);
    if |c.matchedValues| != |names| {
      return None;
    }
    var declared := DeclaresOnly(c, names);
    if !declared {
      return None;
    }
    var texts := MatchedTexts(c, names, baseline, first);
    if texts.None? {
      MatchedRefused(c, names, baseline, first);
      return None;
    }
    KeysAreNames(c.matchedValues, names);
    MatchedAccepted(c, names, baseline, first);
    var timed := CheckTiming(c);
    return if timed then texts else None;
  }

  lemma MatchedRefused(c: ScenarioCase, names: seq<string>, baseline: map<string, string>, first: bool)
    requires c.window > 0 && !forall f :: f in names ==> TextAgrees(c, f, baseline, first)
    requires !first ==> forall f :: f in names ==> f in baseline
    ensures !(ValidMatchedValues(c, names)
              && (first || forall f :: f in names ==> FieldText(c, f) == Some(baseline[f])))
  {
    var f :| f in names && !TextAgrees(c, f, baseline, first);
    if ValidMatchedValues(c, names) {
      assert FieldText(c, f).Some?;
    }
  }

  lemma MatchedAccepted(c: ScenarioCase, names: seq<string>, baseline: map<string, string>, first: bool)
    requires c.window > 0 && forall f :: f in names ==> TextAgrees(c, f, baseline, first)
    requires !first ==> forall f :: f in names ==> f in baseline
    requires c.matchedValues.Keys == set f | f in names
    ensures ValidMatchedValues(c, names)
    ensures first || forall f :: f in names ==> FieldText(c, f) == Some(baseline[f])
  {
  }

  // The cases s are valid and give the texts of the baseline.
  ghost predicate Checked(names: seq<string>, s: seq<ScenarioCase>, baseline: map<string, string>) {
    && (forall c :: c in s ==> ValidScenarioCase(c, names))
    && (forall c :: c in s ==> GivesTexts(c, names, baseline))
  }

  predicate GivesTexts(c: ScenarioCase, names: seq<string>, baseline: map<string, string>) {
    forall f :: f in names ==> f in baseline && FieldText(c, f) == Some(baseline[f])
  }

  // The cases s have distinct references, and these are the ones seen.
  ghost predicate Seen(s: seq<ScenarioCase>, refs: set<string>) {
    && DistinctKeys(s, ScenarioKey)
    && (forall c :: c in s ==> ScenarioKey(c) in refs)
    && (forall ref :: ref in refs ==> exists c :: c in s && ScenarioKey(c) == ref)
  }

  lemma SeenStep(s: seq<ScenarioCase>, refs: set<string>, c: ScenarioCase)
    requires Seen(s, refs) && ScenarioKey(c) !in refs
    ensures Seen(s + [c], refs + {ScenarioKey(c)})
  {
    forall ref | ref in refs ensures exists x :: x in s + [c] && ScenarioKey(x) == ref {
      var x :| x in s && ScenarioKey(x) == ref;
      assert x in s + [c];
    }
    assert c in s + [c];
    forall i, j | 0 <= i < j < |s| + 1 ensures ScenarioKey((s + [c])[i]) != ScenarioKey((s + [c])[j]) {
      assert (s + [c])[i] == s[i] && s[i] in s;
    }
  }

  lemma RepeatedCase(names: seq<string>, cases: seq<ScenarioCase>, i: nat, refs: set<string>)
    requires i < |cases| && Seen(cases[..i], refs) && ScenarioKey(cases[i]) in refs
    ensures !ValidMatrix(names, cases)
  {
    var c :| c in cases[..i] && ScenarioKey(c) == ScenarioKey(cases[i]);
    var j :| 0 <= j < i && cases[..i][j] == c;
    assert cases[j] == c;
  }

  lemma AgreesWithFirst(names: seq<string>, cases: seq<ScenarioCase>, i: nat, baseline: map<string, string>)
    requires ValidMatrix(names, cases) && i < |cases|
    requires i > 0 ==> GivesTexts(cases[0], names, baseline)
    ensures ValidScenarioCase(cases[i], names)
    ensures i > 0 ==> forall f :: f in names ==> FieldText(cases[i], f) == Some(baseline[f])
  {
    assert cases[i] in cases && cases[0] in cases;
    assert SameFields(cases[0], cases[i], names);
  }

  lemma AllCasesValid(names: seq<string>, cases: seq<ScenarioCase>, baseline: map<string, string>, refs: set<string>)
    requires Checked(names, cases, baseline) && Seen(cases, refs)
    requires exists c :: c in cases && c.kind == ATTACK
    requires exists c :: c in cases && c.kind == BENIGN
    ensures ValidMatrix(names, cases)
  {
    forall a, b | a in cases && b in cases ensures SameFields(a, b, names) {
      assert GivesTexts(a, names, baseline) && GivesTexts(b, names, baseline);
    }
  }

  ghost predicate HasKind(s: seq<ScenarioCase>, kind: string) {
    exists c :: c in s && c.kind == kind
  }

  lemma TwoKinds(cases: seq<ScenarioCase>)
    requires HasKind(cases, ATTACK) && HasKind(cases, BENIGN)
    ensures |cases| >= 2
  {
    var a :| a in cases && a.kind == ATTACK;
    var b :| b in cases && b.kind == BENIGN;
    assert ATTACK[0] != BENIGN[0];
    assert a != b;
  }

  // The accumulators of the loop over the cases.
  datatype Progress = Progress(baseline: map<string, string>, seen: set<string>, attacks: nat, benign: nat)

  ghost predicate Accounts(p: Progress, names: seq<string>, s: seq<ScenarioCase>) {
    && Checked(names, s, p.baseline) && Seen(s, p.seen)
    && (p.attacks > 0 <==> HasKind(s, ATTACK))
    && (p.benign > 0 <==> HasKind(s, BENIGN))
  }

  lemma AccountsNext(p: Progress, names: seq<string>, s: seq<ScenarioCase>, c: ScenarioCase,
                     baseline: map<string, string>)
    requires Accounts(p, names, s) && ScenarioKey(c) !in p.seen
    requires ValidScenarioCase(c, names) && GivesTexts(c, names, baseline) && (s == [] || baseline == p.baseline)
    ensures c.kind == ATTACK ==>
              Accounts(Progress(baseline, p.seen + {ScenarioKey(c)}, p.attacks + 1, p.benign), names, s + [c])
    ensures c.kind != ATTACK ==>
              Accounts(Progress(baseline, p.seen + {ScenarioKey(c)}, p.attacks, p.benign + 1), names, s + [c])
  {
    SeenStep(s, p.seen, c);
    CheckedStep(names, s, c, p.baseline, baseline);
    HasKindNext(s, c, ATTACK);
    HasKindNext(s, c, BENIGN);
    assert ATTACK[0] != BENIGN[0];
  }

  lemma CheckedStep(names: seq<string>, s: seq<ScenarioCase>, c: ScenarioCase, before: map<string, string>,
                    baseline: map<string, string>)
    requires Checked(names, s, before) && (s == [] || baseline == before)
    requires ValidScenarioCase(c, names) && GivesTexts(c, names, baseline)
    ensures Checked(names, s + [c], baseline)
  {
  }

  lemma HasKindNext(s: seq<ScenarioCase>, c: ScenarioCase, kind: string)
    ensures HasKind(s + [c], kind) <==> HasKind(s, kind) || c.kind == kind
  {
    assert c in s + [c];
    if x :| x in s && x.kind == kind {
      assert x in s + [c];
    }
  }

  // One turn of the loop.  The first case fixes the baseline.
  method AcceptCase(names: seq<string>, cases: seq<ScenarioCase>, i: nat, p: Progress) returns (r: Option<Progress>)
    requires ValidFields(names) && forall f :: f in names ==> Trim(f) == f
    requires i < |cases| && Accounts(p, names, cases[..i])
    ensures r.Some? ==> Accounts(r.value, names, cases[..i] + [cases[i]])
    ensures r.None? ==> !ValidMatrix(names, cases)
  {
    var c := cases[i];
    assert i > 0 ==> cases[0] == cases[..i][0] && GivesTexts(cases[0], names, p.baseline);
    if Trim(c.ref) in p.seen {
      RepeatedCase(names, cases, i, p.seen);
      return None;
    }
    var texts := CheckCase(c, names, p.baseline, i == 0);
    if texts.None? {
      if ValidMatrix(names, cases) {
        AgreesWithFirst(names, cases, i, p.baseline);
      }
      return None;
    }
    var baseline := if i == 0 then texts.value else p.baseline;
    AccountsNext(p, names, cases[..i], c, baseline);
    var seen := p.seen + {Trim(c.ref)};
    if c.kind == ATTACK {
      return Some(Progress(baseline, seen, p.attacks + 1, p.benign));
    }
    return Some(Progress(baseline, seen, p.attacks, p.benign + 1));
  }

  method CheckMatrix(names: seq<string>, cases: seq<ScenarioCase>) returns (ok: bool)
    requires ValidFields(names) && forall f :: f in names ==> Trim(f) == f
    ensures ok <==> ValidMatrix(names, cases)
  {
    var p := Progress(map[], {}, 0, 0);
    for i := 0 to |cases|
      invariant Accounts(p, names, cases[..i])
    {
      var next := AcceptCase(names, cases, i, p);
      if next.None? {
        return false;
      }
      p := next.value;
      assert cases[..i + 1] == cases[..i] + [cases[i]];
    }
    assert cases[..|cases|] == cases;
    ok := p.attacks > 0 && p.benign > 0;
    if ok {
      AllCasesValid(names, cases, p.baseline, p.seen);
    }
  }

  method ValidateScenarioCases(fields: seq<string>, cases: seq<ScenarioCase>) returns (ok: bool)
    ensures ok <==> ValidScenarioCases(fields, cases)
  {
    if |cases| < 2 {
      if ValidScenarioCases(fields, cases) {
        TwoKinds(cases);
      }
      return false;
    }
    var declared := DeclaredFields(fields);
    if declared.None? {
      return false;
    }
    NamesTrimmed(fields);
    ok := CheckMatrix(declared.value, cases);
  }

  lemma NamesTrimmed(fields: seq<string>)
    ensures forall f :: f in Map(Trim, fields) ==> Trim(f) == f
  {
    forall f | f in Map(Trim, fields) ensures Trim(f) == f {
      var i :| 0 <= i < |fields| && Map(Trim, fields)[i] == f;
      TrimTrimmed(fields[i]);
    }
  }
}
