/**
 The safety walk over a parsed scenario contract: thirteen member names may
 appear anywhere in the document, but only with the value false.
 */
module ScenarioSafety {
  import opened Bytes
  import opened JsonText
  import opened JsonValue

  const MUST_BE_FALSE := {
    "is_execution_evidence", "is_validation_result", "production_claim_allowed", "mainnet_transaction_sent",
    "verdict_authority", "ai_verdict_authority", "ui_verdict_authority", "production_identity_used",
    "wallet_custody", "mainnet_submission_allowed", "production_control_mutation", "automatic_intervention",
    "arbitrary_command_execution" }

  predicate Walk(v: Value)
    decreases v
  {
    match v
    case Scalar(_) => true
    case Array(items) => forall i :: 0 <= i < |items| ==> Walk(items[i])
    case Object(members) =>
      forall key :: key in members ==> (key in MUST_BE_FALSE ==> members[key] == Scalar(False)) && Walk(members[key])
  }

  datatype Step = Key(key: string) | Index(i: nat)

  function Child(v: Value, step: Step): Option<Value> {
    match (step, v)
    case (Key(key), Object(members)) => if key in members then Some(members[key]) else None
    case (Index(i), Array(items)) => if i < |items| then Some(items[i]) else None
    case _ => None
  }

  // The part of the document at the end of a path.
  function At(v: Value, path: seq<Step>): Option<Value>
    decreases |path|
  {
    if path == [] then Some(v)
    else if Child(v, path[0]).None? then None
    else At(Child(v, path[0]).value, path[1..])
  }

  ghost predicate SafeAt(v: Value, path: seq<Step>, key: string) {
    At(v, path + [Key(key)]).Some? && key in MUST_BE_FALSE ==> At(v, path + [Key(key)]) == Some(Scalar(False))
  }

  lemma {:induction false} WalkedPathIsSafe(v: Value, path: seq<Step>, key: string)
    requires Walk(v)
    ensures SafeAt(v, path, key)
    decreases |path|
  {
    if path == [] {
      assert (path + [Key(key)])[1..] == [];
    } else {
      assert (path + [Key(key)])[1..] == path[1..] + [Key(key)];
      if At(v, path + [Key(key)]).Some? {
        WalkedPathIsSafe(Child(v, path[0]).value, path[1..], key);
      }
    }
  }

  lemma AtExtends(v: Value, step: Step, rest: seq<Step>)
    ensures At(v, [step] + rest) == if Child(v, step).None? then None else At(Child(v, step).value, rest)
  {
    assert ([step] + rest)[1..] == rest;
  }

  // An unsafe document has a path that shows it.
  lemma {:induction false} UnsafePath(v: Value) returns (path: seq<Step>, key: string)
    requires !Walk(v)
    ensures !SafeAt(v, path, key)
    decreases v
  {
    var step: Step, rest: seq<Step>;
    if v.Array? {
      var i :| 0 <= i < |v.items| && !Walk(v.items[i]);
      rest, key := UnsafePath(v.items[i]);
      step := Index(i);
    } else {
      var k :| k in v.members && ((k in MUST_BE_FALSE && v.members[k] != Scalar(False)) || !Walk(v.members[k]));
      if k in MUST_BE_FALSE && v.members[k] != Scalar(False) {
        path, key := [], k;
        AtExtends(v, Key(k), []);
        assert path + [Key(key)] == [Key(k)] + [];
        return;
      }
      rest, key := UnsafePath(v.members[k]);
      step := Key(k);
    }
    path := [step] + rest;
    AtExtends(v, step, rest + [Key(key)]);
    assert path + [Key(key)] == [step] + (rest + [Key(key)]);
  }

  // The walk accepts exactly the documents in which a protected name, at any
  // depth and inside any nesting of arrays and objects, has the value false.
  lemma WalkAcceptsExactlySafeDocuments(v: Value)
    ensures Walk(v) <==> forall path, key :: SafeAt(v, path, key)
  {
    if Walk(v) {
      forall path, key ensures SafeAt(v, path, key) {
        WalkedPathIsSafe(v, path, key);
      }
    } else {
      var path, key := UnsafePath(v);
    }
  }
}
