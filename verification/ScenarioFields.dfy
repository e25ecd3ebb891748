/**
 The text fields of a scenario contract.  They are decoded from the text as it was
 given and not from its canonical form: names match up to letter case, and of the
 members that match a field the last one counts.
 */
module ScenarioFields {
  import opened Bytes
  import opened JsonCanonical
  import opened JsonText
  import opened JsonValue

  // Letter case does not count; two more characters fold to letters.
  function FoldRune(c: char): char {
    if 'A' <= c <= 'Z' then (c as int + 32) as char
    else if c as int == 0x17F then 's'
    else if c as int == 0x212A then 'k'
    else c
  }

  function Fold(s: string): (r: string)
    ensures |r| == |s| && forall i :: 0 <= i < |s| ==> r[i] == FoldRune(s[i])
  {
    seq(|s|, i requires 0 <= i < |s| => FoldRune(s[i]))
  }

  // One matching member: null changes nothing, a text is assigned, and anything
  // else makes the decoding fail.
  function Assign(before: Option<string>, v: Value): Option<string> {
    if v == Scalar(Null) then before
    else if v.Scalar? && v.token.Text? && before.Some? then Some(v.token.s)
    else None
  }

  // The field after the members in their order; None when the decoding fails.
  function Assigned(members: seq<Member>, name: string): Option<string> {
    if members == [] then Some("") else
      var (before, last) := (Assigned(members[..|members| - 1], name), members[|members| - 1]);
      if Fold(last.key) == name then Assign(before, ToValue(last.tree)) else before
  }

  function Field(t: Tree, name: string): Option<string>
    requires t.Dict?
  {
    Assigned(t.members, name)
  }

  // ---------- what the members say, whatever their order ----------

  predicate Gives(m: Member, name: string, s: string) {
    Fold(m.key) == name && ToValue(m.tree) == Scalar(Text(s))
  }

  predicate Wrong(m: Member, name: string) {
    var v := ToValue(m.tree);
    Fold(m.key) == name && v != Scalar(Null) && !(v.Scalar? && v.token.Text?)
  }

  predicate AnyWrong(members: seq<Member>, name: string) {
    exists m :: m in members && Wrong(m, name)
  }

  ghost predicate Given(members: seq<Member>, name: string, s: string) {
    exists m :: m in members && Gives(m, name, s)
  }

  // No two matching members give different texts, or one of them has a value that
  // fails anyway.
  ghost predicate Unambiguous(members: seq<Member>, name: string) {
    AnyWrong(members, name) || forall s, t :: Given(members, name, s) && Given(members, name, t) ==> s == t
  }

  lemma {:induction false} AssignedExact(members: seq<Member>, name: string)
    ensures Assigned(members, name).None? <==> AnyWrong(members, name)
    ensures Assigned(members, name).Some? ==>
              var s := Assigned(members, name).value;
              Given(members, name, s) || (s == "" && forall t :: !Given(members, name, t))
    decreases |members|
  {
    if members != [] {
      var (rest, last) := (members[..|members| - 1], members[|members| - 1]);
      assert members == rest + [last];
      AssignedExact(rest, name);
      AnyWrongNext(rest, last, name);
      GivenNext(rest, last, name);
    }
  }

  lemma AnyWrongNext(rest: seq<Member>, last: Member, name: string)
    ensures AnyWrong(rest + [last], name) <==> AnyWrong(rest, name) || Wrong(last, name)
  {
    assert last in rest + [last];
    assert forall m :: m in rest ==> m in rest + [last];
  }

  lemma GivenNext(rest: seq<Member>, last: Member, name: string)
    ensures forall s :: Given(rest + [last], name, s) <==> Given(rest, name, s) || Gives(last, name, s)
  {
    forall s ensures Given(rest + [last], name, s) <==> Given(rest, name, s) || Gives(last, name, s) {
      assert last in rest + [last];
      assert forall m :: m in rest ==> m in rest + [last];
    }
  }

  // Members with the same keys and values, in whatever order.
  ghost predicate Covers(a: seq<Member>, b: seq<Member>) {
    forall m :: m in a ==> HasSame(m, b)
  }

  ghost predicate HasSame(m: Member, members: seq<Member>) {
    exists k :: k in members && k.key == m.key && ToValue(k.tree) == ToValue(m.tree)
  }

  lemma CoveredFacts(a: seq<Member>, b: seq<Member>, name: string)
    requires Covers(a, b)
    ensures AnyWrong(a, name) ==> AnyWrong(b, name)
    ensures forall s :: Given(a, name, s) ==> Given(b, name, s)
  {
    forall m | m in a && Wrong(m, name) ensures AnyWrong(b, name) {
      assert HasSame(m, b);
      var k :| k in b && k.key == m.key && ToValue(k.tree) == ToValue(m.tree);
      assert Wrong(k, name);
    }
    forall s, m | m in a && Gives(m, name, s) ensures Given(b, name, s) {
      assert HasSame(m, b);
      var k :| k in b && k.key == m.key && ToValue(k.tree) == ToValue(m.tree);
      assert Gives(k, name, s);
    }
  }

  lemma SameValueCovers(t: Tree, u: Tree)
    requires t.Dict? && u.Dict? && Distinct(t) && Distinct(u) && ToValue(t) == ToValue(u)
    ensures Covers(t.members, u.members)
  {
    forall m | m in t.members ensures HasSame(m, u.members) {
      var i :| 0 <= i < |t.members| && t.members[i] == m;
      var k := SameMember(t, u, i);
    }
  }

  lemma SameMember(t: Tree, u: Tree, i: nat) returns (k: Member)
    requires t.Dict? && u.Dict? && Distinct(t) && Distinct(u) && ToValue(t) == ToValue(u) && i < |t.members|
    ensures k in u.members && k.key == t.members[i].key && ToValue(k.tree) == ToValue(t.members[i].tree)
  {
    MemberAt(t, i);
    var j := MemberFor(u, t.members[i].key);
    k := u.members[j];
  }

  lemma ValueFacts(t: Tree, u: Tree, name: string)
    requires t.Dict? && u.Dict? && Distinct(t) && Distinct(u) && ToValue(t) == ToValue(u)
    ensures AnyWrong(t.members, name) ==> AnyWrong(u.members, name)
    ensures forall s :: Given(t.members, name, s) ==> Given(u.members, name, s)
  {
    SameValueCovers(t, u);
    CoveredFacts(t.members, u.members, name);
  }

  lemma SameFacts(a: seq<Member>, b: seq<Member>, name: string)
    requires AnyWrong(a, name) <==> AnyWrong(b, name)
    requires forall s :: Given(a, name, s) <==> Given(b, name, s)
    requires Unambiguous(a, name)
    ensures Assigned(b, name) == Assigned(a, name)
  {
    AssignedExact(a, name);
    AssignedExact(b, name);
  }

  lemma UnambiguousAgrees(t: Tree, u: Tree, name: string)
    requires t.Dict? && u.Dict? && Distinct(t) && Distinct(u) && ToValue(t) == ToValue(u)
    requires Unambiguous(t.members, name)
    ensures Field(u, name) == Field(t, name)
  {
    ValueFacts(t, u, name);
    ValueFacts(u, t, name);
    SameFacts(t.members, u.members, name);
  }

  // ---------- moving a member to the end ----------

  function MovedLast(members: seq<Member>, i: nat): seq<Member>
    requires i < |members|
  {
    members[..i] + members[i + 1..] + [members[i]]
  }

  lemma MovedLastMembers(members: seq<Member>, i: nat)
    requires i < |members|
    ensures multiset(MovedLast(members, i)) == multiset(members)
    ensures forall m :: m in MovedLast(members, i) <==> m in members
  {
    assert members == members[..i] + [members[i]] + members[i + 1..];
    assert forall m :: m in MovedLast(members, i) <==> m in multiset(MovedLast(members, i));
    assert forall m :: m in members <==> m in multiset(members);
  }

  lemma MovedLastDistinct(t: Tree, i: nat)
    requires t.Dict? && Distinct(t) && i < |t.members|
    ensures Distinct(Dict(MovedLast(t.members, i)))
  {
    var u := MovedLast(t.members, i);
    assert forall j :: 0 <= j < |u| ==> u[j] == t.members[if j < i then j else if j < |u| - 1 then j + 1 else i];
  }

  lemma MovedLastPartners(t: Tree, i: nat)
    requires t.Dict? && Distinct(t) && i < |t.members|
    ensures SameUpToOrder(t, Dict(MovedLast(t.members, i)))
  {
    var u := MovedLast(t.members, i);
    MovedLastMembers(t.members, i);
    forall j | 0 <= j < |t.members| ensures HasPartner(t.members[j], u) {
      assert t.members[j] in u;
      var k :| 0 <= k < |u| && u[k] == t.members[j];
      SameUpToOrderIffSameValue(t.members[j].tree, u[k].tree);
    }
    forall k | 0 <= k < |u| ensures IsPartner(t.members, u[k]) {
      assert u[k] in t.members;
      var j :| 0 <= j < |t.members| && t.members[j] == u[k];
      SameUpToOrderIffSameValue(t.members[j].tree, u[k].tree);
    }
  }

  // The same document with one of its members moved to the end.
  lemma MovedLastTree(t: Tree, i: nat)
    requires t.Dict? && Distinct(t) && i < |t.members|
    ensures Distinct(Dict(MovedLast(t.members, i))) && ToValue(Dict(MovedLast(t.members, i))) == ToValue(t)
  {
    MovedLastDistinct(t, i);
    MovedLastPartners(t, i);
    SameUpToOrderIffSameValue(t, Dict(MovedLast(t.members, i)));
  }

  lemma LastCounts(members: seq<Member>, m: Member, name: string, s: string)
    requires Gives(m, name, s) && !AnyWrong(members + [m], name)
    ensures Assigned(members + [m], name) == Some(s)
  {
    AssignedExact(members + [m], name);
    assert (members + [m])[..|members|] == members;
  }

  // Any text that a matching member gives can be made to count.
  lemma MayCount(t: Tree, name: string, s: string) returns (u: Tree)
    requires t.Dict? && Distinct(t) && !AnyWrong(t.members, name) && Given(t.members, name, s)
    ensures u.Dict? && Distinct(u) && ToValue(u) == ToValue(t) && Field(u, name) == Some(s)
  {
    var i :| 0 <= i < |t.members| && Gives(t.members[i], name, s);
    u := Dict(MovedLast(t.members, i));
    MovedLastTree(t, i);
    MovedLastMembers(t.members, i);
    LastCounts(t.members[..i] + t.members[i + 1..], t.members[i], name, s);
  }

  // ---------- main result ----------

  // Every document with the same value gives the field the same text.
  ghost predicate ValueDecides(t: Tree, name: string)
    requires t.Dict?
  {
    forall u: Tree :: u.Dict? && Distinct(u) && ToValue(u) == ToValue(t) ==> Field(u, name) == Field(t, name)
  }

  lemma ValueDecidesExactly(t: Tree, name: string)
    requires t.Dict? && Distinct(t)
    ensures ValueDecides(t, name) <==> Unambiguous(t.members, name)
  {
    if Unambiguous(t.members, name) {
      forall u: Tree | u.Dict? && Distinct(u) && ToValue(u) == ToValue(t) ensures Field(u, name) == Field(t, name) {
        UnambiguousAgrees(t, u, name);
      }
    } else {
      var r, s :| Given(t.members, name, r) && Given(t.members, name, s) && r != s;
      var u := MayCount(t, name, r);
      var v := MayCount(t, name, s);
      assert Field(u, name) != Field(v, name);
    }
  }

  // Every text with the same canonical text gives the field the same text.
  ghost predicate CanonicalDecides(a: string, s: Tree, name: string)
    requires s.Dict?
  {
    forall b, t: Tree :: Denotes(b, t) && Canonical(b) == Canonical(a) ==> t.Dict? && Field(t, name) == Field(s, name)
  }

  lemma CanonicalSameValue(a: string, s: Tree, b: string, t: Tree)
    requires Denotes(a, s) && Denotes(b, t)
    ensures Canonical(a) == Canonical(b) <==> ToValue(s) == ToValue(t)
  {
    CanonicalTextsAgree(a, s, b, t);
    SameUpToOrderIffSameValue(s, t);
  }

  // A tree with the value of an accepted text has a text too.
  lemma TextOf(a: string, s: Tree, t: Tree) returns (b: string)
    requires Denotes(a, s) && Distinct(t) && ToValue(t) == ToValue(s)
    ensures Denotes(b, t) && Canonical(b) == Canonical(a)
  {
    AcceptsExactlyDistinctDocuments(a);
    ReadIsWellFormed(a);
    b := Compact(Render(t));
    CompactDenotes(t);
    CanonicalSameValue(a, s, b, t);
  }

  // Equal canonical texts, and with them equal digests, fix a text field exactly
  // when no two members that match it give different texts, or when the decoding
  // fails in any case.
  lemma CanonicalDecidesExactly(a: string, s: Tree, name: string)
    requires Denotes(a, s) && s.Dict?
    ensures CanonicalDecides(a, s, name) <==> Unambiguous(s.members, name)
  {
    ValueDecidesExactly(s, name);
    if ValueDecides(s, name) {
      forall b, t: Tree | Denotes(b, t) && Canonical(b) == Canonical(a)
        ensures t.Dict? && Field(t, name) == Field(s, name)
      {
        CanonicalSameValue(a, s, b, t);
        DictValue(s, t);
      }
    } else {
      var u: Tree :| u.Dict? && Distinct(u) && ToValue(u) == ToValue(s) && Field(u, name) != Field(s, name);
      var b := TextOf(a, s, u);
    }
  }

  lemma DictValue(s: Tree, t: Tree)
    requires s.Dict? && ToValue(t) == ToValue(s)
    ensures t.Dict?
  {
  }

  // ---------- two readings of one digest ----------

  ghost predicate AnyGiven(members: seq<Member>, name: string) {
    exists s :: Given(members, name, s)
  }

  // A first member counts only while no other one gives the field.
  lemma {:induction false} FirstCounts(m: Member, rest: seq<Member>, name: string, y: string)
    requires Gives(m, name, y) && !AnyWrong(rest, name)
    ensures Assigned([m] + rest, name) == if AnyGiven(rest, name) then Assigned(rest, name) else Some(y)
    ensures Assigned(rest, name).Some?
    decreases |rest|
  {
    if rest == [] {
      NothingGiven(m, name, y);
      assert [m] + rest == [m];
    } else {
      var (before, last) := (rest[..|rest| - 1], rest[|rest| - 1]);
      assert rest == before + [last];
      assert ([m] + rest)[..|rest|] == [m] + before && ([m] + rest)[|rest|] == last;
      AnyWrongNext(before, last, name);
      AnyGivenNext(before, last, name);
      FirstCounts(m, before, name, y);
    }
  }

  lemma NothingGiven(m: Member, name: string, y: string)
    requires Gives(m, name, y)
    ensures !AnyGiven([], name) && Assigned([m], name) == Some(y)
  {
    assert [m][..0] == [];
  }

  predicate GivesSome(m: Member, name: string) {
    Fold(m.key) == name && ToValue(m.tree).Scalar? && ToValue(m.tree).token.Text?
  }

  lemma AnyGivenNext(rest: seq<Member>, last: Member, name: string)
    ensures AnyGiven(rest + [last], name) <==> AnyGiven(rest, name) || GivesSome(last, name)
  {
    GivenNext(rest, last, name);
    if GivesSome(last, name) {
      assert Gives(last, name, ToValue(last.tree).token.s);
    }
    forall s | Gives(last, name, s) || Given(rest, name, s) ensures AnyGiven(rest + [last], name) {
      assert Given(rest + [last], name, s);
    }
  }

  lemma OneMoreDistinct(t: Tree, m: Member)
    requires t.Dict? && Distinct(t) && Distinct(m.tree) && forall k :: k in t.members ==> k.key != m.key
    ensures Distinct(Dict([m] + t.members))
  {
    var u := [m] + t.members;
    assert forall j :: 0 < j < |u| ==> u[j] == t.members[j - 1] && u[j] in t.members;
  }

  lemma OneMoreWellFormed(t: Tree, m: Member)
    requires t.Dict? && Distinct(t) && WellFormed(ToValue(t)) && WellFormed(ToValue(m.tree))
    requires Distinct(Dict([m] + t.members))
    ensures WellFormed(ToValue(Dict([m] + t.members)))
  {
    var u := Dict([m] + t.members);
    forall k | k in ToValue(u).members ensures WellFormed(ToValue(u).members[k]) {
      var j := MemberFor(u, k);
      if j > 0 {
        MemberAt(t, j - 1);
      }
    }
  }

  lemma BothDenoted(first: Tree) returns (a: string, b: string, last: Tree)
    requires first.Dict? && first.members != [] && Distinct(first) && WellFormed(ToValue(first))
    ensures last == Dict(first.members[1..] + [first.members[0]])
    ensures Denotes(a, first) && Denotes(b, last) && Canonical(a) == Canonical(b)
  {
    MovedLastTree(first, 0);
    last := Dict(MovedLast(first.members, 0));
    assert first.members[..0] + first.members[1..] == first.members[1..];
    a := Compact(Render(first));
    CompactDenotes(first);
    b := TextOf(a, first, last);
  }

  // A document in which a member gives the field can be completed by one whose name
  // differs in letter case alone, before the others or behind them: the canonical
  // text is the same, and the field is not.
  lemma TwoReadings(t: Tree, name: string, twin: string, x: string, y: string)
    returns (a: string, b: string, first: Tree, last: Tree)
    requires t.Dict? && Distinct(t) && WellFormed(ToValue(t)) && Field(t, name) == Some(x) && Given(t.members, name, x)
    requires Fold(twin) == name && forall m :: m in t.members ==> m.key != twin
    ensures first == Dict([Member(twin, Leaf(Text(y)))] + t.members)
    ensures last == Dict(t.members + [Member(twin, Leaf(Text(y)))])
    ensures Denotes(a, first) && Denotes(b, last) && Canonical(a) == Canonical(b)
    ensures Field(first, name) == Some(x) && Field(last, name) == Some(y)
  {
    var m := Member(twin, Leaf(Text(y)));
    first := Dict([m] + t.members);
    OneMoreDistinct(t, m);
    OneMoreWellFormed(t, m);
    a, b, last := BothDenoted(first);
    assert first.members[1..] == t.members;
    TwinCounts(t.members, m, name, x, y);
  }

  lemma TwinCounts(members: seq<Member>, m: Member, name: string, x: string, y: string)
    requires Gives(m, name, y) && Assigned(members, name) == Some(x) && Given(members, name, x)
    ensures Assigned([m] + members, name) == Some(x) && Assigned(members + [m], name) == Some(y)
  {
    AssignedExact(members, name);
    FirstCounts(m, members, name, y);
    AnyWrongNext(members, m, name);
    LastCounts(members, m, name, y);
  }

  const SCENARIO_REF := "scenario_ref"
  const SCENARIO_REF_TWIN := "SCENARIO_REF"

  // The smallest such documents: their canonical texts are equal, and one is a
  // contract with the reference x, the other with y.
  lemma TwoReferences(x: string, y: string) returns (a: string, b: string, first: Tree, last: Tree)
    ensures Denotes(a, first) && Denotes(b, last) && Canonical(a) == Canonical(b) && first.Dict? && last.Dict?
    ensures Field(first, SCENARIO_REF) == Some(x) && Field(last, SCENARIO_REF) == Some(y)
  {
    var m := Member(SCENARIO_REF, Leaf(Text(x)));
    var t := Dict([m]);
    ReferenceNames();
    assert SCENARIO_REF[0] != SCENARIO_REF_TWIN[0];
    NothingGiven(m, SCENARIO_REF, x);
    assert Gives(m, SCENARIO_REF, x) && m in t.members;
    assert Given(t.members, SCENARIO_REF, x);
    OneMemberWellFormed(m);
    a, b, first, last := TwoReadings(t, SCENARIO_REF, SCENARIO_REF_TWIN, x, y);
  }

  lemma ReferenceNames()
    ensures Fold(SCENARIO_REF) == SCENARIO_REF && Fold(SCENARIO_REF_TWIN) == SCENARIO_REF
  {
    assert |SCENARIO_REF| == |SCENARIO_REF_TWIN| == 12;
    assert forall i :: 0 <= i < 12 ==> FoldRune(SCENARIO_REF[i]) == SCENARIO_REF[i];
    assert forall i :: 0 <= i < 12 ==> FoldRune(SCENARIO_REF_TWIN[i]) == SCENARIO_REF[i];
  }

  lemma OneMemberWellFormed(m: Member)
    requires m.tree.Leaf? && m.tree.token.Text?
    ensures Distinct(Dict([m])) && WellFormed(ToValue(Dict([m])))
  {
    var t := Dict([m]);
    forall k | k in ToValue(t).members ensures WellFormed(ToValue(t).members[k]) {
      var j := MemberFor(t, k);
    }
  }
}
