/**
 The canonical text of a scenario contract: no white space, object keys in
 increasing order.  Two accepted texts get the same canonical text exactly when
 they denote the same document up to white space, escapes and member order.
 */
module JsonCanonical {
  import opened Bytes
  import opened JsonText
  import opened JsonLayouts
  import opened JsonValue
  import opened JsonReader
  import opened JsonDecoder

  // ---------- the order of keys ----------

  predicate Less(a: string, b: string) {
    b != "" && (a == "" || a[0] < b[0] || (a[0] == b[0] && Less(a[1..], b[1..])))
  }

  lemma {:induction false} LessTotal(a: string, b: string)
    ensures a == b || Less(a, b) || Less(b, a)
    ensures !(Less(a, b) && (a == b || Less(b, a)))
  {
    if a != "" && b != "" && a[0] == b[0] {
      LessTotal(a[1..], b[1..]);
      assert a == [a[0]] + a[1..] && b == [b[0]] + b[1..];
    }
  }

  lemma {:induction false} LessTransitive(a: string, b: string, c: string)
    requires Less(a, b) && Less(b, c)
    ensures Less(a, c)
  {
    if a != "" && a[0] == b[0] == c[0] {
      LessTransitive(a[1..], b[1..], c[1..]);
    }
  }

  predicate IsLeast(k: string, keys: set<string>) {
    k in keys && forall x :: x in keys ==> x == k || Less(k, x)
  }

  lemma {:induction false} LeastExists(keys: set<string>)
    requires keys != {}
    ensures exists k :: IsLeast(k, keys)
    decreases |keys|
  {
    var k :| k in keys;
    var others := keys - {k};
    if others != {} {
      LeastExists(others);
      var m :| IsLeast(m, others);
      LessTotal(k, m);
      forall x | x in others && x != m && Less(k, m) ensures Less(k, x) {
        LessTransitive(k, m, x);
      }
      assert IsLeast(if Less(m, k) then m else k, keys);
    } else {
      assert keys == {k};
      assert IsLeast(k, keys);
    }
  }

  lemma LeastUnique(keys: set<string>)
    ensures forall a, b :: IsLeast(a, keys) && IsLeast(b, keys) ==> a == b
  {
    forall a, b | IsLeast(a, keys) && IsLeast(b, keys) ensures a == b {
      LessTotal(a, b);
    }
  }

  function Least(keys: set<string>): (k: string)
    requires keys != {}
    ensures IsLeast(k, keys)
  {
    LeastExists(keys);
    LeastUnique(keys);
    var k :| IsLeast(k, keys);
    k
  }

  lemma HeadBefore(k: string, rest: seq<string>)
    requires forall i :: 0 <= i < |rest| ==> Less(k, rest[i])
    requires forall i, j :: 0 <= i < j < |rest| ==> Less(rest[i], rest[j])
    ensures forall i, j :: 0 <= i < j < |rest| + 1 ==> Less(([k] + rest)[i], ([k] + rest)[j])
  {
  }

  function Sorted(keys: set<string>): (r: seq<string>)
    ensures |r| == |keys|
    ensures forall x :: x in r <==> x in keys
    ensures forall i, j :: 0 <= i < j < |r| ==> Less(r[i], r[j])
    ensures forall i, j :: 0 <= i < j < |r| ==> r[i] != r[j]
    decreases |keys|
  {
    if keys == {} then [] else
      var k := Least(keys);
      var rest := Sorted(keys - {k});
      assert forall i :: 0 <= i < |rest| ==> rest[i] in rest;
      HeadBefore(k, rest);
      [k] + rest
  }

  // ---------- canonical trees and canonical text ----------

  function CanonicalTree(v: Value): Tree
    decreases v, 1, 0
  {
    match v
    case Scalar(token) => Leaf(token)
    case Array(items) => List(seq(|items|, i requires 0 <= i < |items| => CanonicalTree(items[i])))
    case Object(members) => Dict(CanonicalMembers(v, Sorted(members.Keys)))
  }

  function CanonicalMembers(v: Value, keys: seq<string>): (r: seq<Member>)
    requires v.Object? && forall k :: k in keys ==> k in v.members
    ensures |r| == |keys|
    ensures forall i :: 0 <= i < |keys| ==> r[i] == Member(keys[i], CanonicalTree(v.members[keys[i]]))
    decreases v, 0, |keys|
  {
    if keys == [] then []
    else [Member(keys[0], CanonicalTree(v.members[keys[0]]))] + CanonicalMembers(v, keys[1..])
  }

  function NoSpaces(n: nat): (r: seq<string>)
    ensures |r| == n && forall i :: 0 <= i < n ==> r[i] == ""
  {
    seq(n, i => "")
  }

  function Compact(tokens: seq<Token>): string {
    Interleave(SpellTokens(tokens), NoSpaces(|tokens| + 1))
  }

  function Print(v: Value): string {
    Compact(Render(CanonicalTree(v)))
  }

  function Canonical(text: string): Option<string> {
    match ReadDocument(text)
    case None => None
    case Some(v) => Some(Print(v))
  }

  method Canonicalize(text: string) returns (r: Result<string, Failure>)
    ensures r.Ok? <==> Canonical(text).Some?
    ensures r.Ok? ==> Some(r.value) == Canonical(text)
  {
    var document := DecodeDocument(text);
    if document.Err? {
      return Err(document.error);
    }
    return Ok(Print(document.value));
  }

  // ---------- values the reader can produce ----------

  predicate WellFormed(v: Value)
    decreases v
  {
    match v
    case Scalar(token) => IsScalar(token) && ValidToken(token)
    case Array(items) => forall i :: 0 <= i < |items| ==> WellFormed(items[i])
    case Object(members) => forall k :: k in members ==> WellFormed(members[k])
  }

  predicate AllValid(tokens: seq<Token>) {
    forall i :: 0 <= i < |tokens| ==> ValidToken(tokens[i])
  }

  lemma {:induction false} MembersOfKeys(t: Tree, keys: seq<string>, members: map<string, Value>, n: nat)
    requires t.Dict? && |t.members| == |keys| && n <= |keys|
    requires forall i :: 0 <= i < n ==> t.members[i].key == keys[i] && keys[i] in members
    requires forall i :: 0 <= i < n ==> ToValue(t.members[i].tree) == members[keys[i]]
    ensures MembersUpTo(t, n).Keys == set k | k in keys[..n]
    ensures forall k :: k in MembersUpTo(t, n) ==> k in members && MembersUpTo(t, n)[k] == members[k]
  {
    if n > 0 {
      MembersOfKeys(t, keys, members, n - 1);
      assert keys[..n] == keys[..n - 1] + [keys[n - 1]];
    }
  }

  lemma CanonicalObjectDistinct(v: Value)
    requires v.Object?
    requires forall k :: k in v.members ==> Distinct(CanonicalTree(v.members[k]))
    ensures Distinct(CanonicalTree(v))
  {
    var keys := Sorted(v.members.Keys);
    assert forall i :: 0 <= i < |keys| ==> keys[i] in keys;
  }

  lemma CanonicalObjectValue(v: Value, keys: seq<string>)
    requires v.Object? && forall k :: k in keys <==> k in v.members
    requires forall k :: k in v.members ==> ToValue(CanonicalTree(v.members[k])) == v.members[k]
    ensures MembersUpTo(Dict(CanonicalMembers(v, keys)), |keys|) == v.members
  {
    var t := Dict(CanonicalMembers(v, keys));
    forall i | 0 <= i < |keys| ensures keys[i] in v.members {
      assert keys[i] in keys;
    }
    MembersOfKeys(t, keys, v.members, |keys|);
    assert keys[..|keys|] == keys;
    SameMap(MembersUpTo(t, |keys|), v.members, keys);
  }

  lemma SameMap<T>(m: map<string, T>, n: map<string, T>, keys: seq<string>)
    requires m.Keys == (set k | k in keys) && forall k :: k in keys <==> k in n
    requires forall k :: k in m ==> k in n && m[k] == n[k]
    ensures m == n
  {
  }

  lemma {:induction false} CanonicalTreeOf(v: Value)
    requires WellFormed(v)
    ensures Distinct(CanonicalTree(v)) && ToValue(CanonicalTree(v)) == v
    decreases v
  {
    match v
    case Scalar(token) =>
    case Array(items) =>
      var t := CanonicalTree(v);
      forall i | 0 <= i < |items| ensures Distinct(t.items[i]) && ToValue(t.items[i]) == items[i] {
        CanonicalTreeOf(items[i]);
      }
      assert ToValue(t).items == items;
    case Object(members) =>
      forall k | k in members
        ensures Distinct(CanonicalTree(members[k])) && ToValue(CanonicalTree(members[k])) == members[k]
      {
        CanonicalTreeOf(members[k]);
      }
      CanonicalObjectDistinct(v);
      CanonicalObjectValue(v, Sorted(members.Keys));
  }

  // ---------- rendered tokens lex back ----------

  lemma SeparatedConcat(a: seq<Token>, b: seq<Token>)
    requires Separated(a) && Separated(b)
    requires a == [] || b == [] || !b[0].Number? || !a[|a| - 1].Number?
    ensures Separated(a + b)
  {
  }

  lemma {:induction false} RenderSeparated(t: Tree)
    ensures Separated(Render(t))
    decreases t, 1, 0
  {
    match t
    case Leaf(token) =>
    case List(items) =>
      RenderItemsSeparated(t, 0);
      SeparatedConcat([LBracket], RenderItems(t, 0));
      SeparatedConcat([LBracket] + RenderItems(t, 0), [RBracket]);
    case Dict(members) =>
      RenderMembersSeparated(t, 0);
      SeparatedConcat([LBrace], RenderMembers(t, 0));
      SeparatedConcat([LBrace] + RenderMembers(t, 0), [RBrace]);
  }

  lemma {:induction false} RenderItemsSeparated(t: Tree, i: nat)
    requires t.List? && i <= |t.items|
    ensures Separated(RenderItems(t, i))
    ensures i > 0 && RenderItems(t, i) != [] ==> RenderItems(t, i)[0] == Comma
    decreases t, 0, |t.items| - i
  {
    if i < |t.items| {
      RenderSeparated(t.items[i]);
      RenderItemsSeparated(t, i + 1);
      SeparatedConcat(Render(t.items[i]), RenderItems(t, i + 1));
      SeparatedConcat(Comma1(i == 0), Render(t.items[i]) + RenderItems(t, i + 1));
    }
  }

  lemma {:induction false} RenderMembersSeparated(t: Tree, i: nat)
    requires t.Dict? && i <= |t.members|
    ensures Separated(RenderMembers(t, i))
    ensures RenderMembers(t, i) != [] ==> !RenderMembers(t, i)[0].Number?
    decreases t, 0, |t.members| - i
  {
    if i < |t.members| {
      var m := t.members[i];
      RenderSeparated(m.tree);
      RenderMembersSeparated(t, i + 1);
      SeparatedConcat(Render(m.tree), RenderMembers(t, i + 1));
      SeparatedConcat([Text(m.key), Colon], Render(m.tree) + RenderMembers(t, i + 1));
      SeparatedConcat(Comma1(i == 0), [Text(m.key), Colon] + (Render(m.tree) + RenderMembers(t, i + 1)));
    }
  }

  lemma AllValidConcat(a: seq<Token>, b: seq<Token>)
    ensures AllValid(a + b) <==> AllValid(a) && AllValid(b)
  {
    if AllValid(a + b) {
      forall i | 0 <= i < |a| ensures ValidToken(a[i]) { assert (a + b)[i] == a[i]; }
      forall i | 0 <= i < |b| ensures ValidToken(b[i]) { assert (a + b)[|a| + i] == b[i]; }
    }
  }

  // A tree's value is well formed exactly when its tokens are valid.
  lemma {:induction false} RenderValid(t: Tree)
    requires Distinct(t)
    ensures AllValid(Render(t)) <==> WellFormed(ToValue(t))
    decreases t, 1, 0
  {
    match t
    case Leaf(token) => assert Render(t)[0] == token;
    case List(items) =>
      RenderItemsValid(t, 0);
      AllValidConcat([LBracket], RenderItems(t, 0));
      AllValidConcat([LBracket] + RenderItems(t, 0), [RBracket]);
      assert forall i :: 0 <= i < |items| ==> ToValue(t).items[i] == ToValue(items[i]);
    case Dict(members) =>
      RenderMembersValid(t, 0);
      AllValidConcat([LBrace], RenderMembers(t, 0));
      AllValidConcat([LBrace] + RenderMembers(t, 0), [RBrace]);
      MembersUpToKeys(t, |members|);
  }

  lemma {:induction false} RenderItemsValid(t: Tree, i: nat)
    requires t.List? && Distinct(t) && i <= |t.items|
    ensures AllValid(RenderItems(t, i)) <==> forall j :: i <= j < |t.items| ==> WellFormed(ToValue(t.items[j]))
    decreases t, 0, |t.items| - i
  {
    if i < |t.items| {
      RenderValid(t.items[i]);
      RenderItemsValid(t, i + 1);
      AllValidConcat(Render(t.items[i]), RenderItems(t, i + 1));
      AllValidConcat(Comma1(i == 0), Render(t.items[i]) + RenderItems(t, i + 1));
    }
  }

  lemma {:induction false} RenderMembersValid(t: Tree, i: nat)
    requires t.Dict? && Distinct(t) && i <= |t.members|
    ensures AllValid(RenderMembers(t, i))
            <==> forall j :: i <= j < |t.members| ==> WellFormed(ToValue(t.members[j].tree))
    decreases t, 0, |t.members| - i
  {
    if i < |t.members| {
      var m := t.members[i];
      RenderValid(m.tree);
      RenderMembersValid(t, i + 1);
      AllValidConcat(Render(m.tree), RenderMembers(t, i + 1));
      AllValidConcat([Text(m.key), Colon], Render(m.tree) + RenderMembers(t, i + 1));
      AllValidConcat(Comma1(i == 0), [Text(m.key), Colon] + (Render(m.tree) + RenderMembers(t, i + 1)));
    }
  }

  // ---------- main results ----------

  // A text denotes a tree without repeated keys when it spells the tree's
  // rendering, whatever the spellings and the white space.
  ghost predicate Denotes(text: string, t: Tree) {
    Distinct(t) && IsSpelling(text, Render(t))
  }

  lemma DenotesLexed(text: string, t: Tree)
    requires Distinct(t)
    ensures Denotes(text, t) <==> Lex(text) == Lexed(Render(t), true)
  {
    RenderSeparated(t);
    LexExactly(text, Render(t));
  }

  // The reader accepts exactly the texts that denote one value with no key
  // repeated in any object, and the value it returns is that one.
  lemma AcceptsExactlyDistinctDocuments(text: string)
    ensures ReadDocument(text).Some? <==> exists t :: Denotes(text, t)
    ensures forall t :: Denotes(text, t) ==> ReadDocument(text) == Some(ToValue(t))
  {
    forall t | Denotes(text, t) ensures ReadDocument(text) == Some(ToValue(t)) {
      DenotesLexed(text, t);
      ReadRendered(t, []);
      assert Render(t) + [] == Render(t);
    }
    if ReadDocument(text).Some? {
      var t := ReadIsRendering(Lex(text).tokens);
      assert Render(t) + [] == Render(t);
      DenotesLexed(text, t);
    }
  }

  // Every spelling of a tree, with each token in any of its spellings and any
  // white space between the tokens, is read as the tree's value.
  lemma SpellingsAreRead(t: Tree, texts: seq<string>, spaces: seq<string>)
    requires Distinct(t) && SpellsEach(texts, Render(t)) && |spaces| == |texts| + 1 && AllSpaces(spaces)
    ensures ReadDocument(Interleave(texts, spaces)) == Some(ToValue(t))
  {
    assert LaidOut(Interleave(texts, spaces), Render(t), texts, spaces);
    AcceptsExactlyDistinctDocuments(Interleave(texts, spaces));
  }

  // The compact text of a tree is one of its spellings.
  lemma CompactDenotes(t: Tree)
    requires Distinct(t) && WellFormed(ToValue(t))
    ensures Denotes(Compact(Render(t)), t)
  {
    RenderValid(t);
    SpellTokensSpell(Render(t));
    var spaces := NoSpaces(|Render(t)| + 1);
    assert LaidOut(Compact(Render(t)), Render(t), SpellTokens(Render(t)), spaces);
  }

  lemma PrintThenRead(v: Value)
    requires WellFormed(v)
    ensures ReadDocument(Print(v)) == Some(v)
  {
    CanonicalTreeOf(v);
    CompactDenotes(CanonicalTree(v));
    AcceptsExactlyDistinctDocuments(Print(v));
  }

  lemma CompactSafe(tokens: seq<Token>)
    requires AllValid(tokens)
    ensures Safe(Compact(tokens))
  {
    SpellTokensSafe(tokens);
    InterleaveSafe(SpellTokens(tokens), NoSpaces(|tokens| + 1));
  }

  // Canonical text holds no character that needs care inside HTML.
  lemma PrintIsSafe(v: Value)
    requires WellFormed(v)
    ensures Safe(Print(v))
  {
    CanonicalTreeOf(v);
    RenderValid(CanonicalTree(v));
    CompactSafe(Render(CanonicalTree(v)));
  }

  lemma ReadIsWellFormed(text: string)
    requires ReadDocument(text).Some?
    ensures WellFormed(ReadDocument(text).value)
  {
    var t := ReadIsRendering(Lex(text).tokens);
    LexedTokensValid(text);
    assert Render(t) + [] == Render(t);
    RenderValid(t);
  }

  lemma CanonicalIsIdempotent(text: string)
    requires Canonical(text).Some?
    ensures Canonical(Canonical(text).value) == Canonical(text)
  {
    ReadIsWellFormed(text);
    PrintThenRead(ReadDocument(text).value);
  }

  // The same document up to the order of members, at every depth.
  predicate SameUpToOrder(a: Tree, b: Tree)
    decreases a
  {
    match (a, b)
    case (Leaf(x), Leaf(y)) => x == y
    case (List(xs), List(ys)) => |xs| == |ys| && forall i :: 0 <= i < |xs| ==> SameUpToOrder(xs[i], ys[i])
    case (Dict(xs), Dict(ys)) =>
      && (forall i :: 0 <= i < |xs| ==> HasPartner(xs[i], ys))
      && (forall j :: 0 <= j < |ys| ==> IsPartner(xs, ys[j]))
    case _ => false
  }

  // Some member of ys has the same key and the same tree up to order.
  predicate HasPartner(x: Member, ys: seq<Member>)
    decreases x
  {
    exists j :: 0 <= j < |ys| && x.key == ys[j].key && SameUpToOrder(x.tree, ys[j].tree)
  }

  predicate IsPartner(xs: seq<Member>, y: Member)
    decreases xs
  {
    exists i :: 0 <= i < |xs| && xs[i].key == y.key && SameUpToOrder(xs[i].tree, y.tree)
  }

  lemma MemberAt(t: Tree, j: nat)
    requires t.Dict? && Distinct(t) && j < |t.members|
    ensures t.members[j].key in ToValue(t).members
    ensures ToValue(t).members[t.members[j].key] == ToValue(t.members[j].tree)
  {
    MembersUpToKeys(t, |t.members|);
  }

  lemma MemberFor(t: Tree, key: string) returns (j: nat)
    requires t.Dict? && Distinct(t) && key in ToValue(t).members
    ensures j < |t.members| && t.members[j].key == key
    ensures ToValue(t).members[key] == ToValue(t.members[j].tree)
  {
    MembersUpToKeys(t, |t.members|);
    j :| 0 <= j < |t.members| && t.members[j].key == key;
  }

  lemma {:induction false} PartnerSameValue(a: Tree, b: Tree, i: nat)
    requires a.Dict? && b.Dict? && Distinct(a) && Distinct(b) && i < |a.members|
    ensures HasPartner(a.members[i], b.members) <==>
              && a.members[i].key in ToValue(b).members
              && ToValue(b).members[a.members[i].key] == ToValue(a.members[i].tree)
    decreases a, 0
  {
    var x := a.members[i];
    if HasPartner(x, b.members) {
      var j :| 0 <= j < |b.members| && x.key == b.members[j].key && SameUpToOrder(x.tree, b.members[j].tree);
      MemberAt(b, j);
      SameUpToOrderIffSameValue(x.tree, b.members[j].tree);
    } else if x.key in ToValue(b).members {
      var j := MemberFor(b, x.key);
      SameUpToOrderIffSameValue(x.tree, b.members[j].tree);
    }
  }

  lemma {:induction false} IsPartnerSameValue(a: Tree, b: Tree, j: nat)
    requires a.Dict? && b.Dict? && Distinct(a) && Distinct(b) && j < |b.members|
    ensures IsPartner(a.members, b.members[j]) <==>
              && b.members[j].key in ToValue(a).members
              && ToValue(a).members[b.members[j].key] == ToValue(b.members[j].tree)
    decreases a, 0
  {
    var y := b.members[j];
    if IsPartner(a.members, y) {
      var i :| 0 <= i < |a.members| && a.members[i].key == y.key && SameUpToOrder(a.members[i].tree, y.tree);
      MemberAt(a, i);
      SameUpToOrderIffSameValue(a.members[i].tree, y.tree);
    } else if y.key in ToValue(a).members {
      var i := MemberFor(a, y.key);
      SameUpToOrderIffSameValue(a.members[i].tree, y.tree);
    }
  }

  lemma {:induction false} SameMembersSameValue(a: Tree, b: Tree)
    requires a.Dict? && b.Dict? && Distinct(a) && Distinct(b) && SameUpToOrder(a, b)
    ensures ToValue(a) == ToValue(b)
    decreases a, 1
  {
    var (m, n) := (ToValue(a).members, ToValue(b).members);
    forall k | k in m ensures k in n && n[k] == m[k] {
      var i := MemberFor(a, k);
      PartnerSameValue(a, b, i);
    }
    forall k | k in n ensures k in m {
      var j := MemberFor(b, k);
      IsPartnerSameValue(a, b, j);
    }
    assert m == n;
  }

  lemma {:induction false} SameValueHasPartners(a: Tree, b: Tree)
    requires a.Dict? && b.Dict? && Distinct(a) && Distinct(b) && ToValue(a) == ToValue(b)
    ensures SameUpToOrder(a, b)
    decreases a, 1
  {
    forall i | 0 <= i < |a.members| ensures HasPartner(a.members[i], b.members) {
      MemberAt(a, i);
      PartnerSameValue(a, b, i);
    }
    forall j | 0 <= j < |b.members| ensures IsPartner(a.members, b.members[j]) {
      MemberAt(b, j);
      IsPartnerSameValue(a, b, j);
    }
  }

  lemma {:induction false} SameUpToOrderIffSameValue(a: Tree, b: Tree)
    requires Distinct(a) && Distinct(b)
    ensures SameUpToOrder(a, b) <==> ToValue(a) == ToValue(b)
    decreases a, 2
  {
    if a.List? && b.List? {
      forall i | 0 <= i < |a.items| && |a.items| == |b.items|
        ensures SameUpToOrder(a.items[i], b.items[i]) <==> ToValue(a).items[i] == ToValue(b).items[i]
      {
        SameUpToOrderIffSameValue(a.items[i], b.items[i]);
      }
    } else if a.Dict? && b.Dict? {
      if SameUpToOrder(a, b) {
        SameMembersSameValue(a, b);
      } else if ToValue(a) == ToValue(b) {
        SameValueHasPartners(a, b);
      }
    }
  }

  // Two accepted texts have the same canonical text exactly when they differ at
  // most in white space, escapes and the order of members.
  lemma CanonicalTextsAgree(a: string, s: Tree, b: string, t: Tree)
    requires Denotes(a, s) && Denotes(b, t)
    ensures Canonical(a) == Canonical(b) <==> SameUpToOrder(s, t)
  {
    AcceptsExactlyDistinctDocuments(a);
    AcceptsExactlyDistinctDocuments(b);
    ReadIsWellFormed(a);
    ReadIsWellFormed(b);
    PrintThenRead(ToValue(s));
    PrintThenRead(ToValue(t));
    SameUpToOrderIffSameValue(s, t);
  }
}
