/**
 The duplicate-rejecting reader of scenario contracts.  It drives a token
 decoder and builds maps and slices as it goes; it is proved to accept exactly
 the renderings of trees without repeated keys.
 */
module JsonReader {
  import opened Bytes
  import opened JsonText
  import opened JsonValue

  // ---------- what the reader computes ----------

  function ReadValue(ts: seq<Token>): (r: Option<(Value, seq<Token>)>)
    ensures r.Some? ==> |r.value.1| < |ts|
    decreases |ts|, 0
  {
    if ts == [] then None
    else if IsScalar(ts[0]) then Some((Scalar(ts[0]), ts[1..]))
    else if ts[0] == LBracket then ReadItems(ts[1..], [])
    else if ts[0] == LBrace then ReadMembers(ts[1..], map[])
    else None
  }

  // The tokens of the next element, after the comma that must precede every
  // element but the first.
  function NextElement(ts: seq<Token>, first: bool): (r: Option<seq<Token>>)
    requires ts != []
    ensures r.Some? ==> |r.value| <= |ts|
  {
    if first then Some(ts) else if ts[0] == Comma then Some(ts[1..]) else None
  }

  function ReadItems(ts: seq<Token>, items: seq<Value>): (r: Option<(Value, seq<Token>)>)
    ensures r.Some? ==> |r.value.1| < |ts|
    decreases |ts|, 1
  {
    if ts == [] then None
    else if ts[0] == RBracket then Some((Array(items), ts[1..]))
    else match NextElement(ts, items == [])
      case None => None
      case Some(body) =>
        match ReadValue(body)
        case None => None
        case Some((value, rest)) => ReadItems(rest, items + [value])
  }

  function ReadMembers(ts: seq<Token>, members: map<string, Value>): (r: Option<(Value, seq<Token>)>)
    ensures r.Some? ==> |r.value.1| < |ts|
    decreases |ts|, 1
  {
    if ts == [] then None
    else if ts[0] == RBrace then Some((Object(members), ts[1..]))
    else match NextElement(ts, members == map[])
      case None => None
      case Some(body) =>
        if |body| < 2 || !body[0].Text? || body[0].s in members || body[1] != Colon then None
        else match ReadValue(body[2..])
          case None => None
          case Some((value, rest)) => ReadMembers(rest, members[body[0].s := value])
  }

  // The whole text is one value and nothing else.
  function ReadDocument(text: string): Option<Value> {
    var lexed := Lex(text);
    match ReadValue(lexed.tokens)
    case Some((value, rest)) => if rest == [] && lexed.clean then Some(value) else None
    case None => None
  }

  // ---------- every tree without repeated keys is read ----------

  lemma {:induction false} ReadRendered(t: Tree, rest: seq<Token>)
    requires Distinct(t)
    ensures ReadValue(Render(t) + rest) == Some((ToValue(t), rest))
    decreases t, 1, 0
  {
    var ts := Render(t) + rest;
    match t
    case Leaf(token) => assert ts[1..] == rest;
    case List(items) =>
      assert ts[1..] == RenderItems(t, 0) + ([RBracket] + rest);
      ReadRenderedItems(t, 0, rest);
    case Dict(members) =>
      assert ts[1..] == RenderMembers(t, 0) + ([RBrace] + rest);
      ReadRenderedMembers(t, 0, rest);
  }

  lemma RenderStarts(t: Tree)
    requires Distinct(t)
    ensures Render(t) != [] && Render(t)[0] !in {RBracket, RBrace, Comma, Colon}
  {
  }

  function Comma1(first: bool): seq<Token> {
    if first then [] else [Comma]
  }

  lemma ReadItemsStep(items: seq<Value>, body: seq<Token>)
    requires body != [] && body[0] !in {RBracket, Comma}
    ensures ReadItems(Comma1(items == []) + body, items)
         == var r := ReadValue(body); if r.None? then None else ReadItems(r.value.1, items + [r.value.0])
  {
    assert ([Comma] + body)[1..] == body;
    assert [] + body == body;
  }

  lemma ItemRead(item: Tree, values: seq<Value>, i: nat, after: seq<Token>)
    requires Distinct(item) && ReadValue(Render(item) + after) == Some((ToValue(item), after))
    requires i < |values| && values[i] == ToValue(item)
    ensures ReadItems(Comma1(i == 0) + (Render(item) + after), values[..i]) == ReadItems(after, values[..i + 1])
  {
    RenderStarts(item);
    ReadItemsStep(values[..i], Render(item) + after);
    assert values[..i + 1] == values[..i] + [values[i]];
  }

  lemma {:induction false} ReadRenderedItems(t: Tree, i: nat, rest: seq<Token>)
    requires t.List? && Distinct(t) && i <= |t.items|
    ensures ReadItems(RenderItems(t, i) + ([RBracket] + rest), ToValue(t).items[..i]) == Some((ToValue(t), rest))
    decreases t, 0, |t.items| - i
  {
    var close := [RBracket] + rest;
    var ts := RenderItems(t, i) + close;
    var values := ToValue(t).items;
    if i == |t.items| {
      assert ts == close && ts[1..] == rest && values[..i] == values;
    } else {
      var after := RenderItems(t, i + 1) + close;
      assert ts == Comma1(i == 0) + (Render(t.items[i]) + after);
      ReadRendered(t.items[i], after);
      ItemRead(t.items[i], values, i, after);
      ReadRenderedItems(t, i + 1, rest);
    }
  }

  lemma {:induction false} KeyUpTo(t: Tree, n: nat, key: string)
    requires t.Dict? && n <= |t.members|
    ensures key in MembersUpTo(t, n) <==> exists j :: 0 <= j < n && t.members[j].key == key
  {
    if n > 0 {
      KeyUpTo(t, n - 1, key);
      if key == t.members[n - 1].key {
        assert t.members[n - 1].key == key;
      }
    }
  }

  lemma {:induction false} ValueUpTo(t: Tree, n: nat, j: nat)
    requires t.Dict? && Distinct(t) && j < n <= |t.members|
    ensures t.members[j].key in MembersUpTo(t, n)
    ensures MembersUpTo(t, n)[t.members[j].key] == ToValue(t.members[j].tree)
    decreases n
  {
    if j < n - 1 {
      ValueUpTo(t, n - 1, j);
    }
  }

  lemma MembersUpToKeys(t: Tree, n: nat)
    requires t.Dict? && Distinct(t) && n <= |t.members|
    ensures forall key :: key in MembersUpTo(t, n) <==> exists j :: 0 <= j < n && t.members[j].key == key
    ensures forall j :: 0 <= j < n ==> t.members[j].key in MembersUpTo(t, n)
    ensures forall j :: 0 <= j < n ==> MembersUpTo(t, n)[t.members[j].key] == ToValue(t.members[j].tree)
    ensures MembersUpTo(t, n) == map[] <==> n == 0
  {
    forall key ensures key in MembersUpTo(t, n) <==> exists j :: 0 <= j < n && t.members[j].key == key {
      KeyUpTo(t, n, key);
    }
    forall j | 0 <= j < n
      ensures t.members[j].key in MembersUpTo(t, n) && MembersUpTo(t, n)[t.members[j].key] == ToValue(t.members[j].tree)
    {
      ValueUpTo(t, n, j);
    }
    if n > 0 {
      ValueUpTo(t, n, 0);
    }
  }

  lemma ReadMembersStep(members: map<string, Value>, key: string, body: seq<Token>)
    requires key !in members
    ensures ReadMembers(Comma1(members == map[]) + ([Text(key), Colon] + body), members)
         == var r := ReadValue(body); if r.None? then None else ReadMembers(r.value.1, members[key := r.value.0])
  {
    var pair := [Text(key), Colon] + body;
    assert ([Comma] + pair)[1..] == pair;
    assert [] + pair == pair;
    assert pair[2..] == body;
  }

  lemma NextMemberIsNew(t: Tree, i: nat)
    requires t.Dict? && Distinct(t) && i <= |t.members|
    ensures i < |t.members| ==> t.members[i].key !in MembersUpTo(t, i)
    ensures MembersUpTo(t, i) == map[] <==> i == 0
  {
    MembersUpToKeys(t, i);
  }

  lemma ReadRenderedMember(t: Tree, i: nat, close: seq<Token>)
    requires t.Dict? && Distinct(t) && i < |t.members|
    ensures ReadMembers(RenderMembers(t, i) + close, MembersUpTo(t, i))
         == var r := ReadValue(Render(t.members[i].tree) + (RenderMembers(t, i + 1) + close));
            if r.None? then None else ReadMembers(r.value.1, MembersUpTo(t, i)[t.members[i].key := r.value.0])
  {
    var m := t.members[i];
    var after := RenderMembers(t, i + 1) + close;
    var body := Render(m.tree) + after;
    RenderMembersStep(t, i, Comma1(i == 0) + ([Text(m.key), Colon] + body), after, close);
    NextMemberIsNew(t, i);
    ReadMembersStep(MembersUpTo(t, i), m.key, body);
  }

  lemma ReadClosed(t: Tree, rest: seq<Token>)
    requires t.Dict?
    ensures ReadMembers(RenderMembers(t, |t.members|) + ([RBrace] + rest), MembersUpTo(t, |t.members|))
            == Some((ToValue(t), rest))
  {
    var close := [RBrace] + rest;
    assert RenderMembers(t, |t.members|) + close == close && close[1..] == rest;
  }

  lemma {:induction false} ReadRenderedMembers(t: Tree, i: nat, rest: seq<Token>)
    requires t.Dict? && Distinct(t) && i <= |t.members|
    ensures ReadMembers(RenderMembers(t, i) + ([RBrace] + rest), MembersUpTo(t, i)) == Some((ToValue(t), rest))
    decreases t, 0, |t.members| - i
  {
    var close := [RBrace] + rest;
    if i == |t.members| {
      ReadClosed(t, rest);
    } else {
      ReadRenderedMember(t, i, close);
      ReadRendered(t.members[i].tree, RenderMembers(t, i + 1) + close);
      ReadRenderedMembers(t, i + 1, rest);
    }
  }

  // ---------- and nothing else is read ----------

  lemma {:induction false} ReadIsRendering(ts: seq<Token>) returns (t: Tree)
    requires ReadValue(ts).Some?
    ensures Distinct(t) && ReadValue(ts).value.0 == ToValue(t)
    ensures ts == Render(t) + ReadValue(ts).value.1
    decreases |ts|, 0
  {
    if IsScalar(ts[0]) {
      t := Leaf(ts[0]);
    } else if ts[0] == LBracket {
      t := ItemsAreRendering(ts[1..], []);
    } else {
      t := MembersAreRendering(ts[1..], []);
    }
  }

  lemma ElementIsNext(ts: seq<Token>, first: bool)
    requires ts != [] && NextElement(ts, first).Some?
    ensures ts == Comma1(first) + NextElement(ts, first).value
  {
  }

  lemma RenderItemsStep(t: Tree, i: nat, ts: seq<Token>, rest: seq<Token>, close: seq<Token>)
    requires t.List? && i < |t.items|
    requires ts == Comma1(i == 0) + (Render(t.items[i]) + rest)
    requires rest == RenderItems(t, i + 1) + close
    ensures ts == RenderItems(t, i) + close
  {
    var item := Render(t.items[i]);
    assert item + (RenderItems(t, i + 1) + close) == (item + RenderItems(t, i + 1)) + close;
  }

  lemma {:induction false} ItemsAreRendering(ts: seq<Token>, done: seq<Tree>) returns (t: Tree)
    requires forall i :: 0 <= i < |done| ==> Distinct(done[i])
    requires ReadItems(ts, ToValue(List(done)).items).Some?
    ensures t.List? && Distinct(t) && done <= t.items
    ensures ReadItems(ts, ToValue(List(done)).items).value.0 == ToValue(t)
    ensures ts == RenderItems(t, |done|) + ([RBracket] + ReadItems(ts, ToValue(List(done)).items).value.1)
    decreases |ts|, 1
  {
    var items := ToValue(List(done)).items;
    if ts[0] == RBracket {
      t := List(done);
    } else {
      var body := NextElement(ts, items == []).value;
      ElementIsNext(ts, items == []);
      var item := ReadIsRendering(body);
      var rest := ReadValue(body).value.1;
      assert ToValue(List(done + [item])).items == items + [ToValue(item)];
      t := ItemsAreRendering(rest, done + [item]);
      assert t.items[|done|] == item;
      RenderItemsStep(t, |done|, ts, rest, [RBracket] + ReadItems(ts, items).value.1);
    }
  }

  lemma {:induction false} MembersUpToPrefix(a: seq<Member>, b: seq<Member>, n: nat)
    requires n <= |a| && a <= b
    ensures MembersUpTo(Dict(a), n) == MembersUpTo(Dict(b), n)
  {
    if n > 0 {
      MembersUpToPrefix(a, b, n - 1);
    }
  }

  lemma RenderMembersStep(t: Tree, i: nat, ts: seq<Token>, rest: seq<Token>, close: seq<Token>)
    requires t.Dict? && i < |t.members|
    requires ts == Comma1(i == 0) + ([Text(t.members[i].key), Colon] + (Render(t.members[i].tree) + rest))
    requires rest == RenderMembers(t, i + 1) + close
    ensures ts == RenderMembers(t, i) + close
  {
    var (pair, tree) := ([Text(t.members[i].key), Colon], Render(t.members[i].tree));
    assert tree + (RenderMembers(t, i + 1) + close) == (tree + RenderMembers(t, i + 1)) + close;
    assert pair + ((tree + RenderMembers(t, i + 1)) + close) == (pair + (tree + RenderMembers(t, i + 1))) + close;
  }

  lemma DistinctExtended(done: seq<Member>, m: Member)
    requires Distinct(Dict(done)) && Distinct(m.tree)
    requires m.key !in MembersUpTo(Dict(done), |done|)
    ensures Distinct(Dict(done + [m]))
    ensures MembersUpTo(Dict(done + [m]), |done| + 1) == MembersUpTo(Dict(done), |done|)[m.key := ToValue(m.tree)]
  {
    MembersUpToKeys(Dict(done), |done|);
    MembersUpToPrefix(done, done + [m], |done|);
  }

  lemma ReadMembersPeels(ts: seq<Token>, members: map<string, Value>) returns (key: string, body: seq<Token>)
    requires ts != [] && ts[0] != RBrace && ReadMembers(ts, members).Some?
    ensures key !in members && ts == Comma1(members == map[]) + ([Text(key), Colon] + body)
    ensures ReadValue(body).Some? && |body| < |ts|
    ensures ReadMembers(ts, members) == ReadMembers(ReadValue(body).value.1, members[key := ReadValue(body).value.0])
  {
    var pair := NextElement(ts, members == map[]).value;
    ElementIsNext(ts, members == map[]);
    key, body := pair[0].s, pair[2..];
    assert pair == [Text(key), Colon] + body;
  }

  lemma NextMemberIsRendering(ts: seq<Token>, done: seq<Member>) returns (m: Member, rest: seq<Token>)
    requires Distinct(Dict(done)) && ts != [] && ts[0] != RBrace
    requires ReadMembers(ts, MembersUpTo(Dict(done), |done|)).Some?
    ensures Distinct(Dict(done + [m])) && |rest| < |ts|
    ensures ts == Comma1(|done| == 0) + ([Text(m.key), Colon] + (Render(m.tree) + rest))
    ensures ReadMembers(ts, MembersUpTo(Dict(done), |done|))
            == ReadMembers(rest, MembersUpTo(Dict(done + [m]), |done| + 1))
    decreases |ts|, 0
  {
    var members := MembersUpTo(Dict(done), |done|);
    NextMemberIsNew(Dict(done), |done|);
    var key, body := ReadMembersPeels(ts, members);
    var tree := ReadIsRendering(body);
    m, rest := Member(key, tree), ReadValue(body).value.1;
    DistinctExtended(done, m);
  }

  lemma PrefixMember(done: seq<Member>, m: Member, members: seq<Member>)
    requires done + [m] <= members
    ensures done <= members && |done| < |members| && members[|done|] == m
  {
    assert members[..|done| + 1] == done + [m];
  }

  // One member more of a rendering.
  lemma RenderingGrows(ts: seq<Token>, done: seq<Member>, m: Member, rest: seq<Token>, t: Tree, close: seq<Token>)
    requires t.Dict? && done + [m] <= t.members
    requires ts == Comma1(|done| == 0) + ([Text(m.key), Colon] + (Render(m.tree) + rest))
    requires rest == RenderMembers(t, |done| + 1) + close
    ensures done <= t.members && ts == RenderMembers(t, |done|) + close
  {
    PrefixMember(done, m, t.members);
    RenderMembersStep(t, |done|, ts, rest, close);
  }

  lemma {:induction false} MembersAreRendering(ts: seq<Token>, done: seq<Member>) returns (t: Tree)
    requires Distinct(Dict(done))
    requires ReadMembers(ts, MembersUpTo(Dict(done), |done|)).Some?
    ensures t.Dict? && Distinct(t) && done <= t.members
    ensures ReadMembers(ts, MembersUpTo(Dict(done), |done|)).value.0 == ToValue(t)
    ensures ts == RenderMembers(t, |done|) + ([RBrace] + ReadMembers(ts, MembersUpTo(Dict(done), |done|)).value.1)
    decreases |ts|, 1
  {
    var members := MembersUpTo(Dict(done), |done|);
    if ts[0] == RBrace {
      t := Dict(done);
    } else {
      var m, rest := NextMemberIsRendering(ts, done);
      t := MembersAreRendering(rest, done + [m]);
      RenderingGrows(ts, done, m, rest, t, [RBrace] + ReadMembers(ts, members).value.1);
    }
  }
}
