/**
 JSON documents in two forms: the syntax tree, whose objects list their members
 in the order of the text and may repeat a key, and the value, whose objects are
 maps.  The grammar is given by rendering a tree as tokens; the canonical form
 of a value is the rendering of its one tree with sorted keys.
 */
module JsonValue {
  import opened JsonText

  datatype Value =
    | Scalar(token: Token)
    | Array(items: seq<Value>)
    | Object(members: map<string, Value>)

  datatype Tree =
    | Leaf(token: Token)
    | List(items: seq<Tree>)
    | Dict(members: seq<Member>)

  datatype Member = Member(key: string, tree: Tree)

  predicate IsScalar(token: Token) {
    token.Text? || token.Number? || token.True? || token.False? || token.Null?
  }

  // ---------- the grammar ----------

  function Render(t: Tree): seq<Token>
    decreases t, 1, 0
  {
    match t
    case Leaf(token) => [token]
    case List(items) => [LBracket] + RenderItems(t, 0) + [RBracket]
    case Dict(members) => [LBrace] + RenderMembers(t, 0) + [RBrace]
  }

  // The items from position i on, with a comma before each but the first.
  function RenderItems(t: Tree, i: nat): seq<Token>
    requires t.List? && i <= |t.items|
    decreases t, 0, |t.items| - i
  {
    if i == |t.items| then []
    else (if i == 0 then [] else [Comma]) + (Render(t.items[i]) + RenderItems(t, i + 1))
  }

  function RenderMembers(t: Tree, i: nat): seq<Token>
    requires t.Dict? && i <= |t.members|
    decreases t, 0, |t.members| - i
  {
    if i == |t.members| then []
    else (if i == 0 then [] else [Comma])
         + ([Text(t.members[i].key), Colon] + (Render(t.members[i].tree) + RenderMembers(t, i + 1)))
  }

  // A tree with scalar leaves, valid numbers and no repeated key in any object.
  predicate Distinct(t: Tree)
    decreases t
  {
    match t
    case Leaf(token) => IsScalar(token)
    case List(items) => forall i :: 0 <= i < |items| ==> Distinct(items[i])
    case Dict(members) =>
      && (forall i :: 0 <= i < |members| ==> Distinct(members[i].tree))
      && (forall i, j :: 0 <= i < j < |members| ==> members[i].key != members[j].key)
  }

  function ToValue(t: Tree): Value
    decreases t, 1, 0
  {
    match t
    case Leaf(token) => Scalar(token)
    case List(items) => Array(seq(|items|, i requires 0 <= i < |items| => ToValue(items[i])))
    case Dict(members) => Object(MembersUpTo(t, |members|))
  }

  function MembersUpTo(t: Tree, n: nat): map<string, Value>
    requires t.Dict? && n <= |t.members|
    decreases t, 0, n
  {
    if n == 0 then map[] else MembersUpTo(t, n - 1)[t.members[n - 1].key := ToValue(t.members[n - 1].tree)]
  }
}
