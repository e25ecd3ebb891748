/**
 The token decoder with its grammar state, and the recursive reader that drives
 it.  The decoder swallows commas and colons; which tokens it allows depends on
 the state, and the states of the enclosing containers wait on a stack.
 */
module JsonDecoder {
  import opened Bytes
  import opened JsonText
  import opened JsonValue
  import opened JsonReader

  datatype TokenState =
    | TopValue | ArrayStart | ArrayValue | ArrayComma
    | ObjectStart | ObjectKey | ObjectColon | ObjectValue | ObjectComma

  datatype Failure = EndOfText | Syntax | DuplicateKey(key: string) | Trailing

  predicate ValueAllowed(state: TokenState) {
    state == TopValue || state == ArrayStart || state == ArrayValue || state == ObjectValue
  }

  function ValueEnd(state: TokenState): TokenState {
    if state == ArrayStart || state == ArrayValue then ArrayComma
    else if state == ObjectValue then ObjectComma
    else state
  }

  class Decoder {
    var rest: seq<Token>
    var state: TokenState
    var stack: seq<TokenState>
    const clean: bool

    ghost predicate Valid()
      reads this
    {
      if stack == [] then state == TopValue
      else state != TopValue && stack[0] == TopValue && forall i :: 0 < i < |stack| ==> stack[i] != TopValue
    }

    constructor (text: string)
      ensures Valid() && rest == Lex(text).tokens && clean == Lex(text).clean && stack == []
    {
      rest, clean := Lex(text).tokens, Lex(text).clean;
      state, stack := TopValue, [];
    }

    // Whether there is another element before the end of the container.
    predicate More()
      reads this
    {
      if rest == [] then !clean else rest[0] != RBracket && rest[0] != RBrace
    }

    // The comma or colon that the state expects before the next token.
    function Skipped(): (r: seq<Token>)
      reads this
    {
      if rest == [] then []
      else if rest[0] == Colon && state == ObjectColon then rest[1..]
      else if rest[0] == Comma && (state == ArrayComma || state == ObjectComma) then rest[1..]
      else rest
    }

    function SkippedState(): TokenState
      reads this
    {
      if rest == [] then state
      else if rest[0] == Colon && state == ObjectColon then ObjectValue
      else if rest[0] == Comma && state == ArrayComma then ArrayValue
      else if rest[0] == Comma && state == ObjectComma then ObjectKey
      else state
    }

    predicate Allowed(token: Token, at: TokenState) {
      match token
      case LBracket => ValueAllowed(at)
      case LBrace => ValueAllowed(at)
      case RBracket => at == ArrayStart || at == ArrayComma
      case RBrace => at == ObjectStart || at == ObjectComma
      case Colon => false
      case Comma => false
      case Text(_) => at == ObjectStart || at == ObjectKey || ValueAllowed(at)
      case _ => ValueAllowed(at)
    }

    method Next() returns (r: Result<Token, Failure>)
      requires Valid()
      modifies this
      ensures Valid() && |rest| <= |old(rest)|
      ensures r.Ok? <==> old(Skipped()) != [] && Allowed(old(Skipped())[0], old(SkippedState()))
      ensures r.Err? ==> r.error == EndOfText || r.error == Syntax
      ensures r == Err(EndOfText) <==> old(Skipped()) == [] && clean
      ensures r.Ok? ==> r.value == old(Skipped())[0] && rest == old(Skipped())[1..]
      ensures r.Ok? && (r.value == LBracket || r.value == LBrace) ==>
                && stack == old(stack) + [old(SkippedState())]
                && state == if r.value == LBracket then ArrayStart else ObjectStart
      ensures r.Ok? && (r.value == RBracket || r.value == RBrace) ==>
                && |old(stack)| > 0 && stack == old(stack)[..|old(stack)| - 1]
                && state == ValueEnd(old(stack)[|old(stack)| - 1])
      ensures r.Ok? && IsScalar(r.value) ==>
                && stack == old(stack)
                && state == if old(SkippedState()) == ObjectStart || old(SkippedState()) == ObjectKey then ObjectColon
                            else ValueEnd(old(SkippedState()))
    {
      while true
        invariant Valid() && stack == old(stack)
        invariant (rest, state) == (old(rest), old(state)) || (rest, state) == (old(Skipped()), old(SkippedState()))
        invariant Skipped() == old(Skipped()) && SkippedState() == old(SkippedState())
        decreases |rest|
      {
        if rest == [] {
          return Err(if clean then EndOfText else Syntax);
        }
        var token := rest[0];
        if token == Colon {
          if state != ObjectColon {
            return Err(Syntax);
          }
          rest, state := rest[1..], ObjectValue;
        } else if token == Comma {
          if state == ArrayComma {
            rest, state := rest[1..], ArrayValue;
          } else if state == ObjectComma {
            rest, state := rest[1..], ObjectKey;
          } else {
            return Err(Syntax);
          }
        } else if token == LBracket || token == LBrace {
          if !ValueAllowed(state) {
            return Err(Syntax);
          }
          rest, stack := rest[1..], stack + [state];
          state := if token == LBracket then ArrayStart else ObjectStart;
          return Ok(token);
        } else if token == RBracket || token == RBrace {
          if (token == RBracket && state != ArrayStart && state != ArrayComma)
             || (token == RBrace && state != ObjectStart && state != ObjectComma) {
            return Err(Syntax);
          }
          rest := rest[1..];
          state, stack := ValueEnd(stack[|stack| - 1]), stack[..|stack| - 1];
          return Ok(token);
        } else if token.Text? && (state == ObjectStart || state == ObjectKey) {
          rest, state := rest[1..], ObjectColon;
          return Ok(token);
        } else {
          if !ValueAllowed(state) {
            return Err(Syntax);
          }
          rest, state := rest[1..], ValueEnd(state);
          return Ok(token);
        }
      }
    }
  }

  // States in which the reader asks for a value, and the state that follows.
  predicate AsksForValue(state: TokenState) {
    state == TopValue || state == ArrayStart || state == ArrayComma || state == ObjectColon
  }

  function AfterValue(state: TokenState): TokenState {
    if state == TopValue then TopValue else if state == ObjectColon then ObjectComma else ArrayComma
  }

  // What the decoder still has to offer as the next value.
  ghost function Pending(rest: seq<Token>, state: TokenState): (r: Option<seq<Token>>)
    ensures r.Some? ==> |r.value| <= |rest|
  {
    if state == ArrayComma then (if rest != [] && rest[0] == Comma then Some(rest[1..]) else None)
    else if state == ObjectColon then (if rest != [] && rest[0] == Colon then Some(rest[1..]) else None)
    else Some(rest)
  }

  method DecodeUnique(d: Decoder) returns (r: Result<Value, Failure>)
    requires d.Valid() && AsksForValue(d.state)
    modifies d
    ensures d.Valid() && |d.rest| <= |old(d.rest)|
    ensures r.Ok? <==>
              && Pending(old(d.rest), old(d.state)).Some?
              && ReadValue(Pending(old(d.rest), old(d.state)).value).Some?
    ensures r.Ok? ==> (r.value, d.rest) == ReadValue(Pending(old(d.rest), old(d.state)).value).value
    ensures r.Ok? ==> d.stack == old(d.stack) && d.state == AfterValue(old(d.state))
    decreases |d.rest|, 0
  {
    var token := d.Next();
    if token.Err? {
      return Err(token.error);
    }
    if token.value == LBrace {
      r := DecodeMembers(d);
    } else if token.value == LBracket {
      r := DecodeItems(d);
    } else if token.value == RBrace || token.value == RBracket {
      r := Err(Syntax);
    } else {
      r := Ok(Scalar(token.value));
    }
  }

  method DecodeItems(d: Decoder) returns (r: Result<Value, Failure>)
    requires d.Valid() && d.state == ArrayStart
    modifies d
    ensures d.Valid() && |d.rest| <= |old(d.rest)|
    ensures r.Ok? <==> ReadItems(old(d.rest), []).Some?
    ensures r.Ok? ==> (r.value, d.rest) == ReadItems(old(d.rest), []).value
    ensures r.Ok? ==>
              && d.stack == old(d.stack)[..|old(d.stack)| - 1]
              && d.state == ValueEnd(old(d.stack)[|old(d.stack)| - 1])
    decreases |d.rest|, 1
  {
    var items := [];
    while d.More()
      invariant d.Valid() && |d.rest| <= |old(d.rest)| && d.stack == old(d.stack)
      invariant d.state == if items == [] then ArrayStart else ArrayComma
      invariant ReadItems(d.rest, items) == ReadItems(old(d.rest), [])
      decreases |d.rest|
    {
      var item := DecodeUnique(d);
      if item.Err? {
        return item;
      }
      items := items + [item.value];
    }
    var end := d.Next();
    if end.Err? || end.value != RBracket {
      return Err(Syntax);
    }
    return Ok(Array(items));
  }

  method DecodeMembers(d: Decoder) returns (r: Result<Value, Failure>)
    requires d.Valid() && d.state == ObjectStart
    modifies d
    ensures d.Valid() && |d.rest| <= |old(d.rest)|
    ensures r.Ok? <==> ReadMembers(old(d.rest), map[]).Some?
    ensures r.Ok? ==> (r.value, d.rest) == ReadMembers(old(d.rest), map[]).value
    ensures r.Ok? ==>
              && d.stack == old(d.stack)[..|old(d.stack)| - 1]
              && d.state == ValueEnd(old(d.stack)[|old(d.stack)| - 1])
    decreases |d.rest|, 1
  {
    var members: map<string, Value> := map[];
    while d.More()
      invariant d.Valid() && |d.rest| <= |old(d.rest)| && d.stack == old(d.stack)
      invariant d.state == if members == map[] then ObjectStart else ObjectComma
      invariant ReadMembers(d.rest, members) == ReadMembers(old(d.rest), map[])
      decreases |d.rest|
    {
      var key := d.Next();
      if key.Err? {
        return Err(key.error);
      }
      if !key.value.Text? {
        return Err(Syntax);
      }
      if key.value.s in members {
        return Err(DuplicateKey(key.value.s));
      }
      var value := DecodeUnique(d);
      if value.Err? {
        return value;
      }
      members := members[key.value.s := value.value];
    }
    var end := d.Next();
    if end.Err? || end.value != RBrace {
      return Err(Syntax);
    }
    return Ok(Object(members));
  }

  // One value, then the end of the text.
  method DecodeDocument(text: string) returns (r: Result<Value, Failure>)
    ensures r.Ok? <==> ReadDocument(text).Some?
    ensures r.Ok? ==> r.value == ReadDocument(text).value
  {
    var d := new Decoder(text);
    r := DecodeUnique(d);
    if r.Ok? {
      var trailing := d.Next();
      if trailing != Err(EndOfText) {
        r := Err(Trailing);
      }
    }
  }
}
