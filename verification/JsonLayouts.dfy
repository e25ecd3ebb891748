/**
 The texts that spell a row of tokens: each token in any of its spellings, with
 any white space around it.  Cutting a text into tokens undoes exactly that, and
 the spelling that the printer chooses is one of them.
 */
module JsonLayouts {
  import opened Bytes
  import opened JsonText
  import opened JsonNumbers
  import opened JsonSpellings

  // ---------- the spellings of a token ----------

  ghost predicate SpellsText(text: string, s: string) {
    exists pieces :: Spelling(pieces, s) && text == "\"" + (Join(pieces) + "\"")
  }

  // Strings as above, numbers of the grammar as they stand, and one spelling for
  // each of the others.
  ghost predicate SpellsToken(text: string, token: Token) {
    match token
    case Text(s) => SpellsText(text, s)
    case Number(literal) => text == literal && IsNumber(literal)
    case LBrace => text == "{"
    case RBrace => text == "}"
    case LBracket => text == "["
    case RBracket => text == "]"
    case Colon => text == ":"
    case Comma => text == ","
    case True => text == "true"
    case False => text == "false"
    case Null => text == "null"
  }

  // Texts in order, with some white space before each and at the end.
  function Interleave(texts: seq<string>, spaces: seq<string>): string
    requires |spaces| == |texts| + 1
  {
    if texts == [] then spaces[0] else spaces[0] + (texts[0] + Interleave(texts[1..], spaces[1..]))
  }

  ghost predicate SpellsEach(texts: seq<string>, tokens: seq<Token>) {
    |texts| == |tokens| && forall i :: 0 <= i < |tokens| ==> SpellsToken(texts[i], tokens[i])
  }

  predicate AllSpaces(spaces: seq<string>) {
    forall i :: 0 <= i < |spaces| ==> Spaces(spaces[i])
  }

  ghost predicate LaidOut(text: string, tokens: seq<Token>, texts: seq<string>, spaces: seq<string>) {
    && SpellsEach(texts, tokens) && |spaces| == |texts| + 1 && AllSpaces(spaces)
    && text == Interleave(texts, spaces)
  }

  ghost predicate IsSpelling(text: string, tokens: seq<Token>) {
    exists texts, spaces :: LaidOut(text, tokens, texts, spaces)
  }

  // ---------- every spelling is read ----------

  lemma NumberHead(literal: string)
    requires ValidNumber(literal)
    ensures literal != "" && (literal[0] == '-' || IsDigit(literal[0]))
  {
  }

  lemma NumberTokenRead(literal: string, rest: string)
    requires IsNumber(literal)
    requires rest != "" ==> !ContinuesNumber(rest[0])
    ensures literal != "" && !IsSpace(literal[0])
    ensures ReadToken(literal + rest) == Some((Number(literal), rest))
  {
    ValidNumberExactly(literal);
    NumberHead(literal);
    NumberRunStops(Start, literal, rest);
    assert (literal + rest)[..|literal|] == literal && (literal + rest)[|literal|..] == rest;
  }

  lemma TextTokenRead(text: string, s: string, rest: string)
    requires SpellsText(text, s)
    ensures text != "" && text[0] == '"' && ReadToken(text + rest) == Some((Text(s), rest))
  {
    var pieces :| Spelling(pieces, s) && text == "\"" + (Join(pieces) + "\"");
    var close := "\"" + rest;
    SpellingRead(pieces, s, close);
    assert (text + rest)[1..] == Join(pieces) + close && close[1..] == rest;
  }

  lemma TokenRead(text: string, token: Token, rest: string)
    requires SpellsToken(text, token)
    requires token.Number? && rest != "" ==> !ContinuesNumber(rest[0])
    ensures text != "" && !IsSpace(text[0]) && ReadToken(text + rest) == Some((token, rest))
  {
    assert (text + rest)[|text|..] == rest;
    match token
    case Text(s) => TextTokenRead(text, s, rest);
    case Number(literal) => NumberTokenRead(literal, rest);
    case _ =>
  }

  lemma TokenStarts(text: string, token: Token)
    requires SpellsToken(text, token) && !token.Number?
    ensures text != "" && !ContinuesNumber(text[0])
  {
    if token.Text? {
      TextTokenRead(text, token.s, "");
    }
  }

  lemma {:induction false} LexSpaces(spaces: string, rest: string)
    requires Spaces(spaces)
    ensures Lex(spaces + rest) == Lex(rest)
  {
    if spaces == "" {
      assert spaces + rest == rest;
    } else {
      TailOfConcat(spaces, rest);
      LexSpaces(spaces[1..], rest);
    }
  }

  lemma LayoutStarts(tokens: seq<Token>, texts: seq<string>, spaces: seq<string>)
    requires SpellsEach(texts, tokens) && |spaces| == |texts| + 1 && AllSpaces(spaces)
    requires tokens != [] ==> !tokens[0].Number?
    ensures Interleave(texts, spaces) != "" ==> !ContinuesNumber(Interleave(texts, spaces)[0])
  {
    if spaces[0] == "" && tokens != [] {
      TokenStarts(texts[0], tokens[0]);
      var tail := Interleave(texts[1..], spaces[1..]);
      assert "" + (texts[0] + tail) == texts[0] + tail;
    }
  }

  lemma FirstLexed(token: Token, text: string, space: string, tail: string)
    requires SpellsToken(text, token) && Spaces(space)
    requires token.Number? && tail != "" ==> !ContinuesNumber(tail[0])
    ensures Lex(space + (text + tail)) == Lexed([token] + Lex(tail).tokens, Lex(tail).clean)
  {
    TokenRead(text, token, tail);
    LexSpaces(space, text + tail);
    assert (text + tail)[0] == text[0];
  }

  // Whatever spelling each token has, and whatever white space stands in between.
  lemma {:induction false} LexSpelled(tokens: seq<Token>, texts: seq<string>, spaces: seq<string>)
    requires SpellsEach(texts, tokens) && |spaces| == |texts| + 1 && AllSpaces(spaces)
    requires Separated(tokens)
    ensures Lex(Interleave(texts, spaces)) == Lexed(tokens, true)
    decreases |tokens|
  {
    if tokens == [] {
      assert spaces[0] + "" == spaces[0];
      LexSpaces(spaces[0], "");
    } else {
      var tail := Interleave(texts[1..], spaces[1..]);
      LexSpelled(tokens[1..], texts[1..], spaces[1..]);
      if tokens[0].Number? {
        LayoutStarts(tokens[1..], texts[1..], spaces[1..]);
      }
      FirstLexed(tokens[0], texts[0], spaces[0], tail);
      assert [tokens[0]] + tokens[1..] == tokens;
    }
  }

  // ---------- and nothing else ----------

  lemma TextTokenIsSpelled(text: string) returns (head: string)
    requires text != "" && text[0] == '"' && ReadString(text[1..]).Some?
    ensures text == head + ReadString(text[1..]).value.1
    ensures SpellsText(head, ReadString(text[1..]).value.0)
  {
    var pieces, close := ReadIsSpelling(text[1..]);
    head := "\"" + (Join(pieces) + "\"");
    assert close == "\"" + close[1..];
    assert text == "\"" + (Join(pieces) + close);
  }

  lemma NumberTokenIsSpelled(text: string)
    requires NumberMayEnd(NumberRun(Start, text).1)
    ensures IsNumber(text[..NumberRun(Start, text).0])
  {
    NumberRunPrefix(Start, text);
    ValidNumberExactly(text[..NumberRun(Start, text).0]);
  }

  lemma FixedTokenIsSpelled(text: string) returns (head: string)
    requires text != "" && text[0] != '"' && ReadToken(text).Some? && !ReadToken(text).value.0.Number?
    ensures text == head + ReadToken(text).value.1 && SpellsToken(head, ReadToken(text).value.0)
  {
    var rest := ReadToken(text).value.1;
    head := text[..|text| - |rest|];
  }

  lemma TokenIsSpelled(text: string) returns (head: string)
    requires text != "" && ReadToken(text).Some?
    ensures text == head + ReadToken(text).value.1 && SpellsToken(head, ReadToken(text).value.0)
  {
    var (token, rest) := ReadToken(text).value;
    if text[0] == '"' {
      head := TextTokenIsSpelled(text);
    } else if token.Number? {
      NumberTokenIsSpelled(text);
      head := token.literal;
    } else {
      head := FixedTokenIsSpelled(text);
    }
  }

  lemma {:induction false} LexedIsSpelled(text: string) returns (texts: seq<string>, spaces: seq<string>)
    requires Lex(text).clean
    ensures LaidOut(text, Lex(text).tokens, texts, spaces)
    decreases |text|
  {
    if text == "" {
      texts, spaces := [], [""];
    } else if IsSpace(text[0]) {
      texts, spaces := LexedIsSpelled(text[1..]);
      SpaceGrows(text, Lex(text).tokens, texts, spaces);
      spaces := [[text[0]] + spaces[0]] + spaces[1..];
    } else {
      var head := TokenIsSpelled(text);
      var (token, rest) := ReadToken(text).value;
      texts, spaces := LexedIsSpelled(rest);
      TokenGrows(head, token, rest, Lex(rest).tokens, texts, spaces);
      texts, spaces := [head] + texts, [""] + spaces;
    }
  }

  lemma SpaceGrows(text: string, tokens: seq<Token>, texts: seq<string>, spaces: seq<string>)
    requires text != "" && IsSpace(text[0]) && LaidOut(text[1..], tokens, texts, spaces)
    ensures LaidOut(text, tokens, texts, [[text[0]] + spaces[0]] + spaces[1..])
  {
    var more := [[text[0]] + spaces[0]] + spaces[1..];
    assert more[1..] == spaces[1..];
    assert text == [text[0]] + text[1..];
    if texts != [] {
      var tail := texts[0] + Interleave(texts[1..], spaces[1..]);
      assert [text[0]] + (spaces[0] + tail) == ([text[0]] + spaces[0]) + tail;
    }
  }

  lemma TokenGrows(head: string, token: Token, rest: string, tokens: seq<Token>, texts: seq<string>,
                   spaces: seq<string>)
    requires SpellsToken(head, token) && LaidOut(rest, tokens, texts, spaces)
    ensures LaidOut(head + rest, [token] + tokens, [head] + texts, [""] + spaces)
  {
    assert ([head] + texts)[1..] == texts && ([""] + spaces)[1..] == spaces;
    assert "" + (head + rest) == head + rest;
  }

  // Where no two numbers stand side by side, the decoder finds the tokens in a
  // text exactly when the text spells them.
  lemma LexExactly(text: string, tokens: seq<Token>)
    requires Separated(tokens)
    ensures Lex(text) == Lexed(tokens, true) <==> IsSpelling(text, tokens)
  {
    if Lex(text) == Lexed(tokens, true) {
      var texts, spaces := LexedIsSpelled(text);
      assert LaidOut(text, tokens, texts, spaces);
    }
    if IsSpelling(text, tokens) {
      var texts, spaces :| LaidOut(text, tokens, texts, spaces);
      LexSpelled(tokens, texts, spaces);
    }
  }

  // ---------- the printer's spelling ----------

  lemma HexDigitOf(d: nat)
    requires d < 16
    ensures HexOf(HexDigit(d), d)
  {
  }

  lemma UnicodeEscapeSpells(c: char)
    requires c as int < 0xD800
    ensures Single(EscapeUnicode(c), c)
  {
    var u := c as int;
    HexDigitOf(u / 4096);
    HexDigitOf(u / 256 % 16);
    HexDigitOf(u / 16 % 16);
    HexDigitOf(u % 16);
    assert UnitDigits(EscapeUnicode(c), u / 4096, u / 256 % 16, u / 16 % 16, u % 16);
    assert u / 16 == u / 16 / 16 * 16 + u / 16 % 16;
    assert u / 256 == u / 256 / 16 * 16 + u / 256 % 16;
    assert u / 16 / 16 == u / 256 && u / 256 / 16 == u / 4096;
    assert CodeUnit(EscapeUnicode(c), u);
  }

  lemma SingleIsNoHalf(s: string, c: char)
    requires Single(s, c)
    ensures !HighHalf(s)
  {
    var unit: nat :| CodeUnit(s, unit) && !(0xD800 <= unit < 0xE000) && c as int == unit;
    if HighHalf(s) {
      var x: nat :| CodeUnit(s, x) && 0xD800 <= x < 0xDC00;
      OneUnit(s, x, unit);
    }
  }

  lemma EscapeSpells(c: char)
    ensures Spells(EscapeChar(c), c) && !HighHalf(EscapeChar(c))
  {
    if |EscapeChar(c)| == 6 {
      UnicodeEscapeSpells(c);
      SingleIsNoHalf(EscapeChar(c), c);
    }
  }

  // The printer's escapes are a spelling of the string.
  lemma {:induction false} EscapedIsSpelling(s: string) returns (pieces: seq<string>)
    ensures Spelling(pieces, s) && Join(pieces) == Escape(s)
    ensures pieces != [] ==> !HighHalf(pieces[0])
  {
    if s == "" {
      pieces := [];
    } else {
      EscapeSpells(s[0]);
      var others := EscapedIsSpelling(s[1..]);
      pieces := [EscapeChar(s[0])] + others;
      assert pieces[1..] == others;
      assert [s[0]] + s[1..] == s;
    }
  }

  // Reading an escaped string gives the string back.
  lemma ReadEscaped(s: string, rest: string)
    ensures ReadString(Escape(s) + ("\"" + rest)) == Some((s, rest))
  {
    var pieces := EscapedIsSpelling(s);
    var close := "\"" + rest;
    SpellingRead(pieces, s, close);
    assert close[1..] == rest;
  }

  lemma SpellTokenSpells(token: Token)
    requires ValidToken(token)
    ensures SpellsToken(SpellToken(token), token)
  {
    match token
    case Text(s) =>
      var pieces := EscapedIsSpelling(s);
      assert "\"" + Escape(s) + "\"" == "\"" + (Join(pieces) + "\"");
    case Number(literal) => ValidNumberExactly(literal);
    case _ =>
  }

  function SpellTokens(tokens: seq<Token>): (texts: seq<string>)
    ensures |texts| == |tokens| && forall i :: 0 <= i < |tokens| ==> texts[i] == SpellToken(tokens[i])
  {
    seq(|tokens|, i requires 0 <= i < |tokens| => SpellToken(tokens[i]))
  }

  lemma SpellTokensSpell(tokens: seq<Token>)
    requires forall i :: 0 <= i < |tokens| ==> ValidToken(tokens[i])
    ensures SpellsEach(SpellTokens(tokens), tokens)
  {
    forall i | 0 <= i < |tokens| ensures SpellsToken(SpellTokens(tokens)[i], tokens[i]) {
      SpellTokenSpells(tokens[i]);
    }
  }

  // ---------- the printer's text may stand inside HTML ----------

  // Control characters, those that mean something in HTML and the two line
  // separators that end a line in scripts.
  predicate Unsafe(c: char) {
    c as int < 32 || c in {'<', '>', '&'} || c as int in {0x2028, 0x2029}
  }

  predicate Safe(text: string) {
    forall i :: 0 <= i < |text| ==> !Unsafe(text[i])
  }

  lemma EscapeCharSafe(c: char)
    ensures Safe(EscapeChar(c))
    ensures EscapeChar(c) == [c] <==> !Unsafe(c) && c != '"' && c != '\\'
  {
  }

  // An escaped string is safe, and nothing is escaped that may stand as it is.
  lemma {:induction false} EscapedIsSafe(s: string)
    ensures Safe(Escape(s))
    ensures Escape(s) == s <==> Safe(s) && '"' !in s && '\\' !in s
    ensures |Escape(s)| >= |s|
  {
    if s != "" {
      var (head, tail) := (EscapeChar(s[0]), Escape(s[1..]));
      EscapeCharSafe(s[0]);
      EscapedIsSafe(s[1..]);
      assert s == [s[0]] + s[1..];
      assert Escape(s) == s ==> head[0] == s[0] && |tail| == |s[1..]| && tail == (head + tail)[1..];
    }
  }

  lemma {:induction false} NumberSafe(state: NumberState, literal: string)
    requires NumberRun(state, literal).0 == |literal|
    ensures Safe(literal)
    decreases |literal|
  {
    if literal != "" {
      NumberSafe(NumberStep(state, literal[0]).value, literal[1..]);
      assert literal == [literal[0]] + literal[1..];
    }
  }

  lemma TokenSafe(token: Token)
    requires ValidToken(token)
    ensures Safe(SpellToken(token))
  {
    match token
    case Text(s) => EscapedIsSafe(s);
    case Number(literal) => NumberSafe(Start, literal);
    case _ =>
  }

  lemma SpellTokensSafe(tokens: seq<Token>)
    requires forall i :: 0 <= i < |tokens| ==> ValidToken(tokens[i])
    ensures forall i :: 0 <= i < |tokens| ==> Safe(SpellTokens(tokens)[i])
  {
    forall i | 0 <= i < |tokens| ensures Safe(SpellTokens(tokens)[i]) {
      TokenSafe(tokens[i]);
    }
  }

  lemma {:induction false} InterleaveSafe(texts: seq<string>, spaces: seq<string>)
    requires |spaces| == |texts| + 1
    requires (forall i :: 0 <= i < |texts| ==> Safe(texts[i])) && forall i :: 0 <= i < |spaces| ==> spaces[i] == ""
    ensures Safe(Interleave(texts, spaces))
    decreases |texts|
  {
    if texts != [] {
      InterleaveSafe(texts[1..], spaces[1..]);
    }
  }
}
