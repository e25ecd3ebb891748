/**
 JSON text and JSON tokens (RFC 8259, sections 2, 6 and 7), with the escaping
 choices of the encoder and the leniencies of the decoder: HTML-sensitive
 characters are written as \u escapes, any \u escape is read back, and a
 surrogate half without its partner is read as U+FFFD.
 */
module JsonText {
  import opened Bytes

  datatype Token =
    | LBrace | RBrace | LBracket | RBracket | Colon | Comma
    | Text(s: string) | Number(literal: string) | True | False | Null

  predicate IsSpace(c: char) {
    c == ' ' || c == '\t' || c == '\r' || c == '\n'
  }

  predicate Spaces(s: string) {
    forall i :: 0 <= i < |s| ==> IsSpace(s[i])
  }

  // ---------- numbers: the decoder's automaton ----------

  datatype NumberState = Start | Minus | Zero | Int | Point | Fraction | Exp | ExpSign | ExpDigits

  predicate IsDigit(c: char) {
    '0' <= c <= '9'
  }

  function NumberStep(state: NumberState, c: char): Option<NumberState> {
    match state
    case Start =>
      if c == '-' then Some(Minus) else if c == '0' then Some(Zero) else if IsDigit(c) then Some(Int) else None
    case Minus => if c == '0' then Some(Zero) else if IsDigit(c) then Some(Int) else None
    case Zero => if c == '.' then Some(Point) else if c == 'e' || c == 'E' then Some(Exp) else None
    case Int =>
      if IsDigit(c) then Some(Int) else if c == '.' then Some(Point)
      else if c == 'e' || c == 'E' then Some(Exp) else None
    case Point => if IsDigit(c) then Some(Fraction) else None
    case Fraction => if IsDigit(c) then Some(Fraction) else if c == 'e' || c == 'E' then Some(Exp) else None
    case Exp => if c == '+' || c == '-' then Some(ExpSign) else if IsDigit(c) then Some(ExpDigits) else None
    case ExpSign => if IsDigit(c) then Some(ExpDigits) else None
    case ExpDigits => if IsDigit(c) then Some(ExpDigits) else None
  }

  predicate NumberMayEnd(state: NumberState) {
    state == Zero || state == Int || state == Fraction || state == ExpDigits
  }

  // Where the longest run of the automaton stops, and in which state.
  function NumberRun(state: NumberState, text: string): (r: (nat, NumberState))
    ensures r.0 <= |text|
    decreases |text|
  {
    if text == "" || NumberStep(state, text[0]).None? then (0, state)
    else
      var (n, last) := NumberRun(NumberStep(state, text[0]).value, text[1..]);
      (n + 1, last)
  }

  predicate ValidNumber(literal: string) {
    NumberRun(Start, literal).0 == |literal| && NumberMayEnd(NumberRun(Start, literal).1)
  }

  // Characters that can continue a number that could also end here.
  predicate ContinuesNumber(c: char) {
    IsDigit(c) || c == '.' || c == 'e' || c == 'E'
  }

  lemma {:induction false} NumberRunStops(state: NumberState, literal: string, rest: string)
    requires NumberRun(state, literal).0 == |literal| && NumberMayEnd(NumberRun(state, literal).1)
    requires rest == "" || !ContinuesNumber(rest[0])
    ensures NumberRun(state, literal + rest) == NumberRun(state, literal)
    decreases |literal|
  {
    if literal == "" {
      assert literal + rest == rest;
    } else {
      TailOfConcat(literal, rest);
      NumberRunStops(NumberStep(state, literal[0]).value, literal[1..], rest);
    }
  }

  lemma TailOfConcat(a: string, b: string)
    requires a != ""
    ensures (a + b)[1..] == a[1..] + b && (a + b)[0] == a[0]
  {
  }

  lemma {:induction false} NumberRunPrefix(state: NumberState, text: string)
    ensures var (n, last) := NumberRun(state, text); NumberRun(state, text[..n]) == (n, last)
    decreases |text|
  {
    if text != "" && NumberStep(state, text[0]).Some? {
      var next := NumberStep(state, text[0]).value;
      NumberRunPrefix(next, text[1..]);
      var n := NumberRun(state, text).0;
      assert text[..n][1..] == text[1..][..n - 1];
    }
  }

  // ---------- strings ----------

  function HexDigit(d: nat): (c: char)
    requires d < 16
  {
    if d < 10 then '0' + d as char else 'a' + (d - 10) as char
  }

  function HexValue(c: char): (d: Option<nat>)
    ensures d.Some? ==> d.value < 16
  {
    if '0' <= c <= '9' then Some(c as int - '0' as int)
    else if 'a' <= c <= 'f' then Some(c as int - 'a' as int + 10)
    else if 'A' <= c <= 'F' then Some(c as int - 'A' as int + 10)
    else None
  }

  // The value of four hexadecimal digits at the head of the text.
  function Hex4(text: string): (u: Option<nat>)
    ensures u.Some? ==> |text| >= 4 && u.value < 0x1_0000
  {
    if |text| < 4 then None
    else
      var (a, b, c, d) := (HexValue(text[0]), HexValue(text[1]), HexValue(text[2]), HexValue(text[3]));
      if a.None? || b.None? || c.None? || d.None? then None
      else Some(a.value * 4096 + b.value * 256 + c.value * 16 + d.value)
  }

  predicate HighSurrogate(u: nat) { 0xD800 <= u < 0xDC00 }

  predicate LowSurrogate(u: nat) { 0xDC00 <= u < 0xE000 }

  const REPLACEMENT: char := 0xFFFD as char

  // One escape after the backslash: the character it denotes and its length.
  function ReadEscape(text: string): (r: Option<(char, nat)>)
    ensures r.Some? ==> 0 < r.value.1 <= |text|
  {
    if text == "" then None
    else match text[0]
      case '"' => Some(('"', 1))
      case '\\' => Some(('\\', 1))
      case '/' => Some(('/', 1))
      case 'b' => Some((8 as char, 1))
      case 'f' => Some((12 as char, 1))
      case 'n' => Some(('\n', 1))
      case 'r' => Some(('\r', 1))
      case 't' => Some(('\t', 1))
      case 'u' =>
        (match Hex4(text[1..])
         case None => None
         case Some(u) =>
           if HighSurrogate(u) then
             var low := if |text| >= 7 && text[5] == '\\' && text[6] == 'u' then Hex4(text[7..]) else None;
             if low.Some? && LowSurrogate(low.value) then
               Some(((0x1_0000 + (u - 0xD800) * 0x400 + (low.value - 0xDC00)) as char, 11))
             else
               Some((REPLACEMENT, 5))
           else if LowSurrogate(u) then Some((REPLACEMENT, 5))
           else Some((u as char, 5)))
      case _ => None
  }

  // The rest of a string literal after its opening quote.
  function ReadString(text: string): (r: Option<(string, string)>)
    ensures r.Some? ==> |r.value.1| < |text|
  {
    if text == "" then None
    else if text[0] == '"' then Some(("", text[1..]))
    else if text[0] == '\\' then
      match ReadEscape(text[1..])
      case None => None
      case Some((c, n)) => Prepend(c, ReadString(text[1 + n..]))
    else if text[0] < ' ' then None
    else Prepend(text[0], ReadString(text[1..]))
  }

  function Prepend(c: char, r: Option<(string, string)>): Option<(string, string)> {
    if r.None? then None else Some(([c] + r.value.0, r.value.1))
  }

  function EscapeUnicode(c: char): string
    requires c as int < 0x1_0000
  {
    var u := c as int;
    ['\\', 'u', HexDigit(u / 4096), HexDigit(u / 256 % 16), HexDigit(u / 16 % 16), HexDigit(u % 16)]
  }

  function EscapeChar(c: char): string {
    if c == '"' then "\\\""
    else if c == '\\' then "\\\\"
    else if c == 8 as char then "\\b"
    else if c == 12 as char then "\\f"
    else if c == '\n' then "\\n"
    else if c == '\r' then "\\r"
    else if c == '\t' then "\\t"
    else if c < ' ' || c == '<' || c == '>' || c == '&' || c == 0x2028 as char || c == 0x2029 as char
    then EscapeUnicode(c)
    else [c]
  }

  function Escape(s: string): string {
    if s == "" then "" else EscapeChar(s[0]) + Escape(s[1..])
  }

  // ---------- tokens ----------

  function ReadKeyword(text: string, keyword: string, token: Token): (r: Option<(Token, string)>)
    requires keyword != ""
    ensures r.Some? ==> |r.value.1| < |text|
  {
    if keyword <= text then Some((token, text[|keyword|..])) else None
  }

  // The token at the head of a text that does not start with white space.
  function ReadToken(text: string): (r: Option<(Token, string)>)
    requires text != ""
    ensures r.Some? ==> |r.value.1| < |text|
  {
    var rest := text[1..];
    match text[0]
    case '{' => Some((LBrace, rest))
    case '}' => Some((RBrace, rest))
    case '[' => Some((LBracket, rest))
    case ']' => Some((RBracket, rest))
    case ':' => Some((Colon, rest))
    case ',' => Some((Comma, rest))
    case 't' => ReadKeyword(text, "true", True)
    case 'f' => ReadKeyword(text, "false", False)
    case 'n' => ReadKeyword(text, "null", Null)
    case '"' =>
      (match ReadString(rest)
       case None => None
       case Some((s, after)) => Some((Text(s), after)))
    case _ =>
      var (n, last) := NumberRun(Start, text);
      if n > 0 && NumberMayEnd(last) then Some((Number(text[..n]), text[n..])) else None
  }

  // All tokens up to the end of the text or up to the first character that
  // starts no token; `clean` tells the two apart.
  datatype Lexed = Lexed(tokens: seq<Token>, clean: bool)

  function Lex(text: string): Lexed
    decreases |text|
  {
    if text == "" then Lexed([], true)
    else if IsSpace(text[0]) then Lex(text[1..])
    else match ReadToken(text)
      case None => Lexed([], false)
      case Some((token, rest)) => var tail := Lex(rest); Lexed([token] + tail.tokens, tail.clean)
  }

  predicate ValidToken(token: Token) {
    token.Number? ==> ValidNumber(token.literal)
  }

  function SpellToken(token: Token): string {
    match token
    case LBrace => "{"
    case RBrace => "}"
    case LBracket => "["
    case RBracket => "]"
    case Colon => ":"
    case Comma => ","
    case True => "true"
    case False => "false"
    case Null => "null"
    case Number(literal) => literal
    case Text(s) => "\"" + Escape(s) + "\""
  }

  // Only two numbers in a row can run into each other.
  predicate Separated(tokens: seq<Token>) {
    forall i :: 0 <= i < |tokens| - 1 ==> !(tokens[i].Number? && tokens[i + 1].Number?)
  }

  // Every token the decoder produces carries a well-formed number.
  lemma {:induction false} LexedTokensValid(text: string)
    ensures forall i :: 0 <= i < |Lex(text).tokens| ==> ValidToken(Lex(text).tokens[i])
    decreases |text|
  {
    if text != "" {
      if IsSpace(text[0]) {
        LexedTokensValid(text[1..]);
      } else if ReadToken(text).Some? {
        NumberRunPrefix(Start, text);
        LexedTokensValid(ReadToken(text).value.1);
      }
    }
  }
}
