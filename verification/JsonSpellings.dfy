/**
 What a JSON string may spell (RFC 8259, section 7), said without the decoder: the
 spellings of one character and of a string.  The decoder reads every spelling as
 what it spells, and reads nothing else.
 */
module JsonSpellings {
  import opened Bytes
  import opened JsonText

  // ---------- the spellings of one character ----------

  // A hexadecimal digit in either case: the codes of 0, a and A are 48, 97 and 65.
  predicate HexOf(c: char, d: nat) {
    if d < 10 then c as int == 48 + d else d < 16 && (c as int == 97 + (d - 10) || c as int == 65 + (d - 10))
  }

  predicate UnitDigits(s: string, a: nat, b: nat, c: nat, d: nat) {
    |s| == 6 && s[0] == '\\' && s[1] == 'u' && HexOf(s[2], a) && HexOf(s[3], b) && HexOf(s[4], c) && HexOf(s[5], d)
  }

  // Backslash, u and four hexadecimal digits that give the code unit.
  ghost predicate CodeUnit(s: string, unit: nat) {
    exists a: nat, b: nat, c: nat, d: nat :: UnitDigits(s, a, b, c, d) && unit == 4096 * a + 256 * b + 16 * c + d
  }

  // Any character but the quote, the backslash and the control characters stands
  // for itself.
  predicate Plain(s: string, c: char) {
    s == [c] && c != '"' && c != '\\' && c as int >= 32
  }

  predicate Short(s: string, c: char) {
    && |s| == 2 && s[0] == '\\'
    && (s[1], c as int) in {('"', 34), ('\\', 92), ('/', 47), ('b', 8), ('f', 12), ('n', 10), ('r', 13), ('t', 9)}
  }

  ghost predicate Single(s: string, c: char) {
    exists unit: nat :: CodeUnit(s, unit) && !(0xD800 <= unit < 0xE000) && c as int == unit
  }

  // A high and a low half, which together give a character above U+FFFF.
  ghost predicate Halves(s: string, c: char, high: nat, low: nat) {
    && |s| == 12 && CodeUnit(s[..6], high) && CodeUnit(s[6..], low)
    && 0xD800 <= high < 0xDC00 <= low < 0xE000
    && c as int == 0x10000 + (high - 0xD800) * 0x400 + (low - 0xDC00)
  }

  ghost predicate Pair(s: string, c: char) {
    exists high: nat, low: nat :: Halves(s, c, high, low)
  }

  ghost predicate HighHalf(s: string) {
    exists unit: nat :: CodeUnit(s, unit) && 0xD800 <= unit < 0xDC00
  }

  ghost predicate LowHalf(s: string) {
    exists unit: nat :: CodeUnit(s, unit) && 0xDC00 <= unit < 0xE000
  }

  // A half on its own spells the replacement character.
  ghost predicate Half(s: string, c: char) {
    (HighHalf(s) || LowHalf(s)) && c as int == 0xFFFD
  }

  ghost predicate Spells(s: string, c: char) {
    Plain(s, c) || Short(s, c) || Single(s, c) || Pair(s, c) || Half(s, c)
  }

  // ---------- the spellings of a string ----------

  function Join(pieces: seq<string>): string {
    if pieces == [] then "" else pieces[0] + Join(pieces[1..])
  }

  // One spelling for each character; a low half does not follow a high half on
  // its own, since the two would be a pair.
  ghost predicate Spelling(pieces: seq<string>, s: string) {
    && |pieces| == |s|
    && (forall i :: 0 <= i < |s| ==> Spells(pieces[i], s[i]))
    && (forall i :: 0 <= i < |s| - 1 ==> !(HighHalf(pieces[i]) && LowHalf(pieces[i + 1])))
  }

  // ---------- the decoder reads one character ----------

  lemma HexExactly(c: char, d: nat)
    ensures HexValue(c) == Some(d) <==> HexOf(c, d)
  {
  }

  lemma DigitsRead(s: string, a: nat, b: nat, c: nat, d: nat)
    requires UnitDigits(s, a, b, c, d)
    ensures HexValue(s[2]) == Some(a) && HexValue(s[3]) == Some(b)
    ensures HexValue(s[4]) == Some(c) && HexValue(s[5]) == Some(d)
  {
    HexExactly(s[2], a);
    HexExactly(s[3], b);
    HexExactly(s[4], c);
    HexExactly(s[5], d);
  }

  lemma Hex4Of(text: string, a: nat, b: nat, c: nat, d: nat)
    requires |text| >= 4 && HexValue(text[0]) == Some(a) && HexValue(text[1]) == Some(b)
    requires HexValue(text[2]) == Some(c) && HexValue(text[3]) == Some(d)
    ensures Hex4(text) == Some(4096 * a + 256 * b + 16 * c + d)
  {
  }

  lemma CodeUnitRead(s: string, unit: nat, after: string)
    requires CodeUnit(s, unit)
    ensures |s| == 6 && s[0] == '\\' && s[1] == 'u' && Hex4(s[2..] + after) == Some(unit)
  {
    var a: nat, b: nat, c: nat, d: nat :| UnitDigits(s, a, b, c, d) && unit == 4096 * a + 256 * b + 16 * c + d;
    DigitsRead(s, a, b, c, d);
    Hex4Of(s[2..] + after, a, b, c, d);
  }

  lemma ReadIsCodeUnit(text: string)
    requires Hex4(text).Some?
    ensures CodeUnit(['\\', 'u'] + text[..4], Hex4(text).value)
  {
    var (a, b, c, d) := (HexValue(text[0]), HexValue(text[1]), HexValue(text[2]), HexValue(text[3]));
    HexExactly(text[0], a.value);
    HexExactly(text[1], b.value);
    HexExactly(text[2], c.value);
    HexExactly(text[3], d.value);
    assert UnitDigits(['\\', 'u'] + text[..4], a.value, b.value, c.value, d.value);
  }

  lemma OneUnit(s: string, x: nat, y: nat)
    requires CodeUnit(s, x) && CodeUnit(s, y)
    ensures x == y
  {
    CodeUnitRead(s, x, "");
    CodeUnitRead(s, y, "");
  }

  lemma PlainRead(s: string, c: char, after: string)
    requires Plain(s, c)
    ensures ReadString(s + after) == Prepend(c, ReadString(after))
  {
    assert (s + after)[1..] == after;
  }

  // An escape of the length given is read, and what follows it after it.
  lemma EscapeRead(s: string, c: char, after: string)
    requires |s| > 1 && s[0] == '\\' && ReadEscape(s[1..] + after) == Some((c, |s| - 1))
    ensures ReadString(s + after) == Prepend(c, ReadString(after))
  {
    assert (s + after)[1..] == s[1..] + after && (s + after)[|s|..] == after;
  }

  lemma ShortRead(s: string, c: char, after: string)
    requires Short(s, c)
    ensures ReadString(s + after) == Prepend(c, ReadString(after))
  {
    EscapeRead(s, c, after);
  }

  // The decoder looks at the code unit and, after a high half, at a low half
  // that may follow.
  ghost predicate BeginsLow(text: string) {
    |text| >= 6 && LowHalf(text[..6])
  }

  lemma UnitEscape(s: string, unit: nat, after: string)
    requires CodeUnit(s, unit)
    ensures var text := s[1..] + after;
            |text| >= 5 && text[0] == 'u' && Hex4(text[1..]) == Some(unit) && text[5..] == after
  {
    CodeUnitRead(s, unit, after);
    assert (s[1..] + after)[1..] == s[2..] + after;
  }

  lemma SingleRead(s: string, c: char, after: string)
    requires Single(s, c)
    ensures ReadString(s + after) == Prepend(c, ReadString(after))
  {
    var unit: nat :| CodeUnit(s, unit) && !(0xD800 <= unit < 0xE000) && c as int == unit;
    UnitEscape(s, unit, after);
    EscapeRead(s, c, after);
  }

  lemma LowRead(text: string, low: nat)
    requires |text| >= 6 && CodeUnit(text[..6], low)
    ensures text[0] == '\\' && text[1] == 'u' && Hex4(text[2..]) == Some(low)
  {
    CodeUnitRead(text[..6], low, text[6..]);
    assert text[..6][2..] + text[6..] == text[2..];
  }

  lemma PairRead(s: string, c: char, after: string)
    requires Pair(s, c)
    ensures ReadString(s + after) == Prepend(c, ReadString(after))
  {
    var high: nat, low: nat :| Halves(s, c, high, low);
    var text := s[1..] + after;
    UnitEscape(s[..6], high, s[6..] + after);
    assert s[..6][1..] + (s[6..] + after) == text;
    assert (s[6..] + after)[..6] == s[6..];
    LowRead(s[6..] + after, low);
    assert text[7..] == (s[6..] + after)[2..] && text[5] == (s[6..] + after)[0] && text[6] == (s[6..] + after)[1];
    EscapeRead(s, c, after);
  }

  lemma NoLowRead(text: string)
    requires |text| >= 2 && text[0] == '\\' && text[1] == 'u'
    requires Hex4(text[2..]).Some? && LowSurrogate(Hex4(text[2..]).value)
    ensures BeginsLow(text)
  {
    ReadIsCodeUnit(text[2..]);
    assert ['\\', 'u'] + text[2..][..4] == text[..6];
  }

  lemma HalfRead(s: string, c: char, after: string)
    requires Half(s, c) && (HighHalf(s) ==> !BeginsLow(after))
    ensures ReadString(s + after) == Prepend(c, ReadString(after))
  {
    var unit: nat :| CodeUnit(s, unit) && 0xD800 <= unit < 0xE000;
    UnitEscape(s, unit, after);
    var text := s[1..] + after;
    if unit < 0xDC00 && |text| >= 7 && text[5] == '\\' && text[6] == 'u' {
      assert text[7..] == after[2..];
      if Hex4(text[7..]).Some? && LowSurrogate(Hex4(text[7..]).value) {
        NoLowRead(after);
      }
    }
    EscapeRead(s, c, after);
  }

  lemma CharacterRead(s: string, c: char, after: string)
    requires Spells(s, c) && (HighHalf(s) ==> !BeginsLow(after))
    ensures ReadString(s + after) == Prepend(c, ReadString(after))
  {
    if Plain(s, c) {
      PlainRead(s, c, after);
    } else if Short(s, c) {
      ShortRead(s, c, after);
    } else if Single(s, c) {
      SingleRead(s, c, after);
    } else if Pair(s, c) {
      PairRead(s, c, after);
    } else {
      HalfRead(s, c, after);
    }
  }

  // ---------- and reads nothing else ----------

  lemma UnitIsSpelled(text: string) returns (s: string, unit: nat, after: string)
    requires |text| > 1 && text[0] == '\\' && text[1] == 'u' && Hex4(text[2..]).Some?
    ensures text == s + after && CodeUnit(s, unit) && unit == Hex4(text[2..]).value
  {
    s, unit, after := text[..6], Hex4(text[2..]).value, text[6..];
    ReadIsCodeUnit(text[2..]);
    assert ['\\', 'u'] + text[2..][..4] == s;
  }

  lemma LowIsRead(after: string)
    requires BeginsLow(after)
    ensures after[0] == '\\' && after[1] == 'u' && Hex4(after[2..]).Some? && LowSurrogate(Hex4(after[2..]).value)
  {
    var low: nat :| CodeUnit(after[..6], low) && 0xDC00 <= low < 0xE000;
    LowRead(after, low);
  }

  lemma PairIsSpelled(s: string, high: nat, text: string) returns (c: char, after: string)
    requires CodeUnit(s, high) && 0xD800 <= high < 0xDC00 && BeginsLow(text)
    ensures after == text[6..] && Spells(s + text[..6], c)
    ensures ReadString(s + text) == Prepend(c, ReadString(after)) && !HighHalf(s + text[..6])
  {
    var low: nat :| CodeUnit(text[..6], low) && 0xDC00 <= low < 0xE000;
    after := text[6..];
    CodeUnitRead(s, high, "");
    var both := s + text[..6];
    assert both[..6] == s && both[6..] == text[..6];
    c := (0x10000 + (high - 0xD800) * 0x400 + (low - 0xDC00)) as char;
    assert Halves(both, c, high, low);
    PairRead(both, c, after);
    assert both + after == s + text;
  }

  lemma HalfIsSpelled(s: string, unit: nat, after: string)
    requires CodeUnit(s, unit) && 0xD800 <= unit < 0xE000 && (unit < 0xDC00 ==> !BeginsLow(after))
    ensures Spells(s, 0xFFFD as char) && (HighHalf(s) ==> !BeginsLow(after))
    ensures ReadString(s + after) == Prepend(0xFFFD as char, ReadString(after))
  {
    assert unit < 0xDC00 ==> HighHalf(s);
    assert unit >= 0xDC00 ==> LowHalf(s);
    if HighHalf(s) {
      var x: nat :| CodeUnit(s, x) && 0xD800 <= x < 0xDC00;
      OneUnit(s, x, unit);
    }
    HalfRead(s, 0xFFFD as char, after);
  }

  lemma SingleIsSpelled(s: string, unit: nat, after: string)
    requires CodeUnit(s, unit) && unit < 0x10000 && !(0xD800 <= unit < 0xE000)
    ensures Spells(s, unit as char) && !HighHalf(s)
    ensures ReadString(s + after) == Prepend(unit as char, ReadString(after))
  {
    assert Single(s, unit as char);
    SingleRead(s, unit as char, after);
    if HighHalf(s) {
      var x: nat :| CodeUnit(s, x) && 0xD800 <= x < 0xDC00;
      OneUnit(s, x, unit);
    }
  }

  lemma EscapeIsSpelled(text: string) returns (s: string, c: char, after: string)
    requires text != "" && text[0] == '\\' && ReadEscape(text[1..]).Some?
    ensures text == s + after && s != "" && Spells(s, c) && (HighHalf(s) ==> !BeginsLow(after))
    ensures ReadString(text) == Prepend(c, ReadString(after))
  {
    if text[1] == 'u' {
      assert text[1..][1..] == text[2..];
      var unit: nat;
      s, unit, after := UnitIsSpelled(text);
      CodeUnitRead(s, unit, "");
      if !(0xD800 <= unit < 0xE000) {
        c := unit as char;
        SingleIsSpelled(s, unit, after);
      } else if unit < 0xDC00 && BeginsLow(after) {
        var rest := after;
        c, after := PairIsSpelled(s, unit, rest);
        s := s + rest[..6];
        assert text == s + after;
      } else {
        c := 0xFFFD as char;
        HalfIsSpelled(s, unit, after);
      }
    } else {
      s, after := text[..2], text[2..];
      c := ReadEscape(text[1..]).value.0;
      assert Short(s, c);
      ShortRead(s, c, after);
      assert !HighHalf(s);
    }
  }

  lemma CharacterIsSpelled(text: string) returns (s: string, c: char, after: string)
    requires ReadString(text).Some? && text[0] != '"'
    ensures text == s + after && s != "" && Spells(s, c) && (HighHalf(s) ==> !BeginsLow(after))
    ensures ReadString(text) == Prepend(c, ReadString(after))
  {
    if text[0] == '\\' {
      s, c, after := EscapeIsSpelled(text);
    } else {
      s, c, after := text[..1], text[0], text[1..];
      assert Plain(s, c) && !HighHalf(s);
    }
  }

  // ---------- strings ----------

  lemma FirstUnit(s: string, c: char, low: nat)
    requires Spells(s, c) && |s| >= 6 && CodeUnit(s[..6], low) && 0xDC00 <= low < 0xE000
    ensures LowHalf(s)
  {
    if Pair(s, c) {
      var high: nat, x: nat :| Halves(s, c, high, x);
      OneUnit(s[..6], high, low);
    } else {
      assert s[..6] == s;
    }
  }

  // Of the spellings of a character, only a low half on its own begins with one.
  lemma BeginsAsLow(s: string, c: char, after: string)
    requires Spells(s, c) && BeginsLow(s + after)
    ensures LowHalf(s)
  {
    LowIsRead(s + after);
    var low: nat :| CodeUnit((s + after)[..6], low) && 0xDC00 <= low < 0xE000;
    if |s| >= 6 {
      assert (s + after)[..6] == s[..6];
      FirstUnit(s, c, low);
    }
  }

  lemma SpellingTail(pieces: seq<string>, s: string)
    requires Spelling(pieces, s) && s != ""
    ensures Spelling(pieces[1..], s[1..]) && Spells(pieces[0], s[0])
  {
  }

  lemma JoinBeginsAsLow(pieces: seq<string>, s: string, close: string)
    requires Spelling(pieces, s) && close != "" && close[0] == '"' && BeginsLow(Join(pieces) + close)
    ensures pieces != [] && LowHalf(pieces[0])
  {
    LowIsRead(Join(pieces) + close);
    if pieces != [] {
      var after := Join(pieces[1..]) + close;
      assert Join(pieces) + close == pieces[0] + after;
      BeginsAsLow(pieces[0], s[0], after);
    }
  }

  lemma FirstRead(pieces: seq<string>, s: string, close: string)
    requires Spelling(pieces, s) && s != "" && close != "" && close[0] == '"'
    ensures ReadString(Join(pieces) + close) == Prepend(s[0], ReadString(Join(pieces[1..]) + close))
  {
    var after := Join(pieces[1..]) + close;
    SpellingTail(pieces, s);
    if BeginsLow(after) {
      JoinBeginsAsLow(pieces[1..], s[1..], close);
    }
    CharacterRead(pieces[0], s[0], after);
    assert Join(pieces) + close == pieces[0] + after;
  }

  // Every spelling of a string is read as the string, up to the closing quote.
  lemma {:induction false} SpellingRead(pieces: seq<string>, s: string, close: string)
    requires Spelling(pieces, s) && close != "" && close[0] == '"'
    ensures ReadString(Join(pieces) + close) == Some((s, close[1..]))
    decreases |pieces|
  {
    if pieces == [] {
      assert Join(pieces) + close == close;
    } else {
      SpellingTail(pieces, s);
      FirstRead(pieces, s, close);
      SpellingRead(pieces[1..], s[1..], close);
      assert [s[0]] + s[1..] == s;
    }
  }

  // Whatever is read was so spelled.
  lemma {:induction false} ReadIsSpelling(text: string) returns (pieces: seq<string>, close: string)
    requires ReadString(text).Some?
    ensures close != "" && close[0] == '"' && close[1..] == ReadString(text).value.1
    ensures Spelling(pieces, ReadString(text).value.0) && text == Join(pieces) + close
    decreases |text|
  {
    if text[0] == '"' {
      pieces, close := [], text;
      assert Join(pieces) + close == text;
    } else {
      var piece, c, after := CharacterIsSpelled(text);
      var others;
      others, close := ReadIsSpelling(after);
      pieces := [piece] + others;
      JoinGrows(piece, others, close);
      SpellingGrows(piece, c, others, ReadString(after).value.0, close);
    }
  }

  lemma JoinGrows(piece: string, others: seq<string>, close: string)
    ensures Join([piece] + others) + close == piece + (Join(others) + close)
  {
    assert ([piece] + others)[1..] == others;
  }

  lemma LowBegins(piece: string, after: string)
    requires LowHalf(piece)
    ensures BeginsLow(piece + after)
  {
    assert (piece + after)[..6] == piece;
  }

  lemma SpellingGrows(piece: string, c: char, others: seq<string>, s: string, close: string)
    requires Spells(piece, c) && Spelling(others, s) && (HighHalf(piece) ==> !BeginsLow(Join(others) + close))
    ensures Spelling([piece] + others, [c] + s)
  {
    if others != [] && LowHalf(others[0]) {
      LowBegins(others[0], Join(others[1..]) + close);
      assert Join(others) + close == others[0] + (Join(others[1..]) + close);
    }
  }
}
