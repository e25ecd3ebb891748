/** The text form that a materialized file is brought into. */
module MaterialText {
  import opened Bytes
  import opened Utf8

  const BOM: seq<byte> := [0xEF, 0xBB, 0xBF]
  const CR: byte := 13
  const LF: byte := 10

  function TrimBom(c: seq<byte>): seq<byte> {
    if BOM <= c then c[3..] else c
  }

  function ReplaceCrLf(c: seq<byte>): seq<byte> {
    if c == [] then []
    else if |c| >= 2 && c[0] == CR && c[1] == LF then [LF] + ReplaceCrLf(c[2..])
    else [c[0]] + ReplaceCrLf(c[1..])
  }

  function ReplaceCr(c: seq<byte>): seq<byte> {
    if c == [] then [] else [if c[0] == CR then LF else c[0]] + ReplaceCr(c[1..])
  }

  function EndLine(c: seq<byte>): seq<byte> {
    if c != [] && c[|c| - 1] != LF then c + [LF] else c
  }

  function NormalizeText(c: seq<byte>): seq<byte> {
    EndLine(ReplaceCr(ReplaceCrLf(TrimBom(c))))
  }

  predicate UnixText(c: seq<byte>) {
    CR !in c && (c != [] ==> c[|c| - 1] == LF)
  }

  lemma {:induction false} ReplacedHasNoCr(c: seq<byte>)
    ensures CR !in ReplaceCr(c)
    ensures CR !in c ==> ReplaceCr(c) == c
  {
    if c != [] {
      var rest := c[1..];
      ReplacedHasNoCr(rest);
      assert c == [c[0]] + rest;
    }
  }

  lemma {:induction false} NoCrKept(c: seq<byte>)
    requires CR !in c
    ensures ReplaceCrLf(c) == c
  {
    if c != [] {
      assert c[0] in c && CR !in c[1..];
      NoCrKept(c[1..]);
    }
  }

  // A start without line ends is neither changed nor created by the replacements.
  lemma {:induction false} StartKept(start: seq<byte>, c: seq<byte>)
    requires CR !in start && LF !in start
    ensures start <= ReplaceCrLf(c) <==> start <= c
    ensures start <= ReplaceCr(c) <==> start <= c
    decreases |start|
  {
    if start != [] && c != [] {
      assert start[0] in start && CR !in start[1..] && LF !in start[1..];
      StartKept(start[1..], c[1..]);
      StartSplit(start, c);
      StartSplit(start, ReplaceCrLf(c));
      StartSplit(start, ReplaceCr(c));
    }
  }

  lemma StartSplit(start: seq<byte>, c: seq<byte>)
    requires start != [] && c != []
    ensures start <= c <==> start[0] == c[0] && start[1..] <= c[1..]
  {
    if start[0] == c[0] && start[1..] <= c[1..] {
      assert forall i :: 0 < i < |start| ==> start[i] == start[1..][i - 1] == c[1..][i - 1] == c[i];
    }
  }

  lemma MarkKept(c: seq<byte>)
    ensures BOM <= NormalizeText(c) <==> BOM <= TrimBom(c)
  {
    var t := ReplaceCr(ReplaceCrLf(TrimBom(c)));
    StartKept(BOM, TrimBom(c));
    StartKept(BOM, ReplaceCrLf(TrimBom(c)));
    assert BOM <= EndLine(t) ==> EndLine(t)[2] == BOM[2] != LF;
  }

  lemma TwoMarks(c: seq<byte>)
    ensures BOM <= TrimBom(c) <==> BOM + BOM <= c
  {
    if BOM <= c && BOM <= c[3..] {
      assert c == c[..3] + c[3..] && c[3..] == c[3..][..3] + c[3..][3..];
    }
  }

  // Normalized text has only line feeds and ends in one, and normalizing again
  // changes it exactly when the given text starts with two byte order marks.
  lemma NormalizedExact(c: seq<byte>)
    ensures UnixText(NormalizeText(c))
    ensures NormalizeText(NormalizeText(c)) == NormalizeText(c) <==> !(BOM + BOM <= c)
  {
    ReplacedHasNoCr(ReplaceCrLf(TrimBom(c)));
    MarkKept(c);
    TwoMarks(c);
    var r := NormalizeText(c);
    if !(BOM <= r) {
      UnixKept(r);
    } else {
      SecondMarkGoes(r);
    }
  }

  // Whatever follows two marks, the second one goes only when the text is
  // normalized again.
  lemma TwoMarksTwoPasses(rest: seq<byte>)
    ensures BOM <= NormalizeText(BOM + BOM + rest)
    ensures |NormalizeText(NormalizeText(BOM + BOM + rest))| == |NormalizeText(BOM + BOM + rest)| - 3
  {
    var c := BOM + BOM + rest;
    assert BOM + BOM <= c;
    ReplacedHasNoCr(ReplaceCrLf(TrimBom(c)));
    MarkKept(c);
    TwoMarks(c);
    SecondMarkGoes(NormalizeText(c));
  }

  lemma SecondMarkGoes(r: seq<byte>)
    requires UnixText(r) && BOM <= r
    ensures |NormalizeText(r)| == |r| - 3
  {
    assert r[..3] == BOM && BOM[2] != LF;
    assert r != BOM;
    UnixKept(r[3..]);
  }

  lemma UnixKept(t: seq<byte>)
    requires UnixText(t)
    ensures EndLine(ReplaceCr(ReplaceCrLf(t))) == t
  {
    NoCrKept(t);
    ReplacedHasNoCr(t);
  }

  // ---------- well-formed text stays well formed ----------

  lemma ReplaceCrLfRune(c: seq<byte>)
    requires RuneWidth(c) > 1
    ensures ReplaceCrLf(c) == c[..RuneWidth(c)] + ReplaceCrLf(c[RuneWidth(c)..])
  {
    HighBytesCrLf(c, RuneWidth(c));
  }

  lemma {:induction false} HighBytesCrLf(c: seq<byte>, n: nat)
    requires n <= |c| && forall i :: 0 <= i < n ==> c[i] >= 0x80
    ensures ReplaceCrLf(c) == c[..n] + ReplaceCrLf(c[n..])
    decreases n
  {
    if n > 0 {
      HighBytesCrLf(c[1..], n - 1);
      assert c[1..][n - 1..] == c[n..];
      assert c[..n] == [c[0]] + c[1..][..n - 1];
    } else {
      assert c[0..] == c;
    }
  }

  lemma {:induction false} ReplaceCrLfValid(c: seq<byte>)
    requires Utf8.Valid(c)
    ensures Utf8.Valid(ReplaceCrLf(c))
    decreases |c|
  {
    if c == [] {
    } else if RuneWidth(c) > 1 {
      ReplaceCrLfValid(c[RuneWidth(c)..]);
      ReplaceCrLfRune(c);
      RuneValid(c);
      ValidConcat(c[..RuneWidth(c)], ReplaceCrLf(c[RuneWidth(c)..]));
    } else if |c| >= 2 && c[0] == CR && c[1] == LF {
      assert c[1..][1..] == c[2..];
      ReplaceCrLfValid(c[2..]);
      AsciiValid(LF);
      ValidConcat([LF], ReplaceCrLf(c[2..]));
    } else {
      ReplaceCrLfValid(c[1..]);
      AsciiValid(c[0]);
      ValidConcat([c[0]], ReplaceCrLf(c[1..]));
    }
  }

  lemma AsciiValid(b: byte)
    requires b < 0x80
    ensures Utf8.Valid([b])
  {
    assert [b][1..] == [];
  }

  lemma {:induction false} HighBytesCr(c: seq<byte>, n: nat)
    requires n <= |c| && forall i :: 0 <= i < n ==> c[i] >= 0x80
    ensures ReplaceCr(c) == c[..n] + ReplaceCr(c[n..])
    decreases n
  {
    if n > 0 {
      HighBytesCr(c[1..], n - 1);
      assert c[1..][n - 1..] == c[n..];
      assert c[..n] == [c[0]] + c[1..][..n - 1];
    } else {
      assert c[0..] == c;
    }
  }

  lemma {:induction false} ReplaceCrValid(c: seq<byte>)
    requires Utf8.Valid(c)
    ensures Utf8.Valid(ReplaceCr(c))
    decreases |c|
  {
    if c == [] {
    } else if RuneWidth(c) > 1 {
      ReplaceCrValid(c[RuneWidth(c)..]);
      HighBytesCr(c, RuneWidth(c));
      RuneValid(c);
      ValidConcat(c[..RuneWidth(c)], ReplaceCr(c[RuneWidth(c)..]));
    } else {
      ReplaceCrValid(c[1..]);
      AsciiValid(if c[0] == CR then LF else c[0]);
      ValidConcat([if c[0] == CR then LF else c[0]], ReplaceCr(c[1..]));
    }
  }

  // A well-formed text stays well formed, so it survives being encoded as JSON.
  lemma NormalizedValid(c: seq<byte>)
    requires Utf8.Valid(c)
    ensures Utf8.Valid(NormalizeText(c))
  {
    if BOM <= c {
      assert RuneWidth(c) == 3;
    }
    var t := TrimBom(c);
    ReplaceCrLfValid(t);
    ReplaceCrValid(ReplaceCrLf(t));
    AsciiValid(LF);
    ValidConcat(ReplaceCr(ReplaceCrLf(t)), [LF]);
  }

  // ---------- line by line ----------

  // A line without line ends, and the end it has in the given text.
  datatype Line = Line(content: seq<byte>, end: seq<byte>)

  predicate PlainLine(content: seq<byte>) {
    CR !in content && LF !in content
  }

  // Ends are CR LF, LF or CR; a CR stands before a line that does not begin with LF.
  predicate LineEnd(end: seq<byte>, rest: seq<byte>) {
    end == [CR, LF] || end == [LF] || (end == [CR] && (rest != [] ==> rest[0] != LF))
  }

  function Joined(lines: seq<Line>, last: seq<byte>): seq<byte> {
    if lines == [] then last else lines[0].content + (lines[0].end + Joined(lines[1..], last))
  }

  predicate WellEnded(lines: seq<Line>, last: seq<byte>) {
    lines == [] ||
    (PlainLine(lines[0].content) && LineEnd(lines[0].end, Joined(lines[1..], last)) && WellEnded(lines[1..], last))
  }

  function UnixLines(lines: seq<Line>): seq<Line> {
    if lines == [] then [] else [Line(lines[0].content, [LF])] + UnixLines(lines[1..])
  }

  function Unix(c: seq<byte>): seq<byte> {
    ReplaceCr(ReplaceCrLf(c))
  }

  lemma {:induction false} PlainKept(content: seq<byte>, rest: seq<byte>)
    requires PlainLine(content)
    ensures Unix(content + rest) == content + Unix(rest)
    decreases |content|
  {
    if content == [] {
      assert content + rest == rest;
    } else {
      var c := content + rest;
      assert content[0] in content && PlainLine(content[1..]);
      assert c[1..] == content[1..] + rest;
      PlainKept(content[1..], rest);
      assert ReplaceCrLf(c)[1..] == ReplaceCrLf(c[1..]);
    }
  }

  lemma EndReplaced(end: seq<byte>, rest: seq<byte>)
    requires LineEnd(end, rest)
    ensures Unix(end + rest) == [LF] + Unix(rest)
  {
    var c := end + rest;
    assert c[|end|..] == rest;
    assert ReplaceCrLf(c)[1..] == ReplaceCrLf(rest);
  }

  lemma {:induction false} LinesReplaced(lines: seq<Line>, last: seq<byte>)
    requires WellEnded(lines, last) && PlainLine(last)
    ensures Unix(Joined(lines, last)) == Joined(UnixLines(lines), last)
    decreases |lines|
  {
    if lines == [] {
      NoCrKept(last);
      ReplacedHasNoCr(last);
    } else {
      var rest := Joined(lines[1..], last);
      PlainKept(lines[0].content, lines[0].end + rest);
      EndReplaced(lines[0].end, rest);
      LinesReplaced(lines[1..], last);
      assert UnixLines(lines)[1..] == UnixLines(lines[1..]);
    }
  }

  lemma {:induction false} UnixEnds(lines: seq<Line>)
    ensures var c := Joined(UnixLines(lines), []); c != [] ==> c[|c| - 1] == LF
    decreases |lines|
  {
    if lines != [] {
      UnixEnds(lines[1..]);
      var rest := Joined(UnixLines(lines[1..]), []);
      assert UnixLines(lines)[1..] == UnixLines(lines[1..]);
      assert rest == [] ==> [LF] + rest == [LF];
    }
  }

  // Every line keeps its content and gets one line feed for its end, whichever it
  // had; a last line without an end gets one, unless it is empty.
  lemma NormalizedByLines(lines: seq<Line>, last: seq<byte>)
    requires WellEnded(lines, last) && PlainLine(last)
    requires !(BOM <= Joined(lines, last))
    ensures NormalizeText(Joined(lines, last))
            == if last == [] then Joined(UnixLines(lines), []) else Joined(UnixLines(lines), last) + [LF]
  {
    LinesReplaced(lines, last);
    UnixEnds(lines);
    if last != [] {
      LastByte(UnixLines(lines), last);
    }
  }

  lemma {:induction false} LastByte(lines: seq<Line>, last: seq<byte>)
    requires last != []
    ensures Joined(lines, last) != [] && Joined(lines, last)[|Joined(lines, last)| - 1] == last[|last| - 1]
    decreases |lines|
  {
    if lines != [] {
      LastByte(lines[1..], last);
    }
  }
}
