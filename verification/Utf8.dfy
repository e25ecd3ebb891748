/**
 UTF-8 as RFC 3629 defines it: which byte strings are well formed, the repair of
 ill-formed ones, and where a well-formed one may be cut.
 */
module Utf8 {
  import opened Bytes

  // ---------- one character ----------

  predicate Tail(b: byte) { 0x80 <= b <= 0xBF }

  // The second byte that each lead byte of a longer sequence allows.
  predicate SecondByte(lead: byte, b: byte) {
    if lead == 0xE0 then 0xA0 <= b <= 0xBF
    else if lead == 0xED then 0x80 <= b <= 0x9F
    else if lead == 0xF0 then 0x90 <= b <= 0xBF
    else if lead == 0xF4 then 0x80 <= b <= 0x8F
    else Tail(b)
  }

  // The number of bytes of the character at the start of b, 0 if there is none.
  function RuneWidth(b: seq<byte>): (w: nat)
    ensures w <= |b| && w <= 4
  {
    if b == [] then 0
    else if b[0] < 0x80 then 1
    else if 0xC2 <= b[0] <= 0xDF && |b| >= 2 && Tail(b[1]) then 2
    else if 0xE0 <= b[0] <= 0xEF && |b| >= 3 && SecondByte(b[0], b[1]) && Tail(b[2]) then 3
    else if 0xF0 <= b[0] <= 0xF4 && |b| >= 4 && SecondByte(b[0], b[1]) && Tail(b[2]) && Tail(b[3]) then 4
    else 0
  }

  predicate Valid(b: seq<byte>)
    decreases |b|
  {
    b == [] || (RuneWidth(b) > 0 && Valid(b[RuneWidth(b)..]))
  }

  // ---------- the reference: encoded code points ----------

  predicate Scalar(c: nat) {
    c < 0xD800 || 0xE000 <= c < 0x110000
  }

  function EncodeRune(c: nat): (b: seq<byte>)
    requires Scalar(c)
  {
    if c < 0x80 then [c]
    else if c < 0x800 then [0xC0 + c / 64, 0x80 + c % 64]
    else if c < 0x10000 then [0xE0 + c / 4096, 0x80 + c / 64 % 64, 0x80 + c % 64]
    else [0xF0 + c / 262144, 0x80 + c / 4096 % 64, 0x80 + c / 64 % 64, 0x80 + c % 64]
  }

  function Encode(text: seq<nat>): seq<byte>
    requires forall i :: 0 <= i < |text| ==> Scalar(text[i])
  {
    if text == [] then [] else EncodeRune(text[0]) + Encode(text[1..])
  }

  // The code point of the character at the start of b.
  function DecodeRune(b: seq<byte>): (c: nat)
    requires RuneWidth(b) > 0
  {
    if RuneWidth(b) == 1 then b[0]
    else if RuneWidth(b) == 2 then (b[0] as int - 0xC0) * 64 + Low(b[1])
    else if RuneWidth(b) == 3 then (b[0] as int - 0xE0) * 4096 + Low(b[1]) * 64 + Low(b[2])
    else (b[0] as int - 0xF0) * 262144 + Low(b[1]) * 4096 + Low(b[2]) * 64 + Low(b[3])
  }

  // The six bits that a continuation byte carries.
  function Low(b: byte): int { b as int - 0x80 }

  lemma RuneWidthPrefix(a: seq<byte>, b: seq<byte>)
    requires RuneWidth(a) > 0 && RuneWidth(a) <= |b| && b[..RuneWidth(a)] == a[..RuneWidth(a)]
    ensures RuneWidth(b) == RuneWidth(a)
  {
    var w := RuneWidth(a);
    assert forall i :: 0 <= i < w ==> b[i] == b[..w][i] && a[i] == a[..w][i];
  }

  lemma EncodedWidth(c: nat)
    requires Scalar(c)
    ensures RuneWidth(EncodeRune(c)) == |EncodeRune(c)| > 0
  {
  }

  lemma SixBits(high: int, low: int)
    requires 0 <= low < 64
    ensures (high * 64 + low) / 64 == high && (high * 64 + low) % 64 == low
  {
  }

  lemma DecodedThree(b: seq<byte>)
    requires RuneWidth(b) == 3
    ensures Scalar(DecodeRune(b)) && EncodeRune(DecodeRune(b)) == b[..3]
  {
    var c := DecodeRune(b);
    var top := b[0] as int - 0xE0;
    assert c == (top * 64 + Low(b[1])) * 64 + Low(b[2]);
    SixBits(top * 64 + Low(b[1]), Low(b[2]));
    SixBits(top, Low(b[1]));
    assert c / 4096 == (c / 64) / 64;
  }

  lemma DecodedFour(b: seq<byte>)
    requires RuneWidth(b) == 4
    ensures Scalar(DecodeRune(b)) && EncodeRune(DecodeRune(b)) == b[..4]
  {
    var c := DecodeRune(b);
    var top := b[0] as int - 0xF0;
    assert c == ((top * 64 + Low(b[1])) * 64 + Low(b[2])) * 64 + Low(b[3]);
    SixBits((top * 64 + Low(b[1])) * 64 + Low(b[2]), Low(b[3]));
    SixBits(top * 64 + Low(b[1]), Low(b[2]));
    SixBits(top, Low(b[1]));
    assert c / 4096 == (c / 64) / 64 && c / 262144 == (c / 64) / 64 / 64;
  }

  lemma DecodedEncodes(b: seq<byte>)
    requires RuneWidth(b) > 0
    ensures Scalar(DecodeRune(b)) && EncodeRune(DecodeRune(b)) == b[..RuneWidth(b)]
  {
    if RuneWidth(b) == 3 {
      DecodedThree(b);
    } else if RuneWidth(b) == 4 {
      DecodedFour(b);
    }
  }

  lemma {:induction false} EncodedIsValid(text: seq<nat>)
    requires forall i :: 0 <= i < |text| ==> Scalar(text[i])
    ensures Valid(Encode(text))
    decreases |text|
  {
    if text != [] {
      var (a, b) := (EncodeRune(text[0]), Encode(text));
      EncodedWidth(text[0]);
      assert b[..|a|] == a == a[..|a|];
      RuneWidthPrefix(a, b);
      assert b[|a|..] == Encode(text[1..]);
      EncodedIsValid(text[1..]);
    }
  }

  lemma {:induction false} ValidIsEncoded(b: seq<byte>) returns (text: seq<nat>)
    requires Valid(b)
    ensures (forall i :: 0 <= i < |text| ==> Scalar(text[i])) && Encode(text) == b
    decreases |b|
  {
    if b == [] {
      text := [];
    } else {
      var w := RuneWidth(b);
      DecodedEncodes(b);
      var rest := ValidIsEncoded(b[w..]);
      text := [DecodeRune(b)] + rest;
      EncodeCons(DecodeRune(b), rest);
      SplitAt(b, w);
    }
  }

  lemma EncodeCons(c: nat, rest: seq<nat>)
    requires Scalar(c) && forall i :: 0 <= i < |rest| ==> Scalar(rest[i])
    ensures Encode([c] + rest) == EncodeRune(c) + Encode(rest)
  {
    assert ([c] + rest)[1..] == rest;
  }

  lemma SplitAt(b: seq<byte>, w: nat)
    requires w <= |b|
    ensures b == b[..w] + b[w..]
  {
  }

  ghost predicate Encodes(text: seq<nat>, b: seq<byte>) {
    (forall i :: 0 <= i < |text| ==> Scalar(text[i])) && Encode(text) == b
  }

  // The table of lead and continuation bytes accepts exactly the encodings of
  // sequences of scalar values.
  lemma ValidExactlyEncoded(b: seq<byte>)
    ensures Valid(b) <==> exists text :: Encodes(text, b)
  {
    if Valid(b) {
      var text := ValidIsEncoded(b);
      assert Encodes(text, b);
    }
    forall text | Encodes(text, b) ensures Valid(b) {
      EncodedIsValid(text);
    }
  }

  // ---------- concatenation ----------

  lemma {:induction false} ValidConcat(a: seq<byte>, b: seq<byte>)
    requires Valid(a)
    ensures Valid(a + b) <==> Valid(b)
    decreases |a|
  {
    if a == [] {
      assert a + b == b;
    } else {
      var w := RuneWidth(a);
      assert (a + b)[..w] == a[..w];
      RuneWidthPrefix(a, a + b);
      assert (a + b)[w..] == a[w..] + b;
      ValidConcat(a[w..], b);
    }
  }

  // ---------- repair ----------

  // U+FFFD
  const REPLACEMENT: seq<byte> := [0xEF, 0xBF, 0xBD]

  // Every run of bytes that start no character becomes one replacement character.
  function Repair(b: seq<byte>, inRun: bool): seq<byte>
    decreases |b|
  {
    if b == [] then []
    else if RuneWidth(b) == 0 then (if inRun then [] else REPLACEMENT) + Repair(b[1..], true)
    else b[..RuneWidth(b)] + Repair(b[RuneWidth(b)..], false)
  }

  lemma ReplacementValid()
    ensures Valid(REPLACEMENT) && !Valid(REPLACEMENT[..1]) && !Valid(REPLACEMENT[..2])
  {
    assert RuneWidth(REPLACEMENT) == 3;
    assert RuneWidth(REPLACEMENT[..1]) == 0 && RuneWidth(REPLACEMENT[..2]) == 0;
  }

  lemma RuneValid(b: seq<byte>)
    requires RuneWidth(b) > 0
    ensures Valid(b[..RuneWidth(b)])
  {
    var w := RuneWidth(b);
    RuneWidthPrefix(b, b[..w]);
    assert b[..w][w..] == [];
  }

  lemma {:induction false} RepairIsValid(b: seq<byte>, inRun: bool)
    ensures Valid(Repair(b, inRun))
    decreases |b|
  {
    if b == [] {
    } else if RuneWidth(b) == 0 {
      RepairIsValid(b[1..], true);
      ReplacementValid();
      ValidConcat(REPLACEMENT, Repair(b[1..], true));
      assert [] + Repair(b[1..], true) == Repair(b[1..], true);
    } else {
      var w := RuneWidth(b);
      RepairIsValid(b[w..], false);
      RuneValid(b);
      ValidConcat(b[..w], Repair(b[w..], false));
    }
  }

  lemma {:induction false} RepairKeepsValid(b: seq<byte>, inRun: bool)
    requires Valid(b)
    ensures Repair(b, inRun) == b
    decreases |b|
  {
    if b != [] {
      RepairKeepsValid(b[RuneWidth(b)..], false);
    }
  }

  // Repair leaves a text alone exactly when it is well formed, always yields a
  // well-formed text, and repairing twice is repairing once.
  lemma RepairExact(b: seq<byte>)
    ensures Valid(Repair(b, false))
    ensures Repair(b, false) == b <==> Valid(b)
    ensures Repair(Repair(b, false), false) == Repair(b, false)
  {
    RepairIsValid(b, false);
    RepairKeepsValid(Repair(b, false), false);
    if Valid(b) {
      RepairKeepsValid(b, false);
    }
  }

  // ---------- cutting ----------

  // The last character boundary of b at or before n.
  lemma {:induction false} Boundary(b: seq<byte>, n: nat) returns (k: nat)
    requires Valid(b) && n <= |b|
    ensures k <= n <= k + 3 && Valid(b[..k])
    decreases |b|
  {
    var w := RuneWidth(b);
    if n < w || b == [] {
      k := 0;
      assert b[..0] == [];
    } else {
      var rest := Boundary(b[w..], n - w);
      k := w + rest;
      BoundaryAfterRune(b, rest);
    }
  }

  lemma BoundaryAfterRune(b: seq<byte>, k: nat)
    requires 0 < RuneWidth(b) && RuneWidth(b) + k <= |b| && Valid(b[RuneWidth(b)..][..k])
    ensures Valid(b[..RuneWidth(b) + k])
  {
    var w := RuneWidth(b);
    RuneValid(b);
    ValidConcat(b[..w], b[w..][..k]);
    assert b[..w] + b[w..][..k] == b[..w + k];
  }

  // p is the longest well-formed prefix of b.
  ghost predicate LongestValidPrefix(p: seq<byte>, b: seq<byte>) {
    p <= b && Valid(p) && forall n :: |p| < n <= |b| ==> !Valid(b[..n])
  }

  lemma LongestUnique(p: seq<byte>, q: seq<byte>, b: seq<byte>)
    requires LongestValidPrefix(p, b) && LongestValidPrefix(q, b)
    ensures p == q
  {
    assert p == b[..|p|] && q == b[..|q|];
  }

  // kept is well formed, starts whole, and is all of clipped except perhaps a
  // final replacement character.
  predicate KeptOf(kept: seq<byte>, clipped: seq<byte>, whole: seq<byte>) {
    kept <= whole && Valid(kept) && (clipped == kept || clipped == kept + REPLACEMENT)
  }

  lemma KeptPrepend(head: seq<byte>, kept: seq<byte>, clipped: seq<byte>, whole: seq<byte>)
    requires Valid(head) && KeptOf(kept, clipped, whole)
    ensures KeptOf(head + kept, head + clipped, head + whole)
  {
    ValidConcat(head, kept);
    PrefixPrepend(head, kept, whole);
    assert (head + kept) + REPLACEMENT == head + (kept + REPLACEMENT);
  }

  lemma PrefixPrepend(head: seq<byte>, a: seq<byte>, b: seq<byte>)
    requires a <= b
    ensures head + a <= head + b
  {
  }

  // A clipped stream repairs to a prefix of the whole repaired stream, followed
  // by at most one replacement character for the character it was cut in.
  lemma {:induction false} RepairClipped(b: seq<byte>, n: nat, inRun: bool) returns (kept: seq<byte>)
    requires n <= |b|
    ensures KeptOf(kept, Repair(b[..n], inRun), Repair(b, inRun))
    decreases |b|
  {
    var w := RuneWidth(b);
    if n == 0 {
      kept := [];
    } else if w == 0 {
      var rest := RepairClipped(b[1..], n - 1, true);
      kept := RepairClippedInvalid(b, n, inRun, rest);
    } else if w <= n {
      var rest := RepairClipped(b[w..], n - w, false);
      kept := RepairClippedRune(b, n, inRun, rest);
    } else {
      kept := [];
      CutRune(b, n);
      RepairInvalidRun(b[..n], inRun);
    }
  }

  lemma RepairClippedInvalid(b: seq<byte>, n: nat, inRun: bool, rest: seq<byte>) returns (kept: seq<byte>)
    requires 0 < n <= |b| && RuneWidth(b) == 0 && KeptOf(rest, Repair(b[1..][..n - 1], true), Repair(b[1..], true))
    ensures KeptOf(kept, Repair(b[..n], inRun), Repair(b, inRun))
  {
    ClippedStaysInvalid(b, n);
    assert b[..n][1..] == b[1..][..n - 1];
    ReplacementValid();
    var head: seq<byte> := if inRun then [] else REPLACEMENT;
    KeptPrepend(head, rest, Repair(b[1..][..n - 1], true), Repair(b[1..], true));
    kept := head + rest;
  }

  lemma RepairClippedRune(b: seq<byte>, n: nat, inRun: bool, rest: seq<byte>) returns (kept: seq<byte>)
    requires 0 < RuneWidth(b) <= n <= |b|
    requires KeptOf(rest, Repair(b[RuneWidth(b)..][..n - RuneWidth(b)], false), Repair(b[RuneWidth(b)..], false))
    ensures KeptOf(kept, Repair(b[..n], inRun), Repair(b, inRun))
  {
    var w := RuneWidth(b);
    assert b[..n][..w] == b[..w];
    RuneWidthPrefix(b, b[..n]);
    assert b[..n][w..] == b[w..][..n - w];
    RuneValid(b);
    KeptPrepend(b[..w], rest, Repair(b[w..][..n - w], false), Repair(b[w..], false));
    kept := b[..w] + rest;
  }

  lemma ClippedStaysInvalid(b: seq<byte>, n: nat)
    requires 0 < n <= |b| && RuneWidth(b) == 0
    ensures RuneWidth(b[..n]) == 0
  {
  }

  // No character starts inside a character that is cut short.
  lemma CutRune(b: seq<byte>, n: nat)
    requires 0 < n < RuneWidth(b)
    ensures forall i :: 0 <= i < n ==> RuneWidth(b[..n][i..]) == 0
  {
  }

  lemma {:induction false} RepairInvalidRun(c: seq<byte>, inRun: bool)
    requires forall i :: 0 <= i < |c| ==> RuneWidth(c[i..]) == 0
    ensures Repair(c, inRun) == if c == [] || inRun then [] else REPLACEMENT
    decreases |c|
  {
    if c != [] {
      assert c[0..] == c;
      forall i | 0 <= i < |c| - 1 ensures RuneWidth(c[1..][i..]) == 0 {
        assert c[1..][i..] == c[i + 1..];
      }
      RepairInvalidRun(c[1..], true);
    }
  }

  lemma {:induction false} RepairAfterValid(v: seq<byte>, rest: seq<byte>)
    requires Valid(v)
    ensures Repair(v + rest, false) == v + Repair(rest, false)
    decreases |v|
  {
    if v == [] {
      assert v + rest == rest;
    } else {
      var w := RuneWidth(v);
      assert (v + rest)[..w] == v[..w] && (v + rest)[w..] == v[w..] + rest;
      RuneWidthPrefix(v, v + rest);
      RepairAfterValid(v[w..], rest);
      assert v[..w] + (v[w..] + Repair(rest, false)) == v + Repair(rest, false);
    }
  }

  // A maximal run of bytes that start no character.
  predicate InvalidRun(x: seq<byte>, rest: seq<byte>) {
    && x != [] && (forall i :: 0 <= i < |x| ==> RuneWidth((x + rest)[i..]) == 0)
    && (rest != [] ==> RuneWidth(rest) > 0)
  }

  lemma {:induction false} RepairRun(x: seq<byte>, rest: seq<byte>)
    requires (forall i :: 0 <= i < |x| ==> RuneWidth((x + rest)[i..]) == 0) && (rest != [] ==> RuneWidth(rest) > 0)
    ensures Repair(x + rest, true) == Repair(rest, false)
    decreases |x|
  {
    if x == [] {
      assert x + rest == rest;
    } else {
      assert (x + rest)[0..] == x + rest && (x + rest)[1..] == x[1..] + rest;
      forall i | 0 <= i < |x| - 1 ensures RuneWidth((x[1..] + rest)[i..]) == 0 {
        assert (x[1..] + rest)[i..] == (x + rest)[i + 1..];
      }
      RepairRun(x[1..], rest);
    }
  }

  // Well-formed text stays, the run after it becomes one replacement character, and
  // the rest is repaired in the same way.
  lemma RepairByRuns(v: seq<byte>, x: seq<byte>, rest: seq<byte>)
    requires Valid(v) && InvalidRun(x, rest)
    ensures Repair(v + (x + rest), false) == v + (REPLACEMENT + Repair(rest, false))
  {
    RepairAfterValid(v, x + rest);
    assert (x + rest)[0..] == x + rest && (x + rest)[1..] == x[1..] + rest;
    forall i | 0 <= i < |x| - 1 ensures RuneWidth((x[1..] + rest)[i..]) == 0 {
      assert (x[1..] + rest)[i..] == (x + rest)[i + 1..];
    }
    RepairRun(x[1..], rest);
  }
}
