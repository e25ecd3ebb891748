/**
 Bounded capture of process output: a writer that clips at a byte bound, the
 repair of what it holds, and the cut at a character boundary before storage.
 */
module OutputCapture {
  import opened Bytes
  import opened Utf8

  const KIB := 1024

  function Capacity(maximum: int): (c: nat)
    ensures 16 * KIB <= c <= 1024 * KIB
    ensures 16 * KIB <= maximum <= 1024 * KIB ==> c == maximum
  {
    if maximum < 16 * KIB || maximum > 1024 * KIB then 256 * KIB else maximum
  }

  function Clip(stream: seq<byte>, capacity: nat): seq<byte> {
    if |stream| <= capacity then stream else stream[..capacity]
  }

  // The writer handed to the process for one of its output streams.
  class BoundedExecutionBuffer {
    var buffer: seq<byte>
    var remaining: int
    var truncated: bool
    const capacity: nat
    // everything written so far
    ghost var stream: seq<byte>

    ghost predicate Valid()
      reads this
    {
      && buffer == Clip(stream, capacity)
      && remaining == capacity - |buffer|
      && (truncated <==> |stream| > capacity)
    }

    constructor (maximum: int)
      ensures Valid() && stream == [] && capacity == Capacity(maximum)
    {
      var bound := if maximum < 16 * KIB || maximum > 1024 * KIB then 256 * KIB else maximum;
      capacity := bound;
      remaining := bound;
      buffer := [];
      truncated := false;
      stream := [];
    }

    // Always reports the whole chunk as written, and keeps what still fits.
    method Write(p: seq<byte>) returns (n: nat)
      requires Valid()
      modifies this
      ensures Valid() && n == |p| && stream == old(stream) + p
    {
      stream := stream + p;
      if remaining <= 0 {
        truncated := truncated || |p| > 0;
        return |p|;
      }
      var write := p;
      if |write| > remaining {
        write := write[..remaining];
        truncated := true;
      }
      buffer := buffer + write;
      remaining := remaining - |write|;
      return |p|;
    }

    method String() returns (text: seq<byte>)
      requires Valid()
      ensures text == Repair(Clip(stream, capacity), false)
    {
      text := ToValidUtf8(buffer);
    }

    method Truncated() returns (r: bool)
      requires Valid()
      ensures r <==> |stream| > capacity
    {
      r := truncated;
    }
  }

  // Copies well-formed characters and writes one replacement per invalid run.
  method ToValidUtf8(b: seq<byte>) returns (text: seq<byte>)
    ensures text == Repair(b, false)
  {
    text := [];
    var i := 0;
    var invalid := false;
    while i < |b|
      invariant 0 <= i <= |b|
      invariant text + Repair(b[i..], invalid) == Repair(b, false)
      decreases |b| - i
    {
      var width := RuneWidth(b[i..]);
      if width == 0 {
        RepairStepInvalid(b, i, invalid, text);
        if !invalid {
          invalid := true;
          text := text + REPLACEMENT;
        }
        i := i + 1;
      } else {
        RepairStepRune(b, i, invalid, text);
        invalid := false;
        text := text + b[i..i + width];
        i := i + width;
      }
    }
  }

  lemma RepairStepInvalid(b: seq<byte>, i: nat, inRun: bool, text: seq<byte>)
    requires i < |b| && RuneWidth(b[i..]) == 0
    ensures text + Repair(b[i..], inRun) == (if inRun then text else text + REPLACEMENT) + Repair(b[i + 1..], true)
  {
    assert b[i..][1..] == b[i + 1..];
    assert (text + REPLACEMENT) + Repair(b[i + 1..], true) == text + (REPLACEMENT + Repair(b[i + 1..], true));
    assert [] + Repair(b[i + 1..], true) == Repair(b[i + 1..], true);
  }

  lemma RepairStepRune(b: seq<byte>, i: nat, inRun: bool, text: seq<byte>)
    requires i < |b| && RuneWidth(b[i..]) > 0
    ensures var w := RuneWidth(b[i..]);
            text + Repair(b[i..], inRun) == (text + b[i..i + w]) + Repair(b[i + w..], false)
  {
    var w := RuneWidth(b[i..]);
    assert b[i..][..w] == b[i..i + w] && b[i..][w..] == b[i + w..];
    assert (text + b[i..i + w]) + Repair(b[i + w..], false) == text + (b[i..i + w] + Repair(b[i + w..], false));
  }

  // ---------- the cut before storage ----------

  function Bound(maximum: int): (n: nat)
    ensures 0 < n <= 1024 * KIB
    ensures 0 < maximum <= 1024 * KIB ==> n == maximum
  {
    if maximum <= 0 || maximum > 1024 * KIB then 256 * KIB else maximum
  }

  // What a text is cut to.
  ghost predicate CutTo(text: seq<byte>, bound: nat, out: seq<byte>) {
    if |text| <= bound then out == text else LongestValidPrefix(out, text[..bound])
  }

  // Repairs, and drops bytes from the end until what is left is well formed.
  method BoundOutput(value: seq<byte>, maximum: int) returns (out: seq<byte>, truncated: bool)
    ensures truncated <==> |Repair(value, false)| > Bound(maximum)
    ensures CutTo(Repair(value, false), Bound(maximum), out)
  {
    var bound := if maximum <= 0 || maximum > 1024 * KIB then 256 * KIB else maximum;
    var text := ToValidUtf8(value);
    if |text| <= bound {
      return text, false;
    }
    var data := text[..bound];
    while |data| > 0 && !Utf8.Valid(data)
      invariant data <= text[..bound]
      invariant forall n :: |data| < n <= bound ==> !Utf8.Valid(text[..bound][..n])
    {
      assert data == text[..bound][..|data|];
      data := data[..|data| - 1];
    }
    return data, true;
  }

  // The cut is well formed, within the bound, and at most three bytes below it.
  lemma CutLosesLittle(text: seq<byte>, bound: nat, out: seq<byte>)
    requires Utf8.Valid(text) && CutTo(text, bound, out)
    ensures Utf8.Valid(out) && |out| <= bound && out <= text
    ensures |text| > bound ==> |out| >= bound - 3
  {
    if |text| > bound {
      var k := Boundary(text, bound);
      assert text[..k] == text[..bound][..k];
    }
  }

  // ---------- the whole pipeline ----------

  // What is stored for a stream, and the flag stored with it.
  ghost predicate Stored(stream: seq<byte>, maximum: int, out: seq<byte>, truncated: bool) {
    var held := Repair(Clip(stream, Capacity(maximum)), false);
    && CutTo(Repair(held, false), Bound(maximum), out)
    && (truncated <==> |stream| > Capacity(maximum) || |Repair(held, false)| > Bound(maximum))
  }

  // A capture from the first byte to storage: the chunks go to a fresh buffer in
  // any division, and the text it holds is repaired again and cut.
  method Capture(chunks: seq<seq<byte>>, maximum: int) returns (out: seq<byte>, truncated: bool)
    ensures Stored(Joined(chunks), maximum, out, truncated)
  {
    var b := new BoundedExecutionBuffer(maximum);
    for i := 0 to |chunks|
      invariant b.Valid() && b.capacity == Capacity(maximum) && fresh(b)
      invariant b.stream == Joined(chunks[..i])
    {
      var n := b.Write(chunks[i]);
      assert chunks[..i + 1][..i] == chunks[..i];
    }
    assert chunks[..|chunks|] == chunks;
    var text := b.String();
    var clipped := b.Truncated();
    var cut: bool;
    out, cut := BoundOutput(text, maximum);
    truncated := clipped || cut;
  }

  function Joined(chunks: seq<seq<byte>>): seq<byte> {
    if chunks == [] then [] else Joined(chunks[..|chunks| - 1]) + chunks[|chunks| - 1]
  }

  // What is stored depends on the bytes of the stream alone, not on the chunks in
  // which they come.
  lemma StoredUnique(chunks: seq<seq<byte>>, others: seq<seq<byte>>, maximum: int,
                     out: seq<byte>, truncated: bool, out': seq<byte>, truncated': bool)
    requires Stored(Joined(chunks), maximum, out, truncated) && Stored(Joined(others), maximum, out', truncated')
    requires Joined(chunks) == Joined(others)
    ensures out == out' && truncated == truncated'
  {
    var text := Repair(Repair(Clip(Joined(chunks), Capacity(maximum)), false), false);
    if |text| > Bound(maximum) {
      LongestUnique(out, out', text[..Bound(maximum)]);
    }
  }

  // Stored output is well formed and within the bound; without the flag it is the
  // whole repaired stream; and the flag is set exactly when the stream exceeds
  // the capacity or its repair exceeds the bound.
  lemma StoredOutput(stream: seq<byte>, maximum: int, out: seq<byte>, truncated: bool)
    requires Stored(stream, maximum, out, truncated)
    ensures Utf8.Valid(out) && |out| <= Bound(maximum)
    ensures !truncated ==> out == Repair(stream, false)
    ensures !truncated <==> |stream| <= Capacity(maximum) && |Repair(stream, false)| <= Bound(maximum)
  {
    var clip := Clip(stream, Capacity(maximum));
    RepairExact(clip);
    CutLosesLittle(Repair(clip, false), Bound(maximum), out);
  }

  // Whatever is stored is the beginning of the repaired stream, followed by at
  // most one replacement character where the stream was clipped.
  lemma StoredIsBeginning(stream: seq<byte>, maximum: int, out: seq<byte>, truncated: bool)
    requires Stored(stream, maximum, out, truncated)
    ensures out <= Repair(stream, false) ||
            (exists kept :: kept <= Repair(stream, false) && out == kept + REPLACEMENT)
  {
    var whole := Repair(stream, false);
    var clip := Clip(stream, Capacity(maximum));
    var text := Repair(clip, false);
    RepairExact(clip);
    CutLosesLittle(text, Bound(maximum), out);
    if |stream| > Capacity(maximum) {
      var kept := RepairClipped(stream, Capacity(maximum), false);
      CutOfKept(kept, text, whole, out);
    }
  }

  lemma CutOfKept(kept: seq<byte>, text: seq<byte>, whole: seq<byte>, out: seq<byte>)
    requires KeptOf(kept, text, whole) && out <= text && Utf8.Valid(out)
    ensures out <= whole || (kept <= whole && out == kept + REPLACEMENT)
  {
    if |out| <= |kept| {
      assert out == text[..|out|] == kept[..|out|] == whole[..|out|];
    } else {
      var j := |out| - |kept|;
      assert out == kept + REPLACEMENT[..j];
      ValidConcat(kept, REPLACEMENT[..j]);
      ReplacementValid();
      assert REPLACEMENT[..3] == REPLACEMENT;
    }
  }
}
