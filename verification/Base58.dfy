/**
 The base-58 text form of program addresses (draft-msporny-base58, section 3).

 The encoder converts a big-endian base-256 number into little-endian base-58
 digits in place, carrying as it goes.  Its specification is arithmetic: write
 the value of the bytes in base 58, and put one '1' in front for every leading
 zero byte.  Decoding is the partner that the encoder is proved to invert.
 */
module Base58 {
  import opened Bytes

  // The alphabet, as its runs of consecutive characters.
  const FIRST_HALF := "123456789" + "ABCDEFGH" + "JKLMN"
  const SECOND_HALF := "PQRSTUVWXYZ" + "abcdefghijk" + "mnopqrstuvwxyz"
  const ALPHABET := FIRST_HALF + SECOND_HALF

  // ---------- positional notation, least significant digit first ----------

  predicate Below(digits: seq<nat>, base: nat) {
    forall i :: 0 <= i < |digits| ==> digits[i] < base
  }

  predicate Minimal(digits: seq<nat>, base: nat) {
    Below(digits, base) && (digits != [] ==> digits[|digits| - 1] != 0)
  }

  function Reverse(s: seq<nat>): (r: seq<nat>)
    ensures |r| == |s|
    ensures forall i :: 0 <= i < |s| ==> r[i] == s[|s| - 1 - i]
  {
    seq(|s|, i requires 0 <= i < |s| => s[|s| - 1 - i])
  }

  function Zeros(n: nat): (r: seq<nat>)
    ensures |r| == n
    ensures forall i :: 0 <= i < n ==> r[i] == 0
  {
    seq(n, i => 0)
  }

  function Value(digits: seq<nat>, base: nat): nat {
    if digits == [] then 0 else Place(digits[0], base, Value(digits[1..], base))
  }

  // low + base * high, by repeated addition.
  function Place(low: nat, base: nat, high: nat): nat
    decreases high
  {
    if high == 0 then low else base + Place(low, base, high - 1)
  }

  // Quotient and remainder, by repeated subtraction.
  function Quot(n: nat, base: nat): nat
    requires base >= 1
    decreases n
  {
    if n < base then 0 else 1 + Quot(n - base, base)
  }

  function Rem(n: nat, base: nat): nat
    requires base >= 1
    decreases n
  {
    if n < base then n else Rem(n - base, base)
  }

  lemma {:induction false} PlaceIs(low: nat, base: nat, high: nat)
    ensures Place(low, base, high) == low + base * high
    decreases high
  {
    if high > 0 {
      PlaceIs(low, base, high - 1);
    }
  }

  lemma {:induction false} PlaceIs256(low: nat, high: nat)
    ensures Place(low, 256, high) == low + 256 * high
    decreases high
  {
    if high > 0 {
      PlaceIs256(low, high - 1);
    }
  }

  lemma {:induction false} PlaceIs58(low: nat, high: nat)
    ensures Place(low, 58, high) == low + 58 * high
    decreases high
  {
    if high > 0 {
      PlaceIs58(low, high - 1);
    }
  }

  lemma {:induction false} DivisionBy58(n: nat)
    ensures Quot(n, 58) == n / 58 && Rem(n, 58) == n % 58
    decreases n
  {
    if n >= 58 {
      DivisionBy58(n - 58);
    }
  }

  function Digits(n: nat, base: nat): (digits: seq<nat>)
    requires base >= 2
    ensures Minimal(digits, base)
    ensures digits == [] <==> n == 0
    decreases n
  {
    if n == 0 then [] else
      PlaceSplit(n, base);
      [Rem(n, base)] + Digits(Quot(n, base), base)
  }

  lemma {:induction false} PlaceSplit(n: nat, base: nat)
    requires base >= 2
    ensures Rem(n, base) < base && n == Place(Rem(n, base), base, Quot(n, base))
    ensures n > 0 ==> Quot(n, base) < n
    ensures Quot(n, base) == 0 ==> Rem(n, base) == n
    decreases n
  {
    if n >= base {
      PlaceSplit(n - base, base);
    }
  }

  lemma {:induction false} PlaceUnique(low: nat, base: nat, high: nat)
    requires low < base
    ensures Quot(Place(low, base, high), base) == high && Rem(Place(low, base, high), base) == low
    ensures Place(low, base, high) == 0 <==> low == 0 && high == 0
    decreases high
  {
    if high > 0 {
      PlaceUnique(low, base, high - 1);
    }
  }

  lemma {:induction false} ValueOfDigits(n: nat, base: nat)
    requires base >= 2
    ensures Value(Digits(n, base), base) == n
    decreases n
  {
    if n != 0 {
      PlaceSplit(n, base);
      ValueOfDigits(Quot(n, base), base);
      assert Digits(n, base)[1..] == Digits(Quot(n, base), base);
    }
  }

  lemma {:induction false} DigitsOfValue(digits: seq<nat>, base: nat)
    requires base >= 2 && Minimal(digits, base)
    ensures Digits(Value(digits, base), base) == digits
  {
    if digits != [] {
      var rest := digits[1..];
      assert rest != [] ==> rest[|rest| - 1] == digits[|digits| - 1];
      DigitsOfValue(rest, base);
      PlaceUnique(digits[0], base, Value(rest, base));
      assert digits == [digits[0]] + rest;
    }
  }

  lemma {:induction false} ValuePadded(digits: seq<nat>, zeros: nat, base: nat)
    ensures Value(digits + Zeros(zeros), base) == Value(digits, base)
  {
    var padded := digits + Zeros(zeros);
    if digits != [] {
      assert padded[1..] == digits[1..] + Zeros(zeros);
      ValuePadded(digits[1..], zeros, base);
    } else if zeros > 0 {
      assert padded[1..] == digits + Zeros(zeros - 1);
      ValuePadded(digits, zeros - 1, base);
    }
  }

  // ---------- the encoder's specification and its inverse ----------

  function LeadingZeros(s: seq<nat>): (k: nat)
    ensures k <= |s|
    ensures forall i :: 0 <= i < k ==> s[i] == 0
    ensures k < |s| ==> s[k] != 0
  {
    if s == [] || s[0] != 0 then 0 else 1 + LeadingZeros(s[1..])
  }

  lemma {:induction false} LeadingZerosOf(zeros: nat, s: seq<nat>)
    requires s == [] || s[0] != 0
    ensures LeadingZeros(Zeros(zeros) + s) == zeros
  {
    if zeros > 0 {
      assert (Zeros(zeros) + s)[1..] == Zeros(zeros - 1) + s;
      LeadingZerosOf(zeros - 1, s);
    } else {
      assert Zeros(zeros) + s == s;
    }
  }

  // Re-express a big-endian number in another base, keeping its leading zeros.
  function Rebase(s: seq<nat>, from: nat, to: nat): (r: seq<nat>)
    requires to >= 2
    ensures Below(r, to)
  {
    var significant := Reverse(Digits(Value(Reverse(s), from), to));
    ReverseBelow(Digits(Value(Reverse(s), from), to), to);
    Zeros(LeadingZeros(s)) + significant
  }

  lemma ReverseBelow(s: seq<nat>, base: nat)
    requires Below(s, base)
    ensures Below(Reverse(s), base)
  {
  }

  lemma RebaseParts(zeros: nat, rest: seq<nat>, from: nat, to: nat)
    requires to >= 2
    requires rest == [] || rest[0] != 0
    ensures Rebase(Zeros(zeros) + rest, from, to) == Zeros(zeros) + Reverse(Digits(Value(Reverse(rest), from), to))
  {
    LeadingZerosOf(zeros, rest);
    ReversePadded(zeros, rest, from);
  }

  lemma ReverseTwice(s: seq<nat>)
    ensures Reverse(Reverse(s)) == s
  {
  }

  lemma ReversedMinimal(rest: seq<nat>, base: nat)
    requires Below(rest, base) && (rest == [] || rest[0] != 0)
    ensures Minimal(Reverse(rest), base)
  {
    ReverseBelow(rest, base);
  }

  lemma ReversedHead(digits: seq<nat>, base: nat)
    requires Minimal(digits, base)
    ensures Reverse(digits) == [] || Reverse(digits)[0] != 0
  {
  }

  lemma SignificantInverse(rest: seq<nat>, from: nat, to: nat)
    requires from >= 2 && to >= 2 && Below(rest, from)
    requires rest == [] || rest[0] != 0
    ensures var image := Reverse(Digits(Value(Reverse(rest), from), to));
            (image == [] || image[0] != 0) && Reverse(Digits(Value(Reverse(image), to), from)) == rest
  {
    var n := Value(Reverse(rest), from);
    var digits := Digits(n, to);
    ReverseTwice(digits);
    ReversedHead(digits, to);
    ValueOfDigits(n, to);
    ReversedMinimal(rest, from);
    DigitsOfValue(Reverse(rest), from);
    ReverseTwice(rest);
  }

  // Changing base and changing back is the identity on every digit string,
  // leading zeros included.
  lemma RebaseInverse(s: seq<nat>, from: nat, to: nat)
    requires from >= 2 && to >= 2 && Below(s, from)
    ensures Rebase(Rebase(s, from, to), to, from) == s
  {
    var zeros := LeadingZeros(s);
    var rest := s[zeros..];
    assert s == Zeros(zeros) + rest;
    var image := Reverse(Digits(Value(Reverse(rest), from), to));
    SignificantInverse(rest, from, to);
    RebaseParts(zeros, rest, from, to);
    RebaseParts(zeros, image, to, from);
  }

  lemma ReversePadded(zeros: nat, rest: seq<nat>, base: nat)
    ensures Value(Reverse(Zeros(zeros) + rest), base) == Value(Reverse(rest), base)
  {
    assert Reverse(Zeros(zeros) + rest) == Reverse(rest) + Zeros(zeros);
    ValuePadded(Reverse(rest), zeros, base);
  }

  function Text(digits: seq<nat>): (text: string)
    requires Below(digits, 58)
    ensures |text| == |digits|
    ensures forall i :: 0 <= i < |digits| ==> text[i] == ALPHABET[digits[i]]
  {
    seq(|digits|, i requires 0 <= i < |digits| => ALPHABET[digits[i]])
  }

  predicate InAlphabet(c: char) {
    '1' <= c <= '9' || 'A' <= c <= 'H' || 'J' <= c <= 'N' || 'P' <= c <= 'Z' || 'a' <= c <= 'k' || 'm' <= c <= 'z'
  }

  function DigitOf(c: char): (d: nat)
    requires InAlphabet(c)
    ensures d < 58
  {
    if c <= '9' then c as int - '1' as int
    else if c <= 'H' then c as int - 'A' as int + 9
    else if c <= 'N' then c as int - 'J' as int + 17
    else if c <= 'Z' then c as int - 'P' as int + 22
    else if c <= 'k' then c as int - 'a' as int + 33
    else c as int - 'm' as int + 44
  }

  lemma FirstHalfAt(d: nat)
    requires d < 22
    ensures ALPHABET[d] == FIRST_HALF[d]
    ensures InAlphabet(FIRST_HALF[d]) && DigitOf(FIRST_HALF[d]) == d
  {
    if d < 9 {
      assert FIRST_HALF[d] == "123456789"[d];
    } else if d < 17 {
      assert FIRST_HALF[d] == "ABCDEFGH"[d - 9];
    } else {
      assert FIRST_HALF[d] == "JKLMN"[d - 17];
    }
  }

  lemma CapitalsAt(d: nat)
    requires d < 11
    ensures InAlphabet(SECOND_HALF[d]) && DigitOf(SECOND_HALF[d]) == d + 22
  {
    assert SECOND_HALF[d] == "PQRSTUVWXYZ"[d];
  }

  lemma SmallLettersAt(d: nat)
    requires 11 <= d < 36
    ensures InAlphabet(SECOND_HALF[d]) && DigitOf(SECOND_HALF[d]) == d + 22
  {
    if d < 22 {
      assert SECOND_HALF[d] == "abcdefghijk"[d - 11];
    } else {
      assert SECOND_HALF[d] == "mnopqrstuvwxyz"[d - 22];
    }
  }

  lemma SecondHalfAt(d: nat)
    requires d < 36
    ensures ALPHABET[d + 22] == SECOND_HALF[d]
    ensures InAlphabet(SECOND_HALF[d]) && DigitOf(SECOND_HALF[d]) == d + 22
  {
    if d < 11 {
      CapitalsAt(d);
    } else {
      SmallLettersAt(d);
    }
  }

  lemma AlphabetAt(d: nat)
    requires d < 58
    ensures InAlphabet(ALPHABET[d]) && DigitOf(ALPHABET[d]) == d
  {
    if d < 22 {
      FirstHalfAt(d);
    } else {
      SecondHalfAt(d - 22);
    }
  }

  lemma SameDigit(c: char, e: char)
    requires InAlphabet(c) && InAlphabet(e) && DigitOf(c) == DigitOf(e)
    ensures c == e
  {
  }

  lemma DigitSpelled(c: char)
    requires InAlphabet(c)
    ensures ALPHABET[DigitOf(c)] == c
  {
    AlphabetAt(DigitOf(c));
    SameDigit(c, ALPHABET[DigitOf(c)]);
  }

  function Encoding(input: seq<byte>): string {
    Text(Rebase(input, 256, 58))
  }

  function Decoding(text: string): Option<seq<byte>> {
    if forall i :: 0 <= i < |text| ==> InAlphabet(text[i]) then
      Some(Rebase(DigitsIn(text), 58, 256))
    else
      None
  }

  function DigitsIn(text: string): (digits: seq<nat>)
    requires forall i :: 0 <= i < |text| ==> InAlphabet(text[i])
    ensures Below(digits, 58) && |digits| == |text|
    ensures forall i :: 0 <= i < |text| ==> digits[i] == DigitOf(text[i])
  {
    seq(|text|, i requires 0 <= i < |text| => DigitOf(text[i]))
  }

  // Decoding inverts encoding on every byte string, the empty one included.
  lemma DecodeEncoding(input: seq<byte>)
    ensures Decoding(Encoding(input)) == Some(input)
  {
    var digits := Rebase(input, 256, 58);
    forall i | 0 <= i < |digits| ensures InAlphabet(Encoding(input)[i]) && DigitOf(Encoding(input)[i]) == digits[i] {
      AlphabetAt(digits[i]);
    }
    assert DigitsIn(Encoding(input)) == digits;
    RebaseInverse(input, 256, 58);
  }

  // And encoding inverts decoding, so the texts over the alphabet and the byte
  // strings correspond one to one.
  lemma EncodeDecoding(text: string)
    requires Decoding(text).Some?
    ensures Encoding(Decoding(text).value) == text
  {
    forall i | 0 <= i < |text| ensures ALPHABET[DigitsIn(text)[i]] == text[i] {
      DigitSpelled(text[i]);
    }
    RebaseInverse(DigitsIn(text), 58, 256);
  }

  lemma EncodingInjective(a: seq<byte>, b: seq<byte>)
    requires Encoding(a) == Encoding(b)
    ensures a == b
  {
    DecodeEncoding(a);
    DecodeEncoding(b);
  }

  // ---------- the encoder ----------

  // What one input byte does to the little-endian digits: multiply by 256, add.
  function Absorb(digits: seq<nat>, carry: nat): seq<nat> {
    if digits == [] then Digits(carry, 58)
    else [(digits[0] * 256 + carry) % 58] + Absorb(digits[1..], (digits[0] * 256 + carry) / 58)
  }

  // The digits of a number with a given last digit.
  lemma DigitsOfPlace(n: nat, low: nat, high: nat)
    requires low < 58 && n == low + 58 * high && n != 0
    ensures Digits(n, 58) == [low] + Digits(high, 58)
  {
    PlaceIs58(low, high);
    PlaceUnique(low, 58, high);
  }

  lemma AbsorbCons(low: nat, rest: seq<nat>, carry: nat, digit: nat, next: nat)
    requires low * 256 + carry == digit + 58 * next && digit < 58
    ensures Absorb([low] + rest, carry) == [digit] + Absorb(rest, next)
  {
    assert ([low] + rest)[1..] == rest;
    assert (low * 256 + carry) % 58 == digit && (low * 256 + carry) / 58 == next;
  }

  // One digit of the induction, without divisions.
  lemma AbsorbStep(n: nat, low: nat, high: nat, carry: nat, digit: nat, next: nat)
    requires n == low + 58 * high && low < 58 && n != 0
    requires low * 256 + carry == digit + 58 * next && digit < 58
    requires Absorb(Digits(high, 58), next) == Digits(256 * high + next, 58)
    ensures Absorb(Digits(n, 58), carry) == Digits(256 * n + carry, 58)
  {
    DigitsOfPlace(n, low, high);
    AbsorbCons(low, Digits(high, 58), carry, digit, next);
    DigitsOfPlace(256 * n + carry, digit, 256 * high + next);
  }

  lemma {:induction false} AbsorbIsMultiplyAdd(n: nat, carry: nat)
    ensures Absorb(Digits(n, 58), carry) == Digits(256 * n + carry, 58)
    decreases n
  {
    if n != 0 {
      var step := n % 58 * 256 + carry;
      AbsorbIsMultiplyAdd(n / 58, step / 58);
      AbsorbStep(n, n % 58, n / 58, carry, step % 58, step / 58);
    }
  }

  lemma AbsorbAt(digits: seq<nat>, i: nat, carry: nat)
    requires i < |digits|
    ensures Absorb(digits[i..], carry)
         == [(carry + digits[i] * 256) % 58] + Absorb(digits[i + 1..], (carry + digits[i] * 256) / 58)
  {
    assert digits[i..][1..] == digits[i + 1..];
  }

  method AbsorbByte(input: seq<nat>, value: byte) returns (digits: seq<nat>)
    requires Below(input, 58)
    ensures digits == Absorb(input, value)
  {
    var carry: nat;
    digits, carry := MultiplyAdd(input, value);
    while carry > 0
      invariant digits + Digits(carry, 58) == Absorb(input, value)
    {
      DivisionBy58(carry);
      AppendAssociates(digits, carry % 58, Digits(carry / 58, 58));
      digits := digits + [carry % 58];
      carry := carry / 58;
    }
  }

  lemma AppendAssociates(done: seq<nat>, d: nat, rest: seq<nat>)
    ensures done + ([d] + rest) == (done + [d]) + rest
  {
  }

  lemma ReplaceNext(done: seq<nat>, input: seq<nat>, i: nat, d: nat)
    requires i < |input| && |done| == i
    ensures (done + input[i..])[i := d] == (done + [d]) + input[i + 1..]
  {
  }

  lemma CarryStaysByte(digit: nat, carry: nat)
    requires digit < 58 && carry <= 255
    ensures (carry + digit * 256) / 58 <= 255
  {
  }

  // The pass has replaced the first i digits.
  ghost predicate Passed(input: seq<nat>, value: nat, i: nat, done: seq<nat>, carry: nat) {
    i <= |input| && |done| == i && carry <= 255 && done + Absorb(input[i..], carry) == Absorb(input, value)
  }

  lemma PassedNext(input: seq<nat>, value: nat, i: nat, done: seq<nat>, carry: nat)
    requires Passed(input, value, i, done, carry) && i < |input| && input[i] < 58
    ensures Passed(input, value, i + 1, done + [(carry + input[i] * 256) % 58], (carry + input[i] * 256) / 58)
  {
    var step := carry + input[i] * 256;
    AbsorbAt(input, i, carry);
    AppendAssociates(done, step % 58, Absorb(input[i + 1..], step / 58));
    CarryStaysByte(input[i], carry);
  }

  // The pass over the digits, in place; the carry never exceeds a byte.
  method MultiplyAdd(input: seq<nat>, value: byte) returns (digits: seq<nat>, carry: nat)
    requires Below(input, 58)
    ensures digits + Digits(carry, 58) == Absorb(input, value) && carry <= 255
  {
    digits, carry := input, value;
    ghost var done: seq<nat> := [];
    assert input[0..] == input && done + Absorb(input, value) == Absorb(input, value);
    for i := 0 to |input|
      invariant Passed(input, value, i, done, carry) && digits == done + input[i..]
    {
      assert digits[i] == input[i];
      PassedNext(input, value, i, done, carry);
      ReplaceNext(done, input, i, (carry + input[i] * 256) % 58);
      carry := carry + digits[i] * 256;
      digits := digits[i := carry % 58];
      done := done + [carry % 58];
      carry := carry / 58;
    }
    assert digits == done;
  }

  method Spell(digits: seq<nat>) returns (text: string)
    requires Below(digits, 58)
    ensures text == Text(Reverse(digits))
  {
    text := "";
    var i := |digits|;
    while i > 0
      invariant 0 <= i <= |digits|
      invariant |text| == |digits| - i
      invariant forall k :: 0 <= k < |text| ==> text[k] == ALPHABET[digits[|digits| - 1 - k]]
    {
      i := i - 1;
      text := text + [ALPHABET[digits[i]]];
    }
  }

  lemma ValueOfPrefix(input: seq<byte>, k: nat)
    requires k < |input|
    ensures Value(Reverse(input[..k + 1]), 256) == 256 * Value(Reverse(input[..k]), 256) + input[k]
  {
    assert Reverse(input[..k + 1])[1..] == Reverse(input[..k]);
    PlaceIs256(input[k], Value(Reverse(input[..k]), 256));
  }

  method Encode(input: seq<byte>) returns (text: string)
    ensures text == Encoding(input)
  {
    if |input| == 0 {
      return "";
    }
    var digits: seq<nat> := [];
    for k := 0 to |input|
      invariant digits == Digits(Value(Reverse(input[..k]), 256), 58)
    {
      AbsorbIsMultiplyAdd(Value(Reverse(input[..k]), 256), input[k]);
      ValueOfPrefix(input, k);
      digits := AbsorbByte(digits, input[k]);
    }
    assert input[..|input|] == input;
    digits := PadZeros(digits, input);
    LastIsRebase(input);
    text := Spell(digits);
  }

  // One zero digit for every leading zero byte.
  method PadZeros(significant: seq<nat>, input: seq<byte>) returns (digits: seq<nat>)
    ensures digits == significant + Zeros(LeadingZeros(input))
  {
    digits := significant;
    for j := 0 to |input|
      invariant j <= LeadingZeros(input)
      invariant digits == significant + Zeros(j)
    {
      if input[j] != 0 {
        break;
      }
      digits := digits + [0];
    }
  }

  lemma LastIsRebase(input: seq<nat>)
    ensures Reverse(Digits(Value(Reverse(input), 256), 58) + Zeros(LeadingZeros(input))) == Rebase(input, 256, 58)
  {
  }
}
