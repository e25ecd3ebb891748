/**
 Every 32-byte key is spelled with 32 to 44 characters of the address alphabet,
 so an encoded program address always passes the address pattern.
 */
module Addresses {
  import opened Bytes
  import opened Base58

  // The pattern used to recognise addresses: 32 to 44 base-58 characters.
  predicate AddressLike(text: string) {
    32 <= |text| <= 44 && forall i :: 0 <= i < |text| ==> InAlphabet(text[i])
  }

  function Pow(base: nat, k: nat): (p: nat)
    ensures base > 0 ==> p > 0
  {
    if k == 0 then 1 else base * Pow(base, k - 1)
  }

  lemma {:induction false} DigitCount(n: nat, base: nat, k: nat)
    requires base >= 2
    ensures |Digits(n, base)| <= k <==> n < Pow(base, k)
    decreases k
  {
    if k > 0 && n > 0 {
      DigitCount(Quot(n, base), base, k - 1);
      PlaceSplit(n, base);
      BelowProduct(Quot(n, base), Rem(n, base), base, Pow(base, k - 1));
    }
  }

  lemma {:induction false} TimesMonotone(x: nat, a: nat, b: nat)
    requires a <= b
    ensures x * a <= x * b
    decreases x
  {
    if x > 0 {
      TimesMonotone(x - 1, a, b);
    }
  }

  lemma BelowProduct(high: nat, low: nat, base: nat, bound: nat)
    requires low < base
    ensures Place(low, base, high) < base * bound <==> high < bound
  {
    PlaceIs(low, base, high);
    if high < bound {
      TimesMonotone(base, high + 1, bound);
    } else {
      TimesMonotone(base, bound, high);
    }
  }

  lemma Scale(a: nat, b: nat, x: nat, y: nat)
    requires a <= b && x <= y
    ensures a * x <= b * y
  {
    TimesMonotone(a, x, y);
    TimesMonotone(y, a, b);
  }

  lemma {:induction false} PowMonotone(a: nat, b: nat, k: nat)
    requires a <= b
    ensures Pow(a, k) <= Pow(b, k)
  {
    if k > 0 {
      PowMonotone(a, b, k - 1);
      Scale(a, b, Pow(a, k - 1), Pow(b, k - 1));
    }
  }

  lemma TimesAssociates(a: nat, b: nat, c: nat)
    ensures a * (b * c) == (a * b) * c
  {
  }

  lemma {:induction false} PowSum(base: nat, j: nat, k: nat)
    ensures Pow(base, j + k) == Pow(base, j) * Pow(base, k)
    decreases j
  {
    if j > 0 {
      PowSum(base, j - 1, k);
      TimesAssociates(base, Pow(base, j - 1), Pow(base, k));
      assert Pow(base, j + k) == base * Pow(base, j - 1 + k);
    }
  }

  // Eleven base-58 digits hold any eight bytes.
  lemma {:induction false} EightBytesInElevenDigits(blocks: nat)
    ensures Pow(256, 8 * blocks) <= Pow(58, 11 * blocks)
  {
    if blocks > 0 {
      EightBytesInElevenDigits(blocks - 1);
      PowSum(256, 8, 8 * (blocks - 1));
      PowSum(58, 11, 11 * (blocks - 1));
      assert Pow(256, 8) == 18446744073709551616;
      assert Pow(58, 11) == 24986644000165537792;
      Scale(Pow(256, 8), Pow(58, 11), Pow(256, 8 * (blocks - 1)), Pow(58, 11 * (blocks - 1)));
    }
  }

  lemma PowStep(base: nat, k: nat)
    ensures Pow(base, k + 1) == base * Pow(base, k)
  {
  }

  // Twelve digits more than bytes are enough up to 32 bytes.
  lemma {:induction false} TwelveExtraDigits(m: nat)
    requires m <= 32
    ensures Pow(256, m) <= Pow(58, m + 12)
    decreases 32 - m
  {
    if m == 32 {
      EightBytesInElevenDigits(4);
    } else {
      TwelveExtraDigits(m + 1);
      PowStep(256, m);
      PowStep(58, m + 12);
    }
  }

  // A number that needs m bytes needs between m and m + 12 digits.
  lemma DigitsOfBytes(n: nat, m: nat)
    requires m <= 32 && |Digits(n, 256)| == m
    ensures m <= |Digits(n, 58)| <= m + 12
  {
    DigitCount(n, 256, m);
    DigitCount(n, 58, m + 12);
    TwelveExtraDigits(m);
    if m > 0 {
      DigitCount(n, 256, m - 1);
      DigitCount(n, 58, m - 1);
      PowMonotone(58, 256, m - 1);
    }
  }

  lemma EncodingLength(input: seq<byte>)
    requires |input| <= 32
    ensures |input| <= |Encoding(input)| <= |input| + 12
  {
    var zeros := LeadingZeros(input);
    var rest: seq<nat> := input[zeros..];
    assert input == Zeros(zeros) + rest;
    RebaseParts(zeros, rest, 256, 58);
    DigitsOfValue(Reverse(rest), 256);
    DigitsOfBytes(Value(Reverse(rest), 256), |rest|);
  }

  lemma KeyEncodesToAddress(key: seq<byte>)
    requires |key| == 32
    ensures AddressLike(Encoding(key))
  {
    EncodingLength(key);
    var digits := Rebase(key, 256, 58);
    forall i | 0 <= i < |digits| ensures InAlphabet(Encoding(key)[i]) {
      AlphabetAt(digits[i]);
    }
  }
}
