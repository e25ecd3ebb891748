/**
 The form of a JSON number (RFC 8259, section 6): an optional minus, an integer
 without leading zeros, an optional fraction and an optional exponent.  The
 decoder's automaton accepts exactly the numbers of that form.
 */
module JsonNumbers {
  import opened JsonText

  // ---------- the form ----------

  predicate AllDigits(s: string) {
    forall i :: 0 <= i < |s| ==> IsDigit(s[i])
  }

  predicate Digits(s: string) {
    s != "" && AllDigits(s)
  }

  predicate MinusPart(s: string) {
    s == "" || s == "-"
  }

  predicate IntegerPart(s: string) {
    s == "0" || (Digits(s) && s[0] != '0')
  }

  predicate FractionPart(s: string) {
    s != "" ==> s[0] == '.' && Digits(s[1..])
  }

  // The sign and the digits of an exponent.
  predicate Power(s: string) {
    Digits(s) || (s != "" && (s[0] == '+' || s[0] == '-') && Digits(s[1..]))
  }

  predicate ExponentPart(s: string) {
    s != "" ==> (s[0] == 'e' || s[0] == 'E') && Power(s[1..])
  }

  predicate HasParts(s: string, minus: string, integer: string, fraction: string, exponent: string) {
    && s == minus + (integer + (fraction + exponent))
    && MinusPart(minus) && IntegerPart(integer) && FractionPart(fraction) && ExponentPart(exponent)
  }

  ghost predicate IsNumber(s: string) {
    exists minus, integer, fraction, exponent :: HasParts(s, minus, integer, fraction, exponent)
  }

  // ---------- what may follow in each state of the automaton ----------

  predicate Ends(state: NumberState, s: string)
    decreases |s|
  {
    if s == "" then NumberMayEnd(state)
    else NumberStep(state, s[0]).Some? && Ends(NumberStep(state, s[0]).value, s[1..])
  }

  lemma {:induction false} EndsExactly(state: NumberState, s: string)
    ensures Ends(state, s) <==> NumberRun(state, s).0 == |s| && NumberMayEnd(NumberRun(state, s).1)
    decreases |s|
  {
    if s != "" && NumberStep(state, s[0]).Some? {
      EndsExactly(NumberStep(state, s[0]).value, s[1..]);
    }
  }

  predicate Repeats(state: NumberState) {
    state == Int || state == Fraction || state == ExpDigits
  }

  // Digits leave these three states as they are.
  lemma {:induction false} EndsAfterDigits(state: NumberState, digits: string, rest: string)
    requires Repeats(state) && AllDigits(digits)
    ensures Ends(state, digits + rest) <==> Ends(state, rest)
    decreases |digits|
  {
    if digits == "" {
      assert digits + rest == rest;
    } else {
      TailOfConcat(digits, rest);
      EndsAfterDigits(state, digits[1..], rest);
    }
  }

  function Leading(s: string): (n: nat)
    ensures n <= |s| && AllDigits(s[..n])
    ensures n < |s| ==> !IsDigit(s[n])
  {
    if s != "" && IsDigit(s[0]) then
      var n := Leading(s[1..]) + 1;
      assert s[..n] == [s[0]] + s[1..][..n - 1];
      n
    else 0
  }

  lemma ExponentEnds(s: string)
    ensures Ends(ExpDigits, s) <==> AllDigits(s)
  {
    var n := Leading(s);
    EndsAfterDigits(ExpDigits, s[..n], s[n..]);
    assert s == s[..n] + s[n..];
    assert n < |s| ==> s[n..][0] == s[n];
  }

  lemma PowerEnds(s: string)
    ensures Ends(ExpSign, s) <==> Digits(s)
    ensures Ends(Exp, s) <==> Power(s)
  {
    if s != "" {
      ExponentEnds(s[1..]);
      assert s == [s[0]] + s[1..];
      if |s| > 1 {
        ExponentEnds(s[2..]);
        assert s[1..][1..] == s[2..] && s[1..] == [s[1]] + s[2..];
      }
    }
  }

  // A rest that begins neither a digit nor a point can only be an exponent.
  lemma TailEnds(state: NumberState, s: string)
    requires state == Zero || state == Int || state == Fraction
    requires s != "" ==> !IsDigit(s[0]) && s[0] != '.'
    ensures Ends(state, s) <==> ExponentPart(s)
  {
    if s != "" {
      PowerEnds(s[1..]);
    }
  }

  lemma DigitsThenExponent(s: string) returns (n: nat)
    ensures n <= |s| && AllDigits(s[..n])
    ensures Ends(Fraction, s) <==> ExponentPart(s[n..])
  {
    n := Leading(s);
    EndsAfterDigits(Fraction, s[..n], s[n..]);
    assert s == s[..n] + s[n..];
    assert n < |s| ==> s[n..][0] == s[n];
    if n < |s| && s[n] == '.' {
      assert !Ends(Fraction, s[n..]) && !ExponentPart(s[n..]);
    } else {
      TailEnds(Fraction, s[n..]);
    }
  }

  // ---------- the parts end where the automaton may ----------

  lemma FractionThenEnds(state: NumberState, fraction: string, exponent: string)
    requires state == Zero || state == Int
    requires FractionPart(fraction) && ExponentPart(exponent)
    ensures Ends(state, fraction + exponent)
  {
    if fraction == "" {
      assert fraction + exponent == exponent;
      TailEnds(state, exponent);
    } else {
      var digits := fraction[1..];
      TailOfConcat(fraction, exponent);
      TailOfConcat(digits, exponent);
      EndsAfterDigits(Fraction, digits[1..], exponent);
      TailEnds(Fraction, exponent);
    }
  }

  lemma IntegerThenEnds(state: NumberState, integer: string, rest: string)
    requires state == Start || state == Minus
    requires IntegerPart(integer) && Ends(if integer == "0" then Zero else Int, rest)
    ensures Ends(state, integer + rest)
  {
    TailOfConcat(integer, rest);
    if integer == "0" {
      assert integer[1..] + rest == rest;
    } else {
      EndsAfterDigits(Int, integer[1..], rest);
    }
  }

  lemma NumberEnds(s: string, minus: string, integer: string, fraction: string, exponent: string)
    requires HasParts(s, minus, integer, fraction, exponent)
    ensures Ends(Start, s)
  {
    FractionThenEnds(if integer == "0" then Zero else Int, fraction, exponent);
    var rest := fraction + exponent;
    if minus == "" {
      IntegerThenEnds(Start, integer, rest);
      assert s == integer + rest;
    } else {
      IntegerThenEnds(Minus, integer, rest);
      assert s[1..] == integer + rest && s[0] == '-';
    }
  }

  // ---------- and what it accepts has the parts ----------

  lemma FractionSplit(state: NumberState, s: string) returns (fraction: string, exponent: string)
    requires state == Zero || state == Int
    requires s != "" ==> !IsDigit(s[0])
    requires Ends(state, s)
    ensures s == fraction + exponent && FractionPart(fraction) && ExponentPart(exponent)
  {
    if s != "" && s[0] == '.' {
      assert Ends(Point, s[1..]);
      var n := DigitsThenExponent(s[2..]);
      fraction, exponent := s[..n + 2], s[n + 2..];
      assert s[1..][1..] == s[2..] && s[2..][n..] == exponent;
      assert fraction[1..] == [s[1]] + s[2..][..n];
    } else {
      fraction, exponent := "", s;
      TailEnds(state, s);
    }
  }

  lemma LeadingDigits(s: string) returns (digits: string, rest: string)
    requires s != "" && IsDigit(s[0])
    ensures s == digits + rest && Digits(digits) && digits[0] == s[0] && (rest != "" ==> !IsDigit(rest[0]))
    ensures s[1..] == digits[1..] + rest
  {
    var n := Leading(s[1..]);
    digits, rest := s[..n + 1], s[n + 1..];
    assert digits == [s[0]] + s[1..][..n];
    assert rest != "" ==> rest[0] == s[1..][n];
  }

  lemma IntegerSplit(state: NumberState, s: string) returns (integer: string, rest: string)
    requires (state == Start && s != "" && s[0] != '-') || state == Minus
    requires Ends(state, s)
    ensures s == integer + rest && IntegerPart(integer) && (rest != "" ==> !IsDigit(rest[0]))
    ensures Ends(if integer == "0" then Zero else Int, rest)
  {
    if s[0] == '0' {
      integer, rest := "0", s[1..];
      assert s == integer + rest;
    } else {
      integer, rest := LeadingDigits(s);
      EndsAfterDigits(Int, integer[1..], rest);
    }
  }

  lemma NumberSplit(s: string)
    requires Ends(Start, s)
    ensures IsNumber(s)
  {
    var minus := if s[0] == '-' then "-" else "";
    var body := s[|minus|..];
    assert s == minus + body;
    var integer, rest := IntegerSplit(if s[0] == '-' then Minus else Start, body);
    var fraction, exponent := FractionSplit(if integer == "0" then Zero else Int, rest);
    assert HasParts(s, minus, integer, fraction, exponent);
  }

  // The automaton accepts exactly the numbers of the grammar.
  lemma ValidNumberExactly(s: string)
    ensures ValidNumber(s) <==> IsNumber(s)
  {
    EndsExactly(Start, s);
    if Ends(Start, s) {
      NumberSplit(s);
    }
    if IsNumber(s) {
      var minus, integer, fraction, exponent :| HasParts(s, minus, integer, fraction, exponent);
      NumberEnds(s, minus, integer, fraction, exponent);
    }
  }
}
