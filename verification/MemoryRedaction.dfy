/** The redaction of sensitive members before a memory is archived. */
module MemoryRedaction {
  import opened Bytes
  import opened JsonText
  import opened JsonValue
  import opened ScenarioSafety
  import opened Strings

  const SENSITIVE := ["private_key", "seed_phrase", "mnemonic", "secret", "api_key", "access_token", "refresh_token",
                      "authorization", "password"]

  predicate Sensitive(key: string) {
    exists i :: 0 <= i < |SENSITIVE| && Contains(Lower(Trim(key)), SENSITIVE[i])
  }

  const REDACTED := Scalar(Text("[REDACTED]"))

  function Redact(v: Value): Value
    decreases v
  {
    match v
    case Scalar(_) => v
    case Array(items) => Array(seq(|items|, i requires 0 <= i < |items| => Redact(items[i])))
    case Object(members) => Object(map k | k in members :: if Sensitive(k) then REDACTED else Redact(members[k]))
  }

  predicate PathClean(path: seq<Step>) {
    forall i :: 0 <= i < |path| ==> path[i].Key? ==> !Sensitive(path[i].key)
  }

  lemma {:induction false} RedactedAt(v: Value, path: seq<Step>)
    requires PathClean(path)
    ensures At(Redact(v), path).Some? <==> At(v, path).Some?
    ensures At(v, path).Some? ==> At(Redact(v), path).value == Redact(At(v, path).value)
    decreases |path|
  {
    if path != [] && Child(v, path[0]).Some? {
      assert path[0].Key? ==> !Sensitive(path[0].key);
      assert PathClean(path[1..]);
      RedactedAt(Child(v, path[0]).value, path[1..]);
    }
  }

  // Equal but for what stands under sensitive names.
  predicate AgreeOutside(a: Value, b: Value)
    decreases a
  {
    match a
    case Scalar(_) => b == a
    case Array(items) =>
      && b.Array? && |b.items| == |items|
      && forall i :: 0 <= i < |items| ==> AgreeOutside(items[i], b.items[i])
    case Object(members) =>
      && b.Object? && b.members.Keys == members.Keys
      && forall k :: k in members && !Sensitive(k) ==> AgreeOutside(members[k], b.members[k])
  }

  // The redaction shows exactly what stands outside sensitive names: two documents
  // are redacted alike when they agree there, and only then.
  lemma {:induction false} RedactedAlikeExactly(a: Value, b: Value)
    ensures Redact(a) == Redact(b) <==> AgreeOutside(a, b)
    decreases a
  {
    if a.Array? && b.Array? && |a.items| == |b.items| {
      forall i | 0 <= i < |a.items|
        ensures Redact(a.items[i]) == Redact(b.items[i]) <==> AgreeOutside(a.items[i], b.items[i])
      {
        RedactedAlikeExactly(a.items[i], b.items[i]);
      }
      ItemsAlike(a.items, b.items);
    } else if a.Object? && b.Object? && a.members.Keys == b.members.Keys {
      forall k | k in a.members
        ensures Redact(a.members[k]) == Redact(b.members[k]) <==> AgreeOutside(a.members[k], b.members[k])
      {
        RedactedAlikeExactly(a.members[k], b.members[k]);
      }
      MembersAlike(a.members, b.members);
    } else if Redact(a) == Redact(b) {
      SameContainer(a, b);
    }
  }

  lemma SameContainer(a: Value, b: Value)
    requires Redact(a) == Redact(b)
    ensures a.Scalar? == b.Scalar? && a.Array? == b.Array?
    ensures a.Array? ==> |a.items| == |b.items|
    ensures a.Object? ==> a.members.Keys == b.members.Keys
  {
    if a.Object? {
      assert Redact(a).members.Keys == a.members.Keys && Redact(b).members.Keys == b.members.Keys;
    }
  }

  lemma ItemsAlike(a: seq<Value>, b: seq<Value>)
    requires |a| == |b|
    ensures Redact(Array(a)) == Redact(Array(b)) <==> forall i :: 0 <= i < |a| ==> Redact(a[i]) == Redact(b[i])
  {
    var (x, y) := (Redact(Array(a)).items, Redact(Array(b)).items);
    assert forall i :: 0 <= i < |a| ==> x[i] == Redact(a[i]) && y[i] == Redact(b[i]);
  }

  lemma MembersAlike(a: map<string, Value>, b: map<string, Value>)
    requires a.Keys == b.Keys
    ensures Redact(Object(a)) == Redact(Object(b))
            <==> forall k :: k in a && !Sensitive(k) ==> Redact(a[k]) == Redact(b[k])
  {
    var (x, y) := (Redact(Object(a)).members, Redact(Object(b)).members);
    assert x.Keys == a.Keys && y.Keys == b.Keys;
    assert forall k :: k in a && !Sensitive(k) ==> x[k] == Redact(a[k]) && y[k] == Redact(b[k]);
  }

  // Outside sensitive names the document keeps its shape and its scalars, and
  // nothing is added; under a sensitive name, at any depth, only the marker is left.
  lemma RedactionExact(v: Value, path: seq<Step>, key: string)
    requires PathClean(path)
    ensures At(Redact(v), path).Some? <==> At(v, path).Some?
    ensures At(v, path).Some? && At(v, path).value.Object? ==>
              At(Redact(v), path).value.Object?
              && At(Redact(v), path).value.members.Keys == At(v, path).value.members.Keys
    ensures At(v, path).Some? && At(v, path).value.Array? ==>
              At(Redact(v), path).value.Array? && |At(Redact(v), path).value.items| == |At(v, path).value.items|
    ensures At(v, path).Some? && At(v, path).value.Scalar? ==> At(Redact(v), path) == At(v, path)
    ensures Sensitive(key) && At(v, path).Some? && Child(At(v, path).value, Key(key)).Some? ==>
              At(Redact(v), path).Some? && Child(At(Redact(v), path).value, Key(key)) == Some(REDACTED)
  {
    RedactedAt(v, path);
  }

  // ---------- which names are sensitive ----------

  // A character that counts as the lower-case letter: the letter, its capital, or
  // the Kelvin sign for k and the dotted capital I for i.
  predicate CountsAs(c: char, letter: char) {
    || c == letter || ('A' <= c <= 'Z' && letter as int == c as int + 32)
    || (c as int == 0x212A && letter == 'k') || (c as int == 0x130 && letter == 'i')
  }

  predicate WordAt(key: string, word: string, i: nat) {
    i + |word| <= |key| && forall j :: 0 <= j < |word| ==> CountsAs(key[i + j], word[j])
  }

  ghost predicate HasWord(key: string, word: string) {
    exists i: nat :: WordAt(key, word, i)
  }

  lemma {:induction false} ContainsAt(s: string, part: string, i: nat)
    requires i + |part| <= |s| && s[i..i + |part|] == part
    ensures Contains(s, part)
    decreases i
  {
    if i == 0 {
      assert s[..|part|] == part;
    } else {
      assert s[1..][i - 1..i - 1 + |part|] == s[i..i + |part|];
      ContainsAt(s[1..], part, i - 1);
    }
  }

  lemma {:induction false} ContainedAt(s: string, part: string) returns (i: nat)
    requires Contains(s, part)
    ensures i + |part| <= |s| && s[i..i + |part|] == part
    decreases |s|
  {
    if part <= s {
      i := 0;
    } else {
      i := ContainedAt(s[1..], part);
      assert s[1..][i..i + |part|] == s[i + 1..i + 1 + |part|];
      i := i + 1;
    }
  }

  predicate LowerWord(word: string) {
    word != "" && forall j :: 0 <= j < |word| ==> 'a' <= word[j] <= 'z' || word[j] == '_'
  }

  lemma WordInLower(key: string, word: string)
    requires LowerWord(word)
    ensures Contains(Lower(key), word) <==> HasWord(key, word)
  {
    var lower := Lower(key);
    if Contains(lower, word) {
      var i := ContainedAt(lower, word);
      forall j | 0 <= j < |word| ensures CountsAs(key[i + j], word[j]) {
        assert lower[i + j] == lower[i..i + |word|][j];
      }
      assert WordAt(key, word, i);
    }
    if i: nat :| WordAt(key, word, i) {
      assert lower[i..i + |word|] == word;
      ContainsAt(lower, word, i);
    }
  }

  // White space at the ends holds no part of a word.
  lemma {:induction false} TrimmedLeft(key: string) returns (n: nat)
    ensures n + |TrimLeft(key)| == |key| && key[n..] == TrimLeft(key)
    ensures forall i :: 0 <= i < n ==> IsSpaceRune(key[i])
    decreases |key|
  {
    if key != "" && IsSpaceRune(key[0]) {
      n := TrimmedLeft(key[1..]);
      assert key == [key[0]] + key[1..];
      n := n + 1;
    } else {
      n := 0;
    }
  }

  lemma {:induction false} TrimmedRight(key: string)
    ensures forall i :: |TrimRight(key)| <= i < |key| ==> IsSpaceRune(key[i])
    decreases |key|
  {
    if key != "" && IsSpaceRune(key[|key| - 1]) {
      TrimmedRight(key[..|key| - 1]);
      assert key == key[..|key| - 1] + [key[|key| - 1]];
    }
  }

  lemma NoSpaceCounts(c: char, letter: char)
    requires CountsAs(c, letter) && ('a' <= letter <= 'z' || letter == '_')
    ensures !IsSpaceRune(c)
  {
  }

  lemma WordInTrimmed(key: string, word: string)
    requires LowerWord(word)
    ensures HasWord(Trim(key), word) <==> HasWord(key, word)
  {
    var n := TrimmedLeft(key);
    TrimmedRight(TrimLeft(key));
    var trimmed := Trim(key);
    assert forall i :: 0 <= i < |trimmed| ==> trimmed[i] == key[n + i];
    if i: nat :| WordAt(trimmed, word, i) {
      assert WordAt(key, word, n + i);
    }
    if i: nat :| WordAt(key, word, i) {
      NoSpaceCounts(key[i], word[0]);
      NoSpaceCounts(key[i + |word| - 1], word[|word| - 1]);
      assert i >= n;
      assert TrimLeft(key)[i + |word| - 1 - n] == key[i + |word| - 1];
      assert WordAt(trimmed, word, i - n);
    }
  }

  lemma SensitiveWords()
    ensures forall i :: 0 <= i < |SENSITIVE| ==> LowerWord(SENSITIVE[i])
  {
  }

  // A name is sensitive exactly when one of the words stands anywhere in it, in
  // letters of either case.
  lemma SensitiveExactly(key: string)
    ensures Sensitive(key) <==> exists word :: word in SENSITIVE && HasWord(key, word)
  {
    SensitiveWords();
    forall i | 0 <= i < |SENSITIVE|
      ensures Contains(Lower(Trim(key)), SENSITIVE[i]) <==> HasWord(key, SENSITIVE[i])
    {
      WordInLower(Trim(key), SENSITIVE[i]);
      WordInTrimmed(key, SENSITIVE[i]);
    }
    if word :| word in SENSITIVE && HasWord(key, word) {
      var i :| 0 <= i < |SENSITIVE| && SENSITIVE[i] == word;
    }
  }
}
