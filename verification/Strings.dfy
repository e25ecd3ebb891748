/** String vocabulary: trimming, lower-casing and sorting as the service does them. */
module Strings {
  import opened JsonCanonical

  // White space in the sense of Unicode.
  predicate IsSpaceRune(c: char) {
    var u := c as int;
    9 <= u <= 13 || u == 32 || u == 0x85 || u == 0xA0 || u == 0x1680 || 0x2000 <= u <= 0x200A
    || u == 0x2028 || u == 0x2029 || u == 0x202F || u == 0x205F || u == 0x3000
  }

  function TrimLeft(s: string): (r: string)
    ensures |r| <= |s|
    ensures r != "" ==> !IsSpaceRune(r[0]) && r[|r| - 1] == s[|s| - 1]
    ensures s != "" && !IsSpaceRune(s[0]) ==> r == s
  {
    if s != "" && IsSpaceRune(s[0]) then TrimLeft(s[1..]) else s
  }

  function TrimRight(s: string): (r: string)
    ensures r <= s
    ensures r != "" ==> !IsSpaceRune(r[|r| - 1])
    ensures s != "" && !IsSpaceRune(s[|s| - 1]) ==> r == s
  {
    if s != "" && IsSpaceRune(s[|s| - 1]) then TrimRight(s[..|s| - 1]) else s
  }

  function Trim(s: string): string {
    TrimRight(TrimLeft(s))
  }

  predicate Trimmed(s: string) {
    s != "" ==> !IsSpaceRune(s[0]) && !IsSpaceRune(s[|s| - 1])
  }

  lemma TrimTrimmed(s: string)
    ensures Trimmed(Trim(s))
    ensures Trimmed(s) ==> Trim(s) == s
    ensures Trim(Trim(s)) == Trim(s)
  {
  }

  // Lower case of ASCII letters and of the two other characters whose lower
  // case is an ASCII letter.
  function LowerRune(c: char): char {
    if 'A' <= c <= 'Z' then (c as int + 32) as char
    else if c as int == 0x212A then 'k'
    else if c as int == 0x130 then 'i'
    else c
  }

  function Lower(s: string): (r: string)
    ensures |r| == |s|
    ensures forall i :: 0 <= i < |s| ==> r[i] == LowerRune(s[i])
  {
    seq(|s|, i requires 0 <= i < |s| => LowerRune(s[i]))
  }

  predicate Contains(s: string, part: string) {
    part <= s || (s != "" && Contains(s[1..], part))
  }

  predicate AtMost(a: string, b: string) {
    a == b || Less(a, b)
  }

  predicate Ordered<T>(s: seq<T>, key: T -> string) {
    forall i, j :: 0 <= i < j < |s| ==> AtMost(key(s[i]), key(s[j]))
  }

  predicate DistinctKeys<T>(s: seq<T>, key: T -> string) {
    forall i, j :: 0 <= i < j < |s| ==> key(s[i]) != key(s[j])
  }

  lemma PrefixNext<T>(s: seq<T>, i: nat)
    requires i < |s|
    ensures s[..i + 1] == s[..i] + [s[i]]
  {
  }

  // Sorting promises no more than an ordered arrangement: elements with equal
  // keys may come out in any order.
  method SortBy<T>(s: seq<T>, key: T -> string) returns (r: seq<T>)
    ensures multiset(r) == multiset(s) && Ordered(r, key)
  {
    r := [];
    for n := 0 to |s|
      invariant multiset(r) == multiset(s[..n]) && Ordered(r, key)
    {
      var i := 0;
      while i < |r| && AtMost(key(r[i]), key(s[n]))
        invariant 0 <= i <= |r|
        invariant forall k :: 0 <= k < i ==> AtMost(key(r[k]), key(s[n]))
      {
        i := i + 1;
      }
      InsertOrdered(r, key, i, s[n]);
      InsertMultiset(r, i, s[n]);
      r := r[..i] + [s[n]] + r[i..];
      PrefixNext(s, n);
    }
    assert s[..|s|] == s;
  }

  lemma InsertMultiset<T>(r: seq<T>, i: nat, x: T)
    requires i <= |r|
    ensures multiset(r[..i] + [x] + r[i..]) == multiset(r) + multiset{x}
  {
    assert r == r[..i] + r[i..];
  }

  lemma AtMostTransitive(a: string, b: string, c: string)
    requires AtMost(a, b) && AtMost(b, c)
    ensures AtMost(a, c)
  {
    if Less(a, b) && Less(b, c) {
      LessTransitive(a, b, c);
    }
  }

  lemma InsertOrdered<T>(s: seq<T>, key: T -> string, i: nat, x: T)
    requires Ordered(s, key) && i <= |s|
    requires forall k :: 0 <= k < i ==> AtMost(key(s[k]), key(x))
    requires i < |s| ==> !AtMost(key(s[i]), key(x))
    ensures Ordered(s[..i] + [x] + s[i..], key)
  {
    forall k | i <= k < |s| ensures AtMost(key(x), key(s[k])) {
      LessTotal(key(x), key(s[i]));
      AtMostTransitive(key(x), key(s[i]), key(s[k]));
    }
  }

  // The distinct non-empty trimmed values, in increasing order.
  function SortedUnique(values: seq<string>): seq<string> {
    Sorted(set v | v in values && Trim(v) != "" :: Trim(v))
  }

  // A strictly increasing sequence is determined by its members.
  lemma {:induction false} IncreasingIsSorted(s: seq<string>, keys: set<string>)
    requires forall i, j :: 0 <= i < j < |s| ==> Less(s[i], s[j])
    requires forall x :: x in s <==> x in keys
    ensures s == Sorted(keys)
    decreases |s|
  {
    if s == [] {
      assert keys == {};
    } else {
      HeadIsLeast(s, keys);
      IncreasingIsSorted(s[1..], keys - {s[0]});
      SortedFrom(s[0], keys);
    }
  }

  lemma SortedFrom(k: string, keys: set<string>)
    requires IsLeast(k, keys)
    ensures Sorted(keys) == [k] + Sorted(keys - {k})
  {
    LeastUnique(keys);
  }

  lemma HeadIsLeast(s: seq<string>, keys: set<string>)
    requires s != [] && forall i, j :: 0 <= i < j < |s| ==> Less(s[i], s[j])
    requires forall x :: x in s <==> x in keys
    ensures IsLeast(s[0], keys)
    ensures forall x :: x in s[1..] <==> x in keys - {s[0]}
  {
    assert s[0] in s;
    LessTotal(s[0], s[0]);
    forall x | x in keys && x != s[0] ensures Less(s[0], x) && x in s[1..] {
      var i :| 0 <= i < |s| && s[i] == x;
      assert s[1..][i - 1] == x;
    }
    forall x | x in s[1..] ensures x in keys - {s[0]} {
      var i :| 0 <= i < |s| - 1 && s[1..][i] == x;
      assert s[i + 1] == x && x in s;
    }
  }

  // Ordered with distinct keys is strictly increasing.
  lemma OrderedDistinct<T>(s: seq<T>, key: T -> string)
    requires Ordered(s, key) && DistinctKeys(s, key)
    ensures forall i, j :: 0 <= i < j < |s| ==> Less(key(s[i]), key(s[j]))
  {
  }

  // The keys of an ordered sequence without repeated keys.
  lemma OrderedKeys<T>(s: seq<T>, key: T -> string, keys: set<string>)
    requires Ordered(s, key) && DistinctKeys(s, key)
    requires forall x :: x in s ==> key(x) in keys
    requires forall k :: k in keys ==> exists x :: x in s && key(x) == k
    ensures Map(key, s) == Sorted(keys)
  {
    OrderedDistinct(s, key);
    var m := Map(key, s);
    forall k ensures k in m <==> k in keys {
      if k in m {
        var i :| 0 <= i < |s| && m[i] == k;
        assert s[i] in s;
      }
      if k in keys {
        var x :| x in s && key(x) == k;
        var i :| 0 <= i < |s| && s[i] == x;
        assert m[i] == k;
      }
    }
    IncreasingIsSorted(m, keys);
  }

  // Distinctness of keys does not depend on the arrangement.
  lemma {:induction false} DistinctPermutation<T>(a: seq<T>, b: seq<T>, key: T -> string)
    requires multiset(a) == multiset(b) && DistinctKeys(a, key)
    ensures DistinctKeys(b, key)
  {
    forall i, j | 0 <= i < j < |b| ensures key(b[i]) != key(b[j]) {
      assert b[i] in multiset(b) && b[j] in multiset(b);
      assert b[i] in multiset(a) && b[j] in multiset(a);
      var p :| 0 <= p < |a| && a[p] == b[i];
      var q :| 0 <= q < |a| && a[q] == b[j];
      if p == q {
        TwiceInMultiset(b, i, j);
        OnceInMultiset(a, key, p);
      }
    }
  }

  lemma TwiceInMultiset<T>(s: seq<T>, i: nat, j: nat)
    requires i < j < |s| && s[i] == s[j]
    ensures multiset(s)[s[i]] >= 2
  {
    assert s == s[..j] + [s[j]] + s[j + 1..];
    assert s[..j][i] in multiset(s[..j]);
  }

  lemma OnceInMultiset<T>(s: seq<T>, key: T -> string, p: nat)
    requires DistinctKeys(s, key) && p < |s|
    ensures multiset(s)[s[p]] == 1
  {
    assert s == s[..p] + [s[p]] + s[p + 1..];
    assert s[p] !in s[..p] && s[p] !in s[p + 1..];
  }

  function Map<T, U>(f: T -> U, s: seq<T>): (r: seq<U>)
    ensures |r| == |s|
    ensures forall i :: 0 <= i < |s| ==> r[i] == f(s[i])
  {
    seq(|s|, i requires 0 <= i < |s| => f(s[i]))
  }

  lemma MapRemove<T, U>(f: T -> U, s: seq<T>, j: nat)
    requires j < |s|
    ensures multiset(s[..j] + s[j + 1..]) == multiset(s) - multiset{s[j]}
    ensures multiset(Map(f, s)) == multiset(Map(f, s[..j] + s[j + 1..])) + multiset{f(s[j])}
  {
    assert s == s[..j] + [s[j]] + s[j + 1..];
    var m := Map(f, s);
    assert m == m[..j] + [m[j]] + m[j + 1..];
    assert Map(f, s[..j] + s[j + 1..]) == m[..j] + m[j + 1..];
  }

  lemma MapHead<T, U>(f: T -> U, s: seq<T>)
    requires s != []
    ensures multiset(s[1..]) == multiset(s) - multiset{s[0]}
    ensures multiset(Map(f, s)) == multiset(Map(f, s[1..])) + multiset{f(s[0])}
  {
    assert s == [s[0]] + s[1..];
    assert Map(f, s) == [f(s[0])] + Map(f, s[1..]);
  }

  // Element-wise images of two arrangements are arrangements of each other.
  lemma {:induction false} MapPermutation<T, U>(f: T -> U, a: seq<T>, b: seq<T>)
    requires multiset(a) == multiset(b)
    ensures multiset(Map(f, a)) == multiset(Map(f, b))
    decreases |a|
  {
    if a == [] {
      assert |multiset(b)| == 0;
    } else {
      assert a[0] in multiset(b);
      var j :| 0 <= j < |b| && b[j] == a[0];
      MapRemove(f, b, j);
      MapHead(f, a);
      MapPermutation(f, a[1..], b[..j] + b[j + 1..]);
    }
  }

  // Arrangements have the same members.
  lemma SameMembers<T>(a: seq<T>, b: seq<T>)
    requires multiset(a) == multiset(b)
    ensures |a| == |b|
    ensures forall x :: x in a <==> x in b
  {
    assert |multiset(a)| == |a| && |multiset(b)| == |b|;
    forall x ensures x in a <==> x in b {
      assert x in a <==> x in multiset(a);
      assert x in b <==> x in multiset(b);
    }
  }

  // ---------- sorted keys ----------

  function Itself(s: string): string { s }

  lemma DistinctAppend(list: seq<string>, x: string)
    requires DistinctKeys(list, Itself) && x !in list
    ensures DistinctKeys(list + [x], Itself)
  {
    forall i, j | 0 <= i < j < |list| + 1 ensures Itself((list + [x])[i]) != Itself((list + [x])[j]) {
      assert (list + [x])[i] in list;
    }
  }

  // Lists the keys in some order and sorts them.
  method SortKeys(keys: set<string>) returns (r: seq<string>)
    ensures r == Sorted(keys)
  {
    var list: seq<string> := [];
    var left := keys;
    while left != {}
      invariant left <= keys
      invariant forall x :: x in list <==> x in keys - left
      invariant DistinctKeys(list, Itself)
      decreases |left|
    {
      var x :| x in left;
      left := left - {x};
      DistinctAppend(list, x);
      list := list + [x];
    }
    r := SortBy(list, Itself);
    SameMembers(r, list);
    DistinctPermutation(list, r, Itself);
    OrderedDistinct(r, Itself);
    assert forall i, j :: 0 <= i < j < |r| ==> Less(Itself(r[i]), Itself(r[j]));
    IncreasingIsSorted(r, keys);
  }
}
