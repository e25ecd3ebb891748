/** Relative paths of bundle files: lexical cleaning, and which paths are safe. */
module Paths {
  import opened Bytes
  import opened Strings

  // ---------- lexical cleaning ----------

  function Split(s: string): (r: seq<string>)
    ensures r != []
  {
    if s == "" then [""]
    else if s[0] == '/' then [""] + Split(s[1..])
    else
      var rest := Split(s[1..]);
      [[s[0]] + rest[0]] + rest[1..]
  }

  function Join(parts: seq<string>): string {
    if parts == [] then ""
    else if |parts| == 1 then parts[0]
    else parts[0] + "/" + Join(parts[1..])
  }

  // Drops empty and "." elements and lets ".." take back the element before it;
  // at the root, ".." goes nowhere.
  function Reduce(rooted: bool, done: seq<string>, parts: seq<string>): seq<string>
    decreases |parts|
  {
    if parts == [] then done
    else if parts[0] == "" || parts[0] == "." then Reduce(rooted, done, parts[1..])
    else if parts[0] == ".." && done != [] && done[|done| - 1] != ".."
    then Reduce(rooted, done[..|done| - 1], parts[1..])
    else if parts[0] == ".." && rooted then Reduce(rooted, done, parts[1..])
    else Reduce(rooted, done + [parts[0]], parts[1..])
  }

  predicate Rooted(p: string) {
    p != "" && p[0] == '/'
  }

  // The shortest path name equivalent to p by lexical processing alone.
  function Clean(p: string): string {
    var parts := Reduce(Rooted(p), [], Split(p));
    if Rooted(p) then "/" + Join(parts) else if parts == [] then "." else Join(parts)
  }

  // ---------- safe paths ----------

  predicate Unsafe(clean: string) {
    Rooted(clean) || clean == "." || ".." <= clean || Contains(clean, "/.git/") || ".git/" <= clean
  }

  function SafeRelativePath(p: string): Option<string> {
    var trimmed := Trim(p);
    var clean := Clean(trimmed);
    if trimmed == "" || Unsafe(clean) then None else Some(clean)
  }

  // ---------- cleaning is idempotent ----------

  predicate IsPart(c: string) {
    c != "" && c != "." && '/' !in c
  }

  // Reduced: no empty or "." element, and ".." only at the start.
  predicate Reduced(parts: seq<string>) {
    && (forall i :: 0 <= i < |parts| ==> IsPart(parts[i]))
    && (forall i :: 0 < i < |parts| && parts[i] == ".." ==> parts[i - 1] == "..")
  }

  lemma {:induction false} SplitParts(s: string)
    ensures forall i :: 0 <= i < |Split(s)| ==> '/' !in Split(s)[i]
  {
    if s != "" {
      SplitParts(s[1..]);
    }
  }

  lemma {:induction false} ReduceReduced(done: seq<string>, parts: seq<string>)
    requires Reduced(done) && forall i :: 0 <= i < |parts| ==> '/' !in parts[i]
    ensures Reduced(Reduce(false, done, parts))
    decreases |parts|
  {
    if parts == [] {
    } else if parts[0] == "" || parts[0] == "." {
      ReduceReduced(done, parts[1..]);
    } else if parts[0] == ".." && done != [] && done[|done| - 1] != ".." {
      ReduceReduced(done[..|done| - 1], parts[1..]);
    } else {
      ReduceReduced(done + [parts[0]], parts[1..]);
    }
  }

  lemma {:induction false} ReduceKeepsReduced(done: seq<string>, parts: seq<string>)
    requires Reduced(done + parts)
    ensures Reduce(false, done, parts) == done + parts
    decreases |parts|
  {
    if parts == [] {
      assert done + parts == done;
    } else {
      var all := done + parts;
      assert all[|done|] == parts[0];
      assert done != [] ==> all[|done| - 1] == done[|done| - 1];
      assert (done + [parts[0]]) + parts[1..] == all;
      ReduceKeepsReduced(done + [parts[0]], parts[1..]);
    }
  }

  lemma {:induction false} SplitOne(c: string)
    requires '/' !in c
    ensures Split(c) == [c]
  {
    if c != "" {
      assert c[0] in c;
      SplitOne(c[1..]);
      assert [c[0]] + c[1..] == c;
    }
  }

  lemma {:induction false} SplitFirst(c: string, rest: string)
    requires '/' !in c
    ensures Split(c + "/" + rest) == [c] + Split(rest)
  {
    var s := c + "/" + rest;
    if c == "" {
      assert s[0] == '/' && s[1..] == rest;
    } else {
      assert s[0] == c[0] && c[0] in c && s[1..] == c[1..] + "/" + rest;
      SplitFirst(c[1..], rest);
      assert [c[0]] + c[1..] == c;
    }
  }

  lemma {:induction false} SplitJoin(parts: seq<string>)
    requires parts != [] && forall i :: 0 <= i < |parts| ==> '/' !in parts[i]
    ensures Split(Join(parts)) == parts
    decreases |parts|
  {
    if |parts| == 1 {
      SplitOne(parts[0]);
    } else {
      SplitJoin(parts[1..]);
      SplitFirst(parts[0], Join(parts[1..]));
    }
  }

  lemma JoinUnrooted(parts: seq<string>)
    requires parts != [] && IsPart(parts[0])
    ensures !Rooted(Join(parts)) && Join(parts) != ""
  {
    assert parts[0][0] in parts[0];
  }

  lemma CleanIdempotent(p: string)
    requires !Rooted(p)
    ensures !Rooted(Clean(p)) && Clean(Clean(p)) == Clean(p)
  {
    var parts := Reduce(false, [], Split(p));
    SplitParts(p);
    ReduceReduced([], Split(p));
    if parts == [] {
      SplitOne(".");
    } else {
      JoinUnrooted(parts);
      SplitJoin(parts);
      ReduceKeepsReduced([], parts);
      assert [] + parts == parts;
    }
  }

  // ---------- cleaning never lengthens ----------

  function Weight(parts: seq<string>): nat {
    if parts == [] then 0 else |parts[0]| + 1 + Weight(parts[1..])
  }

  lemma {:induction false} WeightConcat(a: seq<string>, b: seq<string>)
    ensures Weight(a + b) == Weight(a) + Weight(b)
    decreases |a|
  {
    if a == [] {
      assert a + b == b;
    } else {
      assert (a + b)[1..] == a[1..] + b;
      WeightConcat(a[1..], b);
    }
  }

  lemma {:induction false} SplitWeight(s: string)
    ensures Weight(Split(s)) == |s| + 1
  {
    if s != "" {
      SplitWeight(s[1..]);
    }
  }

  lemma {:induction false} JoinWeight(parts: seq<string>)
    requires parts != []
    ensures |Join(parts)| + 1 == Weight(parts)
    decreases |parts|
  {
    if |parts| > 1 {
      JoinWeight(parts[1..]);
    }
  }

  lemma {:induction false} ReduceWeight(rooted: bool, done: seq<string>, parts: seq<string>)
    ensures Weight(Reduce(rooted, done, parts)) <= Weight(done) + Weight(parts)
    decreases |parts|
  {
    if parts == [] {
    } else if parts[0] == "" || parts[0] == "." {
      ReduceWeight(rooted, done, parts[1..]);
    } else if parts[0] == ".." && done != [] && done[|done| - 1] != ".." {
      assert done == done[..|done| - 1] + [done[|done| - 1]];
      WeightConcat(done[..|done| - 1], [done[|done| - 1]]);
      ReduceWeight(rooted, done[..|done| - 1], parts[1..]);
    } else if parts[0] == ".." && rooted {
      ReduceWeight(rooted, done, parts[1..]);
    } else {
      WeightConcat(done, [parts[0]]);
      ReduceWeight(rooted, done + [parts[0]], parts[1..]);
    }
  }

  lemma CleanShortens(p: string)
    requires p != "" && !Rooted(p)
    ensures |Clean(p)| <= |p|
  {
    SplitWeight(p);
    ReduceWeight(false, [], Split(p));
    var parts := Reduce(false, [], Split(p));
    if parts != [] {
      JoinWeight(parts);
    }
  }

  lemma SameLengthTrimmed(s: string)
    requires |Trim(s)| >= |s|
    ensures Trim(s) == s && Trimmed(s)
  {
    TrimTrimmed(s);
  }

  // ---------- main result ----------

  // Cleaning a safe path again accepts it unchanged exactly when the path has no
  // white space at its ends; so safe paths are not always fixed points.
  lemma SafePathFixedExactly(p: string)
    requires SafeRelativePath(p).Some?
    ensures var clean := SafeRelativePath(p).value;
            SafeRelativePath(clean) == Some(clean) <==> Trimmed(clean)
  {
    var trimmed := Trim(p);
    var clean := Clean(trimmed);
    assert !Rooted(trimmed);
    CleanIdempotent(trimmed);
    TrimTrimmed(clean);
    if SafeRelativePath(clean) == Some(clean) {
      var again := Trim(clean);
      assert !Rooted(again);
      CleanShortens(again);
      SameLengthTrimmed(clean);
    } else if Trimmed(clean) {
      CleanNotEmpty(trimmed);
    }
  }

  lemma CleanNotEmpty(p: string)
    requires !Rooted(p)
    ensures Clean(p) != ""
  {
    var parts := Reduce(false, [], Split(p));
    SplitParts(p);
    ReduceReduced([], Split(p));
    if parts != [] {
      JoinUnrooted(parts);
    }
  }

  lemma CleanOne(c: string)
    requires IsPart(c) && c != ".."
    ensures Clean(c) == c && Clean("./" + c) == c
  {
    assert c[0] in c;
    SplitOne(c);
    assert "./" + c == "." + "/" + c;
    SplitFirst(".", c);
    assert [".", c][1..] == [c];
    assert Reduce(false, [], [c]) == Reduce(false, [c], []) == [c];
  }

  lemma ShortContainsNothing(s: string, part: string)
    requires |s| < |part|
    ensures !Contains(s, part)
  {
  }

  lemma PlainPartIsSafe(c: string)
    requires IsPart(c) && c[0] != '.' && |c| < 6
    ensures !Unsafe(c)
  {
    ShortContainsNothing(c, "/.git/");
    assert c[0] in c;
  }

  lemma TrimLeadingSpace(c: string)
    requires Trimmed(c) && c != ""
    ensures Trim(" " + c) == c
  {
    assert (" " + c)[1..] == c;
    TrimTrimmed(c);
  }

  lemma TrimDotSlash(s: string)
    requires s != "" && !IsSpaceRune(s[|s| - 1])
    ensures Trim("./" + s) == "./" + s
  {
    var p := "./" + s;
    assert p[|p| - 1] == s[|s| - 1];
    TrimTrimmed(p);
  }

  lemma SafeOf(p: string, clean: string)
    requires Trim(p) != "" && Clean(Trim(p)) == clean && !Unsafe(clean)
    ensures SafeRelativePath(p) == Some(clean)
  {
  }

  lemma SpacedPart(c: string)
    requires IsPart(c) && |c| < 5
    ensures IsPart(" " + c) && " " + c != ".." && !Unsafe(" " + c)
    ensures (" " + c)[|c|] == c[|c| - 1]
  {
    var s := " " + c;
    assert s[0] == ' ' && forall i :: 0 <= i < |c| ==> s[i + 1] == c[i];
    PlainPartIsSafe(s);
  }

  // A safe path need not be a fixed point: white space that trimming did not
  // reach comes to the front when "./" is cleaned away.
  lemma SpaceSurvivesCleaning(c: string)
    requires IsPart(c) && Trimmed(c) && c[0] != '.' && |c| < 5
    ensures SafeRelativePath("./" + (" " + c)) == Some(" " + c) && SafeRelativePath(" " + c) == Some(c)
  {
    SpacedPart(c);
    CleanOne(" " + c);
    TrimDotSlash(" " + c);
    SafeOf("./" + (" " + c), " " + c);
    SpaceTrimmedNext(c);
  }

  lemma SpaceTrimmedNext(c: string)
    requires IsPart(c) && Trimmed(c) && c[0] != '.' && |c| < 5
    ensures SafeRelativePath(" " + c) == Some(c)
  {
    CleanOne(c);
    PlainPartIsSafe(c);
    TrimLeadingSpace(c);
    SafeOf(" " + c, c);
  }

  lemma TwoPartsClean(a: string, b: string)
    requires IsPart(a) && IsPart(b) && a != ".." && b != ".."
    ensures Clean(a + "/" + b) == a + "/" + b
  {
    SplitFirst(a, b);
    SplitOne(b);
    ReduceKeepsReduced([], [a, b]);
    assert [] + [a, b] == [a, b] == [a] + [b] && [a, b][1..] == [b];
    assert Join([a, b]) == a + "/" + Join([b]);
    assert (a + "/" + b)[0] == a[0] && a[0] in a;
  }

  lemma {:induction false} SlashesOf(s: string, part: string)
    requires Contains(s, part)
    ensures exists i :: 0 <= i <= |s| - |part| && OccursAt(s, part, i)
    decreases |s|
  {
    if part <= s {
      assert OccursAt(s, part, 0);
    } else {
      SlashesOf(s[1..], part);
      var i :| 0 <= i <= |s[1..]| - |part| && OccursAt(s[1..], part, i);
      assert OccursAt(s, part, i + 1);
    }
  }

  predicate OccursAt(s: string, part: string, i: nat)
    requires i + |part| <= |s|
  {
    forall k :: 0 <= k < |part| ==> s[i + k] == part[k]
  }

  lemma OneSlash(a: string, b: string, i: nat)
    requires '/' !in a && '/' !in b && i < |a| + 1 + |b| && (a + "/" + b)[i] == '/'
    ensures i == |a|
  {
    var s := a + "/" + b;
    assert forall j :: 0 <= j < |a| ==> s[j] == a[j];
    assert forall j :: 0 <= j < |b| ==> s[|a| + 1 + j] == b[j];
  }

  lemma GitOccursNowhere(s: string, a: string, b: string, i: nat)
    requires '/' !in a && '/' !in b && s == a + "/" + b && i + 6 <= |s|
    ensures !OccursAt(s, "/.git/", i)
  {
    assert OccursAt(s, "/.git/", i) ==> s[i + 0] == "/.git/"[0] && s[i + 5] == "/.git/"[5];
    if s[i] == '/' {
      OneSlash(a, b, i);
    }
    if s[i + 5] == '/' {
      OneSlash(a, b, i + 5);
    }
  }

  lemma NoGitFolder(s: string, a: string, b: string)
    requires '/' !in a && '/' !in b && s == a + "/" + b
    ensures !Contains(s, "/.git/")
  {
    forall i | 0 <= i <= |s| - 6 ensures !OccursAt(s, "/.git/", i) {
      GitOccursNowhere(s, a, b, i);
    }
    if Contains(s, "/.git/") {
      SlashesOf(s, "/.git/");
    }
  }

  // Two cleanings need not be enough either: each brings one more space to the
  // front.
  lemma SpaceSurvivesTwice(c: string)
    requires IsPart(c) && Trimmed(c) && c[0] != '.' && |c| < 5
    ensures SafeRelativePath("./ ./ " + c) == Some(" ./ " + c) && SafeRelativePath(" ./ " + c) == Some(" " + c)
  {
    var s := " " + c;
    SpacedPart(c);
    SpacedFolder(s);
    TrimDotSlash(" ." + "/" + s);
    assert "./ ./ " + c == "./" + (" ." + "/" + s) && " ./ " + c == " ." + "/" + s;
    SafeOf("./ ./ " + c, " ./ " + c);
    TrimDotSlash(s);
    TrimLeadingSpace("./" + s);
    assert " ./ " + c == " " + ("./" + s);
    TrimTrimmed("./" + s);
    SpacedCleaned(c);
  }

  lemma SpacedCleaned(c: string)
    requires IsPart(c) && Trimmed(c) && c[0] != '.' && |c| < 5 && Trim(" ./ " + c) == "./" + (" " + c)
    ensures SafeRelativePath(" ./ " + c) == Some(" " + c)
  {
    SpacedPart(c);
    CleanOne(" " + c);
    SafeOf(" ./ " + c, " " + c);
  }

  lemma CleanDotSlash(t: string)
    requires t != "" && !Rooted(t)
    ensures Clean("./" + t) == Clean(t)
  {
    assert "./" + t == "." + "/" + t;
    SplitFirst(".", t);
    assert (["."] + Split(t))[1..] == Split(t);
  }

  lemma SpacedFolder(s: string)
    requires IsPart(s) && s != ".." && s[0] == ' '
    ensures Clean("./" + (" ." + "/" + s)) == " ." + "/" + s && !Unsafe(" ." + "/" + s)
  {
    var t := " ." + "/" + s;
    assert t[0] == ' ';
    CleanDotSlash(t);
    TwoPartsClean(" .", s);
    NoGitFolder(t, " .", s);
  }
}
