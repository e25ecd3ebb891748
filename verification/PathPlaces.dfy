/**
 Where a path leads, found by walking over its characters with a stack of folder
 names, and what safe paths are in these terms: they lead to a place inside the
 root, and their cleaned form names that place.
 */
module PathPlaces {
  import opened Paths
  import opened Strings

  // ---------- walking ----------

  // Somewhere above the root, or the folders entered from the root and the last name.
  datatype Place = Above | Inside(names: seq<string>)

  // A name leads into it; "." and no name stay; ".." goes back up.
  function Enter(at: Place, name: string): Place {
    if at.Above? || name == "" || name == "." then at
    else if name != ".." then Inside(at.names + [name])
    else if at.names == [] then Above
    else Inside(at.names[..|at.names| - 1])
  }

  // Walks on from a place, with the part of a name that was read so far.
  function Walk(at: Place, name: string, path: string): Place
    decreases |path|
  {
    if path == "" then Enter(at, name)
    else if path[0] == '/' then Walk(Enter(at, name), "", path[1..])
    else Walk(at, name + [path[0]], path[1..])
  }

  function PlaceOf(path: string): Place {
    Walk(Inside([]), "", path)
  }

  // The path that names a place: its names with slashes between them.
  function NameOf(names: seq<string>): string {
    if names == [] then ""
    else if |names| == 1 then names[0]
    else NameOf(names[..|names| - 1]) + "/" + names[|names| - 1]
  }

  // A file below the root whose first name does not begin with two dots, and that is
  // in no folder ".git".
  predicate Allowed(place: Place) {
    && place.Inside? && place.names != [] && !(".." <= place.names[0])
    && forall i :: 0 <= i < |place.names| - 1 ==> place.names[i] != ".git"
  }

  // ---------- the walk and the components ----------

  function Follow(at: Place, parts: seq<string>): Place
    decreases |parts|
  {
    if parts == [] then at else Follow(Enter(at, parts[0]), parts[1..])
  }

  lemma {:induction false} WalkFollows(at: Place, name: string, path: string)
    ensures Walk(at, name, path) == Follow(at, [name + Split(path)[0]] + Split(path)[1..])
    decreases |path|
  {
    var parts := Split(path);
    if path == "" {
      assert name + "" == name && [name + ""] + [""][1..] == [name];
      assert Follow(at, [name]) == Follow(Enter(at, name), [name][1..]);
    } else if path[0] == '/' {
      var rest := Split(path[1..]);
      WalkFollows(Enter(at, name), "", path[1..]);
      assert "" + rest[0] == rest[0] && [rest[0]] + rest[1..] == rest;
      assert name + "" == name && ([""] + rest)[1..] == rest && ([name] + rest)[1..] == rest;
    } else {
      var rest := Split(path[1..]);
      WalkFollows(at, name + [path[0]], path[1..]);
      assert name + [path[0]] + rest[0] == name + ([path[0]] + rest[0]);
      assert parts[1..] == rest[1..];
    }
  }

  lemma PlaceFollows(path: string)
    ensures PlaceOf(path) == Follow(Inside([]), Split(path))
  {
    WalkFollows(Inside([]), "", path);
    var parts := Split(path);
    assert "" + parts[0] == parts[0] && [parts[0]] + parts[1..] == parts;
  }

  lemma {:induction false} AboveStays(parts: seq<string>)
    ensures Follow(Above, parts) == Above
    decreases |parts|
  {
    if parts != [] {
      AboveStays(parts[1..]);
    }
  }

  // Once a reduced path begins with "..", it always does.
  lemma {:induction false} UpStays(done: seq<string>, parts: seq<string>)
    requires Reduced(done) && done != [] && done[0] == ".." && forall i :: 0 <= i < |parts| ==> '/' !in parts[i]
    ensures Reduce(false, done, parts) != [] && Reduce(false, done, parts)[0] == ".."
    decreases |parts|
  {
    if parts == [] {
    } else if parts[0] == "" || parts[0] == "." {
      UpStays(done, parts[1..]);
    } else if parts[0] == ".." && done[|done| - 1] != ".." {
      UpStays(done[..|done| - 1], parts[1..]);
    } else {
      UpStays(done + [parts[0]], parts[1..]);
    }
  }

  // Names that a walk can have entered.
  predicate Names(names: seq<string>) {
    forall i :: 0 <= i < |names| ==> IsPart(names[i]) && names[i] != ".."
  }

  // Reducing the components finds the place of the walk, or begins with "..".
  lemma {:induction false} ReduceFollows(names: seq<string>, parts: seq<string>)
    requires Names(names) && forall i :: 0 <= i < |parts| ==> '/' !in parts[i]
    ensures var (place, reduced) := (Follow(Inside(names), parts), Reduce(false, names, parts));
            if place.Above? then reduced != [] && reduced[0] == ".." else reduced == place.names && Names(reduced)
    decreases |parts|
  {
    if parts == [] {
    } else if parts[0] == "" || parts[0] == "." {
      ReduceFollows(names, parts[1..]);
    } else if parts[0] == ".." && names != [] {
      ReduceFollows(names[..|names| - 1], parts[1..]);
    } else if parts[0] == ".." {
      AboveStays(parts[1..]);
      assert names + [".."] == [".."];
      UpStays([".."], parts[1..]);
    } else {
      ReduceFollows(names + [parts[0]], parts[1..]);
    }
  }

  // ---------- the name of a place ----------

  lemma {:induction false} JoinAppend(parts: seq<string>, last: string)
    requires parts != []
    ensures Join(parts + [last]) == Join(parts) + "/" + last
    decreases |parts|
  {
    if |parts| == 1 {
      assert parts + [last] == [parts[0], last] && [parts[0], last][1..] == [last];
    } else {
      JoinAppend(parts[1..], last);
      assert (parts + [last])[1..] == parts[1..] + [last];
      assert parts[0] + "/" + (Join(parts[1..]) + "/" + last) == (parts[0] + "/" + Join(parts[1..])) + "/" + last;
    }
  }

  lemma {:induction false} JoinNames(names: seq<string>)
    ensures Join(names) == NameOf(names)
    decreases |names|
  {
    if |names| > 1 {
      var rest := names[..|names| - 1];
      JoinNames(rest);
      JoinAppend(rest, names[|names| - 1]);
      assert names == rest + [names[|names| - 1]];
    }
  }

  // ---------- folders in a name ----------

  lemma {:induction false} ContainsBehind(a: string, b: string)
    requires '/' !in a
    ensures Contains(a + "/" + b, "/.git/") <==> ".git/" <= b || Contains(b, "/.git/")
    decreases |a|
  {
    var s := a + "/" + b;
    if a == "" {
      assert s == "/" + b && s[1..] == b;
      SlashPrefix(b);
    } else {
      assert s[0] == a[0] && a[0] in a && s[1..] == a[1..] + "/" + b;
      ContainsBehind(a[1..], b);
    }
  }

  lemma SlashPrefix(b: string)
    ensures "/.git/" <= "/" + b <==> ".git/" <= b
  {
    if ".git/" <= b {
      assert forall i :: 0 <= i < 5 ==> "/.git/"[i + 1] == ".git/"[i] == b[i] == ("/" + b)[i + 1];
    } else if "/.git/" <= "/" + b {
      assert forall i :: 0 <= i < 5 ==> ".git/"[i] == "/.git/"[i + 1] == ("/" + b)[i + 1] == b[i];
    }
  }

  lemma {:induction false} NoSlashContainsNone(a: string)
    requires '/' !in a
    ensures !Contains(a, "/.git/")
    decreases |a|
  {
    if a != "" {
      assert a[0] in a;
      NoSlashContainsNone(a[1..]);
    }
  }

  lemma GitFirst(a: string, b: string)
    requires '/' !in a
    ensures ".git/" <= a + "/" + b <==> a == ".git"
    ensures !(".git/" <= a)
  {
    var s := a + "/" + b;
    assert s[|a|] == '/';
    if ".git/" <= s {
      assert s[0] == '.' && s[1] == 'g' && s[2] == 'i' && s[3] == 't' && s[4] == '/';
      assert forall i :: 0 <= i < |a| ==> s[i] == a[i] && a[i] in a;
      assert |a| == 4 && a == ".git";
    }
    assert ".git/"[4] == '/';
  }

  predicate InGit(names: seq<string>) {
    exists i :: 0 <= i < |names| - 1 && names[i] == ".git"
  }

  lemma {:induction false} GitFolders(names: seq<string>)
    requires names != [] && forall i :: 0 <= i < |names| ==> '/' !in names[i]
    ensures ".git/" <= Join(names) || Contains(Join(names), "/.git/") <==> InGit(names)
    decreases |names|
  {
    if |names| == 1 {
      NoSlashContainsNone(names[0]);
      GitFirst(names[0], "");
    } else {
      var rest := names[1..];
      GitFolders(rest);
      ContainsBehind(names[0], Join(rest));
      GitFirst(names[0], Join(rest));
      InGitNext(names);
    }
  }

  lemma InGitNext(names: seq<string>)
    requires |names| > 1
    ensures InGit(names) <==> names[0] == ".git" || InGit(names[1..])
  {
    if InGit(names[1..]) {
      var i :| 0 <= i < |names[1..]| - 1 && names[1..][i] == ".git";
      assert names[i + 1] == ".git";
    }
    if InGit(names) && names[0] != ".git" {
      var i :| 0 <= i < |names| - 1 && names[i] == ".git";
      assert names[1..][i - 1] == ".git";
    }
  }

  // ---------- main result ----------

  lemma DotsFirst(names: seq<string>)
    requires names != [] && '/' !in names[0]
    ensures ".." <= Join(names) <==> ".." <= names[0]
  {
    var s := Join(names);
    if |names| > 1 {
      assert s == names[0] + ("/" + Join(names[1..]));
      assert s[|names[0]|] == '/';
    }
    assert forall i :: 0 <= i < |names[0]| ==> s[i] == names[0][i];
  }

  lemma UpFirst(names: seq<string>)
    requires names != [] && names[0] == ".."
    ensures ".." <= Join(names)
  {
    if |names| > 1 {
      assert Join(names) == ".." + ("/" + Join(names[1..]));
    }
  }

  // Cleaning an unrooted path finds its place.
  lemma CleanPlace(path: string)
    requires !Rooted(path)
    ensures PlaceOf(path).Above? ==> ".." <= Clean(path)
    ensures PlaceOf(path) == Inside([]) ==> Clean(path) == "."
    ensures PlaceOf(path).Inside? && PlaceOf(path).names != [] ==>
              Names(PlaceOf(path).names) && Clean(path) == NameOf(PlaceOf(path).names)
  {
    SplitParts(path);
    PlaceFollows(path);
    ReduceFollows([], Split(path));
    var reduced := Reduce(false, [], Split(path));
    if PlaceOf(path).Above? {
      UpFirst(reduced);
    } else if reduced != [] {
      JoinNames(reduced);
    }
  }

  lemma {:induction false} FollowNames(at: seq<string>, names: seq<string>)
    requires Names(names)
    ensures Follow(Inside(at), names) == Inside(at + names)
    decreases |names|
  {
    if names == [] {
      assert at + names == at;
    } else {
      assert IsPart(names[0]) && names[0] != "..";
      FollowNames(at + [names[0]], names[1..]);
      assert (at + [names[0]]) + names[1..] == at + names;
    }
  }

  // The name of a place leads there.
  lemma NameLeadsThere(names: seq<string>)
    requires names != [] && Names(names)
    ensures PlaceOf(NameOf(names)) == Inside(names) && !Rooted(NameOf(names))
  {
    JoinNames(names);
    SplitJoin(names);
    PlaceFollows(Join(names));
    FollowNames([], names);
    assert [] + names == names;
    JoinUnrooted(names);
  }

  lemma UnsafeExactly(names: seq<string>)
    requires names != [] && Names(names)
    ensures Unsafe(Join(names)) <==> !Allowed(Inside(names))
  {
    JoinUnrooted(names);
    DotsFirst(names);
    GitFolders(names);
    DotOnly(names);
  }

  lemma DotOnly(names: seq<string>)
    requires names != [] && Names(names)
    ensures Join(names) != "."
  {
    if |names| > 1 {
      assert |Join(names)| > |names[0]| > 0;
    }
  }

  // A path is safe exactly when it does not start at the root of the file system and
  // leads to an allowed place; and it is then cleaned to the name of that place.
  lemma SafePathExactly(p: string)
    ensures SafeRelativePath(p).Some? <==> !Rooted(Trim(p)) && Allowed(PlaceOf(Trim(p)))
    ensures SafeRelativePath(p).Some? ==>
              && SafeRelativePath(p).value == NameOf(PlaceOf(Trim(p)).names)
              && PlaceOf(SafeRelativePath(p).value) == PlaceOf(Trim(p)) && !Rooted(SafeRelativePath(p).value)
  {
    var t := Trim(p);
    if !Rooted(t) {
      CleanPlace(t);
      if PlaceOf(t).Inside? && PlaceOf(t).names != [] {
        JoinNames(PlaceOf(t).names);
        UnsafeExactly(PlaceOf(t).names);
        NameLeadsThere(PlaceOf(t).names);
      }
    }
  }

  // The path of a file below the root, written as the name of its place.
  predicate StaysInside(q: string) {
    !Rooted(q) && Allowed(PlaceOf(q)) && q == NameOf(PlaceOf(q).names)
  }

  lemma SafeStaysInside(p: string)
    requires SafeRelativePath(p).Some?
    ensures StaysInside(SafeRelativePath(p).value)
  {
    SafePathExactly(p);
  }
}
