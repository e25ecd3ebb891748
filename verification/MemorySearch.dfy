/**
 The archive as the files that were written into it: searching a page of names by
 prefix compared with looking up by the whole identity.
 */
module MemorySearch {
  import opened Bytes
  import opened JsonValue
  import opened MemoryArchive
  import opened MemoryRedaction
  import opened Strings

  function Filter<T>(hit: T -> bool, s: seq<T>): (r: seq<T>)
    ensures forall f :: f in r ==> f in s
  {
    if s == [] then [] else (if hit(s[0]) then [s[0]] else []) + Filter(hit, s[1..])
  }

  // The position of the first element of a kind, if there is one.
  function First<T>(mine: T -> bool, s: seq<T>): (i: nat)
    ensures i <= |s| && (i < |s| ==> mine(s[i])) && forall j :: 0 <= j < i ==> !mine(s[j])
  {
    if s == [] || mine(s[0]) then 0 else 1 + First(mine, s[1..])
  }

  function FirstOf<T>(mine: T -> bool, s: seq<T>): Option<T> {
    if First(mine, s) == |s| then None else Some(s[First(mine, s)])
  }

  const PAGE := 10

  // A search answers with one page.
  function Page<T>(hits: seq<T>): seq<T> {
    if |hits| > PAGE then hits[..PAGE] else hits
  }

  // Filtering out others keeps the first one.
  lemma {:induction false} FilterFirst<T>(hit: T -> bool, mine: T -> bool, s: seq<T>)
    requires forall f :: f in s && mine(f) ==> hit(f)
    ensures FirstOf(mine, Filter(hit, s)) == FirstOf(mine, s)
    decreases |s|
  {
    if s != [] {
      var rest := s[1..];
      assert s == [s[0]] + rest;
      FilterFirst(hit, mine, rest);
      FilterCons(hit, s[0], rest);
      FirstBehind(mine, s[0], rest);
      FirstBehind(mine, s[0], Filter(hit, rest));
    }
  }

  // It then stands behind those others that are left.
  lemma {:induction false} FilterPlace<T>(hit: T -> bool, mine: T -> bool, s: seq<T>)
    requires forall f :: f in s && mine(f) ==> hit(f)
    ensures First(mine, Filter(hit, s)) == |Filter(hit, s[..First(mine, s)])|
    decreases |s|
  {
    if s != [] {
      var rest := s[1..];
      assert s == [s[0]] + rest;
      FilterPlace(hit, mine, rest);
      FilterCons(hit, s[0], rest);
      FirstBehind(mine, s[0], rest);
      FirstBehind(mine, s[0], Filter(hit, rest));
      FilterBehind(hit, s[0], rest, First(mine, rest));
    }
  }

  lemma FilterCons<T>(hit: T -> bool, head: T, rest: seq<T>)
    ensures Filter(hit, [head] + rest) == if hit(head) then [head] + Filter(hit, rest) else Filter(hit, rest)
  {
    assert ([head] + rest)[1..] == rest;
    assert [] + Filter(hit, rest) == Filter(hit, rest);
  }

  lemma FilterBehind<T>(hit: T -> bool, head: T, rest: seq<T>, n: nat)
    requires n <= |rest|
    ensures |Filter(hit, ([head] + rest)[..n + 1])| == (if hit(head) then 1 else 0) + |Filter(hit, rest[..n])|
  {
    assert ([head] + rest)[..n + 1] == [head] + rest[..n];
    assert ([head] + rest[..n])[1..] == rest[..n];
  }

  lemma FirstBehind<T>(mine: T -> bool, head: T, rest: seq<T>)
    ensures First(mine, [head] + rest) == if mine(head) then 0 else 1 + First(mine, rest)
    ensures FirstOf(mine, [head] + rest) == if mine(head) then Some(head) else FirstOf(mine, rest)
  {
    assert ([head] + rest)[1..] == rest;
  }

  // One page shows the first one exactly when fewer others than it holds come before.
  lemma PageFirst<T>(mine: T -> bool, hits: seq<T>)
    ensures FirstOf(mine, Page(hits)) == FirstOf(mine, hits)
            <==> First(mine, hits) == |hits| || First(mine, hits) < PAGE
    ensures FirstOf(mine, Page(hits)).Some? ==> FirstOf(mine, Page(hits)) == FirstOf(mine, hits)
  {
    var (i, j) := (First(mine, hits), First(mine, Page(hits)));
    assert forall k :: 0 <= k < |Page(hits)| ==> Page(hits)[k] == hits[k];
    assert j < |Page(hits)| ==> i == j;
    assert i < |Page(hits)| ==> i == j;
  }

  // A file that was written for an identity.
  datatype Stored = Stored(id: string, owner: Identity, payload: Value, stamp: string)

  function FileId(f: Stored): string { f.id }

  function NameOf(hash: string -> string, f: Stored): string {
    StoredName(FileName(f.owner.kind, f.owner.network, hash(Material(f.owner)), f.stamp))
  }

  ghost predicate Archived(hash: string -> string, fetch: string -> Fetched, f: Stored) {
    && ValidIdentity(f.owner) && HexDigest(hash(Material(f.owner))) && Timestamp(f.stamp)
    && f.id != "" && Trim(f.id) == f.id && fetch(f.id) == Decoded(Written(hash, f.owner, f.payload))
  }

  ghost predicate Archive(hash: string -> string, fetch: string -> Fetched, files: seq<Stored>) {
    forall f :: f in files ==> Archived(hash, fetch, f)
  }

  // The material of x collides with that of no file.
  ghost predicate CollisionFree(hash: string -> string, files: seq<Stored>, x: Identity) {
    forall f :: f in files ==> !Collision(hash, Material(x), Material(f.owner))
  }

  function Owns(x: Identity): Stored -> bool {
    (f: Stored) => f.owner == x
  }

  // Looking up by the whole identity, among the files in the order of the newest first.
  function Exact(hash: string -> string, files: seq<Stored>, x: Identity): Lookup {
    LookupOf(hash, FirstOf(Owns(x), files))
  }

  function LookupOf(hash: string -> string, f: Option<Stored>): Lookup {
    if f.None? then NotFound else Found(f.value.id, Written(hash, f.value.owner, f.value.payload))
  }

  // The files whose names the search finds.
  function Named(hash: string -> string, search: string -> bool): Stored -> bool {
    (f: Stored) => search(NameOf(hash, f))
  }

  lemma {:induction false} IdsKept(files: seq<Stored>)
    requires forall f :: f in files ==> f.id != "" && Trim(f.id) == f.id
    ensures FileIds(Map(FileId, files)) == Map(FileId, files)
    decreases |files|
  {
    if files != [] {
      var last := |files| - 1;
      IdsKept(files[..last]);
      assert files[last] in files;
      assert Map(FileId, files)[..last] == Map(FileId, files[..last]);
      assert Map(FileId, files) == Map(FileId, files[..last]) + [files[last].id];
    }
  }

  lemma SkippedExactly(hash: string -> string, fetch: string -> Fetched, x: Identity, f: Stored)
    requires ValidIdentity(x) && Archived(hash, fetch, f) && !Collision(hash, Material(x), Material(f.owner))
    ensures Skipped(hash, x, fetch(f.id)) <==> f.owner != x
  {
    MatchesExactlyItsIdentity(hash, x, f.owner, f.payload);
  }

  lemma FirstDecides(hash: string -> string, x: Identity, ids: seq<string>, fetch: string -> Fetched, r: Lookup, i: nat)
    requires Decides(hash, x, ids, fetch, r) && i <= |ids| && AllSkipped(hash, x, ids, fetch, i)
    requires i < |ids| ==> !Skipped(hash, x, fetch(ids[i]))
    ensures r == if i == |ids| then NotFound else Answer(hash, x, ids[i], fetch(ids[i]))
  {
  }

  lemma AnswerOwn(hash: string -> string, fetch: string -> Fetched, x: Identity, f: Stored)
    requires Archived(hash, fetch, f) && f.owner == x && !Skipped(hash, x, fetch(f.id))
    ensures Answer(hash, x, f.id, fetch(f.id)) == LookupOf(hash, Some(f))
  {
  }

  lemma FilesDecide(hash: string -> string, fetch: string -> Fetched, files: seq<Stored>, x: Identity, r: Lookup)
    requires ValidIdentity(x) && Archive(hash, fetch, files) && CollisionFree(hash, files, x)
    requires Decides(hash, x, Map(FileId, files), fetch, r)
    ensures r == Exact(hash, files, x)
  {
    var ids := Map(FileId, files);
    var i := First(Owns(x), files);
    forall j | 0 <= j < i ensures Skipped(hash, x, fetch(ids[j])) {
      SkippedExactly(hash, fetch, x, files[j]);
    }
    if i < |files| {
      SkippedExactly(hash, fetch, x, files[i]);
      AnswerOwn(hash, fetch, x, files[i]);
    }
    FirstDecides(hash, x, ids, fetch, r, i);
  }

  // The search finds at least the names that start with the prefix.
  ghost predicate FindsPrefix(search: string -> bool, prefix: string) {
    forall name :: prefix <= name ==> search(name)
  }

  lemma OwnFileHit(search: string -> bool, hash: string -> string, fetch: string -> Fetched, x: Identity, f: Stored)
    requires Archived(hash, fetch, f) && f.owner == x && FindsPrefix(search, Prefix(x, hash(Material(x))))
    ensures Named(hash, search)(f)
  {
    OwnFileName(hash, fetch, f);
  }

  lemma OwnFileName(hash: string -> string, fetch: string -> Fetched, f: Stored)
    requires Archived(hash, fetch, f)
    ensures Prefix(f.owner, hash(Material(f.owner))) <= NameOf(hash, f)
  {
    NameStartsWithPrefix(f.owner, hash(Material(f.owner)), f.stamp);
  }

  // What the search lists: one page of the files whose names it finds.
  function Hits(hash: string -> string, search: string -> bool, files: seq<Stored>): seq<Stored> {
    Page(Filter(Named(hash, search), files))
  }

  // The answer to the search for the prefix of x is the listing of its hits.
  ghost predicate Searched(hash: string -> string, files: seq<Stored>, x: Identity, search: string -> bool,
                           find: string -> Option<seq<string>>) {
    var prefix := Prefix(x, hash(Material(x)));
    FindsPrefix(search, prefix) && find(prefix) == Some(Map(FileId, Hits(hash, search, files)))
  }

  lemma HitsExactly(hash: string -> string, fetch: string -> Fetched, search: string -> bool, files: seq<Stored>,
                    x: Identity)
    requires Archive(hash, fetch, files) && FindsPrefix(search, Prefix(x, hash(Material(x))))
    ensures var newer := files[..First(Owns(x), files)];
            var hits := Hits(hash, search, files);
            && (FirstOf(Owns(x), hits).Some? ==> FirstOf(Owns(x), hits) == FirstOf(Owns(x), files))
            && (FirstOf(Owns(x), hits) == FirstOf(Owns(x), files)
                <==> FirstOf(Owns(x), files).None? || |Filter(Named(hash, search), newer)| < PAGE)
  {
    forall f | f in files && Owns(x)(f) ensures Named(hash, search)(f) {
      OwnFileHit(search, hash, fetch, x, f);
    }
    FilterFirst(Named(hash, search), Owns(x), files);
    FilterPlace(Named(hash, search), Owns(x), files);
    PageFirst(Owns(x), Filter(Named(hash, search), files));
  }

  // For an archive of written files, in which the requested material collides with
  // none: a request returns the newest file that was written for exactly its kind,
  // network and target, or finds nothing; and it misses that file exactly when ten
  // newer files of other memories share its prefix and fill the page.
  lemma SearchIsExact(hash: string -> string, kind: string, network: string, target: string, files: seq<Stored>,
                      search: string -> bool, find: string -> Option<seq<string>>, fetch: string -> Fetched, r: Lookup)
    requires Archive(hash, fetch, files) && CollisionFree(hash, files, IdentityOf(kind, network, target))
    requires Searched(hash, files, IdentityOf(kind, network, target), search, find)
    requires Answers(hash, IdentityOf(kind, network, target), find, fetch, r)
    ensures var x := IdentityOf(kind, network, target);
            var newer := files[..First(Owns(x), files)];
            && (r == Exact(hash, files, x) || r == NotFound)
            && (r == Exact(hash, files, x)
                <==> Exact(hash, files, x) == NotFound || |Filter(Named(hash, search), newer)| < PAGE)
  {
    IdentityValid(kind, network, target);
    SearchDecides(hash, IdentityOf(kind, network, target), files, search, find, fetch, r);
  }

  lemma SearchDecides(hash: string -> string, x: Identity, files: seq<Stored>, search: string -> bool,
                      find: string -> Option<seq<string>>, fetch: string -> Fetched, r: Lookup)
    requires ValidIdentity(x) && Archive(hash, fetch, files) && CollisionFree(hash, files, x)
    requires Searched(hash, files, x, search, find) && Answers(hash, x, find, fetch, r)
    ensures r == Exact(hash, files, x) || r == NotFound
    ensures r == Exact(hash, files, x)
            <==> Exact(hash, files, x) == NotFound
                 || |Filter(Named(hash, search), files[..First(Owns(x), files)])| < PAGE
  {
    var hits := Hits(hash, search, files);
    assert forall f :: f in hits ==> f in files;
    IdsKept(hits);
    FilesDecide(hash, fetch, hits, x, r);
    HitsExactly(hash, fetch, search, files, x);
  }

  // ---------- a full page hides a memory ----------

  lemma {:induction false} FilterAll<T>(hit: T -> bool, s: seq<T>)
    requires forall f :: f in s ==> hit(f)
    ensures Filter(hit, s) == s
  {
    if s != [] {
      FilterAll(hit, s[1..]);
    }
  }

  lemma {:induction false} FirstLast<T>(mine: T -> bool, others: seq<T>, own: T)
    requires (forall f :: f in others ==> !mine(f)) && mine(own)
    ensures First(mine, others + [own]) == |others|
    decreases |others|
  {
    if others == [] {
      assert others + [own] == [own];
    } else {
      FirstLast(mine, others[1..], own);
      FirstBehind(mine, others[0], others[1..] + [own]);
      assert others + [own] == [others[0]] + (others[1..] + [own]);
    }
  }

  // Files of other memories that the search finds stand before an older file.
  lemma OthersFirst(hash: string -> string, own: Stored, others: seq<Stored>, search: string -> bool)
    requires forall o :: o in others ==> o.owner != own.owner && Named(hash, search)(o)
    ensures var files := others + [own];
            && Exact(hash, files, own.owner) == LookupOf(hash, Some(own))
            && |Filter(Named(hash, search), files[..First(Owns(own.owner), files)])| == |others|
  {
    FirstLast(Owns(own.owner), others, own);
    FilterAll(Named(hash, search), others);
    assert (others + [own])[..|others|] == others;
  }

  // Digests that differ only in their last digit.
  function LateDigest(last: char): string {
    seq(64, i => if i == 63 then last else '0')
  }

  lemma LateDigests(last: char)
    requires '0' <= last <= '9'
    ensures HexDigest(LateDigest(last)) && Short(LateDigest(last)) == Short(LateDigest('0'))
  {
    assert LateDigest(last)[..20] == LateDigest('0')[..20];
  }

  function ExampleHash(x: Identity): string -> string {
    m => LateDigest(if m == Material(x) then '1' else '0')
  }

  function HasId(id: string): Stored -> bool {
    (f: Stored) => f.id == id
  }

  // Reading any of the files by its identifier.
  function FetchFrom(hash: string -> string, files: seq<Stored>): string -> Fetched {
    id => FetchedFrom(hash, FirstOf(HasId(id), files))
  }

  function FetchedFrom(hash: string -> string, f: Option<Stored>): Fetched {
    if f.None? then Unreadable else Decoded(Written(hash, f.value.owner, f.value.payload))
  }

  predicate DistinctIds(files: seq<Stored>) {
    forall i, j :: 0 <= i < j < |files| ==> files[i].id != files[j].id
  }

  lemma FoundById(files: seq<Stored>, f: Stored)
    requires DistinctIds(files) && f in files
    ensures FirstOf(HasId(f.id), files) == Some(f)
  {
    var i := First(HasId(f.id), files);
    var j :| 0 <= j < |files| && files[j] == f;
    assert i == j;
  }

  lemma FetchedOwn(hash: string -> string, files: seq<Stored>, f: Stored)
    requires DistinctIds(files) && f in files
    ensures FetchFrom(hash, files)(f.id) == Decoded(Written(hash, f.owner, f.payload))
  {
    FoundById(files, f);
  }

  predicate Storable(f: Stored) {
    ValidIdentity(f.owner) && Timestamp(f.stamp) && f.id != "" && Trim(f.id) == f.id
  }

  // Names differ in the digest and the stamp at most: dashes inside segments make
  // the names of different kinds and networks alike.
  predicate Alike(x: Identity, y: Identity) {
    "arvis-memory-" + x.kind + "-" + x.network + "-" == "arvis-memory-" + y.kind + "-" + y.network + "-"
  }

  lemma AlikePrefix(x: Identity, y: Identity, d: string, e: string)
    requires Alike(x, y) && Short(d) == Short(e)
    ensures Prefix(x, d) == Prefix(y, e)
  {
  }

  lemma AlikeExample(target: string)
    requires Trimmed(target)
    ensures var (x, y) := (Identity("a", "b-c", target), Identity("a-b", "c", target));
            ValidIdentity(x) && ValidIdentity(y) && x != y && Alike(x, y)
  {
    assert IsSegment("a") && IsSegment("b-c") && IsSegment("a-b") && IsSegment("c");
    assert "arvis-memory-" + "a" + "-" + "b-c" + "-" == "arvis-memory-" + "a-b" + "-" + "c" + "-";
  }

  lemma ExampleDigests(x: Identity, y: Identity)
    requires ValidIdentity(x) && ValidIdentity(y) && x != y
    ensures HexDigest(ExampleHash(x)(Material(x))) && HexDigest(ExampleHash(x)(Material(y)))
    ensures !Collision(ExampleHash(x), Material(x), Material(y))
    ensures Short(ExampleHash(x)(Material(x))) == Short(ExampleHash(x)(Material(y)))
  {
    if Material(x) == Material(y) {
      MaterialInjective(x, y);
    }
    LateDigests('0');
    LateDigests('1');
    assert LateDigest('1')[63] != LateDigest('0')[63];
  }

  lemma OtherNameHit(hash: string -> string, fetch: string -> Fetched, x: Identity, other: Stored,
                     search: string -> bool)
    requires Archived(hash, fetch, other) && Alike(x, other.owner)
    requires Short(hash(Material(x))) == Short(hash(Material(other.owner)))
    requires FindsPrefix(search, Prefix(x, hash(Material(x))))
    ensures Named(hash, search)(other)
  {
    OwnFileName(hash, fetch, other);
    AlikePrefix(x, other.owner, hash(Material(x)), hash(Material(other.owner)));
  }

  ghost predicate Hidden(hash: string -> string, fetch: string -> Fetched, files: seq<Stored>, x: Identity) {
    && Archive(hash, fetch, files) && CollisionFree(hash, files, x) && Exact(hash, files, x) != NotFound
    && forall search, find, r ::
         Searched(hash, files, x, search, find) && Answers(hash, x, find, fetch, r) ==> r == NotFound
  }

  // All files are readable, the digest of the one differs from those of the others,
  // and the names show the same part.
  ghost predicate Confusable(hash: string -> string, fetch: string -> Fetched, own: Stored, others: seq<Stored>) {
    && Archived(hash, fetch, own)
    && forall o :: o in others ==> ConfusedWith(hash, fetch, own.owner, o)
  }

  ghost predicate ConfusedWith(hash: string -> string, fetch: string -> Fetched, x: Identity, o: Stored) {
    && o.owner != x && Alike(x, o.owner) && Archived(hash, fetch, o)
    && !Collision(hash, Material(x), Material(o.owner))
    && Short(hash(Material(x))) == Short(hash(Material(o.owner)))
  }

  lemma FullPageFiles(hash: string -> string, fetch: string -> Fetched, own: Stored, others: seq<Stored>)
    requires Confusable(hash, fetch, own, others)
    ensures Archive(hash, fetch, others + [own]) && CollisionFree(hash, others + [own], own.owner)
    ensures Exact(hash, others + [own], own.owner) != NotFound
  {
    assert forall f :: f in others + [own] ==> f == own || f in others;
    OthersFirst(hash, own, others, _ => true);
  }

  lemma OthersHit(hash: string -> string, fetch: string -> Fetched, own: Stored, others: seq<Stored>,
                  search: string -> bool)
    requires Confusable(hash, fetch, own, others) && FindsPrefix(search, Prefix(own.owner, hash(Material(own.owner))))
    ensures forall o :: o in others ==> o.owner != own.owner && Named(hash, search)(o)
  {
    forall o | o in others ensures o.owner != own.owner && Named(hash, search)(o) {
      assert ConfusedWith(hash, fetch, own.owner, o);
      OtherNameHit(hash, fetch, own.owner, o, search);
    }
  }

  lemma FullPage(hash: string -> string, fetch: string -> Fetched, own: Stored, others: seq<Stored>)
    requires Confusable(hash, fetch, own, others) && |others| >= PAGE
    ensures Hidden(hash, fetch, others + [own], own.owner)
  {
    var (x, files) := (own.owner, others + [own]);
    FullPageFiles(hash, fetch, own, others);
    forall search, find, r | Searched(hash, files, x, search, find) && Answers(hash, x, find, fetch, r)
      ensures r == NotFound
    {
      OthersHit(hash, fetch, own, others, search);
      OthersFirst(hash, own, others, search);
      SearchDecides(hash, x, files, search, find, fetch, r);
    }
  }

  lemma ExampleConfuses(fetch: string -> Fetched, own: Stored, o: Stored)
    requires Storable(own) && Storable(o) && own.owner != o.owner && Alike(own.owner, o.owner)
    requires fetch(o.id) == Decoded(Written(ExampleHash(own.owner), o.owner, o.payload))
    ensures HexDigest(ExampleHash(own.owner)(Material(own.owner)))
    ensures ConfusedWith(ExampleHash(own.owner), fetch, own.owner, o)
  {
    ExampleDigests(own.owner, o.owner);
  }

  lemma ConfusableExists(own: Stored, others: seq<Stored>, y: Identity)
    returns (hash: string -> string, fetch: string -> Fetched)
    requires Storable(own) && (forall o :: o in others ==> Storable(o) && o.owner == y)
    requires DistinctIds(others + [own]) && others != [] && own.owner != y && Alike(own.owner, y)
    ensures Confusable(hash, fetch, own, others)
  {
    var files := others + [own];
    hash := ExampleHash(own.owner);
    fetch := FetchFrom(hash, files);
    forall f | f in files ensures fetch(f.id) == Decoded(Written(hash, f.owner, f.payload)) {
      FetchedOwn(hash, files, f);
    }
    forall o | o in others ensures ConfusedWith(hash, fetch, own.owner, o) {
      assert o in files;
      ExampleConfuses(fetch, own, o);
    }
    assert own in files && others[0] in others && others[0] in files;
    ExampleConfuses(fetch, own, others[0]);
  }

  // For any two memories with alike names there are digests without collision under
  // which ten newer files of the one, or more, hide a file of the other: it is
  // stored, and the request for it finds nothing.
  lemma FullPageHides(own: Stored, others: seq<Stored>, y: Identity)
    returns (hash: string -> string, fetch: string -> Fetched)
    requires Storable(own) && (forall o :: o in others ==> Storable(o) && o.owner == y)
    requires DistinctIds(others + [own]) && |others| >= PAGE && own.owner != y && Alike(own.owner, y)
    ensures Hidden(hash, fetch, others + [own], own.owner)
  {
    hash, fetch := ConfusableExists(own, others, y);
    FullPage(hash, fetch, own, others);
  }

  // ---------- an example ----------

  const YEAR_AGO := "20240101T000000.000000000Z"

  // The stamp of the i-th newest of ten files, a second apart.
  function StampOf(i: nat): string
    requires i < PAGE
  {
    "20250101T00000" + [('9' as int - i) as char] + ".000000000Z"
  }

  function IdOf(i: nat): string {
    seq(i + 1, _ => 'f')
  }

  function OtherFile(y: Identity, i: nat): Stored
    requires i < PAGE
  {
    Stored(IdOf(i), y, REDACTED, StampOf(i))
  }

  lemma StampsValid(i: nat)
    requires i < PAGE
    ensures Timestamp(StampOf(i)) && Timestamp(YEAR_AGO)
  {
    var (head, tail) := ("20250101T00000", ".000000000Z");
    assert forall k :: 0 <= k < 14 ==> StampOf(i)[k] == head[k];
    assert forall k :: 0 <= k < 11 ==> StampOf(i)[15 + k] == tail[k];
  }

  lemma OtherFileStorable(y: Identity, i: nat)
    requires ValidIdentity(y) && i < PAGE
    ensures Storable(OtherFile(y, i)) && OtherFile(y, i).id[0] == 'f'
  {
    StampsValid(i);
    TrimTrimmed(IdOf(i));
  }

  // A memory of kind "a" and network "b-c", and ten files of kind "a-b" and network
  // "c" with the same target: whatever the target, the request for the first finds
  // nothing.
  lemma FullPageExample(target: string)
    returns (own: Stored, others: seq<Stored>, hash: string -> string, fetch: string -> Fetched)
    requires Trimmed(target)
    ensures own.owner == Identity("a", "b-c", target) && |others| == PAGE && DistinctIds(others + [own])
    ensures forall o :: o in others ==> o.owner == Identity("a-b", "c", target)
    ensures Hidden(hash, fetch, others + [own], own.owner)
  {
    AlikeExample(target);
    var y := Identity("a-b", "c", target);
    own := Stored("own", Identity("a", "b-c", target), REDACTED, YEAR_AGO);
    others := seq(PAGE, i requires 0 <= i < PAGE => OtherFile(y, i));
    OthersStorable(y, own, others);
    hash, fetch := FullPageHides(own, others, y);
  }

  lemma OthersStorable(y: Identity, own: Stored, others: seq<Stored>)
    requires ValidIdentity(y) && ValidIdentity(own.owner) && own.id == "own" && own.stamp == YEAR_AGO
    requires |others| == PAGE && forall i :: 0 <= i < PAGE ==> others[i] == OtherFile(y, i)
    ensures Storable(own) && forall o :: o in others ==> Storable(o) && o.owner == y
    ensures DistinctIds(others + [own])
  {
    StampsValid(0);
    TrimTrimmed("own");
    forall i | 0 <= i < PAGE ensures Storable(others[i]) && others[i].owner == y && others[i].id != own.id {
      OtherFileStorable(y, i);
      assert own.id[0] == 'o';
    }
    assert forall i, j :: 0 <= i < j < PAGE ==> |others[i].id| != |others[j].id|;
  }
}
