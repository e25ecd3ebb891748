/**
 Two bundles that the producer accepts, one of which the check refuses, with an
 encoding of manifests that loses nothing.
 */
module MaterializationExample {
  import opened Bytes
  import opened JsonCanonical
  import opened MaterialText
  import opened Materialization
  import opened MaterializationCheck
  import opened Paths
  import opened Strings

  // ---------- an encoding from which the manifest can be read back ----------

  // Every part marks its own end, so parts can follow each other.
  function EncodeNat(n: nat): (r: seq<byte>)
    ensures |r| == n + 1
  {
    if n == 0 then [0] else [1] + EncodeNat(n - 1)
  }

  function EncodeList<T>(encode: T -> seq<byte>, list: seq<T>): seq<byte> {
    if list == [] then [0] else [1] + (encode(list[0]) + EncodeList(encode, list[1..]))
  }

  function EncodeChar(c: char): seq<byte> {
    EncodeNat(c as int)
  }

  function EncodeText(s: string): seq<byte> {
    EncodeList(EncodeChar, s)
  }

  function EncodeTexts(texts: seq<string>): seq<byte> {
    EncodeList(EncodeText, texts)
  }

  function Bit(b: bool): byte {
    if b then 1 else 0
  }

  function EncodeFile(f: File): seq<byte> {
    EncodeTexts([f.path, f.hash]) + (EncodeNat(f.size) + [Bit(f.generated)])
  }

  function EncodeFiles(files: seq<File>): seq<byte> {
    EncodeList(EncodeFile, files)
  }

  function Texts(m: Manifest): seq<string> {
    [m.profileRef, m.profileHash, m.sourceRef, m.sourceHash, m.programId, m.network, m.engine,
     m.cargoManifestHash, m.cargoLockHash]
  }

  function Flags(m: Manifest): seq<byte> {
    [Bit(m.networkAccess), Bit(m.dependencyResolution), Bit(m.sourceExecuted), Bit(m.harnessExecuted),
     Bit(m.mainnetTransactionSent), Bit(m.verdictAuthority)]
  }

  function Encode(m: Manifest): seq<byte> {
    EncodeTexts(Texts(m)) + (EncodeFiles(m.files) + Flags(m))
  }

  // Whatever follows an encoded value, the value and what follows are determined.
  ghost predicate SelfEnding<T(!new)>(encode: T -> seq<byte>) {
    forall a, x, b, y :: encode(a) + x == encode(b) + y ==> a == b && x == y
  }

  // The first byte tells an end from an element, and the rest starts behind it.
  lemma Ahead(a: byte, p: seq<byte>, x: seq<byte>, b: byte, q: seq<byte>, y: seq<byte>)
    requires [a] + p + x == [b] + q + y
    ensures a == b && p + x == q + y
  {
    assert a == ([a] + p + x)[0] && b == ([b] + q + y)[0];
    assert p + x == ([a] + p + x)[1..] && q + y == ([b] + q + y)[1..];
  }

  lemma {:induction false} NatRead(m: nat, x: seq<byte>, n: nat, y: seq<byte>)
    requires EncodeNat(m) + x == EncodeNat(n) + y
    ensures m == n && x == y
    decreases m
  {
    var p := if m == 0 then [] else EncodeNat(m - 1);
    var q := if n == 0 then [] else EncodeNat(n - 1);
    assert EncodeNat(m) == [if m == 0 then 0 else 1] + p && EncodeNat(n) == [if n == 0 then 0 else 1] + q;
    Ahead(if m == 0 then 0 else 1, p, x, if n == 0 then 0 else 1, q, y);
    if m > 0 {
      NatRead(m - 1, x, n - 1, y);
    } else {
      assert [] + x == x && [] + y == y;
    }
  }

  lemma {:induction false} ListRead<T(!new)>(encode: T -> seq<byte>, s: seq<T>, x: seq<byte>, t: seq<T>, y: seq<byte>)
    requires SelfEnding(encode) && EncodeList(encode, s) + x == EncodeList(encode, t) + y
    ensures s == t && x == y
    decreases |s|
  {
    var p := if s == [] then [] else encode(s[0]) + EncodeList(encode, s[1..]);
    var q := if t == [] then [] else encode(t[0]) + EncodeList(encode, t[1..]);
    assert EncodeList(encode, s) == [if s == [] then 0 else 1] + p;
    assert EncodeList(encode, t) == [if t == [] then 0 else 1] + q;
    Ahead(if s == [] then 0 else 1, p, x, if t == [] then 0 else 1, q, y);
    if s == [] {
      assert [] + x == x && [] + y == y;
    } else {
      assert p + x == encode(s[0]) + (EncodeList(encode, s[1..]) + x);
      assert q + y == encode(t[0]) + (EncodeList(encode, t[1..]) + y);
      ListRead(encode, s[1..], x, t[1..], y);
      assert s == [s[0]] + s[1..] && t == [t[0]] + t[1..];
    }
  }

  lemma ListsEnd<T(!new)>(encode: T -> seq<byte>, encodeList: seq<T> -> seq<byte>)
    requires SelfEnding(encode) && forall list :: encodeList(list) == EncodeList(encode, list)
    ensures SelfEnding(encodeList)
  {
    forall s, x, t, y | encodeList(s) + x == encodeList(t) + y ensures s == t && x == y {
      ListRead(encode, s, x, t, y);
    }
  }

  lemma TextsEnd()
    ensures SelfEnding(EncodeTexts)
  {
    forall c: char, x, d: char, y | EncodeChar(c) + x == EncodeChar(d) + y ensures c == d && x == y {
      NatRead(c as int, x, d as int, y);
    }
    ListsEnd(EncodeChar, EncodeText);
    ListsEnd(EncodeText, EncodeTexts);
  }

  lemma FileRead(f: File, x: seq<byte>, g: File, y: seq<byte>)
    requires EncodeFile(f) + x == EncodeFile(g) + y && SelfEnding(EncodeTexts)
    ensures f == g && x == y
  {
    var (f2, g2) := ([Bit(f.generated)] + x, [Bit(g.generated)] + y);
    var (f1, g1) := (EncodeNat(f.size) + f2, EncodeNat(g.size) + g2);
    assert EncodeFile(f) + x == EncodeTexts([f.path, f.hash]) + f1;
    assert EncodeFile(g) + y == EncodeTexts([g.path, g.hash]) + g1;
    assert [f.path, f.hash] == [g.path, g.hash] && f1 == g1;
    assert f.path == [f.path, f.hash][0] && f.hash == [f.path, f.hash][1];
    NatRead(f.size, f2, g.size, g2);
    assert f2[0] == g2[0] && f2[1..] == x && g2[1..] == y;
  }

  lemma FilesEnd()
    ensures SelfEnding(EncodeFiles)
  {
    TextsEnd();
    forall f, x, g, y | EncodeFile(f) + x == EncodeFile(g) + y ensures f == g && x == y {
      FileRead(f, x, g, y);
    }
    ListsEnd(EncodeFile, EncodeFiles);
  }

  lemma FlagsRead(m: Manifest, n: Manifest)
    requires Flags(m) == Flags(n)
    ensures m.networkAccess == n.networkAccess && m.dependencyResolution == n.dependencyResolution
    ensures m.sourceExecuted == n.sourceExecuted && m.harnessExecuted == n.harnessExecuted
    ensures m.mainnetTransactionSent == n.mainnetTransactionSent && m.verdictAuthority == n.verdictAuthority
  {
    assert forall i :: 0 <= i < 6 ==> Flags(m)[i] == Flags(n)[i];
  }

  lemma EncodingInjective(m: Manifest, n: Manifest)
    requires Encode(m) == Encode(n)
    ensures m == n
  {
    TextsEnd();
    FilesEnd();
    var (x, y) := (EncodeFiles(m.files) + Flags(m), EncodeFiles(n.files) + Flags(n));
    assert EncodeTexts(Texts(m)) + x == EncodeTexts(Texts(n)) + y;
    FlagsRead(m, n);
    assert forall i :: 0 <= i < 9 ==> Texts(m)[i] == Texts(n)[i];
  }

  ghost function Decode(b: seq<byte>): Option<Manifest> {
    if exists m: Manifest :: Encode(m) == b then
      var m: Manifest :| Encode(m) == b;
      Some(m)
    else None
  }

  ghost function ExampleCodec(): Codec {
    Codec(_ => "", Encode, Decode, (_, _) => true)
  }

  lemma CodecFaithful()
    ensures Faithful(ExampleCodec())
  {
    forall m ensures Decode(Encode(m)) == Some(m) {
      var n := Decode(Encode(m)).value;
      EncodingInjective(m, n);
    }
  }

  // ---------- collecting files of one line each ----------

  const LINE: seq<byte> := [LF]

  lemma LineNormalized()
    ensures NormalizeText(LINE) == LINE
  {
    UnixKept(LINE);
  }

  ghost function LineFile(path: string): File {
    File(path, 1, "", false)
  }

  lemma LineAdvances(bundle: map<string, seq<byte>>, path: string, q: string, p: Progress)
    requires path in bundle && bundle[path] == LINE && SafeRelativePath(path) == Some(q) && p.total < 200
    ensures Advance(ExampleCodec(), bundle, path, p)
            == Some(Progress(p.files[q := LINE], p.sources + [LineFile(q)], p.total + 1, p.rust || IsRustTest(q)))
  {
    LineNormalized();
  }

  // One line for every cleaned path, and a Rust test if one names it.
  ghost predicate Lines(p: Progress, cleaned: seq<string>) {
    && p.total == |cleaned| == |p.sources|
    && p.files.Keys == (set q | q in cleaned)
    && (forall q :: q in p.files ==> p.files[q] == LINE)
    && (forall i :: 0 <= i < |cleaned| ==> p.sources[i] == LineFile(cleaned[i]))
    && (forall i :: 0 <= i < |cleaned| && IsRustTest(cleaned[i]) ==> p.rust)
  }

  ghost predicate CleanedTo(paths: seq<string>, cleaned: seq<string>, clean: string -> Option<string>) {
    |paths| == |cleaned| && forall i :: 0 <= i < |paths| ==> clean(paths[i]) == Some(cleaned[i])
  }

  lemma LinesNext(p: Progress, cleaned: seq<string>, q: string)
    requires Lines(p, cleaned)
    ensures Lines(Progress(p.files[q := LINE], p.sources + [LineFile(q)], p.total + 1, p.rust || IsRustTest(q)),
                  cleaned + [q])
  {
    assert (set x | x in cleaned + [q]) == (set x | x in cleaned) + {q};
  }

  lemma {:induction false} LinesCollected(bundle: map<string, seq<byte>>, paths: seq<string>, cleaned: seq<string>)
    returns (p: Progress)
    requires CleanedTo(paths, cleaned, SafeRelativePath) && |paths| <= 200
    requires forall x :: x in paths ==> x in bundle && bundle[x] == LINE
    ensures Collect(ExampleCodec(), bundle, paths) == Some(p) && Lines(p, cleaned)
    decreases |paths|
  {
    if paths == [] {
      p := Progress(map[], [], 0, false);
    } else {
      var last := |paths| - 1;
      assert cleaned == cleaned[..last] + [cleaned[last]];
      var before := LinesCollected(bundle, paths[..last], cleaned[..last]);
      assert paths[last] in paths;
      LineAdvances(bundle, paths[last], cleaned[last], before);
      LinesNext(before, cleaned[..last], cleaned[last]);
      p := Advance(ExampleCodec(), bundle, paths[last], before).value;
    }
  }

  // ---------- the paths of the examples ----------

  lemma PartFixed(c: string)
    requires IsPart(c) && Trimmed(c) && c[0] != '.'
    ensures SafeRelativePath(c) == Some(c)
  {
    CleanOne(c);
    TrimTrimmed(c);
    assert c[0] in c;
    forall i | 0 <= i <= |c| - 6 ensures !OccursAt(c, "/.git/", i) {
      assert c[i + 0] != '/' == "/.git/"[0];
    }
    if Contains(c, "/.git/") {
      SlashesOf(c, "/.git/");
    }
  }

  const TESTS := "tests"
  const TEST_NAME := "a.rs"
  const TEST_PATH := TESTS + "/" + TEST_NAME

  lemma TestPathFixed()
    ensures SafeRelativePath(TEST_PATH) == Some(TEST_PATH) && Trimmed(TEST_PATH) && IsRustTest(TEST_PATH)
  {
    assert TESTS[0] == 't' && TEST_NAME[0] == 'a' && TEST_NAME[3] == 's';
    TwoPartsClean(TESTS, TEST_NAME);
    NoGitFolder(TEST_PATH, TESTS, TEST_NAME);
    TrimmedPath(TESTS, TEST_NAME);
    assert TEST_PATH[0] == 't';
    assert "tests/" <= TEST_PATH;
    assert TEST_PATH[|TEST_PATH| - 3..] == ".rs";
    assert Lower(TEST_PATH)[|TEST_PATH| - 3..] == ".rs";
  }

  lemma CargoPathFixed(c: string)
    requires c == CARGO_TOML || c == CARGO_LOCK
    ensures SafeRelativePath(c) == Some(c) && Trimmed(c)
  {
    assert c[0] == 'C' && (c[9] == 'l' || c[9] == 'k');
    PartFixed(c);
  }

  // ---------- the bundles ----------

  const PROFILE := Profile("", "", "", "", LITESVM)
  const SOURCE := Source("", "", "", "")

  // The paths of a bundle of one-line files, and what they clean to.
  ghost predicate LineBundle(bundle: map<string, seq<byte>>, cleaned: map<string, string>) {
    && 0 < |bundle| <= 200 && MANIFEST_PATH !in bundle && cleaned.Keys == bundle.Keys
    && (forall p :: p in bundle ==> bundle[p] == LINE)
    && AllClean(cleaned, SafeRelativePath)
  }

  ghost predicate AllClean(cleaned: map<string, string>, clean: string -> Option<string>) {
    forall p :: p in cleaned ==> clean(p) == Some(cleaned[p])
  }

  ghost predicate Buildable(names: set<string>) {
    CARGO_TOML in names && CARGO_LOCK in names && exists q :: q in names && IsRustTest(q)
  }

  function Names(cleaned: map<string, string>): set<string> {
    set p | p in cleaned :: cleaned[p]
  }

  lemma NamesInOrder(paths: seq<string>, cleaned: map<string, string>, clean: string -> Option<string>)
    returns (names: seq<string>)
    requires AllClean(cleaned, clean) && forall x :: x in paths <==> x in cleaned
    ensures CleanedTo(paths, names, clean) && (set q | q in names) == Names(cleaned)
  {
    names := seq(|paths|, i requires 0 <= i < |paths| => cleaned[paths[i]]);
    forall x | x in cleaned ensures cleaned[x] in names {
      var i :| 0 <= i < |paths| && paths[i] == x;
      assert names[i] == cleaned[x];
    }
    forall q | q in names ensures q in Names(cleaned) {
      var i :| 0 <= i < |names| && names[i] == q;
      assert paths[i] in cleaned;
    }
  }

  ghost predicate Collected(p: Progress, names: set<string>, count: nat) {
    && p.files.Keys == names && (forall q :: q in p.files ==> p.files[q] == LINE)
    && |p.sources| == count && (forall f :: f in p.sources ==> f.path in names && f == LineFile(f.path))
    && (forall q :: q in names && IsRustTest(q) ==> p.rust)
  }

  lemma LinesAreNames(p: Progress, names: seq<string>)
    requires Lines(p, names)
    ensures Collected(p, set q | q in names, |names|)
  {
  }

  lemma BundleCollected(bundle: map<string, seq<byte>>, cleaned: map<string, string>) returns (p: Progress)
    requires LineBundle(bundle, cleaned)
    ensures Collect(ExampleCodec(), bundle, Sorted(bundle.Keys)) == Some(p)
    ensures Collected(p, Names(cleaned), |bundle|)
  {
    var paths := Sorted(bundle.Keys);
    var names := NamesInOrder(paths, cleaned, SafeRelativePath);
    assert |bundle| == |bundle.Keys| == |paths|;
    p := LinesCollected(bundle, paths, names);
    LinesAreNames(p, names);
  }

  // What the producer makes of a bundle, and what it collected on the way.
  ghost predicate Makes(bundle: map<string, seq<byte>>, names: set<string>, product: Product, p: Progress) {
    && Produce(ExampleCodec(), PROFILE, SOURCE, bundle) == Some(product)
    && Collected(p, names, |bundle|)
    && product.files == p.files[MANIFEST_PATH := Encode(ManifestFor(PROFILE, SOURCE, p.sources, "", ""))]
  }

  lemma LinesProduced(bundle: map<string, seq<byte>>, cleaned: map<string, string>)
    returns (product: Product, p: Progress)
    requires LineBundle(bundle, cleaned) && Buildable(Names(cleaned))
    ensures Makes(bundle, Names(cleaned), product, p)
  {
    p := BundleCollected(bundle, cleaned);
    product := FinishedLines(p, Names(cleaned), |bundle|);
  }

  lemma FinishedLines(p: Progress, names: set<string>, count: nat) returns (product: Product)
    requires Collected(p, names, count) && Buildable(names)
    ensures Finish(ExampleCodec(), PROFILE, SOURCE, p) == Some(product)
    ensures product.files == p.files[MANIFEST_PATH := Encode(ManifestFor(PROFILE, SOURCE, p.sources, "", ""))]
  {
    product := Finish(ExampleCodec(), PROFILE, SOURCE, p).value;
  }

  // A file of one line under every path.
  function LinesAt(paths: set<string>): map<string, seq<byte>> {
    map p | p in paths :: LINE
  }

  lemma ThreeClean(a: string, b: string, c: string, clean: string -> Option<string>)
    requires clean(a) == Some(a) && clean(b) == Some(b) && clean(c) == Some(c)
    ensures AllClean(map[a := a, b := b, c := c], clean)
    ensures Names(map[a := a, b := b, c := c]) == {a, b, c}
  {
    var m := map[a := a, b := b, c := c];
    assert m[a] == a && m[b] == b && m[c] == c;
  }

  lemma OneMoreClean(m: map<string, string>, d: string, e: string, clean: string -> Option<string>)
    requires AllClean(m, clean) && d !in m && clean(d) == Some(e)
    ensures AllClean(m[d := e], clean) && Names(m[d := e]) == Names(m) + {e} && m[d := e].Keys == m.Keys + {d}
  {
    var more := m[d := e];
    assert forall p :: p in m ==> more[p] == m[p];
    assert more[d] == e;
  }

  function PlainPaths(): set<string> {
    {CARGO_TOML, CARGO_LOCK, TEST_PATH}
  }

  lemma PlainClean() returns (cleaned: map<string, string>)
    ensures AllClean(cleaned, SafeRelativePath) && cleaned.Keys == PlainPaths() == Names(cleaned)
  {
    CargoPathFixed(CARGO_TOML);
    CargoPathFixed(CARGO_LOCK);
    TestPathFixed();
    ThreeClean(CARGO_TOML, CARGO_LOCK, TEST_PATH, SafeRelativePath);
    cleaned := map[CARGO_TOML := CARGO_TOML, CARGO_LOCK := CARGO_LOCK, TEST_PATH := TEST_PATH];
  }

  lemma PlainNames(names: set<string>)
    requires PlainPaths() <= names
    ensures Buildable(names)
  {
    TestPathFixed();
    assert TEST_PATH in names;
  }

  lemma PathsSmall(paths: set<string>, extra: string)
    requires paths == PlainPaths() || paths == PlainPaths() + {extra}
    ensures 0 < |LinesAt(paths)| <= 4 && |PlainPaths()| <= 3
  {
    assert LinesAt(paths).Keys == paths;
    assert |PlainPaths()| <= 3;
  }

  lemma LinesBundle(paths: set<string>, cleaned: map<string, string>)
    requires 0 < |LinesAt(paths)| <= 200 && MANIFEST_PATH !in paths && cleaned.Keys == paths
    requires AllClean(cleaned, SafeRelativePath)
    ensures LineBundle(LinesAt(paths), cleaned)
  {
  }

  lemma NotTheManifest(path: string, extra: string)
    requires path in PlainPaths() + {extra} && extra != "" && extra[0] == ' '
    ensures path != MANIFEST_PATH
  {
    assert MANIFEST_PATH[0] == 'k' && CARGO_TOML[0] == 'C' && CARGO_LOCK[0] == 'C' && TEST_PATH[0] == 't';
  }

  // Up to four files of one line, none of them under the manifest's path.
  lemma FewBundle(cleaned: map<string, string>, extra: string)
    requires cleaned.Keys == PlainPaths() || cleaned.Keys == PlainPaths() + {extra}
    requires AllClean(cleaned, SafeRelativePath) && PlainPaths() <= Names(cleaned) && extra != "" && extra[0] == ' '
    ensures LineBundle(LinesAt(cleaned.Keys), cleaned) && Buildable(Names(cleaned))
  {
    PathsSmall(cleaned.Keys, extra);
    PlainNames(Names(cleaned));
    forall x | x in cleaned ensures x != MANIFEST_PATH {
      NotTheManifest(x, extra);
    }
    LinesBundle(cleaned.Keys, cleaned);
  }

  // A stored file under every path of a map decodes to a file under its cleaned path.
  lemma LinesClean(cleaned: map<string, string>, clean: string -> Option<string>)
    requires AllClean(cleaned, clean)
    ensures CleansTo(clean, LinesAt(cleaned.Keys), LinesAt(cleaned.Keys).Keys, LinesAt(Names(cleaned)))
  {
    var (content, b) := (LinesAt(cleaned.Keys), LinesAt(Names(cleaned)));
    assert content.Keys == cleaned.Keys;
    forall p | p in cleaned ensures clean(p) == Some(cleaned[p]) && cleaned[p] in b {
    }
    forall q | q in b ensures ComesFromKey(clean, content, cleaned.Keys, q, b[q]) {
      var p :| p in cleaned && cleaned[p] == q;
      assert clean(p) == Some(q) && content[p] == b[q];
    }
  }

  lemma FewDecode(cleaned: map<string, string>, extra: string)
    requires cleaned.Keys == PlainPaths() || cleaned.Keys == PlainPaths() + {extra}
    requires AllClean(cleaned, SafeRelativePath)
    ensures Decodes(LinesAt(cleaned.Keys), LinesAt(Names(cleaned)))
  {
    PathsSmall(cleaned.Keys, extra);
    LinesClean(cleaned, SafeRelativePath);
    FewFit(LinesAt(cleaned.Keys));
    DecodesFitting(LinesAt(cleaned.Keys), LinesAt(Names(cleaned)), SafeRelativePath);
  }

  lemma DecodesFitting(content: map<string, seq<byte>>, b: map<string, seq<byte>>, clean: string -> Option<string>)
    requires clean == SafeRelativePath && CleansTo(clean, content, content.Keys, b)
    requires 0 < |content| && Size(content) <= MAX_ARTIFACT
    ensures Decodes(content, b)
  {
  }

  lemma FewFit(content: map<string, seq<byte>>)
    requires |content| <= 4 && forall p :: p in content ==> content[p] == LINE
    ensures Size(content) <= MAX_ARTIFACT
  {
    SumAtMost(content, content.Keys, 1);
  }

  // Three files under fixed paths, stored and decoded alike.
  lemma PlainProduced() returns (bundle: map<string, seq<byte>>, product: Product, p: Progress)
    ensures Makes(bundle, PlainPaths(), product, p) && |bundle| <= 4 && Decodes(bundle, bundle)
  {
    var cleaned := PlainClean();
    FewBundle(cleaned, " ");
    FewDecode(cleaned, " ");
    PathsSmall(cleaned.Keys, " ");
    bundle := LinesAt(cleaned.Keys);
    product, p := LinesProduced(bundle, cleaned);
  }

  // One more path than the plain ones, and what it cleans to.
  lemma PlainAnd(path: string, name: string) returns (cleaned: map<string, string>)
    requires SafeRelativePath(path) == Some(name) && path !in PlainPaths()
    ensures AllClean(cleaned, SafeRelativePath) && cleaned.Keys == PlainPaths() + {path}
    ensures Names(cleaned) == PlainPaths() + {name}
  {
    var plain := PlainClean();
    OneMoreClean(plain, path, name, SafeRelativePath);
    cleaned := plain[path := name];
  }

  lemma SpacedDecoded(c: string) returns (content: map<string, seq<byte>>)
    requires IsPart(c) && Trimmed(c) && c[0] != '.' && |c| < 5
    ensures "./ ./ " + c in content
    ensures Decodes(content, LinesAt(PlainPaths() + {" ./ " + c}))
  {
    SpaceSurvivesTwice(c);
    NotPlain("./ ./ " + c);
    var cleaned := PlainAnd("./ ./ " + c, " ./ " + c);
    content := LinesAt(cleaned.Keys);
    FewDecode(cleaned, "./ ./ " + c);
  }

  lemma SpacedProduced(c: string) returns (bundle: map<string, seq<byte>>, product: Product, p: Progress)
    requires IsPart(c) && Trimmed(c) && c[0] != '.' && |c| < 5
    ensures bundle == LinesAt(PlainPaths() + {" ./ " + c})
    ensures Makes(bundle, PlainPaths() + {" " + c}, product, p)
  {
    SpaceSurvivesTwice(c);
    NotPlain(" ./ " + c);
    var cleaned := PlainAnd(" ./ " + c, " " + c);
    FewBundle(cleaned, " ./ " + c);
    bundle := LinesAt(cleaned.Keys);
    product, p := LinesProduced(bundle, cleaned);
  }

  lemma NotPlain(path: string)
    requires path != "" && (path[0] == '.' || path[0] == ' ')
    ensures path !in PlainPaths()
  {
    assert CARGO_TOML[0] == 'C' && CARGO_LOCK[0] == 'C' && TEST_PATH[0] == 't';
  }

  // ---------- the size of the first example ----------

  lemma {:induction false} EncodedSize<T>(encode: T -> seq<byte>, list: seq<T>, k: nat)
    requires forall x :: x in list ==> |encode(x)| <= k
    ensures |EncodeList(encode, list)| <= 1 + |list| * (k + 1)
    decreases |list|
  {
    if list != [] {
      assert list[0] in list;
      EncodedSize(encode, list[1..], k);
      assert |list| * (k + 1) == |list[1..]| * (k + 1) + (k + 1);
    }
  }

  predicate Ascii(s: string) {
    forall i :: 0 <= i < |s| ==> s[i] as int < 128
  }

  lemma TextSize(s: string)
    requires Ascii(s)
    ensures |EncodeText(s)| <= 1 + |s| * 129
  {
    EncodedSize(EncodeChar, s, 128);
  }

  lemma FileSize(f: File)
    requires Ascii(f.path) && |f.path| <= 10 && f == LineFile(f.path)
    ensures |EncodeFile(f)| <= 4000
  {
    TextSize(f.path);
    TextSize(f.hash);
    EncodedSize(EncodeText, [f.path, f.hash], 1291);
  }

  lemma FilesSize(files: seq<File>)
    requires |files| <= 4 && forall f :: f in files ==> Ascii(f.path) && |f.path| <= 10 && f == LineFile(f.path)
    ensures |EncodeFiles(files)| <= 16005
  {
    forall f | f in files ensures |EncodeFile(f)| <= 4000 {
      FileSize(f);
    }
    EncodedSize(EncodeFile, files, 4000);
  }

  lemma TextsSize(texts: seq<string>)
    requires |texts| == 9 && forall t :: t in texts ==> t == "" || t == LITESVM
    ensures |EncodeTexts(texts)| <= 8146
  {
    TextSize("");
    TextSize(LITESVM);
    EncodedSize(EncodeText, texts, 904);
  }

  lemma ManifestSize(sources: seq<File>)
    requires |sources| <= 4 && forall f :: f in sources ==> Ascii(f.path) && |f.path| <= 10 && f == LineFile(f.path)
    ensures |Encode(ManifestFor(PROFILE, SOURCE, sources, "", ""))| <= 30000
  {
    FilesSize(sources);
    TextsSize(Texts(ManifestFor(PROFILE, SOURCE, sources, "", "")));
  }

  lemma {:induction false} SumAtMost(m: map<string, seq<byte>>, keys: set<string>, k: nat)
    requires keys <= m.Keys && forall x :: x in keys ==> |m[x]| <= k
    ensures SumOver(m, keys) <= |keys| * k
    decreases |keys|
  {
    if keys != {} {
      SumAtMost(m, keys - {Least(keys)}, k);
      assert |keys| * k == |keys - {Least(keys)}| * k + k;
    }
  }

  lemma PlainPathAscii(q: string)
    requires q == CARGO_TOML || q == CARGO_LOCK || q == TEST_PATH
    ensures Ascii(q) && |q| == 10
  {
    assert Ascii(TESTS) && Ascii("/") && Ascii(TEST_NAME);
  }

  lemma PlainPathTrimmed(q: string)
    requires q == CARGO_TOML || q == CARGO_LOCK || q == TEST_PATH
    ensures Trimmed(q)
  {
    if q == TEST_PATH {
      TestPathFixed();
    } else {
      CargoPathFixed(q);
    }
  }

  lemma PlainPathFixed(q: string)
    requires q == CARGO_TOML || q == CARGO_LOCK || q == TEST_PATH
    ensures Trimmed(q) && Ascii(q) && |q| == 10
  {
    PlainPathTrimmed(q);
    PlainPathAscii(q);
  }

  lemma LinesFit(lines: map<string, seq<byte>>, names: set<string>, content: seq<byte>)
    requires lines.Keys == names && |names| <= 3 && |content| <= 30000 && forall q :: q in lines ==> lines[q] == LINE
    ensures Size(lines[MANIFEST_PATH := content]) <= MAX_ARTIFACT
  {
    var files := lines[MANIFEST_PATH := content];
    SumAtMost(files, files.Keys, 30000);
    assert files.Keys == names + {MANIFEST_PATH};
  }

  lemma PlainSources(p: Progress, names: set<string>, count: nat)
    requires Collected(p, names, count) && names == PlainPaths() && count <= 4
    ensures |names| <= 3 && |Encode(ManifestFor(PROFILE, SOURCE, p.sources, "", ""))| <= 30000
    ensures forall q :: q in names ==> Trimmed(q)
  {
    forall q | q in names ensures Trimmed(q) && Ascii(q) && |q| == 10 {
      PlainPathFixed(q);
    }
    ManifestSize(p.sources);
    PathsSmall(names, "");
  }

  lemma PlainExecutable(files: map<string, seq<byte>>, p: Progress, names: set<string>, count: nat)
    requires Collected(p, names, count) && names == PlainPaths() && count <= 4
    requires files == p.files[MANIFEST_PATH := Encode(ManifestFor(PROFILE, SOURCE, p.sources, "", ""))]
    ensures Executable(files)
  {
    PlainSources(p, names, count);
    LinesFit(p.files, names, files[MANIFEST_PATH]);
    ManifestPathFixed();
  }

  // ---------- the examples ----------

  // Both sides of the agreement occur.  The check accepts what the producer makes
  // of three stored files under fixed paths.
  lemma PlainAccepted() returns (bundle: map<string, seq<byte>>, product: Product)
    ensures Faithful(ExampleCodec()) && Decodes(bundle, bundle)
    ensures Produce(ExampleCodec(), PROFILE, SOURCE, bundle) == Some(product)
    ensures forall hash :: Accepts(ExampleCodec(), PROFILE, RecordOf(product, SOURCE, hash), SOURCE,
                                   ArtifactOf(product, PROFILE, SOURCE, hash), product.files)
  {
    var p;
    bundle, product, p := PlainProduced();
    CodecFaithful();
    PlainExecutable(product.files, p, PlainPaths(), |bundle|);
    forall hash ensures Accepts(ExampleCodec(), PROFILE, RecordOf(product, SOURCE, hash), SOURCE,
                                ArtifactOf(product, PROFILE, SOURCE, hash), product.files) {
      ProducedIsAcceptedExactly(ExampleCodec(), PROFILE, SOURCE, bundle, product, hash);
    }
  }

  // With one more stored file, under a path whose second cleaning still leaves a
  // space in front, the producer makes a product of what is decoded, and the check
  // refuses it.
  lemma SpacedRefused(c: string)
    returns (content: map<string, seq<byte>>, bundle: map<string, seq<byte>>, product: Product)
    requires IsPart(c) && Trimmed(c) && c[0] != '.' && |c| < 5
    ensures Faithful(ExampleCodec()) && "./ ./ " + c in content && Decodes(content, bundle)
    ensures Produce(ExampleCodec(), PROFILE, SOURCE, bundle) == Some(product) && !Executable(product.files)
    ensures forall hash, b :: !Accepts(ExampleCodec(), PROFILE, RecordOf(product, SOURCE, hash), SOURCE,
                                       ArtifactOf(product, PROFILE, SOURCE, hash), b)
  {
    var p;
    content := SpacedDecoded(c);
    bundle, product, p := SpacedProduced(c);
    CodecFaithful();
    SpacedNotExecutable(product.files, " " + c);
    NotExecutableRefused(bundle, product);
  }

  lemma SpacedNotExecutable(files: map<string, seq<byte>>, path: string)
    requires path in files && path != "" && path[0] == ' '
    ensures !Executable(files)
  {
  }

  lemma NotExecutableRefused(bundle: map<string, seq<byte>>, product: Product)
    requires Produce(ExampleCodec(), PROFILE, SOURCE, bundle) == Some(product) && !Executable(product.files)
    ensures forall hash, b :: !Accepts(ExampleCodec(), PROFILE, RecordOf(product, SOURCE, hash), SOURCE,
                                       ArtifactOf(product, PROFILE, SOURCE, hash), b)
  {
    CodecFaithful();
    forall hash, b ensures !Accepts(ExampleCodec(), PROFILE, RecordOf(product, SOURCE, hash), SOURCE,
                                    ArtifactOf(product, PROFILE, SOURCE, hash), b) {
      ProducedIsAcceptedExactly(ExampleCodec(), PROFILE, SOURCE, bundle, product, hash);
    }
  }
}
