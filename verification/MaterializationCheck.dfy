/**
 The check that a stored materialization passes before it is executed, written
 independently of the producer, and how the two agree.
 */
module MaterializationCheck {
  import opened Bytes
  import opened JsonCanonical
  import opened PathPlaces
  import opened Paths
  import opened Strings
  import opened Materialization

  // A stored bundle; content is the object that its JSON text denotes.
  datatype Artifact = Artifact(
    isSourceBundle: bool, programId: string, network: string, contentHash: string,
    role: string, profileRef: string, sourceRef: string, engine: string, content: map<string, seq<byte>>)

  // The recorded materialization.
  datatype Record = Record(
    sourceRef: string, bundleHash: string, files: seq<File>, fileCount: int, totalBytes: int,
    cargoManifestHash: string, cargoLockHash: string)

  // ---------- decoding a stored bundle ----------

  predicate Decodable(content: map<string, seq<byte>>) {
    |content| > 0 && (forall p :: p in content ==> SafeRelativePath(p).Some?) && Size(content) <= MAX_ARTIFACT
  }

  // A decoded bundle has the cleaned paths; where several paths clean to one, the
  // content is that of any of them.
  ghost predicate Decodes(content: map<string, seq<byte>>, b: map<string, seq<byte>>) {
    Decodable(content) && CleansTo(SafeRelativePath, content, content.Keys, b)
  }

  // b holds the contents of the files named by the keys under their cleaned paths.
  ghost predicate CleansTo(clean: string -> Option<string>, content: map<string, seq<byte>>, keys: set<string>,
                           b: map<string, seq<byte>>)
    requires keys <= content.Keys
  {
    && (forall p :: p in keys ==> clean(p).Some? && clean(p).value in b)
    && (forall q :: q in b ==> ComesFromKey(clean, content, keys, q, b[q]))
  }

  ghost predicate ComesFromKey(clean: string -> Option<string>, content: map<string, seq<byte>>, keys: set<string>,
                               q: string, c: seq<byte>)
    requires keys <= content.Keys
  {
    exists p :: p in keys && clean(p) == Some(q) && c == content[p]
  }

  lemma CleansNext(clean: string -> Option<string>, content: map<string, seq<byte>>, keys: set<string>,
                   b: map<string, seq<byte>>, k: string)
    requires keys <= content.Keys && k in content && clean(k).Some? && CleansTo(clean, content, keys, b)
    ensures CleansTo(clean, content, keys + {k}, b[clean(k).value := content[k]])
  {
    var c := b[clean(k).value := content[k]];
    forall q | q in c ensures ComesFromKey(clean, content, keys + {k}, q, c[q]) {
      if clean(k) == Some(q) {
        assert k in keys + {k};
      } else {
        var p :| p in keys && clean(p) == Some(q) && b[q] == content[p];
        assert p in keys + {k};
      }
    }
  }

  lemma {:induction false} PartialSum(content: map<string, seq<byte>>, keys: set<string>)
    requires keys <= content.Keys
    ensures SumOver(content, keys) <= Size(content)
    decreases |content.Keys - keys|
  {
    if k :| k in content.Keys - keys {
      SumNext(content, keys, k);
      PartialSum(content, keys + {k});
    } else {
      assert keys == content.Keys;
    }
  }

  // The decoding loop over the keys, in whatever order they come.
  method DecodeSourceBundle(content: map<string, seq<byte>>) returns (r: Option<map<string, seq<byte>>>)
    ensures r.Some? <==> Decodable(content)
    ensures r.Some? ==> Decodes(content, r.value)
  {
    if |content| == 0 {
      return None;
    }
    var all := CleanAll(SafeRelativePath, content);
    return all;
  }

  ghost predicate CleanedSoFar(clean: string -> Option<string>, content: map<string, seq<byte>>, left: set<string>,
                               cleaned: map<string, seq<byte>>, total: nat) {
    && left <= content.Keys && CleansTo(clean, content, content.Keys - left, cleaned)
    && total == SumOver(content, content.Keys - left) <= MAX_ARTIFACT
  }

  method CleanAll(clean: string -> Option<string>, content: map<string, seq<byte>>)
    returns (r: Option<map<string, seq<byte>>>)
    ensures r.Some? <==> (forall p :: p in content ==> clean(p).Some?) && Size(content) <= MAX_ARTIFACT
    ensures r.Some? ==> CleansTo(clean, content, content.Keys, r.value)
  {
    var total: nat := 0;
    var cleaned: map<string, seq<byte>> := map[];
    var left := content.Keys;
    assert content.Keys - left == {};
    while left != {}
      invariant CleanedSoFar(clean, content, left, cleaned, total)
      decreases |left|
    {
      var p :| p in left;
      var next := CleanFile(clean, content, left, p, cleaned, total);
      if next.None? {
        return None;
      }
      cleaned, total := next.value.0, next.value.1;
      left := left - {p};
    }
    assert content.Keys - left == content.Keys;
    return Some(cleaned);
  }

  lemma CleanedNext(clean: string -> Option<string>, content: map<string, seq<byte>>, left: set<string>, p: string,
                    cleaned: map<string, seq<byte>>, total: nat)
    requires CleanedSoFar(clean, content, left, cleaned, total) && p in left && clean(p).Some?
    ensures CleansTo(clean, content, content.Keys - (left - {p}), cleaned[clean(p).value := content[p]])
    ensures total + |content[p]| == SumOver(content, content.Keys - (left - {p})) <= Size(content)
  {
    var seen := content.Keys - left;
    assert content.Keys - (left - {p}) == seen + {p};
    CleansNext(clean, content, seen, cleaned, p);
    SumNext(content, seen, p);
    PartialSum(content, seen + {p});
  }

  method CleanFile(clean: string -> Option<string>, content: map<string, seq<byte>>, ghost left: set<string>, p: string,
                   cleaned: map<string, seq<byte>>, total: nat) returns (r: Option<(map<string, seq<byte>>, nat)>)
    requires CleanedSoFar(clean, content, left, cleaned, total) && p in left
    ensures r.Some? ==> CleanedSoFar(clean, content, left - {p}, r.value.0, r.value.1)
    ensures r.None? ==> clean(p).None? || Size(content) > MAX_ARTIFACT
  {
    if clean(p).None? {
      return None;
    }
    CleanedNext(clean, content, left, p, cleaned, total);
    if total + |content[p]| > MAX_ARTIFACT {
      return None;
    }
    return Some((cleaned[clean(p).value := content[p]], total + |content[p]|));
  }

  // ---------- what the check demands ----------

  predicate IdentityMatches(profile: Profile, record: Record, source: Source, artifact: Artifact) {
    && artifact.isSourceBundle && artifact.programId == profile.programId && artifact.network == profile.network
    && artifact.contentHash == record.bundleHash
    && source.ref == record.sourceRef && source.programId == profile.programId && source.network == profile.network
    && Lower(artifact.role) == "materialized_harness" && artifact.profileRef == profile.ref
    && artifact.sourceRef == source.ref && Lower(artifact.engine) == LITESVM
  }

  // Every listed path is a fixed point of cleaning, and none is listed twice.
  ghost predicate PathsValid(files: seq<File>) {
    PathsFixed(files) && PathsDistinct(files)
  }

  ghost predicate PathsFixed(files: seq<File>) {
    AllFixed(SafeRelativePath, files)
  }

  predicate PathsDistinct(files: seq<File>) {
    forall i, j :: 0 <= i < j < |files| ==> files[i].path != files[j].path
  }

  ghost predicate Listed(codec: Codec, files: seq<File>, path: string, content: seq<byte>) {
    exists f :: f in files && f.path == path && f.size == |content| && f.hash == codec.hash(content)
  }

  predicate ManifestMatches(m: Manifest, profile: Profile, source: Source) {
    && m.profileRef == profile.ref && m.profileHash == profile.hash
    && m.sourceRef == source.ref && m.sourceHash == source.contentHash
    && m.programId == profile.programId && m.network == profile.network && m.engine == LITESVM
    && !m.networkAccess && !m.dependencyResolution && !m.sourceExecuted && !m.harnessExecuted
    && !m.mainnetTransactionSent && !m.verdictAuthority
  }

  ghost predicate FilesMatch(codec: Codec, record: Record, b: map<string, seq<byte>>) {
    && |b| == record.fileCount == |record.files| && PathsValid(record.files)
    && AllListed(codec, record.files, b, b.Keys)
    && Size(b) == record.totalBytes
  }

  predicate HashesMatch(codec: Codec, profile: Profile, record: Record, source: Source, b: map<string, seq<byte>>) {
    && codec.hash(Lookup(b, CARGO_TOML)) == record.cargoManifestHash
    && codec.hash(Lookup(b, CARGO_LOCK)) == record.cargoLockHash
    && MANIFEST_PATH in b
    && codec.decode(b[MANIFEST_PATH]).Some?
    && ManifestMatches(codec.decode(b[MANIFEST_PATH]).value, profile, source)
  }

  // b is what the check hands over for execution.
  ghost predicate Accepts(codec: Codec, profile: Profile, record: Record, source: Source, artifact: Artifact,
                          b: map<string, seq<byte>>) {
    && IdentityMatches(profile, record, source, artifact) && Decodes(artifact.content, b)
    && FilesMatch(codec, record, b) && HashesMatch(codec, profile, record, source, b)
  }

  // ---------- the check ----------

  ghost predicate ByPath(m: map<string, File>, files: seq<File>) {
    && (forall f :: f in files ==> f.path in m && m[f.path] == f)
    && (forall p :: p in m ==> m[p] in files && m[p].path == p)
  }

  lemma RepeatedPath(files: seq<File>, i: nat, m: map<string, File>)
    requires i < |files| && ByPath(m, files[..i]) && files[i].path in m
    ensures !PathsDistinct(files)
  {
    var j :| 0 <= j < i && files[..i][j] == m[files[i].path];
    assert files[j].path == files[i].path;
  }

  method IndexFiles(files: seq<File>) returns (r: Option<map<string, File>>)
    ensures r.Some? <==> PathsValid(files)
    ensures r.Some? ==> ByPath(r.value, files)
  {
    r := IndexPaths(SafeRelativePath, files);
  }

  ghost predicate AllFixed(clean: string -> Option<string>, files: seq<File>) {
    forall f :: f in files ==> clean(f.path) == Some(f.path)
  }

  method IndexPaths(clean: string -> Option<string>, files: seq<File>) returns (r: Option<map<string, File>>)
    ensures r.Some? <==> AllFixed(clean, files) && PathsDistinct(files)
    ensures r.Some? ==> ByPath(r.value, files)
  {
    var byPath: map<string, File> := map[];
    for i := 0 to |files|
      invariant ByPath(byPath, files[..i]) && PathsDistinct(files[..i]) && AllFixed(clean, files[..i])
    {
      var f := files[i];
      assert f in files;
      PrefixNext(files, i);
      if clean(f.path) != Some(f.path) {
        return None;
      }
      if f.path in byPath {
        RepeatedPath(files, i, byPath);
        return None;
      }
      DistinctNext(files[..i], f, byPath);
      byPath := byPath[f.path := f];
    }
    assert files[..|files|] == files;
    return Some(byPath);
  }

  lemma DistinctNext(files: seq<File>, f: File, m: map<string, File>)
    requires PathsDistinct(files) && ByPath(m, files) && f.path !in m
    ensures PathsDistinct(files + [f]) && ByPath(m[f.path := f], files + [f])
  {
    forall i, j | 0 <= i < j < |files| + 1 ensures (files + [f])[i].path != (files + [f])[j].path {
      assert (files + [f])[i] in files;
    }
    assert f in files + [f];
    assert forall x :: x in files ==> x in files + [f];
  }

  ghost predicate AllListed(codec: Codec, files: seq<File>, b: map<string, seq<byte>>, keys: set<string>)
    requires keys <= b.Keys
  {
    forall p :: p in keys ==> Listed(codec, files, p, b[p])
  }

  ghost predicate Compared(codec: Codec, files: seq<File>, b: map<string, seq<byte>>, left: set<string>, bytes: nat) {
    left <= b.Keys && bytes == SumOver(b, b.Keys - left) && AllListed(codec, files, b, b.Keys - left)
  }

  lemma ComparedNext(codec: Codec, files: seq<File>, b: map<string, seq<byte>>, left: set<string>, bytes: nat,
                     p: string)
    requires Compared(codec, files, b, left, bytes) && p in left && Listed(codec, files, p, b[p])
    ensures Compared(codec, files, b, left - {p}, bytes + |b[p]|)
  {
    SumNext(b, b.Keys - left, p);
    assert b.Keys - (left - {p}) == (b.Keys - left) + {p};
  }

  // The loop over the files of the bundle, in whatever order they come.
  method CompareFiles(codec: Codec, files: seq<File>, byPath: map<string, File>, b: map<string, seq<byte>>)
    returns (total: Option<nat>)
    requires ByPath(byPath, files)
    ensures total.Some? <==> AllListed(codec, files, b, b.Keys)
    ensures total.Some? ==> total.value == Size(b)
  {
    var bytes: nat := 0;
    var left := b.Keys;
    assert b.Keys - left == {};
    while left != {}
      invariant Compared(codec, files, b, left, bytes)
      decreases |left|
    {
      var p :| p in left;
      var listed := CompareFile(codec, files, byPath, p, b[p]);
      if !listed {
        return None;
      }
      ComparedNext(codec, files, b, left, bytes, p);
      bytes := bytes + |b[p]|;
      left := left - {p};
    }
    assert b.Keys - left == b.Keys;
    return Some(bytes);
  }

  method CompareFile(codec: Codec, files: seq<File>, byPath: map<string, File>, p: string, content: seq<byte>)
    returns (listed: bool)
    requires ByPath(byPath, files)
    ensures listed <==> Listed(codec, files, p, content)
  {
    listed := p in byPath && byPath[p].size == |content| && byPath[p].hash == codec.hash(content);
  }

  method CheckFiles(codec: Codec, record: Record, b: map<string, seq<byte>>) returns (ok: bool)
    ensures ok <==> FilesMatch(codec, record, b)
  {
    if |b| != record.fileCount || |record.files| != record.fileCount {
      return false;
    }
    var byPath := IndexFiles(record.files);
    if byPath.None? {
      return false;
    }
    var total := CompareFiles(codec, record.files, byPath.value, b);
    return total.Some? && total.value == record.totalBytes;
  }

  method ValidateMaterializedHarness(codec: Codec, profile: Profile, record: Record, source: Source, artifact: Artifact)
    returns (r: Option<map<string, seq<byte>>>)
    ensures r.Some? ==> Accepts(codec, profile, record, source, artifact, r.value)
    ensures r.None? ==> !IdentityMatches(profile, record, source, artifact) || !Decodable(artifact.content)
                        || exists b :: Decodes(artifact.content, b)
                                       && !(FilesMatch(codec, record, b)
                                            && HashesMatch(codec, profile, record, source, b))
  {
    if !IdentityMatches(profile, record, source, artifact) {
      return None;
    }
    var bundle := DecodeSourceBundle(artifact.content);
    if bundle.None? {
      return None;
    }
    var files := CheckFiles(codec, record, bundle.value);
    if !files || !HashesMatch(codec, profile, record, source, bundle.value) {
      return None;
    }
    return bundle;
  }

  // ---------- an accepted bundle is the recorded one ----------

  lemma {:induction false} DistinctPaths(files: seq<File>)
    requires PathsDistinct(files)
    ensures |set f | f in files :: f.path| == |files|
    decreases |files|
  {
    if files == [] {
      assert (set f | f in files :: f.path) == {};
    } else {
      var rest := files[..|files| - 1];
      var last := files[|files| - 1];
      DistinctPaths(rest);
      assert files == rest + [last];
      assert (set f | f in files :: f.path) == (set f | f in rest :: f.path) + {last.path};
      assert last.path !in (set f | f in rest :: f.path);
    }
  }

  lemma {:induction false} SubsetSize(a: set<string>, b: set<string>)
    requires a <= b
    ensures |a| <= |b|
    ensures |a| == |b| ==> a == b
    decreases |a|
  {
    if x :| x in a {
      SubsetSize(a - {x}, b - {x});
      assert a == (a - {x}) + {x} && b == (b - {x}) + {x};
    }
  }

  predicate RecordedAs(codec: Codec, files: seq<File>, b: map<string, seq<byte>>) {
    && b.Keys == (set f | f in files :: f.path)
    && forall f :: f in files ==> f.path in b && f.size == |b[f.path]| && f.hash == codec.hash(b[f.path])
  }

  // As many files as listed, and every file listed: then every listed file is in
  // the bundle, with the recorded size and hash.
  lemma RecordedBothWays(codec: Codec, files: seq<File>, b: map<string, seq<byte>>)
    requires |b| == |files| && PathsDistinct(files) && AllListed(codec, files, b, b.Keys)
    ensures RecordedAs(codec, files, b)
  {
    var paths := set f | f in files :: f.path;
    DistinctPaths(files);
    forall p | p in b ensures p in paths {
      assert Listed(codec, files, p, b[p]);
    }
    SubsetSize(b.Keys, paths);
    forall f | f in files ensures f.path in b && f.size == |b[f.path]| && f.hash == codec.hash(b[f.path]) {
      assert f.path in paths;
      assert Listed(codec, files, f.path, b[f.path]);
      var g :| g in files && g.path == f.path && g.size == |b[f.path]| && g.hash == codec.hash(b[f.path]);
      assert g == f;
    }
  }

  ghost predicate Collision(codec: Codec, x: seq<byte>, y: seq<byte>) {
    x != y && codec.hash(x) == codec.hash(y)
  }

  // Two bundles accepted for one materialization have the same paths, and the
  // same contents unless two contents collide under the hash.
  lemma AcceptedBundleUnique(codec: Codec, record: Record, x: map<string, seq<byte>>, y: map<string, seq<byte>>)
    requires FilesMatch(codec, record, x) && FilesMatch(codec, record, y)
    ensures x.Keys == y.Keys
    ensures x == y || exists p :: p in x && p in y && |x[p]| == |y[p]| && Collision(codec, x[p], y[p])
  {
    RecordedBothWays(codec, record.files, x);
    RecordedBothWays(codec, record.files, y);
    RecordedUnique(codec, record.files, x, y);
  }

  lemma RecordedUnique(codec: Codec, files: seq<File>, x: map<string, seq<byte>>, y: map<string, seq<byte>>)
    requires RecordedAs(codec, files, x) && RecordedAs(codec, files, y)
    ensures x.Keys == y.Keys
    ensures x == y || exists p :: p in x && p in y && |x[p]| == |y[p]| && Collision(codec, x[p], y[p])
  {
    if x != y {
      var p :| p in x && x[p] != y[p];
      var f :| f in files && f.path == p;
      assert Collision(codec, x[p], y[p]);
    }
  }

  // ---------- what the producer makes is accepted ----------

  // The record and the stored artifact of a product.
  function RecordOf(product: Product, source: Source, bundleHash: string): Record {
    Record(source.ref, bundleHash, product.list, |product.list|, SumSizes(product.list),
           product.cargoManifestHash, product.cargoLockHash)
  }

  function ArtifactOf(product: Product, profile: Profile, source: Source, bundleHash: string): Artifact {
    Artifact(true, profile.programId, profile.network, bundleHash, "materialized_harness", profile.ref, source.ref,
             profile.engine, product.files)
  }

  // The condition is on the paths and the size alone: no white space at the ends
  // of a cleaned path, and a total that storage accepts.
  predicate Executable(files: map<string, seq<byte>>) {
    Size(files) <= MAX_ARTIFACT && forall q :: q in files ==> Trimmed(q)
  }

  const KOSCHEI := "koschei"
  const MANIFEST_NAME := "materialization.json"

  lemma ManifestPathParts()
    ensures MANIFEST_PATH == KOSCHEI + "/" + MANIFEST_NAME
    ensures '/' !in KOSCHEI && '/' !in MANIFEST_NAME
  {
  }

  lemma ManifestPathClean()
    ensures Clean(MANIFEST_PATH) == MANIFEST_PATH
  {
    ManifestPathParts();
    assert KOSCHEI[0] == 'k' && MANIFEST_NAME[0] == 'm';
    TwoPartsClean(KOSCHEI, MANIFEST_NAME);
  }

  lemma ManifestPathSafe()
    ensures !Unsafe(MANIFEST_PATH)
  {
    ManifestPathParts();
    NoGitFolder(MANIFEST_PATH, KOSCHEI, MANIFEST_NAME);
    assert MANIFEST_PATH[0] == 'k';
  }

  lemma TrimmedPath(a: string, b: string)
    requires a != "" && b != "" && !IsSpaceRune(a[0]) && !IsSpaceRune(b[|b| - 1])
    ensures Trimmed(a + "/" + b) && Trim(a + "/" + b) == a + "/" + b
  {
    var s := a + "/" + b;
    assert s[0] == a[0] && s[|s| - 1] == b[|b| - 1];
    TrimTrimmed(s);
  }

  lemma ManifestPathFixed()
    ensures SafeRelativePath(MANIFEST_PATH) == Some(MANIFEST_PATH) && Trimmed(MANIFEST_PATH)
  {
    ManifestPathClean();
    ManifestPathSafe();
    ManifestPathParts();
    TrimmedPath(KOSCHEI, MANIFEST_NAME);
  }

  lemma PathFixedExactly(codec: Codec, profile: Profile, source: Source, bundle: map<string, seq<byte>>,
                         product: Product, q: string)
    requires Produce(codec, profile, source, bundle) == Some(product) && q in product.files
    ensures SafeRelativePath(q) == Some(q) <==> Trimmed(q)
  {
    ProductFiles(codec, profile, source, bundle, product);
    if q == MANIFEST_PATH {
      ManifestPathFixed();
    } else {
      assert ComesFrom(bundle, q, product.files[q]);
      var p :| p in bundle && SafeRelativePath(p) == Some(q);
      SafePathFixedExactly(p);
    }
  }

  lemma ListDistinct(codec: Codec, files: map<string, seq<byte>>, paths: seq<string>, list: seq<File>)
    requires paths == Sorted(files.Keys) && list == ListOf(codec, files, paths)
    ensures |list| == |files| && PathsDistinct(list)
  {
    assert |files| == |files.Keys|;
    forall i, j | 0 <= i < j < |list| ensures list[i].path != list[j].path {
      assert list[i] == FileFor(codec, files, paths[i]) && list[j] == FileFor(codec, files, paths[j]);
    }
  }

  lemma ListCovers(codec: Codec, files: map<string, seq<byte>>, paths: seq<string>, list: seq<File>)
    requires paths == Sorted(files.Keys) && list == ListOf(codec, files, paths)
    ensures forall f :: f in list ==> f.path in files
    ensures forall q :: q in files ==> FileFor(codec, files, q) in list
  {
    forall f | f in list ensures f.path in files {
      var i :| 0 <= i < |list| && list[i] == f;
      assert paths[i] in paths;
    }
    forall q | q in files ensures FileFor(codec, files, q) in list {
      assert q in paths;
      var i :| 0 <= i < |paths| && paths[i] == q;
      assert list[i] == FileFor(codec, files, q);
    }
  }

  lemma ProductFilesMatch(codec: Codec, files: map<string, seq<byte>>, record: Record)
    requires record.files == ListOf(codec, files, Sorted(files.Keys))
    requires record.fileCount == |record.files| && record.totalBytes == SumSizes(record.files)
    requires forall q :: q in files ==> SafeRelativePath(q) == Some(q)
    ensures FilesMatch(codec, record, files)
  {
    ListDistinct(codec, files, Sorted(files.Keys), record.files);
    ListCovers(codec, files, Sorted(files.Keys), record.files);
    ListSize(codec, files, files.Keys);
    forall p | p in files ensures Listed(codec, record.files, p, files[p]) {
      assert FileFor(codec, files, p) in record.files;
    }
  }

  // With fixed paths there is only one way to decode a bundle: as itself.
  lemma FixedCleansToItself(clean: string -> Option<string>, files: map<string, seq<byte>>, b: map<string, seq<byte>>)
    requires forall q :: q in files ==> clean(q) == Some(q)
    ensures CleansTo(clean, files, files.Keys, b) <==> b == files
  {
    if CleansTo(clean, files, files.Keys, b) {
      forall q | q in b ensures q in files && b[q] == files[q] {
        assert ComesFromKey(clean, files, files.Keys, q, b[q]);
      }
      assert b.Keys == files.Keys;
    } else if b == files {
      forall q | q in b ensures ComesFromKey(clean, files, files.Keys, q, b[q]) {
        assert clean(q) == Some(q);
      }
    }
  }

  // The check accepts what the producer made, for the same profile and source,
  // exactly when the bundle is executable; and it then hands over that bundle and
  // no other.
  lemma ProducedIsAcceptedExactly(codec: Codec, profile: Profile, source: Source, bundle: map<string, seq<byte>>,
                                  product: Product, bundleHash: string)
    requires Faithful(codec) && Produce(codec, profile, source, bundle) == Some(product)
    requires profile.engine == LITESVM && source.programId == profile.programId && source.network == profile.network
    ensures forall b :: Accepts(codec, profile, RecordOf(product, source, bundleHash), source,
                                ArtifactOf(product, profile, source, bundleHash), b)
                        <==> Executable(product.files) && b == product.files
  {
    var record := RecordOf(product, source, bundleHash);
    var artifact := ArtifactOf(product, profile, source, bundleHash);
    IdentityOfProduct(product, profile, source, bundleHash);
    forall b
      ensures Accepts(codec, profile, record, source, artifact, b) <==> Executable(product.files) && b == product.files
    {
      if Accepts(codec, profile, record, source, artifact, b) {
        AcceptedIsExecutable(codec, profile, source, bundle, product, record, b);
      }
      if Executable(product.files) {
        ExecutableIsAccepted(codec, profile, source, bundle, product, record);
      }
    }
  }

  lemma IdentityOfProduct(product: Product, profile: Profile, source: Source, bundleHash: string)
    requires profile.engine == LITESVM && source.programId == profile.programId && source.network == profile.network
    ensures IdentityMatches(profile, RecordOf(product, source, bundleHash), source,
                            ArtifactOf(product, profile, source, bundleHash))
  {
    assert Lower("materialized_harness") == "materialized_harness";
    assert Lower(LITESVM) == LITESVM;
  }

  lemma AcceptedIsExecutable(codec: Codec, profile: Profile, source: Source, bundle: map<string, seq<byte>>,
                             product: Product,
                             record: Record, b: map<string, seq<byte>>)
    requires Produce(codec, profile, source, bundle) == Some(product)
    requires record.files == product.list && PathsValid(record.files) && Decodes(product.files, b)
    ensures Executable(product.files) && b == product.files
  {
    ProductFiles(codec, profile, source, bundle, product);
    ListCovers(codec, product.files, Sorted(product.files.Keys), product.list);
    forall q | q in product.files ensures SafeRelativePath(q) == Some(q) && Trimmed(q) {
      assert FileFor(codec, product.files, q) in product.list;
      PathFixedExactly(codec, profile, source, bundle, product, q);
    }
    FixedCleansToItself(SafeRelativePath, product.files, b);
  }

  lemma ExecutableIsAccepted(codec: Codec, profile: Profile, source: Source, bundle: map<string, seq<byte>>,
                             product: Product, record: Record)
    requires Faithful(codec) && Produce(codec, profile, source, bundle) == Some(product) && Executable(product.files)
    requires profile.engine == LITESVM
    requires record.files == product.list && record.fileCount == |record.files|
             && record.totalBytes == SumSizes(record.files)
    requires record.cargoManifestHash == product.cargoManifestHash && record.cargoLockHash == product.cargoLockHash
    ensures Decodes(product.files, product.files) && FilesMatch(codec, record, product.files)
    ensures HashesMatch(codec, profile, record, source, product.files)
  {
    ProductFiles(codec, profile, source, bundle, product);
    forall q | q in product.files ensures SafeRelativePath(q) == Some(q) {
      PathFixedExactly(codec, profile, source, bundle, product, q);
    }
    FixedCleansToItself(SafeRelativePath, product.files, product.files);
    ProductFilesMatch(codec, product.files, record);
    var sources := ProductHashes(codec, profile, source, bundle, product);
  }

  // ---------- the same, from the stored source on ----------

  // The path that two cleanings make of p, where both succeed.
  function CleanedTwice(clean: string -> Option<string>, p: string): Option<string> {
    if clean(p).None? then None else clean(clean(p).value)
  }

  predicate TwiceTrimmed(p: string) {
    var q := CleanedTwice(SafeRelativePath, p);
    q.Some? && Trimmed(q.value)
  }

  ghost predicate FromStored(clean: string -> Option<string>, content: map<string, seq<byte>>, q: string) {
    exists p :: p in content && CleanedTwice(clean, p) == Some(q)
  }

  lemma FromBundle(clean: string -> Option<string>, content: map<string, seq<byte>>, bundle: map<string, seq<byte>>,
                   r: string, q: string)
    requires CleansTo(clean, content, content.Keys, bundle) && r in bundle && clean(r) == Some(q)
    ensures FromStored(clean, content, q)
  {
    assert ComesFromKey(clean, content, content.Keys, r, bundle[r]);
  }

  lemma ThroughBundle(clean: string -> Option<string>, content: map<string, seq<byte>>,
                      bundle: map<string, seq<byte>>, files: set<string>)
    requires CleansTo(clean, content, content.Keys, bundle)
    requires forall r :: r in bundle ==> clean(r).Some? && clean(r).value in files
    ensures forall p :: p in content ==> CleanedTwice(clean, p).Some? && CleanedTwice(clean, p).value in files
  {
  }

  // The paths of a product are those of the stored source, cleaned twice: once
  // when it is decoded, and once by the producer.
  lemma StoredPaths(codec: Codec, profile: Profile, source: Source, content: map<string, seq<byte>>,
                    bundle: map<string, seq<byte>>, product: Product)
    requires CleansTo(SafeRelativePath, content, content.Keys, bundle)
    requires Produce(codec, profile, source, bundle) == Some(product)
    ensures forall p :: p in content ==>
              CleanedTwice(SafeRelativePath, p).Some? && CleanedTwice(SafeRelativePath, p).value in product.files
    ensures forall q :: q in product.files && q != MANIFEST_PATH ==> FromStored(SafeRelativePath, content, q)
  {
    ProductFiles(codec, profile, source, bundle, product);
    ThroughBundle(SafeRelativePath, content, bundle, product.files.Keys);
    forall q | q in product.files && q != MANIFEST_PATH ensures FromStored(SafeRelativePath, content, q) {
      assert ComesFrom(bundle, q, product.files[q]);
      var r :| r in bundle && SafeRelativePath(r) == Some(q);
      FromBundle(SafeRelativePath, content, bundle, r, q);
    }
  }

  lemma StoredTrimmed(codec: Codec, profile: Profile, source: Source, content: map<string, seq<byte>>,
                      bundle: map<string, seq<byte>>, product: Product)
    requires Decodes(content, bundle) && Produce(codec, profile, source, bundle) == Some(product)
    ensures (forall q :: q in product.files ==> Trimmed(q)) <==> (forall p :: p in content ==> TwiceTrimmed(p))
  {
    StoredPaths(codec, profile, source, content, bundle, product);
    ManifestPathFixed();
    if forall p :: p in content ==> TwiceTrimmed(p) {
      forall q | q in product.files ensures Trimmed(q) {
        if q != MANIFEST_PATH {
          assert FromStored(SafeRelativePath, content, q);
          var p :| p in content && CleanedTwice(SafeRelativePath, p) == Some(q);
          assert TwiceTrimmed(p);
        }
      }
    }
  }

  // A stored source whose product fits is accepted exactly when none of its paths
  // has white space at its ends after two cleanings.
  lemma StoredIsAcceptedExactly(codec: Codec, profile: Profile, source: Source, content: map<string, seq<byte>>,
                                bundle: map<string, seq<byte>>, product: Product, bundleHash: string)
    requires Faithful(codec) && Decodes(content, bundle) && Produce(codec, profile, source, bundle) == Some(product)
    requires profile.engine == LITESVM && source.programId == profile.programId && source.network == profile.network
    ensures forall b :: Accepts(codec, profile, RecordOf(product, source, bundleHash), source,
                                ArtifactOf(product, profile, source, bundleHash), b)
                        <==> Size(product.files) <= MAX_ARTIFACT && (forall p :: p in content ==> TwiceTrimmed(p))
                             && b == product.files
  {
    StoredTrimmed(codec, profile, source, content, bundle, product);
    ProducedIsAcceptedExactly(codec, profile, source, bundle, product, bundleHash);
  }

  // ---------- nothing outside the root ----------

  lemma CleanedInside(clean: string -> Option<string>, content: map<string, seq<byte>>, b: map<string, seq<byte>>)
    requires CleansTo(clean, content, content.Keys, b)
    requires forall p :: p in content && clean(p).Some? ==> StaysInside(clean(p).value)
    ensures forall q :: q in b ==> StaysInside(q)
  {
    forall q | q in b ensures StaysInside(q) {
      assert ComesFromKey(clean, content, content.Keys, q, b[q]);
    }
  }

  // A stored source is decoded exactly when each of its paths leads to an allowed
  // place below the root; every file then stays inside, and so does every file that
  // is handed over for execution.
  lemma DecodedStaysInside(content: map<string, seq<byte>>)
    ensures Decodable(content) <==>
              && |content| > 0 && Size(content) <= MAX_ARTIFACT
              && forall p :: p in content ==> !Rooted(Trim(p)) && Allowed(PlaceOf(Trim(p)))
    ensures forall b :: Decodes(content, b) ==> forall q :: q in b ==> StaysInside(q)
  {
    forall p ensures SafeRelativePath(p).Some? <==> !Rooted(Trim(p)) && Allowed(PlaceOf(Trim(p))) {
      SafePathExactly(p);
    }
    forall b | Decodes(content, b) ensures forall q :: q in b ==> StaysInside(q) {
      forall p | p in content && SafeRelativePath(p).Some? ensures StaysInside(SafeRelativePath(p).value) {
        SafeStaysInside(p);
      }
      CleanedInside(SafeRelativePath, content, b);
    }
  }
}
