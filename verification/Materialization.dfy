/**
 The materialization of a harness bundle: its files under cleaned paths and in
 normalized text, a generated manifest beside them, and a list of every file.
 */
module Materialization {
  import opened Bytes
  import opened JsonCanonical
  import opened MaterialText
  import opened Paths
  import opened Strings

  const MANIFEST_PATH := "koschei/materialization.json"
  const CARGO_TOML := "Cargo.toml"
  const CARGO_LOCK := "Cargo.lock"
  const LITESVM := "litesvm"
  const MAX_FILE: nat := 300 * 1024
  const MAX_ARTIFACT: nat := 900 * 1024
  const MAX_SOURCE: nat := MAX_ARTIFACT - 64 * 1024

  datatype File = File(path: string, size: nat, hash: string, generated: bool)

  datatype Profile = Profile(ref: string, hash: string, programId: string, network: string, engine: string)

  datatype Source = Source(ref: string, contentHash: string, programId: string, network: string)

  datatype Manifest = Manifest(
    profileRef: string, profileHash: string, sourceRef: string, sourceHash: string, programId: string, network: string,
    engine: string, files: seq<File>, cargoManifestHash: string, cargoLockHash: string,
    networkAccess: bool, dependencyResolution: bool, sourceExecuted: bool, harnessExecuted: bool,
    mainnetTransactionSent: bool, verdictAuthority: bool)

  // What is abstract here: the hash, the JSON text of a manifest, and the checks
  // on the text of the two Cargo files.
  datatype Codec = Codec(
    hash: seq<byte> -> string, encode: Manifest -> seq<byte>, decode: seq<byte> -> Option<Manifest>,
    offline: (seq<byte>, seq<byte>) -> bool)

  ghost predicate Faithful(codec: Codec) {
    forall m :: codec.decode(codec.encode(m)) == Some(m)
  }

  datatype Product = Product(files: map<string, seq<byte>>, list: seq<File>, cargoManifestHash: string,
                             cargoLockHash: string)

  // ---------- sizes ----------

  function SumOver(m: map<string, seq<byte>>, keys: set<string>): nat
    requires keys <= m.Keys
    decreases |keys|
  {
    if keys == {} then 0 else |m[Least(keys)]| + SumOver(m, keys - {Least(keys)})
  }

  function Size(m: map<string, seq<byte>>): nat {
    SumOver(m, m.Keys)
  }

  lemma {:induction false} SumRemove(m: map<string, seq<byte>>, keys: set<string>, k: string)
    requires keys <= m.Keys && k in keys
    ensures SumOver(m, keys) == |m[k]| + SumOver(m, keys - {k})
    decreases |keys|
  {
    var l := Least(keys);
    if k != l {
      SumRemove(m, keys - {l}, k);
      assert keys - {l} - {k} == keys - {k} - {l};
      LeastUnique(keys - {k});
      assert IsLeast(l, keys - {k});
    }
  }

  lemma SumNext(m: map<string, seq<byte>>, keys: set<string>, k: string)
    requires keys <= m.Keys && k in m && k !in keys
    ensures SumOver(m, keys + {k}) == SumOver(m, keys) + |m[k]|
  {
    SumRemove(m, keys + {k}, k);
    assert keys + {k} - {k} == keys;
  }

  function SumSizes(files: seq<File>): nat {
    if files == [] then 0 else files[0].size + SumSizes(files[1..])
  }

  function Lookup(m: map<string, seq<byte>>, path: string): seq<byte> {
    if path in m then m[path] else []
  }

  // ---------- the collection of the files ----------

  datatype Progress = Progress(files: map<string, seq<byte>>, sources: seq<File>, total: nat, rust: bool)

  predicate IsRustTest(path: string) {
    "tests/" <= path && |path| >= 3 && Lower(path)[|path| - 3..] == ".rs"
  }

  function Advance(codec: Codec, bundle: map<string, seq<byte>>, path: string, p: Progress): Option<Progress>
    requires path in bundle
  {
    var clean := SafeRelativePath(path);
    var content := NormalizeText(bundle[path]);
    if clean.None? || 0 in content || |content| > MAX_FILE || p.total + |content| > MAX_SOURCE then None
    else
      Some(Progress(
             p.files[clean.value := content], p.sources + [File(clean.value, |content|, codec.hash(content), false)],
             p.total + |content|, p.rust || IsRustTest(clean.value)))
  }

  function Collect(codec: Codec, bundle: map<string, seq<byte>>, paths: seq<string>): Option<Progress>
    requires forall p :: p in paths ==> p in bundle
    decreases |paths|
  {
    if paths == [] then Some(Progress(map[], [], 0, false)) else
      var before := Collect(codec, bundle, paths[..|paths| - 1]);
      if before.None? then None else Advance(codec, bundle, paths[|paths| - 1], before.value)
  }

  function ManifestFor(profile: Profile, source: Source, sources: seq<File>, toml: string, lock: string): Manifest {
    Manifest(profile.ref, profile.hash, source.ref, source.contentHash, profile.programId, profile.network,
             profile.engine,
             sources, toml, lock, false, false, false, false, false, false)
  }

  function FileFor(codec: Codec, files: map<string, seq<byte>>, path: string): File
    requires path in files
  {
    File(path, |files[path]|, codec.hash(files[path]), path == MANIFEST_PATH)
  }

  // The list of the files, in the order of their paths.
  function ListOf(codec: Codec, files: map<string, seq<byte>>, paths: seq<string>): (r: seq<File>)
    requires forall p :: p in paths ==> p in files
    ensures |r| == |paths| && forall i :: 0 <= i < |paths| ==> r[i] == FileFor(codec, files, paths[i])
  {
    if paths == [] then [] else [FileFor(codec, files, paths[0])] + ListOf(codec, files, paths[1..])
  }

  function Finish(codec: Codec, profile: Profile, source: Source, p: Progress): Option<Product> {
    var (toml, lock) := (Lookup(p.files, CARGO_TOML), Lookup(p.files, CARGO_LOCK));
    if toml == [] || lock == [] || !p.rust || !codec.offline(toml, lock) then None else
      var (tomlHash, lockHash) := (codec.hash(toml), codec.hash(lock));
      var files := p.files[MANIFEST_PATH := codec.encode(ManifestFor(profile, source, p.sources, tomlHash, lockHash))];
      Some(Product(files, ListOf(codec, files, Sorted(files.Keys)), tomlHash, lockHash))
  }

  function Produce(codec: Codec, profile: Profile, source: Source, bundle: map<string, seq<byte>>): Option<Product> {
    if |bundle| == 0 || |bundle| > 200 || MANIFEST_PATH in bundle then None else
      var collected := Collect(codec, bundle, Sorted(bundle.Keys));
      if collected.None? then None else Finish(codec, profile, source, collected.value)
  }

  // ---------- the producer ----------

  method NormalizeHarnessBundle(codec: Codec, profile: Profile, source: Source, bundle: map<string, seq<byte>>)
    returns (r: Option<Product>)
    ensures r == Produce(codec, profile, source, bundle)
  {
    if |bundle| == 0 || |bundle| > 200 || MANIFEST_PATH in bundle {
      return None;
    }
    var paths := SortKeys(bundle.Keys);
    var collected, cargoManifest, cargoLock := CollectFiles(codec, bundle, paths);
    if collected.None? {
      return None;
    }
    r := FinishBundle(codec, profile, source, collected.value, cargoManifest, cargoLock);
  }

  // The checks on the whole bundle, and its manifest.
  method FinishBundle(codec: Codec, profile: Profile, source: Source, p: Progress, cargoManifest: seq<byte>,
                      cargoLock: seq<byte>)
    returns (r: Option<Product>)
    requires cargoManifest == Lookup(p.files, CARGO_TOML) && cargoLock == Lookup(p.files, CARGO_LOCK)
    ensures r == Finish(codec, profile, source, p)
  {
    if cargoManifest == [] || cargoLock == [] || !p.rust || !codec.offline(cargoManifest, cargoLock) {
      return None;
    }
    r := WithManifest(codec, profile, source, p.files, p.sources, cargoManifest, cargoLock);
  }

  // The loop over the sorted paths.
  method CollectFiles(codec: Codec, bundle: map<string, seq<byte>>, paths: seq<string>)
    returns (r: Option<Progress>, cargoManifest: seq<byte>, cargoLock: seq<byte>)
    requires forall p :: p in paths ==> p in bundle
    ensures r == Collect(codec, bundle, paths)
    ensures r.Some? ==>
              cargoManifest == Lookup(r.value.files, CARGO_TOML) && cargoLock == Lookup(r.value.files, CARGO_LOCK)
  {
    var p := Progress(map[], [], 0, false);
    cargoManifest, cargoLock := [], [];
    for i := 0 to |paths|
      invariant Collect(codec, bundle, paths[..i]) == Some(p)
      invariant cargoManifest == Lookup(p.files, CARGO_TOML) && cargoLock == Lookup(p.files, CARGO_LOCK)
    {
      CollectNext(codec, bundle, paths, i);
      var clean, next := AddFile(codec, bundle, paths[i], p);
      if next.None? {
        CollectFails(codec, bundle, paths, i + 1);
        return None, [], [];
      }
      p := next.value;
      if clean == CARGO_TOML {
        cargoManifest := p.files[clean];
      }
      if clean == CARGO_LOCK {
        cargoLock := p.files[clean];
      }
    }
    assert paths[..|paths|] == paths;
    r := Some(p);
  }

  // One turn of the loop.
  method AddFile(codec: Codec, bundle: map<string, seq<byte>>, path: string, p: Progress)
    returns (clean: string, r: Option<Progress>)
    requires path in bundle
    ensures r == Advance(codec, bundle, path, p)
    ensures r.Some? ==> clean in r.value.files && r.value.files == p.files[clean := r.value.files[clean]]
  {
    var safe := SafeRelativePath(path);
    if safe.None? {
      return "", None;
    }
    clean := safe.value;
    var content := NormalizeText(bundle[path]);
    if 0 in content || |content| > MAX_FILE {
      return clean, None;
    }
    var totalBytes: nat := p.total + |content|;
    if totalBytes > MAX_SOURCE {
      return clean, None;
    }
    var hasRustTest := p.rust;
    if IsRustTest(clean) {
      hasRustTest := true;
    }
    r := Some(Progress(p.files[clean := content], p.sources + [File(clean, |content|, codec.hash(content), false)],
                       totalBytes, hasRustTest));
  }

  // Adds the generated manifest and lists every file.
  method WithManifest(codec: Codec, profile: Profile, source: Source, normalized: map<string, seq<byte>>,
                      sources: seq<File>,
                      cargoManifest: seq<byte>, cargoLock: seq<byte>) returns (r: Option<Product>)
    ensures var (toml, lock) := (codec.hash(cargoManifest), codec.hash(cargoLock));
            var files := normalized[MANIFEST_PATH := codec.encode(ManifestFor(profile, source, sources, toml, lock))];
            r == Some(Product(files, ListOf(codec, files, Sorted(files.Keys)), toml, lock))
  {
    var cargoManifestHash, cargoLockHash := codec.hash(cargoManifest), codec.hash(cargoLock);
    var manifest := Manifest(profile.ref, profile.hash, source.ref, source.contentHash, profile.programId,
                             profile.network,
                             profile.engine, sources, cargoManifestHash, cargoLockHash,
                             false, false, false, false, false, false);
    var files := normalized[MANIFEST_PATH := codec.encode(manifest)];
    var paths := SortKeys(files.Keys);
    var list: seq<File> := [];
    for i := 0 to |paths|
      invariant |list| == i && forall j :: 0 <= j < i ==>
                  paths[j] in files && list[j] == FileFor(codec, files, paths[j])
    {
      assert paths[i] in paths;
      var content := files[paths[i]];
      list := list + [File(paths[i], |content|, codec.hash(content), paths[i] == MANIFEST_PATH)];
    }
    assert list == ListOf(codec, files, paths);
    return Some(Product(files, list, cargoManifestHash, cargoLockHash));
  }

  lemma CollectNext(codec: Codec, bundle: map<string, seq<byte>>, paths: seq<string>, i: nat)
    requires i < |paths| && forall p :: p in paths ==> p in bundle
    ensures forall p :: p in paths[..i + 1] ==> p in bundle
    ensures forall p :: p in paths[..i] ==> p in bundle
    ensures paths[i] in bundle
    ensures var before := Collect(codec, bundle, paths[..i]);
            Collect(codec, bundle, paths[..i + 1]) ==
              if before.None? then None else Advance(codec, bundle, paths[i], before.value)
  {
    assert paths[i] in paths;
    assert paths[..i + 1][..i] == paths[..i];
  }

  lemma {:induction false} CollectFails(codec: Codec, bundle: map<string, seq<byte>>, paths: seq<string>, i: nat)
    requires i <= |paths| && forall p :: p in paths ==> p in bundle
    requires Collect(codec, bundle, paths[..i]).None?
    ensures Collect(codec, bundle, paths).None?
    decreases |paths| - i
  {
    if i < |paths| {
      CollectNext(codec, bundle, paths, i);
      CollectFails(codec, bundle, paths, i + 1);
    } else {
      assert paths[..i] == paths;
    }
  }

  // ---------- what a product holds ----------

  // q is a cleaned path of the bundle, holding the normalized text of a file that
  // was given under such a path.
  ghost predicate ComesFrom(bundle: map<string, seq<byte>>, q: string, content: seq<byte>) {
    exists p :: p in bundle && SafeRelativePath(p) == Some(q) && content == NormalizeText(bundle[p])
  }

  lemma AdvancedFiles(codec: Codec, bundle: map<string, seq<byte>>, path: string, p: Progress)
    requires path in bundle && Advance(codec, bundle, path, p).Some?
    requires forall q :: q in p.files ==> ComesFrom(bundle, q, p.files[q])
    ensures var files := Advance(codec, bundle, path, p).value.files;
            && SafeRelativePath(path).Some? && SafeRelativePath(path).value in files
            && (forall q :: q in p.files ==> q in files) && (forall q :: q in files ==> ComesFrom(bundle, q, files[q]))
  {
  }

  lemma {:induction false} CollectedFiles(codec: Codec, bundle: map<string, seq<byte>>, paths: seq<string>)
    requires (forall p :: p in paths ==> p in bundle) && Collect(codec, bundle, paths).Some?
    ensures var files := Collect(codec, bundle, paths).value.files;
            && (forall p :: p in paths ==> SafeRelativePath(p).Some? && SafeRelativePath(p).value in files)
            && (forall q :: q in files ==> ComesFrom(bundle, q, files[q]))
    decreases |paths|
  {
    if paths != [] {
      var last := |paths| - 1;
      CollectNext(codec, bundle, paths, last);
      assert paths[..last + 1] == paths;
      CollectedFiles(codec, bundle, paths[..last]);
      AdvancedFiles(codec, bundle, paths[last], Collect(codec, bundle, paths[..last]).value);
    }
  }

  lemma ProductParts(codec: Codec, profile: Profile, source: Source, bundle: map<string, seq<byte>>, product: Product)
    returns (p: Progress)
    requires Produce(codec, profile, source, bundle) == Some(product)
    ensures Collect(codec, bundle, Sorted(bundle.Keys)) == Some(p)
    ensures product.cargoManifestHash == codec.hash(Lookup(p.files, CARGO_TOML))
    ensures product.cargoLockHash == codec.hash(Lookup(p.files, CARGO_LOCK))
    ensures product.files == p.files[MANIFEST_PATH :=
              codec.encode(ManifestFor(profile, source, p.sources, product.cargoManifestHash, product.cargoLockHash))]
    ensures product.list == ListOf(codec, product.files, Sorted(product.files.Keys))
  {
    p := Collect(codec, bundle, Sorted(bundle.Keys)).value;
  }

  lemma CollectedWithManifest(codec: Codec, bundle: map<string, seq<byte>>, p: Progress, content: seq<byte>)
    requires Collect(codec, bundle, Sorted(bundle.Keys)) == Some(p)
    ensures var files := p.files[MANIFEST_PATH := content];
            && (forall path :: path in bundle ==> SafeRelativePath(path).Some? && SafeRelativePath(path).value in files)
            && (forall q :: q in files && q != MANIFEST_PATH ==> ComesFrom(bundle, q, files[q]))
  {
    var paths := Sorted(bundle.Keys);
    CollectedFiles(codec, bundle, paths);
    forall path | path in bundle ensures SafeRelativePath(path).Some? && SafeRelativePath(path).value in p.files {
      assert path in paths;
    }
  }

  // A product holds exactly the cleaned paths of the bundle and the manifest, each
  // with the normalized text of a file given under it, listed in order.
  lemma ProductFiles(codec: Codec, profile: Profile, source: Source, bundle: map<string, seq<byte>>, product: Product)
    requires Produce(codec, profile, source, bundle) == Some(product)
    ensures forall p :: p in bundle ==> SafeRelativePath(p).Some? && SafeRelativePath(p).value in product.files
    ensures forall q :: q in product.files && q != MANIFEST_PATH ==> ComesFrom(bundle, q, product.files[q])
    ensures MANIFEST_PATH in product.files && product.list == ListOf(codec, product.files, Sorted(product.files.Keys))
  {
    var p := ProductParts(codec, profile, source, bundle, product);
    CollectedWithManifest(codec, bundle, p, product.files[MANIFEST_PATH]);
  }

  lemma LookupOther(files: map<string, seq<byte>>, content: seq<byte>)
    ensures Lookup(files[MANIFEST_PATH := content], CARGO_TOML) == Lookup(files, CARGO_TOML)
    ensures Lookup(files[MANIFEST_PATH := content], CARGO_LOCK) == Lookup(files, CARGO_LOCK)
  {
    assert MANIFEST_PATH[0] != CARGO_TOML[0] && MANIFEST_PATH[0] != CARGO_LOCK[0];
  }

  // The hashes are those of the product's own Cargo files, and the manifest
  // decodes to one that names the profile and the source.
  lemma ProductHashes(codec: Codec, profile: Profile, source: Source, bundle: map<string, seq<byte>>, product: Product)
    returns (sources: seq<File>)
    requires Faithful(codec) && Produce(codec, profile, source, bundle) == Some(product)
    ensures product.cargoManifestHash == codec.hash(Lookup(product.files, CARGO_TOML))
    ensures product.cargoLockHash == codec.hash(Lookup(product.files, CARGO_LOCK))
    ensures MANIFEST_PATH in product.files
    ensures codec.decode(product.files[MANIFEST_PATH])
            == Some(ManifestFor(profile, source, sources, product.cargoManifestHash, product.cargoLockHash))
  {
    var p := ProductParts(codec, profile, source, bundle, product);
    sources := p.sources;
    var m := ManifestFor(profile, source, sources, product.cargoManifestHash, product.cargoLockHash);
    LookupOther(p.files, codec.encode(m));
    assert codec.decode(codec.encode(m)) == Some(m);
  }

  lemma {:induction false} ListSize(codec: Codec, files: map<string, seq<byte>>, keys: set<string>)
    requires keys <= files.Keys
    ensures SumSizes(ListOf(codec, files, Sorted(keys))) == SumOver(files, keys)
    decreases |keys|
  {
    if keys != {} {
      ListSize(codec, files, keys - {Least(keys)});
    }
  }
}
