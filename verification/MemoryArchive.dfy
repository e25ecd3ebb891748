/**
 The archive of intelligence memories.  File names are an index: the reader
 searches by a prefix that other memories may share, and then checks the stored
 envelope against the whole identity.
 */
module MemoryArchive {
  import opened Bytes
  import opened JsonValue
  import opened MemoryRedaction
  import opened Strings

  const SCHEMA := "koschei-drive-intelligence-memory-v1"
  const KIND_FALLBACK := "investigation"
  const NETWORK_FALLBACK := "unknown-network"
  const NUL := 0 as char

  // ---------- segments ----------

  predicate SegmentChar(c: char) {
    'a' <= c <= 'z' || '0' <= c <= '9' || c == '-' || c == '_'
  }

  function SegmentRune(c: char): char {
    if SegmentChar(c) then c else '-'
  }

  function DropLeadingDashes(s: string): (r: string)
    ensures r != "" ==> r[0] != '-'
    ensures |r| <= |s| && r == s[|s| - |r|..]
    ensures s != "" && s[0] != '-' ==> r == s
  {
    if s != "" && s[0] == '-' then DropLeadingDashes(s[1..]) else s
  }

  function DropTrailingDashes(s: string): (r: string)
    ensures r <= s
    ensures r != "" ==> r[|r| - 1] != '-'
    ensures s != "" && s[|s| - 1] != '-' ==> r == s
  {
    if s != "" && s[|s| - 1] == '-' then DropTrailingDashes(s[..|s| - 1]) else s
  }

  // Lower-case letters, digits, dashes and underscores, with no dash at either end.
  predicate IsSegment(s: string) {
    s != "" && s[0] != '-' && s[|s| - 1] != '-' && forall i :: 0 <= i < |s| ==> SegmentChar(s[i])
  }

  // Other characters become dashes, and dashes at the ends go.
  function Stripped(named: string): string {
    DropTrailingDashes(DropLeadingDashes(Map(SegmentRune, named)))
  }

  function Or(value: string, fallback: string): string {
    if value == "" then fallback else value
  }

  function Segment(value: string, fallback: string): string {
    Or(Stripped(Or(Lower(Trim(value)), fallback)), fallback)
  }

  lemma StrippedSegment(s: string)
    requires IsSegment(s)
    ensures Stripped(s) == s
  {
    SegmentMapped(s);
  }

  lemma SegmentMapped(s: string)
    requires AllSegmentChars(s)
    ensures Map(SegmentRune, s) == s
  {
  }

  predicate AllSegmentChars(s: string) {
    forall i :: 0 <= i < |s| ==> SegmentChar(s[i])
  }

  lemma {:induction false} LeadingChars(s: string)
    requires AllSegmentChars(s)
    ensures AllSegmentChars(DropLeadingDashes(s))
  {
    if s != "" && s[0] == '-' {
      LeadingChars(s[1..]);
    }
  }

  lemma StrippedChars(named: string)
    ensures Stripped(named) == "" || IsSegment(Stripped(named))
  {
    LeadingChars(Map(SegmentRune, named));
    TrailingChars(DropLeadingDashes(Map(SegmentRune, named)));
  }

  lemma TrailingChars(s: string)
    requires AllSegmentChars(s) && (s != "" ==> s[0] != '-')
    ensures DropTrailingDashes(s) == "" || IsSegment(DropTrailingDashes(s))
  {
    var r := DropTrailingDashes(s);
    assert forall i :: 0 <= i < |r| ==> r[i] == s[i];
  }

  lemma SegmentCharsKept(s: string)
    requires IsSegment(s)
    ensures Trim(s) == s && Lower(s) == s
  {
    forall i | 0 <= i < |s| ensures !IsSpaceRune(s[i]) && LowerRune(s[i]) == s[i] {
      assert SegmentChar(s[i]);
    }
    TrimTrimmed(s);
  }

  lemma SegmentKeepsSegment(value: string, fallback: string)
    requires IsSegment(value)
    ensures Segment(value, fallback) == value
  {
    SegmentCharsKept(value);
    StrippedSegment(value);
  }

  lemma SegmentYieldsSegment(value: string, fallback: string)
    requires IsSegment(fallback)
    ensures IsSegment(Segment(value, fallback))
  {
    StrippedChars(Or(Lower(Trim(value)), fallback));
  }

  // Normalization yields a segment, leaves segments alone and changes everything
  // else, so applying it again changes nothing.
  lemma SegmentExact(value: string, fallback: string)
    requires IsSegment(fallback)
    ensures IsSegment(Segment(value, fallback))
    ensures Segment(value, fallback) == value <==> IsSegment(value)
    ensures Segment(Segment(value, fallback), fallback) == Segment(value, fallback)
  {
    SegmentYieldsSegment(value, fallback);
    SegmentKeepsSegment(Segment(value, fallback), fallback);
    if IsSegment(value) {
      SegmentKeepsSegment(value, fallback);
    }
  }

  // Builds the segment character by character.
  method NormalizeMemorySegment(value: string, fallback: string) returns (out: string)
    ensures out == Segment(value, fallback)
  {
    var named := Lower(Trim(value));
    if named == "" {
      named := fallback;
    }
    var built := "";
    for i := 0 to |named|
      invariant built == Map(SegmentRune, named)[..i]
    {
      if SegmentChar(named[i]) {
        built := built + [named[i]];
      } else {
        built := built + ['-'];
      }
    }
    assert Map(SegmentRune, named)[..|named|] == Map(SegmentRune, named);
    out := DropTrailingDashes(DropLeadingDashes(built));
    if out == "" {
      out := fallback;
    }
  }

  lemma FallbacksAreSegments()
    ensures IsSegment(KIND_FALLBACK) && IsSegment(NETWORK_FALLBACK)
  {
  }

  // ---------- identity ----------

  // The normalized kind, network and target of a memory.
  datatype Identity = Identity(kind: string, network: string, target: string)

  function IdentityOf(kind: string, network: string, target: string): Identity {
    Identity(Segment(kind, KIND_FALLBACK), Segment(network, NETWORK_FALLBACK), Trim(target))
  }

  predicate ValidIdentity(x: Identity) {
    IsSegment(x.kind) && IsSegment(x.network) && Trimmed(x.target)
  }

  lemma IdentityValid(kind: string, network: string, target: string)
    ensures ValidIdentity(IdentityOf(kind, network, target))
  {
    FallbacksAreSegments();
    SegmentYieldsSegment(kind, KIND_FALLBACK);
    SegmentYieldsSegment(network, NETWORK_FALLBACK);
    TrimTrimmed(target);
  }

  // What is hashed to identify a memory.
  function Material(x: Identity): string {
    Trim(x.network) + [NUL] + Trim(x.kind) + [NUL] + Trim(x.target)
  }

  lemma FirstNul(a: string, x: string, b: string, y: string)
    requires NUL !in a && NUL !in b && a + [NUL] + x == b + [NUL] + y
    ensures a == b && x == y
  {
    var (s, t) := (a + [NUL] + x, b + [NUL] + y);
    assert (forall i :: 0 <= i < |a| ==> s[i] == a[i]) && s[|a|] == NUL;
    assert (forall i :: 0 <= i < |b| ==> t[i] == b[i]) && t[|b|] == NUL;
    assert |a| == |b|;
    assert a == s[..|a|] && b == t[..|b|];
    assert x == s[|a| + 1..] && y == t[|b| + 1..];
  }

  lemma NoNulInSegment(s: string)
    requires IsSegment(s)
    ensures NUL !in s
  {
    assert forall i :: 0 <= i < |s| ==> SegmentChar(s[i]);
  }

  lemma PlainMaterial(x: Identity)
    requires ValidIdentity(x)
    ensures Material(x) == x.network + [NUL] + (x.kind + [NUL] + x.target)
    ensures NUL !in x.network && NUL !in x.kind
  {
    SegmentCharsKept(x.kind);
    SegmentCharsKept(x.network);
    TrimTrimmed(x.target);
    NoNulInSegment(x.kind);
    NoNulInSegment(x.network);
    assert Material(x) == x.network + [NUL] + x.kind + [NUL] + x.target;
  }

  // The material determines the identity, although the target may hold any
  // character, the separator included.
  lemma MaterialInjective(x: Identity, y: Identity)
    requires ValidIdentity(x) && ValidIdentity(y) && Material(x) == Material(y)
    ensures x == y
  {
    PlainMaterial(x);
    PlainMaterial(y);
    FirstNul(x.network, x.kind + [NUL] + x.target, y.network, y.kind + [NUL] + y.target);
    FirstNul(x.kind, x.target, y.kind, y.target);
  }

  predicate HexDigest(d: string) {
    |d| == 64 && forall i :: 0 <= i < 64 ==> '0' <= d[i] <= '9' || 'a' <= d[i] <= 'f'
  }

  lemma DigestStable(d: string)
    requires HexDigest(d)
    ensures Lower(Trim(d)) == d
  {
    assert forall i :: 0 <= i < 64 ==> !IsSpaceRune(d[i]) && LowerRune(d[i]) == d[i];
    TrimTrimmed(d);
  }

  // ---------- names ----------

  function Short(digest: string): string {
    if |digest| > 20 then digest[..20] else digest
  }

  function NameStart(kind: string, network: string, digest: string): string {
    "arvis-memory-" + kind + "-" + network + "-" + Short(digest) + "-"
  }

  function Prefix(x: Identity, digest: string): string {
    NameStart(x.kind, x.network, digest)
  }

  function FileName(kind: string, network: string, digest: string, stamp: string): string {
    NameStart(Segment(kind, KIND_FALLBACK), Segment(network, NETWORK_FALLBACK), digest) + (stamp + ".json")
  }

  // 20060102T150405.000000000Z
  predicate Timestamp(stamp: string) {
    |stamp| == 26 && forall i :: 0 <= i < 26 ==>
      stamp[i] == (if i == 8 then 'T' else if i == 15 then '.' else if i == 25 then 'Z' else stamp[i])
      && (i != 8 && i != 15 && i != 25 ==> '0' <= stamp[i] <= '9')
  }

  // Slashes and double dots become dashes, from left to right.
  function Replaced(name: string): string
    decreases |name|
  {
    if name == "" then ""
    else if name[0] == '/' || name[0] == '\\' then "-" + Replaced(name[1..])
    else if |name| >= 2 && name[0] == '.' && name[1] == '.' then "-" + Replaced(name[2..])
    else [name[0]] + Replaced(name[1..])
  }

  // The name under which the archive stores a file.
  function StoredName(name: string): string {
    var replaced := Replaced(Trim(name));
    if |replaced| >= 5 && Lower(replaced[|replaced| - 5..]) == ".json" then replaced else replaced + ".json"
  }

  predicate SafeName(name: string) {
    && (forall i :: 0 <= i < |name| ==> name[i] != '/' && name[i] != '\\')
    && (forall i :: 0 <= i < |name| - 1 ==> !(name[i] == '.' && name[i + 1] == '.'))
  }

  lemma {:induction false} SafeNameKept(name: string)
    requires SafeName(name)
    ensures Replaced(name) == name
    decreases |name|
  {
    if name != "" {
      assert SafeName(name[1..]);
      SafeNameKept(name[1..]);
    }
  }

  lemma SafeConcat(a: string, b: string)
    requires SafeName(a) && SafeName(b) && (a == "" || a[|a| - 1] != '.')
    ensures SafeName(a + b)
  {
  }

  lemma PlainIsSafe(a: string)
    requires forall i :: 0 <= i < |a| ==> SegmentChar(a[i])
    ensures SafeName(a) && (a == "" || a[|a| - 1] != '.')
  {
  }

  lemma TailIsSafe(stamp: string)
    requires Timestamp(stamp)
    ensures SafeName(stamp + ".json")
  {
    assert SafeName(stamp);
    assert SafeName(".json");
    SafeConcat(stamp, ".json");
  }

  lemma PrefixIsPlain(x: Identity, digest: string)
    requires ValidIdentity(x) && HexDigest(digest)
    ensures forall i :: 0 <= i < |Prefix(x, digest)| ==> SegmentChar(Prefix(x, digest)[i])
  {
  }

  // A prefix of plain characters, a timestamp and the extension.
  lemma StoredUnchanged(prefix: string, stamp: string)
    requires prefix != "" && (forall i :: 0 <= i < |prefix| ==> SegmentChar(prefix[i])) && Timestamp(stamp)
    ensures StoredName(prefix + (stamp + ".json")) == prefix + (stamp + ".json")
  {
    var name := prefix + (stamp + ".json");
    PlainIsSafe(prefix);
    TailIsSafe(stamp);
    SafeConcat(prefix, stamp + ".json");
    SafeNameKept(name);
    assert SegmentChar(name[0]);
    assert name[|name| - 5..] == ".json";
    NameTrimmed(name, stamp);
  }

  lemma WrittenName(x: Identity, digest: string, stamp: string)
    requires ValidIdentity(x)
    ensures FileName(x.kind, x.network, digest, stamp) == Prefix(x, digest) + (stamp + ".json")
  {
    SegmentKeepsSegment(x.kind, KIND_FALLBACK);
    SegmentKeepsSegment(x.network, NETWORK_FALLBACK);
  }

  // Every name written for an identity is stored unchanged and starts with the
  // prefix that the reader searches for that identity.
  lemma NameStartsWithPrefix(x: Identity, digest: string, stamp: string)
    requires ValidIdentity(x) && HexDigest(digest) && Timestamp(stamp)
    ensures StoredName(FileName(x.kind, x.network, digest, stamp)) == FileName(x.kind, x.network, digest, stamp)
    ensures Prefix(x, digest) <= StoredName(FileName(x.kind, x.network, digest, stamp))
  {
    WrittenName(x, digest, stamp);
    PrefixIsPlain(x, digest);
    StoredUnchanged(Prefix(x, digest), stamp);
  }

  lemma NameTrimmed(name: string, stamp: string)
    requires name != "" && !IsSpaceRune(name[0]) && |stamp| + 5 <= |name| && name[|name| - 5..] == ".json"
    ensures Trim(name) == name && Lower(name[|name| - 5..]) == ".json"
  {
    assert name[|name| - 1] == name[|name| - 5..][4];
    TrimTrimmed(name);
    assert Lower(".json") == ".json";
  }

  // ---------- writing and reading ----------

  datatype Envelope = Envelope(schema: string, kind: string, network: string, digest: string, payload: Option<Value>)

  // The envelope written for an identity.
  function Written(hash: string -> string, x: Identity, payload: Value): Envelope {
    Envelope(SCHEMA, x.kind, x.network, hash(Material(x)), Some(Redact(payload)))
  }

  // What reading one file of the archive gives.
  datatype Fetched = Unreadable | Undecodable | Decoded(envelope: Envelope)

  datatype Lookup = Found(file: string, envelope: Envelope) | NotFound | Failed

  predicate Matches(hash: string -> string, x: Identity, e: Envelope) {
    && e.schema == SCHEMA
    && Segment(e.kind, KIND_FALLBACK) == x.kind && Segment(e.network, NETWORK_FALLBACK) == x.network
    && Lower(Trim(e.digest)) == hash(Material(x))
  }

  // The reader skips a file only when it decodes to another memory's envelope.
  predicate Skipped(hash: string -> string, x: Identity, f: Fetched) {
    f.Decoded? && !Matches(hash, x, f.envelope)
  }

  function WithPayload(e: Envelope): Envelope {
    if e.payload.None? then e.(payload := Some(Object(map[]))) else e
  }

  function Answer(hash: string -> string, x: Identity, file: string, f: Fetched): Lookup {
    if f.Decoded? && Matches(hash, x, f.envelope) then Found(file, WithPayload(f.envelope)) else Failed
  }

  function FileIds(listing: seq<string>): seq<string> {
    if listing == [] then [] else
      var id := Trim(listing[|listing| - 1]);
      FileIds(listing[..|listing| - 1]) + (if id != "" then [id] else [])
  }

  method CollectFileIds(listing: seq<string>) returns (ids: seq<string>)
    ensures ids == FileIds(listing)
  {
    ids := [];
    for i := 0 to |listing|
      invariant ids == FileIds(listing[..i])
    {
      assert listing[..i + 1][..i] == listing[..i];
      var id := Trim(listing[i]);
      if id != "" {
        ids := ids + [id];
      }
    }
    assert listing[..|listing|] == listing;
  }

  // The first file that is not skipped decides: a match is returned, anything
  // else is an error.
  ghost predicate Decides(hash: string -> string, x: Identity, ids: seq<string>, fetch: string -> Fetched, r: Lookup) {
    && (AllSkipped(hash, x, ids, fetch, |ids|) ==> r == NotFound)
    && (forall i :: 0 <= i < |ids| && AllSkipped(hash, x, ids, fetch, i) && !Skipped(hash, x, fetch(ids[i])) ==>
                      r == Answer(hash, x, ids[i], fetch(ids[i])))
  }

  ghost predicate AllSkipped(hash: string -> string, x: Identity, ids: seq<string>, fetch: string -> Fetched, n: nat)
    requires n <= |ids|
  {
    forall j :: 0 <= j < n ==> Skipped(hash, x, fetch(ids[j]))
  }

  lemma DecidedAt(hash: string -> string, x: Identity, ids: seq<string>, fetch: string -> Fetched, i: nat)
    requires i < |ids| && AllSkipped(hash, x, ids, fetch, i) && !Skipped(hash, x, fetch(ids[i]))
    ensures Decides(hash, x, ids, fetch, Answer(hash, x, ids[i], fetch(ids[i])))
  {
    forall k | 0 <= k < |ids| && AllSkipped(hash, x, ids, fetch, k) && !Skipped(hash, x, fetch(ids[k])) ensures k == i {
    }
  }

  // The checks on one decoded envelope, in the order of the reader.
  method CheckEnvelope(e: Envelope, x: Identity, hash: string -> string) returns (ok: bool)
    ensures ok <==> Matches(hash, x, e)
  {
    if e.schema != SCHEMA {
      return false;
    }
    var kind := NormalizeMemorySegment(e.kind, KIND_FALLBACK);
    var network := NormalizeMemorySegment(e.network, NETWORK_FALLBACK);
    if kind != x.kind || network != x.network {
      return false;
    }
    return Lower(Trim(e.digest)) == hash(Material(x));
  }

  method FindMatch(hash: string -> string, x: Identity, ids: seq<string>, fetch: string -> Fetched) returns (r: Lookup)
    ensures Decides(hash, x, ids, fetch, r)
  {
    for i := 0 to |ids|
      invariant AllSkipped(hash, x, ids, fetch, i)
    {
      var f := fetch(ids[i]);
      if !f.Decoded? {
        DecidedAt(hash, x, ids, fetch, i);
        return Failed;
      }
      var same := CheckEnvelope(f.envelope, x, hash);
      if !same {
        continue;
      }
      DecidedAt(hash, x, ids, fetch, i);
      var e := f.envelope;
      if e.payload.None? {
        e := e.(payload := Some(Object(map[])));
      }
      return Found(ids[i], e);
    }
    return NotFound;
  }

  // The reader's answer for an identity, given what the search finds for a name
  // prefix and what reading a file gives.
  ghost predicate Answers(hash: string -> string, x: Identity, find: string -> Option<seq<string>>,
                          fetch: string -> Fetched, r: Lookup) {
    var listing := find(Prefix(x, hash(Material(x))));
    && (listing.None? ==> r == Failed)
    && (listing.Some? ==> Decides(hash, x, FileIds(listing.value), fetch, r))
  }

  method GetLatest(hash: string -> string, kind: string, network: string, target: string,
                   find: string -> Option<seq<string>>, fetch: string -> Fetched) returns (r: Lookup)
    ensures Trim(target) == "" ==> r == Failed
    ensures Trim(target) != "" ==> Answers(hash, IdentityOf(kind, network, target), find, fetch, r)
  {
    var k := NormalizeMemorySegment(kind, KIND_FALLBACK);
    var n := NormalizeMemorySegment(network, NETWORK_FALLBACK);
    var t := Trim(target);
    if t == "" {
      return Failed;
    }
    var fullHash := hash(Material(Identity(k, n, t)));
    r := GetNormalized(hash, Identity(k, n, t), fullHash, find, fetch);
  }

  method SearchPrefix(x: Identity, fullHash: string) returns (prefix: string)
    ensures prefix == Prefix(x, fullHash)
  {
    var shortHash := fullHash;
    if |shortHash| > 20 {
      shortHash := shortHash[..20];
    }
    prefix := "arvis-memory-" + x.kind + "-" + x.network + "-" + shortHash + "-";
  }

  // The request for normalized names.
  method GetNormalized(hash: string -> string, x: Identity, fullHash: string,
                       find: string -> Option<seq<string>>, fetch: string -> Fetched) returns (r: Lookup)
    requires fullHash == hash(Material(x))
    ensures Answers(hash, x, find, fetch, r)
  {
    var prefix := SearchPrefix(x, fullHash);
    var listing := find(prefix);
    if listing.None? {
      return Failed;
    }
    var ids := CollectFileIds(listing.value);
    if ids == [] {
      return NotFound;
    }
    r := FindMatch(hash, x, ids, fetch);
  }

  // ---------- main result ----------

  ghost predicate Collision(hash: string -> string, a: string, b: string) {
    a != b && hash(a) == hash(b)
  }

  // The reader matches the envelopes written for the requested identity, and an
  // envelope written for another one only if the hash of their materials collides.
  lemma MatchesExactlyItsIdentity(hash: string -> string, x: Identity, y: Identity, payload: Value)
    requires ValidIdentity(x) && ValidIdentity(y) && HexDigest(hash(Material(y)))
    ensures Matches(hash, x, Written(hash, y, payload)) <==>
              x == y || (x.kind == y.kind && x.network == y.network && Collision(hash, Material(x), Material(y)))
  {
    SegmentKeepsSegment(y.kind, KIND_FALLBACK);
    SegmentKeepsSegment(y.network, NETWORK_FALLBACK);
    DigestStable(hash(Material(y)));
    if Material(x) == Material(y) {
      MaterialInjective(x, y);
    }
  }

  // ---------- segments, character by character ----------

  // Lower-case letters, digits and underscores stand for themselves, anything else
  // is a dash.
  function Dashed(c: char): char {
    if 'a' <= c <= 'z' || '0' <= c <= '9' || c == '_' then c else '-'
  }

  predicate AllDashes(s: string) {
    forall i :: 0 <= i < |s| ==> s[i] == '-'
  }

  lemma {:induction false} DroppedDashes(s: string)
    ensures forall i :: 0 <= i < |s| - |DropLeadingDashes(s)| ==> s[i] == '-'
    decreases |s|
  {
    if s != "" && s[0] == '-' {
      var rest := s[1..];
      DroppedDashes(rest);
      forall i | 0 < i < |s| - |DropLeadingDashes(rest)| ensures s[i] == '-' {
        assert rest[i - 1] == s[i];
      }
    }
  }

  lemma LeadingDashes(s: string) returns (head: string)
    ensures s == head + DropLeadingDashes(s) && AllDashes(head)
  {
    head := s[..|s| - |DropLeadingDashes(s)|];
    DroppedDashes(s);
  }

  lemma {:induction false} TrailingDashes(s: string) returns (tail: string)
    ensures s == DropTrailingDashes(s) + tail && AllDashes(tail)
    decreases |s|
  {
    if s != "" && s[|s| - 1] == '-' {
      var rest := TrailingDashes(s[..|s| - 1]);
      tail := rest + [s[|s| - 1]];
      assert s == s[..|s| - 1] + [s[|s| - 1]];
    } else {
      tail := "";
    }
  }

  lemma MapThree(f: char -> char, s: string, a: string, b: string, c: string) returns (x: string, y: string, z: string)
    requires Map(f, s) == a + b + c
    ensures s == x + y + z && Map(f, x) == a && Map(f, y) == b && Map(f, z) == c
  {
    x, y, z := s[..|a|], s[|a|..|a| + |b|], s[|a| + |b|..];
  }

  lemma SegmentRuneIsDashed(s: string)
    ensures Map(SegmentRune, s) == Map(Dashed, s)
  {
  }

  lemma DashesCut(all: string) returns (head: string, tail: string)
    ensures all == head + DropTrailingDashes(DropLeadingDashes(all)) + tail && AllDashes(head) && AllDashes(tail)
  {
    head := LeadingDashes(all);
    var rest := DropLeadingDashes(all);
    tail := TrailingDashes(rest);
    ThreeParts(all, head, rest, DropTrailingDashes(rest), tail);
  }

  lemma ThreeParts(s: string, a: string, rest: string, b: string, c: string)
    requires s == a + rest && rest == b + c
    ensures s == a + b + c
  {
  }

  // A stripped name is the middle of the given one with each character kept or
  // written as a dash, and of the two ends nothing but dashes would be left.
  lemma StrippedExactly(named: string) returns (head: string, middle: string, tail: string)
    ensures named == head + middle + tail && Stripped(named) == Map(Dashed, middle)
    ensures AllDashes(Map(Dashed, head)) && AllDashes(Map(Dashed, tail))
  {
    SegmentRuneIsDashed(named);
    var a, c := DashesCut(Map(SegmentRune, named));
    head, middle, tail := MapThree(Dashed, named, a, Stripped(named), c);
  }
}
