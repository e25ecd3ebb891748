/**
 Reading a deployed program from chain state, in two ways: the full inspection
 that downloads the bytecode, and the header inspection that asks for the first
 45 bytes of each account only.  The two use different little-endian readers and
 different parsers; they are proved to agree.
 */
module ProgramAccounts {
  import opened Bytes
  import opened Base58
  import opened Addresses

  const UPGRADEABLE_LOADER := "BPFLoaderUpgradeab1e11111111111111111111111"
  const LEGACY_LOADER_V2 := "BPFLoader2111111111111111111111111111111111"
  const LEGACY_LOADER_V1 := "BPFLoader1111111111111111111111111111111111"
  const MAX_PROGRAM_BYTES := 12 * 1024 * 1024
  const HEADER_BYTES := 45

  // ---------- little-endian integers ----------

  // Bitwise or of natural numbers, bit by bit.
  function Or(a: nat, b: nat): nat {
    if a == 0 then b
    else if b == 0 then a
    else (if a % 2 == 1 || b % 2 == 1 then 1 else 0) + 2 * Or(a / 2, b / 2)
  }

  // Or-ing numbers whose bits do not overlap adds them.
  lemma {:induction false} OrDisjoint(low: nat, high: nat, k: nat)
    requires low < Pow(2, k)
    ensures Or(low, high * Pow(2, k)) == low + high * Pow(2, k)
  {
    if k > 0 && low > 0 && high > 0 {
      var shifted := high * Pow(2, k - 1);
      assert high * Pow(2, k) == 2 * shifted;
      OrDisjoint(low / 2, high, k - 1);
    }
  }

  function Shift(value: nat, bits: nat): nat {
    value * Pow(2, bits)
  }

  // The header reader: shifts joined by bitwise or.  An unsigned result of
  // `width` bytes has room for every bit, so nothing is cut off.
  function ShiftOr(value: seq<byte>, width: nat): nat
    requires width <= |value|
  {
    if width == 0 then 0 else Or(ShiftOr(value, width - 1), Shift(value[width - 1], 8 * (width - 1)))
  }

  // The full reader: the standard positional decode.
  function LittleEndian(value: seq<byte>): nat {
    Value(value, 256)
  }

  lemma TimesShifted(last: nat, p: nat)
    ensures last * (256 * p) == 256 * (last * p)
  {
  }

  lemma {:induction false} ValueExtended(digits: seq<nat>, last: nat)
    ensures Value(digits + [last], 256) == Value(digits, 256) + last * Pow(256, |digits|)
  {
    if digits == [] {
      assert (digits + [last])[1..] == [];
    } else {
      assert (digits + [last])[1..] == digits[1..] + [last];
      ValueExtended(digits[1..], last);
      TimesShifted(last, Pow(256, |digits| - 1));
      PlaceIs256(digits[0], Value(digits[1..], 256));
      PlaceIs256(digits[0], Value((digits + [last])[1..], 256));
    }
  }

  lemma {:induction false} ValueBound(digits: seq<nat>)
    requires Below(digits, 256)
    ensures Value(digits, 256) < Pow(256, |digits|)
  {
    if digits != [] {
      ValueBound(digits[1..]);
      BelowProduct(Value(digits[1..], 256), digits[0], 256, Pow(256, |digits| - 1));
    }
  }

  lemma {:induction false} BytesInBits(k: nat)
    ensures Pow(2, 8 * k) == Pow(256, k)
  {
    if k > 0 {
      BytesInBits(k - 1);
      PowSum(2, 8, 8 * (k - 1));
      assert Pow(2, 8) == 256;
    }
  }

  lemma {:induction false} ShiftOrIsLittleEndian(value: seq<byte>, width: nat)
    requires width <= |value|
    ensures ShiftOr(value, width) == LittleEndian(value[..width])
  {
    if width > 0 {
      ShiftOrIsLittleEndian(value, width - 1);
      var digits: seq<nat> := value[..width - 1];
      assert value[..width] == digits + [value[width - 1]];
      ValueExtended(digits, value[width - 1]);
      ValueBound(digits);
      BytesInBits(width - 1);
      OrDisjoint(LittleEndian(digits), value[width - 1], 8 * (width - 1));
    }
  }

  // ---------- account parsers ----------

  function ParseProgramAccount(data: seq<byte>): Option<string> {
    if |data| < 36 || LittleEndian(data[..4]) != 2 then None else Some(Encoding(data[4..36]))
  }

  datatype ProgramData = ProgramData(slot: nat, authority: string, bytecode: seq<byte>)

  function ParseProgramData(data: seq<byte>): Option<ProgramData> {
    if |data| < 45 || LittleEndian(data[..4]) != 3 then None
    else if data[12] > 1 then None
    else if |data[45..]| == 0 then None
    else
      var authority := if data[12] == 1 then Encoding(data[13..45]) else "";
      Some(ProgramData(LittleEndian(data[4..12]), authority, data[45..]))
  }

  function ParseProgramDataHeader(data: seq<byte>): Option<(nat, string)> {
    if |data| < 45 || ShiftOr(data[..4], 4) != 3 then None
    else if data[12] == 0 then Some((ShiftOr(data[4..12], 8), ""))
    else if data[12] == 1 then Some((ShiftOr(data[4..12], 8), Encoding(data[13..45])))
    else None
  }

  // The header parser sees as much of the account as it was sent and reaches
  // the same result; only the full parser insists on bytecode after the header.
  lemma HeaderParserAgrees(data: seq<byte>, sent: seq<byte>)
    requires sent == if |data| < 45 then data else data[..45]
    ensures ParseProgramData(data).Some? <==> ParseProgramDataHeader(sent).Some? && |data| > 45
    ensures ParseProgramData(data).Some? ==>
              var full := ParseProgramData(data).value;
              ParseProgramDataHeader(sent).value == (full.slot, full.authority)
  {
    if |data| >= 45 {
      ShiftOrIsLittleEndian(sent[..4], 4);
      ShiftOrIsLittleEndian(sent[4..12], 8);
      assert sent[..4] == data[..4] && sent[4..12] == data[4..12] && sent[13..45] == data[13..45];
      assert sent[..4][..4] == sent[..4] && sent[4..12][..8] == sent[4..12];
    }
  }

  method TrimTrailingZeroPadding(data: seq<byte>) returns (trimmed: seq<byte>, padding: nat)
    ensures data == trimmed + Zeros(padding)
    ensures data != [] ==> trimmed != []
    ensures |trimmed| > 1 ==> trimmed[|trimmed| - 1] != 0
  {
    var end := |data|;
    while end > 1 && data[end - 1] == 0
      invariant 0 <= end <= |data| && (data != [] ==> end > 0)
      invariant forall i :: end <= i < |data| ==> data[i] == 0
    {
      end := end - 1;
    }
    return data[..end], |data| - end;
  }

  // The three promises above leave no choice: two trimmings of the same bytes
  // are equal.
  lemma TrimmingUnique(data: seq<byte>, a: seq<byte>, j: nat, b: seq<byte>, k: nat)
    requires data == a + Zeros(j) && data == b + Zeros(k)
    requires data != [] ==> a != [] && b != []
    requires |a| > 1 ==> a[|a| - 1] != 0
    requires |b| > 1 ==> b[|b| - 1] != 0
    ensures a == b && j == k
  {
    assert a == data[..|a|] && b == data[..|b|];
  }

  // ---------- inspection of one chain state ----------

  datatype Account = Account(owner: string, executable: bool, data: seq<byte>)

  // What the RPC node answers for each address: an error, a missing account, an
  // account in an unsupported encoding, or an account.
  datatype Lookup = Failed | Missing | NotBase64(owner: string) | Found(account: Account)

  datatype Chain = Chain(slot: nat, lookups: map<string, Lookup>) {
    function Get(address: string): Lookup {
      if address in lookups then lookups[address] else Missing
    }

    // The same request with a data slice of the first `length` bytes.
    function GetSlice(address: string, length: nat): Lookup {
      match Get(address)
      case Found(a) => Found(a.(data := if |a.data| < length then a.data else a.data[..length]))
      case other => other
    }
  }

  datatype LoaderKind = Upgradeable | LegacyV2 | LegacyV1

  function LoaderKindOf(owner: string): Option<LoaderKind> {
    if owner == UPGRADEABLE_LOADER then Some(Upgradeable)
    else if owner == LEGACY_LOADER_V2 then Some(LegacyV2)
    else if owner == LEGACY_LOADER_V1 then Some(LegacyV1)
    else None
  }

  datatype Deployment = Deployment(
    loaderId: string, loaderKind: LoaderKind, programDataAddress: string, accountSlot: nat, executable: bool,
    deploymentSlot: nat, authority: string, authorityOpen: bool, fullBinary: seq<byte>)

  datatype Authority = Authority(
    loaderId: string, loaderKind: LoaderKind, programDataAddress: string, accountSlot: nat, executable: bool,
    deploymentSlot: nat, authority: string, authorityOpen: bool, immutable: bool)

  function SizeChecked(d: Deployment): Option<Deployment> {
    if |d.fullBinary| == 0 || |d.fullBinary| > MAX_PROGRAM_BYTES then None else Some(d)
  }

  // The parsers that an inspection uses.
  datatype Parsers = Parsers(
    account: seq<byte> -> Option<string>, full: seq<byte> -> Option<ProgramData>,
    header: seq<byte> -> Option<(nat, string)>)

  const PARSERS := Parsers(ParseProgramAccount, ParseProgramData, ParseProgramDataHeader)

  function InspectDeployment(chain: Chain, programId: string): Option<Deployment> {
    InspectFully(PARSERS, chain, programId)
  }

  function InspectAuthority(chain: Chain, programId: string): Option<Authority> {
    InspectHeaders(PARSERS, chain, programId)
  }

  function InspectFully(parsers: Parsers, chain: Chain, programId: string): Option<Deployment> {
    if programId == "" then None else
    match chain.Get(programId)
    case Found(program) =>
      var base := Deployment(program.owner, LegacyV2, "", chain.slot, program.executable, 0, "", false, program.data);
      (match LoaderKindOf(program.owner)
       case None => None
       case Some(Upgradeable) => InspectUpgradeable(parsers, chain, program, base)
       case Some(kind) => SizeChecked(base.(loaderKind := kind)))
    case _ => None
  }

  function InspectUpgradeable(parsers: Parsers, chain: Chain, program: Account, base: Deployment): Option<Deployment> {
    match parsers.account(program.data)
    case None => None
    case Some(address) =>
      match chain.Get(address)
      case Found(holder) =>
        if holder.owner != UPGRADEABLE_LOADER then None else
        (match parsers.full(holder.data)
         case None => None
         case Some(p) =>
           SizeChecked(base.(loaderKind := Upgradeable, programDataAddress := address, deploymentSlot := p.slot,
                             authority := p.authority, authorityOpen := p.authority != "", fullBinary := p.bytecode)))
      case _ => None
  }

  function InspectHeaders(parsers: Parsers, chain: Chain, programId: string): Option<Authority> {
    if programId == "" then None else
    match chain.GetSlice(programId, HEADER_BYTES)
    case Found(program) =>
      var base := Authority(program.owner, LegacyV2, "", chain.slot, program.executable, 0, "", false, true);
      (match LoaderKindOf(program.owner)
       case None => None
       case Some(Upgradeable) => InspectUpgradeableHeader(parsers, chain, program, base)
       case Some(kind) => Some(base.(loaderKind := kind)))
    case _ => None
  }

  function InspectUpgradeableHeader(parsers: Parsers, chain: Chain, program: Account,
                                    base: Authority): Option<Authority> {
    match parsers.account(program.data)
    case None => None
    case Some(address) =>
      match chain.GetSlice(address, HEADER_BYTES)
      case Found(holder) =>
        if holder.owner != UPGRADEABLE_LOADER then None else
        (match parsers.header(holder.data)
         case None => None
         case Some((slot, authority)) =>
           Some(base.(loaderKind := Upgradeable, programDataAddress := address, deploymentSlot := slot,
                      authority := authority, authorityOpen := authority != "", immutable := authority == "")))
      case _ => None
  }

  // The number of bytecode bytes the chain holds for a program whose header
  // inspection succeeded.
  function BytecodeSize(chain: Chain, header: Authority, programId: string): int {
    match chain.Get(if header.loaderKind == Upgradeable then header.programDataAddress else programId)
    case Found(a) => |a.data| - (if header.loaderKind == Upgradeable then HEADER_BYTES else 0)
    case _ => 0
  }

  function FirstBytes(data: seq<byte>): seq<byte> {
    if |data| < HEADER_BYTES then data else data[..HEADER_BYTES]
  }

  lemma SliceParses(data: seq<byte>)
    ensures ParseProgramAccount(FirstBytes(data)) == ParseProgramAccount(data)
  {
    var sent := FirstBytes(data);
    assert |data| >= 36 ==> sent[..4] == data[..4] && sent[4..36] == data[4..36];
  }

  // The same fields, in the form of the header inspection.
  function HeaderOf(full: Deployment): Authority {
    Authority(full.loaderId, full.loaderKind, full.programDataAddress, full.accountSlot, full.executable,
              full.deploymentSlot, full.authority, full.authorityOpen, !full.authorityOpen)
  }

  predicate Agree(full: Option<Deployment>, header: Option<Authority>, chain: Chain, programId: string) {
    && (full.Some? <==> header.Some? && 0 < BytecodeSize(chain, header.value, programId) <= MAX_PROGRAM_BYTES)
    && (full.Some? ==>
          && header.value == HeaderOf(full.value)
          && |full.value.fullBinary| == BytecodeSize(chain, header.value, programId))
  }

  // On the first bytes of an account the header parsers say what the full ones
  // say on all of it.
  ghost predicate ParsersAgree(parsers: Parsers) {
    && (forall data :: parsers.account(FirstBytes(data)) == parsers.account(data))
    && (forall data :: HeaderAgrees(parsers.full(data), parsers.header(FirstBytes(data)), data))
  }

  predicate HeaderAgrees(full: Option<ProgramData>, header: Option<(nat, string)>, data: seq<byte>) {
    && (full.Some? <==> header.Some? && |data| > HEADER_BYTES)
    && (full.Some? ==>
          && header.value == (full.value.slot, full.value.authority)
          && full.value.bytecode == data[HEADER_BYTES..])
  }

  lemma TheParsersAgree()
    ensures ParsersAgree(PARSERS)
  {
    forall data ensures ParseProgramAccount(FirstBytes(data)) == ParseProgramAccount(data) {
      SliceParses(data);
    }
    forall data ensures HeaderAgrees(ParseProgramData(data), ParseProgramDataHeader(FirstBytes(data)), data) {
      HeaderParserAgrees(data, FirstBytes(data));
    }
  }

  lemma UpgradeableAgrees(parsers: Parsers, chain: Chain, programId: string)
    requires ParsersAgree(parsers) && programId != "" && chain.Get(programId).Found?
    requires LoaderKindOf(chain.Get(programId).account.owner) == Some(Upgradeable)
    ensures Agree(InspectFully(parsers, chain, programId), InspectHeaders(parsers, chain, programId), chain, programId)
  {
    var data := chain.Get(programId).account.data;
    assert parsers.account(FirstBytes(data)) == parsers.account(data);
    var address := parsers.account(data);
    if address.Some? && chain.Get(address.value).Found? {
      var holder := chain.Get(address.value).account.data;
      assert HeaderAgrees(parsers.full(holder), parsers.header(FirstBytes(holder)), holder);
    }
  }

  lemma OthersAgree(parsers: Parsers, chain: Chain, programId: string)
    requires programId == "" || !chain.Get(programId).Found?
             || LoaderKindOf(chain.Get(programId).account.owner) != Some(Upgradeable)
    ensures Agree(InspectFully(parsers, chain, programId), InspectHeaders(parsers, chain, programId), chain, programId)
  {
  }

  // The header inspection succeeds wherever the full one does, and says the
  // same; it succeeds on exactly one more kind of chain state, where the
  // bytecode is absent or too long.
  lemma InspectionsAgree(chain: Chain, programId: string)
    ensures InspectDeployment(chain, programId).Some? <==>
              && InspectAuthority(chain, programId).Some?
              && 0 < BytecodeSize(chain, InspectAuthority(chain, programId).value, programId) <= MAX_PROGRAM_BYTES
    ensures InspectDeployment(chain, programId).Some? ==>
              var full := InspectDeployment(chain, programId).value;
              var header := InspectAuthority(chain, programId).value;
              && header == HeaderOf(full) && |full.fullBinary| == BytecodeSize(chain, header, programId)
  {
    TheParsersAgree();
    if programId != "" && chain.Get(programId).Found?
      && LoaderKindOf(chain.Get(programId).account.owner) == Some(Upgradeable) {
      UpgradeableAgrees(PARSERS, chain, programId);
    } else {
      OthersAgree(PARSERS, chain, programId);
    }
  }

  // Such a chain state: a program of a legacy loader whose account holds no bytes.
  // Its header is inspected, and the full inspection refuses it.
  lemma EmptyLegacyProgram(slot: nat, programId: string, executable: bool)
    requires programId != ""
    ensures var chain := Chain(slot, map[programId := Found(Account(LEGACY_LOADER_V2, executable, []))]);
            InspectAuthority(chain, programId).Some? && InspectDeployment(chain, programId).None?
  {
    var chain := Chain(slot, map[programId := Found(Account(LEGACY_LOADER_V2, executable, []))]);
    assert LoaderKindOf(LEGACY_LOADER_V2) == Some(LegacyV2);
    InspectionsAgree(chain, programId);
  }

  // The authority field is a well-formed address exactly when the account says
  // there is an authority, so "open" never comes from an empty encoding.
  lemma AuthorityOpenMeansTagOne(data: seq<byte>)
    requires ParseProgramData(data).Some?
    ensures ParseProgramData(data).value.authority != "" <==> data[12] == 1
    ensures data[12] == 1 ==> AddressLike(ParseProgramData(data).value.authority)
  {
    if data[12] == 1 {
      KeyEncodesToAddress(data[13..45]);
    }
  }
}
