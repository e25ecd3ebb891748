/**
 The layouts of the two accounts of an upgradeable program, as a writer lays them
 out, and what the parsers and the inspections read from them.
 */
module ProgramLayouts {
  import opened Addresses
  import opened Base58
  import opened Bytes
  import opened ProgramAccounts

  // ---------- writing ----------

  // The number in so many bytes, the lowest first.
  function LittleEndianBytes(n: nat, count: nat): (r: seq<byte>)
    ensures |r| == count
    decreases count
  {
    if count == 0 then [] else [n % 256] + LittleEndianBytes(n / 256, count - 1)
  }

  // A program account: the tag 2, the key of the account with the code, and more.
  function ProgramLayout(key: seq<byte>, rest: seq<byte>): seq<byte> {
    LittleEndianBytes(2, 4) + key + rest
  }

  // An account with code: the tag 3, the slot, an optional authority, and the code.
  // Without an authority the place of its key holds any bytes.
  function DataLayout(slot: nat, authority: Option<seq<byte>>, unused: seq<byte>, code: seq<byte>): seq<byte> {
    LittleEndianBytes(3, 4) + LittleEndianBytes(slot, 8)
    + (if authority.Some? then [1] + authority.value else [0] + unused) + code
  }

  // ---------- numbers ----------

  lemma {:induction false} WrittenValue(n: nat, count: nat)
    requires n < Pow(256, count)
    ensures LittleEndian(LittleEndianBytes(n, count)) == n
    decreases count
  {
    if count > 0 {
      Quotient(n, Pow(256, count - 1));
      WrittenValue(n / 256, count - 1);
      var rest: seq<nat> := LittleEndianBytes(n / 256, count - 1);
      var all: seq<nat> := LittleEndianBytes(n, count);
      assert all == [n % 256] + rest && all[1..] == rest;
      PlaceIs256(n % 256, Value(rest, 256));
    }
  }

  lemma Quotient(n: nat, p: nat)
    requires n < 256 * p
    ensures n / 256 < p
  {
  }

  lemma {:induction false} ReadValue(value: seq<byte>)
    ensures LittleEndian(value) < Pow(256, |value|)
    ensures LittleEndianBytes(LittleEndian(value), |value|) == value
    decreases |value|
  {
    var digits: seq<nat> := value;
    ValueBound(digits);
    if value != [] {
      ReadValue(value[1..]);
      var rest: seq<nat> := value[1..];
      assert digits[1..] == rest;
      PlaceIs256(digits[0], Value(rest, 256));
      assert LittleEndian(value) == value[0] + 256 * LittleEndian(value[1..]);
      assert LittleEndian(value) % 256 == value[0] && LittleEndian(value) / 256 == LittleEndian(value[1..]);
      assert value == [value[0]] + value[1..];
    }
  }

  // Reading gives the number that was written, and every number read was so written.
  lemma LittleEndianExactly(value: seq<byte>, n: nat)
    ensures LittleEndian(value) == n <==> n < Pow(256, |value|) && value == LittleEndianBytes(n, |value|)
  {
    ReadValue(value);
    if n < Pow(256, |value|) {
      WrittenValue(n, |value|);
    }
  }

  lemma TagWidth()
    ensures Pow(256, 4) == 0x1_0000_0000 && Pow(256, 8) == 0x1_0000_0000_0000_0000
  {
    assert Pow(256, 2) == 0x1_0000;
    assert Pow(256, 4) == 0x1_0000_0000;
    assert Pow(256, 6) == 0x1_0000_0000_0000;
  }

  // ---------- the parsers ----------

  // The program account parser finds the key of every program account, and succeeds
  // on nothing else.
  lemma ProgramParsedExactly(data: seq<byte>, address: string)
    ensures ParseProgramAccount(data) == Some(address) <==>
              exists key, rest :: |key| == 32 && data == ProgramLayout(key, rest) && address == Encoding(key)
  {
    TagWidth();
    if ParseProgramAccount(data).Some? {
      LittleEndianExactly(data[..4], 2);
      assert data == ProgramLayout(data[4..36], data[36..]);
    }
    forall key, rest | |key| == 32 && data == ProgramLayout(key, rest)
      ensures ParseProgramAccount(data) == Some(Encoding(key))
    {
      ProgramParsed(key, rest);
    }
  }

  lemma ProgramParsed(key: seq<byte>, rest: seq<byte>)
    requires |key| == 32
    ensures ParseProgramAccount(ProgramLayout(key, rest)) == Some(Encoding(key))
  {
    var data := ProgramLayout(key, rest);
    TagWidth();
    assert data[..4] == LittleEndianBytes(2, 4) && data[4..36] == key;
    WrittenValue(2, 4);
  }

  // The parts that a layout is made of.
  predicate Parts(slot: nat, authority: Option<seq<byte>>, unused: seq<byte>) {
    slot < 0x1_0000_0000_0000_0000 && |unused| == 32 && (authority.Some? ==> |authority.value| == 32)
  }

  function AuthorityText(authority: Option<seq<byte>>): string {
    if authority.Some? then Encoding(authority.value) else ""
  }

  lemma LayoutParts(slot: nat, authority: Option<seq<byte>>, unused: seq<byte>, code: seq<byte>)
    requires Parts(slot, authority, unused)
    ensures var data := DataLayout(slot, authority, unused, code);
            && |data| == 45 + |code| && data[45..] == code
            && LittleEndian(data[..4]) == 3 && LittleEndian(data[4..12]) == slot
            && data[12] == (if authority.Some? then 1 else 0)
            && data[13..45] == (if authority.Some? then authority.value else unused)
  {
    TagWidth();
    WrittenValue(3, 4);
    WrittenValue(slot, 8);
    var option := if authority.Some? then [1] + authority.value else [0] + unused;
    FourParts(LittleEndianBytes(3, 4), LittleEndianBytes(slot, 8), option, code);
    assert option[1..] == if authority.Some? then authority.value else unused;
  }

  lemma FourParts(a: seq<byte>, b: seq<byte>, c: seq<byte>, d: seq<byte>)
    requires |a| == 4 && |b| == 8 && |c| == 33
    ensures var data := a + b + c + d;
            && |data| == 45 + |d| && data[..4] == a && data[4..12] == b && data[12] == c[0]
            && data[13..45] == c[1..] && data[45..] == d
  {
  }

  // Both parsers read slot, authority and code back from every account so laid out.
  lemma DataParsed(slot: nat, authority: Option<seq<byte>>, unused: seq<byte>, code: seq<byte>)
    requires Parts(slot, authority, unused)
    ensures var data := DataLayout(slot, authority, unused, code);
            && ParseProgramDataHeader(data) == Some((slot, AuthorityText(authority)))
            && ParseProgramData(data)
               == if code == [] then None else Some(ProgramData(slot, AuthorityText(authority), code))
  {
    var data := DataLayout(slot, authority, unused, code);
    LayoutParts(slot, authority, unused, code);
    ShiftOrIsLittleEndian(data[..4], 4);
    ShiftOrIsLittleEndian(data[4..12], 8);
    assert data[..4][..4] == data[..4] && data[4..12][..8] == data[4..12];
  }

  // And what a parser reads was laid out so.
  lemma ReadWasLaidOut(data: seq<byte>) returns (slot: nat, authority: Option<seq<byte>>, unused: seq<byte>)
    requires ParseProgramDataHeader(data).Some?
    ensures Parts(slot, authority, unused) && |data| >= 45
    ensures data == DataLayout(slot, authority, unused, data[45..])
  {
    TagWidth();
    ShiftOrIsLittleEndian(data[..4], 4);
    ShiftOrIsLittleEndian(data[4..12], 8);
    assert data[..4][..4] == data[..4] && data[4..12][..8] == data[4..12];
    slot := LittleEndian(data[4..12]);
    authority := if data[12] == 1 then Some(data[13..45]) else None;
    unused := data[13..45];
    LittleEndianExactly(data[..4], 3);
    LittleEndianExactly(data[4..12], slot);
    ReadValue(data[4..12]);
    assert data == data[..4] + data[4..12] + ([data[12]] + data[13..45]) + data[45..];
  }

  ghost predicate LaidOut(data: seq<byte>, slot: nat, authority: string, code: seq<byte>) {
    exists key, unused :: Parts(slot, key, unused) && data == DataLayout(slot, key, unused, code)
                          && authority == AuthorityText(key)
  }

  lemma HeaderParsedExactly(data: seq<byte>, slot: nat, authority: string)
    ensures ParseProgramDataHeader(data) == Some((slot, authority)) <==>
              exists code :: LaidOut(data, slot, authority, code)
  {
    if ParseProgramDataHeader(data) == Some((slot, authority)) {
      var s, key, unused := ReadWasLaidOut(data);
      DataParsed(s, key, unused, data[45..]);
      assert LaidOut(data, slot, authority, data[45..]);
    }
    forall code | LaidOut(data, slot, authority, code)
      ensures ParseProgramDataHeader(data) == Some((slot, authority))
    {
      var key, unused :| Parts(slot, key, unused) && data == DataLayout(slot, key, unused, code)
        && authority == AuthorityText(key);
      DataParsed(slot, key, unused, code);
    }
  }

  lemma DataParsedExactly(data: seq<byte>, p: ProgramData)
    ensures ParseProgramData(data) == Some(p) <==> p.bytecode != [] && LaidOut(data, p.slot, p.authority, p.bytecode)
  {
    if ParseProgramData(data) == Some(p) {
      FullNeedsHeader(data);
      var slot, key, unused := ReadWasLaidOut(data);
      DataParsed(slot, key, unused, data[45..]);
    }
    if p.bytecode != [] && LaidOut(data, p.slot, p.authority, p.bytecode) {
      var key, unused :| Parts(p.slot, key, unused) && data == DataLayout(p.slot, key, unused, p.bytecode)
        && p.authority == AuthorityText(key);
      DataParsed(p.slot, key, unused, p.bytecode);
    }
  }

  lemma FullNeedsHeader(data: seq<byte>)
    requires ParseProgramData(data).Some?
    ensures ParseProgramDataHeader(data).Some?
  {
    ShiftOrIsLittleEndian(data[..4], 4);
    assert data[..4][..4] == data[..4];
  }

  // ---------- the inspections ----------

  // A chain that holds an upgradeable program: its account and, at the address that
  // the key encodes, the account with the code.
  predicate Deployed(chain: Chain, programId: string, executable: bool, key: seq<byte>, rest: seq<byte>,
                     slot: nat, authority: Option<seq<byte>>, unused: seq<byte>, code: seq<byte>,
                     codeExecutable: bool) {
    && programId != "" && |key| == 32 && Parts(slot, authority, unused)
    && chain.Get(programId) == Found(Account(UPGRADEABLE_LOADER, executable, ProgramLayout(key, rest)))
    && chain.Get(Encoding(key))
       == Found(Account(UPGRADEABLE_LOADER, codeExecutable, DataLayout(slot, authority, unused, code)))
  }

  lemma HeadersFollow(parsers: Parsers, chain: Chain, programId: string, program: Account, address: string,
                      holder: Account, slot: nat, authority: string)
    requires programId != "" && chain.Get(programId) == Found(program) && chain.Get(address) == Found(holder)
    requires program.owner == UPGRADEABLE_LOADER == holder.owner
    requires parsers.account(FirstBytes(program.data)) == Some(address)
    requires parsers.header(FirstBytes(holder.data)) == Some((slot, authority))
    ensures InspectHeaders(parsers, chain, programId)
            == Some(Authority(UPGRADEABLE_LOADER, Upgradeable, address, chain.slot, program.executable, slot, authority,
                              authority != "", authority == ""))
  {
  }

  lemma FullFollows(parsers: Parsers, chain: Chain, programId: string, program: Account, address: string,
                    holder: Account, p: Option<ProgramData>)
    requires programId != "" && chain.Get(programId) == Found(program) && chain.Get(address) == Found(holder)
    requires program.owner == UPGRADEABLE_LOADER == holder.owner
    requires parsers.account(program.data) == Some(address) && parsers.full(holder.data) == p
    ensures InspectFully(parsers, chain, programId)
            == if p.Some? && 0 < |p.value.bytecode| <= MAX_PROGRAM_BYTES then
                 Some(Deployment(UPGRADEABLE_LOADER, Upgradeable, address, chain.slot, program.executable, p.value.slot,
                                 p.value.authority, p.value.authority != "", p.value.bytecode))
               else None
  {
  }

  lemma FirstBytesOf(slot: nat, authority: Option<seq<byte>>, unused: seq<byte>, code: seq<byte>)
    requires Parts(slot, authority, unused)
    ensures FirstBytes(DataLayout(slot, authority, unused, code)) == DataLayout(slot, authority, unused, [])
  {
    LayoutParts(slot, authority, unused, code);
    LayoutParts(slot, authority, unused, []);
    CodeLast(slot, authority, unused, code);
    FirstOfSum(DataLayout(slot, authority, unused, []), code);
  }

  lemma CodeLast(slot: nat, authority: Option<seq<byte>>, unused: seq<byte>, code: seq<byte>)
    ensures DataLayout(slot, authority, unused, code) == DataLayout(slot, authority, unused, []) + code
  {
  }

  lemma FirstOfSum(a: seq<byte>, b: seq<byte>)
    requires |a| == 45
    ensures FirstBytes(a + b) == a
  {
  }

  lemma AuthorityNotEmpty(authority: Option<seq<byte>>)
    requires authority.Some? ==> |authority.value| == 32
    ensures AuthorityText(authority) != "" <==> authority.Some?
  {
    if authority.Some? {
      EncodingLength(authority.value);
    }
  }

  // Both inspections report what the writer laid out.
  lemma DeployedIsInspected(chain: Chain, programId: string, executable: bool, key: seq<byte>, rest: seq<byte>,
                            slot: nat, authority: Option<seq<byte>>, unused: seq<byte>, code: seq<byte>,
                            codeExecutable: bool)
    requires Deployed(chain, programId, executable, key, rest, slot, authority, unused, code, codeExecutable)
    ensures InspectAuthority(chain, programId)
            == Some(Authority(UPGRADEABLE_LOADER, Upgradeable, Encoding(key), chain.slot, executable, slot,
                              AuthorityText(authority), authority.Some?, authority.None?))
    ensures InspectDeployment(chain, programId)
            == if 0 < |code| <= MAX_PROGRAM_BYTES then
                 Some(Deployment(UPGRADEABLE_LOADER, Upgradeable, Encoding(key), chain.slot, executable, slot,
                                 AuthorityText(authority), authority.Some?, code))
               else None
  {
    var program := Account(UPGRADEABLE_LOADER, executable, ProgramLayout(key, rest));
    var holder := Account(UPGRADEABLE_LOADER, codeExecutable, DataLayout(slot, authority, unused, code));
    ProgramParsed(key, rest);
    SliceParses(program.data);
    DataParsed(slot, authority, unused, code);
    DataParsed(slot, authority, unused, []);
    FirstBytesOf(slot, authority, unused, code);
    AuthorityNotEmpty(authority);
    HeadersFollow(PARSERS, chain, programId, program, Encoding(key), holder, slot, AuthorityText(authority));
    FullFollows(PARSERS, chain, programId, program, Encoding(key), holder, ParseProgramData(holder.data));
  }
}
