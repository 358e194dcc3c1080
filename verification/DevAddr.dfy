/** Device addresses and NetIDs: parseDevAddr of libbackend/libserver.c, the address base of fNS_init in
    network_server/fNS.c, and the allocation in getDevAddr of network_server/sNS.c. */
module DevAddr {
  import opened Basics

  const NONE_DEVADDR: bv32 := 0xffff_ffff

  datatype Parsed = Parsed(netId: bv32, nwkId: bv32, nwkAddr: bv32)

  // ---- parseDevAddr: the branches' masks and shifts, by NetID type ----

  /** The test of the type's branch. */
  predicate HasPrefix(t: bv32, a: bv32) {
    if t == 0 then a & 0x8000_0000 == 0 else if t == 1 then a & 0xc000_0000 == 0x8000_0000
    else if t == 2 then a & 0xe000_0000 == 0xc000_0000 else if t == 3 then a & 0xf000_0000 == 0xe000_0000
    else if t == 4 then a & 0xf800_0000 == 0xf000_0000 else if t == 5 then a & 0xfc00_0000 == 0xf800_0000
    else if t == 6 then a & 0xfe00_0000 == 0xfc00_0000 else t == 7 && a & 0xff00_0000 == 0xfe00_0000
  }

  function NwkIdOf(t: bv32, a: bv32): bv32 {
    if t == 0 then (a >> 25) & 0x3f else if t == 1 then (a >> 24) & 0x3f else if t == 2 then (a >> 20) & 0x1ff
    else if t == 3 then (a >> 18) & 0x3ff else if t == 4 then (a >> 16) & 0x7ff else if t == 5 then (a >> 13) & 0x1fff
    else if t == 6 then (a >> 10) & 0x7fff else (a >> 7) & 0x1_ffff
  }

  /** The address bits: all below the identifier. */
  function NwkAddrOf(t: bv32, a: bv32): bv32 {
    a & AddrMax(t)
  }

  /** The type goes into the top three bits of the NetID. */
  function NetIdOf(t: bv32, id: bv32): bv32 {
    (t << 21) | id
  }

  /** The assignments of the type's branch. */
  function ParsedAs(t: bv32, a: bv32): Parsed {
    Parsed(NetIdOf(t, NwkIdOf(t, a)), NwkIdOf(t, a), NwkAddrOf(t, a))
  }

  function ParseDevAddr(a: bv32): Option<Parsed> {
    if HasPrefix(7, a) then Some(ParsedAs(7, a))
    else if HasPrefix(6, a) then Some(ParsedAs(6, a))
    else if HasPrefix(5, a) then Some(ParsedAs(5, a))
    else if HasPrefix(4, a) then Some(ParsedAs(4, a))
    else if HasPrefix(3, a) then Some(ParsedAs(3, a))
    else if HasPrefix(2, a) then Some(ParsedAs(2, a))
    else if HasPrefix(1, a) then Some(ParsedAs(1, a))
    else if HasPrefix(0, a) then Some(ParsedAs(0, a))
    else None
  }

  // ---- fNS_init: the address plan ----

  predicate IsType(t: bv32) {
    t < 8
  }

  /** The first value an identifier of the type cannot take: two to the power of its NwkID width. */
  function NwkIdLimit(t: bv32): bv32 {
    if t < 2 then 0x40 else if t == 2 then 0x200 else if t == 3 then 0x400
    else if t == 4 then 0x800 else if t == 5 then 0x2000 else if t == 6 then 0x8000 else 0x2_0000
  }

  /** t ones and a zero, at the top. */
  function Prefix(t: bv32): bv32 {
    if t == 0 then 0 else if t == 1 then 0x8000_0000 else if t == 2 then 0xc000_0000 else if t == 3 then 0xe000_0000
    else if t == 4 then 0xf000_0000 else if t == 5 then 0xf800_0000 else if t == 6 then 0xfc00_0000 else 0xfe00_0000
  }

  /** The bits of the network address. */
  function AddrMax(t: bv32): bv32 {
    if t == 0 then 0x1ff_ffff else if t == 1 then 0xff_ffff else if t == 2 then 0xf_ffff else if t == 3 then 0x3_ffff
    else if t == 4 then 0xffff else if t == 5 then 0x1fff else if t == 6 then 0x3ff else 0x7f
  }

  function TypeOf(netId: bv32): bv32 {
    netId >> 21
  }

  /** The identifier bits fNS_init takes from a NetID. */
  function IdOf(netId: bv32): bv32 {
    if TypeOf(netId) < 2 then netId & 0x3f else if TypeOf(netId) == 2 then netId & 0x1ff else netId & 0x1f_ffff
  }

  function Shifted(id: bv32, t: bv32): bv32 {
    if t == 0 then id << 25 else if t == 1 then id << 24 else if t == 2 then id << 20 else if t == 3 then id << 18
    else if t == 4 then id << 16 else if t == 5 then id << 13 else if t == 6 then id << 10 else id << 7
  }

  /** An address put together from its parts; on base the OR of a network address completes it. */
  function Build(t: bv32, id: bv32, addr: bv32): bv32 {
    Prefix(t) | Shifted(id, t) | addr
  }

  function LowBits(netId: bv32): bv32 {
    netId & 0x1f_ffff
  }

  predicate IdFits(t: bv32, id: bv32) {
    id < NwkIdLimit(t)
  }

  predicate AddrFits(t: bv32, addr: bv32) {
    addr & AddrMax(t) == addr
  }

  /** The NetID has a type, and its identifier fits the width that type has in an address. */
  predicate Fits(netId: bv32) {
    IsType(TypeOf(netId)) && IdFits(TypeOf(netId), LowBits(netId))
  }

  /** The address devAddrBase | nwkAddr of a network. */
  function AddressOf(netId: bv32, nwkAddr: bv32): bv32 {
    Build(TypeOf(netId), IdOf(netId), nwkAddr)
  }

  // ---- Facts about the bit fields, one per field ----

  lemma EachType(t: bv32)
    requires IsType(t)
    ensures t == 0 || t == 1 || t == 2 || t == 3 || t == 4 || t == 5 || t == 6 || t == 7
  {
  }

  lemma RebuiltAddr0(a: bv32)
    requires HasPrefix(0, a)
    ensures Build(0, NwkIdOf(0, a), NwkAddrOf(0, a)) == a
  {
  }

  lemma RebuiltAddr1(a: bv32)
    requires HasPrefix(1, a)
    ensures Build(1, NwkIdOf(1, a), NwkAddrOf(1, a)) == a
  {
  }

  lemma RebuiltAddr2(a: bv32)
    requires HasPrefix(2, a)
    ensures Build(2, NwkIdOf(2, a), NwkAddrOf(2, a)) == a
  {
  }

  lemma RebuiltAddr3(a: bv32)
    requires HasPrefix(3, a)
    ensures Build(3, NwkIdOf(3, a), NwkAddrOf(3, a)) == a
  {
  }

  lemma RebuiltAddr4(a: bv32)
    requires HasPrefix(4, a)
    ensures Build(4, NwkIdOf(4, a), NwkAddrOf(4, a)) == a
  {
  }

  lemma RebuiltAddr5(a: bv32)
    requires HasPrefix(5, a)
    ensures Build(5, NwkIdOf(5, a), NwkAddrOf(5, a)) == a
  {
  }

  lemma RebuiltAddr6(a: bv32)
    requires HasPrefix(6, a)
    ensures Build(6, NwkIdOf(6, a), NwkAddrOf(6, a)) == a
  {
  }

  lemma RebuiltAddr7(a: bv32)
    requires HasPrefix(7, a)
    ensures Build(7, NwkIdOf(7, a), NwkAddrOf(7, a)) == a
  {
  }

  lemma RebuiltAddr(t: bv32, a: bv32)
    requires IsType(t) && HasPrefix(t, a)
    ensures Build(t, NwkIdOf(t, a), NwkAddrOf(t, a)) == a
  {
    hide HasPrefix, NwkIdOf, NwkAddrOf, Build, IsType;
    EachType(t);
    if t == 0 {
      RebuiltAddr0(a);
    } else if t == 1 {
      RebuiltAddr1(a);
    } else if t == 2 {
      RebuiltAddr2(a);
    } else if t == 3 {
      RebuiltAddr3(a);
    } else if t == 4 {
      RebuiltAddr4(a);
    } else if t == 5 {
      RebuiltAddr5(a);
    } else if t == 6 {
      RebuiltAddr6(a);
    } else {
      RebuiltAddr7(a);
    }
  }

  lemma NwkIdIsBelow(t: bv32, a: bv32)
    requires IsType(t)
    ensures IdFits(t, NwkIdOf(t, a))
  {
  }

  lemma NwkAddrIsBelow(t: bv32, a: bv32)
    requires IsType(t)
    ensures AddrFits(t, NwkAddrOf(t, a))
  {
  }

  lemma TypeOfNetId(t: bv32, id: bv32)
    requires IsType(t) && IdFits(t, id)
    ensures TypeOf(NetIdOf(t, id)) == t
  {
  }

  lemma LowBitsOfNetId(t: bv32, id: bv32)
    requires IsType(t) && IdFits(t, id)
    ensures LowBits(NetIdOf(t, id)) == id
  {
  }

  lemma LowBitsFit(netId: bv32)
    requires Fits(netId)
    ensures IdOf(netId) == LowBits(netId)
  {
  }

  lemma NetIdRebuilt(netId: bv32)
    requires IsType(TypeOf(netId))
    ensures NetIdOf(TypeOf(netId), LowBits(netId)) == netId
  {
  }

  lemma PrefixOfBuilt(t: bv32, id: bv32, addr: bv32)
    requires IsType(t) && IdFits(t, id) && AddrFits(t, addr)
    ensures HasPrefix(t, Build(t, id, addr))
  {
  }

  lemma NwkIdOfBuilt0(id: bv32, addr: bv32)
    requires IdFits(0, id) && AddrFits(0, addr)
    ensures NwkIdOf(0, Build(0, id, addr)) == id
  {
  }

  lemma NwkIdOfBuilt1(id: bv32, addr: bv32)
    requires IdFits(1, id) && AddrFits(1, addr)
    ensures NwkIdOf(1, Build(1, id, addr)) == id
  {
  }

  lemma NwkIdOfBuilt2(id: bv32, addr: bv32)
    requires IdFits(2, id) && AddrFits(2, addr)
    ensures NwkIdOf(2, Build(2, id, addr)) == id
  {
  }

  lemma NwkIdOfBuilt3(id: bv32, addr: bv32)
    requires IdFits(3, id) && AddrFits(3, addr)
    ensures NwkIdOf(3, Build(3, id, addr)) == id
  {
  }

  lemma NwkIdOfBuilt4(id: bv32, addr: bv32)
    requires IdFits(4, id) && AddrFits(4, addr)
    ensures NwkIdOf(4, Build(4, id, addr)) == id
  {
  }

  lemma NwkIdOfBuilt5(id: bv32, addr: bv32)
    requires IdFits(5, id) && AddrFits(5, addr)
    ensures NwkIdOf(5, Build(5, id, addr)) == id
  {
  }

  lemma NwkIdOfBuilt6(id: bv32, addr: bv32)
    requires IdFits(6, id) && AddrFits(6, addr)
    ensures NwkIdOf(6, Build(6, id, addr)) == id
  {
  }

  lemma NwkIdOfBuilt7(id: bv32, addr: bv32)
    requires IdFits(7, id) && AddrFits(7, addr)
    ensures NwkIdOf(7, Build(7, id, addr)) == id
  {
  }

  lemma NwkIdOfBuilt(t: bv32, id: bv32, addr: bv32)
    requires IsType(t) && IdFits(t, id) && AddrFits(t, addr)
    ensures NwkIdOf(t, Build(t, id, addr)) == id
  {
    hide NwkIdOf, Build, IdFits, AddrFits, IsType;
    EachType(t);
    if t == 0 {
      NwkIdOfBuilt0(id, addr);
    } else if t == 1 {
      NwkIdOfBuilt1(id, addr);
    } else if t == 2 {
      NwkIdOfBuilt2(id, addr);
    } else if t == 3 {
      NwkIdOfBuilt3(id, addr);
    } else if t == 4 {
      NwkIdOfBuilt4(id, addr);
    } else if t == 5 {
      NwkIdOfBuilt5(id, addr);
    } else if t == 6 {
      NwkIdOfBuilt6(id, addr);
    } else {
      NwkIdOfBuilt7(id, addr);
    }
  }

  lemma NwkAddrOfBuiltBits(t: bv32, id: bv32, addr: bv32)
    requires IsType(t) && IdFits(t, id) && AddrFits(t, addr)
    ensures NwkAddrOf(t, Prefix(t) | Shifted(id, t) | addr) == addr
  {
  }

  lemma NwkAddrOfBuilt(t: bv32, id: bv32, addr: bv32)
    requires IsType(t) && IdFits(t, id) && AddrFits(t, addr)
    ensures NwkAddrOf(t, Build(t, id, addr)) == addr
  {
    hide HasPrefix, NwkIdOf, NwkAddrOf, Shifted, Prefix, IdFits, AddrFits;
    NwkAddrOfBuiltBits(t, id, addr);
  }

  lemma OnePrefix(t: bv32, u: bv32, a: bv32)
    requires IsType(t) && IsType(u) && HasPrefix(t, a) && HasPrefix(u, a)
    ensures t == u
  {
  }

  lemma SomePrefixIff(a: bv32)
    ensures a & 0xff00_0000 != 0xff00_0000 <==>
            HasPrefix(0, a) || HasPrefix(1, a) || HasPrefix(2, a) || HasPrefix(3, a) ||
            HasPrefix(4, a) || HasPrefix(5, a) || HasPrefix(6, a) || HasPrefix(7, a)
  {
  }

  // ---- The two directions ----

  /** Exactly the addresses with top byte 0xff are refused. */
  lemma RefusedIff(a: bv32)
    ensures ParseDevAddr(a).None? <==> a & 0xff00_0000 == 0xff00_0000
  {
    hide HasPrefix, ParsedAs;
    SomePrefixIff(a);
  }

  /** The branch taken is the one whose prefix the address has. */
  lemma BranchTaken(a: bv32) returns (t: bv32)
    requires ParseDevAddr(a).Some?
    ensures IsType(t) && HasPrefix(t, a) && ParseDevAddr(a) == Some(ParsedAs(t, a))
  {
    hide HasPrefix, ParsedAs;
    t := if HasPrefix(7, a) then 7 else if HasPrefix(6, a) then 6 else if HasPrefix(5, a) then 5 else if HasPrefix(4, a) then 4
         else if HasPrefix(3, a) then 3 else if HasPrefix(2, a) then 2 else if HasPrefix(1, a) then 1 else 0;
  }

  lemma ParseByPrefix(t: bv32, a: bv32)
    requires IsType(t) && HasPrefix(t, a)
    ensures ParseDevAddr(a) == Some(ParsedAs(t, a))
  {
    hide HasPrefix, ParsedAs, ParseDevAddr;
    if ParseDevAddr(a).None? {
      NoneHasNoPrefix(t, a);
    } else {
      var u := BranchTaken(a);
      OnePrefix(t, u, a);
    }
  }

  lemma NoneHasNoPrefix(t: bv32, a: bv32)
    requires ParseDevAddr(a).None? && IsType(t)
    ensures !HasPrefix(t, a)
  {
    hide HasPrefix, ParsedAs;
  }

  /** Every other address is rebuilt from what it parses to. */
  lemma BaseOfParsed(a: bv32)
    requires ParseDevAddr(a).Some?
    ensures var p := ParseDevAddr(a).value;
            Fits(p.netId) && AddrFits(TypeOf(p.netId), p.nwkAddr) && p.nwkId == IdOf(p.netId) && AddressOf(p.netId, p.nwkAddr) == a
  {
    hide HasPrefix, NwkIdOf, NwkAddrOf, NetIdOf, TypeOf, IdOf, Build, LowBits, IdFits, AddrFits, IsType, ParseDevAddr;
    var t := BranchTaken(a);
    var id := NwkIdOf(t, a);
    NwkIdIsBelow(t, a);
    NwkAddrIsBelow(t, a);
    TypeOfNetId(t, id);
    LowBitsOfNetId(t, id);
    LowBitsFit(NetIdOf(t, id));
    RebuiltAddr(t, a);
  }

  /** An address built on a NetID's base parses back to it exactly when the identifier fits the width its type has. */
  lemma ParsedOfBaseIff(netId: bv32, nwkAddr: bv32)
    requires IsType(TypeOf(netId)) && AddrFits(TypeOf(netId), nwkAddr)
    ensures ParseDevAddr(AddressOf(netId, nwkAddr)) == Some(Parsed(netId, IdOf(netId), nwkAddr)) <==> Fits(netId)
  {
    hide HasPrefix, NwkIdOf, NwkAddrOf, NetIdOf, TypeOf, IdOf, Build, LowBits, IdFits, AddrFits, IsType, ParseDevAddr;
    var t, a := TypeOf(netId), AddressOf(netId, nwkAddr);
    if Fits(netId) {
      var id := LowBits(netId);
      LowBitsFit(netId);
      NetIdRebuilt(netId);
      PrefixOfBuilt(t, id, nwkAddr);
      NwkIdOfBuilt(t, id, nwkAddr);
      NwkAddrOfBuilt(t, id, nwkAddr);
      ParseByPrefix(t, a);
    } else if ParseDevAddr(a) == Some(Parsed(netId, IdOf(netId), nwkAddr)) {
      BaseOfParsed(a);
    }
  }

  /** One address of each type, taken apart. */
  lemma ExampleAddresses()
    ensures ParseDevAddr(0x2601_1234) == Some(Parsed(0x13, 0x13, 0x1_1234))
    ensures ParseDevAddr(0xa100_0007) == Some(Parsed(0x20_0021, 0x21, 0x07))
    ensures ParseDevAddr(0xc010_0007) == Some(Parsed(0x40_0001, 0x01, 0x07))
    ensures ParseDevAddr(0xe004_0007) == Some(Parsed(0x60_0001, 0x01, 0x07))
    ensures ParseDevAddr(0xf001_0007) == Some(Parsed(0x80_0001, 0x01, 0x07))
    ensures ParseDevAddr(0xf800_2007) == Some(Parsed(0xa0_0001, 0x01, 0x07))
    ensures ParseDevAddr(0xfc00_0407) == Some(Parsed(0xc0_0001, 0x01, 0x07))
    ensures ParseDevAddr(0xfe00_0087) == Some(Parsed(0xe0_0001, 0x01, 0x07))
  {
  }

  // ---- fNS_init and getDevAddr ----

  function AddrBits(t: bv32): nat {
    if t == 0 then 25 else if t == 1 then 24 else if t == 2 then 20 else if t == 3 then 18
    else if t == 4 then 16 else if t == 5 then 13 else if t == 6 then 10 else 7
  }

  lemma CountIsPower(t: bv32)
    requires IsType(t)
    ensures PowerOfTwo(AddrBits(t)) == Count(t)
  {
    assert PowerOfTwo(7) == 0x80 && PowerOfTwo(10) == 0x400 && PowerOfTwo(13) == 0x2000 && PowerOfTwo(16) == 0x1_0000;
    assert PowerOfTwo(18) == 0x4_0000 && PowerOfTwo(20) == 0x10_0000 && PowerOfTwo(24) == 0x100_0000;
  }

  /** One row lookup in the sessions table; Failed is a query that reports an error. */
  datatype Lookup = Absent | Present | Failed

  type Sessions = bv32 -> Lookup

  /** An address nobody in the list of motes has. */
  predicate Unlisted(motes: seq<Option<bv32>>, a: bv32) {
    Some(a) !in motes
  }

  predicate Free(motes: seq<Option<bv32>>, sessions: Sessions, a: bv32) {
    Unlisted(motes, a) && sessions(a) == Absent
  }

  // ---- Network addresses by number ----

  function Count(t: bv32): nat {
    if t == 0 then 0x200_0000 else if t == 1 then 0x100_0000 else if t == 2 then 0x10_0000 else if t == 3 then 0x4_0000
    else if t == 4 then 0x1_0000 else if t == 5 then 0x2000 else if t == 6 then 0x400 else 0x80
  }

  /** The largest value of byte i of an address of the type. */
  function Top(t: bv32, i: nat): nat {
    if i == 0 then (if t == 7 then 127 else 255)
    else if i == 1 then (if t == 7 then 0 else if t == 6 then 3 else if t == 5 then 31 else 255)
    else if i == 2 then (if t >= 4 then 0 else if t == 3 then 3 else if t == 2 then 15 else 255)
    else if t == 0 then 1 else 0
  }

  lemma BytesAreBounded(t: bv32, k: nat)
    requires IsType(t) && k < Count(t)
    ensures k % 256 <= Top(t, 0) && k / 256 % 256 <= Top(t, 1)
    ensures k / 0x1_0000 % 256 <= Top(t, 2) && k / 0x100_0000 % 256 <= Top(t, 3)
  {
  }

  lemma ByteFits(n: nat, top: nat)
    requires n <= top && top in {0, 1, 3, 15, 31, 127, 255}
    ensures ByteOf(n) & ByteOf(top) == ByteOf(n)
  {
  }

  lemma TopBytes()
    ensures ByteOf(0) == 0 && ByteOf(1) == 1 && ByteOf(3) == 3 && ByteOf(15) == 15
    ensures ByteOf(31) == 31 && ByteOf(127) == 127 && ByteOf(255) == 255
  {
  }

  lemma MaxIsJoined(t: bv32)
    requires IsType(t)
    ensures Join4(ByteOf(Top(t, 0)), ByteOf(Top(t, 1)), ByteOf(Top(t, 2)), ByteOf(Top(t, 3))) == AddrMax(t)
  {
    hide ByteOf;
    TopBytes();
  }

  lemma JoinOfMasked(a: bv8, b: bv8, c: bv8, d: bv8, w: bv8, x: bv8, y: bv8, z: bv8)
    requires a & w == a && b & x == b && c & y == c && d & z == d
    ensures Join4(a, b, c, d) & Join4(w, x, y, z) == Join4(a, b, c, d)
  {
  }

  lemma BitsFit(t: bv32, k: nat)
    requires IsType(t) && k < Count(t)
    ensures AddrFits(t, BitsOf(k))
  {
    hide ByteOf, Join4, AddrMax, Count, Top;
    var n0, n1, n2, n3 := k % 256, k / 256 % 256, k / 0x1_0000 % 256, k / 0x100_0000 % 256;
    BytesAreBounded(t, k);
    TopsAreMasks(t);
    ByteFits(n0, Top(t, 0));
    ByteFits(n1, Top(t, 1));
    ByteFits(n2, Top(t, 2));
    ByteFits(n3, Top(t, 3));
    MaxIsJoined(t);
    JoinOfMasked(ByteOf(n0), ByteOf(n1), ByteOf(n2), ByteOf(n3), ByteOf(Top(t, 0)), ByteOf(Top(t, 1)), ByteOf(Top(t, 2)), ByteOf(Top(t, 3)));
  }

  lemma TopsAreMasks(t: bv32)
    ensures Top(t, 0) in {0, 1, 3, 15, 31, 127, 255} && Top(t, 1) in {0, 1, 3, 15, 31, 127, 255}
    ensures Top(t, 2) in {0, 1, 3, 15, 31, 127, 255} && Top(t, 3) in {0, 1, 3, 15, 31, 127, 255}
  {
  }

  // ---- getDevAddr ----

  /** The search ends at an address nobody has, or at one that could not be looked up. */
  predicate Stops(motes: seq<Option<bv32>>, sessions: Sessions, a: bv32) {
    Unlisted(motes, a) && sessions(a) != Present
  }

  ghost predicate NoneBelow(motes: seq<Option<bv32>>, sessions: Sessions, netId: bv32, n: nat) {
    forall j: nat :: j < n ==> !Stops(motes, sessions, AddressOf(netId, BitsOf(j)))
  }

  /** The least network address at which the search ends; the all-ones one is never tried. */
  ghost predicate StopsAt(motes: seq<Option<bv32>>, sessions: Sessions, netId: bv32, k: nat) {
    k < Count(TypeOf(netId)) - 1 && Stops(motes, sessions, AddressOf(netId, BitsOf(k))) && NoneBelow(motes, sessions, netId, k)
  }

  /** What a mote that had the address was gets. */
  ghost predicate Assigned(motes: seq<Option<bv32>>, sessions: Sessions, netId: bv32, was: bv32, devAddr: bv32) {
    (NoneBelow(motes, sessions, netId, Count(TypeOf(netId)) - 1) && devAddr == was) ||
    (exists k :: StopsAt(motes, sessions, netId, k) &&
       devAddr == if sessions(AddressOf(netId, BitsOf(k))) == Failed then NONE_DEVADDR else AddressOf(netId, BitsOf(k)))
  }

  ghost predicate LookupsSucceed(sessions: Sessions) {
    forall a :: sessions(a) != Failed
  }

  /** A free address exists below the all-ones one. */
  ghost predicate FreeBelowLast(motes: seq<Option<bv32>>, sessions: Sessions, netId: bv32) {
    exists k: nat :: k < Count(TypeOf(netId)) - 1 && Free(motes, sessions, AddressOf(netId, BitsOf(k)))
  }

  /** The least free address of the network. */
  ghost predicate IsLeastFree(motes: seq<Option<bv32>>, sessions: Sessions, netId: bv32, a: bv32) {
    Free(motes, sessions, a) &&
    exists m: nat :: m < Count(TypeOf(netId)) && a == AddressOf(netId, BitsOf(m)) &&
      forall j: nat :: j < m ==> !Free(motes, sessions, AddressOf(netId, BitsOf(j)))
  }

  lemma CountIsPositive(t: bv32)
    ensures Count(t) >= 0x80
  {
  }

  /** If every lookup succeeds and an address below the all-ones one is free, a mote gets the least free one, and it parses
      back to the network. */
  lemma LeastFreeIsAssigned(motes: seq<Option<bv32>>, sessions: Sessions, netId: bv32, was: bv32, devAddr: bv32)
    requires Fits(netId) && Assigned(motes, sessions, netId, was, devAddr) && LookupsSucceed(sessions)
    requires FreeBelowLast(motes, sessions, netId)
    ensures IsLeastFree(motes, sessions, netId, devAddr)
    ensures ParseDevAddr(devAddr).Some? && ParseDevAddr(devAddr).value.netId == netId
  {
    hide AddressOf, TypeOf, Count, IdOf, ParseDevAddr, IdFits, AddrFits, IsType, LowBits, BitsOf;
    var k: nat :| k < Count(TypeOf(netId)) - 1 && Free(motes, sessions, AddressOf(netId, BitsOf(k)));
    assert Stops(motes, sessions, AddressOf(netId, BitsOf(k)));
    var m :| StopsAt(motes, sessions, netId, m) && devAddr == AddressOf(netId, BitsOf(m));
    BitsFit(TypeOf(netId), m);
    ParsedOfBaseIff(netId, BitsOf(m));
    forall j: nat | j < m
      ensures !Free(motes, sessions, AddressOf(netId, BitsOf(j)))
    {
      assert !Stops(motes, sessions, AddressOf(netId, BitsOf(j)));
    }
  }

  /** Otherwise the mote keeps the address it had. */
  lemma NothingFreeBelowLast(motes: seq<Option<bv32>>, sessions: Sessions, netId: bv32, was: bv32, devAddr: bv32)
    requires LookupsSucceed(sessions) && !FreeBelowLast(motes, sessions, netId)
    ensures Assigned(motes, sessions, netId, was, devAddr) <==> devAddr == was
  {
    hide AddressOf, TypeOf, Count, BitsOf;
    forall j: nat | j < Count(TypeOf(netId)) - 1
      ensures !Stops(motes, sessions, AddressOf(netId, BitsOf(j)))
    {
      assert !Free(motes, sessions, AddressOf(netId, BitsOf(j)));
    }
  }

  /** While every lookup succeeds, whatever address a mote had it gets the least free one exactly if an address below the
      all-ones one is free. */
  lemma LeastFreeIsAssignedIff(motes: seq<Option<bv32>>, sessions: Sessions, netId: bv32)
    requires Fits(netId) && LookupsSucceed(sessions)
    ensures (forall was, devAddr :: Assigned(motes, sessions, netId, was, devAddr) ==> IsLeastFree(motes, sessions, netId, devAddr)) <==>
            FreeBelowLast(motes, sessions, netId)
  {
    hide AddressOf, TypeOf, Count, BitsOf, Fits, Assigned, IsLeastFree, FreeBelowLast, LookupsSucceed;
    if FreeBelowLast(motes, sessions, netId) {
      forall was, devAddr | Assigned(motes, sessions, netId, was, devAddr)
        ensures IsLeastFree(motes, sessions, netId, devAddr)
      {
        LeastFreeIsAssigned(motes, sessions, netId, was, devAddr);
      }
    } else {
      var first := AddressOf(netId, BitsOf(0));
      NothingFreeBelowLast(motes, sessions, netId, first, first);
      FirstIsNotFree(motes, sessions, netId);
    }
  }

  lemma FirstIsNotFree(motes: seq<Option<bv32>>, sessions: Sessions, netId: bv32)
    requires !FreeBelowLast(motes, sessions, netId)
    ensures !IsLeastFree(motes, sessions, netId, AddressOf(netId, BitsOf(0)))
  {
    hide AddressOf, TypeOf, Count, BitsOf;
    CountIsPositive(TypeOf(netId));
  }

  /** The all-ones address of a network. */
  function LastOf(netId: bv32): bv32 {
    AddressOf(netId, BitsOf(Count(TypeOf(netId)) - 1))
  }

  lemma AddressesDiffer(netId: bv32, m: nat, n: nat)
    requires Fits(netId) && m < Count(TypeOf(netId)) && n < Count(TypeOf(netId)) && m != n
    ensures AddressOf(netId, BitsOf(m)) != AddressOf(netId, BitsOf(n))
  {
    hide TypeOf, IdOf, Build, LowBits, IdFits, AddrFits, IsType, NwkAddrOf, BitsOf, Count;
    var t := TypeOf(netId);
    LowBitsFit(netId);
    BitsFit(t, m);
    BitsFit(t, n);
    NwkAddrOfBuilt(t, LowBits(netId), BitsOf(m));
    NwkAddrOfBuilt(t, LowBits(netId), BitsOf(n));
    CountIsBounded(t);
    BitsDiffer(m, n);
  }

  lemma CountIsBounded(t: bv32)
    ensures Count(t) <= 0x200_0000
  {
  }

  /** In every network: if only the all-ones address is left, it is free but the mote keeps the address it had. */
  lemma LastIsNeverGiven(netId: bv32, was: bv32)
    requires Fits(netId)
    ensures var sessions := a => if a == LastOf(netId) then Absent else Present;
            LookupsSucceed(sessions) && Free([], sessions, LastOf(netId)) && Assigned([], sessions, netId, was, was) &&
            !FreeBelowLast([], sessions, netId)
  {
    hide AddressOf, TypeOf, Count, BitsOf, Fits, Assigned;
    var sessions := a => if a == LastOf(netId) then Absent else Present;
    CountIsPositive(TypeOf(netId));
    forall k: nat | k < Count(TypeOf(netId)) - 1
      ensures AddressOf(netId, BitsOf(k)) != LastOf(netId)
    {
      AddressesDiffer(netId, k, Count(TypeOf(netId)) - 1);
    }
    NothingFreeBelowLast([], sessions, netId, was, was);
  }

  /** The globals set at start-up. */
  class Network {
    var devAddrBase: bv32
    var nwkAddrBits: nat

    ghost predicate ReadyFor(netId: bv32)
      reads this
    {
      IsType(TypeOf(netId)) && nwkAddrBits == AddrBits(TypeOf(netId)) &&
      devAddrBase == Prefix(TypeOf(netId)) | Shifted(IdOf(netId), TypeOf(netId))
    }

    /** fNS_init after the database was opened. */
    method Init(netId: bv32) returns (ok: bool)
      modifies this
      ensures ok <==> IsType(TypeOf(netId))
      ensures ok ==> ReadyFor(netId)
    {
      hide IdOf, Shifted, TypeOf;
      var t := TypeOf(netId);
      match t {
        case 0 => devAddrBase, nwkAddrBits := 0x0000_0000, 25;
        case 1 => devAddrBase, nwkAddrBits := 0x8000_0000, 24;
        case 2 => devAddrBase, nwkAddrBits := 0xc000_0000, 20;
        case 3 => devAddrBase, nwkAddrBits := 0xe000_0000, 18;
        case 4 => devAddrBase, nwkAddrBits := 0xf000_0000, 16;
        case 5 => devAddrBase, nwkAddrBits := 0xf800_0000, 13;
        case 6 => devAddrBase, nwkAddrBits := 0xfc00_0000, 10;
        case 7 => devAddrBase, nwkAddrBits := 0xfe00_0000, 7;
        case _ => return false;
      }
      devAddrBase := devAddrBase | Shifted(IdOf(netId), t);
      ok := true;
    }

    method InList(motes: seq<Option<bv32>>, attempt: bv32) returns (haveAlready: bool)
      ensures haveAlready <==> !Unlisted(motes, attempt)
    {
      for i := 0 to |motes|
        invariant Some(attempt) !in motes[..i]
      {
        if motes[i] == Some(attempt) {
          return true;
        }
      }
      haveAlready := false;
    }

    method Attempt(nwkAddr: nat, ghost netId: bv32) returns (attempt: bv32)
      requires ReadyFor(netId)
      ensures attempt == AddressOf(netId, BitsOf(nwkAddr))
    {
      hide TypeOf, IdOf, Shifted, Prefix, BitsOf;
      attempt := devAddrBase | BitsOf(nwkAddr);
    }

    /** (1 << nwkAddrBits) - 1. */
    method MaxAddr(ghost netId: bv32) returns (max: nat)
      requires ReadyFor(netId)
      ensures max == Count(TypeOf(netId)) - 1
    {
      hide TypeOf, IdOf, Shifted, Prefix;
      CountIsPower(TypeOf(netId));
      max := PowerOfTwo(nwkAddrBits) - 1;
    }

    /** getDevAddr for a mote that had the address was. */
    method GetDevAddr(motes: seq<Option<bv32>>, sessions: Sessions, was: bv32, ghost netId: bv32) returns (devAddr: bv32)
      requires ReadyFor(netId)
      ensures Assigned(motes, sessions, netId, was, devAddr)
    {
      hide AddressOf, Count, TypeOf, ReadyFor, BitsOf;
      var max := MaxAddr(netId);
      var nwkAddr := 0;
      while nwkAddr < max
        invariant nwkAddr <= max && NoneBelow(motes, sessions, netId, nwkAddr)
      {
        var attempt := Attempt(nwkAddr, netId);
        var haveAlready := InList(motes, attempt);
        if !haveAlready {
          var row := sessions(attempt);
          if row != Present {
            assert StopsAt(motes, sessions, netId, nwkAddr);
            return if row == Failed then NONE_DEVADDR else attempt;
          }
        }
        nwkAddr := nwkAddr + 1;
      }
      devAddr := was;
    }
  }
}
