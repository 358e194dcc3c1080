/** Data frames and their integrity codes: LoRa_GenerateDataFrameIntegrityCode of network_server/common.c, the
    frame assembly of sNS_schedule_downlink, the uplink parser's offsets, check_cmacS and check_cmacF. */
module DataFrame {
  import opened Fips197
  import opened Rfc4493
  import opened Cmac
  import opened PayloadCipher
  import opened Basics

  const MTYPE_UNCONF_DN: bv8 := 3
  const MTYPE_CONF_DN: bv8 := 5
  const MAC_HEADER := 8       // the MHDR byte and the seven bytes of fhdr_t
  const MIC_BYTES := 4
  const PHY_SIZE := 256

  // ---- Integrity codes ----

  /** block_t: the sixteen bytes put in front of the message. */
  function AuthBlock(confFCnt: bv32, dr: bv8, ch: bv8, down: bool, address: bv32, counter: bv32, length: bv8): (b: Block) {
    [0x49] + LittleEndian2(confFCnt) + [dr, ch, if down then 1 else 0] + LittleEndian4(address) + LittleEndian4(counter) + [0, length]
  }

  /** The block by its bytes: B0 and B1 of LoRaWAN 1.1 section 4.4. */
  predicate IsBlock(b: Block, confFCnt: bv32, dr: bv8, ch: bv8, down: bool, address: bv32, counter: bv32, length: bv8) {
    b[0] == 0x49 && Load2(b[1..3]) == confFCnt & 0xffff && b[3] == dr && b[4] == ch && b[5] == (if down then 1 else 0) &&
    Load4(b[6..10]) == address && Load4(b[10..14]) == counter && b[14] == 0 && b[15] == length
  }

  lemma AuthBlockHasBytes(confFCnt: bv32, dr: bv8, ch: bv8, down: bool, address: bv32, counter: bv32, length: bv8)
    ensures IsBlock(AuthBlock(confFCnt, dr, ch, down, address, counter, length), confFCnt, dr, ch, down, address, counter, length)
  {
    hide LittleEndian2, LittleEndian4, Load2, Load4;
    var a := AuthBlock(confFCnt, dr, ch, down, address, counter, length);
    assert a[1..3] == LittleEndian2(confFCnt) && a[6..10] == LittleEndian4(address) && a[10..14] == LittleEndian4(counter);
    Load2OfLittleEndian2(confFCnt);
    Load4OfLittleEndian4(address);
    Load4OfLittleEndian4(counter);
  }

  /** No other block has these bytes. */
  lemma BytesMakeAuthBlock(b: Block, confFCnt: bv32, dr: bv8, ch: bv8, down: bool, address: bv32, counter: bv32, length: bv8)
    requires IsBlock(b, confFCnt, dr, ch, down, address, counter, length)
    ensures b == AuthBlock(confFCnt, dr, ch, down, address, counter, length)
  {
    hide LittleEndian2, LittleEndian4, Load2, Load4;
    LittleEndian2OfLoad2(b[1..3]);
    LowHalfWritten(confFCnt);
    LittleEndian4OfLoad4(b[6..10]);
    LittleEndian4OfLoad4(b[10..14]);
    SixParts(b);
  }

  lemma SixParts(b: Block)
    ensures b == [b[0]] + b[1..3] + [b[3], b[4], b[5]] + b[6..10] + b[10..14] + [b[14], b[15]]
  {
  }

  lemma LowHalfWritten(v: bv32)
    ensures LittleEndian2(v & 0xffff) == LittleEndian2(v)
  {
  }

  function CmacOf(key: Key, b: Block, message: seq<bv8>): Block {
    Rfc4493.Cmac(key, b + message)
  }

  /** Init, SetKey, an Update for the block, an Update for the message, Final. */
  method MacOfBlockAndMessage(key: Key, b: Block, phy: array<bv8>, length: nat) returns (temp: Block)
    requires length <= phy.Length
    ensures temp == CmacOf(key, b, phy[..length])
  {
    hide Rfc4493.Cmac;
    var chunks := [b, phy[..length]];
    temp := MacOfChunks(key, chunks);
    assert chunks[..1] == [b] && chunks[..1][..0] == [];
    assert Flatten([b]) == b;
  }

  /** LoRa_GenerateDataFrameIntegrityCode. */
  method DataFrameIntegrityCode(b: Block, key: Key, phy: array<bv8>, length: nat) returns (mic: seq<bv8>)
    requires length <= phy.Length
    ensures mic == CmacOf(key, b, phy[..length])[..MIC_BYTES]
  {
    var temp := MacOfBlockAndMessage(key, b, phy, length);
    mic := temp[..MIC_BYTES];
  }

  /** The message is followed by the first four bytes of its CMAC. */
  predicate PassesMic(b: Block, key: Key, phy: seq<bv8>, length: nat)
    requires length + MIC_BYTES <= |phy|
  {
    CmacOf(key, b, phy[..length])[..MIC_BYTES] == phy[length..length + MIC_BYTES]
  }

  /** The serving server's half of a 1.1 code: the first two bytes behind the message. */
  predicate PassesS(b: Block, key: Key, phy: seq<bv8>, length: nat)
    requires length + MIC_BYTES <= |phy|
  {
    CmacOf(key, b, phy[..length])[..2] == phy[length..length + 2]
  }

  /** The forwarding server's half: the last two bytes. */
  predicate PassesF(b: Block, key: Key, phy: seq<bv8>, length: nat)
    requires length + MIC_BYTES <= |phy|
  {
    CmacOf(key, b, phy[..length])[..2] == phy[length + 2..length + MIC_BYTES]
  }

  lemma Prefixes(s: seq<bv8>, t: seq<bv8>)
    ensures |s| >= 2 && |t| == 2 ==> (s[..2] == t <==> s[0] == t[0] && s[1] == t[1])
    ensures |s| >= 4 && |t| == 4 ==> (s[..4] == t <==> s[0] == t[0] && s[1] == t[1] && s[2] == t[2] && s[3] == t[3])
  {
  }

  /** The 1.0 comparison of sNS_uplink: the code assembled from the last byte down to the first. */
  method CheckMic(b: Block, key: Key, phy: array<bv8>, phyLen: nat) returns (ok: bool)
    requires MIC_BYTES <= phyLen <= phy.Length
    ensures ok <==> PassesMic(b, key, phy[..], phyLen - MIC_BYTES)
    ensures ok <==> Rfc4493.Cmac(key, b + phy[..phyLen - 4])[..4] == phy[phyLen - 4..phyLen]
  {
    hide Rfc4493.Cmac;
    var length: nat := phyLen - MIC_BYTES;
    var mic := DataFrameIntegrityCode(b, key, phy, length);
    ok := mic[3] == phy[phyLen - 1] && mic[2] == phy[phyLen - 2] && mic[1] == phy[phyLen - 3] && mic[0] == phy[phyLen - 4];
    Prefixes(mic, phy[length..length + MIC_BYTES]);
    assert phy[..][..length] == phy[..length];
  }

  /** check_cmacS. */
  method CheckCmacS(b: Block, key: Key, phy: array<bv8>, length: nat) returns (ok: bool)
    requires length + MIC_BYTES <= phy.Length
    ensures ok <==> PassesS(b, key, phy[..], length)
    ensures ok <==> Rfc4493.Cmac(key, b + phy[..length])[..2] == phy[length..length + 2]
  {
    hide Rfc4493.Cmac;
    var temp := MacOfBlockAndMessage(key, b, phy, length);
    ok := temp[0] == phy[length] && temp[1] == phy[length + 1];
    Prefixes(temp, phy[length..length + 2]);
    assert phy[..][..length] == phy[..length];
  }

  /** The block check_cmacF builds for itself. */
  function ForwardingBlock(address: bv32, counter: bv32, length: nat): Block
    requires length < 256
  {
    AuthBlock(0, 0, 0, false, address, counter, length as bv8)
  }

  /** check_cmacF. */
  method CheckCmacF(phy: array<bv8>, phyLen: nat, counter: bv32, address: bv32, key: Key) returns (ok: bool, ghost b: Block)
    requires MIC_BYTES <= phyLen <= phy.Length && phyLen < 256
    ensures ok <==> PassesF(ForwardingBlock(address, counter, phyLen - MIC_BYTES), key, phy[..], phyLen - MIC_BYTES)
    ensures IsBlock(b, 0, 0, 0, false, address, counter, (phyLen - 4) as bv8)
    ensures ok <==> Rfc4493.Cmac(key, b + phy[..phyLen - 4])[..2] == phy[phyLen - 2..phyLen]
  {
    hide Rfc4493.Cmac, IsBlock, AuthBlock;
    var length: nat := phyLen - MIC_BYTES;
    b := ForwardingBlock(address, counter, length);
    AuthBlockHasBytes(0, 0, 0, false, address, counter, length as bv8);
    var temp := MacOfBlockAndMessage(key, ForwardingBlock(address, counter, length), phy, length);
    ok := temp[0] == phy[phyLen - 2] && temp[1] == phy[phyLen - 1];
    Prefixes(temp, phy[length + 2..length + MIC_BYTES]);
    assert phy[..][..length] == phy[..length];
  }

  /** The two 1.1 checks split the four bytes between them: exactly the code made of two bytes of each CMAC passes both. */
  lemma BothHalvesAreTheMic(sBlock: Block, sKey: Key, fBlock: Block, fKey: Key, message: seq<bv8>, mic: seq<bv8>)
    requires |mic| == MIC_BYTES
    ensures PassesS(sBlock, sKey, message + mic, |message|) && PassesF(fBlock, fKey, message + mic, |message|) <==>
            mic == CmacOf(sKey, sBlock, message)[..2] + CmacOf(fKey, fBlock, message)[..2]
  {
    hide CmacOf;
    var phy, n := message + mic, |message|;
    var s, f := CmacOf(sKey, sBlock, message), CmacOf(fKey, fBlock, message);
    assert phy[..n] == message && phy[n..n + 2] == mic[..2] && phy[n + 2..n + 4] == mic[2..];
    assert mic == mic[..2] + mic[2..];
    assert (s[..2] + f[..2])[..2] == s[..2] && (s[..2] + f[..2])[2..] == f[..2];
  }

  /** In 1.0 exactly the first four bytes of the CMAC pass. */
  lemma MicIsFourCmacBytes(b: Block, key: Key, message: seq<bv8>, mic: seq<bv8>)
    requires |mic| == MIC_BYTES
    ensures PassesMic(b, key, message + mic, |message|) <==> mic == CmacOf(key, b, message)[..MIC_BYTES]
  {
    hide CmacOf;
    var phy, n := message + mic, |message|;
    assert phy[..n] == message && phy[n..n + 4] == mic;
  }

  // ---- The uplink counter window ----

  const MAX_FCNT_GAP := 0x4000

  /** The counter sNS_uplink assumes: the stored upper half and the received lower half. */
  function AssumedFCntUp(stored: uint32, received: uint16): uint32 {
    (stored - stored % 0x1_0000) + received as uint32
  }

  /** The window test: both differences are taken as signed integers. */
  predicate InWindow(stored: uint32, received: uint16) {
    var a := AssumedFCntUp(stored, received) as int - stored as int;
    var b := a + 0x1_0000;
    !(a < 0 && b > MAX_FCNT_GAP) && !(a > MAX_FCNT_GAP && b > MAX_FCNT_GAP)
  }

  /** The window is 0x4000 counts ahead of the stored counter, modulo 2^16. Since the upper half is kept, an accepted
      counter falls behind the stored one exactly when the lower half has rolled over. */
  lemma WindowIsModular(stored: uint32, received: uint16)
    ensures InWindow(stored, received) <==> (received as int - stored as int) % 0x1_0000 <= 0x4000
    ensures AssumedFCntUp(stored, received) < stored <==> (received as int) < stored as int % 0x1_0000
  {
    var low := stored as int % 0x1_0000;
    var d := received as int - low;
    assert stored as int == low + 0x1_0000 * (stored as int / 0x1_0000);
    assert received as int - stored as int == d - 0x1_0000 * (stored as int / 0x1_0000);
    if d >= 0 {
      ModOf(received as int - stored as int, d, -(stored as int / 0x1_0000));
    } else {
      ModOf(received as int - stored as int, d + 0x1_0000, -(stored as int / 0x1_0000) - 1);
    }
  }

  lemma ModOf(x: int, r: int, q: int)
    requires 0 <= r < 0x1_0000 && x == r + 0x1_0000 * q
    ensures x % 0x1_0000 == r
  {
  }
}
