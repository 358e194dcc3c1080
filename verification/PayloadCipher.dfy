/** The counter-mode cipher of libbackend/libserver.c, used for FRMPayload and FOpts. */
module PayloadCipher {
  import opened Basics
  import opened Gf256
  import opened Fips197
  import opened Aes
  import opened Rfc4493

  // ---- Little-endian writers: Write2/3/4ByteValue ----

  function LittleEndian2(v: bv32): (b: seq<bv8>)
    ensures |b| == 2
  {
    [(v & 0xff) as bv8, ((v >> 8) & 0xff) as bv8]
  }

  function LittleEndian3(v: bv32): (b: seq<bv8>)
    ensures |b| == 3
  {
    LittleEndian2(v) + [((v >> 16) & 0xff) as bv8]
  }

  function LittleEndian4(v: bv32): (b: seq<bv8>)
    ensures |b| == 4
  {
    LittleEndian3(v) + [(v >> 24) as bv8]
  }

  /** Reading them back, as the packed structures do. */
  function Load2(b: seq<bv8>): bv32
    requires |b| == 2
  {
    b[0] as bv32 | (b[1] as bv32 << 8)
  }

  function Load3(b: seq<bv8>): bv32
    requires |b| == 3
  {
    Load2(b[..2]) | (b[2] as bv32 << 16)
  }

  function Load4(b: seq<bv8>): bv32
    requires |b| == 4
  {
    Load3(b[..3]) | (b[3] as bv32 << 24)
  }

  lemma Load2OfLittleEndian2(v: bv32)
    ensures Load2(LittleEndian2(v)) == v & 0xffff
  {
  }

  lemma Load3OfLittleEndian3(v: bv32)
    requires v < 0x100_0000
    ensures Load3(LittleEndian3(v)) == v
  {
  }

  lemma Load4OfLittleEndian4(v: bv32)
    ensures Load4(LittleEndian4(v)) == v
  {
  }

  /** The other way round: bytes are the writers' bytes of what is read from them. */
  lemma LittleEndian2OfLoad2(b: seq<bv8>)
    requires |b| == 2
    ensures LittleEndian2(Load2(b)) == b
  {
  }

  lemma LittleEndian3OfLoad3(b: seq<bv8>)
    requires |b| == 3
    ensures LittleEndian3(Load3(b)) == b && Load3(b) < 0x100_0000
  {
  }

  lemma LittleEndian4OfLoad4(b: seq<bv8>)
    requires |b| == 4
    ensures LittleEndian4(Load4(b)) == b
  {
  }

  /** The first byte is the least significant one. */
  lemma FirstByteIsLeast()
    ensures Load2([0x34, 0x12]) == 0x1234 && Load3([0x56, 0x34, 0x12]) == 0x12_3456
    ensures Load4([0x78, 0x56, 0x34, 0x12]) == 0x1234_5678
  {
  }

  /** Write2ByteValue. */
  method Write2ByteValue(output: array<bv8>, ofs: nat, input: bv32) returns (end: nat)
    requires ofs + 2 <= output.Length
    modifies output
    ensures end == ofs + 2
    ensures output[..] == old(output[..ofs]) + LittleEndian2(input) + old(output[end..])
  {
    var v := input;
    output[ofs] := (v & 0xff) as bv8;
    v := v >> 8;
    output[ofs + 1] := (v & 0xff) as bv8;
    end := ofs + 2;
  }

  /** Write3ByteValue. */
  method Write3ByteValue(output: array<bv8>, ofs: nat, input: bv32) returns (end: nat)
    requires ofs + 3 <= output.Length
    modifies output
    ensures end == ofs + 3
    ensures output[..] == old(output[..ofs]) + LittleEndian3(input) + old(output[end..])
  {
    var v := input;
    output[ofs] := (v & 0xff) as bv8;
    v := v >> 8;
    output[ofs + 1] := (v & 0xff) as bv8;
    v := v >> 8;
    output[ofs + 2] := (v & 0xff) as bv8;
    end := ofs + 3;
  }

  /** Write4ByteValue: four stores, shifting the input down between them. */
  method Write4ByteValue(output: array<bv8>, ofs: nat, input: bv32) returns (end: nat)
    requires ofs + 4 <= output.Length
    modifies output
    ensures end == ofs + 4
    ensures output[..] == old(output[..ofs]) + LittleEndian4(input) + old(output[end..])
  {
    var v := input;
    output[ofs] := (v & 0xff) as bv8;
    v := v >> 8;
    output[ofs + 1] := (v & 0xff) as bv8;
    v := v >> 8;
    output[ofs + 2] := (v & 0xff) as bv8;
    v := v >> 8;
    output[ofs + 3] := (v & 0xff) as bv8;
    end := ofs + 4;
  }

  // ---- The specification: LoRaWAN 1.1 section 4.3.3 ----

  /** Who and what a frame is encrypted for. */
  datatype Context = Context(key: Key, address: bv32, up: bool, counter: bv32)

  /** Block A_i. */
  function CounterBlock(c: Context, i: bv8): (a: Block) {
    [0x01, 0, 0, 0, 0, if c.up then 0 else 1] + LittleEndian4(c.address) + LittleEndian4(c.counter) + [0, i]
  }

  /** Block A_i of section 4.3.3 by its bytes: a constant, zeros, the direction, the address, the counter, a zero and i. */
  predicate IsBlockA(a: Block, address: bv32, down: bool, counter: bv32, i: bv8) {
    a[0] == 0x01 && a[1] == 0 && a[2] == 0 && a[3] == 0 && a[4] == 0 && a[5] == (if down then 1 else 0) &&
    Load4(a[6..10]) == address && Load4(a[10..14]) == counter && a[14] == 0 && a[15] == i
  }

  lemma CounterBlockIsBlockA(c: Context, i: bv8, a: Block)
    ensures a == CounterBlock(c, i) <==> IsBlockA(a, c.address, !c.up, c.counter, i)
  {
    hide LittleEndian4, Load4;
    var b := CounterBlock(c, i);
    assert b[6..10] == LittleEndian4(c.address) && b[10..14] == LittleEndian4(c.counter);
    Load4OfLittleEndian4(c.address);
    Load4OfLittleEndian4(c.counter);
    if IsBlockA(a, c.address, !c.up, c.counter, i) {
      LittleEndian4OfLoad4(a[6..10]);
      LittleEndian4OfLoad4(a[10..14]);
      assert a == a[..6] + a[6..10] + a[10..14] + a[14..];
    }
  }

  /** Byte j of the keystream whose first block has index first. */
  function KeystreamByte(c: Context, first: nat, j: nat): bv8
    requires first + j / 16 < 256
  {
    EncryptBlock(c.key, CounterBlock(c, (first + j / 16) as bv8))[j % 16]
  }

  lemma KeystreamOfBlock(c: Context, first: nat, m: nat)
    requires first + m < 256
    ensures forall j :: 16 * m <= j < 16 * m + 16 ==>
              KeystreamByte(c, first, j) == EncryptBlock(c.key, CounterBlock(c, (first + m) as bv8))[j - 16 * m]
  {
    hide EncryptBlock, CounterBlock;
    forall j | 16 * m <= j < 16 * m + 16
      ensures j / 16 == m && j % 16 == j - 16 * m
    {
    }
  }

  /** The data XORed with the keystream from block first on. */
  function Crypt(c: Context, first: nat, data: seq<bv8>): (r: seq<bv8>)
    requires first <= 1 && |data| <= 16 * 255
    ensures |r| == |data|
  {
    seq(|data|, j requires 0 <= j < |data| => Xor(data[j], KeystreamByte(c, first, j)))
  }

  /** Every byte is XORed with its byte of the enciphered block A whose index counts on from first. */
  lemma CryptByBlockA(c: Context, first: nat, data: seq<bv8>, j: nat, a: Block)
    requires first <= 1 && j < |data| <= 16 * 255
    requires IsBlockA(a, c.address, !c.up, c.counter, (first + j / 16) as bv8)
    ensures Crypt(c, first, data)[j] == data[j] ^ EncryptBlock(c.key, a)[j % 16]
  {
    hide CounterBlock, EncryptBlock, IsBlockA, Crypt;
    CounterBlockIsBlockA(c, (first + j / 16) as bv8, a);
    CryptAt(c, first, data, j);
  }

  lemma CryptAt(c: Context, first: nat, data: seq<bv8>, j: nat)
    requires first <= 1 && j < |data| <= 16 * 255
    ensures Crypt(c, first, data)[j] == Xor(data[j], KeystreamByte(c, first, j))
  {
    hide Xor, KeystreamByte;
  }

  lemma XorTwice(x: bv8, k: bv8)
    ensures Xor(Xor(x, k), k) == x
  {
  }

  /** Encryption and decryption are the same operation. */
  lemma CryptInvolution(c: Context, first: nat, data: seq<bv8>)
    requires first <= 1 && |data| <= 16 * 255
    ensures Crypt(c, first, Crypt(c, first, data)) == data
  {
    hide Xor, KeystreamByte;
    forall j | 0 <= j < |data|
      ensures Xor(Xor(data[j], KeystreamByte(c, first, j)), KeystreamByte(c, first, j)) == data[j]
    {
      XorTwice(data[j], KeystreamByte(c, first, j));
    }
  }

  /** The keystream does not depend on how much data follows. */
  lemma CryptPrefix(c: Context, first: nat, data: seq<bv8>, n: nat)
    requires first <= 1 && n <= |data| <= 16 * 255
    ensures Crypt(c, first, data)[..n] == Crypt(c, first, data[..n])
  {
    hide Xor, KeystreamByte;
  }

  // ---- LoRa_Encrypt ----

  function FindBlockOverhang(n: nat): nat {
    n % 16
  }

  function CountBlocks(n: nat): (blocks: nat)
    ensures 16 * (blocks as int - 1) < n <= 16 * blocks
  {
    (n - n % 16) / 16 + if FindBlockOverhang(n) > 0 then 1 else 0
  }

  /** The bytes the loop reads and writes: it starts at block first but always stops after block CountBlocks. */
  function Touched(first: nat, n: nat): nat
    requires first <= 1
  {
    if n == 0 then 0 else n + 16 * (1 - first)
  }

  /** BlockExOr. */
  method BlockExOr(l: Block, r: array<bv8>, rOfs: nat, out: array<bv8>, oOfs: nat, bytes: nat)
    requires bytes <= 16 && rOfs + bytes <= r.Length && oOfs + bytes <= out.Length && r != out
    modifies out
    ensures forall j :: oOfs <= j < oOfs + bytes ==> out[j] == Xor(r[rOfs + (j - oOfs)], l[j - oOfs])
    ensures forall j :: 0 <= j < out.Length && !(oOfs <= j < oOfs + bytes) ==> out[j] == old(out[j])
  {
    hide Xor;
    var i := 0;
    while i < bytes
      invariant i <= bytes
      invariant forall j :: oOfs <= j < oOfs + i ==> out[j] == Xor(r[rOfs + (j - oOfs)], l[j - oOfs])
      invariant forall j :: 0 <= j < out.Length && !(oOfs <= j < oOfs + i) ==> out[j] == old(out[j])
    {
      XorCommutes(l[i], r[rOfs + i]);
      out[oOfs + i] := Xor(l[i], r[rOfs + i]);
      i := i + 1;
    }
  }

  /** Block A before its index byte. */
  function CounterPrefix(c: Context): (p: seq<bv8>)
    ensures |p| == 15
  {
    [0x01, 0, 0, 0, 0, if c.up then 0 else 1] + LittleEndian4(c.address) + LittleEndian4(c.counter) + [0]
  }

  lemma PrefixOfCounterBlock(a: seq<bv8>, c: Context)
    requires a == CounterPrefix(c)
    ensures forall i: bv8 :: a + [i] == CounterBlock(c, i)
  {
    hide LittleEndian4;
  }

  lemma TwiceWritten(was: seq<bv8>, half: seq<bv8>, now: seq<bv8>, head: seq<bv8>, a: seq<bv8>, b: seq<bv8>)
    requires |was| == 16 && |head| == 6 && |a| == 4 && |b| == 4 && was[..6] == head && was[10..] == [0, 0, 0, 0, 0, 0]
    requires half == was[..6] + a + was[10..] && now == half[..10] + b + half[14..]
    ensures now[..15] == head + a + b + [0]
  {
    assert half[..10] == head + a && half[14..] == [0, 0];
  }

  /** Fill block A for one direction, address and counter. */
  method BuildCounterBlock(a: array<bv8>, c: Context)
    requires a.Length == 16
    modifies a
    ensures forall i: bv8 :: a[..15] + [i] == CounterBlock(c, i)
  {
    hide LittleEndian4, CounterBlock;
    forall j | 0 <= j < 16 {
      a[j] := 0;
    }
    a[0] := 0x01;
    a[5] := if c.up then 0 else 1;
    ghost var was, head := a[..], [0x01, 0, 0, 0, 0, if c.up then 0 else 1];
    assert was[..6] == head && was[10..] == [0, 0, 0, 0, 0, 0];
    var end := Write4ByteValue(a, 6, c.address);
    ghost var half := a[..];
    end := Write4ByteValue(a, 10, c.counter);
    TwiceWritten(was, half, a[..], head, LittleEndian4(c.address), LittleEndian4(c.counter));
    assert a[..15] == a[..][..15];
    PrefixOfCounterBlock(a[..15], c);
  }

  /** The loop body of LoRa_Encrypt: XOR the keystream block with index i into one stretch of the output. */
  method CryptBlock(a: array<bv8>, i: uint8, c: Context, input: array<bv8>, iOfs: nat, out: array<bv8>, oOfs: nat, bytes: nat)
    requires a.Length == 16 && forall b: bv8 :: a[..15] + [b] == CounterBlock(c, b)
    requires bytes <= 16 && iOfs + bytes <= input.Length && oOfs + bytes <= out.Length
    requires input != out && a != out && a != input
    modifies a, out
    ensures forall b: bv8 :: a[..15] + [b] == CounterBlock(c, b)
    ensures forall j :: oOfs <= j < oOfs + bytes ==>
              out[j] == Xor(input[iOfs + (j - oOfs)], EncryptBlock(c.key, CounterBlock(c, i as bv8))[j - oOfs])
    ensures forall j :: 0 <= j < out.Length && !(oOfs <= j < oOfs + bytes) ==> out[j] == old(out[j])
  {
    hide Xor, CounterBlock, EncryptBlock;
    a[15] := i as bv8;
    assert a[..] == a[..15] + [i as bv8];
    assert a[..15] == old(a[..15]);
    var aesContext := new AesContext();
    var ok := aesContext.SetKey(c.key, 16);
    var s := new bv8[16];
    aesContext.EncryptKeyed(a, s, c.key);
    BlockExOr(s[..], input, iOfs, out, oOfs, bytes);
  }

  /** The loop body with its place in the buffers: block i - first of the stretch. */
  method CryptNext(a: array<bv8>, i: uint8, first: uint8, c: Context, input: array<bv8>, iOfs: nat, out: array<bv8>, oOfs: nat,
                   bytes: nat, ghost before: seq<bv8>)
    requires a.Length == 16 && forall b: bv8 :: a[..15] + [b] == CounterBlock(c, b)
    requires first <= i && i < 255 && bytes <= 16
    requires iOfs + 16 * (i - first) as nat + bytes <= input.Length && oOfs + 16 * (i - first) as nat + bytes <= out.Length
    requires input != out && a != out && a != input
    requires Crypted(out[..], before, oOfs, input[..], iOfs, c, first as nat, 16 * (i - first) as nat)
    modifies a, out
    ensures forall b: bv8 :: a[..15] + [b] == CounterBlock(c, b)
    ensures Crypted(out[..], before, oOfs, input[..], iOfs, c, first as nat, 16 * (i - first) as nat + bytes)
  {
    hide Xor, CounterBlock, EncryptBlock, Crypted;
    var pos := 16 * (i - first) as nat;
    ghost var was := out[..];
    CryptBlock(a, i, c, input, iOfs + pos, out, oOfs + pos, bytes);
    CryptedMore(was, out[..], before, oOfs, input[..], iOfs, c, first as nat, (i - first) as nat, bytes);
  }

  /** LoRa_Encrypt. The caller starts the 8-bit block index at 1 for FRMPayload and at 0 for FOpts; both
      buffers must be good for every byte the loop touches, which from 0 is sixteen more than the length. */
  method LoRaEncrypt(first: uint8, c: Context, input: array<bv8>, iOfs: nat, n: uint16, out: array<bv8>, oOfs: nat)
    requires first <= 1 && CountBlocks(n as nat) <= 254
    requires iOfs + Touched(first as nat, n as nat) <= input.Length
    requires oOfs + Touched(first as nat, n as nat) <= out.Length && input != out
    modifies out
    ensures var t := Touched(first as nat, n as nat);
            out[..] == old(out[..oOfs]) + Crypt(c, first as nat, input[iOfs..iOfs + t]) + old(out[oOfs + t..])
  {
    hide Xor, KeystreamByte, CounterBlock, EncryptBlock;
    if n == 0 {
      return;
    }
    var a := new bv8[16];
    BuildCounterBlock(a, c);
    var blocks, overHangBytes := CountBlocks(n as nat), FindBlockOverhang(n as nat);
    var i := first;
    ghost var t, before := Touched(first as nat, n as nat), out[..];
    while i as nat <= blocks
      invariant first <= i && i as nat <= blocks + 1
      invariant forall b: bv8 :: a[..15] + [b] == CounterBlock(c, b)
      invariant Crypted(out[..], before, oOfs, input[..], iOfs, c, first as nat, Done(first as nat, i as nat, blocks, t))
    {
      hide Crypted, CountBlocks, FindBlockOverhang, Touched, Done;
      BlockBytes(first as nat, i as nat, n as nat);
      var bytesToExOr := if i as nat < blocks || overHangBytes == 0 then 16 else overHangBytes;
      CryptNext(a, i, first, c, input, iOfs, out, oOfs, bytesToExOr, before);
      i := i + 1;
    }
    CryptedAll(out[..], before, oOfs, input[..], iOfs, c, first as nat, t);
  }

  /** The bytes written when the index stands at i. */
  function Done(first: nat, i: nat, blocks: nat, t: nat): nat
    requires first <= i
  {
    if i <= blocks then 16 * (i - first) else t
  }

  /** Each block advances the stretch, and the last one ends it. */
  lemma BlockBytes(first: nat, i: nat, n: nat)
    requires first <= 1 && first <= i <= CountBlocks(n) && n > 0
    ensures var blocks, t := CountBlocks(n), Touched(first, n);
            var bytes := if i < blocks || FindBlockOverhang(n) == 0 then 16 else FindBlockOverhang(n);
            bytes <= 16 && Done(first, i, blocks, t) == 16 * (i - first) &&
            16 * (i - first) + bytes == Done(first, i + 1, blocks, t) <= t
  {
  }

  /** The first n bytes of the stretch are XORed with the keystream, everything else is as before. */
  ghost predicate Crypted(out: seq<bv8>, before: seq<bv8>, oOfs: nat, input: seq<bv8>, iOfs: nat, c: Context, first: nat, n: nat) {
    |out| == |before| && oOfs + n <= |out| && iOfs + n <= |input| && first <= 1 && n <= 16 * 255 &&
    (forall j :: oOfs <= j < oOfs + n ==> out[j] == Xor(input[iOfs + (j - oOfs)], KeystreamByte(c, first, j - oOfs))) &&
    (forall j :: 0 <= j < |out| && !(oOfs <= j < oOfs + n) ==> out[j] == before[j])
  }

  lemma CryptedMore(was: seq<bv8>, out: seq<bv8>, before: seq<bv8>, oOfs: nat, input: seq<bv8>, iOfs: nat,
                    c: Context, first: nat, m: nat, bytes: nat)
    requires first + m < 256 && bytes <= 16 && 16 * m + bytes <= 16 * 255
    requires Crypted(was, before, oOfs, input, iOfs, c, first, 16 * m)
    requires |out| == |was| && oOfs + 16 * m + bytes <= |out| && iOfs + 16 * m + bytes <= |input|
    requires forall j :: oOfs + 16 * m <= j < oOfs + 16 * m + bytes ==>
               out[j] == Xor(input[iOfs + 16 * m + (j - (oOfs + 16 * m))],
                             EncryptBlock(c.key, CounterBlock(c, (first + m) as bv8))[j - (oOfs + 16 * m)])
    requires forall j :: 0 <= j < |out| && !(oOfs + 16 * m <= j < oOfs + 16 * m + bytes) ==> out[j] == was[j]
    ensures Crypted(out, before, oOfs, input, iOfs, c, first, 16 * m + bytes)
  {
    hide Xor, KeystreamByte, CounterBlock, EncryptBlock;
    KeystreamOfBlock(c, first, m);
  }

  lemma CryptedAll(out: seq<bv8>, before: seq<bv8>, oOfs: nat, input: seq<bv8>, iOfs: nat, c: Context, first: nat, n: nat)
    requires Crypted(out, before, oOfs, input, iOfs, c, first, n)
    ensures out == before[..oOfs] + Crypt(c, first, input[iOfs..iOfs + n]) + before[oOfs + n..]
  {
    hide Xor, KeystreamByte;
  }

  // ---- Termination of the 8-bit block index ----

  /** The value of the index after k rounds of the loop, wrapping as unsigned char does. */
  function IndexAfter(first: uint8, k: nat): nat {
    (first as nat + k) % 256
  }

  /** The loop ends exactly when the block count leaves room for an 8-bit index above it. */
  lemma LoopEndsIffIndexCanPass(first: uint8, blocks: nat)
    requires first <= 1
    ensures (exists k: nat :: IndexAfter(first, k) > blocks) <==> blocks <= 254
  {
    if blocks <= 254 {
      assert IndexAfter(first, (255 - first as int) as nat) == 255;
    }
  }
}
