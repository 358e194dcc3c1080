/** AES-CMAC as RFC 4493 defines it: the specification of libbackend/cmac.c. */
module Rfc4493 {
  import opened Gf256
  import opened Fips197
  import opened Aes

  /** A 128-bit AES key, the only length the servers use. */
  type Key = k: seq<bv8> | |k| == 16 witness seq(16, _ => 0)

  const ZERO_BLOCK: Block := [0, 0, 0, 0, 0, 0, 0, 0, 0, 0, 0, 0, 0, 0, 0, 0]

  function XorBlocks(s: Block, t: Block): Block {
    seq(16, i requires 0 <= i < 16 => Xor(s[i], t[i]))
  }

  // ---- Subkeys, section 2.3 ----

  /** One byte of a shift: seven bits of x and the top bit of the byte that follows it. */
  function ShiftByte(x: bv8, next: bv8): bv8 {
    (x << 1) | (next >> 7)
  }

  /** The block shifted left by one bit, most significant byte first. */
  function ShiftLeft(b: Block): Block {
    seq(16, i requires 0 <= i < 16 => ShiftByte(b[i], if i < 15 then b[i + 1] else 0))
  }

  /** ShiftLeft, and 0x87 into the last byte when a one was shifted out. */
  function Double(b: Block): Block {
    var shifted := ShiftLeft(b);
    if b[0] & 0x80 == 0 then shifted else shifted[15 := shifted[15] ^ 0x87]
  }

  function SubkeyK1(key: Key): Block {
    Double(EncryptBlock(key, ZERO_BLOCK))
  }

  function SubkeyK2(key: Key): Block {
    Double(SubkeyK1(key))
  }

  /** The mask of bit k of a byte, most significant first. */
  function Mask(k: nat): bv8
    requires k < 8
  {
    [0x80, 0x40, 0x20, 0x10, 0x08, 0x04, 0x02, 0x01][k]
  }

  /** Bit k of byte i. */
  function Bit(b: Block, i: nat, k: nat): bool
    requires i < 16 && k < 8
  {
    b[i] & Mask(k) != 0
  }

  /** ShiftLeft moves every bit of the block one place up and brings a zero in at the end. */
  lemma ShiftLeftMovesBits(b: Block, i: nat, k: nat)
    requires i < 16 && k < 8
    ensures Bit(ShiftLeft(b), i, k) ==
            if k < 7 then Bit(b, i, k + 1) else if i < 15 then Bit(b, i + 1, 0) else false
  {
    ShiftedByte(b[i], if i < 15 then b[i + 1] else 0);
  }

  lemma ShiftedByte(x: bv8, next: bv8)
    ensures var r := ShiftByte(x, next);
            forall k: nat :: k < 8 ==> (r & Mask(k) != 0 <==> if k < 7 then x & Mask(k + 1) != 0 else next & Mask(0) != 0)
  {
  }

  // ---- The MAC, section 2.4 ----

  /** The CBC chain over the first n blocks of the message, from a zero block. */
  function Chain(key: Key, message: seq<bv8>, n: nat): Block
    requires 16 * n <= |message|
  {
    hide EncryptBlock, XorBlocks;
    if n == 0 then ZERO_BLOCK
    else EncryptBlock(key, XorBlocks(Chain(key, message, n - 1), message[16 * (n - 1)..16 * n]))
  }

  /** A one bit and zeros up to sixteen bytes. */
  function Pad(last: seq<bv8>): Block
    requires |last| < 16
  {
    last + [0x80] + seq(15 - |last|, _ => 0)
  }

  /** The blocks before the last one: the last block is complete unless the message has none. */
  function HeadBlocks(n: nat): (h: nat)
    ensures 16 * h <= n && n - 16 * h <= 16 && (n > 0 ==> 16 * h < n)
  {
    if n == 0 then 0 else (n - 1) / 16
  }

  function MaskedLast(key: Key, last: seq<bv8>): Block
    requires |last| <= 16
  {
    if |last| == 16 then XorBlocks(last, SubkeyK1(key)) else XorBlocks(Pad(last), SubkeyK2(key))
  }

  function Cmac(key: Key, message: seq<bv8>): Block {
    hide EncryptBlock, XorBlocks;
    var h := HeadBlocks(|message|);
    EncryptBlock(key, XorBlocks(Chain(key, message, h), MaskedLast(key, message[16 * h..])))
  }

  /** The chain only looks at the blocks it runs over. */
  lemma {:induction false} ChainPrefix(key: Key, message: seq<bv8>, longer: seq<bv8>, n: nat)
    requires 16 * n <= |message| && message <= longer
    ensures Chain(key, message, n) == Chain(key, longer, n)
  {
    hide EncryptBlock, XorBlocks;
    if n > 0 {
      ChainPrefix(key, message, longer, n - 1);
      assert message[16 * (n - 1)..16 * n] == longer[16 * (n - 1)..16 * n];
    }
  }

  // ---- The code by three laws, which determine it for every message: no other function has them ----

  lemma XorZeroBlock(b: Block)
    ensures XorBlocks(ZERO_BLOCK, b) == b
  {
    hide Xor;
    forall i | 0 <= i < 16
      ensures Xor(0, b[i]) == b[i]
    {
      XorZero(b[i]);
    }
    assert forall i :: 0 <= i < 16 ==> ZERO_BLOCK[i] == 0;
  }

  lemma XorBlocksAssociates(a: Block, b: Block, c: Block)
    ensures XorBlocks(a, XorBlocks(b, c)) == XorBlocks(XorBlocks(a, b), c)
  {
    hide Xor;
    forall i | 0 <= i < 16
      ensures Xor(a[i], Xor(b[i], c[i])) == Xor(Xor(a[i], b[i]), c[i])
    {
      XorAssociates(a[i], b[i], c[i]);
    }
  }

  /** A message of one whole block is masked with the doubled cipher of zero. */
  lemma CmacOfBlock(key: Key, m: seq<bv8>)
    requires |m| == 16
    ensures Cmac(key, m) == EncryptBlock(key, XorBlocks(m, Double(EncryptBlock(key, ZERO_BLOCK))))
  {
    hide EncryptBlock, XorBlocks, Double;
    XorZeroBlock(XorBlocks(m, SubkeyK1(key)));
    assert m[0..] == m;
  }

  /** A shorter message is padded with a one bit and zeros, and masked with that doubled again. */
  lemma CmacOfPart(key: Key, m: seq<bv8>)
    requires |m| < 16
    ensures Cmac(key, m) == EncryptBlock(key, XorBlocks(m + [0x80] + seq(15 - |m|, _ => 0), Double(Double(EncryptBlock(key, ZERO_BLOCK)))))
  {
    hide EncryptBlock, XorBlocks, Double;
    XorZeroBlock(XorBlocks(Pad(m), SubkeyK2(key)));
    assert m[0..] == m;
  }

  /** The cipher of one block added into the next. */
  function IntoNext(key: Key, b: Block, next: Block): Block {
    hide EncryptBlock, XorBlocks;
    XorBlocks(EncryptBlock(key, b), next)
  }

  /** A first block that a whole block follows goes, enciphered, into that block. */
  lemma CmacOfMore(key: Key, b: Block, m: seq<bv8>)
    requires |m| >= 16
    ensures Cmac(key, b + m) == Cmac(key, IntoNext(key, b, m[..16]) + m[16..])
  {
    hide EncryptBlock, MaskedLast, IntoNext, XorBlocks;
    var long, short := b + m, IntoNext(key, b, m[..16]) + m[16..];
    var h := HeadBlocks(|short|);
    if h == 0 {
      assert m[..16] == m && short == IntoNext(key, b, m[..16]);
      OneBlockMore(key, b, m);
    } else {
      ChainOfMore(key, b, m, h);
      assert long[16 * (h + 1)..] == short[16 * h..];
    }
  }

  /** A first block that less follows is chained to the padded rest. */
  lemma CmacOfLittleMore(key: Key, b: Block, m: seq<bv8>)
    requires 0 < |m| < 16
    ensures Cmac(key, b + m) == EncryptBlock(key, IntoNext(key, b, XorBlocks(Pad(m), SubkeyK2(key))))
  {
    hide EncryptBlock, XorBlocks, Double, Pad, SubkeyK2;
    FirstInChain(key, b, m);
    assert (b + m)[16..] == m;
  }

  lemma FirstInChain(key: Key, b: Block, m: seq<bv8>)
    ensures Chain(key, b + m, 1) == EncryptBlock(key, b)
  {
    hide EncryptBlock, XorBlocks;
    assert (b + m)[0..16] == b;
    XorZeroBlock(b);
  }

  lemma OneBlockMore(key: Key, b: Block, m: Block)
    ensures Cmac(key, b + m) == Cmac(key, IntoNext(key, b, m))
  {
    hide EncryptBlock, XorBlocks, Double;
    FirstInChain(key, b, m);
    assert (b + m)[16..] == m;
    CmacOfBlock(key, IntoNext(key, b, m));
    XorBlocksAssociates(EncryptBlock(key, b), m, SubkeyK1(key));
  }

  lemma {:induction false} ChainOfMore(key: Key, b: Block, m: seq<bv8>, n: nat)
    requires |m| >= 16 && 1 <= n && 16 * n <= |m|
    ensures Chain(key, b + m, n + 1) == Chain(key, IntoNext(key, b, m[..16]) + m[16..], n)
  {
    hide EncryptBlock, XorBlocks, IntoNext;
    var long, short := b + m, IntoNext(key, b, m[..16]) + m[16..];
    if n == 1 {
      FirstInChain(key, IntoNext(key, b, m[..16]), m[16..]);
      SecondInChain(key, b, m);
    } else {
      ChainOfMore(key, b, m, n - 1);
      assert long[16 * n..16 * (n + 1)] == short[16 * (n - 1)..16 * n];
    }
  }

  lemma SecondInChain(key: Key, b: Block, m: seq<bv8>)
    requires |m| >= 16
    ensures Chain(key, b + m, 2) == EncryptBlock(key, IntoNext(key, b, m[..16]))
  {
    hide EncryptBlock, XorBlocks;
    FirstInChain(key, b, m);
    assert (b + m)[16..32] == m[..16];
  }

  // ---- The subkeys of section 4, from the cipher of zero given there ----

  lemma ShiftLeftBytes(b: Block)
    ensures ShiftLeft(b) ==
      [ShiftByte(b[0], b[1]), ShiftByte(b[1], b[2]), ShiftByte(b[2], b[3]), ShiftByte(b[3], b[4]),
       ShiftByte(b[4], b[5]), ShiftByte(b[5], b[6]), ShiftByte(b[6], b[7]), ShiftByte(b[7], b[8]),
       ShiftByte(b[8], b[9]), ShiftByte(b[9], b[10]), ShiftByte(b[10], b[11]), ShiftByte(b[11], b[12]),
       ShiftByte(b[12], b[13]), ShiftByte(b[13], b[14]), ShiftByte(b[14], b[15]), ShiftByte(b[15], 0)]
  {
    hide ShiftByte;
  }

  const L_EXAMPLE: Block := [0x7d, 0xf7, 0x6b, 0x0c, 0x1a, 0xb8, 0x99, 0xb3, 0x3e, 0x42, 0xf0, 0x47, 0xb9, 0x1b, 0x54, 0x6f]
  const K1_EXAMPLE: Block := [0xfb, 0xee, 0xd6, 0x18, 0x35, 0x71, 0x33, 0x66, 0x7c, 0x85, 0xe0, 0x8f, 0x72, 0x36, 0xa8, 0xde]
  const K2_EXAMPLE: Block := [0xf7, 0xdd, 0xac, 0x30, 0x6a, 0xe2, 0x66, 0xcc, 0xf9, 0x0b, 0xc1, 0x1e, 0xe4, 0x6d, 0x51, 0x3b]

  /** A doubling without 0x87. */
  lemma FirstExample()
    ensures Double(L_EXAMPLE) == K1_EXAMPLE
  {
    hide ShiftLeft;
    ShiftLeftBytes(L_EXAMPLE);
  }

  /** And one with it. */
  lemma SecondExample()
    ensures Double(K1_EXAMPLE) == K2_EXAMPLE
  {
    hide ShiftLeft;
    ShiftLeftBytes(K1_EXAMPLE);
  }
}
