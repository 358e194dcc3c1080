/** The cipher of FIPS-197 and its inverse, written from the standard: the specification the
    table-driven code of libbackend/aes.c is proved against. */
module Fips197 {
  import opened Gf256

  type Word = w: seq<bv8> | |w| == 4 witness [0, 0, 0, 0]

  type Block = b: seq<bv8> | |b| == 16 witness seq(16, _ => 0)

  /** Two blocks that agree at each of the sixteen positions are equal. */
  lemma BlockExtensionality(s: Block, t: Block)
    requires s[0] == t[0] && s[1] == t[1] && s[2] == t[2] && s[3] == t[3]
    requires s[4] == t[4] && s[5] == t[5] && s[6] == t[6] && s[7] == t[7]
    requires s[8] == t[8] && s[9] == t[9] && s[10] == t[10] && s[11] == t[11]
    requires s[12] == t[12] && s[13] == t[13] && s[14] == t[14] && s[15] == t[15]
    ensures s == t
  {
  }

  // ---- The four transformations, section 5.1 ----

  function SubBytes(s: Block): Block {
    seq(16, i requires 0 <= i < 16 => SBox(s[i]))
  }

  function ShiftRows(s: Block): Block {
    [s[0], s[5], s[10], s[15], s[4], s[9], s[14], s[3],
     s[8], s[13], s[2], s[7], s[12], s[1], s[6], s[11]]
  }

  /** One byte of a mixed column (section 5.1.3, equation 5.6); the other rows rotate the arguments. */
  function MixByte(a: bv8, b: bv8, c: bv8, d: bv8): bv8 {
    Sum4(GfMul(a, 0x02), GfMul(b, 0x03), c, d)
  }

  function MixColumn(a: bv8, b: bv8, c: bv8, d: bv8): Word {
    hide MixByte;
    [MixByte(a, b, c, d), MixByte(b, c, d, a), MixByte(c, d, a, b), MixByte(d, a, b, c)]
  }

  function MixColumns(s: Block): Block {
    hide MixColumn;
    MixColumn(s[0], s[1], s[2], s[3]) + MixColumn(s[4], s[5], s[6], s[7]) +
    MixColumn(s[8], s[9], s[10], s[11]) + MixColumn(s[12], s[13], s[14], s[15])
  }

  /** XOR of round key r, the sixteen bytes of the schedule w from 16 * r on. */
  function AddRoundKey(s: Block, w: seq<bv8>, r: nat): Block
    requires 16 * (r + 1) <= |w|
  {
    seq(16, i requires 0 <= i < 16 => Xor(s[i], w[16 * r + i]))
  }

  /** The state after the initial key addition and rounds 1 to r. */
  function Rounds(w: seq<bv8>, r: nat, input: Block): Block
    requires 16 * (r + 1) <= |w|
  {
    if r == 0 then AddRoundKey(input, w, 0)
    else AddRoundKey(MixColumns(ShiftRows(SubBytes(Rounds(w, r - 1, input)))), w, r)
  }

  /** Section 5.1, figure 5: nr rounds, the last without MixColumns. */
  function Cipher(w: seq<bv8>, nr: nat, input: Block): Block
    requires 1 <= nr && |w| == 16 * (nr + 1)
  {
    AddRoundKey(ShiftRows(SubBytes(Rounds(w, nr - 1, input))), w, nr)
  }

  // ---- The inverse transformations, section 5.3 ----

  function InvSubBytes(s: Block): Block {
    seq(16, i requires 0 <= i < 16 => InvSBox(s[i]))
  }

  function InvShiftRows(s: Block): Block {
    [s[0], s[13], s[10], s[7], s[4], s[1], s[14], s[11],
     s[8], s[5], s[2], s[15], s[12], s[9], s[6], s[3]]
  }

  function InvMixByte(a: bv8, b: bv8, c: bv8, d: bv8): bv8 {
    Sum4(GfMul(a, 0x0e), GfMul(b, 0x0b), GfMul(c, 0x0d), GfMul(d, 0x09))
  }

  function InvMixColumn(a: bv8, b: bv8, c: bv8, d: bv8): Word {
    hide InvMixByte;
    [InvMixByte(a, b, c, d), InvMixByte(b, c, d, a), InvMixByte(c, d, a, b), InvMixByte(d, a, b, c)]
  }

  function InvMixColumns(s: Block): Block {
    hide InvMixColumn;
    InvMixColumn(s[0], s[1], s[2], s[3]) + InvMixColumn(s[4], s[5], s[6], s[7]) +
    InvMixColumn(s[8], s[9], s[10], s[11]) + InvMixColumn(s[12], s[13], s[14], s[15])
  }

  /** The state of the inverse cipher after undoing the last round and rounds nr - 1 down to r. */
  function InvRounds(w: seq<bv8>, nr: nat, r: nat, input: Block): Block
    requires 1 <= r <= nr && |w| == 16 * (nr + 1)
    decreases nr - r
  {
    if r == nr then InvSubBytes(InvShiftRows(AddRoundKey(input, w, nr)))
    else InvSubBytes(InvShiftRows(InvMixColumns(AddRoundKey(InvRounds(w, nr, r + 1, input), w, r))))
  }

  /** Section 5.3, figure 12. */
  function InvCipher(w: seq<bv8>, nr: nat, input: Block): Block
    requires 1 <= nr && |w| == 16 * (nr + 1)
  {
    AddRoundKey(InvRounds(w, nr, 1, input), w, 0)
  }

  // ---- Key expansion, section 5.2 ----

  predicate IsKey(key: seq<bv8>) {
    |key| in {16, 24, 32}
  }

  /** The number of rounds for each key length: figure 4. */
  function RoundCount(key: seq<bv8>): (nr: nat)
    requires IsKey(key)
    ensures nr in {10, 12, 14}
  {
    |key| / 4 + 6
  }

  function RotWord(w: Word): Word {
    [w[1], w[2], w[3], w[0]]
  }

  function SubWord(w: Word): Word {
    [SBox(w[0]), SBox(w[1]), SBox(w[2]), SBox(w[3])]
  }

  function AddWords(v: Word, w: Word): Word {
    [Xor(v[0], w[0]), Xor(v[1], w[1]), Xor(v[2], w[2]), Xor(v[3], w[3])]
  }

  /** The nonzero byte of round constant i: the power {02}^(i - 1). */
  function RconByte(i: nat): bv8 {
    if i <= 1 then 1 else GfMul(RconByte(i - 1), 0x02)
  }

  /** The word that is added to w[i - Nk] to give w[i] (figure 11). */
  function ScheduleTemp(nk: nat, i: nat, previous: Word): Word
    requires nk >= 1
  {
    if i % nk == 0 then AddWords(SubWord(RotWord(previous)), [RconByte(i / nk), 0, 0, 0])
    else if nk > 6 && i % nk == 4 then SubWord(previous)
    else previous
  }

  /** Word i of the key schedule. */
  function KeyWord(key: seq<bv8>, i: nat): Word
    requires IsKey(key)
  {
    var nk := |key| / 4;
    if i < nk then key[4 * i..4 * i + 4]
    else AddWords(KeyWord(key, i - nk), ScheduleTemp(nk, i, KeyWord(key, i - 1)))
  }

  function ScheduleByte(key: seq<bv8>, b: nat): bv8
    requires IsKey(key)
  {
    KeyWord(key, b / 4)[b % 4]
  }

  function KeyExpansion(key: seq<bv8>): (w: seq<bv8>)
    requires IsKey(key)
    ensures |w| == 16 * (RoundCount(key) + 1)
  {
    seq(16 * (RoundCount(key) + 1), b requires 0 <= b => ScheduleByte(key, b))
  }

  // ---- Each transformation undoes its inverse ----

  lemma SubBytesInverse(s: Block)
    ensures InvSubBytes(SubBytes(s)) == s
    ensures SubBytes(InvSubBytes(s)) == s
  {
    forall i | 0 <= i < 16
      ensures InvSBox(SBox(s[i])) == s[i] && SBox(InvSBox(s[i])) == s[i]
    {
      InvSBoxOfSBox(s[i]);
      SBoxOfInvSBox(s[i]);
    }
  }

  lemma ShiftRowsInverse(s: Block)
    ensures InvShiftRows(ShiftRows(s)) == s
    ensures ShiftRows(InvShiftRows(s)) == s
  {
    BlockExtensionality(InvShiftRows(ShiftRows(s)), s);
    BlockExtensionality(ShiftRows(InvShiftRows(s)), s);
  }

  lemma AddRoundKeyInverse(s: Block, w: seq<bv8>, r: nat)
    requires 16 * (r + 1) <= |w|
    ensures AddRoundKey(AddRoundKey(s, w, r), w, r) == s
  {
  }

  // The column maps are additive, so each inverse law is checked on columns with one nonzero byte.

  lemma MixByteAdditive(a: bv8, b: bv8, c: bv8, d: bv8, a': bv8, b': bv8, c': bv8, d': bv8)
    ensures MixByte(Xor(a, a'), Xor(b, b'), Xor(c, c'), Xor(d, d')) == Xor(MixByte(a, b, c, d), MixByte(a', b', c', d'))
  {
    hide GfMul, Sum4, Xor;
    GfMulAdditive(a, a', 0x02);
    GfMulAdditive(b, b', 0x03);
    Sum4Additive(GfMul(a, 0x02), GfMul(b, 0x03), c, d, GfMul(a', 0x02), GfMul(b', 0x03), c', d');
  }

  lemma InvMixByteAdditive(a: bv8, b: bv8, c: bv8, d: bv8, a': bv8, b': bv8, c': bv8, d': bv8)
    ensures InvMixByte(Xor(a, a'), Xor(b, b'), Xor(c, c'), Xor(d, d')) == Xor(InvMixByte(a, b, c, d), InvMixByte(a', b', c', d'))
  {
    hide GfMul, Sum4, Xor;
    GfMulAdditive(a, a', 0x0e);
    GfMulAdditive(b, b', 0x0b);
    GfMulAdditive(c, c', 0x0d);
    GfMulAdditive(d, d', 0x09);
    Sum4Additive(GfMul(a, 0x0e), GfMul(b, 0x0b), GfMul(c, 0x0d), GfMul(d, 0x09),
                 GfMul(a', 0x0e), GfMul(b', 0x0b), GfMul(c', 0x0d), GfMul(d', 0x09));
  }

  /** The first row of InvMixColumns after MixColumns, and of MixColumns after InvMixColumns. */
  function Unmix(a: bv8, b: bv8, c: bv8, d: bv8): bv8 {
    InvMixByte(MixByte(a, b, c, d), MixByte(b, c, d, a), MixByte(c, d, a, b), MixByte(d, a, b, c))
  }

  function Remix(a: bv8, b: bv8, c: bv8, d: bv8): bv8 {
    MixByte(InvMixByte(a, b, c, d), InvMixByte(b, c, d, a), InvMixByte(c, d, a, b), InvMixByte(d, a, b, c))
  }

  lemma UnmixAdditive(a: bv8, b: bv8, c: bv8, d: bv8, a': bv8, b': bv8, c': bv8, d': bv8)
    ensures Unmix(Xor(a, a'), Xor(b, b'), Xor(c, c'), Xor(d, d')) == Xor(Unmix(a, b, c, d), Unmix(a', b', c', d'))
  {
    hide MixByte, InvMixByte, Xor;
    MixByteAdditive(a, b, c, d, a', b', c', d');
    MixByteAdditive(b, c, d, a, b', c', d', a');
    MixByteAdditive(c, d, a, b, c', d', a', b');
    MixByteAdditive(d, a, b, c, d', a', b', c');
    InvMixByteAdditive(MixByte(a, b, c, d), MixByte(b, c, d, a), MixByte(c, d, a, b), MixByte(d, a, b, c),
                       MixByte(a', b', c', d'), MixByte(b', c', d', a'), MixByte(c', d', a', b'), MixByte(d', a', b', c'));
  }

  lemma RemixAdditive(a: bv8, b: bv8, c: bv8, d: bv8, a': bv8, b': bv8, c': bv8, d': bv8)
    ensures Remix(Xor(a, a'), Xor(b, b'), Xor(c, c'), Xor(d, d')) == Xor(Remix(a, b, c, d), Remix(a', b', c', d'))
  {
    hide MixByte, InvMixByte, Xor;
    InvMixByteAdditive(a, b, c, d, a', b', c', d');
    InvMixByteAdditive(b, c, d, a, b', c', d', a');
    InvMixByteAdditive(c, d, a, b, c', d', a', b');
    InvMixByteAdditive(d, a, b, c, d', a', b', c');
    MixByteAdditive(InvMixByte(a, b, c, d), InvMixByte(b, c, d, a), InvMixByte(c, d, a, b), InvMixByte(d, a, b, c),
                    InvMixByte(a', b', c', d'), InvMixByte(b', c', d', a'), InvMixByte(c', d', a', b'), InvMixByte(d', a', b', c'));
  }

  lemma XTimeOfZero()
    ensures XTime(0) == 0
  {
  }

  lemma GfMulOfZero(k: bv8)
    ensures GfMul(0, k) == 0
  {
    hide XTime;
    XTimeOfZero();
  }

  /** A column with one nonzero byte, mixed. */
  lemma MixOfOne(x: bv8)
    ensures MixByte(x, 0, 0, 0) == XTime(x) && MixByte(0, x, 0, 0) == Xor(XTime(x), x)
    ensures MixByte(0, 0, x, 0) == x && MixByte(0, 0, 0, x) == x
  {
    hide Xor, Sum4, GfMul, XTime;
    ForwardProducts(x);
    GfMulOfZero(0x02);
    GfMulOfZero(0x03);
    OneTerm(XTime(x));
    OneTerm(Xor(XTime(x), x));
    OneTerm(x);
  }

  lemma OneTerm(p: bv8)
    ensures Sum4(p, 0, 0, 0) == p && Sum4(0, p, 0, 0) == p && Sum4(0, 0, p, 0) == p && Sum4(0, 0, 0, p) == p
  {
  }

  lemma InvMixOfOne(x: bv8)
    ensures InvMixByte(x, 0, 0, 0) == Xor(Xor(X3(x), X2(x)), XTime(x)) && InvMixByte(0, x, 0, 0) == Xor(Xor(X3(x), XTime(x)), x)
    ensures InvMixByte(0, 0, x, 0) == Xor(Xor(X3(x), X2(x)), x) && InvMixByte(0, 0, 0, x) == Xor(X3(x), x)
  {
    hide Xor, Sum4, GfMul, XTime, X2, X3;
    InverseProducts(x);
    OneTerm(GfMul(x, 0x0e));
    OneTerm(GfMul(x, 0x0b));
    OneTerm(GfMul(x, 0x0d));
    OneTerm(GfMul(x, 0x09));
    GfMulOfZero(0x0e);
    GfMulOfZero(0x0b);
    GfMulOfZero(0x0d);
    GfMulOfZero(0x09);
  }

  /** The multiples of x, 2x and 3x that occur, as sums of the doublings of x. */
  lemma Doublings(x: bv8)
    ensures X2(XTime(x)) == X3(x) && X3(XTime(x)) == X4(x) && XTime(XTime(x)) == X2(x)
  {
    hide XTime;
  }

  lemma Triples(x: bv8)
    ensures XTime(Xor(XTime(x), x)) == Xor(X2(x), XTime(x)) && X2(Xor(XTime(x), x)) == Xor(X3(x), X2(x))
    ensures X3(Xor(XTime(x), x)) == Xor(X4(x), X3(x))
  {
    hide Xor, XTime, X2, X3, X4;
    XTimeAdditive(XTime(x), x);
    X2Additive(XTime(x), x);
    X3Additive(XTime(x), x);
    Doublings(x);
  }

  lemma Chained(x: bv8)
    ensures XTime(XTime(x)) == X2(x) && XTime(X2(x)) == X3(x) && XTime(X3(x)) == X4(x)
  {
    hide XTime;
  }

  /** The doubles of the four products. */
  lemma DoubledE(x: bv8)
    ensures XTime(Xor(Xor(X3(x), X2(x)), XTime(x))) == Xor(Xor(X4(x), X3(x)), X2(x))
  {
    hide Xor, XTime, X2, X3, X4;
    Chained(x);
    XTimeAdditive(X3(x), X2(x));
    XTimeAdditive(Xor(X3(x), X2(x)), XTime(x));
  }

  lemma DoubledB(x: bv8)
    ensures XTime(Xor(Xor(X3(x), XTime(x)), x)) == Xor(Xor(X4(x), X2(x)), XTime(x))
  {
    hide Xor, XTime, X2, X3, X4;
    Chained(x);
    XTimeAdditive(X3(x), XTime(x));
    XTimeAdditive(Xor(X3(x), XTime(x)), x);
  }

  lemma DoubledD(x: bv8)
    ensures XTime(Xor(Xor(X3(x), X2(x)), x)) == Xor(Xor(X4(x), X3(x)), XTime(x))
  {
    hide Xor, XTime, X2, X3, X4;
    Chained(x);
    XTimeAdditive(X3(x), X2(x));
    XTimeAdditive(Xor(X3(x), X2(x)), x);
  }

  lemma Doubled9(x: bv8)
    ensures XTime(Xor(X3(x), x)) == Xor(X4(x), XTime(x))
  {
    hide Xor, XTime, X2, X3, X4;
    Chained(x);
    XTimeAdditive(X3(x), x);
  }

  /** GfMul by {02} and {03} of each of them. */
  lemma RemixProducts(x: bv8)
    ensures GfMul(InvMixByte(x, 0, 0, 0), 0x02) == Xor(Xor(X4(x), X3(x)), X2(x))
    ensures GfMul(InvMixByte(0, x, 0, 0), 0x02) == Xor(Xor(X4(x), X2(x)), XTime(x))
    ensures GfMul(InvMixByte(0, 0, x, 0), 0x02) == Xor(Xor(X4(x), X3(x)), XTime(x))
    ensures GfMul(InvMixByte(0, 0, 0, x), 0x02) == Xor(X4(x), XTime(x))
    ensures GfMul(InvMixByte(x, 0, 0, 0), 0x03) == Xor(Xor(Xor(X4(x), X3(x)), X2(x)), InvMixByte(x, 0, 0, 0))
    ensures GfMul(InvMixByte(0, x, 0, 0), 0x03) == Xor(Xor(Xor(X4(x), X2(x)), XTime(x)), InvMixByte(0, x, 0, 0))
    ensures GfMul(InvMixByte(0, 0, x, 0), 0x03) == Xor(Xor(Xor(X4(x), X3(x)), XTime(x)), InvMixByte(0, 0, x, 0))
    ensures GfMul(InvMixByte(0, 0, 0, x), 0x03) == Xor(Xor(X4(x), XTime(x)), InvMixByte(0, 0, 0, x))
  {
    hide Xor, InvMixByte, GfMul, XTime, X2, X3, X4;
    InvMixOfOne(x);
    DoubledE(x);
    DoubledB(x);
    DoubledD(x);
    Doubled9(x);
    ForwardProducts(InvMixByte(x, 0, 0, 0));
    ForwardProducts(InvMixByte(0, x, 0, 0));
    ForwardProducts(InvMixByte(0, 0, x, 0));
    ForwardProducts(InvMixByte(0, 0, 0, x));
  }

  // The sums that occur for 3x, shortened.

  lemma ShortenE(x: bv8, a: bv8, b: bv8, c: bv8, d: bv8)
    ensures Xor(Xor(Xor(d, c), Xor(c, b)), Xor(b, a)) == Xor(d, a)
  {
  }

  lemma MiddleCancels(p: bv8, q: bv8, r: bv8)
    ensures Xor(Xor(p, q), Xor(q, r)) == Xor(p, r)
  {
  }

  lemma ShortenB(x: bv8, a: bv8, b: bv8, c: bv8, d: bv8)
    ensures Xor(Xor(Xor(d, c), Xor(b, a)), Xor(a, x)) == Xor(Xor(d, c), Xor(b, x))
  {
    hide Xor;
    XorAssociates(Xor(d, c), Xor(b, a), Xor(a, x));
    MiddleCancels(b, a, x);
  }

  lemma ShortenD(x: bv8, a: bv8, b: bv8, c: bv8, d: bv8)
    ensures Xor(Xor(Xor(d, c), Xor(c, b)), Xor(a, x)) == Xor(Xor(d, b), Xor(a, x))
  {
  }

  lemma SumE(x: bv8, a: bv8, b: bv8, c: bv8, d: bv8)
    ensures Xor(Xor(Xor(d, c), b), Xor(Xor(c, b), a)) == Xor(d, a)
  {
  }

  lemma TripleProducts(x: bv8)
    ensures GfMul(Xor(XTime(x), x), 0x0e) == Xor(X4(x), XTime(x))
    ensures GfMul(Xor(XTime(x), x), 0x0b) == Xor(Xor(X4(x), X3(x)), Xor(X2(x), x))
    ensures GfMul(Xor(XTime(x), x), 0x0d) == Xor(Xor(X4(x), X2(x)), Xor(XTime(x), x))
    ensures GfMul(Xor(XTime(x), x), 0x09) == Xor(Xor(X4(x), X3(x)), Xor(XTime(x), x))
  {
    hide Xor, GfMul, XTime, X2, X3, X4;
    Triples(x);
    InverseProducts(Xor(XTime(x), x));
    ShortenE(x, XTime(x), X2(x), X3(x), X4(x));
    ShortenB(x, XTime(x), X2(x), X3(x), X4(x));
    ShortenD(x, XTime(x), X2(x), X3(x), X4(x));
  }

  lemma CancelFirst(x: bv8, a: bv8, b: bv8, c: bv8, d: bv8)
    ensures Sum4(Xor(Xor(d, c), b), Xor(Xor(c, a), x), Xor(Xor(c, b), x),
                 Xor(Xor(d, c), Xor(a, x))) == x
  {
  }

  lemma UnmixFirst(x: bv8)
    ensures Unmix(x, 0, 0, 0) == x
  {
    hide Xor, Sum4, MixByte, GfMul, XTime, X2, X3, X4;
    MixOfOne(x);
    InverseProducts(x);
    InverseProducts(XTime(x));
    TripleProducts(x);
    Doublings(x);
    CancelFirst(x, XTime(x), X2(x), X3(x), X4(x));
  }

  lemma CancelSecond(x: bv8, a: bv8, b: bv8, c: bv8, d: bv8)
    ensures Sum4(Xor(d, a), Xor(Xor(d, b), a), Xor(Xor(c, b), x),
                 Xor(c, x)) == 0
  {
  }

  lemma UnmixSecond(x: bv8)
    ensures Unmix(0, x, 0, 0) == 0
  {
    hide Xor, Sum4, MixByte, GfMul, XTime, X2, X3, X4;
    MixOfOne(x);
    InverseProducts(x);
    InverseProducts(XTime(x));
    TripleProducts(x);
    Doublings(x);
    CancelSecond(x, XTime(x), X2(x), X3(x), X4(x));
  }

  lemma CancelThird(x: bv8, a: bv8, b: bv8, c: bv8, d: bv8)
    ensures Sum4(Xor(Xor(c, b), a), Xor(Xor(d, c), Xor(b, x)), Xor(Xor(d, c), a),
                 Xor(c, x)) == 0
  {
  }

  lemma UnmixThird(x: bv8)
    ensures Unmix(0, 0, x, 0) == 0
  {
    hide Xor, Sum4, MixByte, GfMul, XTime, X2, X3, X4;
    MixOfOne(x);
    InverseProducts(x);
    InverseProducts(XTime(x));
    TripleProducts(x);
    Doublings(x);
    CancelThird(x, XTime(x), X2(x), X3(x), X4(x));
  }

  lemma CancelFourth(x: bv8, a: bv8, b: bv8, c: bv8, d: bv8)
    ensures Sum4(Xor(Xor(c, b), a), Xor(Xor(c, a), x), Xor(Xor(d, b), Xor(a, x)),
                 Xor(d, a)) == 0
  {
  }

  lemma UnmixFourth(x: bv8)
    ensures Unmix(0, 0, 0, x) == 0
  {
    hide Xor, Sum4, MixByte, GfMul, XTime, X2, X3, X4;
    MixOfOne(x);
    InverseProducts(x);
    InverseProducts(XTime(x));
    TripleProducts(x);
    Doublings(x);
    CancelFourth(x, XTime(x), X2(x), X3(x), X4(x));
  }

  lemma UpperPair(x: bv8, a: bv8, b: bv8, c: bv8, d: bv8)
    ensures Xor(Xor(Xor(d, c), b), Xor(Xor(d, a), Xor(c, x))) == Xor(Xor(b, a), x)
  {
  }

  lemma LowerPair(x: bv8, a: bv8, b: bv8, c: bv8)
    ensures Xor(Xor(Xor(c, b), x), Xor(Xor(c, a), x)) == Xor(b, a)
  {
  }

  lemma SameTwice(p: bv8, x: bv8)
    ensures Xor(Xor(p, x), p) == x
  {
  }

  lemma RestoreFirst(x: bv8, a: bv8, b: bv8, c: bv8, d: bv8)
    ensures Sum4(Xor(Xor(d, c), b), Xor(Xor(d, a), Xor(c, x)), Xor(Xor(c, b), x),
                 Xor(Xor(c, a), x)) == x
  {
    hide Xor;
    UpperPair(x, a, b, c, d);
    LowerPair(x, a, b, c);
    SameTwice(Xor(b, a), x);
  }

  lemma RemixFirst(x: bv8)
    ensures Remix(x, 0, 0, 0) == x
  {
    hide Xor, Sum4, InvMixByte, GfMul, XTime, X2, X3, X4;
    InvMixOfOne(x);
    RemixProducts(x);
    RestoreFirst(x, XTime(x), X2(x), X3(x), X4(x));
  }

  lemma RestoreSecond(x: bv8, a: bv8, b: bv8, c: bv8, d: bv8)
    ensures Sum4(Xor(Xor(d, b), a), Xor(d, a), Xor(c, x),
                 Xor(Xor(c, b), x)) == 0
  {
  }

  lemma RemixSecond(x: bv8)
    ensures Remix(0, x, 0, 0) == 0
  {
    hide Xor, Sum4, InvMixByte, GfMul, XTime, X2, X3, X4;
    InvMixOfOne(x);
    RemixProducts(x);
    SumE(x, XTime(x), X2(x), X3(x), X4(x));
    RestoreSecond(x, XTime(x), X2(x), X3(x), X4(x));
  }

  lemma RestoreThird(x: bv8, a: bv8, b: bv8, c: bv8, d: bv8)
    ensures Sum4(Xor(Xor(d, c), a), Xor(Xor(Xor(d, b), a), Xor(Xor(c, a), x)), Xor(Xor(c, b), a),
                 Xor(c, x)) == 0
  {
  }

  lemma RemixThird(x: bv8)
    ensures Remix(0, 0, x, 0) == 0
  {
    hide Xor, Sum4, InvMixByte, GfMul, XTime, X2, X3, X4;
    InvMixOfOne(x);
    RemixProducts(x);
    RestoreThird(x, XTime(x), X2(x), X3(x), X4(x));
  }

  lemma RestoreFourth(x: bv8, a: bv8, b: bv8, c: bv8, d: bv8)
    ensures Sum4(Xor(d, a), Xor(Xor(Xor(d, c), a), Xor(Xor(c, b), x)), Xor(Xor(c, a), x),
                 Xor(Xor(c, b), a)) == 0
  {
  }

  lemma RemixFourth(x: bv8)
    ensures Remix(0, 0, 0, x) == 0
  {
    hide Xor, Sum4, InvMixByte, GfMul, XTime, X2, X3, X4;
    InvMixOfOne(x);
    RemixProducts(x);
    RestoreFourth(x, XTime(x), X2(x), X3(x), X4(x));
  }

  /** The circulant matrices of equations 5.6 and 5.10 are inverse to each other. */
  lemma UnmixIdentity(a: bv8, b: bv8, c: bv8, d: bv8)
    ensures Unmix(a, b, c, d) == a
  {
    hide Unmix, Xor;
    XorZero(a);
    XorZero(b);
    XorZero(c);
    XorZero(d);
    XorZero(0);
    UnmixFirst(a);
    UnmixSecond(b);
    UnmixThird(c);
    UnmixFourth(d);
    UnmixAdditive(a, 0, 0, 0, 0, b, 0, 0);
    UnmixAdditive(a, b, 0, 0, 0, 0, c, 0);
    UnmixAdditive(a, b, c, 0, 0, 0, 0, d);
  }

  lemma RemixIdentity(a: bv8, b: bv8, c: bv8, d: bv8)
    ensures Remix(a, b, c, d) == a
  {
    hide Remix, Xor;
    XorZero(a);
    XorZero(b);
    XorZero(c);
    XorZero(d);
    XorZero(0);
    RemixFirst(a);
    RemixSecond(b);
    RemixThird(c);
    RemixFourth(d);
    RemixAdditive(a, 0, 0, 0, 0, b, 0, 0);
    RemixAdditive(a, b, 0, 0, 0, 0, c, 0);
    RemixAdditive(a, b, c, 0, 0, 0, 0, d);
  }

  /** All four rows of one column, by rotating the arguments. */
  lemma ColumnInverse(a: bv8, b: bv8, c: bv8, d: bv8)
    ensures Unmix(a, b, c, d) == a && Unmix(b, c, d, a) == b && Unmix(c, d, a, b) == c && Unmix(d, a, b, c) == d
    ensures Remix(a, b, c, d) == a && Remix(b, c, d, a) == b && Remix(c, d, a, b) == c && Remix(d, a, b, c) == d
  {
    hide *;
    UnmixIdentity(a, b, c, d);
    UnmixIdentity(b, c, d, a);
    UnmixIdentity(c, d, a, b);
    UnmixIdentity(d, a, b, c);
    RemixIdentity(a, b, c, d);
    RemixIdentity(b, c, d, a);
    RemixIdentity(c, d, a, b);
    RemixIdentity(d, a, b, c);
  }

  lemma MixColumnInverse(a: bv8, b: bv8, c: bv8, d: bv8)
    ensures var m := MixColumn(a, b, c, d); InvMixColumn(m[0], m[1], m[2], m[3]) == [a, b, c, d]
    ensures var m := InvMixColumn(a, b, c, d); MixColumn(m[0], m[1], m[2], m[3]) == [a, b, c, d]
  {
    hide MixByte, InvMixByte;
    ColumnInverse(a, b, c, d);
  }

  lemma FourColumns(s: Block)
    ensures s == [s[0], s[1], s[2], s[3]] + [s[4], s[5], s[6], s[7]] + [s[8], s[9], s[10], s[11]] + [s[12], s[13], s[14], s[15]]
  {
  }

  lemma InvMixOfMixColumns(s: Block)
    ensures InvMixColumns(MixColumns(s)) == s
  {
    hide MixColumn, InvMixColumn;
    MixColumnInverse(s[0], s[1], s[2], s[3]);
    MixColumnInverse(s[4], s[5], s[6], s[7]);
    MixColumnInverse(s[8], s[9], s[10], s[11]);
    MixColumnInverse(s[12], s[13], s[14], s[15]);
    FourColumns(s);
  }

  lemma MixOfInvMixColumns(s: Block)
    ensures MixColumns(InvMixColumns(s)) == s
  {
    hide MixColumn, InvMixColumn;
    MixColumnInverse(s[0], s[1], s[2], s[3]);
    MixColumnInverse(s[4], s[5], s[6], s[7]);
    MixColumnInverse(s[8], s[9], s[10], s[11]);
    MixColumnInverse(s[12], s[13], s[14], s[15]);
    FourColumns(s);
  }

  lemma MixColumnsInverse(s: Block)
    ensures InvMixColumns(MixColumns(s)) == s
    ensures MixColumns(InvMixColumns(s)) == s
  {
    hide MixColumns, InvMixColumns;
    InvMixOfMixColumns(s);
    MixOfInvMixColumns(s);
  }

  // ---- Each cipher undoes the other ----

  lemma {:induction false} InvRoundsUndoRounds(w: seq<bv8>, nr: nat, r: nat, input: Block)
    requires 1 <= r <= nr && |w| == 16 * (nr + 1)
    ensures InvRounds(w, nr, r, Cipher(w, nr, input)) == Rounds(w, r - 1, input)
    decreases nr - r
  {
    hide SubBytes, ShiftRows, MixColumns, InvSubBytes, InvShiftRows, InvMixColumns, AddRoundKey;
    var before := Rounds(w, r - 1, input);
    var shifted := ShiftRows(SubBytes(before));
    SubBytesInverse(before);
    ShiftRowsInverse(SubBytes(before));
    if r == nr {
      AddRoundKeyInverse(shifted, w, nr);
    } else {
      InvRoundsUndoRounds(w, nr, r + 1, input);
      AddRoundKeyInverse(MixColumns(shifted), w, r);
      MixColumnsInverse(shifted);
    }
  }

  lemma {:induction false} RoundsUndoInvRounds(w: seq<bv8>, nr: nat, r: nat, input: Block)
    requires r < nr && |w| == 16 * (nr + 1)
    ensures Rounds(w, r, InvCipher(w, nr, input)) == InvRounds(w, nr, r + 1, input)
  {
    hide SubBytes, ShiftRows, MixColumns, InvSubBytes, InvShiftRows, InvMixColumns, AddRoundKey;
    if r == 0 {
      AddRoundKeyInverse(InvRounds(w, nr, 1, input), w, 0);
    } else {
      RoundsUndoInvRounds(w, nr, r - 1, input);
      var keyed := AddRoundKey(InvRounds(w, nr, r + 1, input), w, r);
      AddRoundKeyInverse(InvRounds(w, nr, r + 1, input), w, r);
      MixColumnsInverse(keyed);
      ShiftRowsInverse(InvMixColumns(keyed));
      SubBytesInverse(InvShiftRows(InvMixColumns(keyed)));
    }
  }

  /** For every key schedule, decryption undoes encryption and encryption undoes decryption. */
  lemma CipherBijection(w: seq<bv8>, nr: nat, input: Block)
    requires 1 <= nr && |w| == 16 * (nr + 1)
    ensures InvCipher(w, nr, Cipher(w, nr, input)) == input
    ensures Cipher(w, nr, InvCipher(w, nr, input)) == input
  {
    hide SubBytes, ShiftRows, MixColumns, InvSubBytes, InvShiftRows, InvMixColumns, AddRoundKey;
    InvRoundsUndoRounds(w, nr, 1, input);
    AddRoundKeyInverse(input, w, 0);
    RoundsUndoInvRounds(w, nr, nr - 1, input);
    var last := AddRoundKey(input, w, nr);
    AddRoundKeyInverse(input, w, nr);
    ShiftRowsInverse(last);
    SubBytesInverse(InvShiftRows(last));
  }
}
