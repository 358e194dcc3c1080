/** GF(2^8) as libbackend/aes.c uses it: the multiplication macros, the S-boxes and the tables
    built from both, against the definitions of FIPS-197 sections 4.2 and 5.1. */
module Gf256 {

  // ---- The field: FIPS-197 section 4.2 ----

  /** Multiplication by {02} (section 4.2.1). Without a branch, so that the bit-vector solver sees a linear map. */
  function XTime(x: bv8): bv8 {
    (x << 1) ^ ((0 - (x >> 7)) & 0x1b)
  }

  /** a when bit k of b is set, else 0. */
  function Term(b: bv8, k: bv3, a: bv8): bv8 {
    if (b >> k) & 1 == 0 then 0 else a
  }

  /** Multiplication by {04}, {08} and {10}. */
  function X2(x: bv8): bv8 {
    XTime(XTime(x))
  }

  function X3(x: bv8): bv8 {
    XTime(X2(x))
  }

  function X4(x: bv8): bv8 {
    XTime(X3(x))
  }

  function Sum4(p: bv8, q: bv8, r: bv8, s: bv8): bv8 {
    Xor(Xor(p, q), Xor(r, s))
  }

  /** The product by the low four bits of k. */
  function LowProduct(x: bv8, k: bv8): bv8 {
    Sum4(Term(k, 0, x), Term(k, 1, XTime(x)), Term(k, 2, X2(x)), Term(k, 3, X3(x)))
  }

  /** The product of section 4.2: the sum of the multiples {02}^i * a over every bit i of b. */
  function GfMul(a: bv8, b: bv8): bv8 {
    Xor(LowProduct(a, b), LowProduct(X4(a), b >> 4))
  }

  lemma XTimeIsConditionalReduction(x: bv8)
    ensures XTime(x) == if x & 0x80 == 0 then x << 1 else (x << 1) ^ 0x1b
  {
  }

  // ---- Multiplication by a constant is additive ----

  // Addition in the field is XOR (section 4.1). It has a name so that a proof can hide it: with the definitions
  // hidden, the solver works on opaque bytes instead of the bits of every sum and doubling.

  function Xor(a: bv8, b: bv8): bv8 {
    a ^ b
  }

  lemma XorZero(x: bv8)
    ensures Xor(x, 0) == x && Xor(0, x) == x
  {
  }

  lemma XorCommutes(x: bv8, y: bv8)
    ensures Xor(x, y) == Xor(y, x)
  {
  }

  lemma XorAssociates(x: bv8, y: bv8, z: bv8)
    ensures Xor(Xor(x, y), z) == Xor(x, Xor(y, z))
  {
  }

  lemma XorRegroup(p: bv8, q: bv8, p': bv8, q': bv8)
    ensures Xor(Xor(p, p'), Xor(q, q')) == Xor(Xor(p, q), Xor(p', q'))
  {
    hide Xor;
    XorAssociates(p, p', Xor(q, q'));
    XorAssociates(p', q, q');
    XorCommutes(p', q);
    XorAssociates(q, p', q');
    XorAssociates(p, q, Xor(p', q'));
  }

  lemma XTimeAdditive(a: bv8, b: bv8)
    ensures XTime(Xor(a, b)) == Xor(XTime(a), XTime(b))
  {
  }

  lemma X2Additive(a: bv8, b: bv8)
    ensures X2(Xor(a, b)) == Xor(X2(a), X2(b))
  {
    hide XTime, Xor;
    XTimeAdditive(a, b);
    XTimeAdditive(XTime(a), XTime(b));
  }

  lemma X3Additive(a: bv8, b: bv8)
    ensures X3(Xor(a, b)) == Xor(X3(a), X3(b))
  {
    hide XTime, X2, Xor;
    X2Additive(a, b);
    XTimeAdditive(X2(a), X2(b));
  }

  lemma X4Additive(a: bv8, b: bv8)
    ensures X4(Xor(a, b)) == Xor(X4(a), X4(b))
  {
    hide XTime, X3, Xor;
    X3Additive(a, b);
    XTimeAdditive(X3(a), X3(b));
  }

  lemma Sum4Additive(p: bv8, q: bv8, r: bv8, s: bv8, p': bv8, q': bv8, r': bv8, s': bv8)
    ensures Sum4(Xor(p, p'), Xor(q, q'), Xor(r, r'), Xor(s, s')) == Xor(Sum4(p, q, r, s), Sum4(p', q', r', s'))
  {
    hide Xor;
    XorRegroup(p, q, p', q');
    XorRegroup(r, s, r', s');
    XorRegroup(Xor(p, q), Xor(r, s), Xor(p', q'), Xor(r', s'));
  }

  lemma TermAdditive(k: bv8, i: bv3, a: bv8, b: bv8)
    ensures Term(k, i, Xor(a, b)) == Xor(Term(k, i, a), Term(k, i, b))
  {
  }

  lemma LowProductAdditive(a: bv8, b: bv8, k: bv8)
    ensures LowProduct(Xor(a, b), k) == Xor(LowProduct(a, k), LowProduct(b, k))
  {
    hide XTime, X2, X3, Term, Sum4, Xor;
    XTimeAdditive(a, b);
    X2Additive(a, b);
    X3Additive(a, b);
    TermAdditive(k, 0, a, b);
    TermAdditive(k, 1, XTime(a), XTime(b));
    TermAdditive(k, 2, X2(a), X2(b));
    TermAdditive(k, 3, X3(a), X3(b));
    Sum4Additive(Term(k, 0, a), Term(k, 1, XTime(a)), Term(k, 2, X2(a)), Term(k, 3, X3(a)),
                 Term(k, 0, b), Term(k, 1, XTime(b)), Term(k, 2, X2(b)), Term(k, 3, X3(b)));
  }

  /** Multiplication distributes over addition. */
  lemma GfMulAdditive(a: bv8, b: bv8, k: bv8)
    ensures GfMul(Xor(a, b), k) == Xor(GfMul(a, k), GfMul(b, k))
  {
    hide LowProduct, X4, Xor;
    LowProductAdditive(a, b, k);
    X4Additive(a, b);
    LowProductAdditive(X4(a), X4(b), k >> 4);
    XorRegroup(LowProduct(a, k), LowProduct(X4(a), k >> 4), LowProduct(b, k), LowProduct(X4(b), k >> 4));
  }

  // ---- The macros f2 to fe of aes.c. They compute in int; storing into a byte table truncates. ----

  const WPOLY: bv16 := 0x011b

  function Byte(x: bv16): bv8 {
    (x & 0xff) as bv8
  }

  function F2(x: bv16): bv16 {
    (x << 1) ^ (((x >> 7) & 1) * WPOLY)
  }

  function F4(x: bv16): bv16 {
    (x << 2) ^ (((x >> 6) & 1) * WPOLY) ^ (((x >> 6) & 2) * WPOLY)
  }

  function F8(x: bv16): bv16 {
    (x << 3) ^ (((x >> 5) & 1) * WPOLY) ^ (((x >> 5) & 2) * WPOLY) ^ (((x >> 5) & 4) * WPOLY)
  }

  function Gfm2(x: bv8): bv8 { Byte(F2(x as bv16)) }
  function Gfm3(x: bv8): bv8 { Byte(F2(x as bv16) ^ x as bv16) }
  function Gfm9(x: bv8): bv8 { Byte(F8(x as bv16) ^ x as bv16) }
  function GfmB(x: bv8): bv8 { Byte(F8(x as bv16) ^ F2(x as bv16) ^ x as bv16) }
  function GfmD(x: bv8): bv8 { Byte(F8(x as bv16) ^ F4(x as bv16) ^ x as bv16) }
  function GfmE(x: bv8): bv8 { Byte(F8(x as bv16) ^ F4(x as bv16) ^ F2(x as bv16)) }

  lemma ForwardProducts(x: bv8)
    ensures GfMul(x, 0x02) == XTime(x)
    ensures GfMul(x, 0x03) == Xor(XTime(x), x)
  {
  }

  lemma LowProductIsProduct(x: bv8, k: bv8)
    requires k < 0x10
    ensures GfMul(x, k) == LowProduct(x, k)
  {
  }

  /** The sums below in another order, zeros dropped. */
  lemma SumOfTwo(p: bv8, q: bv8)
    ensures Xor(Xor(p, 0), Xor(0, q)) == Xor(q, p)
  {
  }

  lemma SumOfThree(p: bv8, q: bv8, r: bv8)
    ensures Xor(Xor(p, q), Xor(0, r)) == Xor(Xor(r, q), p)
    ensures Xor(Xor(p, 0), Xor(q, r)) == Xor(Xor(r, q), p)
    ensures Xor(Xor(0, p), Xor(q, r)) == Xor(Xor(r, q), p)
  {
  }

  lemma Terms9(p0: bv8, p1: bv8, p2: bv8, p3: bv8)
    ensures Term(0x09, 0, p0) == p0 && Term(0x09, 1, p1) == 0 && Term(0x09, 2, p2) == 0 && Term(0x09, 3, p3) == p3
  {
  }

  lemma Product9(x: bv8)
    ensures GfMul(x, 0x09) == Xor(X3(x), x)
  {
    hide Xor, XTime, X2, X3, X4, GfMul, Term;
    LowProductIsProduct(x, 0x09);
    Terms9(x, XTime(x), X2(x), X3(x));
    SumOfTwo(x, X3(x));
  }

  lemma TermsB(p0: bv8, p1: bv8, p2: bv8, p3: bv8)
    ensures Term(0x0b, 0, p0) == p0 && Term(0x0b, 1, p1) == p1 && Term(0x0b, 2, p2) == 0 && Term(0x0b, 3, p3) == p3
  {
  }

  lemma ProductB(x: bv8)
    ensures GfMul(x, 0x0b) == Xor(Xor(X3(x), XTime(x)), x)
  {
    hide Xor, XTime, X2, X3, X4, GfMul, Term;
    LowProductIsProduct(x, 0x0b);
    TermsB(x, XTime(x), X2(x), X3(x));
    SumOfThree(x, XTime(x), X3(x));
  }

  lemma TermsD(p0: bv8, p1: bv8, p2: bv8, p3: bv8)
    ensures Term(0x0d, 0, p0) == p0 && Term(0x0d, 1, p1) == 0 && Term(0x0d, 2, p2) == p2 && Term(0x0d, 3, p3) == p3
  {
  }

  lemma ProductD(x: bv8)
    ensures GfMul(x, 0x0d) == Xor(Xor(X3(x), X2(x)), x)
  {
    hide Xor, XTime, X2, X3, X4, GfMul, Term;
    LowProductIsProduct(x, 0x0d);
    TermsD(x, XTime(x), X2(x), X3(x));
    SumOfThree(x, X2(x), X3(x));
  }

  lemma TermsE(p0: bv8, p1: bv8, p2: bv8, p3: bv8)
    ensures Term(0x0e, 0, p0) == 0 && Term(0x0e, 1, p1) == p1 && Term(0x0e, 2, p2) == p2 && Term(0x0e, 3, p3) == p3
  {
  }

  lemma ProductE(x: bv8)
    ensures GfMul(x, 0x0e) == Xor(Xor(X3(x), X2(x)), XTime(x))
  {
    hide Xor, XTime, X2, X3, X4, GfMul, Term;
    LowProductIsProduct(x, 0x0e);
    TermsE(x, XTime(x), X2(x), X3(x));
    SumOfThree(XTime(x), X2(x), X3(x));
  }

  lemma InverseProducts(x: bv8)
    ensures GfMul(x, 0x09) == Xor(X3(x), x)
    ensures GfMul(x, 0x0b) == Xor(Xor(X3(x), XTime(x)), x)
    ensures GfMul(x, 0x0d) == Xor(Xor(X3(x), X2(x)), x)
    ensures GfMul(x, 0x0e) == Xor(Xor(X3(x), X2(x)), XTime(x))
  {
    hide *;
    Product9(x);
    ProductB(x);
    ProductD(x);
    ProductE(x);
  }

  lemma ByteOfXor(a: bv16, b: bv16)
    ensures Byte(a ^ b) == Byte(a) ^ Byte(b)
  {
  }

  lemma MacrosDouble(x: bv8)
    ensures Byte(x as bv16) == x
    ensures Byte(F2(x as bv16)) == XTime(x)
    ensures Byte(F4(x as bv16)) == X2(x)
    ensures Byte(F8(x as bv16)) == X3(x)
  {
  }

  /** Every multiplication table of aes.c holds the field products. */
  lemma TablesAreProducts(x: bv8)
    ensures Gfm2(x) == GfMul(x, 0x02) && Gfm3(x) == GfMul(x, 0x03)
    ensures Gfm9(x) == GfMul(x, 0x09) && GfmB(x) == GfMul(x, 0x0b)
    ensures GfmD(x) == GfMul(x, 0x0d) && GfmE(x) == GfMul(x, 0x0e)
  {
    var w := x as bv16;
    MacrosDouble(x);
    ForwardProducts(x);
    InverseProducts(x);
    ByteOfXor(F2(w), w);
    ByteOfXor(F8(w), w);
    ByteOfXor(F8(w), F2(w));
    ByteOfXor(F8(w) ^ F2(w), w);
    ByteOfXor(F8(w), F4(w));
    ByteOfXor(F8(w) ^ F4(w), w);
    ByteOfXor(F8(w) ^ F4(w), F2(w));
  }

  // ---- The S-box tables: FIPS-197 section 5.1.1 ----

  /** One entry of a sixteen-entry row. */
  function Pick(n: bv4, c0: bv8, c1: bv8, c2: bv8, c3: bv8, c4: bv8, c5: bv8, c6: bv8, c7: bv8,
                c8: bv8, c9: bv8, ca: bv8, cb: bv8, cc: bv8, cd: bv8, ce: bv8, cf: bv8): bv8 {
    if n < 8 then
      if n < 4 then if n < 2 then if n < 1 then c0 else c1 else if n < 3 then c2 else c3
      else if n < 6 then if n < 5 then c4 else c5 else if n < 7 then c6 else c7
    else
      if n < 12 then if n < 10 then if n < 9 then c8 else c9 else if n < 11 then ca else cb
      else if n < 14 then if n < 13 then cc else cd else if n < 15 then ce else cf
  }

  function SBox(x: bv8): bv8 {
    var lo, hi := (x & 0x0f) as bv4, (x >> 4) as bv4;
    Pick(hi,
      Pick(lo, 0x63, 0x7c, 0x77, 0x7b, 0xf2, 0x6b, 0x6f, 0xc5,
               0x30, 0x01, 0x67, 0x2b, 0xfe, 0xd7, 0xab, 0x76),
      Pick(lo, 0xca, 0x82, 0xc9, 0x7d, 0xfa, 0x59, 0x47, 0xf0,
               0xad, 0xd4, 0xa2, 0xaf, 0x9c, 0xa4, 0x72, 0xc0),
      Pick(lo, 0xb7, 0xfd, 0x93, 0x26, 0x36, 0x3f, 0xf7, 0xcc,
               0x34, 0xa5, 0xe5, 0xf1, 0x71, 0xd8, 0x31, 0x15),
      Pick(lo, 0x04, 0xc7, 0x23, 0xc3, 0x18, 0x96, 0x05, 0x9a,
               0x07, 0x12, 0x80, 0xe2, 0xeb, 0x27, 0xb2, 0x75),
      Pick(lo, 0x09, 0x83, 0x2c, 0x1a, 0x1b, 0x6e, 0x5a, 0xa0,
               0x52, 0x3b, 0xd6, 0xb3, 0x29, 0xe3, 0x2f, 0x84),
      Pick(lo, 0x53, 0xd1, 0x00, 0xed, 0x20, 0xfc, 0xb1, 0x5b,
               0x6a, 0xcb, 0xbe, 0x39, 0x4a, 0x4c, 0x58, 0xcf),
      Pick(lo, 0xd0, 0xef, 0xaa, 0xfb, 0x43, 0x4d, 0x33, 0x85,
               0x45, 0xf9, 0x02, 0x7f, 0x50, 0x3c, 0x9f, 0xa8),
      Pick(lo, 0x51, 0xa3, 0x40, 0x8f, 0x92, 0x9d, 0x38, 0xf5,
               0xbc, 0xb6, 0xda, 0x21, 0x10, 0xff, 0xf3, 0xd2),
      Pick(lo, 0xcd, 0x0c, 0x13, 0xec, 0x5f, 0x97, 0x44, 0x17,
               0xc4, 0xa7, 0x7e, 0x3d, 0x64, 0x5d, 0x19, 0x73),
      Pick(lo, 0x60, 0x81, 0x4f, 0xdc, 0x22, 0x2a, 0x90, 0x88,
               0x46, 0xee, 0xb8, 0x14, 0xde, 0x5e, 0x0b, 0xdb),
      Pick(lo, 0xe0, 0x32, 0x3a, 0x0a, 0x49, 0x06, 0x24, 0x5c,
               0xc2, 0xd3, 0xac, 0x62, 0x91, 0x95, 0xe4, 0x79),
      Pick(lo, 0xe7, 0xc8, 0x37, 0x6d, 0x8d, 0xd5, 0x4e, 0xa9,
               0x6c, 0x56, 0xf4, 0xea, 0x65, 0x7a, 0xae, 0x08),
      Pick(lo, 0xba, 0x78, 0x25, 0x2e, 0x1c, 0xa6, 0xb4, 0xc6,
               0xe8, 0xdd, 0x74, 0x1f, 0x4b, 0xbd, 0x8b, 0x8a),
      Pick(lo, 0x70, 0x3e, 0xb5, 0x66, 0x48, 0x03, 0xf6, 0x0e,
               0x61, 0x35, 0x57, 0xb9, 0x86, 0xc1, 0x1d, 0x9e),
      Pick(lo, 0xe1, 0xf8, 0x98, 0x11, 0x69, 0xd9, 0x8e, 0x94,
               0x9b, 0x1e, 0x87, 0xe9, 0xce, 0x55, 0x28, 0xdf),
      Pick(lo, 0x8c, 0xa1, 0x89, 0x0d, 0xbf, 0xe6, 0x42, 0x68,
               0x41, 0x99, 0x2d, 0x0f, 0xb0, 0x54, 0xbb, 0x16))
  }

  function InvSBox(x: bv8): bv8 {
    var lo, hi := (x & 0x0f) as bv4, (x >> 4) as bv4;
    Pick(hi,
      Pick(lo, 0x52, 0x09, 0x6a, 0xd5, 0x30, 0x36, 0xa5, 0x38,
               0xbf, 0x40, 0xa3, 0x9e, 0x81, 0xf3, 0xd7, 0xfb),
      Pick(lo, 0x7c, 0xe3, 0x39, 0x82, 0x9b, 0x2f, 0xff, 0x87,
               0x34, 0x8e, 0x43, 0x44, 0xc4, 0xde, 0xe9, 0xcb),
      Pick(lo, 0x54, 0x7b, 0x94, 0x32, 0xa6, 0xc2, 0x23, 0x3d,
               0xee, 0x4c, 0x95, 0x0b, 0x42, 0xfa, 0xc3, 0x4e),
      Pick(lo, 0x08, 0x2e, 0xa1, 0x66, 0x28, 0xd9, 0x24, 0xb2,
               0x76, 0x5b, 0xa2, 0x49, 0x6d, 0x8b, 0xd1, 0x25),
      Pick(lo, 0x72, 0xf8, 0xf6, 0x64, 0x86, 0x68, 0x98, 0x16,
               0xd4, 0xa4, 0x5c, 0xcc, 0x5d, 0x65, 0xb6, 0x92),
      Pick(lo, 0x6c, 0x70, 0x48, 0x50, 0xfd, 0xed, 0xb9, 0xda,
               0x5e, 0x15, 0x46, 0x57, 0xa7, 0x8d, 0x9d, 0x84),
      Pick(lo, 0x90, 0xd8, 0xab, 0x00, 0x8c, 0xbc, 0xd3, 0x0a,
               0xf7, 0xe4, 0x58, 0x05, 0xb8, 0xb3, 0x45, 0x06),
      Pick(lo, 0xd0, 0x2c, 0x1e, 0x8f, 0xca, 0x3f, 0x0f, 0x02,
               0xc1, 0xaf, 0xbd, 0x03, 0x01, 0x13, 0x8a, 0x6b),
      Pick(lo, 0x3a, 0x91, 0x11, 0x41, 0x4f, 0x67, 0xdc, 0xea,
               0x97, 0xf2, 0xcf, 0xce, 0xf0, 0xb4, 0xe6, 0x73),
      Pick(lo, 0x96, 0xac, 0x74, 0x22, 0xe7, 0xad, 0x35, 0x85,
               0xe2, 0xf9, 0x37, 0xe8, 0x1c, 0x75, 0xdf, 0x6e),
      Pick(lo, 0x47, 0xf1, 0x1a, 0x71, 0x1d, 0x29, 0xc5, 0x89,
               0x6f, 0xb7, 0x62, 0x0e, 0xaa, 0x18, 0xbe, 0x1b),
      Pick(lo, 0xfc, 0x56, 0x3e, 0x4b, 0xc6, 0xd2, 0x79, 0x20,
               0x9a, 0xdb, 0xc0, 0xfe, 0x78, 0xcd, 0x5a, 0xf4),
      Pick(lo, 0x1f, 0xdd, 0xa8, 0x33, 0x88, 0x07, 0xc7, 0x31,
               0xb1, 0x12, 0x10, 0x59, 0x27, 0x80, 0xec, 0x5f),
      Pick(lo, 0x60, 0x51, 0x7f, 0xa9, 0x19, 0xb5, 0x4a, 0x0d,
               0x2d, 0xe5, 0x7a, 0x9f, 0x93, 0xc9, 0x9c, 0xef),
      Pick(lo, 0xa0, 0xe0, 0x3b, 0x4d, 0xae, 0x2a, 0xf5, 0xb0,
               0xc8, 0xeb, 0xbb, 0x3c, 0x83, 0x53, 0x99, 0x61),
      Pick(lo, 0x17, 0x2b, 0x04, 0x7e, 0xba, 0x77, 0xd6, 0x26,
               0xe1, 0x69, 0x14, 0x63, 0x55, 0x21, 0x0c, 0x7d))
  }

  lemma InvSBoxOfSBox(x: bv8)
    ensures InvSBox(SBox(x)) == x
  {
  }

  lemma SBoxOfInvSBox(x: bv8)
    ensures SBox(InvSBox(x)) == x
  {
  }

  /** The inverse of the affine map of section 5.1.1. */
  function InvAffine(y: bv8): bv8 {
    var w := y ^ 0x63;
    w.RotateLeft(1) ^ w.RotateLeft(3) ^ w.RotateLeft(6)
  }

  /** The affine map of section 5.1.1, equation 5.1. */
  function Affine(x: bv8): bv8 {
    x ^ x.RotateLeft(1) ^ x.RotateLeft(2) ^ x.RotateLeft(3) ^ x.RotateLeft(4) ^ 0x63
  }

  lemma AffineOfInvAffine(y: bv8)
    ensures Affine(InvAffine(y)) == y
  {
  }
  
  lemma SBoxAffine0(x: bv8)
    requires 0x00 <= x <= 0x1f && x != 0
    ensures GfMul(InvAffine(SBox(x)), x) == 1
  {
    if x < 0x04 { } else if x < 0x08 { } else if x < 0x0c { } else if x < 0x10 { } else if x < 0x14 { } else if x < 0x18 { } else if x < 0x1c { } else { }
  }

  lemma SBoxAffine1(x: bv8)
    requires 0x20 <= x <= 0x3f && x != 0
    ensures GfMul(InvAffine(SBox(x)), x) == 1
  {
    if x < 0x24 { } else if x < 0x28 { } else if x < 0x2c { } else if x < 0x30 { } else if x < 0x34 { } else if x < 0x38 { } else if x < 0x3c { } else { }
  }

  lemma SBoxAffine2(x: bv8)
    requires 0x40 <= x <= 0x5f && x != 0
    ensures GfMul(InvAffine(SBox(x)), x) == 1
  {
    if x < 0x44 { } else if x < 0x48 { } else if x < 0x4c { } else if x < 0x50 { } else if x < 0x54 { } else if x < 0x58 { } else if x < 0x5c { } else { }
  }

  lemma SBoxAffine3(x: bv8)
    requires 0x60 <= x <= 0x7f && x != 0
    ensures GfMul(InvAffine(SBox(x)), x) == 1
  {
    if x < 0x64 { } else if x < 0x68 { } else if x < 0x6c { } else if x < 0x70 { } else if x < 0x74 { } else if x < 0x78 { } else if x < 0x7c { } else { }
  }

  lemma SBoxAffine4(x: bv8)
    requires 0x80 <= x <= 0x9f && x != 0
    ensures GfMul(InvAffine(SBox(x)), x) == 1
  {
    if x < 0x84 { } else if x < 0x88 { } else if x < 0x8c { } else if x < 0x90 { } else if x < 0x94 { } else if x < 0x98 { } else if x < 0x9c { } else { }
  }

  lemma SBoxAffine5(x: bv8)
    requires 0xa0 <= x <= 0xbf && x != 0
    ensures GfMul(InvAffine(SBox(x)), x) == 1
  {
    if x < 0xa4 { } else if x < 0xa8 { } else if x < 0xac { } else if x < 0xb0 { } else if x < 0xb4 { } else if x < 0xb8 { } else if x < 0xbc { } else { }
  }

  lemma SBoxAffine6(x: bv8)
    requires 0xc0 <= x <= 0xdf && x != 0
    ensures GfMul(InvAffine(SBox(x)), x) == 1
  {
    if x < 0xc4 { } else if x < 0xc8 { } else if x < 0xcc { } else if x < 0xd0 { } else if x < 0xd4 { } else if x < 0xd8 { } else if x < 0xdc { } else { }
  }

  lemma SBoxAffine7(x: bv8)
    requires 0xe0 <= x <= 0xff && x != 0
    ensures GfMul(InvAffine(SBox(x)), x) == 1
  {
    if x < 0xe4 { } else if x < 0xe8 { } else if x < 0xec { } else if x < 0xf0 { } else if x < 0xf4 { } else if x < 0xf8 { } else if x < 0xfc { } else { }
  }

  /** The table is section 5.1.1's definition: the affine map of the multiplicative inverse, 0 standing for its own. */
  lemma SBoxDefinition(x: bv8)
    ensures SBox(x) == Affine(InvAffine(SBox(x)))
    ensures if x == 0 then InvAffine(SBox(x)) == 0 else GfMul(InvAffine(SBox(x)), x) == 1
  {
    AffineOfInvAffine(SBox(x));
    if x == 0 {
    } else if x < 0x20 { SBoxAffine0(x); } else if x < 0x40 { SBoxAffine1(x); }
    else if x < 0x60 { SBoxAffine2(x); } else if x < 0x80 { SBoxAffine3(x); }
    else if x < 0xa0 { SBoxAffine4(x); } else if x < 0xc0 { SBoxAffine5(x); }
    else if x < 0xe0 { SBoxAffine6(x); } else { SBoxAffine7(x); }
  }
}
