/** libbackend/aes.c: the pre-keyed AES of the servers. S-box, row shift and column mix are fused into
    table look-ups on sixteen-byte buffers that are overwritten in place. */
module Aes {
  import opened Basics
  import opened Gf256
  import opened Fips197

  const N_BLOCK := 16
  const KSCH_BYTES := 240

  // ---- Round-key addition ----

  method AddRoundKeyInPlace(d: array<bv8>, ksch: array<bv8>, r: nat)
    requires d.Length == N_BLOCK && 16 * (r + 1) <= ksch.Length && d != ksch
    modifies d
    ensures d[..] == AddRoundKey(old(d[..]), ksch[..], r)
  {
    hide Xor;
    forall i | 0 <= i < N_BLOCK {
      d[i] := Xor(d[i], ksch[16 * r + i]);
    }
  }

  method CopyAndKey(d: array<bv8>, dOfs: nat, s: array<bv8>, sOfs: nat, ksch: array<bv8>, r: nat)
    requires dOfs + N_BLOCK <= d.Length && sOfs + N_BLOCK <= s.Length && 16 * (r + 1) <= ksch.Length
    requires d != s && d != ksch
    modifies d
    ensures d[dOfs..dOfs + N_BLOCK] == AddRoundKey(s[sOfs..sOfs + N_BLOCK], ksch[..], r)
    ensures d[..dOfs] == old(d[..dOfs]) && d[dOfs + N_BLOCK..] == old(d[dOfs + N_BLOCK..])
  {
    hide Xor;
    forall i | 0 <= i < N_BLOCK {
      d[dOfs + i] := Xor(s[sOfs + i], ksch[16 * r + i]);
    }
  }

  // ---- The last round: rows shifted through the S-box ----

  // The byte-level routines state each byte they write; the wrappers below them restate the sixteen
  // bytes as the transformations of the standard.

  // One row of the state each: substituted, and rotated among its four places.

  method ShiftSubRow0(st: array<bv8>)
    requires st.Length == N_BLOCK
    modifies st
    ensures st[0] == SBox(old(st[0])) && st[4] == SBox(old(st[4])) && st[8] == SBox(old(st[8])) && st[12] == SBox(old(st[12]))
    ensures forall j :: 0 <= j < N_BLOCK && j % 4 != 0 ==> st[j] == old(st[j])
  {
    hide SBox;
    st[0] := SBox(st[0]);
    st[4] := SBox(st[4]);
    st[8] := SBox(st[8]);
    st[12] := SBox(st[12]);
  }

  method ShiftSubRow1(st: array<bv8>)
    requires st.Length == N_BLOCK
    modifies st
    ensures st[1] == SBox(old(st[5])) && st[5] == SBox(old(st[9])) && st[9] == SBox(old(st[13])) && st[13] == SBox(old(st[1]))
    ensures forall j :: 0 <= j < N_BLOCK && j % 4 != 1 ==> st[j] == old(st[j])
  {
    hide SBox;
    var tt := st[1];
    st[1] := SBox(st[5]);
    st[5] := SBox(st[9]);
    st[9] := SBox(st[13]);
    st[13] := SBox(tt);
  }

  method ShiftSubRow2(st: array<bv8>)
    requires st.Length == N_BLOCK
    modifies st
    ensures st[2] == SBox(old(st[10])) && st[6] == SBox(old(st[14])) && st[10] == SBox(old(st[2])) && st[14] == SBox(old(st[6]))
    ensures forall j :: 0 <= j < N_BLOCK && j % 4 != 2 ==> st[j] == old(st[j])
  {
    hide SBox;
    var tt := st[2];
    st[2] := SBox(st[10]);
    st[10] := SBox(tt);
    tt := st[6];
    st[6] := SBox(st[14]);
    st[14] := SBox(tt);
  }

  method ShiftSubRow3(st: array<bv8>)
    requires st.Length == N_BLOCK
    modifies st
    ensures st[3] == SBox(old(st[15])) && st[7] == SBox(old(st[3])) && st[11] == SBox(old(st[7])) && st[15] == SBox(old(st[11]))
    ensures forall j :: 0 <= j < N_BLOCK && j % 4 != 3 ==> st[j] == old(st[j])
  {
    hide SBox;
    var tt := st[15];
    st[15] := SBox(st[11]);
    st[11] := SBox(st[7]);
    st[7] := SBox(st[3]);
    st[3] := SBox(tt);
  }

  method ShiftSubBytes(st: array<bv8>)
    requires st.Length == N_BLOCK
    modifies st
    ensures st[0] == SBox(old(st[0])) && st[1] == SBox(old(st[5])) && st[2] == SBox(old(st[10])) && st[3] == SBox(old(st[15]))
    ensures st[4] == SBox(old(st[4])) && st[5] == SBox(old(st[9])) && st[6] == SBox(old(st[14])) && st[7] == SBox(old(st[3]))
    ensures st[8] == SBox(old(st[8])) && st[9] == SBox(old(st[13])) && st[10] == SBox(old(st[2])) && st[11] == SBox(old(st[7]))
    ensures st[12] == SBox(old(st[12])) && st[13] == SBox(old(st[1])) && st[14] == SBox(old(st[6])) && st[15] == SBox(old(st[11]))
  {
    hide SBox;
    ShiftSubRow0(st);
    ShiftSubRow1(st);
    ShiftSubRow2(st);
    ShiftSubRow3(st);
  }

  lemma ShiftSubIsFips(s: Block, t: Block)
    requires t == [SBox(s[0]), SBox(s[5]), SBox(s[10]), SBox(s[15]),
                    SBox(s[4]), SBox(s[9]), SBox(s[14]), SBox(s[3]),
                    SBox(s[8]), SBox(s[13]), SBox(s[2]), SBox(s[7]),
                    SBox(s[12]), SBox(s[1]), SBox(s[6]), SBox(s[11])]
    ensures t == ShiftRows(SubBytes(s))
  {
    hide SBox;
  }

  method ShiftSubRows(st: array<bv8>)
    requires st.Length == N_BLOCK
    modifies st
    ensures st[..] == ShiftRows(SubBytes(old(st[..])))
  {
    hide SBox, ShiftRows, SubBytes;
    ghost var was := st[..];
    ShiftSubBytes(st);
    ShiftSubIsFips(was, st[..]);
  }

  method InvShiftSubRow0(st: array<bv8>)
    requires st.Length == N_BLOCK
    modifies st
    ensures st[0] == InvSBox(old(st[0])) && st[4] == InvSBox(old(st[4])) && st[8] == InvSBox(old(st[8])) && st[12] == InvSBox(old(st[12]))
    ensures forall j :: 0 <= j < N_BLOCK && j % 4 != 0 ==> st[j] == old(st[j])
  {
    hide InvSBox;
    st[0] := InvSBox(st[0]);
    st[4] := InvSBox(st[4]);
    st[8] := InvSBox(st[8]);
    st[12] := InvSBox(st[12]);
  }

  method InvShiftSubRow1(st: array<bv8>)
    requires st.Length == N_BLOCK
    modifies st
    ensures st[1] == InvSBox(old(st[13])) && st[5] == InvSBox(old(st[1])) && st[9] == InvSBox(old(st[5])) && st[13] == InvSBox(old(st[9]))
    ensures forall j :: 0 <= j < N_BLOCK && j % 4 != 1 ==> st[j] == old(st[j])
  {
    hide InvSBox;
    var tt := st[13];
    st[13] := InvSBox(st[9]);
    st[9] := InvSBox(st[5]);
    st[5] := InvSBox(st[1]);
    st[1] := InvSBox(tt);
  }

  method InvShiftSubRow2(st: array<bv8>)
    requires st.Length == N_BLOCK
    modifies st
    ensures st[2] == InvSBox(old(st[10])) && st[6] == InvSBox(old(st[14])) && st[10] == InvSBox(old(st[2])) && st[14] == InvSBox(old(st[6]))
    ensures forall j :: 0 <= j < N_BLOCK && j % 4 != 2 ==> st[j] == old(st[j])
  {
    hide InvSBox;
    var tt := st[2];
    st[2] := InvSBox(st[10]);
    st[10] := InvSBox(tt);
    tt := st[6];
    st[6] := InvSBox(st[14]);
    st[14] := InvSBox(tt);
  }

  method InvShiftSubRow3(st: array<bv8>)
    requires st.Length == N_BLOCK
    modifies st
    ensures st[3] == InvSBox(old(st[7])) && st[7] == InvSBox(old(st[11])) && st[11] == InvSBox(old(st[15])) && st[15] == InvSBox(old(st[3]))
    ensures forall j :: 0 <= j < N_BLOCK && j % 4 != 3 ==> st[j] == old(st[j])
  {
    hide InvSBox;
    var tt := st[3];
    st[3] := InvSBox(st[7]);
    st[7] := InvSBox(st[11]);
    st[11] := InvSBox(st[15]);
    st[15] := InvSBox(tt);
  }

  method InvShiftSubBytes(st: array<bv8>)
    requires st.Length == N_BLOCK
    modifies st
    ensures st[0] == InvSBox(old(st[0])) && st[1] == InvSBox(old(st[13])) && st[2] == InvSBox(old(st[10])) && st[3] == InvSBox(old(st[7]))
    ensures st[4] == InvSBox(old(st[4])) && st[5] == InvSBox(old(st[1])) && st[6] == InvSBox(old(st[14])) && st[7] == InvSBox(old(st[11]))
    ensures st[8] == InvSBox(old(st[8])) && st[9] == InvSBox(old(st[5])) && st[10] == InvSBox(old(st[2])) && st[11] == InvSBox(old(st[15]))
    ensures st[12] == InvSBox(old(st[12])) && st[13] == InvSBox(old(st[9])) && st[14] == InvSBox(old(st[6])) && st[15] == InvSBox(old(st[3]))
  {
    hide InvSBox;
    InvShiftSubRow0(st);
    InvShiftSubRow1(st);
    InvShiftSubRow2(st);
    InvShiftSubRow3(st);
  }

  lemma InvShiftSubIsFips(s: Block, t: Block)
    requires t == [InvSBox(s[0]), InvSBox(s[13]), InvSBox(s[10]), InvSBox(s[7]),
                    InvSBox(s[4]), InvSBox(s[1]), InvSBox(s[14]), InvSBox(s[11]),
                    InvSBox(s[8]), InvSBox(s[5]), InvSBox(s[2]), InvSBox(s[15]),
                    InvSBox(s[12]), InvSBox(s[9]), InvSBox(s[6]), InvSBox(s[3])]
    ensures t == InvSubBytes(InvShiftRows(s))
  {
    hide InvSBox;
  }

  method InvShiftSubRows(st: array<bv8>)
    requires st.Length == N_BLOCK
    modifies st
    ensures st[..] == InvSubBytes(InvShiftRows(old(st[..])))
  {
    hide InvSBox, InvShiftRows, InvSubBytes;
    ghost var was := st[..];
    InvShiftSubBytes(st);
    InvShiftSubIsFips(was, st[..]);
  }

  // ---- The middle rounds: S-box, row shift and column mix in one look-up per byte ----

  /** gfm2_sbox and gfm3_sbox: the S-box table with every entry multiplied. */
  function Gfm2Sb(x: bv8): bv8 {
    Gfm2(SBox(x))
  }

  function Gfm3Sb(x: bv8): bv8 {
    Gfm3(SBox(x))
  }

  function SubMix0(a: bv8, b: bv8, c: bv8, d: bv8): bv8 {
    Sum4(Gfm2Sb(a), Gfm3Sb(b), SBox(c), SBox(d))
  }

  function SubMix1(a: bv8, b: bv8, c: bv8, d: bv8): bv8 {
    Sum4(SBox(a), Gfm2Sb(b), Gfm3Sb(c), SBox(d))
  }

  function SubMix2(a: bv8, b: bv8, c: bv8, d: bv8): bv8 {
    Sum4(SBox(a), SBox(b), Gfm2Sb(c), Gfm3Sb(d))
  }

  function SubMix3(a: bv8, b: bv8, c: bv8, d: bv8): bv8 {
    Sum4(Gfm3Sb(a), SBox(b), SBox(c), Gfm2Sb(d))
  }

  function UnSubMix0(a: bv8, b: bv8, c: bv8, d: bv8): bv8 {
    InvSBox(Sum4(GfmE(a), GfmB(b), GfmD(c), Gfm9(d)))
  }

  function UnSubMix1(a: bv8, b: bv8, c: bv8, d: bv8): bv8 {
    InvSBox(Sum4(Gfm9(a), GfmE(b), GfmB(c), GfmD(d)))
  }

  function UnSubMix2(a: bv8, b: bv8, c: bv8, d: bv8): bv8 {
    InvSBox(Sum4(GfmD(a), Gfm9(b), GfmE(c), GfmB(d)))
  }

  function UnSubMix3(a: bv8, b: bv8, c: bv8, d: bv8): bv8 {
    InvSBox(Sum4(GfmB(a), GfmD(b), Gfm9(c), GfmE(d)))
  }

  lemma Sum4Rotates(p: bv8, q: bv8, r: bv8, s: bv8)
    ensures Sum4(p, q, r, s) == Sum4(q, r, s, p)
  {
    hide Xor;
    XorAssociates(p, q, Xor(r, s));
    XorCommutes(p, Xor(q, Xor(r, s)));
    XorAssociates(q, r, s);
    XorAssociates(Xor(q, r), s, p);
  }

  lemma SubMixIsMixOfSub(a: bv8, b: bv8, c: bv8, d: bv8)
    ensures [SubMix0(a, b, c, d), SubMix1(a, b, c, d), SubMix2(a, b, c, d), SubMix3(a, b, c, d)] ==
            MixColumn(SBox(a), SBox(b), SBox(c), SBox(d))
  {
    hide SBox, GfMul, Sum4, Gfm2, Gfm3, Gfm9, GfmB, GfmD, GfmE;
    var (a', b', c', d') := (SBox(a), SBox(b), SBox(c), SBox(d));
    TablesAreProducts(a');
    TablesAreProducts(b');
    TablesAreProducts(c');
    TablesAreProducts(d');
    Sum4Rotates(a', GfMul(b', 2), GfMul(c', 3), d');
    Sum4Rotates(a', b', GfMul(c', 2), GfMul(d', 3));
    Sum4Rotates(b', GfMul(c', 2), GfMul(d', 3), a');
    Sum4Rotates(GfMul(d', 2), GfMul(a', 3), b', c');
  }

  lemma UnSubMixIsSubOfUnmix(a: bv8, b: bv8, c: bv8, d: bv8)
    ensures var m := InvMixColumn(a, b, c, d);
            [UnSubMix0(a, b, c, d), UnSubMix1(a, b, c, d), UnSubMix2(a, b, c, d), UnSubMix3(a, b, c, d)] ==
            [InvSBox(m[0]), InvSBox(m[1]), InvSBox(m[2]), InvSBox(m[3])]
  {
    hide InvSBox, GfMul, Sum4, Gfm2, Gfm3, Gfm9, GfmB, GfmD, GfmE;
    TablesAreProducts(a);
    TablesAreProducts(b);
    TablesAreProducts(c);
    TablesAreProducts(d);
    Sum4Rotates(GfMul(a, 9), GfMul(b, 14), GfMul(c, 11), GfMul(d, 13));
    Sum4Rotates(GfMul(a, 13), GfMul(b, 9), GfMul(c, 14), GfMul(d, 11));
    Sum4Rotates(GfMul(b, 9), GfMul(c, 14), GfMul(d, 11), GfMul(a, 13));
    Sum4Rotates(GfMul(d, 14), GfMul(a, 11), GfMul(b, 13), GfMul(c, 9));
  }

  /** A mixed column of substituted bytes. */
  function MixSub(p: bv8, q: bv8, r: bv8, t: bv8): Word {
    hide SBox, MixColumn;
    MixColumn(SBox(p), SBox(q), SBox(r), SBox(t))
  }

  /** One column of mix_sub_columns: four bytes of dt from four bytes of the saved state. */
  method MixSubColumn(dt: array<bv8>, o: nat, st: array<bv8>, i: nat, j: nat, k: nat, l: nat)
    requires dt.Length == N_BLOCK && o + 4 <= N_BLOCK && dt != st
    requires st.Length == N_BLOCK && i < N_BLOCK && j < N_BLOCK && k < N_BLOCK && l < N_BLOCK
    modifies dt
    ensures dt[o..o + 4] == MixSub(st[i], st[j], st[k], st[l])
    ensures forall n :: 0 <= n < N_BLOCK && !(o <= n < o + 4) ==> dt[n] == old(dt[n])
  {
    hide SBox, MixColumn, SubMix0, SubMix1, SubMix2, SubMix3;
    dt[o] := SubMix0(st[i], st[j], st[k], st[l]);
    dt[o + 1] := SubMix1(st[i], st[j], st[k], st[l]);
    dt[o + 2] := SubMix2(st[i], st[j], st[k], st[l]);
    dt[o + 3] := SubMix3(st[i], st[j], st[k], st[l]);
    SubMixIsMixOfSub(st[i], st[j], st[k], st[l]);
  }

  lemma ColumnsOfShiftedSub(s: Block)
    ensures MixColumns(ShiftRows(SubBytes(s))) ==
            MixSub(s[0], s[5], s[10], s[15]) + MixSub(s[4], s[9], s[14], s[3]) +
            MixSub(s[8], s[13], s[2], s[7]) + MixSub(s[12], s[1], s[6], s[11])
  {
    hide SBox, MixColumn;
  }

  method MixSubBytes(dt: array<bv8>)
    requires dt.Length == N_BLOCK
    modifies dt
    ensures dt[0..4] == old(MixSub(dt[0], dt[5], dt[10], dt[15]))
    ensures dt[4..8] == old(MixSub(dt[4], dt[9], dt[14], dt[3]))
    ensures dt[8..12] == old(MixSub(dt[8], dt[13], dt[2], dt[7]))
    ensures dt[12..16] == old(MixSub(dt[12], dt[1], dt[6], dt[11]))
  {
    hide MixSub;
    var st := new bv8[N_BLOCK](i requires 0 <= i < N_BLOCK reads dt => dt[i]);
    MixSubColumn(dt, 0, st, 0, 5, 10, 15);
    MixSubColumn(dt, 4, st, 4, 9, 14, 3);
    MixSubColumn(dt, 8, st, 8, 13, 2, 7);
    MixSubColumn(dt, 12, st, 12, 1, 6, 11);
  }

  lemma FourColumns(t: Block)
    ensures t == t[0..4] + t[4..8] + t[8..12] + t[12..16]
  {
  }

  method MixSubColumns(dt: array<bv8>)
    requires dt.Length == N_BLOCK
    modifies dt
    ensures dt[..] == MixColumns(ShiftRows(SubBytes(old(dt[..]))))
  {
    hide MixSub, MixColumns, ShiftRows, SubBytes;
    ColumnsOfShiftedSub(dt[..]);
    MixSubBytes(dt);
    FourColumns(dt[..]);
  }

  /** One column of inv_mix_sub_columns: its four bytes go to where the inverse row shift puts them. */
  method InvMixSubColumn(dt: array<bv8>, st: array<bv8>, o: nat, i: nat, j: nat, k: nat, l: nat)
    requires dt.Length == N_BLOCK && st.Length == N_BLOCK && o + 4 <= N_BLOCK && dt != st
    requires i < N_BLOCK && j < N_BLOCK && k < N_BLOCK && l < N_BLOCK
    requires i != j && i != k && i != l && j != k && j != l && k != l
    modifies dt
    ensures var m := InvMixColumn(st[o], st[o + 1], st[o + 2], st[o + 3]);
            dt[i] == InvSBox(m[0]) && dt[j] == InvSBox(m[1]) && dt[k] == InvSBox(m[2]) && dt[l] == InvSBox(m[3])
    ensures forall n :: 0 <= n < N_BLOCK && n !in {i, j, k, l} ==> dt[n] == old(dt[n])
  {
    hide InvSBox, UnSubMix0, UnSubMix1, UnSubMix2, UnSubMix3, InvMixByte;
    dt[i] := UnSubMix0(st[o], st[o + 1], st[o + 2], st[o + 3]);
    dt[j] := UnSubMix1(st[o], st[o + 1], st[o + 2], st[o + 3]);
    dt[k] := UnSubMix2(st[o], st[o + 1], st[o + 2], st[o + 3]);
    dt[l] := UnSubMix3(st[o], st[o + 1], st[o + 2], st[o + 3]);
    UnSubMixIsSubOfUnmix(st[o], st[o + 1], st[o + 2], st[o + 3]);
  }

  lemma InvMixColumnsAt(s: Block)
    ensures var m, c := InvMixColumns(s), InvMixColumn(s[0], s[1], s[2], s[3]);
            m[0] == c[0] && m[1] == c[1] && m[2] == c[2] && m[3] == c[3]
    ensures var m, c := InvMixColumns(s), InvMixColumn(s[4], s[5], s[6], s[7]);
            m[4] == c[0] && m[5] == c[1] && m[6] == c[2] && m[7] == c[3]
    ensures var m, c := InvMixColumns(s), InvMixColumn(s[8], s[9], s[10], s[11]);
            m[8] == c[0] && m[9] == c[1] && m[10] == c[2] && m[11] == c[3]
    ensures var m, c := InvMixColumns(s), InvMixColumn(s[12], s[13], s[14], s[15]);
            m[12] == c[0] && m[13] == c[1] && m[14] == c[2] && m[15] == c[3]
  {
    hide InvMixColumn;
  }

  method InvMixSubBytes(dt: array<bv8>)
    requires dt.Length == N_BLOCK
    modifies dt
    ensures var m := old(InvMixColumn(dt[0], dt[1], dt[2], dt[3]));
            dt[0] == InvSBox(m[0]) && dt[5] == InvSBox(m[1]) && dt[10] == InvSBox(m[2]) && dt[15] == InvSBox(m[3])
    ensures var m := old(InvMixColumn(dt[4], dt[5], dt[6], dt[7]));
            dt[4] == InvSBox(m[0]) && dt[9] == InvSBox(m[1]) && dt[14] == InvSBox(m[2]) && dt[3] == InvSBox(m[3])
    ensures var m := old(InvMixColumn(dt[8], dt[9], dt[10], dt[11]));
            dt[8] == InvSBox(m[0]) && dt[13] == InvSBox(m[1]) && dt[2] == InvSBox(m[2]) && dt[7] == InvSBox(m[3])
    ensures var m := old(InvMixColumn(dt[12], dt[13], dt[14], dt[15]));
            dt[12] == InvSBox(m[0]) && dt[1] == InvSBox(m[1]) && dt[6] == InvSBox(m[2]) && dt[11] == InvSBox(m[3])
  {
    hide InvSBox, InvMixColumn;
    var st := new bv8[N_BLOCK](i requires 0 <= i < N_BLOCK reads dt => dt[i]);
    InvMixSubColumn(dt, st, 0, 0, 5, 10, 15);
    InvMixSubColumn(dt, st, 4, 4, 9, 14, 3);
    InvMixSubColumn(dt, st, 8, 8, 13, 2, 7);
    InvMixSubColumn(dt, st, 12, 12, 1, 6, 11);
  }

  method InvMixSubColumns(dt: array<bv8>)
    requires dt.Length == N_BLOCK
    modifies dt
    ensures dt[..] == InvSubBytes(InvShiftRows(InvMixColumns(old(dt[..]))))
  {
    hide InvSBox, InvMixColumn, InvMixColumns, InvShiftRows, InvSubBytes;
    ghost var m := InvMixColumns(dt[..]);
    InvMixColumnsAt(dt[..]);
    InvMixSubBytes(dt);
    InvShiftSubIsFips(m, dt[..]);
  }

  // ---- The context: key schedule and round count ----

  lemma QuotientIs(x: nat, d: nat, q: nat, r: nat)
    requires d in {16, 24, 32} && x == d * q + r && r < d
    ensures x / d == q && x % d == r
  {
    if d == 16 {
    } else if d == 24 {
    } else {
    }
  }

  lemma BytesToWords(i: nat, nk: nat)
    requires nk in {4, 6, 8}
    ensures (4 * i) % (4 * nk) == 4 * (i % nk) && (4 * i) / (4 * nk) == i / nk
  {
    var q, r := i / nk, i % nk;
    assert i == nk * q + r;
    QuotientIs(4 * i, 4 * nk, q, 4 * r);
  }

  /** The tests of the schedule loop on byte counts are those of the standard on word counts. */
  lemma LoopTests(cc: uint8, keylen: uint8)
    requires keylen in {16, 24, 32} && cc % 4 == 0
    ensures var i, nk := cc as nat / 4, keylen as nat / 4;
            (cc % keylen == 0 <==> i % nk == 0) && (cc % keylen == 16 <==> i % nk == 4)
  {
    BytesToWords(cc as nat / 4, keylen as nat / 4);
    assert cc as nat == 4 * (cc as nat / 4) && keylen as nat == 4 * (keylen as nat / 4);
  }

  /** The index of the next round constant: the multiples of nk up to i, rounded up. */
  function RconIndex(nk: nat, i: nat): nat
    requires nk >= 1 && i >= 1
  {
    (i - 1) / nk + 1
  }

  lemma RconIndexStep(nk: nat, i: nat)
    requires nk in {4, 6, 8} && i >= 1
    ensures i % nk == 0 ==> RconIndex(nk, i) == i / nk && RconIndex(nk, i + 1) == i / nk + 1
    ensures i % nk != 0 ==> RconIndex(nk, i) == RconIndex(nk, i + 1)
  {
    if nk == 4 {
    } else if nk == 6 {
    } else {
    }
  }

  /** The first n bytes of the buffer are the schedule of this key. */
  ghost predicate Filled(buffer: seq<bv8>, key: seq<bv8>, n: nat)
    requires IsKey(key) && n <= |buffer|
  {
    forall b :: 0 <= b < n ==> buffer[b] == ScheduleByte(key, b)
  }

  lemma ByteOfWord(key: seq<bv8>, i: nat, j: nat)
    requires IsKey(key) && j < 4
    ensures ScheduleByte(key, 4 * i + j) == KeyWord(key, i)[j]
  {
    hide KeyWord;
    assert (4 * i + j) / 4 == i && (4 * i + j) % 4 == j;
  }

  lemma FilledWord(buffer: seq<bv8>, key: seq<bv8>, n: nat, i: nat)
    requires IsKey(key) && 4 * i + 4 <= n <= |buffer| && Filled(buffer, key, n)
    ensures buffer[4 * i..4 * i + 4] == KeyWord(key, i)
  {
    hide KeyWord, ScheduleByte;
    ByteOfWord(key, i, 0);
    ByteOfWord(key, i, 1);
    ByteOfWord(key, i, 2);
    ByteOfWord(key, i, 3);
  }

  /** Appending word i to a filled prefix. */
  lemma FilledMore(was: seq<bv8>, now: seq<bv8>, key: seq<bv8>, i: nat)
    requires IsKey(key) && 4 * i + 4 <= |now| == |was| && Filled(was, key, 4 * i)
    requires now[..4 * i] == was[..4 * i] && now[4 * i..4 * i + 4] == KeyWord(key, i)
    ensures Filled(now, key, 4 * i + 4)
  {
    hide KeyWord, ScheduleByte;
    forall b | 0 <= b < 4 * i + 4
      ensures now[b] == ScheduleByte(key, b)
    {
      if b < 4 * i {
        assert now[b] == now[..4 * i][b] == was[b];
      } else {
        ByteOfWord(key, i, b - 4 * i);
        assert now[b] == now[4 * i..4 * i + 4][b - 4 * i];
      }
    }
  }

  lemma KeyWordStep(key: seq<bv8>, i: nat)
    requires IsKey(key) && |key| / 4 <= i
    ensures KeyWord(key, i) ==
            AddWords(KeyWord(key, i - |key| / 4), ScheduleTemp(|key| / 4, i, KeyWord(key, i - 1)))
  {
    hide AddWords, ScheduleTemp;
  }

  lemma FirstRcon(nk: nat)
    requires nk in {4, 6, 8}
    ensures RconByte(RconIndex(nk, nk)) == 1
  {
    hide GfMul;
    assert RconIndex(nk, nk) == 1;
  }

  lemma FirstKeyByte(key: seq<bv8>, b: nat)
    requires IsKey(key) && b < |key|
    ensures ScheduleByte(key, b) == key[b]
  {
    hide ScheduleTemp, AddWords;
    assert 4 * (b / 4) + b % 4 == b;
  }

  lemma FirstWords(key: seq<bv8>)
    requires IsKey(key)
    ensures forall b :: 0 <= b < |key| ==> ScheduleByte(key, b) == key[b]
    ensures RconByte(RconIndex(|key| / 4, |key| / 4)) == 1
  {
    hide ScheduleByte, RconByte, RconIndex;
    forall b | 0 <= b < |key|
      ensures ScheduleByte(key, b) == key[b]
    {
      FirstKeyByte(key, b);
    }
    FirstRcon(|key| / 4);
  }

  lemma KeyPrefix(s: Block, ksch: seq<bv8>, n: nat, r: nat)
    requires 16 * (r + 1) <= n <= |ksch|
    ensures AddRoundKey(s, ksch, r) == AddRoundKey(s, ksch[..n], r)
  {
    hide Xor;
  }

  class AesContext {
    const ksch: array<bv8>
    var rnd: uint8

    /** The caller's memory: its contents mean nothing until a key is set. */
    constructor ()
      ensures Valid() && rnd == 0
      ensures fresh(ksch)
    {
      ksch := new bv8[KSCH_BYTES];
      rnd := 0;
    }

    ghost predicate Valid()
      reads this
    {
      ksch.Length == KSCH_BYTES && rnd in {0, 10, 12, 14}
    }

    /** The context holds the schedule of this key. */
    ghost predicate Keyed(key: seq<bv8>)
      reads this, ksch
    {
      Valid() && IsKey(key) && rnd as int == RoundCount(key) && ksch[..16 * (rnd as int + 1)] == KeyExpansion(key)
    }

    /** The branch of aes_set_key that transforms the previous word. */
    static method NextTemp(keylen: uint8, cc: uint8, t0: bv8, t1: bv8, t2: bv8, t3: bv8, rc: bv8)
      returns (u0: bv8, u1: bv8, u2: bv8, u3: bv8, rc': bv8)
      requires keylen in {16, 24, 32} && keylen <= cc && cc % 4 == 0
      requires rc == RconByte(RconIndex(keylen as int / 4, cc as int / 4))
      ensures [u0, u1, u2, u3] == ScheduleTemp(keylen as int / 4, cc as int / 4, [t0, t1, t2, t3])
      ensures rc' == RconByte(RconIndex(keylen as int / 4, cc as int / 4 + 1))
    {
      hide SBox, Xor, GfMul, RconIndex;
      LoopTests(cc, keylen);
      RconIndexStep(keylen as int / 4, cc as int / 4);
      u0, u1, u2, u3, rc' := t0, t1, t2, t3, rc;
      if cc % keylen == 0 {
        var tt := t0;
        u0 := Xor(SBox(t1), rc);
        u1 := SBox(t2);
        u2 := SBox(t3);
        u3 := SBox(tt);
        rc' := Gfm2(rc);
        TablesAreProducts(rc);
        XorZero(u1);
        XorZero(u2);
        XorZero(u3);
      } else if keylen > 24 && cc % keylen == 16 {
        u0, u1, u2, u3 := SBox(t0), SBox(t1), SBox(t2), SBox(t3);
      }
    }

    /** The four stores of the loop body. */
    method StoreSum(cc: uint8, tt: uint8, t0: bv8, t1: bv8, t2: bv8, t3: bv8)
      requires Valid() && tt as int + 4 <= cc as int < 237
      modifies ksch
      ensures ksch[..cc] == old(ksch[..cc])
      ensures ksch[cc..cc + 4] == AddWords(old(ksch[tt..tt + 4]), [t0, t1, t2, t3])
    {
      hide Xor;
      ksch[cc] := Xor(ksch[tt], t0);
      ksch[cc + 1] := Xor(ksch[tt + 1], t1);
      ksch[cc + 2] := Xor(ksch[tt + 2], t2);
      ksch[cc + 3] := Xor(ksch[tt + 3], t3);
    }

    /** The loop body of aes_set_key: word i of the schedule, from words i - 1 and i - Nk. */
    method ExpandWord(ghost key: seq<bv8>, keylen: uint8, cc: uint8, rc: bv8, ghost i: nat, ghost nk: nat)
      returns (rc': bv8)
      requires Valid() && IsKey(key) && |key| == keylen as int == 4 * nk
      requires cc as int == 4 * i && nk <= i && cc < 240
      requires rc == RconByte(RconIndex(nk, i))
      requires Filled(ksch[..], key, 4 * i)
      modifies ksch
      ensures Filled(ksch[..], key, 4 * i + 4)
      ensures rc' == RconByte(RconIndex(nk, i + 1))
    {
      hide SBox, Xor, RconIndex, RconByte, ScheduleTemp, KeyWord, Filled;
      ghost var was := ksch[..];
      FilledWord(was, key, 4 * i, i - 1);
      FilledWord(was, key, 4 * i, i - nk);
      assert KeyWord(key, i) == AddWords(KeyWord(key, i - nk), ScheduleTemp(nk, i, KeyWord(key, i - 1))) by {
        KeyWordStep(key, i);
      }
      var t0, t1, t2, t3 := ksch[cc - 4], ksch[cc - 3], ksch[cc - 2], ksch[cc - 1];
      assert [t0, t1, t2, t3] == was[4 * (i - 1)..4 * (i - 1) + 4];
      t0, t1, t2, t3, rc' := NextTemp(keylen, cc, t0, t1, t2, t3, rc);
      var tt := cc - keylen;
      StoreSum(cc, tt, t0, t1, t2, t3);
      FilledMore(was, ksch[..], key, i);
    }

    /** aes_set_key. The byte variables cc, rc, hi and tt of the source keep their width. */
    method SetKey(key: seq<bv8>, keylen: uint8) returns (ok: bool)
      requires Valid()
      requires keylen in {16, 24, 32} ==> |key| == keylen as int
      modifies this, ksch
      ensures ok <==> keylen in {16, 24, 32}
      ensures ok ==> Keyed(key)
      ensures !ok ==> Valid() && rnd == 0 && ksch[..] == old(ksch[..])
    {
      hide ScheduleByte, RconIndex;
      if keylen != 16 && keylen != 24 && keylen != 32 {
        rnd := 0;
        return false;
      }
      forall i | 0 <= i < keylen as int {
        ksch[i] := key[i];
      }
      var hi: uint8 := ((keylen as int + 28) * 4) as uint8;
      rnd := hi / 16 - 1;
      FirstWords(key);
      var cc, rc := keylen, 1 as bv8;
      ghost var i, nk := |key| / 4, |key| / 4;
      while cc < hi
        invariant cc as int == 4 * i && nk <= i && cc <= hi
        invariant rc == RconByte(RconIndex(nk, i))
        invariant Filled(ksch[..], key, 4 * i)
        modifies ksch
      {
        rc := ExpandWord(key, keylen, cc, rc, i, nk);
        cc, i := cc + 4, i + 1;
      }
      return true;
    }

    /** The part of ksch that the rounds read. */
    ghost function Schedule(): (w: seq<bv8>)
      requires Valid()
      reads this, ksch
      ensures |w| == 16 * (rnd as int + 1)
    {
      ksch[..16 * (rnd as int + 1)]
    }

    /** aes_encrypt. The buffers may be the same array, as they are in the CMAC. */
    method Encrypt(input: array<bv8>, output: array<bv8>) returns (ok: bool)
      requires Valid() && input.Length == N_BLOCK == output.Length && output != ksch
      modifies output
      ensures ok <==> rnd != 0
      ensures ok ==> output[..] == Cipher(Schedule(), rnd as int, old(input[..]))
      ensures !ok ==> output[..] == old(output[..])
    {
      hide AddRoundKey, SubBytes, ShiftRows, MixColumns;
      if rnd == 0 {
        return false;
      }
      ghost var w, block := Schedule(), input[..];
      var s1 := new bv8[N_BLOCK];
      CopyAndKey(s1, 0, input, 0, ksch, 0);
      assert s1[..] == s1[0..N_BLOCK] && block == input[0..N_BLOCK];
      KeyPrefix(block, ksch[..], |w|, 0);
      var r: uint8 := 1;
      while r < rnd
        invariant 1 <= r <= rnd
        invariant s1[..] == Rounds(w, r as int - 1, block)
        modifies s1
      {
        MixSubColumns(s1);
        KeyPrefix(s1[..], ksch[..], |w|, r as int);
        AddRoundKeyInPlace(s1, ksch, r as int);
        r := r + 1;
      }
      ShiftSubRows(s1);
      KeyPrefix(s1[..], ksch[..], |w|, r as int);
      CopyAndKey(output, 0, s1, 0, ksch, r as int);
      assert s1[..] == s1[0..N_BLOCK] && output[..] == output[0..N_BLOCK];
      return true;
    }

    /** aes_encrypt in a context that holds a key. */
    method EncryptKeyed(input: array<bv8>, output: array<bv8>, ghost key: seq<bv8>)
      requires Keyed(key) && input.Length == N_BLOCK == output.Length && output != ksch
      modifies output
      ensures output[..] == EncryptBlock(key, old(input[..]))
    {
      hide Cipher, KeyExpansion;
      var ok := Encrypt(input, output);
    }

    /** aes_decrypt, on sixteen bytes at an offset of each buffer. */
    method Decrypt(input: array<bv8>, inOfs: nat, output: array<bv8>, outOfs: nat) returns (ok: bool)
      requires Valid() && inOfs + N_BLOCK <= input.Length && outOfs + N_BLOCK <= output.Length && output != ksch
      modifies output
      ensures ok <==> rnd != 0
      ensures ok ==> output[outOfs..outOfs + N_BLOCK] ==
                     InvCipher(Schedule(), rnd as int, old(input[inOfs..inOfs + N_BLOCK]))
      ensures output[..outOfs] == old(output[..outOfs])
      ensures output[outOfs + N_BLOCK..] == old(output[outOfs + N_BLOCK..])
      ensures !ok ==> output[..] == old(output[..])
    {
      hide AddRoundKey, InvSubBytes, InvShiftRows, InvMixColumns;
      if rnd == 0 {
        return false;
      }
      ghost var w, nr, block := Schedule(), rnd as int, input[inOfs..inOfs + N_BLOCK];
      var s1 := new bv8[N_BLOCK];
      CopyAndKey(s1, 0, input, inOfs, ksch, rnd as int);
      assert s1[..] == s1[0..N_BLOCK];
      KeyPrefix(block, ksch[..], |w|, nr);
      InvShiftSubRows(s1);
      var r := rnd - 1;
      while r != 0
        invariant r < rnd
        invariant s1[..] == InvRounds(w, nr, r as int + 1, block)
        modifies s1
      {
        KeyPrefix(s1[..], ksch[..], |w|, r as int);
        AddRoundKeyInPlace(s1, ksch, r as int);
        InvMixSubColumns(s1);
        r := r - 1;
      }
      KeyPrefix(s1[..], ksch[..], |w|, 0);
      CopyAndKey(output, outOfs, s1, 0, ksch, 0);
      assert s1[..] == s1[0..N_BLOCK];
      return true;
    }

    /** aes_decrypt after aes_set_key. */
    method DecryptKeyed(input: array<bv8>, inOfs: nat, output: array<bv8>, outOfs: nat, ghost key: seq<bv8>)
      requires Keyed(key) && inOfs + N_BLOCK <= input.Length && outOfs + N_BLOCK <= output.Length
      requires output != ksch && output != input
      modifies output
      ensures output[..] == old(output[..outOfs]) + DecryptBlock(key, input[inOfs..inOfs + N_BLOCK]) + old(output[outOfs + N_BLOCK..])
    {
      hide InvCipher, KeyExpansion;
      ghost var was := output[..];
      var ok := Decrypt(input, inOfs, output, outOfs);
      assert output[..] == output[..outOfs] + output[outOfs..outOfs + N_BLOCK] + output[outOfs + N_BLOCK..];
    }
  }

  /** Encryption and decryption of one block under a key. */
  function EncryptBlock(key: seq<bv8>, block: Block): Block
    requires IsKey(key)
  {
    Cipher(KeyExpansion(key), RoundCount(key), block)
  }

  function DecryptBlock(key: seq<bv8>, block: Block): Block
    requires IsKey(key)
  {
    InvCipher(KeyExpansion(key), RoundCount(key), block)
  }

  lemma BlockBijection(key: seq<bv8>, block: Block)
    requires IsKey(key)
    ensures DecryptBlock(key, EncryptBlock(key, block)) == block
    ensures EncryptBlock(key, DecryptBlock(key, block)) == block
  {
    hide Cipher, InvCipher, KeyExpansion;
    CipherBijection(KeyExpansion(key), RoundCount(key), block);
  }
}
