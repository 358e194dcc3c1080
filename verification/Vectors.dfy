/** The key schedule and the round of FIPS-197 written out once more, byte by byte, and the published examples evaluated:
    the schedules of appendix A and the encryption of appendix B. */
module Vectors {
  import opened Gf256
  import opened Fips197
  import opened Aes

  // ---- The key schedule: section 5.2 ----

  /** A word rotated, substituted and given a round constant, or only substituted, on its way into the schedule. */
  function Rotated(back: Word, last: Word, rc: bv8): Word {
    hide SBox, Xor;
    [Xor(back[0], Xor(SBox(last[1]), rc)), Xor(back[1], SBox(last[2])), Xor(back[2], SBox(last[3])), Xor(back[3], SBox(last[0]))]
  }

  function Substituted(back: Word, last: Word): Word {
    hide SBox, Xor;
    [Xor(back[0], SBox(last[0])), Xor(back[1], SBox(last[1])), Xor(back[2], SBox(last[2])), Xor(back[3], SBox(last[3]))]
  }

  /** Word i of a schedule: rotated every Nk words, and for Nk = 8 substituted halfway between as well. */
  function StepWord(nk: nat, i: nat, back: Word, last: Word): Word
    requires nk >= 1
  {
    hide Rotated, Substituted, AddWords, RconByte;
    if i % nk == 0 then Rotated(back, last, RconByte(i / nk))
    else if nk == 8 && i % 8 == 4 then Substituted(back, last)
    else AddWords(back, last)
  }

  lemma RotatedIs(back: Word, last: Word, rc: bv8)
    ensures AddWords(back, AddWords(SubWord(RotWord(last)), [rc, 0, 0, 0])) == Rotated(back, last, rc)
  {
    hide SBox, Xor;
    XorZero(SBox(last[2]));
    XorZero(SBox(last[3]));
    XorZero(SBox(last[0]));
  }

  lemma SubstitutedIs(back: Word, last: Word)
    ensures AddWords(back, SubWord(last)) == Substituted(back, last)
  {
    hide SBox, Xor;
  }

  lemma WordIsStep(nk: nat, i: nat, back: Word, last: Word)
    requires nk in {4, 6, 8}
    ensures AddWords(back, ScheduleTemp(nk, i, last)) == StepWord(nk, i, back, last)
  {
    hide AddWords, RotWord, SubWord, Rotated, Substituted, RconByte;
    RotatedIs(back, last, RconByte(i / nk));
    SubstitutedIs(back, last);
  }

  lemma WordLaw(key: seq<bv8>, i: nat)
    requires IsKey(key) && i >= |key| / 4
    ensures KeyWord(key, i) == StepWord(|key| / 4, i, KeyWord(key, i - |key| / 4), KeyWord(key, i - 1))
  {
    hide StepWord, ScheduleTemp, AddWords;
    WordIsStep(|key| / 4, i, KeyWord(key, i - |key| / 4), KeyWord(key, i - 1));
  }

  lemma DoublingIs(x: bv8)
    ensures GfMul(x, 0x02) == XTime(x)
  {
  }

  lemma RconBytes()
    ensures RconByte(1) == 0x01 && RconByte(2) == 0x02 && RconByte(3) == 0x04 && RconByte(4) == 0x08 && RconByte(5) == 0x10
    ensures RconByte(6) == 0x20 && RconByte(7) == 0x40 && RconByte(8) == 0x80 && RconByte(9) == 0x1b && RconByte(10) == 0x36
  {
    hide GfMul;
    DoublingIs(0x01);
    DoublingIs(0x02);
    DoublingIs(0x04);
    DoublingIs(0x08);
    DoublingIs(0x10);
    DoublingIs(0x20);
    DoublingIs(0x40);
    DoublingIs(0x80);
    DoublingIs(0x1b);
    assert RconByte(2) == 0x02 && RconByte(4) == 0x08 && RconByte(6) == 0x20 && RconByte(8) == 0x80;
  }

  /** Section 5: ten, twelve and fourteen rounds. */
  lemma RoundCounts(key: seq<bv8>)
    requires IsKey(key)
    ensures RoundCount(key) == if |key| == 16 then 10 else if |key| == 24 then 12 else 14
  {
  }

  // ---- The round keys of a 128-bit key ----

  /** The four words of round key r. */
  function RoundKey(key: seq<bv8>, r: nat): Block
    requires IsKey(key)
  {
    KeyWord(key, 4 * r) + KeyWord(key, 4 * r + 1) + KeyWord(key, 4 * r + 2) + KeyWord(key, 4 * r + 3)
  }

  lemma ExpansionSlice(key: seq<bv8>, r: nat)
    requires IsKey(key) && r <= RoundCount(key)
    ensures KeyExpansion(key)[16 * r..16 * (r + 1)] == RoundKey(key, r)
  {
    hide KeyWord;
    forall b | 0 <= b < 16
      ensures KeyExpansion(key)[16 * r..16 * (r + 1)][b] == RoundKey(key, r)[b]
    {
      assert (16 * r + b) / 4 == 4 * r + b / 4 && (16 * r + b) % 4 == b % 4;
    }
  }

  /** A word of a 128-bit schedule, by the last word and the one four places back. */
  function FirstWord(k: Block, rc: bv8): Word {
    [Xor(k[0], Xor(SBox(k[13]), rc)), Xor(k[1], SBox(k[14])), Xor(k[2], SBox(k[15])), Xor(k[3], SBox(k[12]))]
  }

  function NextWord(k: Block, i: nat, w: Word): Word
    requires 1 <= i < 4
  {
    [Xor(k[4 * i], w[0]), Xor(k[4 * i + 1], w[1]), Xor(k[4 * i + 2], w[2]), Xor(k[4 * i + 3], w[3])]
  }

  function NextKey(k: Block, rc: bv8): Block {
    var a := FirstWord(k, rc);
    var b := NextWord(k, 1, a);
    var c := NextWord(k, 2, b);
    a + b + c + NextWord(k, 3, c)
  }

  lemma PlainStep(r: nat, c: nat, back: Word, last: Word)
    requires 1 <= c < 4
    ensures StepWord(4, 4 * r + c, back, last) == AddWords(back, last)
  {
    hide Xor;
    assert (4 * r + c) % 4 == c;
  }

  lemma FourWords(a: Word, b: Word, c: Word, d: Word, r: nat)
    requires r >= 1
    ensures var e := StepWord(4, 4 * r, a, d);
            var f := AddWords(b, e);
            var g := AddWords(c, f);
            NextKey(a + b + c + d, RconByte(r)) == e + f + g + AddWords(d, g)
  {
    hide SBox, Xor, RconByte;
    var k := a + b + c + d;
    assert (4 * r) % 4 == 0 && 4 * r / 4 == r;
    assert FirstWord(k, RconByte(r)) == Rotated(a, d, RconByte(r));
  }

  /** Every round key of a 128-bit key comes from the one before by NextKey. */
  lemma RoundKeyIsNext(key: seq<bv8>, r: nat)
    requires |key| == 16 && r >= 1
    ensures RoundKey(key, r) == NextKey(RoundKey(key, r - 1), RconByte(r))
  {
    hide KeyWord, StepWord, NextKey, AddWords, RconByte;
    var i := 4 * r;
    WordLaw(key, i);
    WordLaw(key, i + 1);
    WordLaw(key, i + 2);
    WordLaw(key, i + 3);
    PlainStep(r, 1, KeyWord(key, i - 3), KeyWord(key, i));
    PlainStep(r, 2, KeyWord(key, i - 2), KeyWord(key, i + 1));
    PlainStep(r, 3, KeyWord(key, i - 1), KeyWord(key, i + 2));
    FourWords(KeyWord(key, i - 4), KeyWord(key, i - 3), KeyWord(key, i - 2), KeyWord(key, i - 1), r);
  }

  // ---- The states: section 5.1 ----

  function AddKey(s: Block, k: Block): Block {
    seq(16, i requires 0 <= i < 16 => Xor(s[i], k[i]))
  }

  /** A byte of a mixed column with its key byte, by the doublings of section 5.1.3. */
  function MixKeyByte(a: bv8, b: bv8, c: bv8, d: bv8, k: bv8): bv8 {
    XTime(a) ^ XTime(b) ^ b ^ c ^ d ^ k
  }

  function MixKey(t: Block, k: Block): Block {
    hide MixKeyByte;
    [MixKeyByte(t[0], t[1], t[2], t[3], k[0]), MixKeyByte(t[1], t[2], t[3], t[0], k[1]),
     MixKeyByte(t[2], t[3], t[0], t[1], k[2]), MixKeyByte(t[3], t[0], t[1], t[2], k[3]),
     MixKeyByte(t[4], t[5], t[6], t[7], k[4]), MixKeyByte(t[5], t[6], t[7], t[4], k[5]),
     MixKeyByte(t[6], t[7], t[4], t[5], k[6]), MixKeyByte(t[7], t[4], t[5], t[6], k[7]),
     MixKeyByte(t[8], t[9], t[10], t[11], k[8]), MixKeyByte(t[9], t[10], t[11], t[8], k[9]),
     MixKeyByte(t[10], t[11], t[8], t[9], k[10]), MixKeyByte(t[11], t[8], t[9], t[10], k[11]),
     MixKeyByte(t[12], t[13], t[14], t[15], k[12]), MixKeyByte(t[13], t[14], t[15], t[12], k[13]),
     MixKeyByte(t[14], t[15], t[12], t[13], k[14]), MixKeyByte(t[15], t[12], t[13], t[14], k[15])]
  }

  function SubShift(s: Block): Block {
    hide SBox;
    [SBox(s[0]), SBox(s[5]), SBox(s[10]), SBox(s[15]), SBox(s[4]), SBox(s[9]), SBox(s[14]), SBox(s[3]),
     SBox(s[8]), SBox(s[13]), SBox(s[2]), SBox(s[7]), SBox(s[12]), SBox(s[1]), SBox(s[6]), SBox(s[11])]
  }

  lemma TriplingIs(x: bv8)
    ensures GfMul(x, 0x03) == XTime(x) ^ x
  {
  }

  lemma MixKeyByteIs(a: bv8, b: bv8, c: bv8, d: bv8, k: bv8)
    ensures Xor(MixByte(a, b, c, d), k) == MixKeyByte(a, b, c, d, k)
  {
    hide GfMul, XTime;
    DoublingIs(a);
    TriplingIs(b);
  }

  lemma ShiftedSub(s: Block)
    ensures ShiftRows(SubBytes(s)) == SubShift(s)
  {
    hide SBox;
  }

  lemma MixedColumn0(t: Block)
    ensures MixColumns(t)[0] == MixByte(t[0], t[1], t[2], t[3])
    ensures MixColumns(t)[1] == MixByte(t[1], t[2], t[3], t[0])
    ensures MixColumns(t)[2] == MixByte(t[2], t[3], t[0], t[1])
    ensures MixColumns(t)[3] == MixByte(t[3], t[0], t[1], t[2])
  {
    hide MixByte;
  }

  lemma MixedColumn1(t: Block)
    ensures MixColumns(t)[4] == MixByte(t[4], t[5], t[6], t[7])
    ensures MixColumns(t)[5] == MixByte(t[5], t[6], t[7], t[4])
    ensures MixColumns(t)[6] == MixByte(t[6], t[7], t[4], t[5])
    ensures MixColumns(t)[7] == MixByte(t[7], t[4], t[5], t[6])
  {
    hide MixByte;
  }

  lemma MixedColumn2(t: Block)
    ensures MixColumns(t)[8] == MixByte(t[8], t[9], t[10], t[11])
    ensures MixColumns(t)[9] == MixByte(t[9], t[10], t[11], t[8])
    ensures MixColumns(t)[10] == MixByte(t[10], t[11], t[8], t[9])
    ensures MixColumns(t)[11] == MixByte(t[11], t[8], t[9], t[10])
  {
    hide MixByte;
  }

  lemma MixedColumn3(t: Block)
    ensures MixColumns(t)[12] == MixByte(t[12], t[13], t[14], t[15])
    ensures MixColumns(t)[13] == MixByte(t[13], t[14], t[15], t[12])
    ensures MixColumns(t)[14] == MixByte(t[14], t[15], t[12], t[13])
    ensures MixColumns(t)[15] == MixByte(t[15], t[12], t[13], t[14])
  {
    hide MixByte;
  }

  lemma KeyedBytes(t: Block, w: seq<bv8>, r: nat, i: nat)
    requires 16 * (r + 1) <= |w| && i < 16
    ensures AddRoundKey(t, w, r)[i] == Xor(t[i], w[16 * r..16 * (r + 1)][i])
  {
  }

  lemma AddKeyIs(t: Block, w: seq<bv8>, r: nat)
    requires 16 * (r + 1) <= |w|
    ensures AddRoundKey(t, w, r) == AddKey(t, w[16 * r..16 * (r + 1)])
  {
    hide Xor;
  }

  lemma AddKeyBytes(s: Block, k: Block)
    ensures AddKey(s, k) ==
      [Xor(s[0], k[0]), Xor(s[1], k[1]), Xor(s[2], k[2]), Xor(s[3], k[3]),
       Xor(s[4], k[4]), Xor(s[5], k[5]), Xor(s[6], k[6]), Xor(s[7], k[7]),
       Xor(s[8], k[8]), Xor(s[9], k[9]), Xor(s[10], k[10]), Xor(s[11], k[11]),
       Xor(s[12], k[12]), Xor(s[13], k[13]), Xor(s[14], k[14]), Xor(s[15], k[15])]
  {
    hide Xor;
  }

  lemma MixKeyIs(t: Block, k: Block)
    ensures AddKey(MixColumns(t), k) == MixKey(t, k)
  {
    hide MixByte, MixKeyByte, Xor, MixColumns, AddKey;
    MixedColumn0(t);
    MixedColumn1(t);
    MixedColumn2(t);
    MixedColumn3(t);
    AddKeyBytes(MixColumns(t), k);
    MixKeyByteIs(t[0], t[1], t[2], t[3], k[0]);
    MixKeyByteIs(t[1], t[2], t[3], t[0], k[1]);
    MixKeyByteIs(t[2], t[3], t[0], t[1], k[2]);
    MixKeyByteIs(t[3], t[0], t[1], t[2], k[3]);
    MixKeyByteIs(t[4], t[5], t[6], t[7], k[4]);
    MixKeyByteIs(t[5], t[6], t[7], t[4], k[5]);
    MixKeyByteIs(t[6], t[7], t[4], t[5], k[6]);
    MixKeyByteIs(t[7], t[4], t[5], t[6], k[7]);
    MixKeyByteIs(t[8], t[9], t[10], t[11], k[8]);
    MixKeyByteIs(t[9], t[10], t[11], t[8], k[9]);
    MixKeyByteIs(t[10], t[11], t[8], t[9], k[10]);
    MixKeyByteIs(t[11], t[8], t[9], t[10], k[11]);
    MixKeyByteIs(t[12], t[13], t[14], t[15], k[12]);
    MixKeyByteIs(t[13], t[14], t[15], t[12], k[13]);
    MixKeyByteIs(t[14], t[15], t[12], t[13], k[14]);
    MixKeyByteIs(t[15], t[12], t[13], t[14], k[15]);
  }

  /** One round of the cipher. */
  function Round(s: Block, w: seq<bv8>, r: nat): Block
    requires 16 * (r + 1) <= |w|
  {
    hide AddRoundKey, MixColumns, ShiftRows, SubBytes;
    AddRoundKey(MixColumns(ShiftRows(SubBytes(s))), w, r)
  }

  lemma RoundIs(s: Block, w: seq<bv8>, r: nat)
    requires 16 * (r + 1) <= |w|
    ensures Round(s, w, r) == MixKey(SubShift(s), w[16 * r..16 * (r + 1)])
  {
    hide AddKey, MixKey, SubShift, AddRoundKey, MixColumns, ShiftRows, SubBytes;
    ShiftedSub(s);
    AddKeyIs(MixColumns(SubShift(s)), w, r);
    MixKeyIs(SubShift(s), w[16 * r..16 * (r + 1)]);
  }

  // ---- Appendix A.1 ----

  const KEY_0: Block := [0x2b, 0x7e, 0x15, 0x16, 0x28, 0xae, 0xd2, 0xa6, 0xab, 0xf7, 0x15, 0x88, 0x09, 0xcf, 0x4f, 0x3c]
  const KEY_1: Block := [0xa0, 0xfa, 0xfe, 0x17, 0x88, 0x54, 0x2c, 0xb1, 0x23, 0xa3, 0x39, 0x39, 0x2a, 0x6c, 0x76, 0x05]
  const KEY_2: Block := [0xf2, 0xc2, 0x95, 0xf2, 0x7a, 0x96, 0xb9, 0x43, 0x59, 0x35, 0x80, 0x7a, 0x73, 0x59, 0xf6, 0x7f]
  const KEY_3: Block := [0x3d, 0x80, 0x47, 0x7d, 0x47, 0x16, 0xfe, 0x3e, 0x1e, 0x23, 0x7e, 0x44, 0x6d, 0x7a, 0x88, 0x3b]
  const KEY_4: Block := [0xef, 0x44, 0xa5, 0x41, 0xa8, 0x52, 0x5b, 0x7f, 0xb6, 0x71, 0x25, 0x3b, 0xdb, 0x0b, 0xad, 0x00]
  const KEY_5: Block := [0xd4, 0xd1, 0xc6, 0xf8, 0x7c, 0x83, 0x9d, 0x87, 0xca, 0xf2, 0xb8, 0xbc, 0x11, 0xf9, 0x15, 0xbc]
  const KEY_6: Block := [0x6d, 0x88, 0xa3, 0x7a, 0x11, 0x0b, 0x3e, 0xfd, 0xdb, 0xf9, 0x86, 0x41, 0xca, 0x00, 0x93, 0xfd]
  const KEY_7: Block := [0x4e, 0x54, 0xf7, 0x0e, 0x5f, 0x5f, 0xc9, 0xf3, 0x84, 0xa6, 0x4f, 0xb2, 0x4e, 0xa6, 0xdc, 0x4f]
  const KEY_8: Block := [0xea, 0xd2, 0x73, 0x21, 0xb5, 0x8d, 0xba, 0xd2, 0x31, 0x2b, 0xf5, 0x60, 0x7f, 0x8d, 0x29, 0x2f]
  const KEY_9: Block := [0xac, 0x77, 0x66, 0xf3, 0x19, 0xfa, 0xdc, 0x21, 0x28, 0xd1, 0x29, 0x41, 0x57, 0x5c, 0x00, 0x6e]
  const KEY_10: Block := [0xd0, 0x14, 0xf9, 0xa8, 0xc9, 0xee, 0x25, 0x89, 0xe1, 0x3f, 0x0c, 0xc8, 0xb6, 0x63, 0x0c, 0xa6]

  lemma KeyStep1()
    ensures NextKey(KEY_0, 0x01) == KEY_1
  {
  }

  lemma KeyStep2()
    ensures NextKey(KEY_1, 0x02) == KEY_2
  {
  }

  lemma KeyStep3()
    ensures NextKey(KEY_2, 0x04) == KEY_3
  {
  }

  lemma KeyStep4()
    ensures NextKey(KEY_3, 0x08) == KEY_4
  {
  }

  lemma KeyStep5()
    ensures NextKey(KEY_4, 0x10) == KEY_5
  {
  }

  lemma KeyStep6()
    ensures NextKey(KEY_5, 0x20) == KEY_6
  {
  }

  lemma KeyStep7()
    ensures NextKey(KEY_6, 0x40) == KEY_7
  {
  }

  lemma KeyStep8()
    ensures NextKey(KEY_7, 0x80) == KEY_8
  {
  }

  lemma KeyStep9()
    ensures NextKey(KEY_8, 0x1b) == KEY_9
  {
  }

  lemma KeyStep10()
    ensures NextKey(KEY_9, 0x36) == KEY_10
  {
  }

  lemma GivenWord(key: seq<bv8>, i: nat)
    requires IsKey(key) && i < |key| / 4
    ensures KeyWord(key, i) == [key[4 * i], key[4 * i + 1], key[4 * i + 2], key[4 * i + 3]]
  {
  }

  lemma RoundKey0()
    ensures RoundKey(KEY_0, 0) == KEY_0
  {
    hide KeyWord;
    GivenWord(KEY_0, 0);
    GivenWord(KEY_0, 1);
    GivenWord(KEY_0, 2);
    GivenWord(KEY_0, 3);
  }

  /** All of appendix A.1. */
  lemma Schedule128()
    ensures RoundKey(KEY_0, 0) == KEY_0
    ensures RoundKey(KEY_0, 1) == KEY_1
    ensures RoundKey(KEY_0, 2) == KEY_2
    ensures RoundKey(KEY_0, 3) == KEY_3
    ensures RoundKey(KEY_0, 4) == KEY_4
    ensures RoundKey(KEY_0, 5) == KEY_5
    ensures RoundKey(KEY_0, 6) == KEY_6
    ensures RoundKey(KEY_0, 7) == KEY_7
    ensures RoundKey(KEY_0, 8) == KEY_8
    ensures RoundKey(KEY_0, 9) == KEY_9
    ensures RoundKey(KEY_0, 10) == KEY_10
  {
    hide RoundKey, NextKey, RconByte;
    RconBytes();
    RoundKey0();
    RoundKeyIsNext(KEY_0, 1);
    KeyStep1();
    RoundKeyIsNext(KEY_0, 2);
    KeyStep2();
    RoundKeyIsNext(KEY_0, 3);
    KeyStep3();
    RoundKeyIsNext(KEY_0, 4);
    KeyStep4();
    RoundKeyIsNext(KEY_0, 5);
    KeyStep5();
    RoundKeyIsNext(KEY_0, 6);
    KeyStep6();
    RoundKeyIsNext(KEY_0, 7);
    KeyStep7();
    RoundKeyIsNext(KEY_0, 8);
    KeyStep8();
    RoundKeyIsNext(KEY_0, 9);
    KeyStep9();
    RoundKeyIsNext(KEY_0, 10);
    KeyStep10();
  }

  // ---- Appendices A.2 and A.3 ----

  const KEY_192: seq<bv8> :=
    [0x8e, 0x73, 0xb0, 0xf7, 0xda, 0x0e, 0x64, 0x52, 0xc8, 0x10, 0xf3, 0x2b, 0x80, 0x90, 0x79, 0xe5,
     0x62, 0xf8, 0xea, 0xd2, 0x52, 0x2c, 0x6b, 0x7b]

  const KEY_256: seq<bv8> :=
    [0x60, 0x3d, 0xeb, 0x10, 0x15, 0xca, 0x71, 0xbe, 0x2b, 0x73, 0xae, 0xf0, 0x85, 0x7d, 0x77, 0x81,
     0x1f, 0x35, 0x2c, 0x07, 0x3b, 0x61, 0x08, 0xd7, 0x2d, 0x98, 0x10, 0xa3, 0x09, 0x14, 0xdf, 0xf4]

  lemma WordFrom(key: seq<bv8>, i: nat, back: Word, last: Word, w: Word)
    requires IsKey(key) && i >= |key| / 4 && KeyWord(key, i - |key| / 4) == back && KeyWord(key, i - 1) == last
    requires StepWord(|key| / 4, i, back, last) == w
    ensures KeyWord(key, i) == w
  {
    hide StepWord, ScheduleTemp, AddWords;
    WordIsStep(|key| / 4, i, back, last);
  }

  lemma GivenWords192()
    ensures KeyWord(KEY_192, 0) == [0x8e, 0x73, 0xb0, 0xf7]
    ensures KeyWord(KEY_192, 1) == [0xda, 0x0e, 0x64, 0x52]
    ensures KeyWord(KEY_192, 2) == [0xc8, 0x10, 0xf3, 0x2b]
    ensures KeyWord(KEY_192, 5) == [0x52, 0x2c, 0x6b, 0x7b]
  {
    hide KeyWord;
    GivenWord(KEY_192, 0);
    GivenWord(KEY_192, 1);
    GivenWord(KEY_192, 2);
    GivenWord(KEY_192, 5);
  }

  lemma Step192_6()
    ensures StepWord(6, 6, [0x8e, 0x73, 0xb0, 0xf7], [0x52, 0x2c, 0x6b, 0x7b]) == [0xfe, 0x0c, 0x91, 0xf7]
  {
  }

  lemma Step192_7()
    ensures StepWord(6, 7, [0xda, 0x0e, 0x64, 0x52], [0xfe, 0x0c, 0x91, 0xf7]) == [0x24, 0x02, 0xf5, 0xa5]
  {
  }

  lemma Step192_8()
    ensures StepWord(6, 8, [0xc8, 0x10, 0xf3, 0x2b], [0x24, 0x02, 0xf5, 0xa5]) == [0xec, 0x12, 0x06, 0x8e]
  {
  }

  /** Appendix A.2: the first words after the key. */
  lemma Schedule192()
    ensures KeyWord(KEY_192, 6) == [0xfe, 0x0c, 0x91, 0xf7]
    ensures KeyWord(KEY_192, 7) == [0x24, 0x02, 0xf5, 0xa5]
    ensures KeyWord(KEY_192, 8) == [0xec, 0x12, 0x06, 0x8e]
  {
    hide KeyWord, StepWord;
    GivenWords192();
    Step192_6();
    WordFrom(KEY_192, 6, [0x8e, 0x73, 0xb0, 0xf7], [0x52, 0x2c, 0x6b, 0x7b], [0xfe, 0x0c, 0x91, 0xf7]);
    Step192_7();
    WordFrom(KEY_192, 7, [0xda, 0x0e, 0x64, 0x52], [0xfe, 0x0c, 0x91, 0xf7], [0x24, 0x02, 0xf5, 0xa5]);
    Step192_8();
    WordFrom(KEY_192, 8, [0xc8, 0x10, 0xf3, 0x2b], [0x24, 0x02, 0xf5, 0xa5], [0xec, 0x12, 0x06, 0x8e]);
  }

  lemma GivenWords256()
    ensures KeyWord(KEY_256, 0) == [0x60, 0x3d, 0xeb, 0x10]
    ensures KeyWord(KEY_256, 1) == [0x15, 0xca, 0x71, 0xbe]
    ensures KeyWord(KEY_256, 2) == [0x2b, 0x73, 0xae, 0xf0]
  {
    hide KeyWord;
    GivenWord(KEY_256, 0);
    GivenWord(KEY_256, 1);
    GivenWord(KEY_256, 2);
  }

  lemma MoreWords256()
    ensures KeyWord(KEY_256, 3) == [0x85, 0x7d, 0x77, 0x81]
    ensures KeyWord(KEY_256, 4) == [0x1f, 0x35, 0x2c, 0x07]
    ensures KeyWord(KEY_256, 7) == [0x09, 0x14, 0xdf, 0xf4]
  {
    hide KeyWord;
    GivenWord(KEY_256, 3);
    GivenWord(KEY_256, 4);
    GivenWord(KEY_256, 7);
  }

  lemma Step256_8()
    ensures StepWord(8, 8, [0x60, 0x3d, 0xeb, 0x10], [0x09, 0x14, 0xdf, 0xf4]) == [0x9b, 0xa3, 0x54, 0x11]
  {
  }

  lemma Step256_9()
    ensures StepWord(8, 9, [0x15, 0xca, 0x71, 0xbe], [0x9b, 0xa3, 0x54, 0x11]) == [0x8e, 0x69, 0x25, 0xaf]
  {
  }

  lemma Step256_10()
    ensures StepWord(8, 10, [0x2b, 0x73, 0xae, 0xf0], [0x8e, 0x69, 0x25, 0xaf]) == [0xa5, 0x1a, 0x8b, 0x5f]
  {
  }

  lemma Step256_11()
    ensures StepWord(8, 11, [0x85, 0x7d, 0x77, 0x81], [0xa5, 0x1a, 0x8b, 0x5f]) == [0x20, 0x67, 0xfc, 0xde]
  {
  }

  lemma Step256_12()
    ensures StepWord(8, 12, [0x1f, 0x35, 0x2c, 0x07], [0x20, 0x67, 0xfc, 0xde]) == [0xa8, 0xb0, 0x9c, 0x1a]
  {
  }

  /** Appendix A.3: the first words after the key, up to the substitution halfway. */
  lemma Schedule256()
    ensures KeyWord(KEY_256, 8) == [0x9b, 0xa3, 0x54, 0x11]
    ensures KeyWord(KEY_256, 9) == [0x8e, 0x69, 0x25, 0xaf]
    ensures KeyWord(KEY_256, 10) == [0xa5, 0x1a, 0x8b, 0x5f]
    ensures KeyWord(KEY_256, 11) == [0x20, 0x67, 0xfc, 0xde]
    ensures KeyWord(KEY_256, 12) == [0xa8, 0xb0, 0x9c, 0x1a]
  {
    hide KeyWord, StepWord;
    GivenWords256();
    MoreWords256();
    Step256_8();
    WordFrom(KEY_256, 8, [0x60, 0x3d, 0xeb, 0x10], [0x09, 0x14, 0xdf, 0xf4], [0x9b, 0xa3, 0x54, 0x11]);
    Step256_9();
    WordFrom(KEY_256, 9, [0x15, 0xca, 0x71, 0xbe], [0x9b, 0xa3, 0x54, 0x11], [0x8e, 0x69, 0x25, 0xaf]);
    Step256_10();
    WordFrom(KEY_256, 10, [0x2b, 0x73, 0xae, 0xf0], [0x8e, 0x69, 0x25, 0xaf], [0xa5, 0x1a, 0x8b, 0x5f]);
    Step256_11();
    WordFrom(KEY_256, 11, [0x85, 0x7d, 0x77, 0x81], [0xa5, 0x1a, 0x8b, 0x5f], [0x20, 0x67, 0xfc, 0xde]);
    Step256_12();
    WordFrom(KEY_256, 12, [0x1f, 0x35, 0x2c, 0x07], [0x20, 0x67, 0xfc, 0xde], [0xa8, 0xb0, 0x9c, 0x1a]);
  }

  // ---- Appendix B ----

  const PLAIN: Block := [0x32, 0x43, 0xf6, 0xa8, 0x88, 0x5a, 0x30, 0x8d, 0x31, 0x31, 0x98, 0xa2, 0xe0, 0x37, 0x07, 0x34]

  // The state at the start of each round and after ShiftRows.

  const STATE_0: Block := [0x19, 0x3d, 0xe3, 0xbe, 0xa0, 0xf4, 0xe2, 0x2b, 0x9a, 0xc6, 0x8d, 0x2a, 0xe9, 0xf8, 0x48, 0x08]
  const STATE_1: Block := [0xa4, 0x9c, 0x7f, 0xf2, 0x68, 0x9f, 0x35, 0x2b, 0x6b, 0x5b, 0xea, 0x43, 0x02, 0x6a, 0x50, 0x49]
  const STATE_2: Block := [0xaa, 0x8f, 0x5f, 0x03, 0x61, 0xdd, 0xe3, 0xef, 0x82, 0xd2, 0x4a, 0xd2, 0x68, 0x32, 0x46, 0x9a]
  const STATE_3: Block := [0x48, 0x6c, 0x4e, 0xee, 0x67, 0x1d, 0x9d, 0x0d, 0x4d, 0xe3, 0xb1, 0x38, 0xd6, 0x5f, 0x58, 0xe7]
  const STATE_4: Block := [0xe0, 0x92, 0x7f, 0xe8, 0xc8, 0x63, 0x63, 0xc0, 0xd9, 0xb1, 0x35, 0x50, 0x85, 0xb8, 0xbe, 0x01]
  const STATE_5: Block := [0xf1, 0x00, 0x6f, 0x55, 0xc1, 0x92, 0x4c, 0xef, 0x7c, 0xc8, 0x8b, 0x32, 0x5d, 0xb5, 0xd5, 0x0c]
  const STATE_6: Block := [0x26, 0x0e, 0x2e, 0x17, 0x3d, 0x41, 0xb7, 0x7d, 0xe8, 0x64, 0x72, 0xa9, 0xfd, 0xd2, 0x8b, 0x25]
  const STATE_7: Block := [0x5a, 0x41, 0x42, 0xb1, 0x19, 0x49, 0xdc, 0x1f, 0xa3, 0xe0, 0x19, 0x65, 0x7a, 0x8c, 0x04, 0x0c]
  const STATE_8: Block := [0xea, 0x83, 0x5c, 0xf0, 0x04, 0x45, 0x33, 0x2d, 0x65, 0x5d, 0x98, 0xad, 0x85, 0x96, 0xb0, 0xc5]
  const STATE_9: Block := [0xeb, 0x40, 0xf2, 0x1e, 0x59, 0x2e, 0x38, 0x84, 0x8b, 0xa1, 0x13, 0xe7, 0x1b, 0xc3, 0x42, 0xd2]
  const STATE_10: Block := [0x39, 0x25, 0x84, 0x1d, 0x02, 0xdc, 0x09, 0xfb, 0xdc, 0x11, 0x85, 0x97, 0x19, 0x6a, 0x0b, 0x32]

  const SHIFTED_1: Block := [0xd4, 0xbf, 0x5d, 0x30, 0xe0, 0xb4, 0x52, 0xae, 0xb8, 0x41, 0x11, 0xf1, 0x1e, 0x27, 0x98, 0xe5]
  const SHIFTED_2: Block := [0x49, 0xdb, 0x87, 0x3b, 0x45, 0x39, 0x53, 0x89, 0x7f, 0x02, 0xd2, 0xf1, 0x77, 0xde, 0x96, 0x1a]
  const SHIFTED_3: Block := [0xac, 0xc1, 0xd6, 0xb8, 0xef, 0xb5, 0x5a, 0x7b, 0x13, 0x23, 0xcf, 0xdf, 0x45, 0x73, 0x11, 0xb5]
  const SHIFTED_4: Block := [0x52, 0xa4, 0xc8, 0x94, 0x85, 0x11, 0x6a, 0x28, 0xe3, 0xcf, 0x2f, 0xd7, 0xf6, 0x50, 0x5e, 0x07]
  const SHIFTED_5: Block := [0xe1, 0xfb, 0x96, 0x7c, 0xe8, 0xc8, 0xae, 0x9b, 0x35, 0x6c, 0xd2, 0xba, 0x97, 0x4f, 0xfb, 0x53]
  const SHIFTED_6: Block := [0xa1, 0x4f, 0x3d, 0xfe, 0x78, 0xe8, 0x03, 0xfc, 0x10, 0xd5, 0xa8, 0xdf, 0x4c, 0x63, 0x29, 0x23]
  const SHIFTED_7: Block := [0xf7, 0x83, 0x40, 0x3f, 0x27, 0x43, 0x3d, 0xf0, 0x9b, 0xb5, 0x31, 0xff, 0x54, 0xab, 0xa9, 0xd3]
  const SHIFTED_8: Block := [0xbe, 0x3b, 0xd4, 0xfe, 0xd4, 0xe1, 0xf2, 0xc8, 0x0a, 0x64, 0x2c, 0xc0, 0xda, 0x83, 0x86, 0x4d]
  const SHIFTED_9: Block := [0x87, 0x6e, 0x46, 0xa6, 0xf2, 0x4c, 0xe7, 0x8c, 0x4d, 0x90, 0x4a, 0xd8, 0x97, 0xec, 0xc3, 0x95]
  const SHIFTED_10: Block := [0xe9, 0x31, 0x7d, 0xb5, 0xcb, 0x32, 0x2c, 0x72, 0x3d, 0x2e, 0x89, 0x5f, 0xaf, 0x09, 0x07, 0x94]

  lemma Keyed0()
    ensures AddKey(PLAIN, KEY_0) == STATE_0
  {
    hide AddKey;
    AddKeyBytes(PLAIN, KEY_0);
  }

  lemma Shifted1()
    ensures SubShift(STATE_0) == SHIFTED_1
  {
  }

  lemma Shifted2()
    ensures SubShift(STATE_1) == SHIFTED_2
  {
  }

  lemma Shifted3()
    ensures SubShift(STATE_2) == SHIFTED_3
  {
  }

  lemma Shifted4()
    ensures SubShift(STATE_3) == SHIFTED_4
  {
  }

  lemma Shifted5()
    ensures SubShift(STATE_4) == SHIFTED_5
  {
  }

  lemma Shifted6()
    ensures SubShift(STATE_5) == SHIFTED_6
  {
  }

  lemma Shifted7()
    ensures SubShift(STATE_6) == SHIFTED_7
  {
  }

  lemma Shifted8()
    ensures SubShift(STATE_7) == SHIFTED_8
  {
  }

  lemma Shifted9()
    ensures SubShift(STATE_8) == SHIFTED_9
  {
  }

  lemma Shifted10()
    ensures SubShift(STATE_9) == SHIFTED_10
  {
  }

  lemma Mixed1()
    ensures MixKey(SHIFTED_1, KEY_1) == STATE_1
  {
  }

  lemma Mixed2()
    ensures MixKey(SHIFTED_2, KEY_2) == STATE_2
  {
  }

  lemma Mixed3()
    ensures MixKey(SHIFTED_3, KEY_3) == STATE_3
  {
  }

  lemma Mixed4()
    ensures MixKey(SHIFTED_4, KEY_4) == STATE_4
  {
  }

  lemma Mixed5()
    ensures MixKey(SHIFTED_5, KEY_5) == STATE_5
  {
  }

  lemma Mixed6()
    ensures MixKey(SHIFTED_6, KEY_6) == STATE_6
  {
  }

  lemma Mixed7()
    ensures MixKey(SHIFTED_7, KEY_7) == STATE_7
  {
  }

  lemma Mixed8()
    ensures MixKey(SHIFTED_8, KEY_8) == STATE_8
  {
  }

  lemma Mixed9()
    ensures MixKey(SHIFTED_9, KEY_9) == STATE_9
  {
  }

  lemma Keyed10()
    ensures AddKey(SHIFTED_10, KEY_10) == STATE_10
  {
    hide AddKey;
    AddKeyBytes(SHIFTED_10, KEY_10);
  }

  lemma RoundTo(key: seq<bv8>, input: Block, r: nat, s: Block, t: Block, k: Block, u: Block)
    requires IsKey(key) && 1 <= r < RoundCount(key)
    requires Rounds(KeyExpansion(key), r - 1, input) == s && RoundKey(key, r) == k && SubShift(s) == t && MixKey(t, k) == u
    ensures Rounds(KeyExpansion(key), r, input) == u
  {
    hide KeyExpansion, RoundKey, MixKey, SubShift, AddRoundKey, MixColumns, ShiftRows, SubBytes;
    ExpansionSlice(key, r);
    RoundIs(s, KeyExpansion(key), r);
  }

  /** Appendix B: the example is encrypted to 3925841d02dc09fbdc118597196a0b32, and decrypted again. */
  lemma ExampleCipher(key: seq<bv8>, plain: Block, cipher: Block)
    requires key == KEY_0 && plain == PLAIN && cipher == STATE_10
    ensures EncryptBlock(key, plain) == cipher && DecryptBlock(key, cipher) == plain
  {
    hide KeyExpansion, RoundKey, MixKey, AddKey, SubShift, AddRoundKey, MixColumns, ShiftRows, SubBytes;
    var w := KeyExpansion(key);
    Schedule128();
    ExpansionSlice(key, 0);
    AddKeyIs(plain, w, 0);
    Keyed0();
    Shifted1();
    Mixed1();
    RoundTo(key, plain, 1, STATE_0, SHIFTED_1, KEY_1, STATE_1);
    Shifted2();
    Mixed2();
    RoundTo(key, plain, 2, STATE_1, SHIFTED_2, KEY_2, STATE_2);
    Shifted3();
    Mixed3();
    RoundTo(key, plain, 3, STATE_2, SHIFTED_3, KEY_3, STATE_3);
    Shifted4();
    Mixed4();
    RoundTo(key, plain, 4, STATE_3, SHIFTED_4, KEY_4, STATE_4);
    Shifted5();
    Mixed5();
    RoundTo(key, plain, 5, STATE_4, SHIFTED_5, KEY_5, STATE_5);
    Shifted6();
    Mixed6();
    RoundTo(key, plain, 6, STATE_5, SHIFTED_6, KEY_6, STATE_6);
    Shifted7();
    Mixed7();
    RoundTo(key, plain, 7, STATE_6, SHIFTED_7, KEY_7, STATE_7);
    Shifted8();
    Mixed8();
    RoundTo(key, plain, 8, STATE_7, SHIFTED_8, KEY_8, STATE_8);
    Shifted9();
    Mixed9();
    RoundTo(key, plain, 9, STATE_8, SHIFTED_9, KEY_9, STATE_9);
    ExpansionSlice(key, 10);
    ShiftedSub(STATE_9);
    Shifted10();
    AddKeyIs(SHIFTED_10, w, 10);
    Keyed10();
    BlockBijection(key, plain);
  }
}
