/** What a device makes of the MAC commands in FOpts. get_queued_mac_cmds of network_server/sNS.c encrypts them under
    NFCntDown, and sNS_schedule_downlink then may write AFCntDown into the header. */
module FOptsDelivery {
  import opened Gf256
  import opened Fips197
  import opened Aes
  import opened Rfc4493
  import opened PayloadCipher
  import opened MacQueue
  import opened Basics
  import opened DownlinkFrame
  import opened DownlinkCounters

  // ---- Decrypting under another counter ----

  /** The two keystreams agree on the first n bytes. */
  ghost predicate SameKeystream(c: Context, d: Context, n: nat)
    requires n <= 16
  {
    EncryptBlock(c.key, CounterBlock(c, 0))[..n] == EncryptBlock(d.key, CounterBlock(d, 0))[..n]
  }

  lemma XorBackIff(x: bv8, k: bv8, l: bv8)
    ensures Xor(Xor(x, k), l) == x <==> k == l
  {
    hide Xor;
    var y := Xor(x, k);
    XorTwice(x, k);
    XorCommutes(k, y);
    XorCommutes(l, y);
    XorTwice(k, y);
    XorTwice(l, y);
  }

  /** What was encrypted in one context comes back in another exactly if their keystreams agree so far. */
  lemma DecryptsIff(c: Context, d: Context, data: seq<bv8>)
    requires |data| <= MAX_FOPTS
    ensures Crypt(d, 0, Crypt(c, 0, data)) == data <==> SameKeystream(c, d, |data|)
  {
    hide Xor, EncryptBlock, CounterBlock;
    var k, l := EncryptBlock(c.key, CounterBlock(c, 0)), EncryptBlock(d.key, CounterBlock(d, 0));
    var back := Crypt(d, 0, Crypt(c, 0, data));
    forall j | 0 <= j < |data|
      ensures back[j] == data[j] <==> k[j] == l[j]
    {
      assert KeystreamByte(c, 0, j) == k[j] && KeystreamByte(d, 0, j) == l[j];
      XorBackIff(data[j], k[j], l[j]);
    }
    assert k[..|data|] == l[..|data|] <==> forall j :: 0 <= j < |data| ==> k[j] == l[j];
  }

  // ---- Two counters whose keystreams differ in fifteen bytes ----

  function Under(key: Key, address: bv32, n: uint32): Context {
    Context(key, address, false, BitsOf(n as nat))
  }

  function FirstBlock(key: Key, address: bv32, n: uint32): Block {
    EncryptBlock(key, CounterBlock(Under(key, address, n), 0))
  }

  /** Different counters have different keystream blocks, because the cipher is injective. */
  lemma BlocksDiffer(key: Key, address: bv32, m: uint32, n: uint32)
    requires m != n
    ensures FirstBlock(key, address, m) != FirstBlock(key, address, n)
  {
    hide EncryptBlock, DecryptBlock, LittleEndian4, BitsOf;
    var a, b := CounterBlock(Under(key, address, m), 0), CounterBlock(Under(key, address, n), 0);
    BitsDiffer(m as nat, n as nat);
    Load4OfLittleEndian4(BitsOf(m as nat));
    Load4OfLittleEndian4(BitsOf(n as nat));
    assert a[10..14] == LittleEndian4(BitsOf(m as nat)) && b[10..14] == LittleEndian4(BitsOf(n as nat));
    BlockBijection(key, a);
    BlockBijection(key, b);
  }

  /** The low 8 - j bits. */
  function LowMask(j: nat): bv8
    requires j <= 8
  {
    if j == 0 then 0xff else LowMask(j - 1) >> 1
  }

  function Low(b: bv8, j: nat): bv8
    requires j <= 8
  {
    b & LowMask(j)
  }

  /** The same low bits with the next one set. */
  function NextSet(low: bv8, j: nat): bv8
    requires 1 <= j <= 8
  {
    low | (LowMask(j - 1) ^ LowMask(j))
  }

  lemma OneMoreBit(b: bv8, j: nat)
    requires 1 <= j <= 8
    ensures Low(b, j - 1) == Low(b, j) || Low(b, j - 1) == NextSet(Low(b, j), j)
  {
    assert LowMask(1) == 0x7f && LowMask(2) == 0x3f && LowMask(3) == 0x1f && LowMask(4) == 0x0f;
    assert LowMask(5) == 0x07 && LowMask(6) == 0x03 && LowMask(7) == 0x01 && LowMask(8) == 0;
  }

  function WithLow(bytes: set<bv8>, j: nat, low: bv8): set<bv8>
    requires j <= 8
  {
    set b | b in bytes && Low(b, j) == low
  }

  lemma TwoHalves(bytes: set<bv8>, j: nat, low: bv8)
    requires 1 <= j <= 8 && forall b :: b in bytes ==> Low(b, j) == low
    ensures bytes == WithLow(bytes, j - 1, low) + WithLow(bytes, j - 1, NextSet(low, j))
  {
    hide Low, NextSet;
    forall b | b in bytes
      ensures b in WithLow(bytes, j - 1, low) + WithLow(bytes, j - 1, NextSet(low, j))
    {
      OneMoreBit(b, j);
    }
  }

  lemma SumIsSmaller(a: set<bv8>, b: set<bv8>)
    ensures |a + b| <= |a| + |b|
  {
  }

  /** Of bytes that share their low 8 - j bits there are at most 2^j. */
  lemma {:induction false} BytesAreFew(bytes: set<bv8>, j: nat, low: bv8)
    requires j <= 8 && forall b :: b in bytes ==> Low(b, j) == low
    ensures |bytes| <= PowerOfTwo(j)
    decreases j
  {
    hide PowerOfTwo, NextSet, Low;
    PowerOfNext(j);
    if j == 0 {
      OnlyByte(bytes, low);
    } else {
      var zeros, ones := WithLow(bytes, j - 1, low), WithLow(bytes, j - 1, NextSet(low, j));
      TwoHalves(bytes, j, low);
      BytesAreFew(zeros, j - 1, low);
      BytesAreFew(ones, j - 1, NextSet(low, j));
      SumIsSmaller(zeros, ones);
    }
  }

  lemma OnlyByte(bytes: set<bv8>, low: bv8)
    requires forall b :: b in bytes ==> Low(b, 0) == low
    ensures |bytes| <= 1
  {
    hide Low;
    forall b | b in bytes
      ensures b in {low}
    {
      AllBits(b);
    }
    SubsetIsSmaller(bytes, {low});
  }

  lemma AllBits(b: bv8)
    ensures Low(b, 0) == b
  {
  }

  lemma PowerOfNext(j: nat)
    ensures PowerOfTwo(j) == if j == 0 then 1 else 2 * PowerOfTwo(j - 1)
  {
  }

  lemma TwoTo8()
    ensures PowerOfTwo(8) == 256
  {
    assert PowerOfTwo(2) == 4 && PowerOfTwo(4) == 16 && PowerOfTwo(6) == 64;
  }

  lemma LowOfNone()
    ensures forall b :: Low(b, 8) == 0
  {
    assert LowMask(2) == 0x3f && LowMask(4) == 0x0f && LowMask(6) == 0x03 && LowMask(8) == 0;
  }

  lemma SubsetIsSmaller(a: set<bv8>, b: set<bv8>)
    requires a <= b
    ensures |a| <= |b|
  {
    assert b == a + (b - a);
  }

  function LastByte(key: Key, address: bv32, k: nat): bv8
    requires k < 257
  {
    FirstBlock(key, address, k as uint32)[15]
  }

  ghost function LastBytes(key: Key, address: bv32, n: nat): set<bv8>
    requires n <= 257
  {
    set k: nat | k < n :: LastByte(key, address, k)
  }

  /** If 257 counters had keystream blocks that differ in their last byte only, there were 257 bytes. */
  lemma {:induction false} LastBytesDiffer(key: Key, address: bv32, n: nat)
    requires n <= 257
    requires forall m, k: uint32 :: m < k < 257 ==> FirstBlock(key, address, m)[..15] == FirstBlock(key, address, k)[..15]
    ensures |LastBytes(key, address, n)| == n
  {
    hide FirstBlock;
    if n == 0 {
      assert LastBytes(key, address, n) == {};
    } else {
      hide LastBytes;
      LastBytesDiffer(key, address, n - 1);
      OneMoreLastByte(key, address, n);
      LastIsNew(key, address, n);
    }
  }

  lemma LastIsNew(key: Key, address: bv32, n: nat)
    requires 1 <= n <= 257
    requires forall m, k: uint32 :: m < k < 257 ==> FirstBlock(key, address, m)[..15] == FirstBlock(key, address, k)[..15]
    ensures LastByte(key, address, n - 1) !in LastBytes(key, address, n - 1)
  {
    hide FirstBlock;
    forall k: nat | k < n - 1
      ensures LastByte(key, address, k) != LastByte(key, address, n - 1)
    {
      BlocksDiffer(key, address, k as uint32, (n - 1) as uint32);
      if LastByte(key, address, k) == LastByte(key, address, n - 1) {
        SameBlock(FirstBlock(key, address, k as uint32), FirstBlock(key, address, (n - 1) as uint32));
      }
    }
  }

  lemma OneMoreLastByte(key: Key, address: bv32, n: nat)
    requires 1 <= n <= 257
    ensures LastBytes(key, address, n) == LastBytes(key, address, n - 1) + {LastByte(key, address, n - 1)}
  {
    hide LastByte;
  }

  lemma SameBlock(a: Block, b: Block)
    requires a[..15] == b[..15] && a[15] == b[15]
    ensures a == b
  {
    assert a == a[..15] + [a[15]] && b == b[..15] + [b[15]];
  }

  lemma SomeTwoDiffer(key: Key, address: bv32) returns (m: uint32, k: uint32)
    ensures m < k < 257 && FirstBlock(key, address, m)[..15] != FirstBlock(key, address, k)[..15]
  {
    hide FirstBlock, PowerOfTwo;
    TwoTo8();
    if forall m, k: uint32 :: m < k < 257 ==> FirstBlock(key, address, m)[..15] == FirstBlock(key, address, k)[..15] {
      LastBytesDiffer(key, address, 257);
      LowOfNone();
      BytesAreFew(LastBytes(key, address, 257), 8, 0);
      assert false;
    }
    m, k :| m < k < 257 && FirstBlock(key, address, m)[..15] != FirstBlock(key, address, k)[..15];
  }

  /** For every key, address and NFCntDown there is an AFCntDown below 257 under which fifteen bytes of FOpts do not come back. */
  lemma SomeCounterLoses(key: Key, address: bv32, n: uint32) returns (c: uint32)
    ensures c < 257 && !SameKeystream(Under(key, address, n), Under(key, address, c), MAX_FOPTS)
  {
    hide FirstBlock;
    var m, k := SomeTwoDiffer(key, address);
    c := if FirstBlock(key, address, m)[..15] != FirstBlock(key, address, n)[..15] then m else k;
    FirstBlocks(key, address, n, c);
  }

  lemma FirstBlocks(key: Key, address: bv32, n: uint32, c: uint32)
    ensures SameKeystream(Under(key, address, n), Under(key, address, c), MAX_FOPTS) <==>
            FirstBlock(key, address, n)[..15] == FirstBlock(key, address, c)[..15]
  {
    hide EncryptBlock, CounterBlock;
  }

  // ---- Over runs ----

  /** The commands a device finds that decrypts FOpts under the counter of the frame. */
  function FoundBy(optNeg: bool, key: Key, f: Frame): seq<bv8>
    requires |f.fopts| <= MAX_FOPTS
  {
    FOptsOf(optNeg, Context(key, f.address, false, BitsOf(f.counter as nat)), f.fopts)
  }

  lemma {:induction false} SessionStays(s: Ns, es: seq<Event>)
    ensures var t := Run(s, es); t.optNeg == s.optNeg && t.address == s.address && t.nwkSEncKey == s.nwkSEncKey
  {
    hide Step;
    if es != [] {
      SessionStays(s, es[..|es| - 1]);
      StepStays(Run(s, es[..|es| - 1]), es[|es| - 1]);
    }
  }

  lemma StepStays(s: Ns, e: Event)
    ensures var t := Step(s, e); t.optNeg == s.optNeg && t.address == s.address && t.nwkSEncKey == s.nwkSEncKey
  {
    hide Step;
    if e.Offer? {
      OfferStays(s, e);
    } else {
      StepKeeps(s, e);
    }
  }

  lemma OfferStays(s: Ns, e: Event)
    requires e.Offer?
    ensures var t := Step(s, e); t.optNeg == s.optNeg && t.address == s.address && t.nwkSEncKey == s.nwkSEncKey
  {
    hide Accepts;
  }

  /** What Built puts into the header and FOpts. */
  lemma BuiltFOpts(s: Ns, rx: Rx, drained: Drained)
    ensures var f := Built(s, rx, drained).frame;
            f.fopts == FOptsOf(s.optNeg, FOptsContext(s), drained) && f.address == s.address &&
            f.counter == if UsesAF(s) then s.waiting.value.counter else s.n
  {
    hide NewMhdr, FOptsOf;
  }

  /** In 1.1 each byte of FOpts is XORed with its byte of the one cipher block for direction down, NFCntDown and index 0; in
      1.0 the commands stand in FOpts as they are. */
  lemma FOptsByBlockA(s: Ns, rx: Rx, drained: Drained, j: nat, a: Block)
    requires j < |drained| && IsBlockA(a, s.address, true, BitsOf(s.n as nat), 0)
    ensures var f := Built(s, rx, drained).frame;
            |f.fopts| == |drained| && f.fopts[j] == if s.optNeg then drained[j] ^ EncryptBlock(s.nwkSEncKey, a)[j] else drained[j]
  {
    hide Crypt, EncryptBlock, IsBlockA, BitsOf, Built;
    BuiltFOpts(s, rx, drained);
    assert j / 16 == 0 && j % 16 == j;
    CryptByBlockA(FOptsContext(s), 0, drained, j, a);
  }

  /** Over every run: a device finds the commands taken out of the queue exactly if in 1.1 the keystreams of NFCntDown and of
      the counter in the header agree on their length. */
  lemma FOptsReachDeviceIff(s: Ns, es: seq<Event>, i: nat)
    requires Regular(s, es) && i < |es| && es[i].Schedule? && Builds(Run(s, es[..i]), es[i].rx, es[i].queued)
    ensures var t, drained := Run(s, es[..i]), es[i].drained;
            var f := Built(t, es[i].rx, drained).frame;
            |f.fopts| == |drained| &&
            (FoundBy(s.optNeg, s.nwkSEncKey, f) == drained <==>
             !s.optNeg || SameKeystream(Under(s.nwkSEncKey, s.address, t.n), Under(s.nwkSEncKey, s.address, f.counter), |drained|))
  {
    hide Built, Crypt, Run, SameKeystream;
    var t, drained := Run(s, es[..i]), es[i].drained;
    SessionStays(s, es[..i]);
    BuiltFOpts(t, es[i].rx, drained);
    DecryptsIff(FOptsContext(t), Under(s.nwkSEncKey, s.address, Built(t, es[i].rx, drained).frame.counter), drained);
  }

  /** So the commands always arrive in 1.0, in frames counted on NFCntDown, and in frames whose AFCntDown happens to be equal. */
  lemma FOptsReachDevice(s: Ns, es: seq<Event>, i: nat)
    requires Regular(s, es) && i < |es| && es[i].Schedule? && Builds(Run(s, es[..i]), es[i].rx, es[i].queued)
    requires var t := Run(s, es[..i]); UsesAF(t) ==> t.waiting.value.counter == t.n
    ensures FoundBy(s.optNeg, s.nwkSEncKey, Built(Run(s, es[..i]), es[i].rx, es[i].drained).frame) == es[i].drained
  {
    hide Built, FoundBy, Run, EncryptBlock;
    FOptsReachDeviceIff(s, es, i);
    BuiltFOpts(Run(s, es[..i]), es[i].rx, es[i].drained);
  }

  /** They do not always arrive: in every fresh 1.1 session and for every fifteen bytes of commands there is a counter below
      257 such that a payload encrypted under it costs the device these commands. */
  lemma FOptsGetLost(s: Ns, q: Request, drained: Drained, rx: Rx) returns (c: uint32)
    requires s.optNeg && s.pending.None? && !s.upResent && q.data != [] && |drained| == MAX_FOPTS
    ensures var es := [Offer(q.(counter := c)), Schedule(rx, true, drained)];
            c < 257 && Regular(s, es) && Builds(Run(s, es[..1]), rx, true) &&
            var f := Built(Run(s, es[..1]), rx, drained).frame;
            f.counter == c && |f.fopts| == MAX_FOPTS && FoundBy(true, s.nwkSEncKey, f) != drained
  {
    hide SameKeystream, FoundBy, Built;
    c := SomeCounterLoses(s.nwkSEncKey, s.address, s.n);
    var es := [Offer(q.(counter := c)), Schedule(rx, true, drained)];
    var t := s.(waiting := Some(q.(counter := c)));
    assert es[..1] == [Offer(q.(counter := c))] && es[..1][..0] == [];
    assert Run(s, es[..1]) == t;
    assert Regular(s, es[..0]) && Regular(s, es[..1]);
    BuiltFOpts(t, rx, drained);
    FOptsReachDeviceIff(s, es, 1);
  }
}
