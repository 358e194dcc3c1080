/** Class B ping slots: the offset of network_server/sNS.c and the slot choice of network_server/fNS.c. */
module ClassB {
  import opened Basics
  import opened Fips197
  import opened Aes
  import opened Rfc4493
  import opened PayloadCipher

  const BEACON_WINDOW_SLOTS: uint16 := 4096

  // ---- The ping offset: LoRaWAN 1.1 section 13.1 ----

  /** beacon time and address, little-endian, then zeros. */
  function PingBlock(beaconTime: bv64, address: bv32): Block {
    LittleEndian4((beaconTime & 0xffff_ffff) as bv32) + LittleEndian4(address) + [0, 0, 0, 0, 0, 0, 0, 0]
  }

  function PingRandom(beaconTime: bv64, address: bv32): nat {
    var r := EncryptBlock(ZERO_BLOCK, PingBlock(beaconTime, address));
    r[0] as nat + r[1] as nat * 256
  }

  /** The slot of a device in the window after a beacon, before its first period has passed. */
  function PingOffset(beaconTime: bv64, address: bv32, period: nat): (offset: nat)
    requires period > 0
    ensures offset < period
  {
    PingRandom(beaconTime, address) % period
  }

  lemma PingBlockIs(beaconTime: bv64, address: bv32)
    ensures PingBlock(beaconTime, address) ==
            LittleEndian4((beaconTime & 0xffff_ffff) as bv32) + LittleEndian4(address) + [0, 0, 0, 0, 0, 0, 0, 0]
  {
  }

  /** The offset is made of the first two bytes, the lower one first, of the cipher under the zero key of block b, which
      holds beacon time, address and zeros. */
  predicate FromCipher(b: Block, beaconTime: bv64, address: bv32, period: nat, offset: nat)
    requires period > 0
  {
    hide EncryptBlock, LittleEndian4;
    b[..4] == LittleEndian4((beaconTime & 0xffff_ffff) as bv32) && b[4..8] == LittleEndian4(address) &&
    b[8..] == [0, 0, 0, 0, 0, 0, 0, 0] &&
    var r := EncryptBlock(ZERO_BLOCK, b);
    offset == (r[0] as nat + 256 * r[1] as nat) % period
  }

  lemma PingFromCipher(beaconTime: bv64, address: bv32, period: nat)
    requires period > 0
    ensures FromCipher(PingBlock(beaconTime, address), beaconTime, address, period, PingOffset(beaconTime, address, period))
  {
    hide EncryptBlock, LittleEndian4;
    var b := PingBlock(beaconTime, address);
    assert b[..4] == LittleEndian4((beaconTime & 0xffff_ffff) as bv32) && b[4..8] == LittleEndian4(address);
  }

  /** LoRaMacBeaconComputePingOffset. */
  method ComputePingOffset(beaconTime: bv64, address: bv32, pingPeriod: uint16) returns (pingOffset: uint16, ghost b: Block)
    requires pingPeriod > 0
    ensures pingOffset as nat == PingOffset(beaconTime, address, pingPeriod as nat)
    ensures pingPeriod > 0 && FromCipher(b, beaconTime, address, pingPeriod as nat, pingOffset as nat)
  {
    hide EncryptBlock, LittleEndian4, PingBlock, FromCipher;
    var buffer := new bv8[16](_ => 0);
    var cipher := new bv8[16];
    var time := (beaconTime & 0xffff_ffff) as bv32;
    var end := Write4ByteValue(buffer, 0, time);
    assert buffer[..] == LittleEndian4(time) + [0, 0, 0, 0, 0, 0, 0, 0, 0, 0, 0, 0];
    end := Write4ByteValue(buffer, 4, address);
    assert buffer[..] == LittleEndian4(time) + LittleEndian4(address) + [0, 0, 0, 0, 0, 0, 0, 0];
    PingBlockIs(beaconTime, address);
    b := PingBlock(beaconTime, address);
    PingFromCipher(beaconTime, address, pingPeriod as nat);
    var aesContext := new AesContext();
    var ok := aesContext.SetKey(ZERO_BLOCK, 16);
    aesContext.EncryptKeyed(buffer, cipher, ZERO_BLOCK);
    var result := cipher[0] as nat + cipher[1] as nat * 256;
    pingOffset := (result % pingPeriod as nat) as uint16;
  }

  // ---- The periods a device can ask for: PingSlotInfoReq ----

  /** The powers 1 << p the code divides by. */
  lemma PowersUpTo7(p: nat)
    requires p <= 7
    ensures PowerOfTwo(p) == [1, 2, 4, 8, 16, 32, 64, 128][p]
  {
    assert PowerOfTwo(0) == 1 && PowerOfTwo(2) == 4 && PowerOfTwo(4) == 16 && PowerOfTwo(6) == 64;
  }

  /** The period sNS.c computes from the periodicity bits: 4096 divided by 128 divided by 2^p. */
  function PingPeriod(periodicity: nat): (period: nat)
    requires periodicity <= 7
    ensures 32 <= period <= 4096
  {
    PowersUpTo7(periodicity);
    4096 / (128 / PowerOfTwo(periodicity))
  }

  lemma PingPeriodIs(p: nat)
    requires p <= 7
    ensures PingPeriod(p) == 32 * PowerOfTwo(p) && 32 <= PingPeriod(p) <= 4096 && 4096 % PingPeriod(p) == 0
  {
    hide PowerOfTwo;
    PowersUpTo7(p);
    assert PingPeriod(p) == [32, 64, 128, 256, 512, 1024, 2048, 4096][p];
  }

  // ---- The slot choice of fNS_downlink ----

  /** The slots of the device with this offset: congruent to it modulo the period. */
  predicate OwnSlot(slot: int, offset: nat, period: nat)
    requires offset < period
  {
    slot >= 0 && slot % period == offset
  }

  /** An own slot of the current window, far enough ahead of now for the network's latency. */
  predicate Usable(slot: int, offset: nat, period: nat, now: int)
    requires offset < period
  {
    OwnSlot(slot, offset, period) && slot >= now + 5
  }

  datatype SlotChoice = Failed | Deferred(slot: uint16) | Send(slot: uint16)

  /** The loop that moves from the offset to the next slot five slots away, and the decision whether that
      slot still lies before the next beacon. The slot is a uint16 as in the source: Dafny checks that it
      does not wrap. */
  method ChooseSlot(offset: uint16, period: uint16, now: int16) returns (choice: SlotChoice)
    requires period <= BEACON_WINDOW_SLOTS && (period > 0 ==> offset < period)
    ensures choice.Failed? <==> period == 0
    ensures period > 0 ==> LeastUsable(choice.slot as int, offset as nat, period as nat, now as int)
    ensures period > 0 ==>
              (choice.Deferred? <==> NoneLeft(offset as nat, period as nat, now as int))
    ensures period > 0 ==> choice.slot as int * 30000 < 0x1_0000_0000
  {
    if period == 0 {
      return Failed;
    }
    var slot := offset;
    ghost var k: nat := 0;
    while (slot as int) < now as int + 5
      invariant slot as int == offset as int + k * period as int
      invariant k == 0 || slot as int - (period as int) < now as int + 5
      decreases now as int + 5 - slot as int
    {
      slot := slot + period;
      k := k + 1;
    }
    StepsReachLeast(offset as nat, period as nat, k, now as int);
    choice := if slot >= BEACON_WINDOW_SLOTS then Deferred(slot) else Send(slot);
  }

  /** No usable slot remains before the next beacon. */
  ghost predicate NoneLeft(offset: nat, period: nat, now: int)
    requires offset < period
  {
    forall s: int :: Usable(s, offset, period, now) ==> s >= BEACON_WINDOW_SLOTS as int
  }

  ghost predicate LeastUsable(slot: int, offset: nat, period: nat, now: int)
    requires offset < period
  {
    Usable(slot, offset, period, now) && forall s: int :: Usable(s, offset, period, now) ==> slot <= s
  }

  lemma QuotientUnique(x: int, period: nat, q: int, r: int)
    requires period > 0 && x == period * q + r && 0 <= r < period
    ensures x / period == q && x % period == r
  {
    var d := x / period - q;
    assert period * d == r - x % period;
    assert d >= 1 ==> period * d >= period;
    assert d <= -1 ==> period * d <= 0 - period;
  }

  lemma MultiplesAreOrdered(period: nat, q: int, k: int)
    requires q <= k
    ensures period * q <= period * k
  {
  }

  /** Stepping from the offset by whole periods meets every own slot, so the first one past the bound is the least. */
  lemma StepsReachLeast(offset: nat, period: nat, k: nat, now: int)
    requires offset < period
    requires offset + k * period >= now + 5
    requires k == 0 || offset + k * period - period < now + 5
    ensures LeastUsable(offset + k * period, offset, period, now)
  {
    QuotientUnique(offset + k * period, period, k, offset);
    forall s: int | Usable(s, offset, period, now)
      ensures offset + k * period <= s
    {
      NotBefore(s, offset, period, k, now);
    }
  }

  lemma NotBefore(s: int, offset: nat, period: nat, k: nat, now: int)
    requires offset < period && Usable(s, offset, period, now)
    requires k == 0 || offset + k * period - period < now + 5
    ensures offset + k * period <= s
  {
    var q := s / period;
    assert s == period * q + offset && q >= 0;
    if q < k {
      MultiplesAreOrdered(period, q, k - 1);
    } else {
      MultiplesAreOrdered(period, k, q);
    }
  }

  /** fNS_beacon_service sends a deferred frame at the offset of the next window: an own slot inside it. */
  lemma DeferredSlotIsOwn(beaconTime: bv64, address: bv32, p: nat)
    requires p <= 7
    ensures PingPeriod(p) > 0
    ensures var offset := PingOffset(beaconTime, address, PingPeriod(p));
            OwnSlot(offset, offset, PingPeriod(p)) && offset < BEACON_WINDOW_SLOTS as nat
  {
    PingPeriodIs(p);
    var offset := PingOffset(beaconTime, address, PingPeriod(p));
    QuotientUnique(offset, PingPeriod(p), 0, offset);
  }
}
