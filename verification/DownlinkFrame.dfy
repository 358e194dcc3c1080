/** The bytes of a downlink data frame: get_queued_mac_cmds and the assembly half of sNS_schedule_downlink in
    network_server/sNS.c, read back with the offsets sNS_uplink uses. */
module DownlinkFrame {
  import opened Fips197
  import opened Rfc4493
  import opened PayloadCipher
  import opened MacQueue
  import opened Basics
  import opened DataFrame

  datatype Body = Body(port: bv8, data: seq<bv8>)

  /** A frame without its integrity code; fopts are the bytes as transmitted. */
  datatype Frame = Frame(mhdr: bv8, address: bv32, ack: bool, fopts: seq<bv8>, counter: uint32, body: Option<Body>)

  predicate FrameOk(f: Frame) {
    |f.fopts| <= MAX_FOPTS && |Message(f)| + MIC_BYTES < PHY_SIZE
  }

  function FCtrl(n: nat, ack: bool): bv8
    requires n <= MAX_FOPTS
  {
    n as bv8 | (if ack then 0x20 else 0)
  }

  function HeadBytes(mhdr: bv8, address: bv32, control: bv8, counter: bv32): (h: seq<bv8>)
    ensures |h| == MAC_HEADER
  {
    [mhdr] + LittleEndian4(address) + [control] + LittleEndian2(counter)
  }

  function Head(f: Frame): (h: seq<bv8>)
    requires |f.fopts| <= MAX_FOPTS
    ensures |h| == MAC_HEADER
  {
    HeadBytes(f.mhdr, f.address, FCtrl(|f.fopts|, f.ack), BitsOf(f.counter as nat))
  }

  function BodyBytes(body: Option<Body>): seq<bv8> {
    if body.Some? then [body.value.port] + body.value.data else []
  }

  function Message(f: Frame): (m: seq<bv8>)
    requires |f.fopts| <= MAX_FOPTS
    ensures |m| == MAC_HEADER + |f.fopts| + |BodyBytes(f.body)|
  {
    Head(f) + f.fopts + BodyBytes(f.body)
  }

  function DownBlock(f: Frame, confFCnt: bv32): Block
    requires FrameOk(f)
  {
    AuthBlock(confFCnt, 0, 0, true, f.address, BitsOf(f.counter as nat), |Message(f)| as bv8)
  }

  /** The whole transmission. */
  function Encode(f: Frame, confFCnt: bv32, key: Key): seq<bv8>
    requires FrameOk(f)
  {
    Message(f) + CmacOf(key, DownBlock(f, confFCnt), Message(f))[..MIC_BYTES]
  }

  // ---- Reading back ----

  datatype Parsed = Parsed(mhdr: bv8, address: bv32, ack: bool, fopts: seq<bv8>, counterLow: bv32, body: Option<Body>)

  /** The offsets of sNS_uplink: FOptsLen from the low nibble of FCtrl, a port when bytes remain before the code. */
  function ReadBack(phy: seq<bv8>): Option<Parsed> {
    if |phy| < MAC_HEADER + MIC_BYTES then None else
    var rxofs := MAC_HEADER + (phy[5] & 0x0f) as nat;
    var end := |phy| - MIC_BYTES;
    if rxofs > end then None else
    Some(Parsed(phy[0], Load4(phy[1..5]), phy[5] & 0x20 != 0, phy[MAC_HEADER..rxofs], Load2(phy[6..8]), BodyOf(phy[rxofs..end])))
  }

  function BodyOf(rest: seq<bv8>): Option<Body> {
    if rest == [] then None else Some(Body(rest[0], rest[1..]))
  }

  lemma FCtrlFields(n: nat, ack: bool)
    requires n <= MAX_FOPTS
    ensures (FCtrl(n, ack) & 0x0f) as nat == n && (FCtrl(n, ack) & 0x20 != 0 <==> ack)
  {
  }

  /** Where the parts of a message stand in the transmission. */
  lemma PartsOfMessage(f: Frame, phy: seq<bv8>)
    requires |f.fopts| <= MAX_FOPTS && Message(f) <= phy
    ensures phy[..MAC_HEADER] == Head(f) && phy[MAC_HEADER..MAC_HEADER + |f.fopts|] == f.fopts
    ensures phy[MAC_HEADER + |f.fopts|..|Message(f)|] == BodyBytes(f.body)
  {
    hide Head, BodyBytes;
    var message := Message(f);
    assert phy[..|message|] == message;
    assert phy[..MAC_HEADER] == message[..MAC_HEADER];
    assert phy[MAC_HEADER..MAC_HEADER + |f.fopts|] == message[MAC_HEADER..MAC_HEADER + |f.fopts|];
    assert phy[MAC_HEADER + |f.fopts|..|message|] == message[MAC_HEADER + |f.fopts|..];
  }

  lemma PartsOfHead(f: Frame, phy: seq<bv8>)
    requires |f.fopts| <= MAX_FOPTS && |phy| >= MAC_HEADER && phy[..MAC_HEADER] == Head(f)
    ensures phy[0] == f.mhdr && phy[1..5] == LittleEndian4(f.address) && phy[5] == FCtrl(|f.fopts|, f.ack)
    ensures phy[6..8] == LittleEndian2(BitsOf(f.counter as nat))
  {
    hide LittleEndian4, LittleEndian2, FCtrl, BitsOf;
    var h := Head(f);
    assert phy[0] == phy[..MAC_HEADER][0] && phy[5] == phy[..MAC_HEADER][5];
    assert phy[1..5] == h[1..5] && phy[6..8] == h[6..8];
  }

  lemma BodyReadBack(body: Option<Body>)
    ensures BodyOf(BodyBytes(body)) == body
  {
  }

  /** The parser's view of a frame's transmission is the frame: nothing of the buffer's slack is left in it. */
  lemma ReadBackOfEncode(f: Frame, confFCnt: bv32, key: Key)
    requires FrameOk(f)
    ensures ReadBack(Encode(f, confFCnt, key)) ==
            Some(Parsed(f.mhdr, f.address, f.ack, f.fopts, BitsOf(f.counter as nat) & 0xffff, f.body))
  {
    hide CmacOf, DownBlock, LittleEndian4, LittleEndian2, Load4, Load2, FCtrl, BitsOf, Head, BodyBytes, BodyOf, Message;
    var phy := Encode(f, confFCnt, key);
    PartsOfMessage(f, phy);
    PartsOfHead(f, phy);
    Load4OfLittleEndian4(f.address);
    Load2OfLittleEndian2(BitsOf(f.counter as nat));
    FCtrlFields(|f.fopts|, f.ack);
    BodyReadBack(f.body);
  }

  /** The same for a receiver that puts its own block in front: direction down, the full counter, the message's length. */
  lemma EncodedCodeIs(f: Frame, confFCnt: bv32, key: Key, b: Block)
    requires FrameOk(f) && IsBlock(b, confFCnt, 0, 0, true, f.address, BitsOf(f.counter as nat), |Message(f)| as bv8)
    ensures var phy := Encode(f, confFCnt, key);
            |phy| >= 4 && Rfc4493.Cmac(key, b + phy[..|phy| - 4])[..4] == phy[|phy| - 4..]
  {
    hide Rfc4493.Cmac, AuthBlock, IsBlock, Message;
    BytesMakeAuthBlock(b, confFCnt, 0, 0, true, f.address, BitsOf(f.counter as nat), |Message(f)| as bv8);
    var phy := Encode(f, confFCnt, key);
    assert phy[..|phy| - 4] == Message(f) && phy[|phy| - 4..] == Rfc4493.Cmac(key, b + Message(f))[..4];
  }

  /** The code in a transmission is the one the receiver computes over the bytes before it. */
  lemma EncodedMicPasses(f: Frame, confFCnt: bv32, key: Key)
    requires FrameOk(f)
    ensures PassesMic(DownBlock(f, confFCnt), key, Encode(f, confFCnt, key), |Message(f)|)
  {
    hide CmacOf, DownBlock, Message;
    MicIsFourCmacBytes(DownBlock(f, confFCnt), key, Message(f), CmacOf(key, DownBlock(f, confFCnt), Message(f))[..MIC_BYTES]);
  }

  /** The 8-bit arithmetic of PHYPayloadLen for n bytes of FOpts and m bytes of FRMPayload. */
  function PhyLength(n: nat, m: nat): nat {
    ((m + 1) % 256 + MAC_HEADER + n + MIC_BYTES) % 256
  }

  /** The 8-bit length is the transmission's length exactly when that is at most 255. */
  lemma PhyLengthIsExactIff(n: nat, m: nat)
    ensures PhyLength(n, m) == MAC_HEADER + n + 1 + m + MIC_BYTES <==> MAC_HEADER + n + 1 + m + MIC_BYTES <= 255
  {
    if MAC_HEADER + n + 1 + m + MIC_BYTES <= 255 {
      assert (m + 1) % 256 == m + 1;
    }
  }

  // ---- Assembly in PHYPayloadBin ----

  /** What a queue's bytes look like in FOpts: encrypted from block 0 in 1.1, plain in 1.0. */
  function FOptsOf(encrypted: bool, c: Context, cmds: seq<bv8>): (r: seq<bv8>)
    requires |cmds| <= MAX_FOPTS
    ensures |r| == |cmds|
  {
    if encrypted then Crypt(c, 0, cmds) else cmds
  }

  /** The encrypting half of get_queued_mac_cmds. Sixteen bytes too many are read from behind buf and written behind FOpts. */
  method EncryptFOpts(phy: array<bv8>, buf: array<bv8>, n: nat, c: Context)
    requires phy.Length == PHY_SIZE && buf.Length == MAX_FOPTS + 1 && 0 < n <= MAX_FOPTS && phy != buf
    modifies phy
    ensures phy[..MAC_HEADER + n] == old(phy[..MAC_HEADER]) + Crypt(c, 0, buf[..n])
  {
    hide Crypt;
    var stack := new bv8[2 * MAX_FOPTS + 1];
    forall j | 0 <= j < buf.Length {
      stack[j] := buf[j];
    }
    LoRaEncrypt(0, c, stack, 0, n as uint16, phy, MAC_HEADER);
    CryptPrefix(c, 0, stack[0..16 + n], n);
    assert stack[0..16 + n][..n] == buf[..n];
  }

  method CopyAt(phy: array<bv8>, at: nat, data: seq<bv8>)
    requires at + |data| <= phy.Length
    modifies phy
    ensures phy[..] == old(phy[..at]) + data + old(phy[at + |data|..])
  {
    forall j | 0 <= j < |data| {
      phy[at + j] := data[j];
    }
  }

  /** The copying half. */
  method CopyInto(phy: array<bv8>, at: nat, data: seq<bv8>)
    requires at + |data| <= phy.Length
    modifies phy
    ensures phy[..at + |data|] == old(phy[..at]) + data
  {
    var j := 0;
    while j < |data|
      invariant 0 <= j <= |data|
      invariant phy[..at + j] == old(phy[..at]) + data[..j]
    {
      phy[at + j] := data[j];
      j := j + 1;
    }
  }

  /** get_queued_mac_cmds: the queue's longest fitting prefix becomes FOpts, and FCtrl its length. */
  method GetQueuedMacCmds(queue: CommandQueue, phy: array<bv8>, encrypted: bool, c: Context) returns (n: nat)
    requires queue.Valid() && phy.Length == PHY_SIZE
    modifies phy, queue.slots
    ensures queue.Valid()
    ensures var list := old(queue.Live());
            var sent := list[..Fitting(list, MAX_FOPTS)];
            n <= MAX_FOPTS && n == |Bytes(sent)| && queue.Live() == Answerable(sent) + list[|sent|..] &&
            phy[..MAC_HEADER + n] == old(phy[..5]) + [n as bv8] + old(phy[6..MAC_HEADER]) + FOptsOf(encrypted, c, Bytes(sent))
  {
    hide Crypt, Bytes, Fitting, Answerable, Zeroed, Windowed, LiveFrom;
    var buf := new bv8[MAX_FOPTS + 1];
    ghost var list := queue.Live();
    ghost var was := phy[..];
    var needAnswer;
    n, needAnswer := queue.Drain(buf);
    ghost var sent := list[..Fitting(list, MAX_FOPTS)];
    phy[5] := n as bv8;
    assert phy[..MAC_HEADER] == was[..5] + [n as bv8] + was[6..MAC_HEADER];
    if n != 0 {
      if encrypted {
        EncryptFOpts(phy, buf, n, c);
      } else {
        CopyInto(phy, MAC_HEADER, buf[..n]);
      }
    }
  }

  /** The bit-field assignment tx_mhdr->bits.MType. */
  function WithMType(mhdr: bv8, mtype: bv8): bv8 {
    (mhdr & 0x1f) | (mtype << 5)
  }

  function MTypeOf(mhdr: bv8): bv8 {
    mhdr >> 5
  }

  lemma MTypeStays(mhdr: bv8, mtype: bv8)
    requires mtype < 8
    ensures MTypeOf(WithMType(mhdr, mtype)) == mtype
  {
  }

  /** The bit-field assignment of FCtrl.dlBits.ACK. */
  function WithAck(control: bv8, ack: bool): bv8 {
    (control & 0xdf) | (if ack then 0x20 else 0)
  }

  lemma AckBit(n: nat, ack: bool)
    requires n <= MAX_FOPTS
    ensures WithAck(n as bv8, ack) == FCtrl(n, ack)
  {
  }

  /** The stores of the header's fields. */
  method PutFields(phy: array<bv8>, address: bv32, ack: bool, counter: bv32)
    requires phy.Length == PHY_SIZE
    modifies phy
    ensures phy[..] == HeadBytes(old(phy[0]), address, WithAck(old(phy[5]), ack), counter) + old(phy[MAC_HEADER..])
  {
    hide LittleEndian4, LittleEndian2, WithAck;
    ghost var was := phy[..];
    CopyAt(phy, 6, LittleEndian2(counter));
    assert phy[..6] == was[..6];
    CopyAt(phy, 1, LittleEndian4(address) + [WithAck(phy[5], ack)]);
  }

  /** FCnt, DevAddr and the ACK bit; the port and the payload behind FOpts were put before. */
  method PutHeader(phy: array<bv8>, f: Frame)
    requires phy.Length == PHY_SIZE && FrameOk(f)
    requires phy[0] == f.mhdr && phy[5] == |f.fopts| as bv8
    requires phy[MAC_HEADER..|Message(f)|] == f.fopts + BodyBytes(f.body)
    modifies phy
    ensures phy[..|Message(f)|] == Message(f)
  {
    hide WithAck, FCtrl, BodyBytes, HeadBytes, Message;
    ghost var tail := phy[MAC_HEADER..];
    assert tail[..|Message(f)| - MAC_HEADER] == phy[MAC_HEADER..|Message(f)|];
    AckBit(|f.fopts|, f.ack);
    PutFields(phy, f.address, f.ack, BitsOf(f.counter as nat));
    MessageSplits(f, tail);
    assert phy[..|Message(f)|] == phy[..][..|Message(f)|];
  }

  lemma MessageSplits(f: Frame, tail: seq<bv8>)
    requires |f.fopts| <= MAX_FOPTS && MAC_HEADER <= |Message(f)| <= MAC_HEADER + |tail|
    requires tail[..|Message(f)| - MAC_HEADER] == f.fopts + BodyBytes(f.body)
    ensures (Head(f) + tail)[..|Message(f)|] == Message(f)
  {
    hide Head, BodyBytes;
    var rest := f.fopts + BodyBytes(f.body);
    assert Message(f) == Head(f) + rest;
    assert (Head(f) + tail)[..MAC_HEADER + |rest|] == Head(f) + tail[..|rest|];
  }

  /** The first byte, and the port and the payload behind FOpts. */
  method PutBody(phy: array<bv8>, n: nat, mhdr: bv8, body: Option<Body>)
    requires phy.Length == PHY_SIZE && MAC_HEADER + n + |BodyBytes(body)| <= PHY_SIZE
    modifies phy
    ensures phy[0] == mhdr && phy[1..MAC_HEADER + n] == old(phy[1..MAC_HEADER + n])
    ensures phy[MAC_HEADER + n..MAC_HEADER + n + |BodyBytes(body)|] == BodyBytes(body)
  {
    if body.Some? {
      CopyAt(phy, MAC_HEADER + n, BodyBytes(body));
    }
    phy[0] := mhdr;
  }

  /** The integrity code goes behind the message. */
  method Seal(phy: array<bv8>, f: Frame, confFCnt: bv32, key: Key) returns (phyLen: nat, ghost b: Block)
    requires phy.Length == PHY_SIZE && FrameOk(f) && phy[..|Message(f)|] == Message(f)
    modifies phy
    ensures phyLen == |Message(f)| + MIC_BYTES && phy[..phyLen] == Encode(f, confFCnt, key)
    ensures IsBlock(b, confFCnt, 0, 0, true, f.address, BitsOf(f.counter as nat), |Message(f)| as bv8)
    ensures phy[..phyLen] == Message(f) + Rfc4493.Cmac(key, b + Message(f))[..4]
  {
    hide Rfc4493.Cmac, AuthBlock, IsBlock, Message;
    var length := |Message(f)|;
    b := DownBlock(f, confFCnt);
    AuthBlockHasBytes(confFCnt, 0, 0, true, f.address, BitsOf(f.counter as nat), |Message(f)| as bv8);
    var mic := DataFrameIntegrityCode(DownBlock(f, confFCnt), key, phy, length);
    CopyInto(phy, length, mic);
    phyLen := length + MIC_BYTES;
  }
}
