/** The join-accept of join_server/main.c: assembled, authenticated, and ciphered with the inverse cipher, so that a
    device needs the forward cipher only. */
module JoinAccept {
  import opened Fips197
  import opened Aes
  import opened Rfc4493
  import opened Cmac
  import opened PayloadCipher
  import opened SessionKeys
  import opened Basics

  const JOIN_ACC: bv8 := 0x20        // MTYPE_JOIN_ACC << 5
  const JOIN_REQ_TYPE: bv8 := 0xff   // stands for a join request; a rejoin request has its own type
  const FIELDS := 12
  const CFLIST := 16
  const MIC := 4
  const BUFFER := 256

  /** What the join-accept tells the device; joinNonce and netId are 24-bit fields. */
  datatype Accept = Accept(joinNonce: bv32, netId: bv32, devAddr: bv32, dlSettings: bv8, rxDelay: bv8, cfList: seq<bv8>)

  /** The request answered, and the keys stored for its device. */
  datatype Request = Request(optNeg: bool, joinReqType: bv8, joinEui: Eui, devNonce: bv32, nwkKey: Key, jsIntKey: Key, jsEncKey: Key)

  predicate AcceptOk(a: Accept) {
    a.joinNonce < 0x100_0000 && a.netId < 0x100_0000 && |a.cfList| <= CFLIST
  }

  /** Bit 7 of DLSettings says 1.1. */
  function DlSettings(optNeg: bool, requested: bv8): bv8 {
    if optNeg then requested | 0x80 else requested & 0x7f
  }

  function Fields(a: Accept): (f: seq<bv8>)
    ensures |f| == FIELDS
  {
    LittleEndian3(a.joinNonce) + LittleEndian3(a.netId) + LittleEndian4(a.devAddr) + [a.dlSettings, a.rxDelay]
  }

  function Message(a: Accept): (m: seq<bv8>)
    ensures |m| == 1 + FIELDS + |a.cfList|
  {
    [JOIN_ACC] + Fields(a) + a.cfList
  }

  /** What the integrity code covers: in 1.1 the request's type, JoinEUI and nonce as well. */
  function Authenticated(q: Request, message: seq<bv8>): seq<bv8> {
    if q.optNeg then [q.joinReqType] + q.joinEui + LittleEndian2(q.devNonce) + message else message
  }

  function MicKey(q: Request): Key {
    if q.optNeg then q.jsIntKey else q.nwkKey
  }

  function CipherKey(q: Request): Key {
    if q.optNeg && q.joinReqType != JOIN_REQ_TYPE then q.jsEncKey else q.nwkKey
  }

  function MicOf(q: Request, message: seq<bv8>): (mic: seq<bv8>)
    ensures |mic| == MIC
  {
    Rfc4493.Cmac(MicKey(q), Authenticated(q, message))[..MIC]
  }

  function Plain(q: Request, a: Accept): (p: seq<bv8>)
    ensures |p| == FIELDS + |a.cfList| + MIC
  {
    Message(a)[1..] + MicOf(q, Message(a))
  }

  // ---- CryptJoinServer ----

  /** The deciphered block at an offset. */
  function Deciphered(key: Key, input: seq<bv8>, ofs: nat): Block
    requires ofs + 16 <= |input|
  {
    DecryptBlock(key, input[ofs..ofs + 16])
  }

  /** CryptJoinServer: the second block whenever the length reaches sixteen. */
  method CryptJoinServer(key: Key, input: array<bv8>, inOfs: nat, length: nat, output: array<bv8>, outOfs: nat)
    requires inOfs + 32 <= input.Length && outOfs + 32 <= output.Length && input != output
    modifies output
    ensures var first := old(output[..outOfs]) + Deciphered(key, input[..], inOfs);
            output[..] == if length >= 16 then first + Deciphered(key, input[..], inOfs + 16) + old(output[outOfs + 32..])
                          else first + old(output[outOfs + 16..])
  {
    hide DecryptBlock;
    var aesContext := new AesContext();
    var ok := aesContext.SetKey(key, 16);
    aesContext.DecryptKeyed(input, inOfs, output, outOfs, key);
    assert input[..][inOfs..inOfs + 16] == input[inOfs..inOfs + 16];
    if length >= 16 {
      aesContext.DecryptKeyed(input, inOfs + 16, output, outOfs + 16, key);
      assert input[..][inOfs + 16..inOfs + 32] == input[inOfs + 16..inOfs + 32];
    }
  }

  // ---- The device's side ----

  /** What goes on the air: the second block is filled up with whatever stands behind the plain text, and cut after it. */
  function Transmission(q: Request, a: Accept, slack: seq<bv8>): (tx: seq<bv8>)
    requires |a.cfList| + |slack| == CFLIST
    ensures |tx| == 1 + |Plain(q, a)|
  {
    hide Plain, Deciphered, CipherKey;
    var p := Plain(q, a);
    [JOIN_ACC] + Deciphered(CipherKey(q), p, 0) + Deciphered(CipherKey(q), p + slack, 16)[..|a.cfList|]
  }

  /** The device encrypts the blocks behind the first byte. */
  function Recover(key: Key, tx: seq<bv8>): Option<seq<bv8>> {
    if |tx| == 17 then Some(EncryptBlock(key, tx[1..17]))
    else if |tx| == 33 then Some(EncryptBlock(key, tx[1..17]) + EncryptBlock(key, tx[17..33]))
    else None
  }

  function Parse(fields: seq<bv8>): Accept
    requires |fields| >= FIELDS
  {
    Accept(Load3(fields[..3]), Load3(fields[3..6]), Load4(fields[6..10]), fields[10], fields[11], fields[FIELDS..])
  }

  /** The device takes an answer whose integrity code it computes as well. */
  function DeviceTakes(q: Request, tx: seq<bv8>): Option<Accept> {
    match Recover(CipherKey(q), tx)
    case None => None
    case Some(plain) =>
      var n := |plain| - MIC;
      if MicOf(q, [tx[0]] + plain[..n]) == plain[n..] then Some(Parse(plain[..n])) else None
  }

  lemma ParseOfFields(a: Accept)
    requires AcceptOk(a)
    ensures Parse(Fields(a) + a.cfList) == a
  {
    hide LittleEndian3, LittleEndian4, Load3, Load4;
    var f := Fields(a) + a.cfList;
    assert f[..3] == LittleEndian3(a.joinNonce) && f[3..6] == LittleEndian3(a.netId) && f[6..10] == LittleEndian4(a.devAddr);
    assert f[FIELDS..] == a.cfList;
    Load3OfLittleEndian3(a.joinNonce);
    Load3OfLittleEndian3(a.netId);
    Load4OfLittleEndian4(a.devAddr);
  }

  /** The forward cipher undoes the ciphering of whole blocks. */
  lemma RecoverOfTransmission(q: Request, a: Accept, slack: seq<bv8>)
    requires |a.cfList| + |slack| == CFLIST && (|a.cfList| == 0 || |a.cfList| == CFLIST)
    ensures Recover(CipherKey(q), Transmission(q, a, slack)) == Some(Plain(q, a))
  {
    hide EncryptBlock, DecryptBlock, Message, MicOf, CipherKey;
    var key, p, tx := CipherKey(q), Plain(q, a), Transmission(q, a, slack);
    assert tx[1..17] == DecryptBlock(key, p[..16]) by {
      assert p[0..16] == p[..16];
    }
    BlockBijection(key, p[..16]);
    if |a.cfList| == 0 {
      assert p[..16] == p;
    } else {
      assert p + slack == p;
      assert tx[17..33] == DecryptBlock(key, p[16..32]);
      BlockBijection(key, p[16..32]);
      assert p[..16] + p[16..32] == p;
    }
  }

  /** A join-accept of whole blocks round-trips: the device recovers every field and finds the integrity code right,
      in 1.0 and in 1.1, after a join and after a rejoin. */
  lemma JoinAcceptRoundTrip(q: Request, a: Accept, slack: seq<bv8>)
    requires AcceptOk(a) && |a.cfList| + |slack| == CFLIST && (|a.cfList| == 0 || |a.cfList| == CFLIST)
    ensures DeviceTakes(q, Transmission(q, a, slack)) == Some(a)
  {
    hide MicOf, Transmission, Recover, Parse, CipherKey, Fields;
    var p, n := Plain(q, a), FIELDS + |a.cfList|;
    RecoverOfTransmission(q, a, slack);
    FirstByte(q, a, slack);
    assert Message(a)[1..] == Fields(a) + a.cfList;
    assert p[..n] == Fields(a) + a.cfList && p[n..] == MicOf(q, Message(a));
    assert [JOIN_ACC] + p[..n] == Message(a);
    ParseOfFields(a);
  }

  lemma FirstByte(q: Request, a: Accept, slack: seq<bv8>)
    requires |a.cfList| + |slack| == CFLIST
    ensures Transmission(q, a, slack)[0] == JOIN_ACC
  {
    hide Deciphered, Plain, CipherKey;
  }

  /** Of the answers parse_rf_join_req lets through the device takes exactly those with a CFList of 0 or 16 bytes: the
      others are no whole blocks. */
  lemma DeviceTakesIff(q: Request, a: Accept, slack: seq<bv8>)
    requires AcceptOk(a) && |a.cfList| + |slack| == CFLIST
    ensures DeviceTakes(q, Transmission(q, a, slack)) == Some(a) <==> |a.cfList| == 0 || |a.cfList| == CFLIST
  {
    hide Transmission, MicOf, Parse, CipherKey, EncryptBlock;
    if |a.cfList| == 0 || |a.cfList| == CFLIST {
      JoinAcceptRoundTrip(q, a, slack);
    }
  }

  // ---- Three devices, each with the keys LoRaWAN 1.1 sections 6.2.3 and 6.2.4 name ----

  /** The fields of a recovered plain text whose code was made with a key over the bytes in front of it and these before. */
  function Checked(micKey: Key, before: seq<bv8>, tx: seq<bv8>, recovered: Option<seq<bv8>>, newVersion: bool): Option<Accept> {
    match recovered
    case None => None
    case Some(plain) =>
      var n := |plain| - 4;
      if n >= 12 && tx != [] && tx[0] == 0x20 && (plain[10] & 0x80 != 0) == newVersion &&
         Rfc4493.Cmac(micKey, before + ([tx[0]] + plain[..n]))[..4] == plain[n..]
      then Some(Parse(plain[..n])) else None
  }

  /** A 1.0 device has NwkKey only. */
  function OldDeviceTakes(nwkKey: Key, tx: seq<bv8>): Option<Accept> {
    Checked(nwkKey, [], tx, Recover(nwkKey, tx), false)
  }

  /** A 1.1 device that joined deciphers with NwkKey and checks with JSIntKey. */
  function JoiningDeviceTakes(nwkKey: Key, jsIntKey: Key, joinEui: Eui, devNonce: bv32, tx: seq<bv8>): Option<Accept> {
    Checked(jsIntKey, [0xff] + joinEui + LittleEndian2(devNonce), tx, Recover(nwkKey, tx), true)
  }

  /** A 1.1 device that rejoined deciphers with JSEncKey. */
  function RejoiningDeviceTakes(jsEncKey: Key, jsIntKey: Key, rejoinType: bv8, joinEui: Eui, count: bv32, tx: seq<bv8>): Option<Accept> {
    Checked(jsIntKey, [rejoinType] + joinEui + LittleEndian2(count), tx, Recover(jsEncKey, tx), true)
  }

  /** The answer is for the device in question. */
  function AddressedTakes(q: Request, tx: seq<bv8>): Option<Accept> {
    if !q.optNeg then OldDeviceTakes(q.nwkKey, tx)
    else if q.joinReqType == 0xff then JoiningDeviceTakes(q.nwkKey, q.jsIntKey, q.joinEui, q.devNonce, tx)
    else RejoiningDeviceTakes(q.jsEncKey, q.jsIntKey, q.joinReqType, q.joinEui, q.devNonce, tx)
  }

  /** Of the answers with the version bit of their version, each of these devices takes what it should. */
  lemma AddressedTakesIff(q: Request, requested: bv8, a: Accept, slack: seq<bv8>)
    requires AcceptOk(a) && |a.cfList| + |slack| == CFLIST && VersionTold(q.optNeg, requested, a.dlSettings)
    ensures AddressedTakes(q, Transmission(q, a, slack)) == Some(a) <==> |a.cfList| == 0 || |a.cfList| == 16
  {
    hide Transmission, Rfc4493.Cmac, Parse, Recover, Fields, LittleEndian2;
    var tx := Transmission(q, a, slack);
    if |a.cfList| == 0 || |a.cfList| == 16 {
      var p, n := Plain(q, a), FIELDS + |a.cfList|;
      RecoverOfTransmission(q, a, slack);
      FirstByte(q, a, slack);
      assert p[..n] == Fields(a) + a.cfList && p[n..] == MicOf(q, Message(a));
      assert [JOIN_ACC] + p[..n] == Message(a);
      assert [] + ([JOIN_ACC] + p[..n]) == Message(a);
      VersionByte(a);
      assert p[10] == p[..n][10];
      ParseOfFields(a);
    } else {
      NothingRecovered(q, a, slack);
    }
  }

  lemma EachTakesIff(q: Request, a: Accept, tx: seq<bv8>)
    requires AddressedTakes(q, tx) == Some(a) <==> |a.cfList| == 0 || |a.cfList| == 16
    ensures TakenRightly(q, a, tx)
  {
    hide OldDeviceTakes, JoiningDeviceTakes, RejoiningDeviceTakes;
  }

  /** The device of the request's version and kind takes the answer exactly if it is of whole blocks. */
  predicate TakenRightly(q: Request, a: Accept, tx: seq<bv8>) {
    var whole := |a.cfList| == 0 || |a.cfList| == 16;
    (!q.optNeg ==> (OldDeviceTakes(q.nwkKey, tx) == Some(a) <==> whole)) &&
    (q.optNeg && q.joinReqType == 0xff ==> (JoiningDeviceTakes(q.nwkKey, q.jsIntKey, q.joinEui, q.devNonce, tx) == Some(a) <==> whole)) &&
    (q.optNeg && q.joinReqType != 0xff ==>
       (RejoiningDeviceTakes(q.jsEncKey, q.jsIntKey, q.joinReqType, q.joinEui, q.devNonce, tx) == Some(a) <==> whole))
  }

  lemma VersionByte(a: Accept)
    ensures Fields(a)[10] == a.dlSettings
  {
    hide LittleEndian3, LittleEndian4;
  }

  lemma NothingRecovered(q: Request, a: Accept, slack: seq<bv8>)
    requires |a.cfList| + |slack| == CFLIST && 0 < |a.cfList| < 16
    ensures forall key :: Recover(key, Transmission(q, a, slack)) == None
  {
    hide Transmission, EncryptBlock;
  }

  // ---- Assembly ----

  /** LoRa_GenerateJoinFrameIntegrityCode. */
  method JoinFrameIntegrityCode(key: Key, input: seq<bv8>) returns (mic: seq<bv8>)
    ensures mic == Rfc4493.Cmac(key, input)[..MIC]
  {
    hide Rfc4493.Cmac;
    var digest := MacOfChunks(key, [input]);
    assert [input][..0] == [] && [] + input == input;
    mic := digest[..MIC];
  }

  method Put(buf: array<bv8>, at: nat, data: seq<bv8>) returns (end: nat)
    requires at + |data| <= buf.Length
    modifies buf
    ensures end == at + |data| && buf[..end] == old(buf[..at]) + data
  {
    forall j | 0 <= j < |data| {
      buf[at + j] := data[j];
    }
    end := at + |data|;
  }

  /** The fields of ja, the CFList and the integrity code, through the moving pointer. */
  method Assemble(q: Request, a: Accept, uncyphered: array<bv8>) returns (unptr: nat)
    requires uncyphered.Length == BUFFER && |a.cfList| <= CFLIST
    modifies uncyphered
    ensures unptr == 1 + |Plain(q, a)| && uncyphered[..unptr] == [JOIN_ACC] + Plain(q, a)
  {
    hide LittleEndian3, LittleEndian4, LittleEndian2, MicOf, Authenticated;
    uncyphered[0] := JOIN_ACC;
    assert uncyphered[..1] == [JOIN_ACC];
    unptr := Put(uncyphered, 1, Fields(a));
    unptr := Put(uncyphered, unptr, a.cfList);
    assert uncyphered[..unptr] == Message(a);
    var mic := MicFor(q, uncyphered[..unptr]);
    unptr := Put(uncyphered, unptr, mic);
    assert [JOIN_ACC] + Message(a)[1..] == Message(a);
  }

  /** The 1.1 code is taken over a second buffer that starts with the request. */
  method MicFor(q: Request, message: seq<bv8>) returns (mic: seq<bv8>)
    ensures mic == MicOf(q, message)
  {
    hide Rfc4493.Cmac;
    if q.optNeg {
      var buf := [q.joinReqType] + q.joinEui + LittleEndian2(q.devNonce) + message;
      mic := JoinFrameIntegrityCode(q.jsIntKey, buf);
    } else {
      mic := JoinFrameIntegrityCode(q.nwkKey, message);
    }
  }

  /** The answer is assembled, and deciphered block by block behind its first byte. */
  method Encipher(q: Request, a: Accept) returns (tx: seq<bv8>, ghost slack: seq<bv8>)
    requires |a.cfList| <= CFLIST
    ensures |a.cfList| + |slack| == CFLIST && tx == Transmission(q, a, slack)
  {
    hide Plain, Deciphered;
    var uncyphered, txBuf := new bv8[BUFFER], new bv8[BUFFER];
    var unptr := Assemble(q, a, uncyphered);
    slack := uncyphered[unptr..33];
    txBuf[0] := JOIN_ACC;
    assert txBuf[..1] == [JOIN_ACC];
    CryptJoinServer(CipherKey(q), uncyphered, 1, unptr - 1, txBuf, 1);
    DecipheredIn(CipherKey(q), uncyphered[..], Plain(q, a), slack);
    tx := txBuf[..unptr];
  }

  /** The join-accept half of parse_rf_join_req: a CFList over sixteen bytes is refused, any other answer is assembled,
      ciphered and cut to its length. Bit 7 of DLSettings tells the version, and the device the answer is for, with the
      keys of its version and request, takes it exactly if its CFList has 0 or 16 bytes. */
  method BuildJoinAccept(q: Request, requested: Accept) returns (tx: Option<seq<bv8>>, ghost a: Accept, ghost slack: seq<bv8>)
    ensures tx.None? <==> |requested.cfList| > CFLIST
    ensures a == requested.(dlSettings := a.dlSettings) && VersionTold(q.optNeg, requested.dlSettings, a.dlSettings)
    ensures tx.Some? ==> |a.cfList| + |slack| == CFLIST && tx.value == Transmission(q, a, slack)
    ensures tx.Some? && AcceptOk(requested) ==> TakenRightly(q, a, tx.value)
  {
    hide TakenRightly, AddressedTakes, Transmission, DlSettings, VersionTold;
    a := requested.(dlSettings := DlSettings(q.optNeg, requested.dlSettings));
    VersionIsTold(q.optNeg, requested.dlSettings);
    if |requested.cfList| > CFLIST {
      return None, a, [];
    }
    var bytes;
    bytes, slack := Encipher(q, requested.(dlSettings := DlSettings(q.optNeg, requested.dlSettings)));
    tx := Some(bytes);
    if AcceptOk(requested) {
      AddressedTakesIff(q, requested.dlSettings, a, slack);
      EachTakesIff(q, a, bytes);
    }
  }

  /** Bit 7 of DLSettings tells the version, the others are as requested. */
  predicate VersionTold(optNeg: bool, requested: bv8, told: bv8) {
    told & 0x7f == requested & 0x7f && (told & 0x80 != 0) == optNeg
  }

  lemma VersionIsTold(optNeg: bool, requested: bv8)
    ensures VersionTold(optNeg, requested, DlSettings(optNeg, requested))
  {
  }

  lemma DecipheredIn(key: Key, buffer: seq<bv8>, plain: seq<bv8>, slack: seq<bv8>)
    requires 16 <= |plain| && |plain| + |slack| == 32 && |buffer| >= 33
    requires buffer[..1 + |plain|] == [JOIN_ACC] + plain && buffer[1 + |plain|..33] == slack
    ensures Deciphered(key, buffer, 1) == Deciphered(key, plain, 0)
    ensures Deciphered(key, buffer, 17) == Deciphered(key, plain + slack, 16)
  {
    hide DecryptBlock;
    assert buffer[1..17] == buffer[..1 + |plain|][1..17] == plain[0..16];
    assert buffer[..33] == buffer[..1 + |plain|] + buffer[1 + |plain|..33];
    assert buffer[17..33] == buffer[..33][17..] == (plain + slack)[16..32];
  }
}
