/** Session keys: GenerateSessionKey of join_server/main.c, take_JoinAns of network_server/sNS.c, and the version
    inference of getSession in network_server/common.c. */
module SessionKeys {
  import opened Fips197
  import opened Aes
  import opened Rfc4493
  import opened PayloadCipher

  datatype KeyType = FNwkSIntKey | SNwkSIntKey | NwkSEncKey | AppSKey

  type Eui = e: seq<bv8> | |e| == 8 witness [0, 0, 0, 0, 0, 0, 0, 0]

  /** What a session key is derived for. */
  datatype JoinContext = JoinContext(optNeg: bool, joinNonce: bv32, joinEui: Eui, devNonce: bv32, netId: bv32)

  function Token(t: KeyType): bv8 {
    match t
    case FNwkSIntKey => 0x01
    case AppSKey => 0x02
    case SNwkSIntKey => 0x03
    case NwkSEncKey => 0x04
  }

  /** The middle of the block: the JoinEUI in 1.1, the NetID in 1.0. */
  function Middle(j: JoinContext): (m: seq<bv8>)
    ensures |m| == if j.optNeg then 8 else 3
  {
    if j.optNeg then j.joinEui else LittleEndian3(j.netId)
  }

  function SessionInput(t: KeyType, j: JoinContext): (b: Block) {
    [Token(t)] + LittleEndian3(j.joinNonce) + Middle(j) + LittleEndian2(j.devNonce) + (if j.optNeg then [0, 0] else [0, 0, 0, 0, 0, 0, 0])
  }

  /** The block by its bytes: the type's number, the join nonce, the JoinEUI in 1.1 or the NetID in 1.0, the device's nonce,
      and zeros. LoRaWAN 1.1 section 6.2.5. */
  predicate IsKeyBlock(b: Block, t: KeyType, j: JoinContext) {
    b[0] == (match t case FNwkSIntKey => 0x01 case AppSKey => 0x02 case SNwkSIntKey => 0x03 case NwkSEncKey => 0x04) &&
    b[1..4] == LittleEndian3(j.joinNonce) &&
    if j.optNeg then b[4..12] == j.joinEui && b[12..14] == LittleEndian2(j.devNonce) && b[14..] == [0, 0]
    else b[4..7] == LittleEndian3(j.netId) && b[7..9] == LittleEndian2(j.devNonce) && b[9..] == [0, 0, 0, 0, 0, 0, 0]
  }

  lemma SessionInputHasBytes(t: KeyType, j: JoinContext)
    ensures IsKeyBlock(SessionInput(t, j), t, j)
  {
    hide LittleEndian2, LittleEndian3, SessionInput;
    TokenFirst(t, j);
    if j.optNeg {
      NewParts(t, j);
    } else {
      OldParts(t, j);
    }
  }

  lemma TokenFirst(t: KeyType, j: JoinContext)
    ensures SessionInput(t, j)[0] == Token(t)
  {
    hide LittleEndian2, LittleEndian3, Token;
  }

  lemma NewParts(t: KeyType, j: JoinContext)
    requires j.optNeg
    ensures var b := SessionInput(t, j);
            b[1..4] == LittleEndian3(j.joinNonce) && b[4..12] == j.joinEui && b[12..14] == LittleEndian2(j.devNonce) && b[14..] == [0, 0]
  {
    hide LittleEndian2, LittleEndian3, Token;
  }

  lemma OldParts(t: KeyType, j: JoinContext)
    requires !j.optNeg
    ensures var b := SessionInput(t, j);
            b[1..4] == LittleEndian3(j.joinNonce) && b[4..7] == LittleEndian3(j.netId) && b[7..9] == LittleEndian2(j.devNonce) &&
            b[9..] == [0, 0, 0, 0, 0, 0, 0]
  {
    hide LittleEndian2, LittleEndian3, Token;
  }

  function SessionKey(t: KeyType, root: Key, j: JoinContext): Block {
    EncryptBlock(root, SessionInput(t, j))
  }

  method CopyEui(output: array<bv8>, ofs: nat, eui: Eui) returns (end: nat)
    requires ofs + 8 <= output.Length
    modifies output
    ensures end == ofs + 8
    ensures output[..] == old(output[..ofs]) + eui + old(output[end..])
  {
    forall i | 0 <= i < 8 {
      output[ofs + i] := eui[i];
    }
    end := ofs + 8;
  }

  /** GenerateSessionKey. */
  method GenerateSessionKey(t: KeyType, root: Key, j: JoinContext, output: array<bv8>) returns (ghost b: Block)
    requires output.Length == 16
    modifies output
    ensures output[..] == SessionKey(t, root, j)
    ensures IsKeyBlock(b, t, j) && output[..] == EncryptBlock(root, b)
  {
    hide LittleEndian2, LittleEndian3, EncryptBlock, IsKeyBlock;
    b := SessionInput(t, j);
    SessionInputHasBytes(t, j);
    var input := new bv8[16];
    input[0] := Token(t);
    var ptr := Write3ByteValue(input, 1, j.joinNonce);
    assert input[..ptr] == [Token(t)] + LittleEndian3(j.joinNonce);
    ghost var head := input[..ptr];
    if j.optNeg {
      ptr := CopyEui(input, ptr, j.joinEui);
    } else {
      ptr := Write3ByteValue(input, ptr, j.netId);
    }
    assert input[..ptr] == head + Middle(j);
    head := input[..ptr];
    ptr := Write2ByteValue(input, ptr, j.devNonce);
    assert input[..ptr] == head + LittleEndian2(j.devNonce);
    forall i | ptr <= i < 16 {
      input[i] := 0;
    }
    assert input[..] == SessionInput(t, j);
    var aesContext := new AesContext();
    var ok := aesContext.SetKey(root, 16);
    aesContext.EncryptKeyed(input, output, root);
  }

  // ---- Different inputs give different keys ----

  /** Under one root key equal outputs come from equal inputs. */
  lemma EncryptionIsInjective(key: Key, a: Block, b: Block)
    requires EncryptBlock(key, a) == EncryptBlock(key, b)
    ensures a == b
  {
    hide EncryptBlock, DecryptBlock;
    BlockBijection(key, a);
    BlockBijection(key, b);
  }

  lemma LittleEndian3Injective(a: bv32, b: bv32)
    requires a < 0x100_0000 && b < 0x100_0000 && LittleEndian3(a) == LittleEndian3(b)
    ensures a == b
  {
    var x, y := LittleEndian3(a), LittleEndian3(b);
    assert x[0] == y[0] && x[1] == y[1] && x[2] == y[2];
  }

  /** Session keys of one type and root key differ when their 24-bit join nonces do. */
  lemma DistinctNoncesGiveDistinctKeys(t: KeyType, root: Key, j: JoinContext, k: JoinContext)
    requires j.joinNonce < 0x100_0000 && k.joinNonce < 0x100_0000 && j.joinNonce != k.joinNonce
    ensures SessionInput(t, j) != SessionInput(t, k) && SessionKey(t, root, j) != SessionKey(t, root, k)
  {
    hide LittleEndian3, LittleEndian2, EncryptBlock;
    var a, b := SessionInput(t, j), SessionInput(t, k);
    assert a[1..4] == LittleEndian3(j.joinNonce) && b[1..4] == LittleEndian3(k.joinNonce);
    if a == b {
      LittleEndian3Injective(j.joinNonce, k.joinNonce);
    }
    if EncryptBlock(root, a) == EncryptBlock(root, b) {
      EncryptionIsInjective(root, a, b);
    }
  }

  /** Keys of different types derived from one root key for one join differ. */
  lemma DistinctTypesGiveDistinctKeys(t: KeyType, u: KeyType, root: Key, j: JoinContext)
    requires t != u
    ensures SessionKey(t, root, j) != SessionKey(u, root, j)
  {
    hide LittleEndian3, LittleEndian2, EncryptBlock;
    assert SessionInput(t, j)[0] == Token(t) && SessionInput(u, j)[0] == Token(u);
    if SessionKey(t, root, j) == SessionKey(u, root, j) {
      EncryptionIsInjective(root, SessionInput(t, j), SessionInput(u, j));
    }
  }

  // ---- From the join answer to the inferred version ----

  /** The network keys of a join answer: one for a 1.0 device, three for a 1.1 device. */
  datatype JoinAns = OneKey(nwkSKey: Key) | ThreeKeys(sNwkSIntKey: Key, fNwkSIntKey: Key, nwkSEncKey: Key)

  /** The network keys the join server puts into its answer. */
  method AnswerKeys(root: Key, j: JoinContext) returns (ans: JoinAns)
    ensures ans == AnswerFor(root, j)
  {
    hide SessionKey, EncryptBlock, IsKeyBlock;
    var f := new bv8[16];
    ghost var b := GenerateSessionKey(FNwkSIntKey, root, j, f);
    if j.optNeg {
      var s, n := new bv8[16], new bv8[16];
      b := GenerateSessionKey(SNwkSIntKey, root, j, s);
      b := GenerateSessionKey(NwkSEncKey, root, j, n);
      ans := ThreeKeys(s[..], f[..], n[..]);
    } else {
      ans := OneKey(f[..]);
    }
  }

  function AnswerFor(root: Key, j: JoinContext): JoinAns {
    if j.optNeg then ThreeKeys(SessionKey(SNwkSIntKey, root, j), SessionKey(FNwkSIntKey, root, j), SessionKey(NwkSEncKey, root, j))
    else OneKey(SessionKey(FNwkSIntKey, root, j))
  }

  /** The three key columns as stored: the one key of 1.0 goes into each of them. */
  function Columns(ans: JoinAns): (Key, Key, Key) {
    if ans.OneKey? then (ans.nwkSKey, ans.nwkSKey, ans.nwkSKey) else (ans.fNwkSIntKey, ans.sNwkSIntKey, ans.nwkSEncKey)
  }

  /** The version read off the columns: 1.1 if FNwkSIntKey differs from both other keys. */
  predicate Infers(f: seq<bv8>, s: seq<bv8>, n: seq<bv8>) {
    f != s && f != n
  }

  /** The key columns of a row of the sessions table. */
  class SessionRow {
    const fNwkSIntKey: array<bv8>
    const sNwkSIntKey: array<bv8>
    const nwkSEncKey: array<bv8>

    ghost predicate Valid()
      reads this
    {
      fNwkSIntKey.Length == 16 && sNwkSIntKey.Length == 16 && nwkSEncKey.Length == 16 &&
      fNwkSIntKey != sNwkSIntKey && fNwkSIntKey != nwkSEncKey && sNwkSIntKey != nwkSEncKey
    }

    constructor ()
      ensures Valid() && fresh(fNwkSIntKey) && fresh(sNwkSIntKey) && fresh(nwkSEncKey)
    {
      fNwkSIntKey, sNwkSIntKey, nwkSEncKey := new bv8[16], new bv8[16], new bv8[16];
    }

    /** take_JoinAns: the one key of 1.0 is stored three times. */
    method TakeJoinAns(ans: JoinAns)
      requires Valid()
      modifies fNwkSIntKey, sNwkSIntKey, nwkSEncKey
      ensures (fNwkSIntKey[..], sNwkSIntKey[..], nwkSEncKey[..]) == Columns(ans)
    {
      if ans.OneKey? {
        CopyKey(fNwkSIntKey, ans.nwkSKey);
        CopyKey(sNwkSIntKey, ans.nwkSKey);
        CopyKey(nwkSEncKey, ans.nwkSKey);
      } else {
        CopyKey(sNwkSIntKey, ans.sNwkSIntKey);
        CopyKey(fNwkSIntKey, ans.fNwkSIntKey);
        CopyKey(nwkSEncKey, ans.nwkSEncKey);
      }
    }

    /** The two comparisons of getSession. */
    method InferOptNeg() returns (optNeg: bool)
      requires Valid()
      ensures optNeg <==> Infers(fNwkSIntKey[..], sNwkSIntKey[..], nwkSEncKey[..])
    {
      optNeg := fNwkSIntKey[..] != sNwkSIntKey[..] && fNwkSIntKey[..] != nwkSEncKey[..];
    }
  }

  method CopyKey(to: array<bv8>, key: Key)
    requires to.Length == 16
    modifies to
    ensures to[..] == key
  {
    forall i | 0 <= i < 16 {
      to[i] := key[i];
    }
  }

  /** The inferred version is right for every join: from the stored columns the session is taken for 1.1 exactly if the
      device joined as 1.1, whatever the root key, nonces and identifiers were. */
  lemma InferredVersionIsJoined(root: Key, j: JoinContext)
    ensures var (f, s, n) := Columns(AnswerFor(root, j)); Infers(f, s, n) <==> j.optNeg
  {
    hide SessionKey;
    DistinctTypesGiveDistinctKeys(FNwkSIntKey, SNwkSIntKey, root, j);
    DistinctTypesGiveDistinctKeys(FNwkSIntKey, NwkSEncKey, root, j);
  }

  /** From the join to the first reading of the session: the keys are derived, stored and compared. Each column holds the
      device's own key of its name, in 1.0 all of them the one network key, and the version found is the one the device
      joined with. */
  method VersionAfterJoin(root: Key, j: JoinContext) returns (optNeg: bool, f: seq<bv8>, s: seq<bv8>, n: seq<bv8>)
    ensures optNeg == j.optNeg
    ensures f == SessionKey(FNwkSIntKey, root, j)
    ensures s == SessionKey(if j.optNeg then SNwkSIntKey else FNwkSIntKey, root, j)
    ensures n == SessionKey(if j.optNeg then NwkSEncKey else FNwkSIntKey, root, j)
  {
    hide SessionKey, Infers;
    var ans := AnswerKeys(root, j);
    var row := new SessionRow();
    row.TakeJoinAns(ans);
    optNeg := row.InferOptNeg();
    InferredVersionIsJoined(root, j);
    f, s, n := row.fNwkSIntKey[..], row.sNwkSIntKey[..], row.nwkSEncKey[..];
  }
}
