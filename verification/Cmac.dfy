/** libbackend/cmac.c: the streaming AES-CMAC. */
module Cmac {
  import opened Gf256
  import opened Fips197
  import opened Aes
  import opened Rfc4493

  /** The XOR macro: r ^= v. */
  method XorInto(v: Block, r: array<bv8>)
    requires r.Length == 16
    modifies r
    ensures r[..] == XorBlocks(old(r[..]), v)
  {
    hide Xor;
    var i := 0;
    while i < 16
      invariant 0 <= i <= 16
      invariant forall j :: 0 <= j < i ==> r[j] == Xor(old(r[j]), v[j])
      invariant forall j :: i <= j < 16 ==> r[j] == old(r[j])
    {
      r[i] := Xor(r[i], v[i]);
      i := i + 1;
    }
  }

  /** The LSHIFT macro with both arguments the same buffer. */
  method ShiftInPlace(k: array<bv8>)
    requires k.Length == 16
    modifies k
    ensures k[..] == ShiftLeft(old(k[..]))
  {
    hide ShiftByte;
    var i := 0;
    while i < 15
      invariant 0 <= i <= 15
      invariant forall j :: 0 <= j < i ==> k[j] == ShiftByte(old(k[j]), old(k[j + 1]))
      invariant forall j :: i <= j < 16 ==> k[j] == old(k[j])
    {
      k[i] := ShiftByte(k[i], k[i + 1]);
      i := i + 1;
    }
    k[15] := ShiftByte(k[15], 0);
  }

  /** The shift, and the 0x87 that follows a carry. */
  method DoubleInPlace(k: array<bv8>)
    requires k.Length == 16
    modifies k
    ensures k[..] == Double(old(k[..]))
  {
    hide ShiftLeft;
    var carry := k[0] & 0x80 != 0;
    ShiftInPlace(k);
    if carry {
      k[15] := k[15] ^ 0x87;
    }
  }

  class CmacContext {
    const rijndael: AesContext
    const x: array<bv8>
    const last: array<bv8>
    var n: nat

    /** AES_CMAC_Init. */
    constructor ()
      ensures Valid() && n == 0 && x[..] == ZERO_BLOCK
      ensures fresh(Repr())
    {
      rijndael := new AesContext();
      x := new bv8[16](_ => 0);
      last := new bv8[16];
      n := 0;
    }

    ghost function Repr(): set<object>
      reads this
    {
      {this, rijndael, rijndael.ksch, x, last}
    }

    ghost predicate Valid()
      reads this, rijndael
    {
      x.Length == 16 == last.Length && x != last && n <= 16 &&
      rijndael.Valid() && rijndael.ksch != x && rijndael.ksch != last
    }

    /** The context has been given exactly this message: whole blocks are in the chain and the last one,
        even when it is complete, is kept back. */
    ghost predicate Absorbed(key: Key, message: seq<bv8>)
      reads Repr()
    {
      Valid() && rijndael.Keyed(key) &&
      var h := HeadBlocks(|message|);
      n == |message| - 16 * h && last[..n] == message[16 * h..] && x[..] == Chain(key, message, h)
    }

    /** AES_CMAC_SetKey, on a context just initialised. */
    method SetKey(key: Key)
      requires Valid() && n == 0 && x[..] == ZERO_BLOCK
      modifies rijndael, rijndael.ksch
      ensures Absorbed(key, [])
    {
      var ok := rijndael.SetKey(key, 16);
    }

    /** XOR a block into X and encrypt X in place. */
    method Absorb(block: Block, ghost key: Key)
      requires Valid() && rijndael.Keyed(key)
      modifies x
      ensures x[..] == EncryptBlock(key, XorBlocks(old(x[..]), block))
    {
      hide XorBlocks, EncryptBlock;
      XorInto(block, x);
      rijndael.EncryptKeyed(x, x, key);
    }

    /** The first h blocks of the message are in the chain. */
    ghost predicate Chained(key: Key, message: seq<bv8>, h: nat)
      reads Repr()
    {
      Valid() && rijndael.Keyed(key) && 16 * h <= |message| && x[..] == Chain(key, message, h)
    }

    /** The first part of AES_CMAC_Update: top up the kept-back block, and absorb it once more data follows it. */
    method TopUp(data: seq<bv8>, ghost key: Key, ghost message: seq<bv8>) returns (mlen: nat, more: bool)
      requires Absorbed(key, message) && n > 0
      modifies this, x, last
      ensures mlen <= |data|
      ensures !more ==> Absorbed(key, message + data)
      ensures more ==> mlen < |data| && n == 16 && |message| + mlen == 16 * (HeadBlocks(|message|) + 1)
      ensures more ==> Chained(key, message + data, HeadBlocks(|message|) + 1)
    {
      hide XorBlocks, EncryptBlock;
      ghost var all, h := message + data, HeadBlocks(|message|);
      ChainPrefix(key, message, all, h);
      mlen := if 16 - n < |data| then 16 - n else |data|;
      forall i | 0 <= i < mlen {
        last[n + i] := data[i];
      }
      n := n + mlen;
      assert last[..n] == message[16 * h..] + data[..mlen];
      TailOfAppend(message, data, 16 * h, mlen);
      if n < 16 || |data| == mlen {
        HeadBlocksAppend(|message|, |data|);
        assert all[16 * h..] == last[..n];
        return mlen, false;
      }
      ghost var block := all[16 * h..16 * (h + 1)];
      assert last[..] == last[..n] == block;
      assert x[..] == Chain(key, all, h);
      Absorb(last[..], key);
      assert Chain(key, all, h + 1) == EncryptBlock(key, XorBlocks(Chain(key, all, h), block));
      return mlen, true;
    }

    /** The block loop of AES_CMAC_Update: while more than sixteen bytes remain. */
    method AbsorbWhole(data: seq<bv8>, start: nat, ghost key: Key, ghost all: seq<bv8>, ghost first: nat)
      returns (pos: nat, ghost h: nat)
      requires start <= |data| && Chained(key, all, first) && all[16 * first..] == data[start..]
      requires start < |data| || all == []
      modifies x
      ensures pos <= |data| && Chained(key, all, h) && all[16 * h..] == data[pos..]
      ensures |data| - pos <= 16 && (pos < |data| || all == [])
    {
      hide XorBlocks, EncryptBlock;
      pos, h := start, first;
      while |data| - pos > 16
        invariant pos <= |data| && Chained(key, all, h) && all[16 * h..] == data[pos..]
        invariant pos < |data| || all == []
      {
        assert data[pos..pos + 16] == all[16 * h..][..16] == all[16 * h..16 * (h + 1)];
        Absorb(data[pos..pos + 16], key);
        assert data[pos + 16..] == all[16 * h..][16..];
        pos, h := pos + 16, h + 1;
      }
    }

    /** AES_CMAC_Update. */
    method Update(data: seq<bv8>, ghost key: Key, ghost message: seq<bv8>)
      requires Absorbed(key, message)
      modifies this, x, last
      ensures Absorbed(key, message + data)
    {
      hide XorBlocks, EncryptBlock, Chain;
      if n > 0 {
        var mlen, more := TopUp(data, key, message);
        if more {
          TailAt(message, data, mlen);
          AbsorbRest(data, mlen, key, message + data, HeadBlocks(|message|) + 1);
        }
      } else {
        NothingKeptBack(|message|);
        assert message + data == data;
        ChainPrefix(key, message, data, 0);
        AbsorbRest(data, 0, key, message + data, 0);
      }
    }

    /** The block loop and what follows it. */
    method AbsorbRest(data: seq<bv8>, start: nat, ghost key: Key, ghost all: seq<bv8>, ghost first: nat)
      requires start <= |data| && Chained(key, all, first) && all[16 * first..] == data[start..]
      requires start < |data| || all == []
      modifies this`n, x, last
      ensures Absorbed(key, all)
    {
      hide XorBlocks, EncryptBlock, Chain;
      var pos, h := AbsorbWhole(data, start, key, all, first);
      KeepBack(data[pos..], key, all, h);
    }

    /** The end of AES_CMAC_Update: what remains is kept back. */
    method KeepBack(rest: seq<bv8>, ghost key: Key, ghost all: seq<bv8>, ghost h: nat)
      requires Chained(key, all, h) && |rest| <= 16 && all[16 * h..] == rest && (|all| > 0 ==> 16 * h < |all|)
      modifies this`n, last
      ensures Absorbed(key, all)
    {
      hide XorBlocks, EncryptBlock, Chain;
      forall i | 0 <= i < |rest| {
        last[i] := rest[i];
      }
      n := |rest|;
      HeadBlocksUnique(|all|, h);
      assert last[..n] == rest;
    }

    /** AES_CMAC_Final pads the kept-back block with a one bit and zeros. */
    method PadLast(ghost tail: seq<bv8>)
      requires Valid() && n < 16 && last[..n] == tail
      modifies this, last
      ensures last[..] == Pad(tail)
    {
      last[n] := 0x80;
      n := n + 1;
      while n < 16
        invariant |tail| + 1 <= n <= 16
        invariant last[..n] == tail + [0x80] + seq(n - 1 - |tail|, _ => 0)
      {
        last[n] := 0;
        n := n + 1;
      }
    }

    /** Generate the subkey the last block needs and XOR it in. */
    method MaskLast(ghost key: Key, ghost tail: seq<bv8>)
      requires Valid() && rijndael.Keyed(key) && last[..n] == tail
      modifies this, last
      ensures last[..] == MaskedLast(key, tail)
    {
      hide XorBlocks, EncryptBlock, Double, Pad;
      var k := new bv8[16](_ => 0);
      assert k[..] == ZERO_BLOCK;
      rijndael.EncryptKeyed(k, k, key);
      DoubleInPlace(k);
      if n == 16 {
        assert last[..] == tail;
      } else {
        DoubleInPlace(k);
        PadLast(tail);
      }
      XorInto(k[..], last);
    }

    /** AES_CMAC_Final. The context is used up: padding and the last XOR happen in its buffers. */
    method Final(digest: array<bv8>, ghost key: Key, ghost message: seq<bv8>)
      requires Absorbed(key, message)
      requires digest.Length == 16 && digest !in Repr()
      modifies this, x, last, digest
      ensures digest[..] == Cmac(key, message)
    {
      hide XorBlocks, EncryptBlock, MaskedLast, Chain;
      MaskLast(key, message[16 * HeadBlocks(|message|)..]);
      XorInto(last[..], x);
      rijndael.EncryptKeyed(x, digest, key);
    }
  }

  lemma TailOfAppend(message: seq<bv8>, data: seq<bv8>, from: nat, n: nat)
    requires from <= |message| && n <= |data|
    ensures message[from..] + data[..n] == (message + data)[from..|message| + n]
  {
  }

  /** What lies behind the topped-up block is what is left of the data. */
  lemma TailAt(message: seq<bv8>, data: seq<bv8>, n: nat)
    requires n <= |data|
    ensures (message + data)[|message| + n..] == data[n..]
  {
  }

  /** Topping up the last block does not complete a new one. */
  lemma HeadBlocksAppend(m: nat, d: nat)
    requires m > 0 && m - 16 * HeadBlocks(m) + d <= 16
    ensures HeadBlocks(m + d) == HeadBlocks(m)
  {
  }

  lemma NothingKeptBack(m: nat)
    requires m == 16 * HeadBlocks(m)
    ensures m == 0
  {
  }

  lemma HeadBlocksUnique(n: nat, h: nat)
    requires 16 * h <= n <= 16 * h + 16 && (16 * h < n || n == 0)
    ensures h == HeadBlocks(n)
  {
  }

  // ---- Independence of the chunking ----

  function Flatten(chunks: seq<seq<bv8>>): seq<bv8> {
    if chunks == [] then [] else Flatten(chunks[..|chunks| - 1]) + chunks[|chunks| - 1]
  }

  lemma FlattenNone()
    ensures Flatten([]) == []
  {
  }

  lemma FlattenMore(chunks: seq<seq<bv8>>, i: nat)
    requires i < |chunks|
    ensures Flatten(chunks[..i + 1]) == Flatten(chunks[..i]) + chunks[i]
  {
    assert chunks[..i + 1][..i] == chunks[..i];
  }

  /** Init, SetKey, one Update per chunk and Final: every split of a message has the message's MAC. */
  method MacOfChunks(key: Key, chunks: seq<seq<bv8>>) returns (digest: Block)
    ensures digest == Cmac(key, Flatten(chunks))
  {
    hide Cmac, Flatten, CmacContext.Absorbed;
    var ctx := new CmacContext();
    ctx.SetKey(key);
    FlattenNone();
    assert chunks[..0] == [];
    for i := 0 to |chunks|
      invariant fresh(ctx.Repr())
      invariant ctx.Absorbed(key, Flatten(chunks[..i]))
    {
      FlattenMore(chunks, i);
      ctx.Update(chunks[i], key, Flatten(chunks[..i]));
    }
    assert chunks[..|chunks|] == chunks;
    var out := new bv8[16];
    ctx.Final(out, key, Flatten(chunks));
    digest := out[..];
  }
}
