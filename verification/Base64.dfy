/** app_server/base64.c. Characters are their codes, and the shifts and masks of a byte are written as / and %. */
module Base64 {
  import opened Basics

  const PAD: uint8 := 61   // '='

  function Range(first: uint8, n: nat): seq<uint8>
    requires first as nat + n <= 256
  {
    seq(n, i requires 0 <= i < n => first + i as uint8)
  }

  /** base64_table: A to Z, a to z, 0 to 9, + and /. */
  const BASE64_TABLE: seq<uint8> := Range(65, 26) + Range(97, 26) + Range(48, 10) + [43, 47]

  /** The character of a six-bit value. */
  function Symbol(v: uint8): uint8
    requires v < 64
  {
    BASE64_TABLE[v]
  }

  /** The alphabet of RFC 4648 section 4, read backwards; None is a character outside it. */
  function ValueOf(c: uint8): (v: Option<uint8>)
    ensures v.Some? ==> v.value < 64
  {
    if 65 <= c <= 90 then Some(c - 65)
    else if 97 <= c <= 122 then Some(c - 97 + 26)
    else if 48 <= c <= 57 then Some(c - 48 + 52)
    else if c == 43 then Some(62)
    else if c == 47 then Some(63)
    else None
  }

  /** The table is the alphabet, in order. */
  lemma TableIsAlphabet(v: uint8)
    requires v < 64
    ensures ValueOf(Symbol(v)) == Some(v)
  {
  }

  lemma OnlyTableIsAlphabet(c: uint8)
    requires ValueOf(c).Some?
    ensures Symbol(ValueOf(c).value) == c && c != PAD
  {
  }

  // ---- Encoding ----

  function Sextets(a: uint8, b: uint8, c: uint8): (r: (uint8, uint8, uint8, uint8))
    ensures r.0 < 64 && r.1 < 64 && r.2 < 64 && r.3 < 64
  {
    (a / 4, a % 4 * 16 + b / 16, b % 16 * 4 + c / 64, c % 64)
  }

  function Group(a: uint8, b: uint8, c: uint8): (g: seq<uint8>)
    ensures |g| == 4
  {
    var (s, t, u, v) := Sextets(a, b, c);
    [Symbol(s), Symbol(t), Symbol(u), Symbol(v)]
  }

  /** RFC 4648 section 4: groups of three bytes, the last one padded. */
  function Encoded(s: seq<uint8>): (t: seq<uint8>) {
    if |s| == 0 then []
    else if |s| == 1 then Group(s[0], 0, 0)[..2] + [PAD, PAD]
    else if |s| == 2 then Group(s[0], s[1], 0)[..3] + [PAD]
    else Group(s[0], s[1], s[2]) + Encoded(s[3..])
  }

  /** The character of a value in the alphabet: A is 65, a is 97, 0 is 48, + is 43 and / is 47. */
  function Character(v: uint8): uint8
    requires v < 64
  {
    if v < 26 then 65 + v else if v < 52 then 97 + (v - 26) else if v < 62 then 48 + (v - 52) else if v == 62 then 43 else 47
  }

  lemma SymbolIs(v: uint8)
    requires v < 64
    ensures Symbol(v) == Character(v)
  {
  }

  /** The 24 bits of three bytes, most significant first, are those of four values whose characters make the group. */
  lemma GroupHoldsBits(a: uint8, b: uint8, c: uint8) returns (s: uint8, t: uint8, u: uint8, v: uint8)
    ensures s < 64 && t < 64 && u < 64 && v < 64
    ensures s as int * 0x4_0000 + t as int * 0x1000 + u as int * 0x40 + v as int == a as int * 0x1_0000 + b as int * 0x100 + c as int
    ensures Group(a, b, c) == [Character(s), Character(t), Character(u), Character(v)]
  {
    hide Symbol, Character;
    var r := Sextets(a, b, c);
    s, t, u, v := r.0, r.1, r.2, r.3;
    SymbolIs(s);
    SymbolIs(t);
    SymbolIs(u);
    SymbolIs(v);
  }

  // ---- Decoding ----

  predicate IsSignificant(c: uint8) {
    c == PAD || ValueOf(c).Some?
  }

  /** The text without the characters that are skipped. */
  function Significant(t: seq<uint8>): seq<uint8> {
    if t == [] then [] else (if IsSignificant(t[0]) then [t[0]] else []) + Significant(t[1..])
  }

  /** The value a character counts for: 0 for the padding. */
  function Worth(c: uint8): (v: uint8)
    requires IsSignificant(c)
    ensures v < 64
  {
    if c == PAD then 0 else ValueOf(c).value
  }

  function Bytes(s: uint8, t: uint8, u: uint8, v: uint8): (b: seq<uint8>)
    requires s < 64 && t < 64 && u < 64 && v < 64
    ensures |b| == 3
  {
    [s * 4 + t / 16, t % 16 * 16 + u / 4, u % 4 * 64 + v]
  }

  function Pads(q: seq<uint8>): (n: nat)
    ensures n <= |q|
  {
    if q == [] then 0 else (if q[0] == PAD then 1 else 0) + Pads(q[1..])
  }

  /** Four significant characters at a time; the first padded group is the last one read. */
  function DecodedFrom(t: seq<uint8>): (r: Option<seq<uint8>>)
    requires forall i :: 0 <= i < |t| ==> IsSignificant(t[i])
  {
    if |t| < 4 then Some([]) else
    var group, pads := Bytes(Worth(t[0]), Worth(t[1]), Worth(t[2]), Worth(t[3])), Pads(t[..4]);
    if pads > 2 then None
    else if pads > 0 then Some(group[..3 - pads])
    else
      var rest := DecodedFrom(t[4..]);
      if rest.Some? then Some(group + rest.value) else None
  }

  /** A first group with more than two padding characters is refused. */
  lemma TooManyPads(t: seq<uint8>)
    requires |t| >= 4 && forall i :: 0 <= i < |t| ==> IsSignificant(t[i])
    requires t[1] == PAD && t[2] == PAD && t[3] == PAD
    ensures DecodedFrom(t) == None
  {
    var q := t[..4];
    assert q[1..][1..][1..] == [t[3]] && q[1..][1..] == [t[2], t[3]] && q[1..] == [t[1], t[2], t[3]];
    assert Pads(q[1..][1..][1..]) == 1;
    assert Pads(q[1..][1..]) == 2;
    assert Pads(q[1..]) == 3;
    assert Pads(q) >= 3;
  }

  lemma {:induction false} SignificantIsSignificant(t: seq<uint8>)
    ensures forall i :: 0 <= i < |Significant(t)| ==> IsSignificant(Significant(t)[i])
  {
    if t != [] {
      SignificantIsSignificant(t[1..]);
    }
  }

  function Decoded(t: seq<uint8>): Option<seq<uint8>> {
    var s := Significant(t);
    SignificantIsSignificant(t);
    if |s| == 0 || |s| % 4 != 0 then None else DecodedFrom(s)
  }

  // ---- Round trip ----

  lemma BytesOfSextets(a: uint8, b: uint8, c: uint8)
    ensures var (s, t, u, v) := Sextets(a, b, c); Bytes(s, t, u, v) == [a, b, c]
  {
  }

  lemma SymbolsCount(v: uint8)
    requires v < 64
    ensures IsSignificant(Symbol(v)) && Symbol(v) != PAD && Worth(Symbol(v)) == v
  {
    TableIsAlphabet(v);
  }

  lemma DivByThree(n: nat)
    ensures (n + 5) / 3 == (n + 2) / 3 + 1
  {
  }

  lemma {:induction false} EncodedLength(s: seq<uint8>)
    ensures |Encoded(s)| == (|s| + 2) / 3 * 4
  {
    hide Group;
    if |s| >= 3 {
      EncodedLength(s[3..]);
      DivByThree(|s| - 3);
    }
  }

  lemma GroupSymbols(a: uint8, b: uint8, c: uint8)
    ensures var g := Group(a, b, c);
            (forall i :: 0 <= i < 4 ==> IsSignificant(g[i]) && g[i] != PAD) && Bytes(Worth(g[0]), Worth(g[1]), Worth(g[2]), Worth(g[3])) == [a, b, c]
  {
    hide Symbol, ValueOf, Bytes, Worth, Sextets;
    var (s, t, u, v) := Sextets(a, b, c);
    SymbolsCount(s);
    SymbolsCount(t);
    SymbolsCount(u);
    SymbolsCount(v);
    BytesOfSextets(a, b, c);
  }

  function Kept(c: uint8): seq<uint8> {
    if IsSignificant(c) then [c] else []
  }

  lemma SignificantFirst(t: seq<uint8>)
    requires t != []
    ensures Significant(t) == Kept(t[0]) + Significant(t[1..])
  {
  }

  lemma {:induction false} SignificantConcat(s: seq<uint8>, t: seq<uint8>)
    ensures Significant(s + t) == Significant(s) + Significant(t)
  {
    hide IsSignificant, Kept;
    if s == [] {
      assert s + t == t;
      assert Significant(s) == [];
    } else {
      hide Significant;
      var rest := s[1..];
      assert (s + t)[1..] == rest + t && (s + t)[0] == s[0];
      SignificantFirst(s + t);
      SignificantFirst(s);
      SignificantConcat(rest, t);
      assert Kept(s[0]) + (Significant(rest) + Significant(t)) == Kept(s[0]) + Significant(rest) + Significant(t);
    }
  }

  lemma {:induction false} NothingSkipped(t: seq<uint8>)
    requires forall i :: 0 <= i < |t| ==> IsSignificant(t[i])
    ensures Significant(t) == t
  {
    if t != [] {
      NothingSkipped(t[1..]);
    }
  }

  lemma PadsOfFour(a: uint8, b: uint8, c: uint8, d: uint8)
    ensures Pads([a, b, c, d]) == (if a == PAD then 1 else 0) + (if b == PAD then 1 else 0) + (if c == PAD then 1 else 0) + (if d == PAD then 1 else 0)
  {
    assert [a, b, c, d][1..] == [b, c, d] && [b, c, d][1..] == [c, d] && [c, d][1..] == [d] && [d][1..] == [];
    assert Pads([d]) == (if d == PAD then 1 else 0) + Pads([]);
    assert Pads([c, d]) == (if c == PAD then 1 else 0) + Pads([d]);
    assert Pads([b, c, d]) == (if b == PAD then 1 else 0) + Pads([c, d]);
  }

  /** The encoding is all significant, and its groups decode to the bytes they came from. */
  lemma {:induction false} DecodedFromEncoded(s: seq<uint8>)
    ensures forall i :: 0 <= i < |Encoded(s)| ==> IsSignificant(Encoded(s)[i])
    ensures DecodedFrom(Encoded(s)) == Some(s)
  {
    hide Group, Bytes, Worth, ValueOf, Pads;
    if |s| > 0 {
      var t := Encoded(s);
      var g := Group(s[0], if |s| > 1 then s[1] else 0, if |s| > 2 then s[2] else 0);
      GroupSymbols(s[0], if |s| > 1 then s[1] else 0, if |s| > 2 then s[2] else 0);
      PadsOfFour(t[0], t[1], t[2], t[3]);
      assert t[..4] == [t[0], t[1], t[2], t[3]];
      if |s| >= 3 {
        DecodedFromEncoded(s[3..]);
        assert t[4..] == Encoded(s[3..]) && t[..4] == g;
        assert [s[0], s[1], s[2]] + s[3..] == s;
      } else {
        PaddedGroup(s);
      }
    }
  }

  /** Padding a short group changes only the bytes that are cut off. */
  lemma PaddedGroup(s: seq<uint8>)
    requires 1 <= |s| <= 2
    ensures var t := Encoded(s);
            |t| == 4 && (forall i :: 0 <= i < 4 ==> IsSignificant(t[i])) &&
            Bytes(Worth(t[0]), Worth(t[1]), Worth(t[2]), Worth(t[3]))[..|s|] == s
  {
    hide Group, ValueOf;
    GroupSymbols(s[0], if |s| > 1 then s[1] else 0, 0);
  }

  lemma SomethingEncoded(s: seq<uint8>)
    ensures Encoded(s) == [] <==> s == []
  {
  }

  /** Decoding what was encoded gives it back exactly when there was something to encode. */
  lemma DecodeOfEncode(s: seq<uint8>)
    ensures Decoded(Encoded(s)) == Some(s) <==> s != []
  {
    hide DecodedFrom, IsSignificant, Encoded, Significant;
    DecodedFromEncoded(s);
    SomethingEncoded(s);
    NothingSkipped(Encoded(s));
    EncodedLength(s);
    WholeGroups((|s| + 2) / 3);
  }

  lemma WholeGroups(n: nat)
    ensures n * 4 % 4 == 0
  {
  }

  /** Characters outside the alphabet may stand anywhere in a text without changing what it decodes to. */
  lemma ForeignCharactersAreSkipped(s: seq<uint8>, foreign: seq<uint8>, t: seq<uint8>)
    requires forall i :: 0 <= i < |foreign| ==> !IsSignificant(foreign[i])
    ensures Decoded(s + foreign + t) == Decoded(s + t)
  {
    hide DecodedFrom, IsSignificant;
    SignificantConcat(s + foreign, t);
    SignificantConcat(s, foreign);
    SignificantConcat(s, t);
    AllSkipped(foreign);
    assert Significant(s) + [] == Significant(s);
  }

  lemma {:induction false} AllSkipped(t: seq<uint8>)
    requires forall i :: 0 <= i < |t| ==> !IsSignificant(t[i])
    ensures Significant(t) == []
  {
    if t != [] {
      AllSkipped(t[1..]);
    }
  }

  // ---- The loops ----

  /** base64_encode. Every store stays inside the buffer, with room for the closing NUL. */
  method Base64Encode(src: array<uint8>) returns (text: seq<uint8>)
    ensures text == Encoded(src[..])
  {
    hide Group, Encoded;
    var len := src.Length;
    var olen := len * 4 / 3 + 4;
    olen := olen + olen / 72 + 1;
    var out := new uint8[olen];
    var i, pos := 0, 0;
    while len - i >= 3
      invariant 0 <= i <= len && 3 * pos == 4 * i && pos <= olen
      invariant out[..pos] + Encoded(src[i..]) == Encoded(src[..])
    {
      PutGroup(out, pos, src[i], src[i + 1], src[i + 2]);
      EncodedGroup(src[i..]);
      assert src[i..][3..] == src[i + 3..];
      i, pos := i + 3, pos + 4;
    }
    if len - i != 0 {
      PutTail(out, pos, src[i..]);
      pos := pos + 4;
    } else {
      EncodedNothing(src[i..]);
    }
    ghost var done := out[..pos];
    out[pos] := 0;
    assert out[..pos] == done;
    text := out[..pos];
  }

  /** The last one or two bytes. */
  method PutTail(out: array<uint8>, pos: nat, rest: seq<uint8>)
    requires 1 <= |rest| <= 2 && pos + 4 <= out.Length
    modifies out
    ensures out[..pos + 4] == old(out[..pos]) + Encoded(rest)
  {
    hide Group, Encoded;
    EncodedTail(rest);
    if |rest| == 1 {
      PutGroup(out, pos, rest[0], 0, 0);
      out[pos + 2] := PAD;
    } else {
      PutGroup(out, pos, rest[0], rest[1], 0);
    }
    out[pos + 3] := PAD;
  }

  method PutGroup(out: array<uint8>, pos: nat, a: uint8, b: uint8, c: uint8)
    requires pos + 4 <= out.Length
    modifies out
    ensures out[..] == old(out[..pos]) + Group(a, b, c) + old(out[pos + 4..])
  {
    hide Symbol;
    out[pos] := Symbol(a / 4);
    out[pos + 1] := Symbol(a % 4 * 16 + b / 16);
    out[pos + 2] := Symbol(b % 16 * 4 + c / 64);
    out[pos + 3] := Symbol(c % 64);
  }

  lemma EncodedGroup(s: seq<uint8>)
    requires |s| >= 3
    ensures Encoded(s) == Group(s[0], s[1], s[2]) + Encoded(s[3..])
  {
  }

  lemma EncodedNothing(s: seq<uint8>)
    requires s == []
    ensures Encoded(s) == []
  {
  }

  lemma EncodedTail(s: seq<uint8>)
    requires 1 <= |s| <= 2
    ensures Encoded(s) == if |s| == 1 then Group(s[0], 0, 0)[..2] + [PAD, PAD] else Group(s[0], s[1], 0)[..3] + [PAD]
  {
  }

  /** An entry of dtable. */
  function Entry(c: uint8): uint8 {
    if c == PAD then 0 else if ValueOf(c).Some? then ValueOf(c).value else 0x80
  }

  method BuildTable() returns (dtable: array<uint8>)
    ensures fresh(dtable) && dtable.Length == 256 && forall c: uint8 :: dtable[c] == Entry(c)
  {
    dtable := new uint8[256](_ => 0x80);
    var i: uint8 := 0;
    while i < 64
      invariant i <= 64
      invariant forall c: uint8 :: dtable[c] == if ValueOf(c).Some? && ValueOf(c).value < i then ValueOf(c).value else 0x80
    {
      TableIsAlphabet(i);
      forall c: uint8 | ValueOf(c) == Some(i)
        ensures c == Symbol(i)
      {
        OnlyTableIsAlphabet(c);
      }
      dtable[Symbol(i)] := i;
      i := i + 1;
    }
    dtable[PAD] := 0;
  }

  method CountSignificant(src: array<uint8>, dtable: array<uint8>) returns (count: nat)
    requires dtable.Length == 256 && forall c: uint8 :: dtable[c] == Entry(c)
    ensures count == |Significant(src[..])|
  {
    count := 0;
    var i := 0;
    while i < src.Length
      invariant 0 <= i <= src.Length && count == |Significant(src[..i])|
    {
      SignificantConcat(src[..i], [src[i]]);
      assert src[..i + 1] == src[..i] + [src[i]];
      if dtable[src[i]] != 0x80 {
        count := count + 1;
      }
      i := i + 1;
    }
    assert src[..i] == src[..];
  }

  function Prepend(head: seq<uint8>, r: Option<seq<uint8>>): Option<seq<uint8>> {
    if r.Some? then Some(head + r.value) else None
  }

  predicate AllSignificant(t: seq<uint8>) {
    forall i :: 0 <= i < |t| ==> IsSignificant(t[i])
  }

  /** What the decoding loop has done of the significant characters: the first k, whole unpadded groups, stand in out,
      the next n in block. */
  ghost predicate Decoding(sig: seq<uint8>, k: nat, n: nat, out: seq<uint8>, block: seq<uint8>, pad: nat) {
    k + n <= |sig| && n < 4 && AllSignificant(sig) && |block| == 4 && 4 * |out| == 3 * k &&
    DecodedFrom(sig) == Prepend(out, DecodedFrom(sig[k..])) && pad == Pads(sig[k..k + n]) &&
    forall j :: 0 <= j < n ==> block[j] == Worth(sig[k + j])
  }

  lemma DecodingStarts(sig: seq<uint8>, block: seq<uint8>)
    requires AllSignificant(sig) && |block| == 4
    ensures Decoding(sig, 0, 0, [], block, 0)
  {
    assert sig[0..] == sig;
    var r := DecodedFrom(sig);
    if r.Some? {
      assert [] + r.value == r.value;
    }
  }

  lemma {:induction false} PadsAppend(t: seq<uint8>, c: uint8)
    ensures Pads(t + [c]) == Pads(t) + (if c == PAD then 1 else 0)
  {
    if t != [] {
      assert (t + [c])[1..] == t[1..] + [c];
      PadsAppend(t[1..], c);
    } else {
      assert [] + [c] == [c] && [c][1..] == [];
    }
  }

  function PadOf(c: uint8): nat {
    if c == PAD then 1 else 0
  }

  /** A character that does not complete its group. */
  lemma DecodingTakes(sig: seq<uint8>, k: nat, n: nat, out: seq<uint8>, block: seq<uint8>, pad: nat)
    requires Decoding(sig, k, n, out, block, pad) && k + n < |sig| && n < 3
    ensures var c := sig[k + n]; Decoding(sig, k, n + 1, out, block[n := Worth(c)], pad + PadOf(c))
  {
    hide Worth, IsSignificant, DecodedFrom, Pads;
    assert sig[k..k + n + 1] == sig[k..k + n] + [sig[k + n]];
    PadsAppend(sig[k..k + n], sig[k + n]);
  }

  lemma DecodedStep(t: seq<uint8>)
    requires AllSignificant(t) && |t| >= 4
    ensures var group, pads := Bytes(Worth(t[0]), Worth(t[1]), Worth(t[2]), Worth(t[3])), Pads(t[..4]);
            DecodedFrom(t) == if pads == 0 then Prepend(group, DecodedFrom(t[4..]))
                              else if pads > 2 then None else Some(group[..3 - pads])
  {
  }

  lemma PrependTwice(a: seq<uint8>, b: seq<uint8>, r: Option<seq<uint8>>)
    ensures Prepend(a, Prepend(b, r)) == Prepend(a + b, r)
  {
    if r.Some? {
      assert a + (b + r.value) == a + b + r.value;
    }
  }

  /** A character that completes its group: an unpadded group is appended, a padded one ends the text. */
  lemma DecodingGroup(sig: seq<uint8>, k: nat, out: seq<uint8>, block: seq<uint8>, pad: nat)
    requires Decoding(sig, k, 3, out, block, pad) && k + 3 < |sig|
    ensures var c := sig[k + 3];
            var full, pads := block[3 := Worth(c)], pad + PadOf(c);
            full[0] < 64 && full[1] < 64 && full[2] < 64 && full[3] < 64 &&
            var group := Bytes(full[0], full[1], full[2], full[3]);
            if pads == 0 then Decoding(sig, k + 4, 0, out + group, full, 0)
            else DecodedFrom(sig) == if pads > 2 then None else Some(out + group[..3 - pads])
  {
    hide Worth, IsSignificant, Bytes, DecodedFrom, Pads;
    var t := sig[k..];
    assert t[..4] == sig[k..k + 3] + [sig[k + 3]] && t[4..] == sig[k + 4..];
    PadsAppend(sig[k..k + 3], sig[k + 3]);
    DecodedStep(t);
    NoPads();
    assert sig[k + 4..k + 4] == [];
    var group := Bytes(Worth(t[0]), Worth(t[1]), Worth(t[2]), Worth(t[3]));
    PrependTwice(out, group, DecodedFrom(t[4..]));
  }

  lemma NoPads()
    ensures Pads([]) == 0
  {
  }

  /** The loop stands at character i, with k + n significant characters behind it. */
  ghost predicate ReadUpTo(t: seq<uint8>, i: nat, read: nat) {
    i <= |t| && read <= |Significant(t)| && Significant(t)[read..] == Significant(t[i..])
  }

  lemma ReadStarts(t: seq<uint8>)
    ensures ReadUpTo(t, 0, 0)
  {
    assert t[0..] == t;
  }

  lemma ReadNext(t: seq<uint8>, i: nat, read: nat)
    requires ReadUpTo(t, i, read) && i < |t|
    ensures if IsSignificant(t[i]) then read < |Significant(t)| && Significant(t)[read] == t[i] && ReadUpTo(t, i + 1, read + 1)
            else ReadUpTo(t, i + 1, read)
  {
    hide IsSignificant;
    var sig := Significant(t);
    assert t[i..][1..] == t[i + 1..] && t[i..][0] == t[i];
    if IsSignificant(t[i]) {
      assert Significant(t[i..]) == [t[i]] + Significant(t[i + 1..]);
      assert sig[read..][1..] == sig[read + 1..];
    }
  }

  lemma ReadAll(t: seq<uint8>, read: nat)
    requires ReadUpTo(t, |t|, read)
    ensures read == |Significant(t)|
  {
  }

  method PutBytes(out: array<uint8>, pos: nat, block: seq<uint8>)
    requires |block| == 4 && block[0] < 64 && block[1] < 64 && block[2] < 64 && block[3] < 64 && pos + 3 <= out.Length
    modifies out
    ensures out[..pos + 3] == old(out[..pos]) + Bytes(block[0], block[1], block[2], block[3])
  {
    out[pos] := block[0] * 4 + block[1] / 16;
    out[pos + 1] := block[1] % 16 * 16 + block[2] / 4;
    out[pos + 2] := block[2] % 4 * 64 + block[3];
  }

  /** base64_decode. The buffer is sized by the significant characters, and every store stays inside it. */
  method Base64Decode(src: array<uint8>) returns (r: Option<seq<uint8>>)
    ensures r == Decoded(src[..])
  {
    hide Significant, DecodedFrom, IsSignificant, Worth, Decoding, ReadUpTo, Bytes;
    ghost var t, sig := src[..], Significant(src[..]);
    SignificantIsSignificant(t);
    var dtable := BuildTable();
    var count := CountSignificant(src, dtable);
    if count == 0 || count % 4 != 0 {
      return None;
    }
    var out := new uint8[count / 4 * 3];
    var i, pos, pad, block := 0, 0, 0, [0, 0, 0, 0];
    count := 0;
    ghost var k := 0;
    ReadStarts(t);
    DecodingStarts(sig, block);
    while i < src.Length
      invariant 0 <= i <= src.Length && k % 4 == 0 && 4 * pos == 3 * k && pos <= out.Length && src[..] == t
      invariant ReadUpTo(t, i, k + count)
      invariant Decoding(sig, k, count, out[..pos], block, pad)
      modifies out
    {
      var c := src[i];
      var tmp := dtable[c];
      assert c == t[i];
      EntryOfSignificant(c);
      ReadNext(t, i, k + count);
      i := i + 1;
      if tmp == 0x80 {
        continue;
      }
      InBlock(sig, k, count, out[..pos], block, pad);
      if count == 3 {
        DecodingGroup(sig, k, out[..pos], block, pad);
        GroupHasRoom(|sig|, k);
      } else {
        DecodingTakes(sig, k, count, out[..pos], block, pad);
      }
      if c == PAD {
        pad := pad + 1;
      }
      block := block[count := tmp];
      count := count + 1;
      if count == 4 {
        ghost var before, group := out[..pos], Bytes(block[0], block[1], block[2], block[3]);
        PutBytes(out, pos, block);
        pos := pos + 3;
        count := 0;
        if pad != 0 {
          assert pad <= 2 ==> out[..pos - pad] == out[..pos][..pos - pad] == before + group[..3 - pad];
          return if pad > 2 then None else Some(out[..pos - pad]);
        }
        k := k + 4;
      }
    }
    ReadAll(t, k + count);
    DecodingEnds(sig, k, count, out[..pos], block, pad);
    r := Some(out[..pos]);
  }

  lemma InBlock(sig: seq<uint8>, k: nat, n: nat, out: seq<uint8>, block: seq<uint8>, pad: nat)
    requires Decoding(sig, k, n, out, block, pad)
    ensures n < 4 && |block| == 4 && AllSignificant(sig)
  {
  }

  lemma GroupHasRoom(n: nat, k: nat)
    requires n % 4 == 0 && k + 3 < n && k % 4 == 0
    ensures 4 * (n / 4 * 3) >= 3 * k + 12
  {
  }

  lemma DecodingEnds(sig: seq<uint8>, k: nat, n: nat, out: seq<uint8>, block: seq<uint8>, pad: nat)
    requires Decoding(sig, k, n, out, block, pad) && k + n == |sig| && |sig| % 4 == 0 && k % 4 == 0
    ensures DecodedFrom(sig) == Some(out)
  {
    hide Pads, Worth, IsSignificant, DecodedFrom;
    assert sig[k..] == [];
    DecodedNothing();
    assert out + [] == out;
  }

  lemma DecodedNothing()
    ensures DecodedFrom([]) == Some([])
  {
  }

  lemma EntryOfSignificant(c: uint8)
    ensures Entry(c) != 0x80 <==> IsSignificant(c)
    ensures IsSignificant(c) ==> Entry(c) == Worth(c)
  {
  }
}
