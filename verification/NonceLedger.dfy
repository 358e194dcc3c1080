/** The nonces the join server keeps for one device: the nonce check and update of parse_rf_join_req in
    join_server/main.c over the joinmotes columns and the nonces table. */
module NonceLedger {
  import opened Rfc4493
  import opened SessionKeys
  import opened Basics

  const LAST_NONCE := 0xffff
  const JOIN_NONCES := 0x100_0000   // the join nonce is a 24-bit field

  datatype Kind = Join | Rejoin(rejoinType: bv8)

  /** A request, and whether the database's reading and writing statements succeeded for it. */
  datatype JoinReq = JoinReq(kind: Kind, nonce: uint16, readOk: bool, writeOk: bool)

  datatype Outcome = Issued(joinNonce: nat) | ActivationDisallowed | JoinReqFailed | Other

  /** The nullable columns DevNonce_last and RJcount1_last, and joinNonce. */
  datatype Ledger = Ledger(devNonceLast: Option<nat>, rjCountLast: Option<nat>, joinNonce: nat)

  function Column(l: Ledger, k: Kind): Option<nat> {
    if k.Join? then l.devNonceLast else l.rjCountLast
  }

  function Last(column: Option<nat>): nat {
    if column.Some? then column.value else 0
  }

  /** Column + 1 as SQL computes it. */
  function Bumped(column: Option<nat>): Option<nat> {
    if column.Some? then Some(column.value + 1) else None
  }

  /** Types 0 and 2 only: type 1 runs into the branch for unknown types as well. */
  predicate Known(k: Kind) {
    k.Join? || k.rejoinType == 0 || k.rejoinType == 2
  }

  function Judge(l: Ledger, r: JoinReq): Outcome {
    if !Known(r.kind) then Other
    else if !r.readOk then JoinReqFailed
    else if r.nonce as nat <= Last(Column(l, r.kind)) then ActivationDisallowed
    else if !r.writeOk then JoinReqFailed
    else Issued(l.joinNonce)
  }

  function Advance(l: Ledger, r: JoinReq): Ledger {
    if !Judge(l, r).Issued? then l
    else if r.kind.Join? then Ledger(Bumped(l.devNonceLast), l.rjCountLast, l.joinNonce + 1)
    else Ledger(l.devNonceLast, Bumped(l.rjCountLast), l.joinNonce + 1)
  }

  function After(l: Ledger, rs: seq<JoinReq>): Ledger {
    if rs == [] then l else Advance(After(l, rs[..|rs| - 1]), rs[|rs| - 1])
  }

  /** The join nonces handed out by a sequence of requests. */
  function IssuedBy(l: Ledger, rs: seq<JoinReq>): seq<nat> {
    if rs == [] then [] else
    var o := Judge(After(l, rs[..|rs| - 1]), rs[|rs| - 1]);
    IssuedBy(l, rs[..|rs| - 1]) + if o.Issued? then [o.joinNonce] else []
  }

  /** A device's row, updated per request. */
  class JoinMote {
    var devNonceLast: Option<nat>
    var rjCountLast: Option<nat>
    var joinNonce: nat
    var nonces: set<uint16>

    /** A row as the table's defaults make it, and no rows in nonces. */
    constructor ()
      ensures View() == Ledger(Some(0), Some(0), 0) && nonces == {}
    {
      devNonceLast, rjCountLast, joinNonce, nonces := Some(0), Some(0), 0, {};
    }

    function View(): Ledger
      reads this
    {
      Ledger(devNonceLast, rjCountLast, joinNonce)
    }

    /** The 1.1 branch: the column is compared, then it and joinNonce are advanced by one. */
    method TakeNonce(r: JoinReq) returns (o: Outcome)
      modifies `devNonceLast, `rjCountLast, `joinNonce
      ensures o == Judge(old(View()), r) && View() == Advance(old(View()), r)
      ensures var column := old(if r.kind.Join? then devNonceLast else rjCountLast);
              var last := if column.Some? then column.value else 0;
              if !r.kind.Join? && r.kind.rejoinType != 0 && r.kind.rejoinType != 2 then o == Other
              else if r.readOk && r.nonce as nat <= last then o == ActivationDisallowed
              else o == if r.readOk && r.writeOk then Issued(old(joinNonce)) else JoinReqFailed
      ensures joinNonce == old(joinNonce) + (if o.Issued? then 1 else 0)
      ensures o.Issued? ==>
                var column := old(if r.kind.Join? then devNonceLast else rjCountLast);
                var next := if column.Some? then Some(column.value + 1) else None;
                if r.kind.Join? then devNonceLast == next && rjCountLast == old(rjCountLast)
                else rjCountLast == next && devNonceLast == old(devNonceLast)
      ensures !o.Issued? ==> devNonceLast == old(devNonceLast) && rjCountLast == old(rjCountLast)
    {
      if r.kind.Rejoin? && !(r.kind.rejoinType == 0 || r.kind.rejoinType == 2) {
        return Other;
      }
      if !r.readOk {
        return JoinReqFailed;
      }
      var nonceLast := 0;
      var column := if r.kind.Join? then devNonceLast else rjCountLast;
      if column.Some? {
        nonceLast := column.value;
      }
      if r.nonce as nat <= nonceLast {
        return ActivationDisallowed;
      }
      o := Issued(joinNonce);
      if !r.writeOk {
        return JoinReqFailed;
      }
      if r.kind.Join? {
        devNonceLast := Bumped(devNonceLast);
      } else {
        rjCountLast := Bumped(rjCountLast);
      }
      joinNonce := joinNonce + 1;
    }

    /** The 1.0 branch: a nonce found in the table, or a failing query, refuses the request; a failing insert does not. */
    method TakeOldNonce(nonce: uint16, queryOk: bool, insertOk: bool) returns (accepted: bool)
      modifies `nonces
      ensures accepted == Admits(old(nonces), nonce, queryOk)
      ensures nonces == Recorded(old(nonces), nonce, queryOk, insertOk)
      ensures accepted == (queryOk && nonce !in old(nonces))
      ensures nonces == old(nonces) + (if accepted && insertOk then {nonce} else {})
    {
      if !queryOk || nonce in nonces {
        return false;
      }
      if insertOk {
        nonces := nonces + {nonce};
      }
      accepted := true;
    }
  }

  // ---- LoRaWAN 1.1: join nonces ----

  /** The ledger's books balance: each issued nonce is the next one, and is paid for by one of the two columns. */
  lemma {:induction false} BooksBalance(l: Ledger, rs: seq<JoinReq>)
    ensures var t, issued := After(l, rs), IssuedBy(l, rs);
            t.joinNonce == l.joinNonce + |issued| && (forall k :: 0 <= k < |issued| ==> issued[k] == l.joinNonce + k)
    ensures var t := After(l, rs);
            t.devNonceLast.Some? == l.devNonceLast.Some? && t.rjCountLast.Some? == l.rjCountLast.Some? &&
            (l.devNonceLast.Some? && l.rjCountLast.Some? ==>
               |IssuedBy(l, rs)| == (Last(t.devNonceLast) - Last(l.devNonceLast)) + (Last(t.rjCountLast) - Last(l.rjCountLast)))
  {
    if rs != [] {
      BooksBalance(l, rs[..|rs| - 1]);
    }
  }

  /** A column advances only below the 16-bit nonce that was compared with it. */
  lemma {:induction false} ColumnsAreBounded(l: Ledger, rs: seq<JoinReq>)
    requires Last(l.devNonceLast) <= LAST_NONCE && Last(l.rjCountLast) <= LAST_NONCE
    ensures Last(After(l, rs).devNonceLast) <= LAST_NONCE && Last(After(l, rs).rjCountLast) <= LAST_NONCE
  {
    if rs != [] {
      ColumnsAreBounded(l, rs[..|rs| - 1]);
    }
  }

  /** n requests with nonce 1: enough to be accepted n times while the column is NULL. */
  function Ones(kind: Kind, n: nat): seq<JoinReq> {
    seq(n, _ => JoinReq(kind, 1, true, true))
  }

  lemma {:induction false} NullNeverAdvances(l: Ledger, kind: Kind, n: nat)
    requires Known(kind) && Column(l, kind).None?
    ensures |IssuedBy(l, Ones(kind, n))| == n && Column(After(l, Ones(kind, n)), kind).None?
  {
    if n > 0 {
      NullNeverAdvances(l, kind, n - 1);
      assert Ones(kind, n)[..n - 1] == Ones(kind, n - 1);
    }
  }

  /** Of any sequence of requests at most 2 * 65535 are accepted. That holds exactly for rows without NULL columns: a NULL
      column reads as 0 and stays NULL. */
  lemma AcceptancesAreBoundedIff(l: Ledger)
    requires Last(l.devNonceLast) <= LAST_NONCE && Last(l.rjCountLast) <= LAST_NONCE
    ensures (forall rs :: |IssuedBy(l, rs)| <= 2 * LAST_NONCE) <==> l.devNonceLast.Some? && l.rjCountLast.Some?
  {
    if l.devNonceLast.Some? && l.rjCountLast.Some? {
      forall rs
        ensures |IssuedBy(l, rs)| <= 2 * LAST_NONCE
      {
        BooksBalance(l, rs);
        ColumnsAreBounded(l, rs);
      }
    } else {
      var kind := if l.devNonceLast.None? then Join else Rejoin(0);
      NullNeverAdvances(l, kind, 2 * LAST_NONCE + 1);
      assert |IssuedBy(l, Ones(kind, 2 * LAST_NONCE + 1))| > 2 * LAST_NONCE;
    }
  }

  /** The 24 bits of ja->fields._joinNonce. */
  function NonceField(joinNonce: nat): bv32 {
    Join3(ByteOf(joinNonce % 256), ByteOf(joinNonce / 256 % 256), ByteOf(joinNonce / 0x1_0000 % 256))
  }

  function Join3(low: bv8, mid: bv8, high: bv8): bv32 {
    low as bv32 | (mid as bv32 << 8) | (high as bv32 << 16)
  }

  lemma Join3Injective(a: bv8, b: bv8, c: bv8, x: bv8, y: bv8, z: bv8)
    ensures Join3(a, b, c) < 0x100_0000
    ensures Join3(a, b, c) == Join3(x, y, z) ==> a == x && b == y && c == z
  {
  }

  lemma NonceFieldInjective(a: nat, b: nat)
    requires a < JOIN_NONCES && b < JOIN_NONCES && a != b
    ensures NonceField(a) != NonceField(b) && NonceField(a) < 0x100_0000
  {
    hide Join3, ByteOf;
    var a0, a1, a2, b0, b1, b2 := a % 256, a / 256 % 256, a / 0x1_0000 % 256, b % 256, b / 256 % 256, b / 0x1_0000 % 256;
    Join3Injective(ByteOf(a0), ByteOf(a1), ByteOf(a2), ByteOf(b0), ByteOf(b1), ByteOf(b2));
    SomeByteDiffers(a, b);
    if a0 != b0 {
      BytesDiffer(a0, b0);
    } else if a1 != b1 {
      BytesDiffer(a1, b1);
    } else {
      BytesDiffer(a2, b2);
    }
  }

  lemma SomeByteDiffers(a: nat, b: nat)
    requires a < JOIN_NONCES && b < JOIN_NONCES && a != b
    ensures a % 256 != b % 256 || a / 256 % 256 != b / 256 % 256 || a / 0x1_0000 % 256 != b / 0x1_0000 % 256
  {
    Recomposed(a);
    Recomposed(b);
  }

  /** From the row's defaults on, no session key of one type and root key is ever derived twice, whatever the requests
      were: the 24-bit join nonces never wrap, and so the derivation inputs all differ. */
  lemma SessionKeysNeverRepeat(l: Ledger, rs: seq<JoinReq>, i: nat, k: nat, t: KeyType, root: Key, a: JoinContext, b: JoinContext)
    requires l.devNonceLast.Some? && l.rjCountLast.Some? && l.joinNonce + 2 * LAST_NONCE <= JOIN_NONCES
    requires Last(l.devNonceLast) <= LAST_NONCE && Last(l.rjCountLast) <= LAST_NONCE
    requires i < k < |IssuedBy(l, rs)|
    requires a.joinNonce == NonceField(IssuedBy(l, rs)[i]) && b.joinNonce == NonceField(IssuedBy(l, rs)[k])
    ensures IssuedBy(l, rs)[k] < JOIN_NONCES && IssuedBy(l, rs)[i] != IssuedBy(l, rs)[k]
    ensures SessionInput(t, a) != SessionInput(t, b) && SessionKey(t, root, a) != SessionKey(t, root, b)
  {
    hide SessionInput, SessionKey, NonceField;
    BooksBalance(l, rs);
    ColumnsAreBounded(l, rs);
    NonceFieldInjective(IssuedBy(l, rs)[i], IssuedBy(l, rs)[k]);
    NonceFieldInjective(IssuedBy(l, rs)[k], IssuedBy(l, rs)[i]);
    DistinctNoncesGiveDistinctKeys(t, root, a, b);
  }

  // ---- LoRaWAN 1.0: device nonces ----

  predicate Admits(nonces: set<uint16>, nonce: uint16, queryOk: bool) {
    queryOk && nonce !in nonces
  }

  function Recorded(nonces: set<uint16>, nonce: uint16, queryOk: bool, insertOk: bool): set<uint16> {
    if Admits(nonces, nonce, queryOk) && insertOk then nonces + {nonce} else nonces
  }

  datatype OldReq = OldReq(nonce: uint16, queryOk: bool, insertOk: bool)

  function NoncesAfter(nonces: set<uint16>, rs: seq<OldReq>): set<uint16> {
    if rs == [] then nonces else
    var r := rs[|rs| - 1];
    Recorded(NoncesAfter(nonces, rs[..|rs| - 1]), r.nonce, r.queryOk, r.insertOk)
  }

  predicate AcceptedAt(nonces: set<uint16>, rs: seq<OldReq>, k: nat)
    requires k < |rs|
  {
    Admits(NoncesAfter(nonces, rs[..k]), rs[k].nonce, rs[k].queryOk)
  }

  lemma {:induction false} RecordedStays(nonces: set<uint16>, rs: seq<OldReq>, i: nat, k: nat)
    requires i < k <= |rs| && AcceptedAt(nonces, rs, i) && rs[i].insertOk
    ensures rs[i].nonce in NoncesAfter(nonces, rs[..k])
    decreases k
  {
    assert rs[..k][..k - 1] == rs[..k - 1];
    if k - 1 > i {
      RecordedStays(nonces, rs, i, k - 1);
    }
  }

  lemma RecordedNonceIsRefused(nonces: set<uint16>, rs: seq<OldReq>, i: nat, k: nat)
    requires i < k < |rs| && AcceptedAt(nonces, rs, i) && rs[i].insertOk && AcceptedAt(nonces, rs, k)
    ensures rs[k].nonce != rs[i].nonce
  {
    RecordedStays(nonces, rs, i, k);
  }

  /** The nonce of request i is not accepted again in this sequence. */
  ghost predicate NotAgain(nonces: set<uint16>, rs: seq<OldReq>, i: nat)
    requires i < |rs|
  {
    forall k :: i < k < |rs| && AcceptedAt(nonces, rs, k) ==> rs[k].nonce != rs[i].nonce
  }

  /** The promise that an accepted device nonce is never accepted again holds, whatever the requests after it are, exactly
      if the nonce could be inserted. */
  lemma AcceptedNonceNeverRepeatsIff(nonces: set<uint16>, front: seq<OldReq>, r: OldReq)
    requires Admits(NoncesAfter(nonces, front), r.nonce, r.queryOk)
    ensures (forall rest: seq<OldReq> :: NotAgain(nonces, front + [r] + rest, |front|)) <==> r.insertOk
  {
    if r.insertOk {
      forall rest: seq<OldReq>
        ensures NotAgain(nonces, front + [r] + rest, |front|)
      {
        var rs, n := front + [r] + rest, |front|;
        assert rs[..n] == front && rs[n] == r;
        forall k | n < k < |rs| && AcceptedAt(nonces, rs, k)
          ensures rs[k].nonce != rs[n].nonce
        {
          RecordedNonceIsRefused(nonces, rs, n, k);
        }
      }
    } else {
      LostNonceRepeats(nonces, front, r);
    }
  }

  /** Otherwise the same request is accepted a second time. */
  lemma LostNonceRepeats(nonces: set<uint16>, front: seq<OldReq>, r: OldReq)
    requires Admits(NoncesAfter(nonces, front), r.nonce, r.queryOk) && !r.insertOk
    ensures !NotAgain(nonces, front + [r] + [r], |front|)
  {
    var rs, n := front + [r] + [r], |front|;
    assert rs[..n + 1] == front + [r] && (front + [r])[..n] == front;
    assert AcceptedAt(nonces, rs, n + 1) && rs[n + 1].nonce == rs[n].nonce;
  }

  /** Nonce 7 accepted twice from an empty table: its first insert fails. */
  lemma SevenIsAcceptedTwice()
    ensures var rs := [OldReq(7, true, false), OldReq(7, true, true)]; AcceptedAt({}, rs, 0) && AcceptedAt({}, rs, 1)
  {
    var rs := [OldReq(7, true, false), OldReq(7, true, true)];
    assert rs[..1] == [OldReq(7, true, false)];
  }
}
