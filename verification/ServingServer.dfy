/** The downlink state of one mote in network_server/sNS.c, updated in place. */
module ServingServer {
  import opened Fips197
  import opened Rfc4493
  import opened PayloadCipher
  import opened MacQueue
  import opened Basics
  import opened DataFrame
  import opened DownlinkFrame
  import opened DownlinkCounters

  const FRM_SIZE := 244   // FRMPayloadBin

  /** The part of DLMetaData_t the steps read, and the transaction identifier stored beside it. */
  datatype Metadata = Metadata(tid: uint32, counter: uint32, port: bv8, confirmed: bool)

  class ServingMote {
    const optNeg: bool
    const address: bv32
    const nwkSEncKey: Key
    const sNwkSIntKey: Key
    const queue: CommandQueue
    const phy: array<bv8>
    var nFCntDown: uint32
    var aFCntDown: uint32
    var phyLen: nat
    var confirmedPhy: seq<bv8>
    var frm: seq<bv8>
    var md: Metadata
    var incr: bool
    var newFCntUp: bool
    var upResent: bool
    var answerDue: bool
    ghost var pending: Option<Scheduled>
    ghost var saved: Option<Scheduled>

    /** calloc of the mote state in a session whose counter stands at start. */
    constructor (optNeg: bool, address: bv32, nwkSEncKey: Key, sNwkSIntKey: Key, start: uint32)
      ensures Valid() && fresh(queue) && fresh(queue.slots) && fresh(phy) && queue.Live() == []
      ensures View() == Ns(optNeg, address, nwkSEncKey, start, false, false, false, None, None, None, 0, false) && Fresh(View())
      ensures this.nwkSEncKey == nwkSEncKey && this.sNwkSIntKey == sNwkSIntKey
    {
      this.optNeg, this.address, this.nwkSEncKey, this.sNwkSIntKey := optNeg, address, nwkSEncKey, sNwkSIntKey;
      queue := new CommandQueue();
      phy := new bv8[PHY_SIZE](_ => 0);
      nFCntDown, aFCntDown, phyLen, confirmedPhy, frm, md := start, 0, 0, [], [], Metadata(0, 0, 0, false);
      incr, newFCntUp, upResent, answerDue, pending, saved := false, false, false, false, None, None;
    }

    function Waiting(): Option<Request>
      reads this
    {
      if frm == [] then None else Some(Request(md.tid, md.counter, md.port, md.confirmed, frm))
    }

    /** The state the steps are specified on. */
    ghost function View(): Ns
      requires phy.Length == PHY_SIZE
      reads this, phy
    {
      Ns(optNeg, address, nwkSEncKey, nFCntDown, incr, newFCntUp, upResent, Waiting(), pending, saved, phy[0], answerDue)
    }

    /** The bytes are the encoding of the scheduled frame. */
    ghost predicate Holds(bytes: seq<bv8>, f: Option<Scheduled>) {
      if f.Some? then FrameOk(f.value.frame) && bytes == Encode(f.value.frame, f.value.confFCnt, sNwkSIntKey) else bytes == []
    }

    lemma HoldsLength(bytes: seq<bv8>, f: Option<Scheduled>)
      requires Holds(bytes, f)
      ensures f.Some? <==> bytes != []
    {
      hide CmacOf, Message, DownBlock;
    }

    lemma HoldsFirst(bytes: seq<bv8>, f: Option<Scheduled>)
      requires Holds(bytes, f) && bytes != []
      ensures f.Some? && bytes[0] == f.value.frame.mhdr
    {
      hide Encode, Message;
      FirstByte(f.value.frame, f.value.confFCnt, sNwkSIntKey);
    }

    lemma HoldsNothing()
      ensures Holds([], None)
    {
    }

    ghost predicate Core()
      reads this, phy
    {
      phy.Length == PHY_SIZE && phyLen < PHY_SIZE && |confirmedPhy| < PHY_SIZE && |frm| <= FRM_SIZE &&
      Holds(phy[..phyLen], pending) && Holds(confirmedPhy, saved)
    }

    ghost predicate Valid()
      reads this, phy, queue, queue.slots
    {
      Core() && queue.Valid()
    }

    /** The part of sNS_uplink that touches the downlink's counters and flags. */
    method TakeUplink(ack: bool, resent: bool)
      requires Valid()
      modifies `nFCntDown, `incr, `newFCntUp, `upResent, `answerDue
      ensures Valid() && View() == UplinkStep(old(View()), ack, resent)
      ensures nFCntDown == (if ack && old(incr) then Succ(old(nFCntDown)) else old(nFCntDown)) && incr == (old(incr) && !ack)
      ensures answerDue == (old(answerDue) || (ack && md.confirmed && frm != [])) && newFCntUp && upResent == resent
    {
      hide Holds;
      newFCntUp := true;
      if ack {
        if incr {
          incr := false;
          nFCntDown := Succ(nFCntDown);
        }
        if md.confirmed && frm != [] {
          answerDue := true;
        }
      }
      upResent := resent;
    }

    /** hNS_to_sNS_downlink for a class A mote: the returned value is the counter needed when the request is refused. */
    method TakeRequest(q: Request) returns (refused: Option<uint32>)
      requires Valid() && |q.data| <= FRM_SIZE
      modifies `frm, `md
      ensures Valid() && View() == RequestStep(old(View()), q)
      ensures refused == if Accepts(old(View()), q) then None else Some(Needed(old(View())))
      ensures var needed := if incr then Succ(nFCntDown) else nFCntDown;
              if optNeg || q.counter == needed then refused.None? && frm == q.data && md == Metadata(q.tid, q.counter, q.port, q.confirmed)
              else refused == Some(needed) && frm == old(frm) && md == old(md)
    {
      hide Holds;
      if !optNeg {
        var needed := nFCntDown;
        if incr {
          needed := Succ(needed);
        }
        if q.counter != needed {
          return Some(needed);
        }
      }
      frm := q.data;
      md := Metadata(q.tid, q.counter, q.port, q.confirmed);
      refused := None;
    }

    /** The counting half of sNSDownlinkSent. */
    method CountDownlink(ok: bool)
      requires Valid() && phyLen != 0
      modifies `nFCntDown, `incr, `phyLen, `pending
      ensures Valid() && View() == CountSent(old(View()), ok) && phyLen == if ok then 0 else old(phyLen)
    {
      hide Holds, MTypeOf, Encode;
      HoldsLength(phy[..phyLen], pending);
      if ok {
        if MTypeOf(phy[0]) == MTYPE_UNCONF_DN && incr {
          nFCntDown := Succ(nFCntDown);
          incr := false;
        }
        phyLen, pending := 0, None;
        assert phy[..phyLen] == [];
        HoldsNothing();
      }
    }

    /** answer_app_downlink: the payload is forgotten if the answer could be posted. */
    method AnswerApp(posted: bool)
      requires Valid()
      modifies `frm, `answerDue
      ensures Valid() && View() == Answered(old(View()), posted) && frm == if posted then [] else old(frm)
    {
      hide Holds;
      answerDue := false;
      if posted {
        frm := [];
      }
    }

    /** sNSDownlinkSent and the answer due at the end of sNS_finish_phy_downlink. */
    method DownlinkSent(ok: bool, posted: bool) returns (answer: Option<Answer>)
      requires Valid()
      modifies `nFCntDown, `incr, `phyLen, `frm, `answerDue, `pending
      ensures Valid() && View() == SentStep(old(View()), ok, posted)
      ensures answer == AnswerOf(old(View()), ok)
      ensures phyLen == (if ok then 0 else old(phyLen)) && frm == if answer.Some? && posted then [] else old(frm)
      ensures answer == if old(phyLen) > 0 && !md.confirmed && old(frm) != [] then Some(if ok then Success else Failure)
                        else if old(answerDue) then Some(Success) else None
      ensures nFCntDown == if ok && old(phyLen) > 0 && phy[0] >> 5 == 3 && old(incr) then Succ(old(nFCntDown)) else old(nFCntDown)
    {
      hide Holds, MTypeOf, Encode, CountSent, Answered;
      answer := None;
      HoldsLength(phy[..phyLen], pending);
      CountSentFacts(View(), ok);
      UnconfirmedType(phy[0]);
      if phyLen != 0 {
        CountDownlink(ok);
        if !md.confirmed && frm != [] {
          answer := Some(if ok then Success else Failure);
          AnswerApp(posted);
          return;
        }
      }
      if answerDue {
        answer := Some(Success);
        AnswerApp(posted);
      }
    }

    /** An uplink with a fresh counter fails its integrity check: in 1.1 a saved confirmed downlink is copied back. */
    method ResendConfirmed()
      requires Valid()
      modifies `phyLen, `pending, `newFCntUp, phy
      ensures Valid() && View() == ResendStep(old(View())) && newFCntUp
      ensures if optNeg && confirmedPhy != [] then phyLen == |confirmedPhy| && phy[..phyLen] == confirmedPhy
              else phyLen == old(phyLen) && phy[..] == old(phy[..])
    {
      hide Holds, CmacOf, Message, DownBlock;
      HoldsLength(confirmedPhy, saved);
      newFCntUp := true;
      if optNeg && confirmedPhy != [] {
        CopyInto(phy, 0, confirmedPhy);
        phyLen, pending := |confirmedPhy|, saved;
        HoldsFirst(confirmedPhy, saved);
        assert phy[..phyLen] == confirmedPhy;
        assert phy[0] == phy[..phyLen][0];
      }
    }

    function NwkContext(): Context
      reads this
    {
      Context(nwkSEncKey, address, false, BitsOf(nFCntDown as nat))
    }

    /** The user payload, if it may go into this frame, and the first byte the frame then has. */
    method ChooseBody() returns (usingAF: bool, body: Option<Body>, mhdr: bv8)
      requires Core()
      modifies `aFCntDown
      ensures usingAF == UsesAF(old(View())) && mhdr == NewMhdr(old(View()))
      ensures body == if Places(old(View())) then Some(Body(md.port, frm)) else None
      ensures usingAF ==> aFCntDown == md.counter
    {
      hide Holds, WithMType;
      usingAF, body, mhdr := false, None, phy[0];
      if !upResent && frm != [] {
        var fail := false;
        if optNeg {
          usingAF := true;
          aFCntDown := md.counter;
        } else if md.counter != nFCntDown {
          fail := true;
        }
        if !fail {
          body := Some(Body(md.port, frm));
          mhdr := WithMType(phy[0], if md.confirmed then MTYPE_CONF_DN else MTYPE_UNCONF_DN);
        }
      } else {
        mhdr := WithMType(phy[0], MTYPE_UNCONF_DN);
      }
    }

    /** The frame is written into PHYPayloadBin behind the FOpts that are already there. */
    method WriteFrame(n: nat, f: Frame, confFCnt: bv32)
      requires phy.Length == PHY_SIZE && FrameOk(f) && n == |f.fopts|
      requires phy[5] == n as bv8 && phy[MAC_HEADER..MAC_HEADER + n] == f.fopts
      modifies `phyLen, phy
      ensures phyLen < PHY_SIZE && phy[..phyLen] == Encode(f, confFCnt, sNwkSIntKey) && phy[0] == f.mhdr
    {
      hide Encode, Message, WithAck, FCtrl, BodyBytes, IsBlock, Rfc4493.Cmac;
      ghost var from, to := MAC_HEADER + n, |Message(f)|;
      PutBody(phy, n, f.mhdr, f.body);
      assert phy[5] == phy[1..from][4];
      assert phy[MAC_HEADER..from] == phy[1..from][MAC_HEADER - 1..];
      assert phy[MAC_HEADER..to] == phy[MAC_HEADER..from] + phy[from..to];
      PutHeader(phy, f);
      ghost var b;
      phyLen, b := Seal(phy, f, confFCnt, sNwkSIntKey);
      FirstByte(f, confFCnt, sNwkSIntKey);
      assert phy[0] == phy[..phyLen][0];
    }

    /** The two early returns of sNS_schedule_downlink. */
    method NeedsDownlink(rx: Rx) returns (needed: bool)
      requires Valid()
      ensures needed <==> Builds(View(), rx, queue.Live() != [])
    {
      hide Holds, Encode;
      HoldsLength(phy[..phyLen], pending);
      HoldsLength(confirmedPhy, saved);
      if phyLen > 0 && !(optNeg && rx.Data? && rx.confirmed) {
        return false;
      }
      var uplinkForcesDownlink := false;
      if rx.Data? {
        if rx.adrAckReq || (!rx.ack && confirmedPhy != []) {
          uplinkForcesDownlink := true;
        }
      } else if confirmedPhy != [] {
        uplinkForcesDownlink := true;
      }
      var queued := queue.AreQueued();
      needed := (rx.Data? && rx.confirmed) || uplinkForcesDownlink || queued || frm != [];
    }

    /** The queue's share of the next frame. */
    ghost function NextDrained(): Drained
      requires queue.Valid()
      reads this, queue, queue.slots
    {
      var list := queue.Live();
      FittingIsLongest(list, MAX_FOPTS);
      Bytes(list[..Fitting(list, MAX_FOPTS)])
    }

    /** The frame that a downlink built now would be fits 255 bytes. */
    ghost predicate FrameFits(rx: Rx)
      requires Valid()
      reads this, phy, queue, queue.slots
    {
      FrameOk(Built(View(), rx, NextDrained()).frame)
    }

    /** The choice of payload, counter and echoed uplink counter, once the n bytes of FOpts stand in PHYPayloadBin. */
    method ComposeFrame(rx: Rx, n: nat, ghost drained: Drained) returns (f: Frame, usingAF: bool, confFCnt: bv32)
      requires Core() && n == |drained| && phy[MAC_HEADER..MAC_HEADER + n] == FOptsOf(optNeg, FOptsContext(View()), drained)
      modifies `aFCntDown, `incr, `newFCntUp
      ensures Core()
      ensures var s := old(View());
              Scheduled(f, !usingAF, confFCnt, if f.body.Some? then Waiting() else None) == Built(s, rx, drained) &&
              View() == s.(incr := !usingAF, newFCntUp := s.newFCntUp && !EchoesFCnt(s, rx))
    {
      hide Holds, NewMhdr, FOptsOf, FOptsContext;
      var body, mhdr;
      usingAF, body, mhdr := ChooseBody();
      var counter := nFCntDown;
      if usingAF {
        counter := aFCntDown;
      }
      incr := !usingAF;
      f := Frame(mhdr, address, rx.Data? && rx.confirmed, phy[MAC_HEADER..MAC_HEADER + n], counter, body);
      confFCnt := 0;
      if rx.Data? && newFCntUp && optNeg && f.ack {
        confFCnt := rx.counter;
        newFCntUp := false;
      }
    }

    /** A confirmed downlink is kept for sending again, an unconfirmed one ends that. */
    method SaveConfirmed()
      requires Core() && pending.Some?
      modifies `confirmedPhy, `saved
      ensures Core()
      ensures View() == Saved(old(View()))
    {
      hide Holds, MTypeOf;
      HoldsNothing();
      HoldsLength(confirmedPhy, saved);
      if MTypeOf(phy[0]) == MTYPE_UNCONF_DN {
        confirmedPhy, saved := [], None;
      } else if MTypeOf(phy[0]) == MTYPE_CONF_DN {
        confirmedPhy, saved := phy[..phyLen], pending;
      }
    }

    /** The composed frame becomes the unsent downlink. */
    method PutFrame(n: nat, ghost built: Scheduled, f: Frame, confFCnt: bv32)
      requires Core() && FrameOk(f) && n == |f.fopts| && built.frame == f && built.confFCnt == confFCnt
      requires phy[5] == n as bv8 && phy[MAC_HEADER..MAC_HEADER + n] == f.fopts
      modifies `phyLen, `pending, phy
      ensures Core() && pending == Some(built) && View() == old(View()).(pending := Some(built), mhdr := f.mhdr)
    {
      hide Encode, FrameOk;
      WriteFrame(n, f, confFCnt);
      pending := Some(built);
    }

    /** The second half of sNS_schedule_downlink. */
    method BuildFrame(rx: Rx, n: nat, ghost drained: Drained)
      requires Core() && pending.None? && n == |drained| && phy[5] == n as bv8 && FrameOk(Built(View(), rx, drained).frame)
      requires phy[MAC_HEADER..MAC_HEADER + n] == FOptsOf(optNeg, FOptsContext(View()), drained)
      modifies `aFCntDown, `incr, `newFCntUp, `phyLen, `confirmedPhy, `pending, `saved, phy
      ensures Core() && View() == Store(old(View()), rx, Built(old(View()), rx, drained))
    {
      hide Encode, MTypeOf, Built, EchoesFCnt, Message, FOptsOf, FOptsContext, FrameOk, Holds, Saved;
      BuiltFOpts(View(), rx, drained);
      var f, usingAF, confFCnt := ComposeFrame(rx, n, drained);
      ghost var built := Scheduled(f, !usingAF, confFCnt, if f.body.Some? then Waiting() else None);
      assert built == Built(old(View()), rx, drained);
      PutFrame(n, built, f, confFCnt);
      SaveConfirmed();
    }

    /** The unsent downlink is forgotten: what follows overwrites PHYPayloadLen and PHYPayloadBin. */
    method DropUnsent()
      requires Valid()
      modifies `phyLen, `pending
      ensures Valid() && View() == old(View()).(pending := None) && phyLen == 0
    {
      hide Encode;
      phyLen, pending := 0, None;
      assert phy[..phyLen] == [];
    }

    /** The steps of sNS_schedule_downlink. In 1.1 the FOpts are encrypted under NFCntDown even if the frame is counted on
        AFCntDown. */
    method Schedule(rx: Rx) returns (built: bool)
      requires Valid() && !Garbles(View(), rx)
      requires Builds(View(), rx, queue.Live() != []) ==> FrameFits(rx)
      modifies `aFCntDown, `incr, `newFCntUp, `phyLen, `confirmedPhy, `pending, `saved, phy, queue.slots
      ensures Valid() && View() == ScheduleStep(old(View()), rx, old(queue.Live()) != [], old(NextDrained()))
      ensures built <==> Builds(old(View()), rx, old(queue.Live()) != [])
      ensures !built ==> phyLen == old(phyLen) && phy[..] == old(phy[..])
      ensures var list := old(queue.Live());
              var sent := list[..Fitting(list, MAX_FOPTS)];
              queue.Live() == if built then Answerable(sent) + list[|sent|..] else list
    {
      hide Encode, Bytes, Fitting, Answerable, FOptsOf, Built, Store, LiveFrom, HeldFrom, FrameOk;
      ghost var s, drained := View(), NextDrained();
      built := NeedsDownlink(rx);
      if !built {
        return;
      }
      DropUnsent();
      DroppedBuilds(s, rx, drained);
      var n := GetQueuedMacCmds(queue, phy, optNeg, NwkContext());
      assert phy[..phyLen] == [];
      assert phy[0] == phy[..MAC_HEADER + n][0] && phy[5] == phy[..MAC_HEADER + n][5];
      assert phy[MAC_HEADER..MAC_HEADER + n] == FOptsOf(optNeg, FOptsContext(View()), drained);
      BuildFrame(rx, n, drained);
    }

    /** A saved frame that is the unsent one has the same bytes. */
    lemma SameCopy(bytes: seq<bv8>, copy: seq<bv8>)
      requires Holds(bytes, pending) && Holds(copy, saved)
      ensures saved == pending ==> copy == bytes
      ensures saved.None? ==> copy == []
    {
      hide Encode, FrameOk;
    }

    lemma HoldsEncoding(bytes: seq<bv8>, f: Option<Scheduled>)
      requires Holds(bytes, f) && f.Some?
      ensures FrameOk(f.value.frame) && bytes == Encode(f.value.frame, f.value.confFCnt, sNwkSIntKey)
    {
      hide Encode, Message;
    }

    /** The fields and the specification's state agree on what is there. */
    lemma FieldsShow(s: Ns)
      requires Valid() && s == View()
      ensures (s.pending.Some? <==> phyLen > 0) && (s.saved.Some? <==> confirmedPhy != []) && (s.waiting.Some? <==> frm != [])
    {
      hide Holds;
      HoldsLength(phy[..phyLen], pending);
      HoldsLength(confirmedPhy, saved);
    }

    /** sNS_schedule_downlink. A frame is due when commands are queued, when the uplink was confirmed or asked for an ADR
        acknowledgement, when a confirmed downlink was not acknowledged, or when a payload waits. An unsent frame stays as
        it is, except that a confirmed 1.1 uplink replaces it. The new frame is the one OnAir describes; the longest
        prefix of the queue that fits fifteen bytes is in its FOpts, at least one command if there is any, and of it only
        the commands that need an answer stay queued. */
    method ScheduleDownlink(rx: Rx)
      requires Valid() && !Garbles(View(), rx)
      requires Builds(View(), rx, queue.Live() != []) ==> FrameFits(rx)
      modifies `aFCntDown, `incr, `newFCntUp, `phyLen, `confirmedPhy, `pending, `saved, phy, queue.slots
      ensures Valid() && View() == ScheduleStep(old(View()), rx, old(queue.Live()) != [], old(NextDrained()))
      ensures old(phyLen) == 0 ==>
                (phyLen > 0 <==> old(queue.Live()) != [] || (rx.Data? && rx.confirmed) || (rx.Data? && rx.adrAckReq) ||
                                 (old(confirmedPhy) != [] && !(rx.Data? && rx.ack)) || old(frm) != [])
      ensures old(phyLen) > 0 && !(optNeg && rx.Data? && rx.confirmed) ==>
                phyLen == old(phyLen) && phy[..] == old(phy[..]) && queue.Live() == old(queue.Live())
      ensures phyLen > 0 && (old(phyLen) == 0 || (optNeg && rx.Data? && rx.confirmed)) ==>
                Served(old(View()), rx, old(queue.Live()), queue.Live(), sNwkSIntKey, phy[..phyLen]) &&
                Noted(old(View()), rx, View()) && KeptToo(phy[..phyLen], confirmedPhy)
      ensures phyLen == 0 ==> queue.Live() == []
    {
      hide Encode, Bytes, Fitting, Answerable, Built, Builds, Store, LiveFrom, HeldFrom, FrameOk, Holds, OnAir, HasCode, Saved, Windowed, Zeroed;
      ghost var s, list, drained := View(), queue.Live(), NextDrained();
      FieldsShow(s);
      ReasonsAre(s, rx, list != []);
      if list != [] {
        FirstFits(queue.slots[..], queue.outIdx, queue.inIdx);
      }
      var built := Schedule(rx);
      FieldsShow(View());
      if built {
        BuiltFacts(s, rx, list != [], drained);
        BuiltOnAir(s, rx, drained, sNwkSIntKey);
        BuiltHasCode(s, rx, drained, sNwkSIntKey);
        HoldsEncoding(phy[..phyLen], pending);
        BuiltFOpts(s, rx, drained);
        StoreNotes(s, rx, Built(s, rx, drained));
        SameCopy(phy[..phyLen], confirmedPhy);
      }
    }
  }

  lemma ReasonsAre(s: Ns, rx: Rx, queued: bool)
    ensures Builds(s, rx, queued) <==>
            (s.pending.None? || (s.optNeg && rx.Data? && rx.confirmed)) &&
            (queued || (rx.Data? && rx.confirmed) || (rx.Data? && rx.adrAckReq) ||
             (s.saved.Some? && !(rx.Data? && rx.ack)) || s.waiting.Some?)
  {
  }

  /** The frame built in state s from a queue holding list, and what it leaves there. */
  ghost predicate Served(s: Ns, rx: Rx, list: seq<Command>, left: seq<Command>, key: Key, phy: seq<bv8>) {
    var n := Fitting(list, 15);
    (list != [] ==> n > 0) && left == Answerable(list[..n]) + list[n..] && OnAir(s, rx, Bytes(list[..n]), phy) && HasCode(s, rx, key, phy)
  }

  /** What the scheduler notes about the frame: it is counted on NFCntDown unless it carries a payload in 1.1, the uplink's
      counter is covered once, and a confirmed frame is kept for sending again. */
  ghost predicate Noted(s: Ns, rx: Rx, t: Ns) {
    t.n == s.n && t.waiting == s.waiting && t.upResent == s.upResent && t.answerDue == s.answerDue &&
    t.incr == !(s.waiting.Some? && !s.upResent && s.optNeg) &&
    t.newFCntUp == (s.newFCntUp && !(s.optNeg && rx.Data? && rx.confirmed)) &&
    t.saved == if t.mhdr >> 5 == 3 then None else if t.mhdr >> 5 == 5 then t.pending else s.saved
  }

  /** A confirmed transmission is kept for sending again, an unconfirmed one ends that. */
  predicate KeptToo(phy: seq<bv8>, copy: seq<bv8>) {
    phy != [] && (phy[0] >> 5 == 3 ==> copy == []) && (phy[0] >> 5 == 5 ==> copy == phy)
  }

  lemma StoreNotes(s: Ns, rx: Rx, f: Scheduled)
    requires f.onN == !UsesAF(s)
    ensures Noted(s, rx, Store(s, rx, f))
  {
  }

  /** The counter a frame for this state carries: AFCntDown's for a payload in 1.1. */
  function CounterOnAir(s: Ns): uint32 {
    if s.waiting.Some? && !s.upResent && s.optNeg then s.waiting.value.counter else s.n
  }

  /** What a receiver finds in the bytes of the frame built in state s for an uplink. */
  ghost predicate OnAir(s: Ns, rx: Rx, drained: seq<bv8>, phy: seq<bv8>) {
    var offered := s.waiting.Some? && !s.upResent;
    var placed := offered && (s.optNeg || s.waiting.value.counter == s.n);
    var p := ReadBack(phy);
    p.Some? && p.value.address == s.address && p.value.ack == (rx.Data? && rx.confirmed) &&
    p.value.counterLow == BitsOf(CounterOnAir(s) as nat) & 0xffff &&
    p.value.body == (if placed then Some(Body(s.waiting.value.port, s.waiting.value.data)) else None) &&
    (placed ==> p.value.mhdr >> 5 == if s.waiting.value.confirmed then 5 else 3) && (!offered ==> p.value.mhdr >> 5 == 3) &&
    (offered && !placed ==> p.value.mhdr == s.mhdr) && p.value.mhdr & 0x1f == s.mhdr & 0x1f &&
    |drained| <= 15 &&
    p.value.fopts == if s.optNeg then Crypt(Context(s.nwkSEncKey, s.address, false, BitsOf(s.n as nat)), 0, drained) else drained
  }

  /** Block B0 for n bytes of a frame for this state. In 1.1 the first answer to a confirmed uplink covers that uplink's
      counter. */
  predicate IsB0(s: Ns, rx: Rx, b: Block, n: nat)
    requires n < 256
  {
    var confFCnt := if s.newFCntUp && s.optNeg && rx.Data? && rx.confirmed then rx.counter else 0;
    IsBlock(b, confFCnt, 0, 0, true, s.address, BitsOf(CounterOnAir(s) as nat), n as bv8)
  }

  predicate CodedWith(s: Ns, rx: Rx, key: Key, phy: seq<bv8>, b: Block)
    requires 4 <= |phy| < 256
  {
    var n := |phy| - 4;
    IsB0(s, rx, b, n) && Rfc4493.Cmac(key, b + phy[..n])[..4] == phy[n..]
  }

  /** Its last four bytes are the code over block B0 and the bytes before them. */
  ghost predicate HasCode(s: Ns, rx: Rx, key: Key, phy: seq<bv8>) {
    4 <= |phy| < 256 && exists b: Block :: CodedWith(s, rx, key, phy, b)
  }

  lemma BuiltParts(s: Ns, rx: Rx, drained: Drained)
    ensures var f := Built(s, rx, drained).frame;
            f.address == s.address && f.ack == (rx.Data? && rx.confirmed) && f.counter == CounterOnAir(s) &&
            f.fopts == FOptsOf(s.optNeg, FOptsContext(s), drained)
    ensures Built(s, rx, drained).frame.mhdr == NewMhdr(s)
    ensures Built(s, rx, drained).frame.body == if Places(s) then Some(Body(s.waiting.value.port, s.waiting.value.data)) else None
  {
    hide FOptsOf, NewMhdr;
  }

  lemma NewType(s: Ns)
    ensures Places(s) ==> NewMhdr(s) >> 5 == if s.waiting.value.confirmed then 5 else 3
    ensures !Offers(s) ==> NewMhdr(s) >> 5 == 3
    ensures (Offers(s) && !Places(s) ==> NewMhdr(s) == s.mhdr) && NewMhdr(s) & 0x1f == s.mhdr & 0x1f
  {
    hide WithMType;
    TypesWritten(s.mhdr);
  }

  lemma BuiltOnAir(s: Ns, rx: Rx, drained: Drained, key: Key)
    requires FrameOk(Built(s, rx, drained).frame)
    ensures OnAir(s, rx, drained, Encode(Built(s, rx, drained).frame, Built(s, rx, drained).confFCnt, key))
  {
    hide Encode, ReadBack, Crypt, BitsOf, NewMhdr, FrameOk, Built, CounterOnAir;
    BuiltParts(s, rx, drained);
    NewType(s);
    ReadBackOfEncode(Built(s, rx, drained).frame, Built(s, rx, drained).confFCnt, key);
  }

  lemma BuiltHasCode(s: Ns, rx: Rx, drained: Drained, key: Key)
    requires FrameOk(Built(s, rx, drained).frame)
    ensures HasCode(s, rx, key, Encode(Built(s, rx, drained).frame, Built(s, rx, drained).confFCnt, key))
  {
    hide IsBlock, AuthBlock, BitsOf, NewMhdr, FOptsOf, Rfc4493.Cmac, Message;
    var f, confFCnt := Built(s, rx, drained).frame, Built(s, rx, drained).confFCnt;
    AuthBlockHasBytes(confFCnt, 0, 0, true, f.address, BitsOf(f.counter as nat), |Message(f)| as bv8);
    EncodedCodeIs(f, confFCnt, key, DownBlock(f, confFCnt));
    assert CodedWith(s, rx, key, Encode(f, confFCnt, key), DownBlock(f, confFCnt));
  }

  lemma UnconfirmedType(mhdr: bv8)
    ensures MTypeOf(mhdr) == MTYPE_UNCONF_DN <==> mhdr >> 5 == 3
  {
  }

  lemma TypesWritten(mhdr: bv8)
    ensures WithMType(mhdr, 3) >> 5 == 3 && WithMType(mhdr, 5) >> 5 == 5
    ensures WithMType(mhdr, 3) & 0x1f == mhdr & 0x1f && WithMType(mhdr, 5) & 0x1f == mhdr & 0x1f
  {
  }

  /** A frame does not depend on the one it replaces. */
  lemma DroppedBuilds(s: Ns, rx: Rx, drained: Drained)
    ensures var t, f := s.(pending := None), Built(s, rx, drained);
            Built(t, rx, drained) == f && Store(t, rx, f) == Store(s, rx, f)
  {
    hide FOptsOf, MTypeOf, WithMType;
  }

  lemma BuiltFOpts(s: Ns, rx: Rx, drained: Drained)
    ensures var f := Built(s, rx, drained);
            f.frame.fopts == FOptsOf(s.optNeg, FOptsContext(s), drained) && f.onN == !UsesAF(s)
  {
    hide FOptsOf, NewMhdr;
  }

  lemma FirstByte(f: Frame, confFCnt: bv32, key: Key)
    requires FrameOk(f)
    ensures Encode(f, confFCnt, key)[0] == f.mhdr
  {
    hide CmacOf, DownBlock, FCtrl;
  }
}
