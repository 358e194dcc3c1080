/** From the application server to the device: send_downlink of app_server/main.c and the XmitDataAns branch of
    app_server/web.c together with the serving network server's downlink steps. */
module DownlinkDelivery {
  import opened Fips197
  import opened Aes
  import opened Rfc4493
  import opened PayloadCipher
  import opened Basics
  import opened DataFrame
  import opened DownlinkFrame
  import opened DownlinkCounters

  type Payload = p: seq<bv8> | |p| <= 255

  /** A downlink as the application asked for it. */
  datatype Msg = Msg(plain: Payload, port: bv8, confirmed: bool)

  /** What the network server sends back. */
  datatype Mail = Delivered | Failed | Rejected(counter: uint32, msg: Msg)

  /** The application server's session: the AppSKey, AFCntDown as stored in activemotes, and the next transaction identifier. */
  datatype Sys = Sys(ns: Ns, key: Key, af: uint32, tid: uint32, mail: seq<Mail>)

  /** send_downlink encrypts under AFCntDown and reports that counter. */
  function RequestFor(key: Key, address: bv32, tid: uint32, counter: uint32, m: Msg): Request {
    Request(tid, counter, m.port, m.confirmed, Crypt(Context(key, address, false, BitsOf(counter as nat)), 1, m.plain))
  }

  /** Each byte is XORed with its byte of a cipher block for direction down, this counter, and the indices 1, 2 and so on. */
  lemma RequestByBlockA(key: Key, address: bv32, tid: uint32, counter: uint32, m: Msg, j: nat, a: Block)
    requires j < |m.plain| && IsBlockA(a, address, true, BitsOf(counter as nat), (1 + j / 16) as bv8)
    ensures var q := RequestFor(key, address, tid, counter, m);
            |q.data| == |m.plain| && q.data[j] == m.plain[j] ^ EncryptBlock(key, a)[j % 16] &&
            q.tid == tid && q.counter == counter && q.port == m.port && q.confirmed == m.confirmed
  {
    hide Crypt, EncryptBlock, IsBlockA, BitsOf;
    CryptByBlockA(Context(key, address, false, BitsOf(counter as nat)), 1, m.plain, j, a);
  }

  function Send(s: Sys, m: Msg): Sys {
    var q := RequestFor(s.key, s.ns.address, s.tid, s.af, m);
    s.(ns := RequestStep(s.ns, q), tid := Succ(s.tid), mail := if Accepts(s.ns, q) then s.mail else s.mail + [Rejected(Needed(s.ns), m)])
  }

  /** XmitDataAns: success counts, a returned FCntDown is taken over and the message is sent again. */
  function TakeMail(s: Sys, k: nat): Sys
    requires k < |s.mail|
  {
    var rest := s.(mail := s.mail[..k] + s.mail[k + 1..]);
    match s.mail[k]
    case Delivered => rest.(af := Succ(s.af))
    case Failed => rest
    case Rejected(counter, m) => Send(rest.(af := counter), m)
  }

  datatype SysEvent = App(m: Msg) | Net(e: Event) | Deliver(k: nat)

  function MailOf(s: Ns, e: Event): seq<Mail> {
    if e.Sent? && e.posted && AnswerOf(s, e.ok).Some? then [if AnswerOf(s, e.ok).value == Success then Delivered else Failed] else []
  }

  /** Requests come from the application server only, and answers arrive in any order. */
  function SysStep(s: Sys, e: SysEvent): Sys {
    match e
    case App(m) => Send(s, m)
    case Net(e) => if e.Offer? then s else s.(ns := Step(s.ns, e), mail := s.mail + MailOf(s.ns, e))
    case Deliver(k) => if k < |s.mail| then TakeMail(s, k) else s
  }

  function SysRun(s: Sys, es: seq<SysEvent>): Sys {
    if es == [] then s else SysStep(SysRun(s, es[..|es| - 1]), es[|es| - 1])
  }

  function FramesIn(s: Sys, es: seq<SysEvent>): seq<Scheduled> {
    if es == [] then [] else
    var front, e := es[..|es| - 1], es[|es| - 1];
    FramesIn(s, front) + if e.Net? then NewFrames(SysRun(s, front).ns, e.e) else []
  }

  /** No step takes the path that leaves no clean frame. */
  predicate RegularRun(s: Sys, es: seq<SysEvent>) {
    es == [] ||
    (var front, e := es[..|es| - 1], es[|es| - 1];
     RegularRun(s, front) && !(e.Net? && e.e.Schedule? && Garbles(SysRun(s, front).ns, e.e.rx)))
  }

  /** The messages the application submitted. */
  function Submitted(es: seq<SysEvent>): seq<Msg> {
    if es == [] then [] else
    var e := es[|es| - 1];
    Submitted(es[..|es| - 1]) + if e.App? then [e.m] else []
  }

  /** What the network server sees of one step: a request is an Offer. */
  function Seen(s: Sys, e: SysEvent): seq<Event> {
    match e
    case App(m) => [Offer(RequestFor(s.key, s.ns.address, s.tid, s.af, m))]
    case Net(e) => if e.Offer? then [] else [e]
    case Deliver(k) =>
      if k < |s.mail| && s.mail[k].Rejected?
      then [Offer(RequestFor(s.key, s.ns.address, s.tid, s.mail[k].counter, s.mail[k].msg))] else []
  }

  function SeenIn(s: Sys, es: seq<SysEvent>): seq<Event> {
    if es == [] then [] else SeenIn(s, es[..|es| - 1]) + Seen(SysRun(s, es[..|es| - 1]), es[|es| - 1])
  }

  lemma StepIsSeen(s: Sys, e: SysEvent)
    ensures var t := SysStep(s, e);
            t.ns == (if Seen(s, e) == [] then s.ns else Step(s.ns, Seen(s, e)[0])) && |Seen(s, e)| <= 1
    ensures if Seen(s, e) != [] && Seen(s, e)[0].Offer? then Seen(s, e)[0].q.tid == s.tid && SysStep(s, e).tid == Succ(s.tid)
            else SysStep(s, e).tid == s.tid
  {
    hide Crypt, ScheduleStep, UplinkStep, ResendStep, SentStep, AnswerOf, Accepts, Needed;
  }

  /** The network server's state in a run of both servers is that of its own run over what it sees. */
  lemma {:induction false} RunIsSeen(s: Sys, es: seq<SysEvent>)
    ensures SysRun(s, es).ns == Run(s.ns, SeenIn(s, es))
  {
    hide SysStep, Seen, Step;
    if es != [] {
      var front, e := es[..|es| - 1], es[|es| - 1];
      var before := SysRun(s, front);
      RunIsSeen(s, front);
      StepIsSeen(before, e);
      var seen, more := SeenIn(s, front), Seen(before, e);
      if more == [] {
        assert seen + more == seen;
      } else {
        assert (seen + more)[..|seen|] == seen && (seen + more)[|seen|] == more[0];
      }
    }
  }

  // ---- A payload in a frame decrypts under the frame's counter ----

  ghost predicate Genuine(s: Sys, q: Request, msgs: seq<Msg>) {
    exists m :: m in msgs && q == RequestFor(s.key, s.ns.address, q.tid, q.counter, m)
  }

  ghost predicate StateGenuine(s: Sys, msgs: seq<Msg>) {
    (s.ns.waiting.Some? ==> Genuine(s, s.ns.waiting.value, msgs)) &&
    forall k :: 0 <= k < |s.mail| && s.mail[k].Rejected? ==> s.mail[k].msg in msgs
  }

  /** Decrypting the body under the counter gives the message. */
  predicate Reads(key: Key, address: bv32, counter: uint32, body: Body, m: Msg) {
    m.port == body.port && |body.data| <= 255 && m.plain == Crypt(Context(key, address, false, BitsOf(counter as nat)), 1, body.data)
  }

  lemma RequestReads(key: Key, address: bv32, tid: uint32, counter: uint32, m: Msg)
    ensures var q := RequestFor(key, address, tid, counter, m); Reads(key, address, counter, Body(q.port, q.data), m)
  {
    hide Crypt;
    CryptInvolution(Context(key, address, false, BitsOf(counter as nat)), 1, m.plain);
  }

  /** The device that knows the key and takes the counter from the frame reads a message the application submitted. */
  ghost predicate Recovered(key: Key, f: Frame, msgs: seq<Msg>) {
    f.body.Some? ==> exists m :: m in msgs && Reads(key, f.address, f.counter, f.body.value, m)
  }

  /** A frame carries the waiting payload under the counter it came with, or no payload. */
  lemma BuiltBody(s: Ns, rx: Rx, drained: Drained)
    ensures var f := Built(s, rx, drained).frame;
            f.address == s.address &&
            (f.body.Some? ==> s.waiting.Some? && f.counter == s.waiting.value.counter &&
                              f.body.value == Body(s.waiting.value.port, s.waiting.value.data))
  {
    hide NewMhdr;
  }

  lemma BuiltRecovers(s: Sys, rx: Rx, drained: Drained, msgs: seq<Msg>)
    requires StateGenuine(s, msgs)
    ensures Recovered(s.key, Built(s.ns, rx, drained).frame, msgs)
  {
    hide Reads, RequestFor, Built;
    BuiltBody(s.ns, rx, drained);
    if Built(s.ns, rx, drained).frame.body.Some? {
      var q := s.ns.waiting.value;
      var m :| m in msgs && q == RequestFor(s.key, s.ns.address, q.tid, q.counter, m);
      RequestReads(s.key, s.ns.address, q.tid, q.counter, m);
    }
  }

  lemma SendKeeps(s: Sys, m: Msg, msgs: seq<Msg>)
    requires StateGenuine(s, msgs) && m in msgs
    ensures StateGenuine(Send(s, m), msgs) && Send(s, m).key == s.key && Send(s, m).ns.address == s.ns.address
  {
    hide Crypt, Accepts, Needed;
  }

  lemma StepKeepsGenuine(s: Sys, e: SysEvent, msgs: seq<Msg>)
    requires StateGenuine(s, msgs)
    ensures StateGenuine(SysStep(s, e), msgs + if e.App? then [e.m] else [])
    ensures SysStep(s, e).key == s.key && SysStep(s, e).ns.address == s.ns.address
  {
    hide Send, RequestFor, ScheduleStep, Built;
    var more := msgs + if e.App? then [e.m] else [];
    match e
    case App(m) => SendKeeps(s, m, more);
    case Net(e) => if !e.Offer? { StepKeeps(s.ns, e); }
    case Deliver(k) =>
      if k < |s.mail| && s.mail[k].Rejected? {
        SendKeeps(s.(mail := s.mail[..k] + s.mail[k + 1..], af := s.mail[k].counter), s.mail[k].msg, more);
      }
  }

  /** End to end, over every run of both servers: whatever order requests, answers, uplinks, schedulings and radio
      results come in, a payload in a scheduled frame decrypts, under the counter in that frame's header, to a message
      the application submitted. */
  lemma {:induction false} DeviceRecoversPlaintext(s: Sys, es: seq<SysEvent>, i: nat)
    requires s.ns.waiting.None? && s.mail == [] && RegularRun(s, es) && i < |FramesIn(s, es)|
    ensures Recovered(s.key, FramesIn(s, es)[i].frame, Submitted(es))
  {
    hide Recovered;
    RunRecovers(s, es);
  }

  /** The last four bytes are the code of the bytes before them behind block b, and what the parser's offsets find is a
      message, encrypted under the counter whose lower half they find. */
  ghost predicate Arrives(phy: seq<bv8>, address: bv32, counter: uint32, b: Block, sNwkSIntKey: Key, key: Key, msgs: seq<Msg>) {
    |phy| >= 4 && Rfc4493.Cmac(sNwkSIntKey, b + phy[..|phy| - 4])[..4] == phy[|phy| - 4..] && ReadBack(phy).Some? &&
    var parsed := ReadBack(phy).value;
    parsed.counterLow == BitsOf(counter as nat) & 0xffff && parsed.address == address &&
    (parsed.body.Some? ==> exists m :: m in msgs && Reads(key, address, counter, parsed.body.value, m))
  }

  lemma FrameArrives(f: Frame, confFCnt: bv32, b: Block, sNwkSIntKey: Key, key: Key, msgs: seq<Msg>)
    requires FrameOk(f) && IsBlock(b, confFCnt, 0, 0, true, f.address, BitsOf(f.counter as nat), |Message(f)| as bv8)
    requires Recovered(key, f, msgs)
    ensures Arrives(Encode(f, confFCnt, sNwkSIntKey), f.address, f.counter, b, sNwkSIntKey, key, msgs)
  {
    hide Reads, Encode, Message, ReadBack, FrameOk, Rfc4493.Cmac, IsBlock, BitsOf;
    EncodedCodeIs(f, confFCnt, sNwkSIntKey, b);
    ReadBackOfEncode(f, confFCnt, sNwkSIntKey);
  }

  /** The same from the bytes on the air, for a device that makes block B0 itself, with direction down, the full counter and
      the length: the transmission of any frame scheduled in any run carries the right code, and a message the
      application submitted if it carries one at all. */
  lemma TransmissionReachesDevice(s: Sys, es: seq<SysEvent>, i: nat, sNwkSIntKey: Key, b: Block)
    requires s.ns.waiting.None? && s.mail == [] && RegularRun(s, es) && i < |FramesIn(s, es)|
    requires var f := FramesIn(s, es)[i].frame;
             FrameOk(f) && IsBlock(b, FramesIn(s, es)[i].confFCnt, 0, 0, true, s.ns.address, BitsOf(f.counter as nat), |Message(f)| as bv8)
    ensures var f, confFCnt := FramesIn(s, es)[i].frame, FramesIn(s, es)[i].confFCnt;
            Arrives(Encode(f, confFCnt, sNwkSIntKey), s.ns.address, f.counter, b, sNwkSIntKey, s.key, Submitted(es))
  {
    hide Arrives, Recovered, Message, FrameOk, IsBlock, Encode;
    DeviceRecoversPlaintext(s, es, i);
    FramesKeepAddress(s, es, i);
    FrameArrives(FramesIn(s, es)[i].frame, FramesIn(s, es)[i].confFCnt, b, sNwkSIntKey, s.key, Submitted(es));
  }

  lemma {:induction false} FramesKeepAddress(s: Sys, es: seq<SysEvent>, i: nat)
    requires i < |FramesIn(s, es)|
    ensures FramesIn(s, es)[i].frame.address == s.ns.address
  {
    hide Built, SysStep;
    var front, e := es[..|es| - 1], es[|es| - 1];
    if i < |FramesIn(s, front)| {
      FramesKeepAddress(s, front, i);
    } else {
      AddressStays(s, front);
      BuiltBody(SysRun(s, front).ns, e.e.rx, e.e.drained);
    }
  }

  lemma {:induction false} AddressStays(s: Sys, es: seq<SysEvent>)
    ensures SysRun(s, es).ns.address == s.ns.address
  {
    hide SysStep;
    if es != [] {
      AddressStays(s, es[..|es| - 1]);
      AddressKept(SysRun(s, es[..|es| - 1]), es[|es| - 1]);
    }
  }

  lemma AddressKept(s: Sys, e: SysEvent)
    ensures SysStep(s, e).ns.address == s.ns.address
  {
    hide RequestFor, ScheduleStep, UplinkStep, ResendStep, SentStep, AnswerOf, Accepts, Needed;
    if e.Net? && !e.e.Offer? {
      StepKeeps(s.ns, e.e);
    }
  }

  lemma RecoveredMore(key: Key, f: Frame, msgs: seq<Msg>, more: seq<Msg>)
    requires Recovered(key, f, msgs)
    ensures Recovered(key, f, msgs + more)
  {
    hide Reads;
  }

  lemma {:induction false} RunRecovers(s: Sys, es: seq<SysEvent>)
    requires s.ns.waiting.None? && s.mail == []
    ensures StateGenuine(SysRun(s, es), Submitted(es))
    ensures SysRun(s, es).key == s.key && SysRun(s, es).ns.address == s.ns.address
    ensures forall i :: 0 <= i < |FramesIn(s, es)| ==> Recovered(s.key, FramesIn(s, es)[i].frame, Submitted(es))
  {
    hide StateGenuine, Recovered, SysStep, Built;
    if es == [] {
      FreshIsGenuine(s);
    } else {
      var front, e := es[..|es| - 1], es[|es| - 1];
      RunRecovers(s, front);
      var before, msgs := SysRun(s, front), Submitted(front);
      StepKeepsGenuine(before, e, msgs);
      forall f | Recovered(s.key, f, msgs)
        ensures Recovered(s.key, f, Submitted(es))
      {
        RecoveredMore(s.key, f, msgs, if e.App? then [e.m] else []);
      }
      if e.Net? && e.e.Schedule? {
        BuiltRecovers(before, e.e.rx, e.e.drained, msgs);
      }
    }
  }

  lemma FreshIsGenuine(s: Sys)
    requires s.ns.waiting.None? && s.mail == []
    ensures StateGenuine(s, [])
  {
  }

  // ---- Keeping the two counters of LoRaWAN 1.0 in step ----

  predicate NoDelivery(es: seq<SysEvent>) {
    forall i :: 0 <= i < |es| ==> !es[i].Deliver?
  }

  /** Mail is only appended until some is delivered. */
  lemma {:induction false} MailStays(s: Sys, es: seq<SysEvent>)
    requires NoDelivery(es)
    ensures s.mail <= SysRun(s, es).mail && SysRun(s, es).ns.optNeg == s.ns.optNeg
    ensures SysRun(s, es).key == s.key && SysRun(s, es).ns.address == s.ns.address
  {
    hide RequestFor, ScheduleStep, UplinkStep, SentStep, AnswerOf;
    if es != [] {
      var front, e := es[..|es| - 1], es[|es| - 1];
      MailStays(s, front);
      if e.Net? && !e.e.Offer? {
        StepKeeps(SysRun(s, front).ns, e.e);
      }
    }
  }

  /** The state after a request was taken in. */
  function Taken(ns: Ns, q: Request): Ns {
    ns.(waiting := if q.data == [] then None else Some(q))
  }

  /** A rejected 1.0 request is sent again under the returned counter. Whatever happened meanwhile, the retry is accepted
      exactly when the network server still needs that counter; otherwise it is rejected with the new one. */
  lemma RetryAcceptedIffUnmoved(s: Sys, m: Msg, es: seq<SysEvent>)
    requires !s.ns.optNeg && s.af != Needed(s.ns) && NoDelivery(es)
    ensures var k, t := |s.mail|, SysRun(Send(s, m), es);
            k < |t.mail| && t.mail[k] == Rejected(Needed(s.ns), m) &&
            var u := TakeMail(t, k);
            if Needed(t.ns) == Needed(s.ns)
              then u.ns == Taken(t.ns, RequestFor(s.key, s.ns.address, t.tid, Needed(t.ns), m)) && |u.mail| == |t.mail| - 1
              else u.ns == t.ns && u.mail == t.mail[..k] + t.mail[k + 1..] + [Rejected(Needed(t.ns), m)]
  {
    hide Crypt, Needed;
    MailStays(Send(s, m), es);
  }

  /** The two servers agree on the next counter and nothing is under way. */
  predicate InStep(s: Sys) {
    !s.ns.optNeg && s.ns.pending.None? && !s.ns.incr && s.ns.waiting.None? && !s.ns.answerDue && s.mail == [] && s.af == s.ns.n
  }

  /** The request and the next uplink: the payload waits for the downlink. */
  lemma OfferedInStep(s: Sys, m: Msg, ack: bool)
    requires InStep(s) && m.plain != []
    ensures var q := RequestFor(s.key, s.ns.address, s.tid, s.af, m);
            var t := SysStep(SysStep(s, App(m)), Net(Uplink(ack, false)));
            t == s.(tid := Succ(s.tid), ns := s.ns.(waiting := Some(q), newFCntUp := true, upResent := false, answerDue := ack && m.confirmed))
  {
    hide Crypt;
  }

  /** An undisturbed exchange of an unconfirmed message, that is the request, the next uplink, the downlink answering it,
      its success and the answer's arrival, carries the message and leaves the servers in step, one count further. */
  lemma ExchangeKeepsInStep(s: Sys, m: Msg, ack: bool, rx: Rx, queued: bool, drained: Drained)
    requires InStep(s) && !m.confirmed && m.plain != []
    ensures var offered := SysStep(SysStep(s, App(m)), Net(Uplink(ack, false)));
            var scheduled := SysStep(offered, Net(Schedule(rx, queued, drained)));
            var done := SysStep(SysStep(scheduled, Net(Sent(true, true))), Deliver(0));
            InStep(done) && done.af == Succ(s.af) && scheduled.ns.pending.Some? &&
            var f := scheduled.ns.pending.value.frame;
            f.counter == s.af && f.body.Some? && Reads(s.key, s.ns.address, f.counter, f.body.value, m)
  {
    hide RequestFor, MTypeOf, WithMType, Reads, SysStep;
    OfferedInStep(s, m, ack);
    var offered := SysStep(SysStep(s, App(m)), Net(Uplink(ack, false)));
    RequestReads(s.key, s.ns.address, s.tid, s.af, m);
    RequestFields(s.key, s.ns.address, s.tid, s.af, m);
    ExchangeEnds(offered, rx, queued, drained);
  }

  lemma RequestFields(key: Key, address: bv32, tid: uint32, counter: uint32, m: Msg)
    ensures var q := RequestFor(key, address, tid, counter, m); q.counter == counter && q.confirmed == m.confirmed
  {
  }

  /** The downlink half of an exchange. */
  lemma ExchangeEnds(s: Sys, rx: Rx, queued: bool, drained: Drained)
    requires !s.ns.optNeg && s.ns.pending.None? && !s.ns.incr && !s.ns.upResent && !s.ns.answerDue && s.mail == [] && s.af == s.ns.n
    requires s.ns.waiting.Some? && s.ns.waiting.value.counter == s.ns.n && !s.ns.waiting.value.confirmed
    ensures var scheduled := SysStep(s, Net(Schedule(rx, queued, drained)));
            var done := SysStep(SysStep(scheduled, Net(Sent(true, true))), Deliver(0));
            InStep(done) && done.af == Succ(s.af) && scheduled.ns.pending.Some? &&
            var f := scheduled.ns.pending.value.frame;
            f.counter == s.af && f.body == Some(Body(s.ns.waiting.value.port, s.ns.waiting.value.data))
  {
    hide MTypeOf, WithMType;
    MTypeStays(s.ns.mhdr, MTYPE_UNCONF_DN);
    var scheduled := SysStep(s, Net(Schedule(rx, queued, drained)));
    assert scheduled.ns.incr && scheduled.ns.n == s.ns.n && MTypeOf(scheduled.ns.mhdr) == MTYPE_UNCONF_DN;
    assert scheduled.ns.waiting == s.ns.waiting && !scheduled.ns.answerDue && !scheduled.ns.optNeg && scheduled.mail == [];
    var sent := SysStep(scheduled, Net(Sent(true, true)));
    SuccessfulSend(scheduled);
    assert sent.mail[..0] + sent.mail[1..] == [];
  }

  lemma SuccessfulSend(s: Sys)
    requires s.ns.pending.Some? && s.ns.incr && MTypeOf(s.ns.mhdr) == MTYPE_UNCONF_DN && s.mail == [] && !s.ns.optNeg
    requires s.ns.waiting.Some? && !s.ns.waiting.value.confirmed && !s.ns.answerDue
    ensures var t := SysStep(s, Net(Sent(true, true)));
            t.mail == [Delivered] && t.af == s.af && t.ns.n == Succ(s.ns.n) && !t.ns.incr && t.ns.pending.None? && t.ns.waiting.None? &&
            !t.ns.answerDue && !t.ns.optNeg
  {
    hide MTypeOf;
  }
}
