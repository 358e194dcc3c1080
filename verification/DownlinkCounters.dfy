/** The frame counters of class A downlinks as a state machine over the steps of the serving network server:
    sNS_schedule_downlink, the uplink handling, sNSDownlinkSent and hNS_to_sNS_downlink of network_server/sNS.c. */
module DownlinkCounters {
  import opened Rfc4493
  import opened PayloadCipher
  import opened MacQueue
  import opened Basics
  import opened DataFrame
  import opened DownlinkFrame

  /** A payload from the application server, its transaction identifier and the counter it says it encrypted it under. */
  datatype Request = Request(tid: uint32, counter: uint32, port: bv8, confirmed: bool, data: seq<bv8>)

  /** The bytes of the MAC commands that a frame takes out of the queue. */
  type Drained = d: seq<bv8> | |d| <= MAX_FOPTS

  /** A frame as sNS_schedule_downlink left it in PHYPayloadBin: onN says that it is counted on NFCntDown. */
  datatype Scheduled = Scheduled(frame: Frame, onN: bool, confFCnt: bv32, payload: Option<Request>)

  /** The uplink a downlink answers; NoHeader is anything but a data uplink. */
  datatype Rx = NoHeader | Data(confirmed: bool, adrAckReq: bool, ack: bool, counter: bv32)

  /** The downlink state of one mote: n is NFCntDown, waiting the stored FRMPayload, pending the unsent PHYPayload, saved the
      copy of the last confirmed downlink, mhdr the first byte of PHYPayloadBin. */
  datatype Ns = Ns(optNeg: bool, address: bv32, nwkSEncKey: Key, n: uint32, incr: bool, newFCntUp: bool, upResent: bool, waiting: Option<Request>,
                   pending: Option<Scheduled>, saved: Option<Scheduled>, mhdr: bv8, answerDue: bool)

  function Succ(n: uint32): uint32 {
    if n == 0xffff_ffff then 0 else n + 1
  }

  // ---- sNS_uplink ----

  /** An accepted uplink, with or without the ACK bit; resent says that it repeats a confirmed uplink. */
  function UplinkStep(s: Ns, ack: bool, resent: bool): Ns {
    var counted := if ack && s.incr then s.(n := Succ(s.n), incr := false) else s;
    counted.(newFCntUp := true, upResent := resent, answerDue := s.answerDue || (ack && s.waiting.Some? && s.waiting.value.confirmed))
  }

  /** An uplink with a fresh counter whose code fails. In 1.1 a saved confirmed downlink is put back for sending. */
  function ResendStep(s: Ns): Ns {
    var noted := s.(newFCntUp := true);
    if s.optNeg && s.saved.Some? then noted.(pending := s.saved, mhdr := s.saved.value.frame.mhdr) else noted
  }

  // ---- sNS_schedule_downlink ----

  predicate ConfirmedUp(rx: Rx) {
    rx.Data? && rx.confirmed
  }

  /** The early returns: an unsent downlink is kept, except that a confirmed 1.1 uplink drops it, and nothing is sent
      without a reason. */
  predicate Builds(s: Ns, rx: Rx, queued: bool) {
    var forces := if rx.Data? then rx.adrAckReq || (!rx.ack && s.saved.Some?) else s.saved.Some?;
    (s.pending.None? || Drops(s, rx)) && (ConfirmedUp(rx) || forces || queued || s.waiting.Some?)
  }

  predicate Drops(s: Ns, rx: Rx) {
    s.pending.Some? && s.optNeg && ConfirmedUp(rx)
  }

  predicate Offers(s: Ns) {
    s.waiting.Some? && !s.upResent
  }

  /** The one path with no clean outcome: the unsent downlink is dropped, but without a payload its length stays and the
      new frame's length is added to it. */
  predicate Garbles(s: Ns, rx: Rx) {
    Drops(s, rx) && !Offers(s)
  }

  predicate Places(s: Ns) {
    Offers(s) && (s.optNeg || s.waiting.value.counter == s.n)
  }

  predicate UsesAF(s: Ns) {
    Offers(s) && s.optNeg
  }

  /** The new first byte: a payload whose counter is wrong leaves the old type standing. */
  function NewMhdr(s: Ns): bv8 {
    if Places(s) then WithMType(s.mhdr, if s.waiting.value.confirmed then MTYPE_CONF_DN else MTYPE_UNCONF_DN)
    else if Offers(s) then s.mhdr
    else WithMType(s.mhdr, MTYPE_UNCONF_DN)
  }

  /** The context FOpts are encrypted in: get_queued_mac_cmds is always given NFCntDown. */
  function FOptsContext(s: Ns): Context {
    Context(s.nwkSEncKey, s.address, false, BitsOf(s.n as nat))
  }

  function Built(s: Ns, rx: Rx, drained: Drained): Scheduled {
    var fopts := FOptsOf(s.optNeg, FOptsContext(s), drained);
    var body := if Places(s) then Some(Body(s.waiting.value.port, s.waiting.value.data)) else None;
    var counter := if UsesAF(s) then s.waiting.value.counter else s.n;
    Scheduled(Frame(NewMhdr(s), s.address, ConfirmedUp(rx), fopts, counter, body), !UsesAF(s),
              if EchoesFCnt(s, rx) then rx.counter else 0, if Places(s) then s.waiting else None)
  }

  predicate EchoesFCnt(s: Ns, rx: Rx) {
    s.newFCntUp && s.optNeg && ConfirmedUp(rx)
  }

  /** A confirmed downlink is kept for sending again, an unconfirmed one ends that. */
  function Saved(s: Ns): Ns {
    var mtype := MTypeOf(s.mhdr);
    s.(saved := if mtype == MTYPE_UNCONF_DN then None else if mtype == MTYPE_CONF_DN then s.pending else s.saved)
  }

  /** The state once the frame stands in PHYPayloadBin. */
  function Store(s: Ns, rx: Rx, f: Scheduled): Ns {
    Saved(s.(pending := Some(f), mhdr := f.frame.mhdr, incr := f.onN, newFCntUp := s.newFCntUp && !EchoesFCnt(s, rx)))
  }

  function ScheduleStep(s: Ns, rx: Rx, queued: bool, drained: Drained): Ns {
    if Builds(s, rx, queued) then Store(s, rx, Built(s, rx, drained)) else s
  }

  // ---- sNSDownlinkSent and the end of sNS_finish_phy_downlink ----

  datatype Answer = Success | Failure

  /** The counting half: a successful unconfirmed downlink advances NFCntDown if it is still due. */
  function CountSent(s: Ns, ok: bool): Ns {
    if s.pending.None? || !ok then s
    else if MTypeOf(s.mhdr) == MTYPE_UNCONF_DN && s.incr then s.(n := Succ(s.n), incr := false, pending := None)
    else s.(pending := None)
  }

  /** The answer to the application server, if one is given. */
  function AnswerOf(s: Ns, ok: bool): Option<Answer> {
    if s.pending.Some? && s.waiting.Some? && !s.waiting.value.confirmed then Some(if ok then Success else Failure)
    else if s.answerDue then Some(Success)
    else None
  }

  /** posted says whether the answer could be posted; only then is the payload forgotten. */
  function Answered(s: Ns, posted: bool): Ns {
    s.(answerDue := false, waiting := if posted then None else s.waiting)
  }

  function SentStep(s: Ns, ok: bool, posted: bool): Ns {
    if AnswerOf(s, ok).Some? then Answered(CountSent(s, ok), posted) else CountSent(s, ok)
  }

  // ---- hNS_to_sNS_downlink, class A ----

  /** The counter a 1.0 payload must have been encrypted under. */
  function Needed(s: Ns): uint32 {
    if s.incr then Succ(s.n) else s.n
  }

  predicate Accepts(s: Ns, q: Request) {
    s.optNeg || q.counter == Needed(s)
  }

  function RequestStep(s: Ns, q: Request): Ns {
    if Accepts(s, q) then s.(waiting := if q.data == [] then None else Some(q)) else s
  }

  // ---- Runs ----

  datatype Event =
    | Uplink(ack: bool, resent: bool)
    | Resend
    | Schedule(rx: Rx, queued: bool, drained: Drained)
    | Sent(ok: bool, posted: bool)
    | Offer(q: Request)

  function Step(s: Ns, e: Event): Ns {
    match e
    case Uplink(ack, resent) => UplinkStep(s, ack, resent)
    case Resend => ResendStep(s)
    case Schedule(rx, queued, drained) => ScheduleStep(s, rx, queued, drained)
    case Sent(ok, posted) => SentStep(s, ok, posted)
    case Offer(q) => RequestStep(s, q)
  }

  function Run(s: Ns, es: seq<Event>): Ns {
    if es == [] then s else Step(Run(s, es[..|es| - 1]), es[|es| - 1])
  }

  /** No step of the run takes the path that leaves no clean frame. */
  predicate Regular(s: Ns, es: seq<Event>) {
    es == [] ||
    (var before, e := Run(s, es[..|es| - 1]), es[|es| - 1];
     Regular(s, es[..|es| - 1]) && !(e.Schedule? && Garbles(before, e.rx)))
  }

  /** The frames scheduled by one step. */
  function NewFrames(s: Ns, e: Event): seq<Scheduled> {
    if e.Schedule? && Builds(s, e.rx, e.queued) then [Built(s, e.rx, e.drained)] else []
  }

  /** The frames handed to the radio by one step. */
  function NewSent(s: Ns, e: Event): seq<Scheduled> {
    if e.Sent? && e.ok && s.pending.Some? then [s.pending.value] else []
  }

  function ScheduledIn(s: Ns, es: seq<Event>): seq<Scheduled> {
    if es == [] then [] else ScheduledIn(s, es[..|es| - 1]) + NewFrames(Run(s, es[..|es| - 1]), es[|es| - 1])
  }

  function SentIn(s: Ns, es: seq<Event>): seq<Scheduled> {
    if es == [] then [] else SentIn(s, es[..|es| - 1]) + NewSent(Run(s, es[..|es| - 1]), es[|es| - 1])
  }

  /** A session in which nothing was scheduled yet. */
  predicate Fresh(s: Ns) {
    !s.incr && s.pending.None? && s.saved.None?
  }

  // ---- What every run keeps ----

  predicate Unconfirmed(f: Scheduled) {
    MTypeOf(f.frame.mhdr) == MTYPE_UNCONF_DN
  }

  ghost predicate Carried(frames: seq<Scheduled>, v: int) {
    exists i :: 0 <= i < |frames| && frames[i].onN && frames[i].frame.counter as int == v
  }

  /** Every counter passed so far was carried by a scheduled frame, and so was the one about to be passed. */
  ghost predicate Covered(start: uint32, s: Ns, frames: seq<Scheduled>) {
    start <= s.n && (forall v :: start as int <= v < s.n as int ==> Carried(frames, v)) && (s.incr ==> Carried(frames, s.n as int))
  }

  /** The unsent frame: the counter it carries has been passed, or is due to be. */
  predicate PendingOk(s: Ns) {
    (s.pending.Some? ==>
       s.mhdr == s.pending.value.frame.mhdr &&
       (s.pending.value.onN ==> s.pending.value.frame.counter <= s.n && (!s.incr ==> s.pending.value.frame.counter < s.n))) &&
    (s.optNeg && s.saved.Some? ==> !s.saved.value.onN)
  }

  /** A frame sent on NFCntDown is not above any later one, and below it if it was unconfirmed. */
  predicate Below(f: Scheduled, counter: uint32) {
    f.frame.counter <= counter && (Unconfirmed(f) ==> f.frame.counter < counter)
  }

  ghost predicate Increasing(sent: seq<Scheduled>) {
    forall i, j :: 0 <= i < j < |sent| && sent[i].onN && sent[j].onN ==> Below(sent[i], sent[j].frame.counter)
  }

  /** The same for the counters still to be sent. */
  ghost predicate Passed(s: Ns, sent: seq<Scheduled>) {
    forall i :: 0 <= i < |sent| && sent[i].onN ==>
      Below(sent[i], s.n) && (s.pending.Some? && s.pending.value.onN ==> Below(sent[i], s.pending.value.frame.counter))
  }

  lemma CarriedMore(frames: seq<Scheduled>, more: seq<Scheduled>, v: int)
    requires Carried(frames, v)
    ensures Carried(frames + more, v)
  {
    var i :| 0 <= i < |frames| && frames[i].onN && frames[i].frame.counter as int == v;
    assert (frames + more)[i] == frames[i];
  }

  /** What building a frame does to the counters. */
  lemma BuiltFacts(s: Ns, rx: Rx, queued: bool, drained: Drained)
    requires Builds(s, rx, queued)
    ensures var t, f := ScheduleStep(s, rx, queued, drained), Built(s, rx, drained);
            t.n == s.n && t.optNeg == s.optNeg && t.incr == f.onN && t.pending == Some(f) && t.mhdr == f.frame.mhdr &&
            (f.onN ==> f.frame.counter == s.n) && (s.optNeg && t.saved.Some? && t.saved != s.saved ==> !t.saved.value.onN)
  {
    hide MTypeOf, WithMType;
    MTypeStays(s.mhdr, MTYPE_UNCONF_DN);
  }

  lemma StepCovers(start: uint32, s: Ns, e: Event, frames: seq<Scheduled>)
    requires Covered(start, s, frames) && s.n < 0xffff_ffff
    ensures Covered(start, Step(s, e), frames + NewFrames(s, e)) && Step(s, e).n <= s.n + 1
  {
    hide MTypeOf, Carried, ScheduleStep, SentStep, Built, Builds;
    forall v | Carried(frames, v)
      ensures Carried(frames + NewFrames(s, e), v)
    {
      CarriedMore(frames, NewFrames(s, e), v);
    }
    if e.Schedule? {
      ScheduleCovers(s, e.rx, e.queued, e.drained, frames);
    } else if e.Sent? {
      SentFacts(s, e.ok, e.posted);
    }
  }

  lemma ScheduleKeepsCount(s: Ns, rx: Rx, queued: bool, drained: Drained)
    ensures ScheduleStep(s, rx, queued, drained).n == s.n
  {
    hide Built, MTypeOf;
  }

  lemma ScheduleCovers(s: Ns, rx: Rx, queued: bool, drained: Drained, frames: seq<Scheduled>)
    requires s.incr ==> Carried(frames, s.n as int)
    ensures var t := ScheduleStep(s, rx, queued, drained);
            t.n == s.n && (t.incr ==> Carried(frames + NewFrames(s, Schedule(rx, queued, drained)), s.n as int))
  {
    hide MTypeOf, Built;
    var more := frames + NewFrames(s, Schedule(rx, queued, drained));
    if Builds(s, rx, queued) {
      BuiltFacts(s, rx, queued, drained);
      assert more[|frames|] == Built(s, rx, drained);
    } else {
      assert more == frames;
    }
  }

  lemma ScheduleKeepsOrder(s: Ns, rx: Rx, queued: bool, drained: Drained, sent: seq<Scheduled>)
    requires PendingOk(s) && Passed(s, sent)
    ensures PendingOk(ScheduleStep(s, rx, queued, drained)) && Passed(ScheduleStep(s, rx, queued, drained), sent)
  {
    hide MTypeOf, Built, Unconfirmed;
    if Builds(s, rx, queued) {
      BuiltFacts(s, rx, queued, drained);
      hide ScheduleStep;
    }
  }

  /** The counting half touches the counter, its flag and the unsent frame only. */
  lemma CountSentFacts(s: Ns, ok: bool)
    ensures var t := CountSent(s, ok);
            t == s.(n := t.n, incr := t.incr, pending := t.pending) && t.pending == (if ok then None else s.pending) &&
            if ok && s.pending.Some? && MTypeOf(s.mhdr) == MTYPE_UNCONF_DN && s.incr then t.n == Succ(s.n) && !t.incr
            else t.n == s.n && t.incr == s.incr
  {
    hide MTypeOf, Succ;
  }

  /** The session stays, and a waiting payload stays or is forgotten. */
  predicate Keeps(s: Ns, t: Ns) {
    t.optNeg == s.optNeg && t.address == s.address && t.nwkSEncKey == s.nwkSEncKey && (t.waiting.Some? ==> t.waiting == s.waiting)
  }

  lemma ScheduleKeeps(s: Ns, rx: Rx, queued: bool, drained: Drained)
    ensures Keeps(s, ScheduleStep(s, rx, queued, drained))
  {
    hide Built, Builds, MTypeOf;
  }

  lemma StepKeeps(s: Ns, e: Event)
    requires !e.Offer?
    ensures Keeps(s, Step(s, e))
  {
    hide ScheduleStep, SentStep, Keeps;
    match e
    case Schedule(rx, queued, drained) => ScheduleKeeps(s, rx, queued, drained);
    case Sent(ok, posted) => SentFacts(s, ok, posted);
    case Uplink(ack, resent) => UplinkKeeps(s, ack, resent);
    case Resend => ResendKeeps(s);
  }

  lemma UplinkKeeps(s: Ns, ack: bool, resent: bool)
    ensures Keeps(s, UplinkStep(s, ack, resent))
  {
  }

  lemma ResendKeeps(s: Ns)
    ensures Keeps(s, ResendStep(s))
  {
  }

  /** What the end of a transmission does to the counters. */
  lemma SentFacts(s: Ns, ok: bool, posted: bool)
    ensures var t := SentStep(s, ok, posted);
            Keeps(s, t) && t.saved == s.saved && t.mhdr == s.mhdr && t.pending == (if ok then None else s.pending) &&
            if ok && s.pending.Some? && MTypeOf(s.mhdr) == MTYPE_UNCONF_DN && s.incr then t.n == Succ(s.n) && !t.incr
            else t.n == s.n && t.incr == s.incr
  {
    hide MTypeOf, AnswerOf, Succ, CountSent;
    CountSentFacts(s, ok);
  }

  lemma SentKeepsOrder(s: Ns, ok: bool, posted: bool, sent: seq<Scheduled>)
    requires PendingOk(s) && Increasing(sent) && Passed(s, sent) && s.n < 0xffff_ffff
    ensures var t, more := SentStep(s, ok, posted), sent + NewSent(s, Sent(ok, posted));
            PendingOk(t) && Increasing(more) && Passed(t, more)
  {
    hide MTypeOf, SentStep;
    SentFacts(s, ok, posted);
    if !(ok && s.pending.Some?) {
      assert sent + NewSent(s, Sent(ok, posted)) == sent;
    }
  }

  lemma StepKeepsOrder(s: Ns, e: Event, sent: seq<Scheduled>)
    requires PendingOk(s) && Increasing(sent) && Passed(s, sent) && s.n < 0xffff_ffff
    ensures PendingOk(Step(s, e)) && Increasing(sent + NewSent(s, e)) && Passed(Step(s, e), sent + NewSent(s, e))
  {
    hide Unconfirmed, ScheduleStep, SentStep, Increasing;
    if e.Sent? {
      SentKeepsOrder(s, e.ok, e.posted, sent);
    } else {
      assert sent + NewSent(s, e) == sent;
      if e.Schedule? {
        ScheduleKeepsOrder(s, e.rx, e.queued, e.drained, sent);
      }
    }
  }

  /** Over every run of a session NFCntDown never decreases, and it never passes a value no scheduled frame carried. */
  lemma {:induction false} NoCounterIsSkipped(s: Ns, es: seq<Event>)
    requires Fresh(s) && Regular(s, es) && s.n as int + |es| <= 0xffff_ffff
    ensures s.n <= Run(s, es).n && Run(s, es).n as int <= s.n as int + |es|
    ensures Covered(s.n, Run(s, es), ScheduledIn(s, es))
  {
    if es != [] {
      var front := es[..|es| - 1];
      NoCounterIsSkipped(s, front);
      StepCovers(s.n, Run(s, front), es[|es| - 1], ScheduledIn(s, front));
    }
  }

  lemma {:induction false} OrderOverRuns(s: Ns, es: seq<Event>)
    requires Fresh(s) && Regular(s, es) && s.n as int + |es| <= 0xffff_ffff
    ensures PendingOk(Run(s, es)) && Increasing(SentIn(s, es)) && Passed(Run(s, es), SentIn(s, es))
  {
    if es != [] {
      var front := es[..|es| - 1];
      OrderOverRuns(s, front);
      NoCounterIsSkipped(s, front);
      StepKeepsOrder(Run(s, front), es[|es| - 1], SentIn(s, front));
    }
  }

  /** The counters of the frames sent on NFCntDown never fall, and no two frames sent unconfirmed share one: an
      unconfirmed frame's counter is below that of every frame sent on NFCntDown after it. */
  lemma UnconfirmedCountersAreUnique(s: Ns, es: seq<Event>, i: nat, j: nat)
    requires Fresh(s) && Regular(s, es) && s.n as int + |es| <= 0xffff_ffff
    requires i < j < |SentIn(s, es)| && SentIn(s, es)[i].onN && SentIn(s, es)[j].onN
    ensures var a, b := SentIn(s, es)[i].frame, SentIn(s, es)[j].frame;
            a.counter <= b.counter && (MTypeOf(a.mhdr) == MTYPE_UNCONF_DN ==> a.counter < b.counter)
  {
    OrderOverRuns(s, es);
  }

  /** NFCntDown can fall in one way only: the 32-bit counter wraps when its last value is counted. */
  lemma OnlyWrapsAround(s: Ns, e: Event)
    requires PendingOk(s)
    ensures Step(s, e).n < s.n <==>
            s.n == 0xffff_ffff && s.incr &&
            ((e.Uplink? && e.ack) || (e.Sent? && e.ok && s.pending.Some? && Unconfirmed(s.pending.value)))
  {
    hide MTypeOf, SentStep, ScheduleStep;
    if e.Schedule? {
      ScheduleKeepsCount(s, e.rx, e.queued, e.drained);
    } else if e.Sent? {
      SentFacts(s, e.ok, e.posted);
    }
  }

  /** In 1.0 an accepted payload is put into the frame answering the next uplink exactly when NFCntDown has reached its
      counter by then: no counted frame was waiting for its ACK, or the uplink brings the ACK. */
  lemma AcceptedIsPlacedIff(s: Ns, q: Request, ack: bool, rx: Rx, queued: bool)
    requires !s.optNeg && Accepts(s, q) && q.data != [] && s.pending.None?
    ensures var t := UplinkStep(RequestStep(s, q), ack, false);
            Builds(t, rx, queued) && (Places(t) <==> !s.incr || ack)
  {
  }
}
