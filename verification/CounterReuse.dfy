/** When two payloads share a frame counter, and with it a keystream: AFCntDown of app_server/main.c and app_server/web.c
    counts answers, NFCntDown of network_server/sNS.c counts frames. */
module CounterReuse {
  import opened PayloadCipher
  import opened Basics
  import opened DownlinkFrame
  import opened DownlinkCounters
  import opened DeliveryReports
  import opened DownlinkDelivery

  // ---- LoRaWAN 1.0: never ----

  /** No frame carries a payload above NFCntDown, and one at NFCntDown carries the payload that waits for it. */
  ghost predicate Once(s: Ns, frames: seq<Scheduled>) {
    (forall i :: 0 <= i < |frames| && frames[i].payload.Some? ==> CarriedBelow(s, frames[i])) &&
    (forall i, j :: 0 <= i < j < |frames| && SharesCounter(frames[i], frames[j]) ==> frames[i].payload == frames[j].payload)
  }

  /** Both frames carry a payload, under one counter. */
  predicate SharesCounter(f: Scheduled, g: Scheduled) {
    f.payload.Some? && g.payload.Some? && f.frame.counter == g.frame.counter
  }

  predicate CarriedBelow(s: Ns, f: Scheduled) {
    f.frame.counter <= s.n &&
    (f.frame.counter == s.n ==> s.incr && (s.waiting.Some? && s.waiting.value.counter == s.n ==> s.waiting == f.payload))
  }

  lemma BuiltOnce(s: Ns, rx: Rx, drained: Drained)
    requires !s.optNeg
    ensures var f, t := Built(s, rx, drained), Store(s, rx, Built(s, rx, drained));
            f.frame.counter == s.n && t.n == s.n && t.incr && t.waiting == s.waiting && t.optNeg == s.optNeg &&
            (f.payload.Some? ==> f.payload == s.waiting && s.waiting.value.counter == s.n)
  {
    hide MTypeOf, NewMhdr, FOptsOf;
  }

  lemma BuildKeepsOnce(s: Ns, e: Event, frames: seq<Scheduled>)
    requires !s.optNeg && Once(s, frames) && e.Schedule? && Builds(s, e.rx, e.queued)
    ensures Once(Step(s, e), frames + NewFrames(s, e))
  {
    hide Built, Builds, Store;
    BuiltOnce(s, e.rx, e.drained);
    assert NewFrames(s, e) == [Built(s, e.rx, e.drained)];
  }

  lemma OfferKeepsOnce(s: Ns, q: Request, frames: seq<Scheduled>)
    requires !s.optNeg && Once(s, frames) && s.n < 0xffff_ffff
    ensures Once(RequestStep(s, q), frames)
  {
  }

  lemma OtherKeepsOnce(s: Ns, e: Event, frames: seq<Scheduled>)
    requires !s.optNeg && Once(s, frames) && s.n < 0xffff_ffff && !e.Offer? && !Supersedes(s, e)
    ensures Once(Step(s, e), frames)
  {
    hide SentStep, MTypeOf;
    if e.Sent? {
      SentFacts(s, e.ok, e.posted);
    }
  }

  lemma StepKeepsOnce(s: Ns, e: Event, frames: seq<Scheduled>)
    requires !s.optNeg && Once(s, frames) && s.n < 0xffff_ffff
    ensures Once(Step(s, e), frames + NewFrames(s, e))
  {
    hide Once, Builds, Built, RequestStep, ScheduleStep;
    if e.Schedule? && Builds(s, e.rx, e.queued) {
      BuildKeepsOnce(s, e, frames);
    } else {
      assert frames + NewFrames(s, e) == frames;
      if e.Offer? {
        OfferKeepsOnce(s, e.q, frames);
      } else {
        NothingSuperseded(s, e);
        OtherKeepsOnce(s, e, frames);
      }
    }
  }

  lemma {:induction false} OnceOverRuns(s: Ns, es: seq<Event>)
    requires Fresh(s) && !s.optNeg && Regular(s, es) && s.n as int + |es| <= 0xffff_ffff
    ensures Once(Run(s, es), ScheduledIn(s, es)) && !Run(s, es).optNeg
  {
    hide Once, Step, NewFrames;
    if es == [] {
      NothingOnce(s);
    } else {
      var front, e := es[..|es| - 1], es[|es| - 1];
      OnceOverRuns(s, front);
      NoCounterIsSkipped(s, front);
      StepKeepsOnce(Run(s, front), e, ScheduledIn(s, front));
      VersionStays(Run(s, front), e);
    }
  }

  lemma NothingOnce(s: Ns)
    ensures Once(s, [])
  {
  }

  lemma VersionStays(s: Ns, e: Event)
    ensures Step(s, e).optNeg == s.optNeg
  {
    hide ScheduleStep, SentStep;
    if !e.Offer? {
      StepKeeps(s, e);
    }
  }

  /** Over every 1.0 run no two different payloads are put into frames under one counter: whatever is refused, repeated, lost
      or reported wrongly, their keystream is never used twice. */
  lemma OldCountersAreNeverShared(s: Ns, es: seq<Event>, i: nat, j: nat)
    requires Fresh(s) && !s.optNeg && Regular(s, es) && s.n as int + |es| <= 0xffff_ffff
    requires i < j < |ScheduledIn(s, es)| && SharesCounter(ScheduledIn(s, es)[i], ScheduledIn(s, es)[j])
    ensures ScheduledIn(s, es)[i].payload == ScheduledIn(s, es)[j].payload
  {
    OnceOverRuns(s, es);
  }

  // ---- LoRaWAN 1.1: as long as no success was taken ----

  /** The application server takes the report of a success. */
  predicate TakesSuccess(s: Sys, e: SysEvent) {
    e.Deliver? && e.k < |s.mail| && s.mail[e.k].Delivered?
  }

  function Successes(s: Sys, es: seq<SysEvent>): nat {
    if es == [] then 0 else
    Successes(s, es[..|es| - 1]) + if TakesSuccess(SysRun(s, es[..|es| - 1]), es[|es| - 1]) then 1 else 0
  }

  predicate NoneRejected(mail: seq<Mail>) {
    forall k :: 0 <= k < |mail| ==> !mail[k].Rejected?
  }

  lemma StepCounts(s: Sys, e: SysEvent)
    requires s.ns.optNeg && NoneRejected(s.mail)
    ensures var t := SysStep(s, e);
            t.ns.optNeg && NoneRejected(t.mail) && t.af == if TakesSuccess(s, e) then Succ(s.af) else s.af
  {
    hide Step, RequestFor, AnswerOf, Needed;
    if e.Net? && !e.e.Offer? {
      VersionStays(s.ns, e.e);
    }
  }

  /** AFCntDown counts the reports of success. */
  lemma {:induction false} SuccessesAreCounted(s: Sys, es: seq<SysEvent>)
    requires s.ns.optNeg && NoneRejected(s.mail)
    ensures var t := SysRun(s, es);
            t.ns.optNeg && NoneRejected(t.mail) && t.af as int == (s.af as int + Successes(s, es)) % 0x1_0000_0000 && Successes(s, es) <= |es|
  {
    hide SysStep, TakesSuccess, NoneRejected;
    if es != [] {
      var front := es[..|es| - 1];
      SuccessesAreCounted(s, front);
      StepCounts(SysRun(s, front), es[|es| - 1]);
    }
  }

  /** The number of successes grows exactly where one is taken. */
  lemma {:induction false} SuccessesBetween(s: Sys, es: seq<SysEvent>, a: nat, b: nat)
    requires a <= b <= |es|
    ensures Successes(s, es[..a]) <= Successes(s, es[..b]) <= Successes(s, es[..a]) + (b - a)
    ensures Successes(s, es[..a]) == Successes(s, es[..b]) <==> forall c :: a <= c < b ==> !TakesSuccess(SysRun(s, es[..c]), es[c])
    decreases b
  {
    hide TakesSuccess, SysRun;
    if a < b {
      SuccessesBetween(s, es, a, b - 1);
      assert es[..b][..b - 1] == es[..b - 1];
    }
  }

  /** Message a of the run goes out under the counter stored at that time. */
  function CounterAt(s: Sys, es: seq<SysEvent>, a: nat): uint32
    requires a < |es| && es[a].App?
  {
    RequestFor(s.key, s.ns.address, SysRun(s, es[..a]).tid, SysRun(s, es[..a]).af, es[a].m).counter
  }

  /** Over every 1.1 run two messages are encrypted under one counter exactly if the application server took no report of
      success between them. */
  lemma CounterIsSharedIff(s: Sys, es: seq<SysEvent>, a: nat, b: nat)
    requires s.ns.optNeg && NoneRejected(s.mail) && |es| <= 0xffff_ffff
    requires a < b < |es| && es[a].App? && es[b].App?
    ensures CounterAt(s, es, a) == CounterAt(s, es, b) <==> forall c :: a <= c < b ==> !TakesSuccess(SysRun(s, es[..c]), es[c])
  {
    hide SysRun, TakesSuccess;
    SuccessesAreCounted(s, es[..a]);
    SuccessesAreCounted(s, es[..b]);
    SuccessesBetween(s, es, a, b);
    CountedApart(s.af as nat, Successes(s, es[..a]), Successes(s, es[..b]));
  }

  lemma CountedApart(n: nat, a: nat, b: nat)
    requires a <= b < a + 0x1_0000_0000
    ensures (n + a) % 0x1_0000_0000 == (n + b) % 0x1_0000_0000 <==> a == b
  {
  }

  /** The second message goes out while the report on the first is under way: in every fresh 1.1 session two different messages
      then stand in frames with one counter. */
  lemma TwoUnderOneCounter(s: Sys, m: Msg, m': Msg, rx: Rx, queued: bool, drained: Drained)
    requires s.ns.optNeg && Fresh(s.ns) && !s.ns.upResent && s.mail == []
    requires m.plain != [] && !m.confirmed && m'.plain != [] && !m'.confirmed
    ensures var placed := SysStep(SysStep(s, App(m)), Net(Schedule(rx, queued, drained)));
            var sent := SysStep(placed, Net(Sent(true, true)));
            var placed' := SysStep(SysStep(sent, App(m')), Net(Schedule(rx, queued, drained)));
            sent.mail == [Delivered] && placed.ns.pending.Some? && placed'.ns.pending.Some? &&
            var f, f' := placed.ns.pending.value.frame, placed'.ns.pending.value.frame;
            f.counter == s.af == f'.counter && f.body.Some? && f'.body.Some? &&
            Reads(s.key, s.ns.address, s.af, f.body.value, m) && Reads(s.key, s.ns.address, s.af, f'.body.value, m')
  {
    hide SysStep, Reads, Fresh;
    IdleOf(s);
    MessagePlaced(s, m, rx, queued, drained);
    var placed := SysStep(SysStep(s, App(m)), Net(Schedule(rx, queued, drained)));
    UnconfirmedSent(placed);
    MessagePlaced(SysStep(placed, Net(Sent(true, true))), m', rx, queued, drained);
  }

  /** A 1.1 session with nothing under way. */
  predicate Idle(s: Sys) {
    s.ns.optNeg && s.ns.pending.None? && !s.ns.upResent
  }

  lemma IdleOf(s: Sys)
    requires s.ns.optNeg && Fresh(s.ns) && !s.ns.upResent
    ensures Idle(s)
  {
  }

  lemma MessagePlaced(s: Sys, m: Msg, rx: Rx, queued: bool, drained: Drained)
    requires Idle(s) && m.plain != [] && !m.confirmed
    ensures var t := SysStep(SysStep(s, App(m)), Net(Schedule(rx, queued, drained)));
            t.mail == s.mail && t.af == s.af && t.key == s.key && t.ns.address == s.ns.address && t.ns.optNeg && !t.ns.upResent &&
            t.ns.waiting.Some? && !t.ns.waiting.value.confirmed && t.ns.pending.Some? &&
            var f := t.ns.pending.value.frame;
            f.counter == s.af && f.body.Some? && Reads(s.key, s.ns.address, s.af, f.body.value, m)
  {
    hide Reads, MTypeOf, NewMhdr, FOptsOf, Crypt;
    RequestReads(s.key, s.ns.address, s.tid, s.af, m);
  }

  lemma UnconfirmedSent(s: Sys)
    requires s.ns.optNeg && !s.ns.upResent && s.ns.pending.Some? && s.ns.waiting.Some? && !s.ns.waiting.value.confirmed
    ensures var t := SysStep(s, Net(Sent(true, true)));
            Idle(t) && t.mail == s.mail + [Delivered] && t.af == s.af && t.key == s.key && t.ns.address == s.ns.address
  {
    hide MTypeOf, CountSent, Succ;
    CountSentFacts(s.ns, true);
  }
}
