/** What the reports of the serving network server to the application server are worth: sNSDownlinkSent and
    sNS_finish_phy_downlink of network_server/sNS.c report on whatever payload waits when a transmission ends. */
module DeliveryReports {
  import opened Basics
  import opened DataFrame
  import opened DownlinkFrame
  import opened DownlinkCounters
  import opened DownlinkDelivery

  /** A step that replaces the waiting payload or builds another frame. */
  predicate Supersedes(s: Ns, e: Event) {
    (e.Offer? && Accepts(s, e.q)) || (e.Schedule? && Builds(s, e.rx, e.queued))
  }

  /** Event i built a frame with the waiting payload in it; since then no other payload was taken and no other frame built. */
  ghost predicate PlacedAt(s: Ns, es: seq<Event>, i: nat) {
    i < |es| && es[i].Schedule? && Builds(Run(s, es[..i]), es[i].rx, es[i].queued) && Places(Run(s, es[..i])) &&
    forall j :: i < j < |es| ==> !Supersedes(Run(s, es[..j]), es[j])
  }

  /** Every request has a transaction identifier of its own. */
  predicate DistinctOffers(es: seq<Event>) {
    forall i, j :: 0 <= i < j < |es| && es[i].Offer? && es[j].Offer? ==> es[i].q.tid != es[j].q.tid
  }

  /** A session in which nothing was requested or scheduled yet. */
  predicate NoneYet(s: Ns) {
    Fresh(s) && s.waiting.None?
  }

  /** The frame that would be handed to the radio carries the payload. */
  predicate HandsOver(s: Ns, q: Request) {
    s.pending.Some? && s.pending.value.payload == Some(q)
  }

  // ---- The last frame built, and whether it carries what waits ----

  function LastFrame(s: Ns, es: seq<Event>): Option<Scheduled> {
    if es == [] then None else
    var before, e := Run(s, es[..|es| - 1]), es[|es| - 1];
    if e.Schedule? && Builds(before, e.rx, e.queued) then Some(Built(before, e.rx, e.drained)) else LastFrame(s, es[..|es| - 1])
  }

  predicate Carries(s: Ns, es: seq<Event>) {
    es != [] &&
    var before, e := Run(s, es[..|es| - 1]), es[|es| - 1];
    if e.Schedule? && Builds(before, e.rx, e.queued) then Places(before)
    else !Supersedes(before, e) && Carries(s, es[..|es| - 1])
  }

  lemma {:induction false} CarriesIff(s: Ns, es: seq<Event>)
    ensures Carries(s, es) <==> exists i :: PlacedAt(s, es, i)
  {
    hide Builds, Places, Supersedes;
    if es != [] {
      var n := |es| - 1;
      CarriesIff(s, es[..n]);
      LastSupersedes(s, es);
      forall i: nat | i < n
        ensures PlacedAt(s, es, i) <==> PlacedAt(s, es[..n], i) && !Supersedes(Run(s, es[..n]), es[n])
      {
        PlacedEarlier(s, es, i);
      }
    }
  }

  /** A frame placed by the last event. */
  lemma LastSupersedes(s: Ns, es: seq<Event>)
    requires es != []
    ensures var n := |es| - 1;
            PlacedAt(s, es, n) <==> es[n].Schedule? && Builds(Run(s, es[..n]), es[n].rx, es[n].queued) && Places(Run(s, es[..n]))
    ensures var n := |es| - 1;
            es[n].Schedule? && Builds(Run(s, es[..n]), es[n].rx, es[n].queued) ==> Supersedes(Run(s, es[..n]), es[n])
  {
    hide Builds, Places, Run;
  }

  lemma PlacedEarlier(s: Ns, es: seq<Event>, i: nat)
    requires i < |es| - 1
    ensures var n := |es| - 1; PlacedAt(s, es, i) <==> PlacedAt(s, es[..n], i) && !Supersedes(Run(s, es[..n]), es[n])
  {
    hide Builds, Places, Supersedes, Run;
    var n := |es| - 1;
    assert forall j :: 0 <= j <= n ==> es[..n][..j] == es[..j];
  }

  function Tids(es: seq<Event>): set<uint32> {
    set e | e in es && e.Offer? :: e.q.tid
  }

  /** The frame's body is its payload's. */
  predicate Matches(f: Scheduled) {
    f.frame.body == if f.payload.Some? then Some(Body(f.payload.value.port, f.payload.value.data)) else None
  }

  /** The unsent frame is the last one built, in 1.1 a saved one too; and it carries what waits just if the run says so. */
  predicate Tracks(t: Ns, last: Option<Scheduled>, carries: bool, tids: set<uint32>) {
    (t.pending.Some? ==> t.pending == last) && (t.optNeg && t.saved.Some? ==> t.saved == last) &&
    (t.waiting.Some? ==> t.waiting.value.tid in tids) &&
    (last.Some? ==> Matches(last.value) && (last.value.payload.Some? ==> last.value.payload.value.tid in tids)) &&
    (carries ==> last.Some? && last.value.payload.Some? && (t.waiting.Some? ==> t.waiting == last.value.payload)) &&
    (last.Some? && t.waiting.Some? && last.value.payload == t.waiting ==> carries)
  }

  /** In 1.1 every frame built is confirmed, and then saved, or unconfirmed, and then nothing stays saved. */
  lemma BuiltIsSaved(s: Ns, rx: Rx, drained: Drained)
    ensures var t, f := Store(s, rx, Built(s, rx, drained)), Built(s, rx, drained);
            t.pending == Some(f) && t.waiting == s.waiting && t.optNeg == s.optNeg && (s.optNeg ==> t.saved.None? || t.saved == Some(f))
  {
    hide MTypeOf, WithMType, FOptsOf;
    MTypeStays(s.mhdr, MTYPE_UNCONF_DN);
    MTypeStays(s.mhdr, MTYPE_CONF_DN);
  }

  lemma BuiltMatches(s: Ns, rx: Rx, drained: Drained)
    ensures var f := Built(s, rx, drained); Matches(f) && f.payload == if Places(s) then s.waiting else None
  {
    hide NewMhdr, FOptsOf;
  }

  lemma BuildTracks(s: Ns, last: Option<Scheduled>, carries: bool, tids: set<uint32>, e: Event)
    requires Tracks(s, last, carries, tids) && e.Schedule? && Builds(s, e.rx, e.queued)
    ensures Tracks(Step(s, e), Some(Built(s, e.rx, e.drained)), Places(s), tids)
  {
    hide Built, Store, Builds, Matches;
    BuiltIsSaved(s, e.rx, e.drained);
    BuiltMatches(s, e.rx, e.drained);
  }

  lemma OfferTracks(s: Ns, last: Option<Scheduled>, carries: bool, tids: set<uint32>, q: Request)
    requires Tracks(s, last, carries, tids) && q.tid !in tids
    ensures Tracks(RequestStep(s, q), last, !Accepts(s, q) && carries, tids + {q.tid})
  {
    hide Accepts, Matches;
  }

  lemma OtherTracks(s: Ns, last: Option<Scheduled>, carries: bool, tids: set<uint32>, e: Event)
    requires Tracks(s, last, carries, tids) && !e.Offer? && !Supersedes(s, e)
    ensures Tracks(Step(s, e), last, carries, tids)
  {
    hide Matches, SentStep, Keeps;
    match e
    case Uplink(ack, resent) =>
    case Resend =>
    case Schedule(rx, queued, drained) =>
    case Sent(ok, posted) => SentPending(s, ok, posted);
  }

  lemma SentPending(s: Ns, ok: bool, posted: bool)
    ensures var t := SentStep(s, ok, posted);
            t.saved == s.saved && t.optNeg == s.optNeg && t.pending == (if ok then None else s.pending) &&
            (t.waiting.Some? ==> t.waiting == s.waiting)
  {
    SentFacts(s, ok, posted);
    hide SentStep;
  }

  lemma {:induction false} RunTracks(s: Ns, es: seq<Event>)
    requires NoneYet(s) && DistinctOffers(es)
    ensures Tracks(Run(s, es), LastFrame(s, es), Carries(s, es), Tids(es))
  {
    hide Tracks, Step, Built, Builds, Places, Supersedes;
    if es == [] {
      StartTracks(s);
    } else {
      var front, e := es[..|es| - 1], es[|es| - 1];
      RunTracks(s, front);
      var t, last, carries, tids := Run(s, front), LastFrame(s, front), Carries(s, front), Tids(front);
      assert es == front + [e];
      if e.Offer? {
        assert e.q.tid !in tids;
        assert Tids(es) == tids + {e.q.tid};
        OfferTracks(t, last, carries, tids, e.q);
        OfferSupersedes(t, e);
      } else {
        assert Tids(es) == tids;
        LastSupersedes(s, es);
        if e.Schedule? && Builds(t, e.rx, e.queued) {
          BuildTracks(t, last, carries, tids, e);
        } else {
          NothingSuperseded(t, e);
          OtherTracks(t, last, carries, tids, e);
        }
      }
    }
  }

  lemma StartTracks(s: Ns)
    requires NoneYet(s)
    ensures Tracks(s, None, false, Tids([]))
  {
  }

  lemma OfferSupersedes(s: Ns, e: Event)
    requires e.Offer?
    ensures (Supersedes(s, e) <==> Accepts(s, e.q)) && Step(s, e) == RequestStep(s, e.q)
  {
    hide Accepts, RequestStep;
  }

  lemma NothingSuperseded(s: Ns, e: Event)
    requires !e.Offer? && !(e.Schedule? && Builds(s, e.rx, e.queued))
    ensures !Supersedes(s, e)
  {
  }

  // ---- The reports ----

  /** Over every run: the unsent frame carries the waiting payload exactly if it was built while that payload waited and had
      its place in it, and no other payload was taken since. */
  lemma WaitingIsCarriedIff(s: Ns, es: seq<Event>)
    requires NoneYet(s) && Regular(s, es) && DistinctOffers(es)
    requires Run(s, es).waiting.Some? && Run(s, es).pending.Some?
    ensures HandsOver(Run(s, es), Run(s, es).waiting.value) <==> exists i :: PlacedAt(s, es, i)
    ensures Matches(Run(s, es).pending.value)
  {
    hide Run, LastFrame, Carries, PlacedAt, Tids, Matches;
    RunTracks(s, es);
    CarriesIff(s, es);
  }

  /** Over every run: when a transmission succeeds, an unconfirmed payload that waits is reported as sent. The report is true,
      that is the frame sent carried that payload, exactly if a frame was sent at all and it was built while the payload
      waited and had its place in it, and no other payload was taken since. */
  lemma SuccessReportIsTrueIff(s: Ns, es: seq<Event>, posted: bool)
    requires NoneYet(s) && Regular(s, es) && DistinctOffers(es)
    requires var t := Run(s, es); t.waiting.Some? && !t.waiting.value.confirmed && AnswerOf(t, true) == Some(Success)
    ensures var t := Run(s, es);
            (exists f :: f in NewSent(t, Sent(true, posted)) && f.payload == t.waiting) <==>
            t.pending.Some? && exists i :: PlacedAt(s, es, i)
  {
    hide Run, PlacedAt, Matches, AnswerOf;
    var t := Run(s, es);
    if t.pending.Some? {
      WaitingIsCarriedIff(s, es);
      assert t.pending.value in NewSent(t, Sent(true, posted));
    }
  }

  // ---- The report on a confirmed payload ----

  predicate Acked(s: Ns, e: Event) {
    e.Uplink? && e.ack && s.waiting.Some? && s.waiting.value.confirmed
  }

  predicate Answers(s: Ns, e: Event) {
    e.Sent? && AnswerOf(s, e.ok).Some?
  }

  /** Event i acknowledged while a confirmed payload waited, and nothing was reported since. */
  ghost predicate AckedAt(s: Ns, es: seq<Event>, i: nat) {
    i < |es| && Acked(Run(s, es[..i]), es[i]) && forall j :: i < j < |es| ==> !Answers(Run(s, es[..j]), es[j])
  }

  lemma SentDue(s: Ns, ok: bool, posted: bool)
    ensures SentStep(s, ok, posted).answerDue <==> s.answerDue && AnswerOf(s, ok).None?
  {
    CountSentFacts(s, ok);
    hide CountSent;
  }

  lemma ScheduleDue(s: Ns, rx: Rx, queued: bool, drained: Drained)
    ensures ScheduleStep(s, rx, queued, drained).answerDue == s.answerDue
  {
    hide Built, Builds, MTypeOf;
  }

  lemma StepDue(s: Ns, e: Event)
    ensures Step(s, e).answerDue <==> Acked(s, e) || (s.answerDue && !Answers(s, e))
  {
    hide SentStep, ScheduleStep, AnswerOf, Accepts;
    match e
    case Uplink(ack, resent) =>
    case Resend =>
    case Schedule(rx, queued, drained) => ScheduleDue(s, rx, queued, drained);
    case Sent(ok, posted) => SentDue(s, ok, posted);
    case Offer(q) =>
  }

  lemma AckedEarlier(s: Ns, es: seq<Event>, i: nat)
    requires i < |es| - 1
    ensures var n := |es| - 1; AckedAt(s, es, i) <==> AckedAt(s, es[..n], i) && !Answers(Run(s, es[..n]), es[n])
  {
    hide Acked, Answers, Run;
    var n := |es| - 1;
    assert forall j :: 0 <= j <= n ==> es[..n][..j] == es[..j];
  }

  /** Over every run: a report of success is due for a reason other than an unconfirmed payload exactly if an uplink brought
      an ACK while a confirmed payload waited, and nothing was reported since. */
  lemma {:induction false} ReportIsDueIff(s: Ns, es: seq<Event>)
    requires !s.answerDue
    ensures Run(s, es).answerDue <==> exists i :: AckedAt(s, es, i)
  {
    hide Acked, Answers, Step;
    if es != [] {
      var n := |es| - 1;
      ReportIsDueIff(s, es[..n]);
      StepDue(Run(s, es[..n]), es[n]);
      forall i: nat | i < n
        ensures AckedAt(s, es, i) <==> AckedAt(s, es[..n], i) && !Answers(Run(s, es[..n]), es[n])
      {
        AckedEarlier(s, es, i);
      }
      assert AckedAt(s, es, n) <==> Acked(Run(s, es[..n]), es[n]);
    }
  }

  /** So a confirmed payload that waits is reported, whether the last transmission succeeded or not, exactly then. */
  lemma ConfirmedIsReportedIff(s: Ns, es: seq<Event>, ok: bool)
    requires !s.answerDue && Run(s, es).waiting.Some? && Run(s, es).waiting.value.confirmed
    ensures AnswerOf(Run(s, es), ok) == Some(Success) <==> exists i :: AckedAt(s, es, i)
    ensures AnswerOf(Run(s, es), ok) != Some(Failure)
  {
    hide Run, AckedAt;
    ReportIsDueIff(s, es);
  }

  // ---- What a failed transmission leaves ----

  /** Nothing of the run sends or drops the unsent frame. */
  predicate Holds(s: Ns, es: seq<Event>) {
    es == [] ||
    (var before, e := Run(s, es[..|es| - 1]), es[|es| - 1];
     Holds(s, es[..|es| - 1]) && !(e.Sent? && e.ok) && !(e.Schedule? && Drops(before, e.rx)))
  }

  lemma StepHolds(s: Ns, e: Event)
    requires s.pending.Some? && (s.optNeg && s.saved.Some? ==> s.saved == s.pending)
    requires !(e.Sent? && e.ok) && !(e.Schedule? && Drops(s, e.rx))
    ensures var t := Step(s, e); t.pending == s.pending && t.saved == s.saved && t.optNeg == s.optNeg
  {
    hide SentStep;
    if e.Sent? {
      SentPending(s, e.ok, e.posted);
    }
  }

  lemma {:induction false} PendingHolds(s: Ns, es: seq<Event>)
    requires s.pending.Some? && (s.optNeg && s.saved.Some? ==> s.saved == s.pending) && Holds(s, es)
    ensures var t := Run(s, es); t.pending == s.pending && t.saved == s.saved && t.optNeg == s.optNeg
  {
    hide Step, Drops;
    if es != [] {
      PendingHolds(s, es[..|es| - 1]);
      StepHolds(Run(s, es[..|es| - 1]), es[|es| - 1]);
    }
  }

  /** Over every run: when a transmission fails, an unconfirmed payload that waits is reported as failed, but the frame stays.
      Whatever comes next, as long as nothing is sent or dropped, the next transmission that succeeds is of that frame. So the
      payload reported as failed is sent after all exactly if the frame was built while it waited and had its place in it, and
      no other payload was taken since. */
  lemma FailureIsSentAfterAllIff(s: Ns, es: seq<Event>, posted: bool, more: seq<Event>, q: Request)
    requires NoneYet(s) && Regular(s, es) && DistinctOffers(es)
    requires Run(s, es).waiting == Some(q) && AnswerOf(Run(s, es), false) == Some(Failure)
    requires Holds(SentStep(Run(s, es), false, posted), more)
    ensures var u := Run(SentStep(Run(s, es), false, posted), more);
            u.pending == Run(s, es).pending && u.pending.Some? && (HandsOver(u, q) <==> exists i :: PlacedAt(s, es, i))
  {
    hide Run, PlacedAt, Matches, SentStep, LastFrame, Carries, Tids;
    var t := Run(s, es);
    WaitingIsCarriedIff(s, es);
    RunTracks(s, es);
    SentPending(t, false, posted);
    PendingHolds(SentStep(t, false, posted), more);
  }

  // ---- False reports ----

  lemma RunPrefix(s: Ns, es: seq<Event>, k: nat)
    requires k < |es|
    ensures Run(s, es[..k + 1]) == Step(Run(s, es[..k]), es[k])
  {
    hide Step;
    assert es[..k + 1][..k] == es[..k];
  }

  lemma RunOfFive(s: Ns, es: seq<Event>)
    requires |es| == 5
    ensures Run(s, es) == Step(Step(Step(Step(Step(s, es[0]), es[1]), es[2]), es[3]), es[4])
  {
    hide Step, Run;
    RunPrefix(s, es, 0);
    RunPrefix(s, es, 1);
    RunPrefix(s, es, 2);
    RunPrefix(s, es, 3);
    RunPrefix(s, es, 4);
    RunOfNone(s, es[..0]);
    assert es[..5] == es;
  }

  lemma RunOfNone(s: Ns, es: seq<Event>)
    requires es == []
    ensures Run(s, es) == s
  {
  }

  /** A frame that only answers ADRACKReq. */
  const EMPTY := Schedule(Data(false, true, false, 0), false, [])

  lemma EmptyFrame(s: Ns)
    requires NoneYet(s)
    ensures var t := Step(s, EMPTY);
            t.pending.Some? && t.pending.value.frame.body.None? && t.pending.value.payload.None? && t.incr && t.n == s.n &&
            t.waiting.None? && t.optNeg == s.optNeg && t.answerDue == s.answerDue
  {
    hide MTypeOf, WithMType, FOptsOf;
  }

  lemma FailedSend(s: Ns)
    requires s.waiting.None? && !s.answerDue
    ensures Step(s, Sent(false, true)) == s
  {
  }

  lemma KeptWhileOffered(s: Ns, q: Request)
    requires s.pending.Some? && s.incr && Accepts(s, q) && q.data != []
    ensures var t := Step(Step(Step(s, Offer(q)), Uplink(false, false)), Schedule(NoHeader, false, []));
            t.pending == s.pending && t.waiting == Some(q)
  {
    hide Accepts;
  }

  /** In both versions a payload that no frame carried can be reported as sent: a frame without payload fails, a payload is
      accepted, the unsent frame is kept at the next uplink, and then it is sent. */
  lemma UncarriedIsReported(s: Ns, q: Request)
    requires NoneYet(s) && !q.confirmed && q.data != [] && !s.answerDue && (s.optNeg || q.counter == Succ(s.n))
    ensures var es := [EMPTY, Sent(false, true), Offer(q), Uplink(false, false), Schedule(NoHeader, false, [])];
            var t := Run(s, es);
            t.waiting == Some(q) && AnswerOf(t, true) == Some(Success) && t.pending.Some? &&
            t.pending.value.frame.body.None? && !HandsOver(t, q)
  {
    hide Step, Run;
    EmptyFrame(s);
    FailedSend(Step(s, EMPTY));
    KeptWhileOffered(Step(s, EMPTY), q);
    RunOfFive(s, [EMPTY, Sent(false, true), Offer(q), Uplink(false, false), Schedule(NoHeader, false, [])]);
  }

  // ---- The requests of the application server ----

  /** The identifiers given out from first on, before next. */
  predicate GivenOut(first: uint32, count: nat, tid: uint32) {
    (tid as int - first as int) % 0x1_0000_0000 < count
  }

  ghost predicate TidsGiven(s: Sys, es: seq<SysEvent>, count: nat) {
    count <= |es| && SysRun(s, es).tid as int == (s.tid as int + count) % 0x1_0000_0000 &&
    DistinctOffers(SeenIn(s, es)) && forall e :: e in SeenIn(s, es) && e.Offer? ==> GivenOut(s.tid, count, e.q.tid)
  }

  lemma NextGiven(first: uint32, count: nat, tid: uint32)
    requires count < 0xffff_ffff && tid as int == (first as int + count) % 0x1_0000_0000
    ensures !GivenOut(first, count, tid) && GivenOut(first, count + 1, tid)
    ensures Succ(tid) as int == (first as int + (count + 1)) % 0x1_0000_0000
  {
  }

  /** Over every run of both servers with less than 2^32 steps each request has an identifier of its own, so that what holds of
      the reports holds of these runs. */
  lemma {:induction false} RequestsAreDistinct(s: Sys, es: seq<SysEvent>) returns (count: nat)
    requires |es| < 0xffff_ffff
    ensures TidsGiven(s, es, count)
  {
    hide SysStep, Seen, GivenOut;
    count := 0;
    if es != [] {
      var front, e := es[..|es| - 1], es[|es| - 1];
      var before := SysRun(s, front);
      count := RequestsAreDistinct(s, front);
      StepIsSeen(before, e);
      var seen, more := SeenIn(s, front), Seen(before, e);
      if more != [] && more[0].Offer? {
        NextGiven(s.tid, count, before.tid);
        GivenMore(s.tid, count);
        assert seen + more == seen + [more[0]];
        count := count + 1;
      }
    }
  }

  lemma GivenMore(first: uint32, count: nat)
    ensures forall tid :: GivenOut(first, count, tid) ==> GivenOut(first, count + 1, tid)
  {
  }

  lemma {:induction false} RegularIsSeen(s: Sys, es: seq<SysEvent>)
    requires RegularRun(s, es)
    ensures Regular(s.ns, SeenIn(s, es))
  {
    hide Garbles, SysStep, Step, RequestFor;
    if es != [] {
      var front, e := es[..|es| - 1], es[|es| - 1];
      RegularIsSeen(s, front);
      RunIsSeen(s, front);
      var seen, more := SeenIn(s, front), Seen(SysRun(s, front), e);
      if more == [] {
        assert seen + more == seen;
      } else {
        assert (seen + more)[..|seen|] == seen && (seen + more)[|seen|] == more[0];
      }
    }
  }

  /** SuccessReportIsTrueIff for every run of both servers. */
  lemma MailedSuccessIsTrueIff(s: Sys, es: seq<SysEvent>)
    requires NoneYet(s.ns) && RegularRun(s, es) && |es| < 0xffff_ffff
    requires var t := SysRun(s, es).ns;
             t.waiting.Some? && !t.waiting.value.confirmed && MailOf(t, Sent(true, true)) == [Delivered]
    ensures var t := SysRun(s, es).ns;
            (exists f :: f in NewSent(t, Sent(true, true)) && f.payload == t.waiting) <==>
            t.pending.Some? && exists i :: PlacedAt(s.ns, SeenIn(s, es), i)
  {
    hide Run, SysRun, SeenIn, PlacedAt, AnswerOf, NewSent, Regular, RegularRun, DistinctOffers;
    RunIsSeen(s, es);
    RegularIsSeen(s, es);
    var count := RequestsAreDistinct(s, es);
    SuccessReportIsTrueIff(s.ns, SeenIn(s, es), true);
  }
}
