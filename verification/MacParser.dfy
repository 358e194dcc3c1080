/** parse_mac_command (network_server/sNS.c): the MAC commands of an uplink, each dispatched once. */
module MacParser {
  import opened MacQueue
  import opened ClassB
  import opened Adr
  import opened Basics

  // ---- Opcodes: network_server headers give request and answer the same number ----

  const RESET: bv8 := 0x01
  const LINK_CHECK: bv8 := 0x02
  const LINK_ADR: bv8 := 0x03
  const RX_PARAM_SETUP: bv8 := 0x05
  const DEV_STATUS: bv8 := 0x06
  const NEW_CHANNEL: bv8 := 0x07
  const TX_PARAM_SETUP: bv8 := 0x09
  const REKEY: bv8 := 0x0b
  const DEVICE_TIME: bv8 := 0x0d
  const REJOIN_PARAM: bv8 := 0x0f
  const PING_SLOT_INFO: bv8 := 0x10
  const PING_SLOT_CHANNEL: bv8 := 0x11
  const BEACON_TIMING: bv8 := 0x12
  const BEACON_FREQ: bv8 := 0x13
  const DEVICE_MODE: bv8 := 0x20

  // ---- What an uplink command is ----

  /** Bytes of an uplink command, opcode included. Answers the source does not list count as one byte. */
  function Length(op: bv8): (n: nat)
    ensures 1 <= n <= 3
  {
    if op == DEV_STATUS then 3
    else if op == LINK_CHECK || op == DEVICE_TIME || op == BEACON_TIMING || op == TX_PARAM_SETUP then 1
    else if Clears(op) || Answered(op) then 2
    else 1
  }

  predicate WellFormed(cmd: seq<bv8>) {
    cmd != [] && |cmd| == Length(cmd[0])
  }

  /** A command as the scan takes it, with its opcode first. */
  type Taken = cmd: seq<bv8> | WellFormed(cmd) witness [0]

  /** The answers that finish a queued request. The answers to DevStatus, DutyCycle and RxTimingSetup requests do not. */
  predicate Clears(op: bv8) {
    op == LINK_ADR || op == RX_PARAM_SETUP || op == NEW_CHANNEL || op == TX_PARAM_SETUP ||
    op == REJOIN_PARAM || op == PING_SLOT_CHANNEL || op == BEACON_FREQ
  }

  /** The requests that the server answers. */
  predicate Answered(op: bv8) {
    op == RESET || op == LINK_CHECK || op == REKEY || op == DEVICE_TIME ||
    op == PING_SLOT_INFO || op == BEACON_TIMING || op == DEVICE_MODE
  }

  /** What the answers are computed from besides the command: radio measurements, clocks, the database and the
      configuration of the gateway's region, if there is one; abp is a mote without DevEUI. */
  datatype Uplink = Uplink(rxSnr: int, gwCnt: bv8, beaconTiming: seq<bv8>, deviceTime: seq<bv8>, sqlOptNeg: bool,
                           secondsAtBeacon: bv64, devAddr: bv32, region: Option<Region>, abp: bool)

  predicate UplinkOk(u: Uplink) {
    -128 <= u.rxSnr < 128 && |u.beaconTiming| == 3 && |u.deviceTime| == 5
  }

  const DEMOD_FLOOR := -15

  /** The command the server puts into its queue for this one. */
  function AnswerTo(cmd: Taken, u: Uplink): (a: seq<bv8>)
    requires UplinkOk(u) && Answered(cmd[0])
    ensures 0 < |a| < MAC_CMD_SIZE && a[0] == cmd[0]
  {
    if cmd[0] == LINK_CHECK then
      [LINK_CHECK, if u.rxSnr < DEMOD_FLOOR then 0 else (u.rxSnr - DEMOD_FLOOR) as bv8, u.gwCnt]
    else if cmd[0] == PING_SLOT_INFO then [PING_SLOT_INFO]
    else if cmd[0] == BEACON_TIMING then [BEACON_TIMING] + u.beaconTiming
    else if cmd[0] == DEVICE_TIME then [DEVICE_TIME] + u.deviceTime
    else if cmd[0] == RESET then [RESET, if u.sqlOptNeg then 1 else 0]
    else [cmd[0], cmd[1]]
  }

  // ---- The specification of the scan ----

  /** The commands from pos on: each takes its length, the last may run past the end. */
  function Split(buf: seq<bv8>, pos: nat, len: nat): seq<Taken>
    requires len + 2 <= |buf|
    decreases len - pos
  {
    if pos >= len then []
    else [buf[pos..pos + Length(buf[pos])]] + Split(buf, pos + Length(buf[pos]), len)
  }

  lemma SliceInTwo(buf: seq<bv8>, from: nat, a: seq<bv8>, b: seq<bv8>, to: nat)
    requires from <= to <= |buf| && buf[from..to] == a + b
    ensures from + |a| <= to && buf[from..from + |a|] == a && buf[from + |a|..to] == b
  {
    assert buf[from..from + |a|] == (a + b)[..|a|];
    assert buf[from + |a|..to] == (a + b)[|a|..];
  }

  // ---- The effect on the queue ----

  /** One command: its answer is put, or the request it answers is cleared. */
  function QueueStep(h: Row, cmd: Taken, u: Uplink): Row
    requires UplinkOk(u)
  {
    if Answered(cmd[0]) then PutInto(h, Command(AnswerTo(cmd, u), false))
    else if Clears(cmd[0]) then Cleared(h, cmd[0])
    else h
  }

  function QueueAfter(h: Row, cmds: seq<Taken>, u: Uplink): Row
    requires UplinkOk(u)
  {
    if cmds == [] then h else QueueStep(QueueAfter(h, cmds[..|cmds| - 1], u), cmds[|cmds| - 1], u)
  }

  /** The list without every request that one of these commands answers. */
  function Survivors(list: seq<Command>, cmds: seq<Taken>): seq<Command> {
    if cmds == [] then list
    else
      var before, c := Survivors(list, cmds[..|cmds| - 1]), cmds[|cmds| - 1];
      if Clears(c[0]) then Without(before, c[0]) else before
  }

  /** An answer finds room when fewer than five slots are in use, and is put when no command with its opcode is queued. */
  predicate HasRoom(h: Row) {
    |h| < 5
  }

  /** The answers these commands put, oldest first. */
  function Added(h: Row, cmds: seq<Taken>, u: Uplink): seq<Command>
    requires UplinkOk(u)
  {
    if cmds == [] then []
    else
      var before, c := QueueAfter(h, cmds[..|cmds| - 1], u), cmds[|cmds| - 1];
      Added(h, cmds[..|cmds| - 1], u) +
      if Answered(c[0]) && HasRoom(before) && !HasOpcode(LiveOf(before), c[0]) then [Command(AnswerTo(c, u), false)] else []
  }

  predicate OnlyAnswers(list: seq<Command>) {
    forall k :: 0 <= k < |list| ==> |list[k].bytes| > 0 && Answered(list[k].bytes[0]) && !list[k].needsAnswer
  }

  lemma {:induction false} AnswersAreNotRequests(list: seq<Command>, op: bv8)
    requires OnlyAnswers(list) && Clears(op)
    ensures !HasOpcode(list, op)
  {
    if list != [] {
      assert forall k :: 0 <= k < |list[1..]| ==> list[1..][k] == list[k + 1];
      AnswersAreNotRequests(list[1..], op);
    }
  }

  lemma {:induction false} AddedAreAnswers(h: Row, cmds: seq<Taken>, u: Uplink)
    requires UplinkOk(u)
    ensures OnlyAnswers(Added(h, cmds, u))
  {
    hide AnswerTo;
    if cmds != [] {
      AddedAreAnswers(h, cmds[..|cmds| - 1], u);
    }
  }

  /** What one command does to the list of commands. */
  lemma LiveOfStep(h: Row, cmd: Taken, u: Uplink)
    requires UplinkOk(u)
    ensures LiveOf(QueueStep(h, cmd, u)) ==
            (if Clears(cmd[0]) then Without(LiveOf(h), cmd[0]) else LiveOf(h)) +
            if Answered(cmd[0]) && HasRoom(h) && !HasOpcode(LiveOf(h), cmd[0]) then [Command(AnswerTo(cmd, u), false)] else []
  {
    hide AnswerTo, Cleared, LiveOf, Without, HasOpcode;
    if Answered(cmd[0]) {
      LiveOfAppend(h, Command(AnswerTo(cmd, u), false));
    } else if Clears(cmd[0]) {
      LiveOfCleared(h, cmd[0]);
    }
  }

  /** After the scan the list is the unanswered requests in their old order, and behind them the answers put. */
  lemma {:induction false} LiveAfterScan(h: Row, cmds: seq<Taken>, u: Uplink)
    requires UplinkOk(u)
    ensures LiveOf(QueueAfter(h, cmds, u)) == Survivors(LiveOf(h), cmds) + Added(h, cmds, u)
  {
    hide AnswerTo, QueueStep, LiveOf, Without, HasOpcode, HasRoom;
    if cmds != [] {
      var front, c := cmds[..|cmds| - 1], cmds[|cmds| - 1];
      var added := Added(h, front, u);
      LiveAfterScan(h, front, u);
      LiveOfStep(QueueAfter(h, front, u), c, u);
      if Clears(c[0]) {
        AddedAreAnswers(h, front, u);
        WithoutConcat(Survivors(LiveOf(h), front), added, c[0]);
        AnswersAreNotRequests(added, c[0]);
        WithoutAbsent(added, c[0]);
      }
    }
  }

  /** No request whose answer was among the commands survives. */
  lemma {:induction false} SurvivorsUnanswered(list: seq<Command>, cmds: seq<Taken>, k: nat)
    requires k < |cmds| && Clears(cmds[k][0])
    ensures !HasOpcode(Survivors(list, cmds), cmds[k][0])
  {
    var n := |cmds| - 1;
    WithoutRemoves(Survivors(list, cmds[..n]), cmds[n][0]);
    if k < n {
      SurvivorsUnanswered(list, cmds[..n], k);
    }
  }

  /** After the scan no request is queued whose answer was present and is one of the seven that finish requests. */
  lemma AnsweredRequestsAreGone(h: Row, cmds: seq<Taken>, u: Uplink, k: nat)
    requires UplinkOk(u) && k < |cmds| && Clears(cmds[k][0])
    ensures !HasOpcode(LiveOf(QueueAfter(h, cmds, u)), cmds[k][0])
  {
    hide Survivors, Added, QueueAfter, LiveOf;
    LiveAfterScan(h, cmds, u);
    AddedAreAnswers(h, cmds, u);
    SurvivorsUnanswered(LiveOf(h), cmds, k);
    AnswersAreNotRequests(Added(h, cmds, u), cmds[k][0]);
    HasOpcodeConcat(Survivors(LiveOf(h), cmds), Added(h, cmds, u), cmds[k][0]);
  }

  /** Command k asks for an answer with opcode op and finds room. */
  ghost predicate Asks(h: Row, cmds: seq<Taken>, u: Uplink, op: bv8, k: nat)
    requires UplinkOk(u)
  {
    k < |cmds| && cmds[k][0] == op && HasRoom(QueueAfter(h, cmds[..k], u))
  }

  /** After the scan an answer is queued exactly when one with its opcode was queued before or a command that asks for it
      found room. */
  lemma {:induction false} AnswerIsQueuedIff(h: Row, cmds: seq<Taken>, u: Uplink, op: bv8)
    requires UplinkOk(u) && Answered(op)
    ensures HasOpcode(LiveOf(QueueAfter(h, cmds, u)), op) <==>
            HasOpcode(LiveOf(h), op) || exists k :: Asks(h, cmds, u, op, k)
  {
    hide QueueStep, LiveOf, HasOpcode, HasRoom, Answered, Clears;
    if cmds != [] {
      var n := |cmds| - 1;
      AnswerIsQueuedIff(h, cmds[..n], u, op);
      StepQueues(QueueAfter(h, cmds[..n], u), cmds[n], u, op);
      forall k: nat | k < n
        ensures Asks(h, cmds, u, op, k) <==> Asks(h, cmds[..n], u, op, k)
      {
        assert cmds[..n][..k] == cmds[..k];
      }
      assert cmds[n][0] == op && HasRoom(QueueAfter(h, cmds[..n], u)) <==> Asks(h, cmds, u, op, n);
    }
  }

  lemma StepQueues(h: Row, cmd: Taken, u: Uplink, op: bv8)
    requires UplinkOk(u) && Answered(op)
    ensures HasOpcode(LiveOf(QueueStep(h, cmd, u)), op) <==> HasOpcode(LiveOf(h), op) || (cmd[0] == op && HasRoom(h))
  {
    hide LiveOf, QueueStep, HasRoom, AnswerTo;
    LiveOfStep(h, cmd, u);
    var kept := if Clears(cmd[0]) then Without(LiveOf(h), cmd[0]) else LiveOf(h);
    WithoutRemoves(LiveOf(h), cmd[0]);
    assert kept + [] == kept;
    if Answered(cmd[0]) && HasRoom(h) && !HasOpcode(LiveOf(h), cmd[0]) {
      var answer := Command(AnswerTo(cmd, u), false);
      HasOpcodeConcat(kept, [answer], op);
      assert HasOpcode([answer], op) <==> cmd[0] == op;
    }
  }

  lemma {:induction false} WithoutKeeps(list: seq<Command>, op: bv8, c: Command)
    requires c in list && !IsFor(c, op)
    ensures c in Without(list, op)
  {
    if c != list[0] {
      WithoutKeeps(list[1..], op, c);
    }
  }

  lemma StepKeepsAnswer(h: Row, cmd: Taken, u: Uplink, c: Command)
    requires UplinkOk(u) && c in LiveOf(h) && c.bytes != [] && Answered(c.bytes[0])
    ensures c in LiveOf(QueueStep(h, cmd, u))
  {
    hide LiveOf, QueueStep, HasRoom, AnswerTo, HasOpcode;
    LiveOfStep(h, cmd, u);
    if Clears(cmd[0]) {
      WithoutKeeps(LiveOf(h), cmd[0], c);
    }
  }

  /** The answer queued is the one to the first command that asks for it and finds room, unless one was queued before. */
  lemma {:induction false} FirstIsAnswered(h: Row, cmds: seq<Taken>, u: Uplink, op: bv8, k: nat)
    requires UplinkOk(u) && Answered(op) && !HasOpcode(LiveOf(h), op)
    requires Asks(h, cmds, u, op, k) && forall j: nat :: j < k ==> !Asks(h, cmds, u, op, j)
    ensures Command(AnswerTo(cmds[k], u), false) in LiveOf(QueueAfter(h, cmds, u))
    decreases |cmds|
  {
    hide LiveOf, QueueStep, HasOpcode, HasRoom, AnswerTo, Answered, Clears;
    var n := |cmds| - 1;
    forall j: nat | j < n
      ensures Asks(h, cmds, u, op, j) <==> Asks(h, cmds[..n], u, op, j)
    {
      assert cmds[..n][..j] == cmds[..j];
    }
    if k < n {
      FirstIsAnswered(h, cmds[..n], u, op, k);
      StepKeepsAnswer(QueueAfter(h, cmds[..n], u), cmds[n], u, Command(AnswerTo(cmds[k], u), false));
    } else {
      AnswerIsQueuedIff(h, cmds[..n], u, op);
      LiveOfStep(QueueAfter(h, cmds[..n], u), cmds[n], u);
    }
  }

  // ---- The state the commands change ----

  /** The fields of s_t beside the queue that the commands set. */
  datatype Fields = Fields(pingPeriod: uint16, pingOffset: uint16, classModeInd: bv8, sessionStart: bool, checkOldSessions: bool,
                           adr: View)

  /** RekeyInd for minor version 1 from a mote that joined. */
  predicate Rekeys(cmd: Taken, u: Uplink) {
    cmd[0] == REKEY && cmd[1] == 1 && !u.abp
  }

  predicate AsksPingSlots(cmd: Taken) {
    cmd[0] == PING_SLOT_INFO
  }

  function PeriodAsked(cmd: Taken): (period: uint16)
    requires AsksPingSlots(cmd)
    ensures period > 0
  {
    hide PowerOfTwo;
    PingPeriod((cmd[1] & 0x07) as nat) as uint16
  }

  function OffsetAsked(cmd: Taken, u: Uplink): uint16
    requires AsksPingSlots(cmd)
  {
    hide PingRandom;
    PingOffset(u.secondsAtBeacon, u.devAddr, PeriodAsked(cmd) as nat) as uint16
  }

  function FieldsStep(f: Fields, cmd: Taken, u: Uplink): Fields {
    if AsksPingSlots(cmd) then f.(pingPeriod := PeriodAsked(cmd), pingOffset := OffsetAsked(cmd, u))
    else if cmd[0] == RESET then f.(sessionStart := true, adr := Initialised(f.adr, u.region))
    else if cmd[0] == DEVICE_MODE then f.(classModeInd := cmd[1])
    else f.(checkOldSessions := f.checkOldSessions && !Rekeys(cmd, u))
  }

  function FieldsAfter(f: Fields, cmds: seq<Taken>, u: Uplink): Fields {
    if cmds == [] then f else FieldsStep(FieldsAfter(f, cmds[..|cmds| - 1], u), cmds[|cmds| - 1], u)
  }

  /** The last of these commands with the opcode. */
  function LastOf(cmds: seq<Taken>, op: bv8): (c: Option<Taken>)
    ensures c.Some? ==> c.value in cmds && c.value[0] == op
    ensures c.None? ==> forall k :: 0 <= k < |cmds| ==> cmds[k][0] != op
  {
    if cmds == [] then None
    else if cmds[|cmds| - 1][0] == op then Some(cmds[|cmds| - 1])
    else LastOf(cmds[..|cmds| - 1], op)
  }

  /** After the scan the last PingSlotInfoReq has set the ping slots and the last DeviceModeInd the class. */
  lemma {:induction false} LastCommandSets(f: Fields, cmds: seq<Taken>, u: Uplink)
    ensures var t, ping := FieldsAfter(f, cmds, u), LastOf(cmds, PING_SLOT_INFO);
            if ping.Some? then t.pingPeriod == PeriodAsked(ping.value) && t.pingOffset == OffsetAsked(ping.value, u)
            else t.pingPeriod == f.pingPeriod && t.pingOffset == f.pingOffset
    ensures var t, mode := FieldsAfter(f, cmds, u), LastOf(cmds, DEVICE_MODE);
            t.classModeInd == if mode.Some? then mode.value[1] else f.classModeInd
  {
    hide PeriodAsked, OffsetAsked;
    if cmds != [] {
      LastCommandSets(f, cmds[..|cmds| - 1], u);
    }
  }

  lemma InitialisedOnce(v: View, region: Option<Region>)
    ensures Initialised(Initialised(v, region), region) == Initialised(v, region)
  {
  }

  /** After the scan a session has started and the adaptive data rate is set back exactly if a ResetInd was among the
      commands. */
  lemma {:induction false} ResetStartsSession(f: Fields, cmds: seq<Taken>, u: Uplink)
    ensures var t, reset := FieldsAfter(f, cmds, u), LastOf(cmds, RESET).Some?;
            t.sessionStart == (f.sessionStart || reset) && t.adr == if reset then Initialised(f.adr, u.region) else f.adr
  {
    hide PeriodAsked, OffsetAsked, Initialised;
    InitialisedOnce(f.adr, u.region);
    if cmds != [] {
      ResetStartsSession(f, cmds[..|cmds| - 1], u);
    }
  }

  /** Old sessions are still to be deleted exactly if no joined mote's RekeyInd for version 1 was among the commands. */
  lemma {:induction false} RekeyEndsWait(f: Fields, cmds: seq<Taken>, u: Uplink)
    ensures FieldsAfter(f, cmds, u).checkOldSessions <==> f.checkOldSessions && forall k :: 0 <= k < |cmds| ==> !Rekeys(cmds[k], u)
  {
    hide PeriodAsked, OffsetAsked, Initialised;
    if cmds != [] {
      RekeyEndsWait(f, cmds[..|cmds| - 1], u);
    }
  }

  // ---- The commands by name, each with its bytes and its effect ----

  const KNOWN: set<bv8> := {0x01, 0x02, 0x03, 0x04, 0x05, 0x06, 0x07, 0x08, 0x09, 0x0b, 0x0d, 0x0f, 0x10, 0x11, 0x12, 0x13, 0x20}

  type UnknownOpcode = op: bv8 | op !in KNOWN witness 0

  /** What an end-device sends: libbackend/lorawan.h and LoRaWAN 1.1 section 5. The answers to DutyCycleReq and
      RXTimingSetupReq have no case of their own in the source. */
  datatype UplinkCommand =
    | ResetInd(version: bv8) | LinkCheckReq | LinkAdrAns(status: bv8) | DutyCycleAns | RxParamSetupAns(status: bv8)
    | DevStatusAns(battery: bv8, margin: bv8) | NewChannelAns(status: bv8) | RxTimingSetupAns | TxParamSetupAns
    | RekeyInd(version: bv8) | DeviceTimeReq | RejoinParamAns(status: bv8) | PingSlotInfoReq(parameter: bv8)
    | PingSlotFreqAns(status: bv8) | BeaconTimingReq | BeaconFreqAns(status: bv8) | DeviceModeInd(mode: bv8)
    | Unknown(op: UnknownOpcode)

  function Encoded(c: UplinkCommand): seq<bv8> {
    match c
    case ResetInd(version) => [0x01, version]
    case LinkCheckReq => [0x02]
    case LinkAdrAns(status) => [0x03, status]
    case DutyCycleAns => [0x04]
    case RxParamSetupAns(status) => [0x05, status]
    case DevStatusAns(battery, margin) => [0x06, battery, margin]
    case NewChannelAns(status) => [0x07, status]
    case RxTimingSetupAns => [0x08]
    case TxParamSetupAns => [0x09]
    case RekeyInd(version) => [0x0b, version]
    case DeviceTimeReq => [0x0d]
    case RejoinParamAns(status) => [0x0f, status]
    case PingSlotInfoReq(parameter) => [0x10, parameter]
    case PingSlotFreqAns(status) => [0x11, status]
    case BeaconTimingReq => [0x12]
    case BeaconFreqAns(status) => [0x13, status]
    case DeviceModeInd(mode) => [0x20, mode]
    case Unknown(op) => [op]
  }

  /** A request is answered, an answer ends the request it belongs to, and the rest leaves the queue alone. */
  function QueueEffect(h: Row, c: UplinkCommand, u: Uplink): Row
    requires UplinkOk(u)
  {
    match c
    case ResetInd(_) => PutInto(h, Command([0x01, if u.sqlOptNeg then 1 else 0], false))
    case LinkCheckReq => PutInto(h, Command([0x02, if u.rxSnr < -15 then 0 else (u.rxSnr + 15) as bv8, u.gwCnt], false))
    case LinkAdrAns(_) => Cleared(h, 0x03)
    case DutyCycleAns => h
    case RxParamSetupAns(_) => Cleared(h, 0x05)
    case DevStatusAns(_, _) => h
    case NewChannelAns(_) => Cleared(h, 0x07)
    case RxTimingSetupAns => h
    case TxParamSetupAns => Cleared(h, 0x09)
    case RekeyInd(version) => PutInto(h, Command([0x0b, version], false))
    case DeviceTimeReq => PutInto(h, Command([0x0d] + u.deviceTime, false))
    case RejoinParamAns(_) => Cleared(h, 0x0f)
    case PingSlotInfoReq(_) => PutInto(h, Command([0x10], false))
    case PingSlotFreqAns(_) => Cleared(h, 0x11)
    case BeaconTimingReq => PutInto(h, Command([0x12] + u.beaconTiming, false))
    case BeaconFreqAns(_) => Cleared(h, 0x13)
    case DeviceModeInd(mode) => PutInto(h, Command([0x20, mode], false))
    case Unknown(_) => h
  }

  /** Periods are 32 slots for parameter 0 and double with each step. */
  function FieldsEffect(f: Fields, c: UplinkCommand, u: Uplink): Fields {
    match c
    case ResetInd(_) => f.(sessionStart := true, adr := Initialised(f.adr, u.region))
    case RekeyInd(version) => if version == 1 && !u.abp then f.(checkOldSessions := false) else f
    case PingSlotInfoReq(parameter) =>
      var period: uint16 := [32, 64, 128, 256, 512, 1024, 2048, 4096][(parameter & 0x07) as nat];
      f.(pingPeriod := period, pingOffset := OffsetFor(period, u))
    case DeviceModeInd(mode) => f.(classModeInd := mode)
    case _ => f
  }

  function OffsetFor(period: uint16, u: Uplink): uint16
    requires period > 0
  {
    hide PingRandom;
    PingOffset(u.secondsAtBeacon, u.devAddr, period as nat) as uint16
  }

  function QueueEffects(h: Row, cs: seq<UplinkCommand>, u: Uplink): Row
    requires UplinkOk(u)
  {
    if cs == [] then h else QueueEffect(QueueEffects(h, cs[..|cs| - 1], u), cs[|cs| - 1], u)
  }

  function FieldsEffects(f: Fields, cs: seq<UplinkCommand>, u: Uplink): Fields {
    if cs == [] then f else FieldsEffect(FieldsEffects(f, cs[..|cs| - 1], u), cs[|cs| - 1], u)
  }

  lemma EncodedIsTaken(c: UplinkCommand)
    ensures WellFormed(Encoded(c))
  {
  }

  lemma EffectOnQueue(h: Row, c: UplinkCommand, u: Uplink)
    requires UplinkOk(u)
    ensures WellFormed(Encoded(c)) && QueueStep(h, Encoded(c), u) == QueueEffect(h, c, u)
  {
    hide PutInto, Cleared;
  }

  lemma PeriodIs(cmd: Taken)
    requires AsksPingSlots(cmd)
    ensures PeriodAsked(cmd) == [32, 64, 128, 256, 512, 1024, 2048, 4096][(cmd[1] & 0x07) as nat]
  {
    hide PowerOfTwo;
    PingPeriodIs((cmd[1] & 0x07) as nat);
    PowersUpTo7((cmd[1] & 0x07) as nat);
  }

  lemma EffectOnFields(f: Fields, c: UplinkCommand, u: Uplink)
    ensures WellFormed(Encoded(c)) && FieldsStep(f, Encoded(c), u) == FieldsEffect(f, c, u)
  {
    hide PeriodAsked, OffsetAsked, PingOffset, Initialised;
    if c.PingSlotInfoReq? {
      PingEffect(f, c.parameter, u);
    }
  }

  lemma PingEffect(f: Fields, parameter: bv8, u: Uplink)
    ensures FieldsStep(f, [0x10, parameter], u) == FieldsEffect(f, PingSlotInfoReq(parameter), u)
  {
    hide PingOffset, PeriodAsked;
    PeriodIs([0x10, parameter]);
  }

  /** Every command the scan takes has a name. */
  function Named(cmd: Taken): (c: UplinkCommand)
    ensures Encoded(c) == cmd
  {
    if cmd[0] == 0x01 then ResetInd(cmd[1]) else if cmd[0] == 0x02 then LinkCheckReq else if cmd[0] == 0x03 then LinkAdrAns(cmd[1])
    else if cmd[0] == 0x04 then DutyCycleAns else if cmd[0] == 0x05 then RxParamSetupAns(cmd[1])
    else if cmd[0] == 0x06 then DevStatusAns(cmd[1], cmd[2]) else if cmd[0] == 0x07 then NewChannelAns(cmd[1])
    else if cmd[0] == 0x08 then RxTimingSetupAns else if cmd[0] == 0x09 then TxParamSetupAns
    else if cmd[0] == 0x0b then RekeyInd(cmd[1]) else if cmd[0] == 0x0d then DeviceTimeReq
    else if cmd[0] == 0x0f then RejoinParamAns(cmd[1]) else if cmd[0] == 0x10 then PingSlotInfoReq(cmd[1])
    else if cmd[0] == 0x11 then PingSlotFreqAns(cmd[1]) else if cmd[0] == 0x12 then BeaconTimingReq
    else if cmd[0] == 0x13 then BeaconFreqAns(cmd[1]) else if cmd[0] == 0x20 then DeviceModeInd(cmd[1])
    else Unknown(cmd[0])
  }

  lemma NamedOfEncoded(c: UplinkCommand)
    ensures WellFormed(Encoded(c)) && Named(Encoded(c)) == c
  {
  }

  function NamedAll(cmds: seq<Taken>): (cs: seq<UplinkCommand>)
    ensures |cs| == |cmds| && forall k :: 0 <= k < |cs| ==> cs[k] == Named(cmds[k])
  {
    hide Named;
    if cmds == [] then [] else NamedAll(cmds[..|cmds| - 1]) + [Named(cmds[|cmds| - 1])]
  }

  /** The commands in a buffer. */
  function Commands(buf: seq<bv8>, len: nat): seq<UplinkCommand>
    requires len + 2 <= |buf|
  {
    NamedAll(Split(buf, 0, len))
  }

  function EncodedAll(cs: seq<UplinkCommand>): seq<bv8> {
    if cs == [] then [] else Encoded(cs[0]) + EncodedAll(cs[1..])
  }

  lemma {:induction false} SplitOfEncoded(cs: seq<UplinkCommand>, buf: seq<bv8>, pos: nat, len: nat)
    requires pos <= len && len + 2 <= |buf| && buf[pos..len] == EncodedAll(cs)
    ensures var cmds := Split(buf, pos, len); |cmds| == |cs| && forall k :: 0 <= k < |cs| ==> cmds[k] == Encoded(cs[k])
  {
    hide Encoded;
    if cs == [] {
      assert pos == len;
    } else {
      var c: seq<bv8>, rest: seq<bv8>, next := Encoded(cs[0]), EncodedAll(cs[1..]), pos + |Encoded(cs[0])|;
      EncodedIsTaken(cs[0]);
      assert buf[pos..len] == c + rest;
      SliceInTwo(buf, pos, c, rest, len);
      assert buf[pos] == buf[pos..next][0];
      SplitOfEncoded(cs[1..], buf, next, len);
    }
  }

  /** Whatever commands were put one after the other into a buffer are found in it. */
  lemma CommandsOfEncoded(cs: seq<UplinkCommand>, buf: seq<bv8>, len: nat)
    requires len + 2 <= |buf| && buf[..len] == EncodedAll(cs)
    ensures Commands(buf, len) == cs
  {
    hide Encoded, Named;
    assert buf[0..len] == buf[..len];
    SplitOfEncoded(cs, buf, 0, len);
    forall k | 0 <= k < |cs|
      ensures Commands(buf, len)[k] == cs[k]
    {
      NamedOfEncoded(cs[k]);
    }
  }

  /** In any buffer the commands found are its bytes, from the first on to the end; only the last may run past it. */
  lemma {:induction false} SplitIsPrefix(buf: seq<bv8>, pos: nat, len: nat)
    requires pos <= len + 2 && len + 2 <= |buf|
    ensures var bytes := EncodedAll(NamedAll(Split(buf, pos, len)));
            pos + |bytes| <= len + 2 && buf[pos..pos + |bytes|] == bytes && (pos <= len ==> len <= pos + |bytes|)
    decreases len + 2 - pos
  {
    hide Length, EncodedAll, NamedAll;
    if pos < len {
      var next := pos + Length(buf[pos]);
      var cmd, rest := buf[pos..next], Split(buf, next, len);
      SplitIsPrefix(buf, next, len);
      NamedFirst([cmd] + rest);
      assert ([cmd] + rest)[1..] == rest;
      SliceAppended(buf, pos, next, next + |EncodedAll(NamedAll(rest))|);
    } else {
      NothingEncoded();
    }
  }

  lemma NothingEncoded()
    ensures EncodedAll(NamedAll([])) == []
  {
  }

  lemma SliceAppended(buf: seq<bv8>, a: nat, b: nat, c: nat)
    requires a <= b <= c <= |buf|
    ensures buf[a..c] == buf[a..b] + buf[b..c]
  {
  }

  lemma NamedFirst(cmds: seq<Taken>)
    requires cmds != []
    ensures EncodedAll(NamedAll(cmds)) == cmds[0] + EncodedAll(NamedAll(cmds[1..]))
  {
    hide Encoded;
    assert NamedAll(cmds)[1..] == NamedAll(cmds[1..]);
  }

  lemma {:induction false} ScanIsEffects(h: Row, f: Fields, cmds: seq<Taken>, u: Uplink)
    requires UplinkOk(u)
    ensures QueueAfter(h, cmds, u) == QueueEffects(h, NamedAll(cmds), u) && FieldsAfter(f, cmds, u) == FieldsEffects(f, NamedAll(cmds), u)
  {
    hide Named, Encoded, QueueStep, FieldsStep, QueueEffect, FieldsEffect;
    if cmds != [] {
      var n := |cmds| - 1;
      ScanIsEffects(h, f, cmds[..n], u);
      assert NamedAll(cmds)[..n] == NamedAll(cmds[..n]);
      EffectOnQueue(QueueAfter(h, cmds[..n], u), Named(cmds[n]), u);
      EffectOnFields(FieldsAfter(f, cmds[..n], u), Named(cmds[n]), u);
    }
  }

  class MacState {
    const queue: CommandQueue
    const adr: AdrState
    var pingPeriod: uint16
    var pingOffset: uint16
    var classModeInd: bv8
    var sessionStart: bool
    var checkOldSessions: bool

    constructor ()
      ensures Valid() && queue.Live() == [] && queue.Held() == [] && fresh(Repr())
      ensures pingPeriod == 0 && !sessionStart && !checkOldSessions
    {
      queue := new CommandQueue();
      adr := new AdrState();
      pingPeriod, pingOffset, classModeInd, sessionStart, checkOldSessions := 0, 0, 0, false, false;
    }

    ghost function Repr(): set<object>
      reads this
    {
      {this, queue, queue.slots, adr, adr.snrHistory}
    }

    ghost predicate Valid()
      reads this, queue, queue.slots, adr
    {
      queue.Valid() && adr.Valid()
    }

    ghost function Now(): Fields
      reads this, adr, adr.snrHistory
    {
      Fields(pingPeriod, pingOffset, classModeInd, sessionStart, checkOldSessions, adr.Now())
    }

    /** The fields that the answered requests set. */
    method TakeFields(cmd: Taken, u: Uplink)
      requires Valid() && UplinkOk(u)
      modifies this, adr, adr.snrHistory
      ensures adr.Valid() && Now() == FieldsStep(old(Now()), cmd, u)
    {
      hide PingOffset, PingPeriod, CommandQueue.Valid;
      if cmd[0] == PING_SLOT_INFO {
        TakePingSlotInfo(cmd[1], u);
      } else if cmd[0] == REKEY {
        if cmd[1] == 1 && !u.abp {
          checkOldSessions := false;
        }
      } else if cmd[0] == RESET {
        sessionStart := true;
        adr.Init(u.region);
      } else if cmd[0] == DEVICE_MODE {
        classModeInd := cmd[1];
      }
    }

    /** The switch of parse_mac_command. The other cases read at most a status and clear the answered request. */
    method Dispatch(buf: seq<bv8>, idx: uint8, u: Uplink) returns (next: uint8)
      requires Valid() && UplinkOk(u)
      requires idx < 250 && idx as nat + 3 <= |buf|
      modifies this, queue, queue.slots, adr, adr.snrHistory
      ensures Valid()
      ensures next as nat == idx as nat + Length(buf[idx])
      ensures Now() == FieldsStep(old(Now()), buf[idx..next], u)
      ensures queue.Held() == QueueStep(old(queue.Held()), buf[idx..next], u)
    {
      hide PingOffset, PingPeriod, AnswerTo, PutInto, Cleared, HeldFrom, LiveFrom, Zeroed, Windowed, FieldsStep, CommandQueue.Live;
      next := idx + Length(buf[idx]) as uint8;
      var cmd := buf[idx..next];
      TakeFields(cmd, u);
      if Answered(cmd[0]) {
        queue.Put(AnswerTo(cmd, u), false);
      } else if Clears(cmd[0]) {
        queue.Clear(cmd[0]);
      }
    }

    /** PingSlotInfoReq: the period from the periodicity bits, and the offset for the current beacon. */
    method TakePingSlotInfo(octet: bv8, u: Uplink)
      requires UplinkOk(u)
      modifies this`pingPeriod, this`pingOffset
      ensures pingPeriod as nat == PingPeriod((octet & 0x07) as nat)
      ensures pingPeriod > 0 && pingOffset as nat == PingOffset(u.secondsAtBeacon, u.devAddr, pingPeriod as nat)
    {
      hide PingOffset, FromCipher;
      var periodicity := (octet & 0x07) as nat;
      PingPeriodIs(periodicity);
      PowersUpTo7(periodicity);
      var pingNb := 128 / PowerOfTwo(periodicity);
      pingPeriod := (4096 / pingNb) as uint16;
      ghost var b;
      pingOffset, b := ComputePingOffset(u.secondsAtBeacon, u.devAddr, pingPeriod);
    }

    /** parse_mac_command. The buffer reaches at least two bytes past the commands, where a truncated last
        command would be read from. */
    method ParseMacCommands(buf: seq<bv8>, len: uint8, u: Uplink)
      requires Valid() && UplinkOk(u)
      requires len <= 242 && len as nat + 2 <= |buf|
      modifies this, queue, queue.slots, adr, adr.snrHistory
      ensures Valid()
      ensures queue.Held() == QueueAfter(old(queue.Held()), Split(buf, 0, len as nat), u)
      ensures Now() == FieldsAfter(old(Now()), Split(buf, 0, len as nat), u)
      ensures queue.Held() == QueueEffects(old(queue.Held()), Commands(buf, len as nat), u)
      ensures Now() == FieldsEffects(old(Now()), Commands(buf, len as nat), u)
    {
      hide Length, QueueStep, FieldsStep, LiveFrom, HeldFrom, Zeroed, Windowed, CommandQueue.Live;
      ghost var h, f, done: seq<Taken> := queue.Held(), Now(), [];
      var idx: uint8 := 0;
      while idx < len
        invariant Valid() && idx <= len + 2
        invariant Split(buf, 0, len as nat) == done + Split(buf, idx as nat, len as nat)
        invariant queue.Held() == QueueAfter(h, done, u) && Now() == FieldsAfter(f, done, u)
        decreases len as int + 2 - idx as int
      {
        var next := Dispatch(buf, idx, u);
        ghost var cmd := buf[idx..next];
        SplitMore(done, cmd, Split(buf, next as nat, len as nat));
        assert (done + [cmd])[..|done|] == done;
        done, idx := done + [cmd], next;
      }
      assert done + [] == done;
      ScanIsEffects(h, f, done, u);
    }
  }

  lemma SplitMore(done: seq<Taken>, cmd: Taken, rest: seq<Taken>)
    ensures done + ([cmd] + rest) == (done + [cmd]) + rest
  {
  }
}
