/** The queue of MAC commands waiting for an end-device (network_server/sNS.c): a ring of six slots in
    which finished commands stay behind as tombstones until the next put moves the out index past them. */
module MacQueue {
  import opened Basics

  const MAC_CMD_SIZE := 8
  const MAC_CMD_QUEUE_SIZE := 6
  const MAX_FOPTS := 15

  datatype Command = Command(bytes: seq<bv8>, needsAnswer: bool)

  // ---- The specification: an ordered list of commands with distinct opcodes ----

  predicate IsFor(c: Command, op: bv8) {
    |c.bytes| > 0 && c.bytes[0] == op
  }

  predicate HasOpcode(list: seq<Command>, op: bv8) {
    list != [] && (IsFor(list[0], op) || HasOpcode(list[1..], op))
  }

  lemma {:induction false} HasOpcodeIff(list: seq<Command>, op: bv8)
    ensures HasOpcode(list, op) <==> exists k :: 0 <= k < |list| && |list[k].bytes| > 0 && list[k].bytes[0] == op
  {
    if list != [] {
      HasOpcodeIff(list[1..], op);
      assert forall k :: 0 <= k < |list[1..]| ==> list[1..][k] == list[k + 1];
      assert forall k :: 1 <= k < |list| ==> list[k] == list[1..][k - 1];
    }
  }

  /** No two commands share an opcode. */
  predicate Distinct(list: seq<Command>) {
    list == [] || (|list[0].bytes| > 0 && !HasOpcode(list[1..], list[0].bytes[0]) && Distinct(list[1..]))
  }

  function Without(list: seq<Command>, op: bv8): seq<Command> {
    if list == [] then []
    else if IsFor(list[0], op) then Without(list[1..], op)
    else [list[0]] + Without(list[1..], op)
  }

  function Bytes(list: seq<Command>): seq<bv8> {
    if list == [] then [] else list[0].bytes + Bytes(list[1..])
  }

  function Answerable(list: seq<Command>): seq<Command> {
    if list == [] then []
    else if list[0].needsAnswer then [list[0]] + Answerable(list[1..])
    else Answerable(list[1..])
  }

  lemma {:induction false} BytesAppend(list: seq<Command>, c: Command)
    ensures Bytes(list + [c]) == Bytes(list) + c.bytes
  {
    if list == [] {
      assert Bytes([c]) == c.bytes + Bytes([]);
    } else {
      assert (list + [c])[1..] == list[1..] + [c];
      BytesAppend(list[1..], c);
    }
  }

  lemma {:induction false} AnswerableAppend(list: seq<Command>, c: Command)
    ensures Answerable(list + [c]) == Answerable(list) + if c.needsAnswer then [c] else []
  {
    if list == [] {
      assert [c][1..] == [];
    } else {
      assert (list + [c])[1..] == list[1..] + [c];
      AnswerableAppend(list[1..], c);
    }
  }

  lemma {:induction false} WithoutConcat(list: seq<Command>, more: seq<Command>, op: bv8)
    ensures Without(list + more, op) == Without(list, op) + Without(more, op)
  {
    if list == [] {
      assert list + more == more;
    } else {
      assert (list + more)[1..] == list[1..] + more;
      WithoutConcat(list[1..], more, op);
    }
  }

  lemma {:induction false} WithoutAbsent(list: seq<Command>, op: bv8)
    requires !HasOpcode(list, op)
    ensures Without(list, op) == list
  {
    if list != [] {
      WithoutAbsent(list[1..], op);
    }
  }

  lemma {:induction false} HasOpcodeConcat(list: seq<Command>, more: seq<Command>, op: bv8)
    ensures HasOpcode(list + more, op) <==> HasOpcode(list, op) || HasOpcode(more, op)
  {
    if list == [] {
      assert list + more == more;
    } else {
      assert (list + more)[1..] == list[1..] + more;
      HasOpcodeConcat(list[1..], more, op);
    }
  }

  /** After a removal the opcode is gone. */
  lemma {:induction false} WithoutRemoves(list: seq<Command>, op: bv8)
    ensures !HasOpcode(Without(list, op), op)
    ensures forall other :: other != op ==> (HasOpcode(Without(list, op), other) <==> HasOpcode(list, other))
  {
    if list != [] {
      WithoutRemoves(list[1..], op);
      var rest := Without(list[1..], op);
      assert ([list[0]] + rest)[1..] == rest;
    }
  }

  /** How many commands fit into the room that is left. */
  function Fitting(list: seq<Command>, room: nat): (n: nat)
    ensures n <= |list|
  {
    if list == [] || |list[0].bytes| > room then 0
    else 1 + Fitting(list[1..], room - |list[0].bytes|)
  }

  /** Fitting is the longest prefix whose bytes fit. */
  lemma {:induction false} FittingIsLongest(list: seq<Command>, room: nat)
    ensures var n := Fitting(list, room);
            |Bytes(list[..n])| <= room && forall m :: n < m <= |list| ==> |Bytes(list[..m])| > room
  {
    if list != [] {
      forall m | 1 <= m <= |list|
        ensures |Bytes(list[..m])| == |list[0].bytes| + |Bytes(list[1..][..m - 1])|
      {
        assert list[..m][1..] == list[1..][..m - 1];
      }
      if |list[0].bytes| <= room {
        FittingIsLongest(list[1..], room - |list[0].bytes|);
      }
    }
  }

  // ---- The slots the ring has in use: the commands and the gaps that finished ones leave between them ----

  type Row = seq<Option<Command>>

  function LiveOf(h: Row): seq<Command> {
    if h == [] then [] else (if h[0].Some? then [h[0].value] else []) + LiveOf(h[1..])
  }

  /** The row once the gaps at its front are dropped. */
  function Trimmed(h: Row): Row {
    if h == [] || h[0].Some? then h else Trimmed(h[1..])
  }

  function Finished(h: Row, op: bv8): Row {
    if h == [] then [] else [if h[0].Some? && IsFor(h[0].value, op) then None else h[0]] + Finished(h[1..], op)
  }

  /** The row after clear_queued_mac_cmd. */
  function Cleared(h: Row, op: bv8): Row {
    Trimmed(Finished(h, op))
  }

  /** The row after put_queue_mac_cmds: six slots are full with five in use, and gaps count. */
  function PutInto(h: Row, c: Command): Row
    requires c.bytes != []
  {
    if |c.bytes| < MAC_CMD_SIZE && |h| < MAC_CMD_QUEUE_SIZE - 1 && !HasOpcode(LiveOf(h), c.bytes[0]) then h + [Some(c)] else h
  }

  lemma {:induction false} LiveOfTrimmed(h: Row)
    ensures LiveOf(Trimmed(h)) == LiveOf(h)
  {
    if h != [] && h[0].None? {
      LiveOfTrimmed(h[1..]);
    }
  }

  lemma {:induction false} LiveOfFinished(h: Row, op: bv8)
    ensures LiveOf(Finished(h, op)) == Without(LiveOf(h), op)
  {
    if h != [] {
      LiveOfFinished(h[1..], op);
      WithoutConcat(if h[0].Some? then [h[0].value] else [], LiveOf(h[1..]), op);
    }
  }

  /** Clearing is a removal from the list. */
  lemma LiveOfCleared(h: Row, op: bv8)
    ensures LiveOf(Cleared(h, op)) == Without(LiveOf(h), op)
  {
    LiveOfFinished(h, op);
    LiveOfTrimmed(Finished(h, op));
  }

  lemma {:induction false} LiveOfAppend(h: Row, c: Command)
    ensures LiveOf(h + [Some(c)]) == LiveOf(h) + [c]
  {
    var more := h + [Some(c)];
    if h == [] {
      assert more[1..] == [];
    } else {
      assert more[0] == h[0] && more[1..] == h[1..] + [Some(c)];
      LiveOfAppend(h[1..], c);
    }
  }

  lemma {:induction false} LiveOfIsShorter(h: Row)
    ensures |LiveOf(h)| <= |h|
  {
    if h != [] {
      LiveOfIsShorter(h[1..]);
    }
  }

  lemma {:induction false} TrimmedIsTrimmed(h: Row)
    ensures |Trimmed(h)| <= |h| && (Trimmed(h) == [] || Trimmed(h)[0].Some?)
  {
    if h != [] {
      TrimmedIsTrimmed(h[1..]);
    }
  }

  /** A row that is in use from its first slot stays so. */
  lemma TrimmedAppend(h: Row, c: Command)
    requires Trimmed(h) == h
    ensures Trimmed(h + [Some(c)]) == h + [Some(c)]
  {
    TrimmedIsTrimmed(h);
    assert (h + [Some(c)])[0] == if h == [] then Some(c) else h[0];
  }

  lemma {:induction false} TrimmedFinished(h: Row, op: bv8)
    ensures Trimmed(Finished(Trimmed(h), op)) == Trimmed(Finished(h, op))
  {
    if h != [] && h[0].None? {
      TrimmedFinished(h[1..], op);
    }
  }

  lemma {:induction false} FinishedAbsent(h: Row, op: bv8)
    requires !HasOpcode(LiveOf(h), op)
    ensures Finished(h, op) == h
  {
    if h != [] {
      HasOpcodeConcat(if h[0].Some? then [h[0].value] else [], LiveOf(h[1..]), op);
      FinishedAbsent(h[1..], op);
    }
  }

  // ---- The ring ----

  datatype Slot = Slot(len: nat, needsAnswer: bool, buf: seq<bv8>)

  predicate SlotOk(s: Slot) {
    |s.buf| == MAC_CMD_SIZE && s.len < MAC_CMD_SIZE
  }

  /** A slot holding a command, a finished one, and one outside the window. */
  predicate IsLive(s: Slot) {
    SlotOk(s) && s.len > 0 && s.buf[0] != 0
  }

  predicate IsTombstone(s: Slot) {
    SlotOk(s) && s.len == 0 && s.buf[0] == 0
  }

  predicate IsUnused(s: Slot) {
    SlotOk(s) && s.len == 0 && s.buf[0] == 0xff
  }

  function Next(i: nat): nat {
    if i + 1 == MAC_CMD_QUEUE_SIZE then 0 else i + 1
  }

  /** Steps of Next from i to j. */
  function Distance(i: nat, j: nat): nat
    requires i < MAC_CMD_QUEUE_SIZE && j < MAC_CMD_QUEUE_SIZE
  {
    if i <= j then j - i else j + MAC_CMD_QUEUE_SIZE - i
  }

  function CommandOf(s: Slot): Command
    requires SlotOk(s)
  {
    Command(s.buf[..s.len], s.needsAnswer)
  }

  type Ring = r: seq<Slot> | |r| == MAC_CMD_QUEUE_SIZE && forall i :: 0 <= i < |r| ==> SlotOk(r[i])
    witness seq(6, _ => Slot(0, false, [0, 0, 0, 0, 0, 0, 0, 0]))

  /** The live commands from slot i up to the in index, oldest first. */
  function LiveFrom(r: Ring, i: nat, last: nat): seq<Command>
    requires i < MAC_CMD_QUEUE_SIZE && last < MAC_CMD_QUEUE_SIZE
    decreases Distance(i, last)
  {
    if i == last then []
    else if r[i].len > 0 then [CommandOf(r[i])] + LiveFrom(r, Next(i), last)
    else LiveFrom(r, Next(i), last)
  }

  /** The window's slots from slot i up to the in index. */
  function SlotsFrom(r: Ring, i: nat, last: nat): Row
    requires i < MAC_CMD_QUEUE_SIZE && last < MAC_CMD_QUEUE_SIZE
    decreases Distance(i, last)
  {
    if i == last then [] else [if r[i].len > 0 then Some(CommandOf(r[i])) else None] + SlotsFrom(r, Next(i), last)
  }

  predicate InWindow(j: nat, i: nat, last: nat)
    requires j < MAC_CMD_QUEUE_SIZE && i < MAC_CMD_QUEUE_SIZE && last < MAC_CMD_QUEUE_SIZE
  {
    Distance(i, j) < Distance(i, last)
  }

  /** The calloc'ed ring, before its first put. */
  ghost predicate Zeroed(r: Ring, first: nat, last: nat) {
    first == last == 0 && forall j :: 0 <= j < MAC_CMD_QUEUE_SIZE ==> IsTombstone(r[j])
  }

  ghost predicate Windowed(r: Ring, first: nat, last: nat)
    requires first < MAC_CMD_QUEUE_SIZE && last < MAC_CMD_QUEUE_SIZE
  {
    (forall j :: 0 <= j < MAC_CMD_QUEUE_SIZE && InWindow(j, first, last) ==> IsLive(r[j]) || IsTombstone(r[j])) &&
    (forall j :: 0 <= j < MAC_CMD_QUEUE_SIZE && !InWindow(j, first, last) ==> IsUnused(r[j])) &&
    (forall j, k :: 0 <= j < k < MAC_CMD_QUEUE_SIZE && IsLive(r[j]) && IsLive(r[k]) ==> r[j].buf[0] != r[k].buf[0])
  }

  /** Slots that agree in the window hold the same commands. */
  lemma {:induction false} LiveFromFrame(r: Ring, t: Ring, i: nat, last: nat)
    requires i < MAC_CMD_QUEUE_SIZE && last < MAC_CMD_QUEUE_SIZE
    requires forall j :: 0 <= j < MAC_CMD_QUEUE_SIZE && InWindow(j, i, last) ==> r[j] == t[j]
    ensures LiveFrom(r, i, last) == LiveFrom(t, i, last)
    decreases Distance(i, last)
  {
    if i != last {
      forall j | 0 <= j < MAC_CMD_QUEUE_SIZE && InWindow(j, Next(i), last)
        ensures r[j] == t[j]
      {
        assert InWindow(j, i, last);
      }
      assert InWindow(i, i, last);
      LiveFromFrame(r, t, Next(i), last);
    }
  }

  /** Appending at the in index appends to the list. */
  lemma {:induction false} LiveFromAppend(r: Ring, i: nat, last: nat)
    requires i < MAC_CMD_QUEUE_SIZE && last < MAC_CMD_QUEUE_SIZE && Next(last) != i && r[last].len > 0
    ensures LiveFrom(r, i, Next(last)) == LiveFrom(r, i, last) + [CommandOf(r[last])]
    decreases Distance(i, last)
  {
    if i == last {
      assert LiveFrom(r, Next(i), Next(last)) == [];
    } else {
      LiveFromAppend(r, Next(i), last);
    }
  }

  lemma {:induction false} LiveFromAppendDead(r: Ring, i: nat, last: nat)
    requires i < MAC_CMD_QUEUE_SIZE && last < MAC_CMD_QUEUE_SIZE && Next(last) != i && r[last].len == 0
    ensures LiveFrom(r, i, Next(last)) == LiveFrom(r, i, last)
    decreases Distance(i, last)
  {
    if i == last {
      assert LiveFrom(r, Next(i), Next(last)) == [];
    } else {
      LiveFromAppendDead(r, Next(i), last);
    }
  }

  /** The list up to a slot of the window, then the list from it. */
  lemma {:induction false} LiveFromSplit(r: Ring, i: nat, mid: nat, last: nat)
    requires i < MAC_CMD_QUEUE_SIZE && mid < MAC_CMD_QUEUE_SIZE && last < MAC_CMD_QUEUE_SIZE
    requires Distance(i, mid) <= Distance(i, last)
    ensures LiveFrom(r, i, last) == LiveFrom(r, i, mid) + LiveFrom(r, mid, last)
    decreases Distance(i, mid)
  {
    if i != mid {
      assert Distance(Next(i), mid) + 1 == Distance(i, mid) && Distance(Next(i), last) + 1 == Distance(i, last);
      LiveFromSplit(r, Next(i), mid, last);
    }
  }

  lemma {:induction false} NoneLive(r: Ring, i: nat, last: nat)
    requires i < MAC_CMD_QUEUE_SIZE && last < MAC_CMD_QUEUE_SIZE
    requires forall j :: 0 <= j < MAC_CMD_QUEUE_SIZE && InWindow(j, i, last) ==> r[j].len == 0
    ensures LiveFrom(r, i, last) == []
    decreases Distance(i, last)
  {
    if i != last {
      assert InWindow(i, i, last);
      forall j | 0 <= j < MAC_CMD_QUEUE_SIZE && InWindow(j, Next(i), last)
        ensures r[j].len == 0
      {
        assert InWindow(j, i, last);
      }
      NoneLive(r, Next(i), last);
    }
  }

  lemma {:induction false} NoOpcode(r: Ring, i: nat, last: nat, op: bv8)
    requires i < MAC_CMD_QUEUE_SIZE && last < MAC_CMD_QUEUE_SIZE
    requires forall j :: 0 <= j < MAC_CMD_QUEUE_SIZE && InWindow(j, i, last) && r[j].len > 0 ==> r[j].buf[0] != op
    ensures !HasOpcode(LiveFrom(r, i, last), op)
    decreases Distance(i, last)
  {
    if i != last {
      assert InWindow(i, i, last);
      forall j | 0 <= j < MAC_CMD_QUEUE_SIZE && InWindow(j, Next(i), last) && r[j].len > 0
        ensures r[j].buf[0] != op
      {
        assert InWindow(j, i, last);
      }
      NoOpcode(r, Next(i), last, op);
      var rest := LiveFrom(r, Next(i), last);
      assert ([CommandOf(r[i])] + rest)[1..] == rest;
    }
  }

  lemma {:induction false} LiveIsDistinct(r: Ring, i: nat, last: nat)
    requires i < MAC_CMD_QUEUE_SIZE && last < MAC_CMD_QUEUE_SIZE
    requires forall j, k :: 0 <= j < k < MAC_CMD_QUEUE_SIZE && IsLive(r[j]) && IsLive(r[k]) ==> r[j].buf[0] != r[k].buf[0]
    requires forall j :: 0 <= j < MAC_CMD_QUEUE_SIZE && InWindow(j, i, last) && r[j].len > 0 ==> IsLive(r[j])
    ensures Distinct(LiveFrom(r, i, last)) && |LiveFrom(r, i, last)| <= Distance(i, last)
    decreases Distance(i, last)
  {
    if i != last {
      assert InWindow(i, i, last);
      forall j | 0 <= j < MAC_CMD_QUEUE_SIZE && InWindow(j, Next(i), last)
        ensures InWindow(j, i, last) && j != i
      {
      }
      LiveIsDistinct(r, Next(i), last);
      if r[i].len > 0 {
        NoOpcode(r, Next(i), last, r[i].buf[0]);
        var rest := LiveFrom(r, Next(i), last);
        assert ([CommandOf(r[i])] + rest)[1..] == rest;
      }
    }
  }

  /** A queue in any state its methods keep holds at most five commands, with distinct opcodes. */
  lemma FewDistinctCommands(r: Ring, first: nat, last: nat)
    requires first < MAC_CMD_QUEUE_SIZE && last < MAC_CMD_QUEUE_SIZE && (Zeroed(r, first, last) || Windowed(r, first, last))
    ensures Distinct(LiveFrom(r, first, last)) && |LiveFrom(r, first, last)| <= 5
  {
    hide Distinct;
    LiveIsDistinct(r, first, last);
  }

  /** The first command always fits an empty FOpts field. */
  lemma {:induction false} FirstFits(r: Ring, i: nat, last: nat)
    requires i < MAC_CMD_QUEUE_SIZE && last < MAC_CMD_QUEUE_SIZE && LiveFrom(r, i, last) != []
    ensures |LiveFrom(r, i, last)[0].bytes| <= 7 && Fitting(LiveFrom(r, i, last), 15) > 0
    decreases Distance(i, last)
  {
    if r[i].len == 0 {
      FirstFits(r, Next(i), last);
    }
  }

  /** The slots in use once the gaps at the front are dropped. */
  function HeldFrom(r: Ring, i: nat, last: nat): Row
    requires i < MAC_CMD_QUEUE_SIZE && last < MAC_CMD_QUEUE_SIZE
  {
    Trimmed(SlotsFrom(r, i, last))
  }

  lemma {:induction false} SlotsAreLive(r: Ring, i: nat, last: nat)
    requires i < MAC_CMD_QUEUE_SIZE && last < MAC_CMD_QUEUE_SIZE
    ensures LiveOf(SlotsFrom(r, i, last)) == LiveFrom(r, i, last) && |SlotsFrom(r, i, last)| == Distance(i, last)
    decreases Distance(i, last)
  {
    if i != last {
      SlotsAreLive(r, Next(i), last);
    }
  }

  /** The commands among the slots in use are the list; there are never more than five slots. */
  lemma HeldCoversLive(r: Ring, i: nat, last: nat)
    requires i < MAC_CMD_QUEUE_SIZE && last < MAC_CMD_QUEUE_SIZE
    ensures LiveOf(HeldFrom(r, i, last)) == LiveFrom(r, i, last)
    ensures |LiveFrom(r, i, last)| <= |HeldFrom(r, i, last)| <= Distance(i, last) <= 5
  {
    SlotsAreLive(r, i, last);
    LiveOfTrimmed(SlotsFrom(r, i, last));
    LiveOfIsShorter(HeldFrom(r, i, last));
    TrimmedIsTrimmed(SlotsFrom(r, i, last));
  }

  /** One turn of the clean-up loop: the front slot must be a tombstone, and leaves the window. */
  lemma TrimStep(r: Ring, t: Ring, first: nat, last: nat)
    requires first < MAC_CMD_QUEUE_SIZE && last < MAC_CMD_QUEUE_SIZE
    requires Windowed(r, first, last) && r[first].buf[0] == 0
    requires t == r[first := r[first].(buf := r[first].buf[0 := 0xff])]
    ensures first != last && Windowed(t, Next(first), last)
    ensures LiveFrom(t, Next(first), last) == LiveFrom(r, first, last)
    ensures HeldFrom(t, Next(first), last) == HeldFrom(r, first, last)
  {
    assert !InWindow(first, first, last) ==> IsUnused(r[first]);
    assert IsTombstone(r[first]);
    forall j | 0 <= j < MAC_CMD_QUEUE_SIZE
      ensures InWindow(j, Next(first), last) <==> InWindow(j, first, last) && j != first
    {
    }
    LiveFromFrame(r, t, Next(first), last);
    SlotsFromFrame(r, t, Next(first), last);
  }

  lemma {:induction false} SlotsFromFrame(r: Ring, t: Ring, i: nat, last: nat)
    requires i < MAC_CMD_QUEUE_SIZE && last < MAC_CMD_QUEUE_SIZE
    requires forall j :: 0 <= j < MAC_CMD_QUEUE_SIZE && InWindow(j, i, last) ==> r[j] == t[j]
    ensures SlotsFrom(r, i, last) == SlotsFrom(t, i, last)
    decreases Distance(i, last)
  {
    if i != last {
      forall j | 0 <= j < MAC_CMD_QUEUE_SIZE && InWindow(j, Next(i), last)
        ensures r[j] == t[j]
      {
        assert InWindow(j, i, last);
      }
      assert InWindow(i, i, last);
      SlotsFromFrame(r, t, Next(i), last);
    }
  }

  lemma {:induction false} SlotsFromAppend(r: Ring, i: nat, last: nat)
    requires i < MAC_CMD_QUEUE_SIZE && last < MAC_CMD_QUEUE_SIZE && Next(last) != i && r[last].len > 0
    ensures SlotsFrom(r, i, Next(last)) == SlotsFrom(r, i, last) + [Some(CommandOf(r[last]))]
    decreases Distance(i, last)
  {
    if i == last {
      assert SlotsFrom(r, Next(i), Next(last)) == [];
    } else {
      SlotsFromAppend(r, Next(i), last);
    }
  }

  /** Without commands no slot is in use: every legal put finds room. */
  lemma {:induction false} NoneHeld(r: Ring, i: nat, last: nat)
    requires i < MAC_CMD_QUEUE_SIZE && last < MAC_CMD_QUEUE_SIZE
    requires LiveFrom(r, i, last) == []
    ensures HeldFrom(r, i, last) == []
    decreases Distance(i, last)
  {
    if i != last {
      NoneHeld(r, Next(i), last);
    }
  }

  /** Putting at the in index of a ring that is not full and has no such opcode. */
  lemma StoreStep(r: Ring, t: Ring, first: nat, last: nat)
    requires first < MAC_CMD_QUEUE_SIZE && last < MAC_CMD_QUEUE_SIZE && Next(last) != first
    requires Windowed(r, first, last)
    requires t == r[last := t[last]] && IsLive(t[last])
    requires !HasOpcode(LiveFrom(r, first, last), t[last].buf[0])
    ensures Windowed(t, first, Next(last))
    ensures LiveFrom(t, first, Next(last)) == LiveFrom(r, first, last) + [CommandOf(t[last])]
    ensures SlotsFrom(t, first, Next(last)) == SlotsFrom(r, first, last) + [Some(CommandOf(t[last]))]
  {
    SlotsFromFrame(r, t, first, last);
    SlotsFromAppend(t, first, last);
    forall j | 0 <= j < MAC_CMD_QUEUE_SIZE
      ensures InWindow(j, first, Next(last)) <==> InWindow(j, first, last) || j == last
    {
    }
    LiveFromFrame(r, t, first, last);
    LiveFromAppend(t, first, last);
    forall j | 0 <= j < MAC_CMD_QUEUE_SIZE && j != last && IsLive(t[j])
      ensures t[j].buf[0] != t[last].buf[0]
    {
      assert InWindow(j, first, last);
      OpcodeOfSlot(r, first, last, j);
    }
  }

  /** A live slot of the window puts its opcode into the list. */
  lemma {:induction false} OpcodeOfSlot(r: Ring, i: nat, last: nat, j: nat)
    requires i < MAC_CMD_QUEUE_SIZE && last < MAC_CMD_QUEUE_SIZE && j < MAC_CMD_QUEUE_SIZE
    requires InWindow(j, i, last) && r[j].len > 0
    ensures HasOpcode(LiveFrom(r, i, last), r[j].buf[0])
    decreases Distance(i, last)
  {
    var rest := LiveFrom(r, Next(i), last);
    assert ([CommandOf(r[i])] + rest)[1..] == rest;
    if i != j {
      OpcodeOfSlot(r, Next(i), last, j);
    }
  }

  /** Turning a live slot of the window into a tombstone. */
  lemma KillStep(r: Ring, t: Ring, first: nat, i: nat, last: nat)
    requires first < MAC_CMD_QUEUE_SIZE && i < MAC_CMD_QUEUE_SIZE && last < MAC_CMD_QUEUE_SIZE
    requires Windowed(r, first, last) && InWindow(i, first, last)
    requires t == r[i := r[i].(len := 0, buf := r[i].buf[0 := 0])]
    ensures Windowed(t, first, last)
    ensures LiveFrom(t, first, Next(i)) == LiveFrom(t, first, i) == LiveFrom(r, first, i)
    ensures LiveFrom(t, Next(i), last) == LiveFrom(r, Next(i), last)
    ensures LiveFrom(t, first, last) == LiveFrom(r, first, i) + LiveFrom(r, Next(i), last)
  {
    LiveFromFrame(r, t, first, i);
    LiveFromFrame(r, t, Next(i), last);
    LiveFromAppendDead(t, first, i);
    LiveFromSplit(t, first, Next(i), last);
  }

  class CommandQueue {
    const slots: array<Slot>
    var inIdx: nat
    var outIdx: nat

    ghost predicate Shape()
      reads this, slots
    {
      slots.Length == MAC_CMD_QUEUE_SIZE && inIdx < MAC_CMD_QUEUE_SIZE && outIdx < MAC_CMD_QUEUE_SIZE &&
      forall j :: 0 <= j < MAC_CMD_QUEUE_SIZE ==> SlotOk(slots[j])
    }

    ghost predicate Valid()
      reads this, slots
    {
      Shape() && (Zeroed(slots[..], outIdx, inIdx) || Windowed(slots[..], outIdx, inIdx))
    }

    ghost function Live(): seq<Command>
      requires Shape()
      reads this, slots
    {
      LiveFrom(slots[..], outIdx, inIdx)
    }

    /** The slots in use, as the next put finds them. */
    ghost function Held(): Row
      requires Shape()
      reads this, slots
    {
      HeldFrom(slots[..], outIdx, inIdx)
    }

    /** calloc of the mote state. */
    constructor ()
      ensures Valid() && fresh(slots) && Live() == [] && Held() == []
    {
      slots := new Slot[MAC_CMD_QUEUE_SIZE](_ => Slot(0, false, [0, 0, 0, 0, 0, 0, 0, 0]));
      inIdx, outIdx := 0, 0;
    }

    /** wipe_queued_mac_cmds. */
    method Wipe()
      requires Valid()
      modifies slots
      ensures Valid() && Live() == [] && Held() == []
    {
      hide Zeroed, Windowed, LiveFrom, HeldFrom;
      var i: nat := outIdx;
      while inIdx != i
        invariant i < MAC_CMD_QUEUE_SIZE && Shape()
        invariant Zeroed(slots[..], outIdx, inIdx) || Windowed(slots[..], outIdx, inIdx)
        invariant Distance(outIdx, i) + Distance(i, inIdx) == Distance(outIdx, inIdx)
        invariant forall j :: 0 <= j < MAC_CMD_QUEUE_SIZE && Distance(outIdx, j) < Distance(outIdx, i) ==> slots[j].len == 0
        decreases Distance(i, inIdx)
      {
        ghost var r: Ring := slots[..];
        slots[i] := slots[i].(len := 0, buf := slots[i].buf[0 := 0]);
        KillSlot(r, slots[..], outIdx, i, inIdx);
        i := Next(i);
      }
      NoneLive(slots[..], outIdx, inIdx);
      NoneHeld(slots[..], outIdx, inIdx);
    }

    /** The clean-up loop of put_queue_mac_cmds. It stops at the in index, whose slot is unused; from the
        calloc'ed ring it goes round once. */
    method Trim()
      requires Valid()
      modifies slots, this`outIdx
      ensures Valid() && Windowed(slots[..], outIdx, inIdx)
      ensures Live() == old(Live()) && Held() == old(Held()) == SlotsFrom(slots[..], outIdx, inIdx)
    {
      ghost var zeroed := Zeroed(slots[..], outIdx, inIdx);
      ghost var k: nat := 0;
      while slots[outIdx].buf[0] == 0
        invariant Shape()
        invariant zeroed ==> k <= MAC_CMD_QUEUE_SIZE && outIdx == k % MAC_CMD_QUEUE_SIZE && inIdx == 0
        invariant zeroed ==> forall j :: 0 <= j < MAC_CMD_QUEUE_SIZE ==>
                    if j < k then IsUnused(slots[j]) else IsTombstone(slots[j])
        invariant !zeroed ==> Windowed(slots[..], outIdx, inIdx) && Live() == old(Live()) && Held() == old(Held())
        decreases if zeroed then MAC_CMD_QUEUE_SIZE - k else Distance(outIdx, inIdx)
      {
        ghost var before, first := slots[..], outIdx;
        slots[outIdx] := slots[outIdx].(buf := slots[outIdx].buf[0 := 0xff]);
        if !zeroed {
          TrimStep(before, slots[..], first, inIdx);
        }
        outIdx := Next(outIdx);
        k := k + 1;
      }
    }

    /** The scan for a command with the same opcode. */
    method Contains(op: bv8) returns (found: bool)
      requires Valid()
      ensures found <==> HasOpcode(Live(), op)
    {
      var i: nat := outIdx;
      while inIdx != i
        invariant i < MAC_CMD_QUEUE_SIZE
        invariant HasOpcode(Live(), op) <==> HasOpcode(LiveFrom(slots[..], i, inIdx), op)
        decreases Distance(i, inIdx)
      {
        if slots[i].len != 0 {
          ghost var rest := LiveFrom(slots[..], Next(i), inIdx);
          assert ([CommandOf(slots[i])] + rest)[1..] == rest;
          if slots[i].buf[0] == op {
            return true;
          }
        }
        i := Next(i);
      }
      return false;
    }

    /** put_queue_mac_cmds. */
    method Put(cmd: seq<bv8>, needsAnswer: bool)
      requires Valid()
      requires |cmd| > 0 && cmd[0] != 0
      modifies slots, this`inIdx, this`outIdx
      ensures Valid() && Windowed(slots[..], outIdx, inIdx)
      ensures Held() == PutInto(old(Held()), Command(cmd, needsAnswer))
      ensures Live() ==
              if |cmd| < 8 && |old(Held())| < 5 && !HasOpcode(old(Live()), cmd[0])
              then old(Live()) + [Command(cmd, needsAnswer)]
              else old(Live())
    {
      hide Trimmed, LiveOf, Windowed;
      Trim();
      ghost var held := Held();
      HeldCoversLive(slots[..], outIdx, inIdx);
      SlotsAreLive(slots[..], outIdx, inIdx);
      if |cmd| >= MAC_CMD_SIZE {
        return;
      }
      if Next(inIdx) == outIdx {
        return;
      }
      var found := Contains(cmd[0]);
      if found {
        return;
      }
      ghost var before := slots[..];
      slots[inIdx] := Slot(|cmd|, needsAnswer, cmd + slots[inIdx].buf[|cmd|..]);
      assert CommandOf(slots[inIdx]) == Command(cmd, needsAnswer);
      StoreStep(before, slots[..], outIdx, inIdx);
      TrimmedAppend(held, Command(cmd, needsAnswer));
      inIdx := Next(inIdx);
    }

    /** clear_queued_mac_cmd. */
    method Clear(op: bv8)
      requires Valid()
      modifies slots
      ensures Valid() && Live() == Without(old(Live()), op) && Held() == Cleared(old(Held()), op)
    {
      var i: nat := outIdx;
      ghost var r: Ring := slots[..];
      while inIdx != i
        invariant i < MAC_CMD_QUEUE_SIZE && Distance(outIdx, i) <= Distance(outIdx, inIdx)
        invariant slots[..] == r && !HasOpcode(LiveFrom(r, outIdx, i), op)
        decreases Distance(i, inIdx)
      {
        assert InWindow(i, outIdx, inIdx);
        if slots[i].len != 0 && slots[i].buf[0] == op {
          slots[i] := slots[i].(len := 0, buf := slots[i].buf[0 := 0]);
          KillOpcode(r, slots[..], outIdx, i, inIdx, op);
          ClearedSlot(r, slots[..], outIdx, i, inIdx, op);
          return;
        }
        NotThisOne(r, outIdx, i, inIdx, op);
        i := Next(i);
      }
      WithoutAbsent(LiveFrom(r, outIdx, inIdx), op);
      ClearedNothing(r, outIdx, inIdx, op);
    }

    /** are_mac_cmds_queued. */
    method AreQueued() returns (queued: bool)
      requires Valid()
      ensures queued <==> Live() != []
    {
      var i: nat := outIdx;
      while inIdx != i
        invariant i < MAC_CMD_QUEUE_SIZE && Live() == LiveFrom(slots[..], i, inIdx)
        decreases Distance(i, inIdx)
      {
        if slots[i].len > 0 {
          return true;
        }
        i := Next(i);
      }
      return false;
    }

    /** Copy the command of slot i behind the ones already collected. */
    method Collect(i: nat, buf: array<bv8>, used: nat, need: bool, ghost list: seq<Command>, ghost sent: seq<Command>)
      requires Shape() && i < MAC_CMD_QUEUE_SIZE && i != inIdx && used <= MAX_FOPTS && buf.Length == MAX_FOPTS + 1
      requires DrainState(slots[..], outIdx, i, inIdx, list, sent, used, need)
      requires slots[i].len > 0 && used + slots[i].len <= MAX_FOPTS
      requires Collected(buf[..], sent, used)
      modifies slots, buf
      ensures Shape()
      ensures var c := CommandOf(old(slots[i]));
              DrainState(slots[..], outIdx, Next(i), inIdx, list, sent + [c], used + |c.bytes|, need || c.needsAnswer) &&
              Collected(buf[..], sent + [c], used + |c.bytes|)
    {
      hide DrainState, Bytes;
      ghost var r: Ring := slots[..];
      var slot := slots[i];
      ghost var filled := buf[..];
      AppendBytes(buf, used, slot.buf[..slot.len]);
      BytesAppend(sent, CommandOf(slot));
      assert buf[..used] == filled[..used];
      if !slot.needsAnswer {
        slots[i] := slot.(len := 0, buf := slot.buf[0 := 0]);
      }
      DrainTake(r, slots[..], outIdx, i, inIdx, list, sent, used, need);
    }

    /** get_queued_mac_cmds: collect commands, oldest first, while they fit into the fifteen bytes of FOpts.
        A collected command that needs no answer is finished; the others stay until their answer clears them. */
    method Drain(buf: array<bv8>) returns (bufIdx: nat, needAnswer: bool)
      requires Valid() && buf.Length == MAX_FOPTS + 1
      modifies slots, buf
      ensures Valid()
      ensures var list := old(Live());
              var sent := list[..Fitting(list, 15)];
              bufIdx <= MAX_FOPTS && Collected(buf[..], sent, bufIdx) &&
              (needAnswer <==> Answerable(sent) != []) &&
              Live() == Answerable(sent) + list[|sent|..]
    {
      hide DrainState, Bytes, Fitting, Answerable;
      forall j | 0 <= j < buf.Length {
        buf[j] := 0;
      }
      ghost var list, sent := Live(), [];
      var i: nat := outIdx;
      bufIdx, needAnswer := 0, false;
      DrainStart(slots[..], outIdx, inIdx);
      while inIdx != i
        invariant i < MAC_CMD_QUEUE_SIZE && Shape() && bufIdx <= MAX_FOPTS
        invariant DrainState(slots[..], outIdx, i, inIdx, list, sent, bufIdx, needAnswer)
        invariant Collected(buf[..], sent, bufIdx)
        decreases Distance(i, inIdx)
      {
        if slots[i].len != 0 {
          if bufIdx + slots[i].len > MAX_FOPTS {
            break;
          }
          var len, answered := slots[i].len, slots[i].needsAnswer;
          ghost var c := CommandOf(slots[i]);
          Collect(i, buf, bufIdx, needAnswer, list, sent);
          sent, bufIdx, needAnswer := sent + [c], bufIdx + len, needAnswer || answered;
        } else {
          DrainSkip(slots[..], outIdx, i, inIdx, list, sent, bufIdx, needAnswer);
        }
        i := Next(i);
      }
      DrainStops(slots[..], outIdx, i, inIdx, list, sent, bufIdx, needAnswer);
    }
  }

  /** The buffer holds the bytes of the sent commands and zeros. */
  ghost predicate Collected(buf: seq<bv8>, sent: seq<Command>, used: nat) {
    used <= |buf| && used == |Bytes(sent)| && buf[..used] == Bytes(sent) && forall j :: used <= j < |buf| ==> buf[j] == 0
  }

  lemma DrainStart(r: Ring, first: nat, last: nat)
    requires first < MAC_CMD_QUEUE_SIZE && last < MAC_CMD_QUEUE_SIZE
    requires Zeroed(r, first, last) || Windowed(r, first, last)
    ensures DrainState(r, first, first, last, LiveFrom(r, first, last), [], 0, false)
  {
  }

  /** The drain has sent a prefix of the list and stands at slot i. */
  ghost predicate DrainState(r: Ring, first: nat, i: nat, last: nat, list: seq<Command>, sent: seq<Command>, used: nat, need: bool)
    requires first < MAC_CMD_QUEUE_SIZE && i < MAC_CMD_QUEUE_SIZE && last < MAC_CMD_QUEUE_SIZE && used <= MAX_FOPTS
  {
    (Zeroed(r, first, last) || Windowed(r, first, last)) && Distance(first, i) <= Distance(first, last) &&
    list == sent + LiveFrom(r, i, last) && LiveFrom(r, first, i) == Answerable(sent) &&
    used == |Bytes(sent)| && (need <==> Answerable(sent) != []) &&
    Fitting(list, MAX_FOPTS) == |sent| + Fitting(LiveFrom(r, i, last), MAX_FOPTS - used)
  }

  lemma DrainSkip(r: Ring, first: nat, i: nat, last: nat, list: seq<Command>, sent: seq<Command>, used: nat, need: bool)
    requires first < MAC_CMD_QUEUE_SIZE && i < MAC_CMD_QUEUE_SIZE && last < MAC_CMD_QUEUE_SIZE && used <= MAX_FOPTS
    requires DrainState(r, first, i, last, list, sent, used, need) && i != last && r[i].len == 0
    ensures DrainState(r, first, Next(i), last, list, sent, used, need)
  {
    LiveFromAppendDead(r, first, i);
  }

  lemma DrainTake(r: Ring, t: Ring, first: nat, i: nat, last: nat, list: seq<Command>, sent: seq<Command>, used: nat, need: bool)
    requires first < MAC_CMD_QUEUE_SIZE && i < MAC_CMD_QUEUE_SIZE && last < MAC_CMD_QUEUE_SIZE && used <= MAX_FOPTS
    requires DrainState(r, first, i, last, list, sent, used, need) && i != last
    requires r[i].len > 0 && used + r[i].len <= MAX_FOPTS
    requires t == if r[i].needsAnswer then r else r[i := r[i].(len := 0, buf := r[i].buf[0 := 0])]
    ensures DrainState(t, first, Next(i), last, list, sent + [CommandOf(r[i])], used + r[i].len, need || r[i].needsAnswer)
  {
    hide Bytes, Answerable, Fitting, Windowed, Zeroed, LiveFrom, InWindow;
    var c, rest := CommandOf(r[i]), LiveFrom(r, Next(i), last);
    TakenFromHead(r, first, i, last);
    BytesAppend(sent, c);
    AnswerableAppend(sent, c);
    FittingFirst(c, rest, MAX_FOPTS - used);
    if r[i].needsAnswer {
      LiveFromAppend(r, first, i);
    } else {
      KillSlot(r, t, first, i, last);
    }
    assert LiveFrom(t, Next(i), last) == rest;
    assert sent + ([c] + rest) == (sent + [c]) + rest;
  }

  lemma TakenFromHead(r: Ring, first: nat, i: nat, last: nat)
    requires first < MAC_CMD_QUEUE_SIZE && i < MAC_CMD_QUEUE_SIZE && last < MAC_CMD_QUEUE_SIZE
    requires Distance(first, i) <= Distance(first, last) && i != last && r[i].len > 0
    ensures LiveFrom(r, i, last) == [CommandOf(r[i])] + LiveFrom(r, Next(i), last)
    ensures InWindow(i, first, last) && Distance(first, Next(i)) <= Distance(first, last) && Next(i) != first
  {
  }

  lemma FittingFirst(c: Command, rest: seq<Command>, room: nat)
    requires |c.bytes| <= room
    ensures Fitting([c] + rest, room) == 1 + Fitting(rest, room - |c.bytes|)
  {
    assert ([c] + rest)[1..] == rest;
  }

  /** KillStep for a window slot of a ring that may still be the calloc'ed one, whose window is empty. */
  lemma KillSlot(r: Ring, t: Ring, first: nat, i: nat, last: nat)
    requires first < MAC_CMD_QUEUE_SIZE && i < MAC_CMD_QUEUE_SIZE && last < MAC_CMD_QUEUE_SIZE
    requires Zeroed(r, first, last) || Windowed(r, first, last)
    requires InWindow(i, first, last)
    requires t == r[i := r[i].(len := 0, buf := r[i].buf[0 := 0])]
    ensures Windowed(t, first, last)
    ensures LiveFrom(t, first, Next(i)) == LiveFrom(r, first, i)
    ensures LiveFrom(t, Next(i), last) == LiveFrom(r, Next(i), last)
  {
    KillStep(r, t, first, i, last);
  }

  lemma DrainStops(r: Ring, first: nat, i: nat, last: nat, list: seq<Command>, sent: seq<Command>, used: nat, need: bool)
    requires first < MAC_CMD_QUEUE_SIZE && i < MAC_CMD_QUEUE_SIZE && last < MAC_CMD_QUEUE_SIZE && used <= MAX_FOPTS
    requires DrainState(r, first, i, last, list, sent, used, need)
    requires i == last || (r[i].len > 0 && used + r[i].len > MAX_FOPTS)
    ensures Zeroed(r, first, last) || Windowed(r, first, last)
    ensures sent == list[..Fitting(list, MAX_FOPTS)] && used == |Bytes(sent)| && (need <==> Answerable(sent) != [])
    ensures LiveFrom(r, first, last) == Answerable(sent) + list[|sent|..]
  {
    LiveFromSplit(r, first, i, last);
  }

  method AppendBytes(buf: array<bv8>, at: nat, bytes: seq<bv8>)
    requires at + |bytes| <= buf.Length
    modifies buf
    ensures buf[..] == old(buf[..at]) + bytes + old(buf[at + |bytes|..])
  {
    var n := 0;
    while n < |bytes|
      invariant n <= |bytes|
      invariant buf[..] == old(buf[..at]) + bytes[..n] + old(buf[at + n..])
    {
      buf[at + n] := bytes[n];
      n := n + 1;
    }
  }

  /** clear_queued_mac_cmd passes a slot that is not the one it looks for. */
  lemma NotThisOne(r: Ring, first: nat, i: nat, last: nat, op: bv8)
    requires first < MAC_CMD_QUEUE_SIZE && i < MAC_CMD_QUEUE_SIZE && last < MAC_CMD_QUEUE_SIZE
    requires InWindow(i, first, last) && (r[i].len == 0 || r[i].buf[0] != op)
    requires !HasOpcode(LiveFrom(r, first, i), op)
    ensures !HasOpcode(LiveFrom(r, first, Next(i)), op)
    ensures Distance(first, Next(i)) <= Distance(first, last)
  {
    if r[i].len > 0 {
      LiveFromAppend(r, first, i);
      HasOpcodeConcat(LiveFrom(r, first, i), [CommandOf(r[i])], op);
    } else {
      LiveFromAppendDead(r, first, i);
    }
  }

  /** Tombstoning the one slot with an opcode removes that command from the list. */
  lemma KillOpcode(r: Ring, t: Ring, first: nat, i: nat, last: nat, op: bv8)
    requires first < MAC_CMD_QUEUE_SIZE && i < MAC_CMD_QUEUE_SIZE && last < MAC_CMD_QUEUE_SIZE
    requires Windowed(r, first, last) && InWindow(i, first, last) && r[i].len > 0 && r[i].buf[0] == op
    requires !HasOpcode(LiveFrom(r, first, i), op)
    requires t == r[i := r[i].(len := 0, buf := r[i].buf[0 := 0])]
    ensures Windowed(t, first, last)
    ensures LiveFrom(t, first, last) == Without(LiveFrom(r, first, last), op)
  {
    KillStep(r, t, first, i, last);
    LiveFromSplit(r, first, i, last);
    forall j | 0 <= j < MAC_CMD_QUEUE_SIZE && InWindow(j, Next(i), last) && r[j].len > 0
      ensures r[j].buf[0] != op
    {
      assert j != i && InWindow(j, first, last);
      assert IsLive(r[j]) && IsLive(r[i]);
    }
    NoOpcode(r, Next(i), last, op);
    WithoutUnique(LiveFrom(r, first, i), CommandOf(r[i]), LiveFrom(r, Next(i), last), op);
  }

  /** On the slots in use that leaves a gap, or the gap at the front is dropped. */
  lemma ClearedSlot(r: Ring, t: Ring, first: nat, i: nat, last: nat, op: bv8)
    requires first < MAC_CMD_QUEUE_SIZE && i < MAC_CMD_QUEUE_SIZE && last < MAC_CMD_QUEUE_SIZE
    requires Windowed(r, first, last) && InWindow(i, first, last) && r[i].len > 0 && r[i].buf[0] == op
    requires t == r[i := r[i].(len := 0, buf := r[i].buf[0 := 0])]
    ensures HeldFrom(t, first, last) == Cleared(HeldFrom(r, first, last), op)
  {
    forall j | 0 <= j < MAC_CMD_QUEUE_SIZE && InWindow(j, first, last) && r[j].len > 0 && r[j].buf[0] == op
      ensures j == i
    {
      assert IsLive(r[j]) && IsLive(r[i]);
    }
    SlotsFinished(r, t, first, i, last, op);
    TrimmedFinished(SlotsFrom(r, first, last), op);
  }

  lemma {:induction false} SlotsFinished(r: Ring, t: Ring, k: nat, i: nat, last: nat, op: bv8)
    requires k < MAC_CMD_QUEUE_SIZE && i < MAC_CMD_QUEUE_SIZE && last < MAC_CMD_QUEUE_SIZE
    requires r[i].len > 0 && r[i].buf[0] == op && t == r[i := r[i].(len := 0, buf := r[i].buf[0 := 0])]
    requires forall j :: 0 <= j < MAC_CMD_QUEUE_SIZE && InWindow(j, k, last) && r[j].len > 0 && r[j].buf[0] == op ==> j == i
    ensures SlotsFrom(t, k, last) == Finished(SlotsFrom(r, k, last), op)
    decreases Distance(k, last)
  {
    if k != last {
      assert InWindow(k, k, last);
      forall j | 0 <= j < MAC_CMD_QUEUE_SIZE && InWindow(j, Next(k), last)
        ensures InWindow(j, k, last)
      {
      }
      SlotsFinished(r, t, Next(k), i, last, op);
    }
  }

  lemma ClearedNothing(r: Ring, first: nat, last: nat, op: bv8)
    requires first < MAC_CMD_QUEUE_SIZE && last < MAC_CMD_QUEUE_SIZE && !HasOpcode(LiveFrom(r, first, last), op)
    ensures Cleared(HeldFrom(r, first, last), op) == HeldFrom(r, first, last)
  {
    HeldCoversLive(r, first, last);
    FinishedAbsent(HeldFrom(r, first, last), op);
    TrimmedIsTrimmed(SlotsFrom(r, first, last));
  }

  lemma WithoutUnique(front: seq<Command>, c: Command, back: seq<Command>, op: bv8)
    requires !HasOpcode(front, op) && IsFor(c, op) && !HasOpcode(back, op)
    ensures Without(front + ([c] + back), op) == front + back
  {
    hide HasOpcode;
    WithoutConcat(front, [c] + back, op);
    WithoutAbsent(front, op);
    WithoutAbsent(back, op);
    assert ([c] + back)[1..] == back;
  }
}
