/** Adaptive data rate of network_server/adr.c; signal-to-noise ratios are real numbers. */
module Adr {
  import opened Basics

  const SNR_HISTORY_SIZE := 3
  const NULL_SNR := -30.0
  const MAX_DATARATES: uint8 := 24
  const MAX_CH_MASKS := 6
  const LINK_ADR_REQ: uint8 := 0x03
  const DR_STEP := 2.5    // dB one data-rate step costs
  const POWER_STEP := 3.0 // dB one power step costs

  type ChMask = m: seq<uint16> | |m| == MAX_CH_MASKS witness [0, 0, 0, 0, 0, 0]

  /** What the configuration says about a region. */
  datatype Region = Region(uplinkDrMax: uint8, maxTxpwrIdx: uint8, defaultTxpwrIdx: uint8, initChMask: ChMask)

  /** The mote's adaptive data rate as a value. */
  datatype View = View(history: seq<real>, idx: nat, txpwrIdx: uint8, chMask: ChMask)

  /** A known region sets everything back except the place of the next value. */
  function Initialised(v: View, region: Option<Region>): View {
    if region.None? then v
    else View([NULL_SNR, NULL_SNR, NULL_SNR], v.idx, region.value.defaultTxpwrIdx, region.value.initChMask)
  }

  function Max(x: real, y: real): real {
    if y > x then y else x
  }

  function Min(x: real, y: real): real {
    if y < x then y else x
  }

  /** The spread of the history is taken within -40 to 40 dB. */
  predicate Stable(h: seq<real>)
    requires |h| == SNR_HISTORY_SIZE
  {
    Max(Max(Max(-40.0, h[0]), h[1]), h[2]) - Min(Min(Min(40.0, h[0]), h[1]), h[2]) < 4.0
  }

  /** Within these bounds that is: no two of the three values are 4 dB apart. */
  lemma StableIff(h: seq<real>)
    requires |h| == 3 && forall i :: 0 <= i < 3 ==> -40.0 <= h[i] <= 40.0
    ensures Stable(h) <==> forall i, j :: 0 <= i < 3 && 0 <= j < 3 ==> h[i] - h[j] < 4.0
  {
    var hi, lo := Max(Max(Max(-40.0, h[0]), h[1]), h[2]), Min(Min(Min(40.0, h[0]), h[1]), h[2]);
    assert lo <= h[0] <= hi && lo <= h[1] <= hi && lo <= h[2] <= hi;
    var a := if hi == h[0] then 0 else if hi == h[1] then 1 else 2;
    var b := if lo == h[0] then 0 else if lo == h[1] then 1 else 2;
    assert hi == h[a] && lo == h[b];
    forall i, j | 0 <= i < 3 && 0 <= j < 3
      ensures h[i] - h[j] <= h[a] - h[b]
    {
    }
  }

  function Average(h: seq<real>): real
    requires |h| == SNR_HISTORY_SIZE
  {
    (h[0] + h[1] + h[2]) / 3.0
  }

  /** k steps of the given cost use the margin up, or use up the room, and no fewer do. */
  predicate LeastSteps(margin: real, room: nat, cost: real, floor: real, k: nat) {
    k <= room && (k == room || margin - k as real * cost <= floor) && (k > 0 ==> margin - (k - 1) as real * cost > floor)
  }

  /** There is one such number only, and a larger margin never gives fewer steps. */
  lemma StepsAreMonotone(m: real, n: real, room: nat, cost: real, floor: real, j: nat, k: nat)
    requires cost > 0.0 && m <= n && LeastSteps(m, room, cost, floor, j) && LeastSteps(n, room, cost, floor, k)
    ensures j <= k && (m == n ==> j == k)
  {
    assert k <= j - 1 ==> k as real * cost <= (j - 1) as real * cost;
    assert j <= k - 1 ==> j as real * cost <= (k - 1) as real * cost;
  }

  /** The steps of one adjustment: the data rate first, 2.5 dB each, the power with what the data rate leaves, 3 dB each. */
  predicate Adjusts(snr: real, region: Region, dr: uint8, power: uint8, dr': uint8, power': uint8) {
    dr <= dr' && power <= power' &&
    (if dr < region.uplinkDrMax then LeastSteps(snr, (region.uplinkDrMax - dr) as nat, 2.5, 0.0, (dr' - dr) as nat) else dr' == dr) &&
    var left := snr - (dr' - dr) as real * 2.5;
    if power < region.maxTxpwrIdx then LeastSteps(left, (region.maxTxpwrIdx - power) as nat, 3.0, 3.0, (power' - power) as nat)
    else power' == power
  }

  /** Power goes down only when the data rate stands at its maximum, and never by more than the margin pays for. */
  lemma PowerAfterDataRate(snr: real, region: Region, dr: uint8, power: uint8, dr': uint8, power': uint8)
    requires Adjusts(snr, region, dr, power, dr', power') && power < power'
    ensures dr' >= region.uplinkDrMax && snr - (dr' - dr) as real * 2.5 - (power' - power) as real * 3.0 > 0.0
  {
  }

  class AdrState {
    const snrHistory: array<real>
    var snrHistoryIdx: nat
    var txpwrIdx: uint8
    var chMask: ChMask

    ghost predicate Valid()
      reads this
    {
      snrHistory.Length == SNR_HISTORY_SIZE && snrHistoryIdx < SNR_HISTORY_SIZE
    }

    ghost function Now(): View
      reads this, snrHistory
    {
      View(snrHistory[..], snrHistoryIdx, txpwrIdx, chMask)
    }

    /** calloc of the mote state. */
    constructor ()
      ensures Valid() && fresh(snrHistory) && Now() == View([0.0, 0.0, 0.0], 0, 0, [0, 0, 0, 0, 0, 0])
    {
      snrHistory := new real[SNR_HISTORY_SIZE](_ => 0.0);
      snrHistoryIdx, txpwrIdx, chMask := 0, 0, [0, 0, 0, 0, 0, 0];
    }

    /** network_controller_mote_init. */
    method Init(region: Option<Region>)
      requires Valid()
      modifies `txpwrIdx, `chMask, snrHistory
      ensures Valid() && Now() == Initialised(old(Now()), region)
      ensures snrHistoryIdx == old(snrHistoryIdx)
      ensures region.Some? ==> snrHistory[..] == [-30.0, -30.0, -30.0] && txpwrIdx == region.value.defaultTxpwrIdx &&
                               chMask == region.value.initChMask
      ensures region.None? ==> snrHistory[..] == old(snrHistory[..]) && txpwrIdx == old(txpwrIdx) && chMask == old(chMask)
    {
      if region.None? {
        return;
      }
      for i := 0 to SNR_HISTORY_SIZE
        invariant forall j :: 0 <= j < i ==> snrHistory[j] == NULL_SNR
      {
        snrHistory[i] := NULL_SNR;
      }
      chMask, txpwrIdx := region.value.initChMask, region.value.defaultTxpwrIdx;
    }

    /** network_controller_uplink: the oldest value makes room. */
    method TakeUplink(snr: real)
      requires Valid()
      modifies `snrHistoryIdx, snrHistory
      ensures Valid() && snrHistory[..] == old(snrHistory[..])[old(snrHistoryIdx) := snr]
      ensures snrHistoryIdx == (old(snrHistoryIdx) + 1) % SNR_HISTORY_SIZE
    {
      snrHistory[snrHistoryIdx] := snr;
      snrHistoryIdx := snrHistoryIdx + 1;
      if snrHistoryIdx == SNR_HISTORY_SIZE {
        snrHistoryIdx := 0;
      }
    }

    /** The scan of the circular history: from the next slot to be written downwards, wrapping below 0, each slot once. */
    method Scan() returns (snr: real, stable: bool)
      requires Valid()
      ensures snr == Average(snrHistory[..]) && (stable <==> Stable(snrHistory[..]))
      ensures 3.0 * snr == snrHistory[0] + snrHistory[1] + snrHistory[2]
    {
      var histIdx: nat := snrHistoryIdx;
      var maxSnr, minSnr := -40.0, 40.0;
      snr := 0.0;
      ghost var read := [];
      var i := 0;
      while i < SNR_HISTORY_SIZE
        invariant 0 <= i <= SNR_HISTORY_SIZE && histIdx == (snrHistoryIdx + 2 * i) % SNR_HISTORY_SIZE
        invariant |read| == i && forall j :: 0 <= j < i ==> read[j] == snrHistory[(snrHistoryIdx + 2 * j) % SNR_HISTORY_SIZE]
        invariant snr == Total(read) && maxSnr == Highest(read) && minSnr == Lowest(read)
      {
        read := read + [snrHistory[histIdx]];
        assert read[..i] + [read[i]] == read && read[..|read| - 1] == read[..i];
        maxSnr := Max(maxSnr, snrHistory[histIdx]);
        minSnr := Min(minSnr, snrHistory[histIdx]);
        snr := snr + snrHistory[histIdx];
        histIdx := if histIdx == 0 then SNR_HISTORY_SIZE - 1 else histIdx - 1;
        i := i + 1;
      }
      OfThree(read);
      EachSlotOnce(snrHistory[..], read, snrHistoryIdx);
      snr := snr / SNR_HISTORY_SIZE as real;
      stable := maxSnr - minSnr < 4.0;
    }

    /** network_controller_adr: the result is the LinkADRReq to be queued, if any. The data rate is not
        stored; it takes effect when the mote answers. */
    method Adjust(dataRate: uint8, inRegion: Option<Region>, forced: bool) returns (request: Option<seq<uint8>>, ghost dr': uint8)
      requires Valid() && txpwrIdx < 16 && (inRegion.Some? ==> inRegion.value.maxTxpwrIdx < 16)
      modifies `txpwrIdx
      ensures if inRegion.Some? && Stable(snrHistory[..]) && dataRate != MAX_DATARATES
              then Adjusts(Average(snrHistory[..]), inRegion.value, dataRate, old(txpwrIdx), dr', txpwrIdx)
              else dr' == dataRate && txpwrIdx == old(txpwrIdx)
      ensures request == if inRegion.Some? && (forced || dr' != dataRate || txpwrIdx != old(txpwrIdx))
                         then Some([LINK_ADR_REQ, dr' % 16 * 16 + txpwrIdx, (chMask[0] % 256) as uint8, (chMask[0] / 256) as uint8, 0]) else None
    {
      var origTxpwrIdx := txpwrIdx;
      var rate := dataRate;
      if inRegion.None? {
        return None, dataRate;
      }
      var region := inRegion.value;
      var snr, stable := Scan();
      if stable && dataRate != MAX_DATARATES {
        ghost var start := snr;
        while rate < region.uplinkDrMax && snr > 0.0
          invariant dataRate <= rate && (rate > dataRate ==> rate <= region.uplinkDrMax)
          invariant snr == start - (rate - dataRate) as real * DR_STEP
          invariant rate > dataRate ==> snr + DR_STEP > 0.0
        {
          rate := rate + 1;
          snr := snr - DR_STEP;
        }
        ghost var left := snr;
        while snr > POWER_STEP
          invariant origTxpwrIdx <= txpwrIdx && (txpwrIdx > origTxpwrIdx ==> txpwrIdx <= region.maxTxpwrIdx)
          invariant txpwrIdx < 16
          invariant snr == left - (txpwrIdx - origTxpwrIdx) as real * POWER_STEP
          invariant txpwrIdx > origTxpwrIdx ==> snr + POWER_STEP > POWER_STEP
          decreases region.maxTxpwrIdx as int - txpwrIdx as int
        {
          if txpwrIdx < region.maxTxpwrIdx {
            txpwrIdx := txpwrIdx + 1;
            snr := snr - POWER_STEP;
          } else {
            break;
          }
        }
      }
      dr' := rate;
      request := None;
      if forced || dataRate != rate || origTxpwrIdx != txpwrIdx {
        request := Some([LINK_ADR_REQ, rate % 16 * 16 + txpwrIdx, (chMask[0] % 256) as uint8, (chMask[0] / 256) as uint8, 0]);
      }
    }
  }

  function Total(h: seq<real>): real {
    if h == [] then 0.0 else Total(h[..|h| - 1]) + h[|h| - 1]
  }

  function Highest(h: seq<real>): real {
    if h == [] then -40.0 else Max(Highest(h[..|h| - 1]), h[|h| - 1])
  }

  function Lowest(h: seq<real>): real {
    if h == [] then 40.0 else Min(Lowest(h[..|h| - 1]), h[|h| - 1])
  }

  lemma OfThree(h: seq<real>)
    requires |h| == 3
    ensures Total(h) == h[0] + h[1] + h[2]
    ensures Highest(h) == Max(Max(Max(-40.0, h[0]), h[1]), h[2]) && Lowest(h) == Min(Min(Min(40.0, h[0]), h[1]), h[2])
  {
    var one, two := h[..1], h[..2];
    assert one[..0] == [] && two[..1] == one;
    assert Total(one) == h[0] && Highest(one) == Max(-40.0, h[0]) && Lowest(one) == Min(40.0, h[0]);
    assert Total(two) == h[0] + h[1];
  }

  /** The order in which the slots are read does not matter. */
  lemma EachSlotOnce(h: seq<real>, read: seq<real>, first: nat)
    requires |h| == 3 == |read| && first < 3 && forall j :: 0 <= j < 3 ==> read[j] == h[(first + 2 * j) % 3]
    ensures read[0] + read[1] + read[2] == h[0] + h[1] + h[2] && (Stable(read) <==> Stable(h))
  {
    assert read[0] == h[(first + 0) % 3] && read[1] == h[(first + 2) % 3] && read[2] == h[(first + 4) % 3];
  }
}
