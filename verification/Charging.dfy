/** The mutable charging pass over recharge sessions (src/fl_op/planning/charging.py). */
module Charging {
  import opened Wrappers
  import opened Ordering
  import opened Sums
  import opened SweepLine
  import opened ChargingQueue

  const DEFAULT_SLOTS := 2
  const DEFAULT_POWER_KW := 50.0
  const SECONDS_PER_HOUR := 3600.0
  const TURNAROUND_RISK_S := 7200.0

  class Session {
    const assetId: string
    const energyKwh: real
    const arrivalS: real
    var durationS: real
    var slot: int
    var chargeStartS: real
    var chargeEndS: real

    constructor (assetId: string, energyKwh: real, arrivalS: real)
      ensures this.assetId == assetId && this.energyKwh == energyKwh && this.arrivalS == arrivalS
      ensures durationS == 0.0 && slot == -1 && chargeStartS == 0.0 && chargeEndS == 0.0
    {
      this.assetId, this.energyKwh, this.arrivalS := assetId, energyKwh, arrivalS;
      durationS, slot, chargeStartS, chargeEndS := 0.0, -1, 0.0, 0.0;
    }

    function AsDemand(): Demand reads this { Demand(arrivalS, durationS) }

    function AsBooking(): Booking
      reads this
    {
      Booking(if slot >= 0 then slot else 0, chargeStartS, chargeEndS)
    }
  }

  /** A depot's charging declaration; absent or zero entries fall back to the defaults. */
  datatype Hub = Hub(chargingSlots: Option<int>, chargingPowerKw: Option<real>) {
    function Slots(): (n: nat)
      ensures n >= 1
    {
      var declared := if chargingSlots.Some? && chargingSlots.value != 0 then chargingSlots.value else DEFAULT_SLOTS;
      if declared > 1 then declared else 1
    }

    function AggregatePower(): real {
      if chargingPowerKw.Some? && chargingPowerKw.value != 0.0 then chargingPowerKw.value else DEFAULT_POWER_KW
    }

    function PerSlotPower(): (p: real)
      ensures p >= 0.0
      ensures AggregatePower() > 0.0 ==> p > 0.0 && p * Slots() as real == AggregatePower()
      ensures AggregatePower() <= 0.0 ==> p == 0.0
    {
      if AggregatePower() > 0.0 then Share(AggregatePower(), Slots()) else 0.0
    }
  }

  function Share(power: real, slots: nat): (p: real)
    requires power > 0.0 && slots >= 1
    ensures p > 0.0 && p * slots as real == power
  {
    power / slots as real
  }

  /** Seconds to replenish energyKwh; without power the field keeps its value. */
  function ChargeTime(energyKwh: real, perSlotPower: real, current: real): (d: real)
    requires energyKwh >= 0.0 && current >= 0.0
    ensures d >= 0.0
  {
    if perSlotPower > 0.0 then (energyKwh / perSlotPower) * SECONDS_PER_HOUR else current
  }

  /** Power times time is energy. */
  lemma ChargeTimeIs(energyKwh: real, perSlotPower: real, current: real)
    requires energyKwh >= 0.0 && current >= 0.0
    ensures perSlotPower > 0.0 ==> ChargeTime(energyKwh, perSlotPower, current) * perSlotPower == energyKwh * 3600.0
    ensures perSlotPower <= 0.0 ==> ChargeTime(energyKwh, perSlotPower, current) == current
  {
    if perSlotPower > 0.0 {
      var hours := energyKwh / perSlotPower;
      assert hours * perSlotPower == energyKwh;
      assert hours * 3600.0 * perSlotPower == hours * perSlotPower * 3600.0;
    }
  }

  predicate SessionLe(a: Session, b: Session) {
    KeyLe(a.arrivalS, a.assetId, b.arrivalS, b.assetId)
  }

  function Demands(sessions: seq<Session>): (ds: seq<Demand>)
    reads sessions
    ensures |ds| == |sessions|
    ensures forall k :: 0 <= k < |ds| ==> ds[k] == sessions[k].AsDemand()
  {
    seq(|sessions|, k requires 0 <= k < |sessions| reads sessions => sessions[k].AsDemand())
  }

  function Bookings(sessions: seq<Session>): (bs: seq<Booking>)
    reads sessions
    ensures |bs| == |sessions|
    ensures forall k :: 0 <= k < |bs| ==> bs[k] == sessions[k].AsBooking()
  {
    seq(|sessions|, k requires 0 <= k < |sessions| reads sessions => sessions[k].AsBooking())
  }

  function Energies(sessions: seq<Session>): (es: seq<real>)
    ensures |es| == |sessions| && forall k :: 0 <= k < |es| ==> es[k] == sessions[k].energyKwh
  {
    seq(|sessions|, k requires 0 <= k < |sessions| => sessions[k].energyKwh)
  }

  datatype HubReport = HubReport(slots: nat, chargingPowerKw: real, perSlotPowerKw: real, nSessions: nat,
                                 energyKwh: real, totalChargeTimeS: real, totalQueueWaitS: real,
                                 maxQueueWaitS: real, nQueuedSessions: nat, peakQueueDepth: nat,
                                 maxTurnaroundS: real, nTurnaroundAtRisk: nat, utilizationPct: real)

  // ---- Report quantities -----------------------------------------------------------

  function Max(a: real, b: real): real { if a >= b then a else b }

  function Wait(d: Demand, b: Booking): real { Max(0.0, b.start - d.arrival) }

  /** Queue wait plus charge time: from arrival to ready. */
  function Turnaround(d: Demand, b: Booking): real { Max(0.0, b.end - d.arrival) }

  function Waits(ds: seq<Demand>, bs: seq<Booking>): (r: seq<real>)
    requires |ds| == |bs|
    ensures |r| == |ds| && forall k :: 0 <= k < |r| ==> r[k] == Wait(ds[k], bs[k])
  {
    seq(|ds|, k requires 0 <= k < |ds| => Wait(ds[k], bs[k]))
  }

  function Turnarounds(ds: seq<Demand>, bs: seq<Booking>): (r: seq<real>)
    requires |ds| == |bs|
    ensures |r| == |ds| && forall k :: 0 <= k < |r| ==> r[k] == Turnaround(ds[k], bs[k])
  {
    seq(|ds|, k requires 0 <= k < |ds| => Turnaround(ds[k], bs[k]))
  }

  /** How many of the values exceed the limit. */
  function Above(values: seq<real>, limit: real): nat {
    HowMany(seq(|values|, k requires 0 <= k < |values| => values[k] > limit))
  }

  /** From the first start to the last end. */
  function Window(bs: seq<Booking>): real {
    if bs == [] then 0.0 else Most(Ends(bs)) - Least(Starts(bs))
  }

  function Ends(bs: seq<Booking>): (r: seq<real>)
    ensures |r| == |bs| && forall k :: 0 <= k < |r| ==> r[k] == bs[k].end
  {
    seq(|bs|, k requires 0 <= k < |bs| => bs[k].end)
  }

  function Starts(bs: seq<Booking>): (r: seq<real>)
    ensures |r| == |bs| && forall k :: 0 <= k < |r| ==> r[k] == bs[k].start
  {
    seq(|bs|, k requires 0 <= k < |bs| => bs[k].start)
  }

  function Durations(ds: seq<Demand>): (r: seq<real>)
    ensures |r| == |ds| && forall k :: 0 <= k < |r| ==> r[k] == ds[k].duration
  {
    seq(|ds|, k requires 0 <= k < |ds| => ds[k].duration)
  }

  lemma {:induction false} DurationSum(ds: seq<Demand>)
    ensures Sum(Durations(ds)) == TotalDuration(ds)
  {
    if ds != [] {
      DurationSum(ds[..|ds| - 1]);
      assert Durations(ds)[..|ds| - 1] == Durations(ds[..|ds| - 1]);
    }
  }

  /** The waiting times [arrival, charge start) of the sessions that do not start on arrival. */
  function Waiting(ds: seq<Demand>, bs: seq<Booking>): (v: seq<Interval>)
    requires |ds| == |bs|
    ensures Upright(v)
  {
    if ds == [] then []
    else Waiting(ds[..|ds| - 1], bs[..|bs| - 1])
         + (if bs[|bs| - 1].start <= ds[|ds| - 1].arrival then []
            else [(ds[|ds| - 1].arrival, bs[|bs| - 1].start)])
  }

  /** The sessions that have arrived but not started at t. */
  ghost function WaitingAt(ds: seq<Demand>, bs: seq<Booking>, t: real): set<nat> {
    set k: nat | k < |ds| && k < |bs| && ds[k].arrival <= t < bs[k].start
  }

  lemma {:induction false} WaitingDepth(ds: seq<Demand>, bs: seq<Booking>, t: real)
    requires |ds| == |bs|
    ensures Depth(Waiting(ds, bs), t) == |WaitingAt(ds, bs, t)|
  {
    hide WaitingAt;
    WaitingNext(ds, bs, t);
    if ds != [] {
      var n := |ds| - 1;
      WaitingDepth(ds[..n], bs[..n], t);
      var front, all := Waiting(ds[..n], bs[..n]), Waiting(ds, bs);
      assert all == front || all[..|front|] == front;
    }
  }

  lemma WaitingNext(ds: seq<Demand>, bs: seq<Booking>, t: real)
    requires |ds| == |bs|
    ensures var n := |ds| - 1;
            |WaitingAt(ds, bs, t)| == if ds == [] then 0
                                      else |WaitingAt(ds[..n], bs[..n], t)|
                                           + if ds[n].arrival <= t < bs[n].start then 1 else 0
  {
    if ds == [] {
      assert WaitingAt(ds, bs, t) == {};
    } else {
      var n := |ds| - 1;
      assert WaitingAt(ds, bs, t)
             == WaitingAt(ds[..n], bs[..n], t) + if ds[n].arrival <= t < bs[n].start then {n} else {};
    }
  }

  method PeakQueueDepth(ds: seq<Demand>, bs: seq<Booking>) returns (peak: nat)
    requires |ds| == |bs|
    ensures forall t: real :: |WaitingAt(ds, bs, t)| <= peak
    ensures peak > 0 ==> exists t: real :: |WaitingAt(ds, bs, t)| == peak
  {
    hide WaitingAt;
    peak := PeakOverlap(Waiting(ds, bs));
    forall t: real ensures |InForce(Waiting(ds, bs), t)| == |WaitingAt(ds, bs, t)| {
      WaitingDepth(ds, bs, t);
      DepthCounts(Waiting(ds, bs), t);
    }
  }

  method MaxConcurrent(bs: seq<Booking>) returns (peak: nat)
    ensures IsPeak(Occupied(bs), peak)
    ensures Upright(Occupied(bs)) ==>
              && (forall t: real :: |ChargingAt(bs, t)| <= peak)
              && (peak > 0 ==> exists t: real :: |ChargingAt(bs, t)| == peak)
  {
    peak := PeakOverlap(Occupied(bs));
    forall t: real ensures InForce(Occupied(bs), t) == ChargingAt(bs, t) { }
  }

  /** The sessions on a bay at t. */
  ghost function ChargingAt(bs: seq<Booking>, t: real): set<nat> {
    set k: nat | k < |bs| && bs[k].start <= t < bs[k].end
  }

  /** One hub never charges more sessions at once than it has bays. */
  lemma HubPeakWithinBays(slots: nat, ds: seq<Demand>, bs: seq<Booking>, peak: nat)
    requires EarliestFree(slots, ds, bs) && ChargingQueue.NonNegative(ds)
    requires IsPeak(Occupied(bs), peak)
    ensures peak <= slots
  {
    forall v | v in Occupied(bs) ensures v.0 <= v.1 {
      var k :| 0 <= k < |bs| && Occupied(bs)[k] == v;
      assert Served(slots, bs[..k], ds[k], bs[k]);
    }
    PeakIsDepth(Occupied(bs), peak);
    if peak > 0 {
      var t: real :| Depth(Occupied(bs), t) == peak;
      DepthWithinBays(slots, ds, bs, t);
    }
  }

  // ---- What the figures of a report mean ----------------------------------------------

  ghost function WaitTimes(ds: seq<Demand>, bs: seq<Booking>): (r: seq<real>)
    requires |ds| == |bs|
    ensures |r| == |ds| && forall k :: 0 <= k < |r| ==> r[k] == bs[k].start - ds[k].arrival
  {
    seq(|ds|, k requires 0 <= k < |ds| => bs[k].start - ds[k].arrival)
  }

  ghost function ReadyTimes(ds: seq<Demand>, bs: seq<Booking>): (r: seq<real>)
    requires |ds| == |bs|
    ensures |r| == |ds| && forall k :: 0 <= k < |r| ==> r[k] == bs[k].end - ds[k].arrival
  {
    seq(|ds|, k requires 0 <= k < |ds| => bs[k].end - ds[k].arrival)
  }

  /** The sessions for which more than the given time passes. */
  ghost function Beyond(times: seq<real>, limit: real): set<nat> { set k: nat | k < |times| && times[k] > limit }

  /** slots and power are those the hub declares: two bays and 50 kW where it declares none or
      zero, and never less than one bay. */
  ghost predicate Declares(hub: Hub, slots: nat, power: real) {
    && (hub.chargingSlots.None? || hub.chargingSlots.value == 0 ==> slots == 2)
    && (hub.chargingSlots.Some? && hub.chargingSlots.value < 0 ==> slots == 1)
    && (hub.chargingSlots.Some? && hub.chargingSlots.value > 0 ==> slots == hub.chargingSlots.value)
    && (hub.chargingPowerKw.None? || hub.chargingPowerKw.value == 0.0 ==> power == 50.0)
    && (hub.chargingPowerKw.Some? && hub.chargingPowerKw.value != 0.0 ==> power == hub.chargingPowerKw.value)
  }

  /** Busy time as a share of what the bays offer between the first start and the last end. */
  ghost predicate Utilised(percent: real, slots: nat, ds: seq<Demand>, bs: seq<Booking>)
    requires |ds| == |bs|
  {
    if bs == [] then percent == 0.0
    else
      exists first, last :: Spanned(bs, first, last)
        && (if last > first then percent * (slots as real * (last - first)) == 100.0 * Sum(Durations(ds))
            else percent == 0.0)
  }

  /** The first start and the last end. */
  ghost predicate Spanned(bs: seq<Booking>, first: real, last: real) {
    && (forall k :: 0 <= k < |bs| ==> first <= bs[k].start && bs[k].end <= last)
    && (exists k :: 0 <= k < |bs| && bs[k].start == first) && (exists k :: 0 <= k < |bs| && bs[k].end == last)
  }

  lemma PowerIsDeclared(hub: Hub)
    ensures Declares(hub, hub.Slots(), hub.AggregatePower())
  {
  }

  /** What each figure of a hub report is. */
  ghost predicate Reports(report: HubReport, hub: Hub, es: seq<real>, ds: seq<Demand>, bs: seq<Booking>) {
    && |ds| == |bs| && report.nSessions == |ds|
    && Declares(hub, report.slots, report.chargingPowerKw)
    && (report.chargingPowerKw > 0.0 ==> report.perSlotPowerKw * report.slots as real == report.chargingPowerKw)
    && (report.chargingPowerKw <= 0.0 ==> report.perSlotPowerKw == 0.0)
    && report.energyKwh == Sum(es) && report.totalChargeTimeS == Sum(Durations(ds))
    && report.totalQueueWaitS == Sum(WaitTimes(ds, bs)) && IsMost(WaitTimes(ds, bs), report.maxQueueWaitS)
    && report.nQueuedSessions == |Beyond(WaitTimes(ds, bs), 0.0)|
    && (forall t: real :: |WaitingAt(ds, bs, t)| <= report.peakQueueDepth)
    && (report.peakQueueDepth > 0 ==> exists t: real :: |WaitingAt(ds, bs, t)| == report.peakQueueDepth)
    && IsMost(ReadyTimes(ds, bs), report.maxTurnaroundS)
    && report.nTurnaroundAtRisk == |Beyond(ReadyTimes(ds, bs), 7200.0)|
    && Utilised(report.utilizationPct, report.slots, ds, bs)
  }

  /** In a schedule nobody starts before arrival, so waits and turnarounds need no floor. */
  lemma TimesAreDifferences(slots: nat, ds: seq<Demand>, bs: seq<Booking>)
    requires EarliestFree(slots, ds, bs) && ChargingQueue.NonNegative(ds)
    ensures |ds| == |bs| && Waits(ds, bs) == WaitTimes(ds, bs) && Turnarounds(ds, bs) == ReadyTimes(ds, bs)
  {
    forall k | 0 <= k < |ds| ensures ds[k].arrival <= bs[k].start <= bs[k].end {
      assert Served(slots, bs[..k], ds[k], bs[k]);
    }
  }

  lemma AboveCounts(values: seq<real>, limit: real)
    ensures Above(values, limit) == |Beyond(values, limit)|
  {
    assert Holding(seq(|values|, k requires 0 <= k < |values| => values[k] > limit)) == Beyond(values, limit);
  }

  lemma UtilisedIs(slots: nat, ds: seq<Demand>, bs: seq<Booking>)
    requires slots >= 1 && |ds| == |bs|
    ensures Utilised(Utilisation(Sum(Durations(ds)), slots, Window(bs)), slots, ds, bs)
  {
    hide Sum, Utilisation, Most, Least;
    var busy := Sum(Durations(ds));
    if bs == [] {
      NoWindow(busy, slots, 0.0);
    } else {
      WindowSpans(bs);
      var first, last := Least(Starts(bs)), Most(Ends(bs));
      if last > first { UtilisationShare(busy, slots, last - first); } else { NoWindow(busy, slots, last - first); }
      assert Window(bs) == last - first;
      assert Spanned(bs, first, last);
    }
  }

  lemma WindowSpans(bs: seq<Booking>)
    requires bs != []
    ensures Spanned(bs, Least(Starts(bs)), Most(Ends(bs)))
  {
    hide Most, Least;
    var j :| 0 <= j < |bs| && Ends(bs)[j] == Most(Ends(bs));
    var i :| 0 <= i < |bs| && Starts(bs)[i] == Least(Starts(bs));
    assert bs[i].start == Least(Starts(bs)) && bs[j].end == Most(Ends(bs));
    forall k | 0 <= k < |bs| ensures Least(Starts(bs)) <= bs[k].start && bs[k].end <= Most(Ends(bs)) {
      assert Least(Starts(bs)) <= Starts(bs)[k] && Ends(bs)[k] <= Most(Ends(bs));
    }
  }

  lemma NoWindow(busy: real, slots: nat, window: real)
    requires slots >= 1 && window <= 0.0
    ensures Utilisation(busy, slots, window) == 0.0
  {
  }

  lemma UtilisationShare(busy: real, slots: nat, window: real)
    requires slots >= 1 && window > 0.0
    ensures Utilisation(busy, slots, window) * (slots as real * window) == 100.0 * busy
  {
    var room := slots as real * window;
    Positive(slots, window);
    assert busy / room * room == busy;
    assert busy / room * 100.0 * room == 100.0 * (busy / room * room);
  }

  // ---- Power ---------------------------------------------------------------------------

  /** What a session draws at t: its energy over its charge time while it is on a bay. */
  ghost function Draw(energy: real, b: Booking, t: real): real {
    if b.start <= t < b.end then energy * 3600.0 / (b.end - b.start) else 0.0
  }

  ghost function Draws(es: seq<real>, bs: seq<Booking>, t: real): (r: seq<real>)
    requires |es| == |bs|
    ensures |r| == |bs| && forall k :: 0 <= k < |r| ==> r[k] == Draw(es[k], bs[k], t)
  {
    seq(|bs|, k requires 0 <= k < |bs| => Draw(es[k], bs[k], t))
  }

  /** Every session charges as long as its share of the hub's power takes for its energy. */
  ghost predicate ChargedBy(power: real, slots: nat, es: seq<real>, ds: seq<Demand>) {
    |es| == |ds| && forall k :: 0 <= k < |ds| ==> ds[k].duration * power == es[k] * 3600.0 * slots as real
  }

  /** At no instant do the charging sessions together draw more than the hub's power. */
  lemma DrawWithinPower(power: real, slots: nat, es: seq<real>, ds: seq<Demand>, bs: seq<Booking>, t: real)
    requires power > 0.0 && slots >= 1 && ChargedBy(power, slots, es, ds)
    requires EarliestFree(slots, ds, bs) && ChargingQueue.NonNegative(ds) && |es| == |bs|
    ensures Sum(Draws(es, bs, t)) <= power
  {
    hide ChargedBy, EarliestFree, Sum, Share, ChargingAt, Draw;
    ChargingWithinBays(slots, ds, bs, t);
    forall k | 0 <= k < |bs| ensures Draw(es[k], bs[k], t) == if bs[k].start <= t < bs[k].end then Share(power, slots) else 0.0 {
      DrawAt(power, slots, es, ds, bs, t, k);
    }
    DrawsAddUp(es, bs, t, Share(power, slots));
    SharesWithin(power, slots, |ChargingAt(bs, t)|);
  }

  lemma DrawAt(power: real, slots: nat, es: seq<real>, ds: seq<Demand>, bs: seq<Booking>, t: real, k: nat)
    requires power > 0.0 && slots >= 1 && ChargedBy(power, slots, es, ds)
    requires EarliestFree(slots, ds, bs) && k < |bs|
    ensures |es| == |ds| == |bs|
    ensures Draw(es[k], bs[k], t) == if bs[k].start <= t < bs[k].end then Share(power, slots) else 0.0
  {
    hide Served, Share, Draw;
    ServedLength(slots, ds, bs, k);
    DrawIsShare(power, slots, es[k], ds[k].duration, bs[k], t);
  }

  lemma ServedLength(slots: nat, ds: seq<Demand>, bs: seq<Booking>, k: nat)
    requires EarliestFree(slots, ds, bs) && k < |bs|
    ensures |bs| == |ds| && bs[k].end == bs[k].start + ds[k].duration
  {
    assert Served(slots, bs[..k], ds[k], bs[k]);
  }

  lemma ChargingWithinBays(slots: nat, ds: seq<Demand>, bs: seq<Booking>, t: real)
    requires EarliestFree(slots, ds, bs) && ChargingQueue.NonNegative(ds)
    ensures |ChargingAt(bs, t)| <= slots
  {
    hide EarliestFree, Depth;
    DepthWithinBays(slots, ds, bs, t);
    DepthCounts(Occupied(bs), t);
    assert InForce(Occupied(bs), t) == ChargingAt(bs, t);
  }

  lemma DrawIsShare(power: real, slots: nat, energy: real, duration: real, b: Booking, t: real)
    requires power > 0.0 && slots >= 1 && duration * power == energy * 3600.0 * slots as real
    requires b.end == b.start + duration
    ensures Draw(energy, b, t) == if b.start <= t < b.end then Share(power, slots) else 0.0
  {
    if b.start <= t < b.end {
      var draw := energy * 3600.0 / duration;
      assert draw * duration == energy * 3600.0;
      assert (draw * slots as real - power) * duration == 0.0;
      assert draw * slots as real == power;
    }
  }

  lemma {:induction false} DrawsAddUp(es: seq<real>, bs: seq<Booking>, t: real, share: real)
    requires |es| == |bs|
    requires forall k :: 0 <= k < |bs| ==> Draw(es[k], bs[k], t) == if bs[k].start <= t < bs[k].end then share else 0.0
    ensures Sum(Draws(es, bs, t)) == |ChargingAt(bs, t)| as real * share
  {
    hide ChargingAt, Draw;
    if bs == [] {
      NobodyCharges(bs, t);
    } else {
      var n := |bs| - 1;
      assert Draws(es, bs, t)[..n] == Draws(es[..n], bs[..n], t);
      DrawsAddUp(es[..n], bs[..n], t, share);
      ChargingNext(bs, t);
      OneMoreShare(|ChargingAt(bs[..n], t)|, share);
    }
  }

  lemma NobodyCharges(bs: seq<Booking>, t: real)
    requires bs == []
    ensures |ChargingAt(bs, t)| == 0
  {
    assert ChargingAt(bs, t) == {};
  }

  lemma ChargingNext(bs: seq<Booking>, t: real)
    requires bs != []
    ensures var n := |bs| - 1;
            |ChargingAt(bs, t)| == |ChargingAt(bs[..n], t)| + if bs[n].start <= t < bs[n].end then 1 else 0
  {
    var n := |bs| - 1;
    assert ChargingAt(bs, t) == ChargingAt(bs[..n], t) + if bs[n].start <= t < bs[n].end then {n} else {};
  }

  lemma OneMoreShare(n: nat, share: real)
    ensures (n + 1) as real * share == n as real * share + share
  {
  }

  lemma SharesWithin(power: real, slots: nat, n: nat)
    requires power > 0.0 && 1 <= slots && n <= slots
    ensures n as real * Share(power, slots) <= power
  {
    var share := Share(power, slots);
    assert slots as real * share == power;
    assert (slots - n) as real * share >= 0.0;
  }

  lemma ServedByArrival(ordered: seq<Session>)
    requires SortedBy(SessionLe, ordered)
    ensures ByArrival(Demands(ordered))
  {
    forall i, j | 0 <= i < j < |ordered| ensures ordered[i].arrivalS <= ordered[j].arrivalS {
      assert SessionLe(ordered[i], ordered[j]);
    }
  }

  // ---- _schedule_hub ---------------------------------------------------------------

  /** The bay that is free earliest, the lowest index on ties. */
  method EarliestBay(slotFree: array<Option<real>>) returns (c: nat)
    requires slotFree.Length >= 1
    ensures c < slotFree.Length
    ensures forall d :: 0 <= d < slotFree.Length ==> FreeLe(slotFree[c], slotFree[d])
    ensures forall d :: 0 <= d < c ==> !FreeLe(slotFree[d], slotFree[c])
  {
    c := 0;
    for d := 1 to slotFree.Length
      invariant c < d
      invariant forall e :: 0 <= e < d ==> FreeLe(slotFree[c], slotFree[e])
      invariant forall e :: 0 <= e < c ==> !FreeLe(slotFree[e], slotFree[c])
    {
      if !FreeLe(slotFree[c], slotFree[d]) { c := d; }
    }
  }

  method ServeSession(session: Session, slotFree: array<Option<real>>, perSlotPower: real,
                      ghost bs: seq<Booking>)
    requires slotFree.Length >= 1 && session.energyKwh >= 0.0 && session.durationS >= 0.0
    requires forall c :: 0 <= c < slotFree.Length ==> slotFree[c] == FreeAt(bs, c)
    modifies session, slotFree
    ensures session.durationS == ChargeTime(session.energyKwh, perSlotPower, old(session.durationS))
    ensures session.slot >= 0
    ensures Served(slotFree.Length, bs, session.AsDemand(), session.AsBooking())
    ensures forall c :: 0 <= c < slotFree.Length ==> slotFree[c] == FreeAt(bs + [session.AsBooking()], c)
  {
    session.durationS := ChargeTime(session.energyKwh, perSlotPower, session.durationS);
    var slot := EarliestBay(slotFree);
    session.slot := slot;
    session.chargeStartS := StartOn(slotFree[slot], session.arrivalS);
    session.chargeEndS := session.chargeStartS + session.durationS;
    assert Served(slotFree.Length, bs, session.AsDemand(), session.AsBooking());
    slotFree[slot] := Some(session.chargeEndS);
    assert (bs + [session.AsBooking()])[..|bs|] == bs;
  }

  method ScheduleHub(hub: Hub, sessions: seq<Session>) returns (ordered: seq<Session>, report: HubReport)
    requires Distinct(sessions)
    requires forall s :: s in sessions ==> s.energyKwh >= 0.0 && s.durationS >= 0.0
    modifies sessions
    ensures multiset(ordered) == multiset(sessions)
    ensures forall i, j :: 0 <= i < j < |ordered| ==>
              || ordered[i].arrivalS < ordered[j].arrivalS
              || (ordered[i].arrivalS == ordered[j].arrivalS && StringLe(ordered[i].assetId, ordered[j].assetId))
    ensures report.chargingPowerKw > 0.0 ==>
              && ChargedBy(report.chargingPowerKw, report.slots, Energies(ordered), Demands(ordered))
              && forall t: real :: Sum(Draws(Energies(ordered), Bookings(ordered), t)) <= report.chargingPowerKw
    ensures report.chargingPowerKw <= 0.0 ==> forall s :: s in sessions ==> s.durationS == old(s.durationS)
    ensures forall s :: s in sessions ==> s.slot >= 0
    ensures ByArrival(Demands(ordered)) && ChargingQueue.NonNegative(Demands(ordered))
    ensures EarliestFree(hub.Slots(), Demands(ordered), Bookings(ordered))
    ensures Reports(report, hub, Energies(ordered), Demands(ordered), Bookings(ordered))
    ensures report.utilizationPct <= 100.0 && report.maxQueueWaitS <= report.maxTurnaroundS
  {
    hide EarliestFree, Reports, SessionLe, Declares, ChargedBy, Sum, Draws, StringLe, ByArrival, ChargeTime;
    ordered := SortSessions(sessions);
    SameMembers(sessions, ordered);
    ghost var were := Durations(Demands(ordered));
    ServeInOrder(hub, ordered);
    ServedByArrival(ordered);
    InServiceOrder(ordered);
    ghost var es, ds, bs := Energies(ordered), Demands(ordered), Bookings(ordered);
    assert forall k :: 0 <= k < |ds| ==> ds[k].duration == ChargeTime(es[k], hub.PerSlotPower(), were[k]) >= 0.0;
    report := Summarise(hub, Energies(ordered), Demands(ordered), Bookings(ordered));
    ReportedPower(report, hub, es, ds, bs);
    PowerIsShared(hub, es, ds, were);
    forall s | s in sessions ensures report.chargingPowerKw <= 0.0 ==> s.durationS == old(s.durationS) {
      var k :| 0 <= k < |ordered| && ordered[k] == s;
      assert ds[k].duration == s.durationS && were[k] == old(s.durationS);
    }
    DrawsWithin(report.chargingPowerKw, report.slots, es, ds, bs);
  }

  lemma DrawsWithin(power: real, slots: nat, es: seq<real>, ds: seq<Demand>, bs: seq<Booking>)
    requires slots >= 1 && (power > 0.0 ==> ChargedBy(power, slots, es, ds))
    requires EarliestFree(slots, ds, bs) && ChargingQueue.NonNegative(ds) && |es| == |bs|
    ensures power > 0.0 ==> forall t: real :: Sum(Draws(es, bs, t)) <= power
  {
    hide EarliestFree, ChargedBy, Sum, Draws;
    if power > 0.0 {
      forall t: real ensures Sum(Draws(es, bs, t)) <= power { DrawWithinPower(power, slots, es, ds, bs, t); }
    }
  }

  lemma InServiceOrder(ordered: seq<Session>)
    requires SortedBy(SessionLe, ordered)
    ensures forall i, j :: 0 <= i < j < |ordered| ==>
              || ordered[i].arrivalS < ordered[j].arrivalS
              || (ordered[i].arrivalS == ordered[j].arrivalS && StringLe(ordered[i].assetId, ordered[j].assetId))
  {
    hide StringLe;
    forall i, j | 0 <= i < j < |ordered| ensures SessionLe(ordered[i], ordered[j]) { }
  }

  lemma ReportedPower(report: HubReport, hub: Hub, es: seq<real>, ds: seq<Demand>, bs: seq<Booking>)
    requires Reports(report, hub, es, ds, bs)
    ensures report.slots == hub.Slots() && report.chargingPowerKw == hub.AggregatePower()
  {
  }

  lemma PowerIsShared(hub: Hub, es: seq<real>, ds: seq<Demand>, were: seq<real>)
    requires |es| == |ds| == |were| && forall k :: 0 <= k < |ds| ==> es[k] >= 0.0 && were[k] >= 0.0
    requires forall k :: 0 <= k < |ds| ==> ds[k].duration == ChargeTime(es[k], hub.PerSlotPower(), were[k])
    ensures hub.AggregatePower() > 0.0 ==> ChargedBy(hub.AggregatePower(), hub.Slots(), es, ds)
    ensures hub.AggregatePower() <= 0.0 ==> forall k :: 0 <= k < |ds| ==> ds[k].duration == were[k]
  {
    hide ChargeTime;
    var share, slots := hub.PerSlotPower(), hub.Slots() as real;
    forall k | 0 <= k < |ds|
      ensures hub.AggregatePower() > 0.0 ==> ds[k].duration * hub.AggregatePower() == es[k] * 3600.0 * slots
      ensures hub.AggregatePower() <= 0.0 ==> ds[k].duration == were[k]
    {
      ChargeTimeIs(es[k], share, were[k]);
      assert ds[k].duration * (share * slots) == ds[k].duration * share * slots;
    }
  }

  /** Sessions in service order: by arrival, then by asset. */
  method SortSessions(sessions: seq<Session>) returns (ordered: seq<Session>)
    requires Distinct(sessions)
    ensures multiset(ordered) == multiset(sessions) && |ordered| == |sessions|
    ensures SortedBy(SessionLe, ordered) && Distinct(ordered)
    ensures forall i :: 0 <= i < |ordered| ==> ordered[i] in sessions
  {
    ordered := SortBy(SessionLe, sessions);
    forall a, b | a in sessions && b in sessions ensures SessionLe(a, b) || SessionLe(b, a) {
      KeyLeTotal(a.arrivalS, a.assetId, b.arrivalS, b.assetId);
    }
    forall a, b, c | a in sessions && b in sessions && c in sessions && SessionLe(a, b) && SessionLe(b, c)
      ensures SessionLe(a, c)
    {
      KeyLeTransitive(a.arrivalS, a.assetId, b.arrivalS, b.assetId, c.arrivalS, c.assetId);
    }
    SortBySorted(SessionLe, sessions);
    PermutationDistinct(sessions, ordered);
    SameMembers(ordered, sessions);
  }

  method ServeInOrder(hub: Hub, ordered: seq<Session>)
    requires Distinct(ordered)
    requires forall i :: 0 <= i < |ordered| ==> ordered[i].energyKwh >= 0.0 && ordered[i].durationS >= 0.0
    modifies ordered
    ensures forall i :: 0 <= i < |ordered| ==>
              && ordered[i].slot >= 0
              && ordered[i].durationS
                 == ChargeTime(ordered[i].energyKwh, hub.PerSlotPower(), old(ordered[i].durationS))
    ensures EarliestFree(hub.Slots(), Demands(ordered), Bookings(ordered))
  {
    hide Served, ChargeTime;
    var slots := hub.Slots();
    var slotFree := new Option<real>[slots](_ => None);
    ghost var bs: seq<Booking> := [];
    for k := 0 to |ordered|
      invariant fresh(slotFree) && |bs| == k
      invariant forall c :: 0 <= c < slots ==> slotFree[c] == FreeAt(bs, c)
      invariant forall i :: k <= i < |ordered| ==> ordered[i].durationS == old(ordered[i].durationS)
      invariant forall i :: 0 <= i < k ==>
                  && ordered[i].slot >= 0
                  && ordered[i].durationS
                     == ChargeTime(ordered[i].energyKwh, hub.PerSlotPower(), old(ordered[i].durationS))
                  && ordered[i].AsBooking() == bs[i]
                  && Served(slots, bs[..i], ordered[i].AsDemand(), bs[i])
    {
      ServeSession(ordered[k], slotFree, hub.PerSlotPower(), bs);
      ghost var next := bs + [ordered[k].AsBooking()];
      assert forall i :: 0 <= i <= k ==> next[..i] == bs[..i];
      bs := next;
    }
    assert Bookings(ordered) == bs;
  }

  method Summarise(hub: Hub, es: seq<real>, ds: seq<Demand>, bs: seq<Booking>) returns (report: HubReport)
    requires EarliestFree(hub.Slots(), ds, bs) && ChargingQueue.NonNegative(ds)
    ensures Reports(report, hub, es, ds, bs)
    ensures report.utilizationPct <= 100.0 && report.maxQueueWaitS <= report.maxTurnaroundS
  {
    hide WaitingAt, EarliestFree, Utilisation, Utilised, Window, Beyond, Above, Sum, Most, Waits, Turnarounds, WaitTimes,
         ReadyTimes, Durations, TotalDuration, Wait, Turnaround, Waiting;
    PowerIsDeclared(hub);
    var slots := hub.Slots();
    TimesAreDifferences(slots, ds, bs);
    var waits, turnarounds := Waits(ds, bs), Turnarounds(ds, bs);
    var busy := Sum(Durations(ds));
    var peak := PeakQueueDepth(ds, bs);
    report := HubReport(slots, hub.AggregatePower(), hub.PerSlotPower(), |ds|, Sum(es), busy, Sum(waits), Most(waits),
                        Above(waits, 0.0), peak, Most(turnarounds), Above(turnarounds, TURNAROUND_RISK_S),
                        Utilisation(busy, slots, Window(bs)));
    AboveCounts(waits, 0.0);
    AboveCounts(turnarounds, TURNAROUND_RISK_S);
    UtilisedIs(slots, ds, bs);
    DurationSum(ds);
    WindowUtilisation(slots, ds, bs);
    WaitWithinTurnaround(slots, ds, bs);
  }

  /** A session waits no longer than it takes to be ready. */
  lemma WaitWithinTurnaround(slots: nat, ds: seq<Demand>, bs: seq<Booking>)
    requires EarliestFree(slots, ds, bs) && ChargingQueue.NonNegative(ds)
    ensures Most(Waits(ds, bs)) <= Most(Turnarounds(ds, bs))
  {
    var waits, turnarounds := Waits(ds, bs), Turnarounds(ds, bs);
    if ds != [] {
      var k :| 0 <= k < |waits| && waits[k] == Most(waits);
      assert Served(slots, bs[..k], ds[k], bs[k]);
      assert waits[k] <= turnarounds[k];
    }
  }

  lemma WindowUtilisation(slots: nat, ds: seq<Demand>, bs: seq<Booking>)
    requires slots >= 1 && EarliestFree(slots, ds, bs) && ChargingQueue.NonNegative(ds)
    ensures Utilisation(TotalDuration(ds), slots, Window(bs)) <= 100.0
  {
    if bs != [] {
      assert Served(slots, bs[..0], ds[0], bs[0]);
      assert ds[0].duration >= 0.0;
      UtilisationBound(slots, ds, bs, Least(Starts(bs)), Most(Ends(bs)));
    }
  }
}
