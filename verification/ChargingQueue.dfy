/** Earliest-free-bay scheduling of a hub's recharge sessions, on values
    (src/fl_op/planning/charging.py). */
module ChargingQueue {
  import opened Wrappers
  import opened Ordering
  import opened SweepLine

  datatype Demand = Demand(arrival: real, duration: real)
  datatype Booking = Booking(slot: nat, start: real, end: real)

  // ---- Free times: None is a bay never used, the code's minus infinity -------------

  predicate FreeLe(a: Option<real>, b: Option<real>) {
    a.None? || (b.Some? && a.value <= b.value)
  }

  /** End of the last booking on bay c. */
  function FreeAt(bs: seq<Booking>, c: nat): Option<real> {
    if bs == [] then None
    else if bs[|bs| - 1].slot == c then Some(bs[|bs| - 1].end)
    else FreeAt(bs[..|bs| - 1], c)
  }

  function StartOn(free: Option<real>, arrival: real): real {
    if free.Some? && free.value > arrival then free.value else arrival
  }

  /** bay c is the earliest free, the lowest-numbered among equals. */
  ghost predicate IsEarliest(slots: nat, bs: seq<Booking>, c: nat) {
    && c < slots
    && (forall d :: 0 <= d < slots ==> FreeLe(FreeAt(bs, c), FreeAt(bs, d)))
    && (forall d :: 0 <= d < c ==> !FreeLe(FreeAt(bs, d), FreeAt(bs, c)))
  }

  ghost predicate Served(slots: nat, before: seq<Booking>, d: Demand, b: Booking) {
    && IsEarliest(slots, before, b.slot)
    && b.start == StartOn(FreeAt(before, b.slot), d.arrival)
    && b.end == b.start + d.duration
  }

  /** The schedule _schedule_hub builds for demands in service order. */
  ghost predicate EarliestFree(slots: nat, ds: seq<Demand>, bs: seq<Booking>) {
    && |bs| == |ds|
    && (forall k :: 0 <= k < |bs| ==> Served(slots, bs[..k], ds[k], bs[k]))
  }

  ghost predicate NonNegative(ds: seq<Demand>) {
    forall k :: 0 <= k < |ds| ==> ds[k].duration >= 0.0
  }

  ghost predicate ByArrival(ds: seq<Demand>) {
    forall i, j :: 0 <= i < j < |ds| ==> ds[i].arrival <= ds[j].arrival
  }

  /** Any schedule of the same sessions on the same bays: arrivals respected, starts in
      service order, a bay released before it is used again. */
  ghost predicate Feasible(slots: nat, ds: seq<Demand>, bs: seq<Booking>) {
    && |bs| == |ds|
    && (forall k :: 0 <= k < |bs| ==>
          bs[k].slot < slots && ds[k].arrival <= bs[k].start && bs[k].end == bs[k].start + ds[k].duration)
    && (forall i, j :: 0 <= i < j < |bs| ==> bs[i].start <= bs[j].start)
    && Exclusive(bs)
  }

  ghost predicate Exclusive(bs: seq<Booking>) {
    forall i, j :: 0 <= i < j < |bs| && bs[i].slot == bs[j].slot ==> bs[i].end <= bs[j].start
  }

  // ---- Basic facts -----------------------------------------------------------------

  lemma EarliestFreePrefix(slots: nat, ds: seq<Demand>, bs: seq<Booking>, k: nat)
    requires EarliestFree(slots, ds, bs) && k <= |bs|
    ensures EarliestFree(slots, ds[..k], bs[..k])
  {
    forall i | 0 <= i < k ensures Served(slots, bs[..k][..i], ds[..k][i], bs[..k][i]) {
      assert bs[..k][..i] == bs[..i];
      assert Served(slots, bs[..i], ds[i], bs[i]);
    }
  }

  lemma BaysInRange(slots: nat, ds: seq<Demand>, bs: seq<Booking>)
    requires EarliestFree(slots, ds, bs)
    ensures |ds| == |bs|
    ensures forall k :: 0 <= k < |bs| ==> bs[k].slot < slots
  {
    forall k | 0 <= k < |bs| ensures bs[k].slot < slots {
      assert Served(slots, bs[..k], ds[k], bs[k]);
    }
  }

  /** The booking that last occupied bay c. */
  lemma {:induction false} LastOn(bs: seq<Booking>, c: nat) returns (i: nat)
    requires FreeAt(bs, c).Some?
    ensures i < |bs| && bs[i].slot == c && FreeAt(bs, c) == Some(bs[i].end)
    ensures forall j :: i < j < |bs| ==> bs[j].slot != c
  {
    if bs[|bs| - 1].slot == c {
      i := |bs| - 1;
    } else {
      i := LastOn(bs[..|bs| - 1], c);
    }
  }

  /** The free time of a bay covers every booking on it. */
  lemma {:induction false} FreeCovers(slots: nat, ds: seq<Demand>, bs: seq<Booking>, c: nat)
    requires EarliestFree(slots, ds, bs) && NonNegative(ds)
    ensures forall i :: 0 <= i < |bs| && bs[i].slot == c ==>
                          FreeAt(bs, c).Some? && bs[i].end <= FreeAt(bs, c).value
  {
    if bs != [] {
      var n := |bs| - 1;
      EarliestFreePrefix(slots, ds, bs, n);
      FreeCovers(slots, ds[..n], bs[..n], c);
      assert Served(slots, bs[..n], ds[n], bs[n]);
      forall i | 0 <= i < |bs| && bs[i].slot == c
        ensures FreeAt(bs, c).Some? && bs[i].end <= FreeAt(bs, c).value
      {
        if i < n { assert bs[..n][i] == bs[i]; }
      }
    }
  }

  /** Sessions on one bay never overlap. */
  lemma NeverOverlap(slots: nat, ds: seq<Demand>, bs: seq<Booking>)
    requires EarliestFree(slots, ds, bs) && NonNegative(ds)
    ensures Exclusive(bs)
  {
    forall i, j | 0 <= i < j < |bs| && bs[i].slot == bs[j].slot ensures bs[i].end <= bs[j].start {
      EarliestFreePrefix(slots, ds, bs, j);
      FreeCovers(slots, ds[..j], bs[..j], bs[j].slot);
      assert bs[..j][i] == bs[i];
      assert Served(slots, bs[..j], ds[j], bs[j]);
    }
  }

  /** Consecutive starts do not decrease: a bay's free time only grows. */
  lemma NextStart(slots: nat, ds: seq<Demand>, bs: seq<Booking>, k: nat)
    requires EarliestFree(slots, ds, bs) && NonNegative(ds) && ByArrival(ds) && k + 1 < |bs|
    ensures bs[k].start <= bs[k + 1].start
  {
    var a, b := bs[k], bs[k + 1];
    assert Served(slots, bs[..k], ds[k], a) && Served(slots, bs[..k + 1], ds[k + 1], b);
    assert bs[..k + 1][..k] == bs[..k];
    assert FreeLe(FreeAt(bs[..k], a.slot), FreeAt(bs[..k], b.slot));
    assert FreeAt(bs[..k + 1], b.slot) == if a.slot == b.slot then Some(a.end) else FreeAt(bs[..k], b.slot);
    assert ds[k].duration >= 0.0;
  }

  lemma {:induction false} StartsOrdered(slots: nat, ds: seq<Demand>, bs: seq<Booking>, i: nat, j: nat)
    requires EarliestFree(slots, ds, bs) && NonNegative(ds) && ByArrival(ds) && i <= j < |bs|
    ensures bs[i].start <= bs[j].start
    decreases j
  {
    if i < j {
      StartsOrdered(slots, ds, bs, i, j - 1);
      NextStart(slots, ds, bs, j - 1);
    }
  }

  /** The code's schedule is itself one of the feasible schedules. */
  lemma ScheduleIsFeasible(slots: nat, ds: seq<Demand>, bs: seq<Booking>)
    requires EarliestFree(slots, ds, bs) && NonNegative(ds) && ByArrival(ds)
    ensures Feasible(slots, ds, bs)
  {
    NeverOverlap(slots, ds, bs);
    forall k | 0 <= k < |bs|
      ensures bs[k].slot < slots && ds[k].arrival <= bs[k].start && bs[k].end == bs[k].start + ds[k].duration
    {
      assert Served(slots, bs[..k], ds[k], bs[k]);
    }
    forall i, j | 0 <= i < j < |bs| ensures bs[i].start <= bs[j].start {
      StartsOrdered(slots, ds, bs, i, j);
    }
  }

  // ---- Optimality ------------------------------------------------------------------

  /** No feasible schedule starts any session earlier. */
  lemma {:induction false} EarliestStarts(slots: nat, ds: seq<Demand>, bs: seq<Booking>,
                                          other: seq<Booking>, k: nat)
    requires EarliestFree(slots, ds, bs) && Feasible(slots, ds, other)
    requires k < |ds|
    ensures bs[k].start <= other[k].start
  {
    forall j | 0 <= j < k ensures bs[j].start <= other[j].start {
      EarliestStarts(slots, ds, bs, other, j);
    }
    if other[k].start < bs[k].start {
      var bays := TakenBays(slots, ds, bs, other, k);
      DistinctBelow(bays, slots);
    }
  }

  /** If session k could start earlier elsewhere, the other schedule would need one bay per
      session running on each bay of bs, and one more for session k itself. */
  lemma TakenBays(slots: nat, ds: seq<Demand>, bs: seq<Booking>, other: seq<Booking>, k: nat)
    returns (bays: seq<nat>)
    requires EarliestFree(slots, ds, bs) && Feasible(slots, ds, other) && k < |ds|
    requires forall j :: 0 <= j < k ==> bs[j].start <= other[j].start
    requires other[k].start < bs[k].start
    ensures |bays| == slots + 1 && Distinct(bays)
    ensures forall i :: 0 <= i < |bays| ==> bays[i] < slots
  {
    var last := BusyBays(slots, ds, bs, k, other[k].start);
    forall c | 0 <= c < slots
      ensures other[last[c]].start <= other[k].start < other[last[c]].end
    {
      StillBusy(slots, ds, bs, other, k, last[c]);
    }
    bays := seq(slots, c requires 0 <= c < slots => other[last[c]].slot) + [other[k].slot];
    forall i, j | 0 <= i < j < |bays| ensures bays[i] != bays[j] {
      var p := last[i];
      if j < slots {
        var q := last[j];
        assert bs[p].slot != bs[q].slot;
        assert p < q || q < p;
      }
    }
  }

  /** Delayed past t, session k finds on every bay a session still running at t. */
  lemma BusyBays(slots: nat, ds: seq<Demand>, bs: seq<Booking>, k: nat, t: real) returns (last: seq<nat>)
    requires EarliestFree(slots, ds, bs) && k < |ds| && ds[k].arrival <= t < bs[k].start
    ensures |last| == slots
    ensures forall c :: 0 <= c < slots ==> last[c] < k && bs[last[c]].slot == c && bs[last[c]].end > t
  {
    assert Served(slots, bs[..k], ds[k], bs[k]);
    last := [];
    while |last| < slots
      invariant |last| <= slots
      invariant forall c :: 0 <= c < |last| ==> last[c] < k && bs[last[c]].slot == c && bs[last[c]].end > t
    {
      assert FreeLe(FreeAt(bs[..k], bs[k].slot), FreeAt(bs[..k], |last|));
      var i := LastOn(bs[..k], |last|);
      last := last + [i];
    }
  }

  lemma StillBusy(slots: nat, ds: seq<Demand>, bs: seq<Booking>, other: seq<Booking>, k: nat, p: nat)
    requires EarliestFree(slots, ds, bs) && Feasible(slots, ds, other) && p < k < |ds|
    requires bs[p].start <= other[p].start && bs[p].end > other[k].start
    ensures other[p].start <= other[k].start < other[p].end
  {
    assert Served(slots, bs[..p], ds[p], bs[p]);
  }

  // ---- Work conservation -----------------------------------------------------------

  /** From the latest arrival on, a bay is busy without a gap until its free time. */
  lemma {:induction false} BayBusy(slots: nat, ds: seq<Demand>, bs: seq<Booking>, c: nat, t: real)
    returns (j: nat)
    requires EarliestFree(slots, ds, bs)
    requires forall i :: 0 <= i < |ds| ==> ds[i].arrival <= t
    requires FreeAt(bs, c).Some? && t < FreeAt(bs, c).value
    ensures j < |bs| && bs[j].slot == c && bs[j].start <= t < bs[j].end
  {
    var n := |bs| - 1;
    EarliestFreePrefix(slots, ds, bs, n);
    assert Served(slots, bs[..n], ds[n], bs[n]);
    if bs[n].slot == c && bs[n].start <= t {
      j := n;
    } else {
      j := BayBusy(slots, ds[..n], bs[..n], c, t);
    }
  }

  /** A session waits only while every bay is occupied, from its arrival to its start. */
  lemma WorkConserving(slots: nat, ds: seq<Demand>, bs: seq<Booking>, k: nat, c: nat, t: real)
    requires EarliestFree(slots, ds, bs) && ByArrival(ds)
    requires k < |bs| && c < slots && ds[k].arrival <= t < bs[k].start
    ensures exists j :: 0 <= j < k && bs[j].slot == c && bs[j].start <= t < bs[j].end
  {
    EarliestFreePrefix(slots, ds, bs, k);
    assert Served(slots, bs[..k], ds[k], bs[k]);
    assert FreeLe(FreeAt(bs[..k], bs[k].slot), FreeAt(bs[..k], c));
    var j := BayBusy(slots, ds[..k], bs[..k], c, t);
    assert bs[..k][j] == bs[j];
  }

  // ---- Peak occupancy --------------------------------------------------------------

  function Occupied(bs: seq<Booking>): seq<Interval> {
    seq(|bs|, k requires 0 <= k < |bs| => (bs[k].start, bs[k].end))
  }

  /** The indices of the intervals counted by Depth. */
  lemma {:induction false} Containing(intervals: seq<Interval>, t: real) returns (at: seq<nat>)
    ensures |at| == Depth(intervals, t)
    ensures forall i :: 0 <= i < |at| ==>
                          at[i] < |intervals| && intervals[at[i]].0 <= t < intervals[at[i]].1
    ensures forall i, j :: 0 <= i < j < |at| ==> at[i] < at[j]
  {
    at := [];
    if intervals != [] {
      var n := |intervals| - 1;
      at := Containing(intervals[..n], t);
      if intervals[n].0 <= t < intervals[n].1 { at := at + [n]; }
    }
  }

  /** At no instant do more sessions charge than there are bays. */
  lemma DepthWithinBays(slots: nat, ds: seq<Demand>, bs: seq<Booking>, t: real)
    requires EarliestFree(slots, ds, bs) && NonNegative(ds)
    ensures Depth(Occupied(bs), t) <= slots
  {
    var at := Containing(Occupied(bs), t);
    BaysInRange(slots, ds, bs);
    NeverOverlap(slots, ds, bs);
    var bays := seq(|at|, i requires 0 <= i < |at| => bs[at[i]].slot);
    DistinctBelow(bays, slots);
  }

  // ---- Utilisation -----------------------------------------------------------------

  function TotalDuration(ds: seq<Demand>): real {
    if ds == [] then 0.0 else TotalDuration(ds[..|ds| - 1]) + ds[|ds| - 1].duration
  }

  /** Charge time spent on bay c. */
  function BusyOn(ds: seq<Demand>, bs: seq<Booking>, c: nat): real
    requires |ds| == |bs|
  {
    if bs == [] then 0.0
    else BusyOn(ds[..|ds| - 1], bs[..|bs| - 1], c)
         + (if bs[|bs| - 1].slot == c then ds[|ds| - 1].duration else 0.0)
  }

  function BusyBelow(ds: seq<Demand>, bs: seq<Booking>, m: nat): real
    requires |ds| == |bs|
  {
    if m == 0 then 0.0 else BusyBelow(ds, bs, m - 1) + BusyOn(ds, bs, m - 1)
  }

  lemma {:induction false} BusyBelowStep(ds: seq<Demand>, bs: seq<Booking>, m: nat)
    requires |ds| == |bs| > 0
    ensures var n := |bs| - 1;
            BusyBelow(ds, bs, m)
            == BusyBelow(ds[..n], bs[..n], m) + (if bs[n].slot < m then ds[n].duration else 0.0)
  {
    if m > 0 { BusyBelowStep(ds, bs, m - 1); }
  }

  lemma {:induction false} BusyNone(m: nat)
    ensures BusyBelow([], [], m) == 0.0
  {
    if m > 0 { BusyNone(m - 1); }
  }

  lemma {:induction false} TotalIsBusy(ds: seq<Demand>, bs: seq<Booking>, slots: nat)
    requires |ds| == |bs| && forall k :: 0 <= k < |bs| ==> bs[k].slot < slots
    ensures BusyBelow(ds, bs, slots) == TotalDuration(ds)
  {
    if bs == [] {
      BusyNone(slots);
    } else {
      var n := |bs| - 1;
      TotalIsBusy(ds[..n], bs[..n], slots);
      BusyBelowStep(ds, bs, slots);
    }
  }

  /** One bay's charge time fits between any earlier bound and its free time. */
  lemma {:induction false} BayFits(slots: nat, ds: seq<Demand>, bs: seq<Booking>, c: nat, lo: real)
    requires EarliestFree(slots, ds, bs) && forall k :: 0 <= k < |bs| ==> lo <= bs[k].start
    ensures FreeAt(bs, c).None? ==> BusyOn(ds, bs, c) == 0.0
    ensures FreeAt(bs, c).Some? ==> BusyOn(ds, bs, c) <= FreeAt(bs, c).value - lo
  {
    if bs != [] {
      var n := |bs| - 1;
      EarliestFreePrefix(slots, ds, bs, n);
      BayFits(slots, ds[..n], bs[..n], c, lo);
      assert Served(slots, bs[..n], ds[n], bs[n]);
    }
  }

  /** m times w. */
  function Times(m: nat, w: real): real {
    if m == 0 then 0.0 else Times(m - 1, w) + w
  }

  lemma {:induction false} TimesIsProduct(m: nat, w: real)
    ensures Times(m, w) == m as real * w
  {
    if m > 0 {
      TimesIsProduct(m - 1, w);
      Distribute((m - 1) as real, w);
    }
  }

  lemma Distribute(a: real, w: real)
    ensures (a + 1.0) * w == a * w + w
  {
  }

  lemma {:induction false} BaysFit(slots: nat, ds: seq<Demand>, bs: seq<Booking>, m: nat, lo: real, hi: real)
    requires EarliestFree(slots, ds, bs) && lo <= hi
    requires forall k :: 0 <= k < |bs| ==> lo <= bs[k].start && bs[k].end <= hi
    ensures BusyBelow(ds, bs, m) <= Times(m, hi - lo)
  {
    if m > 0 {
      BaysFit(slots, ds, bs, m - 1, lo, hi);
      BayFitsWindow(slots, ds, bs, m - 1, lo, hi);
    }
  }

  lemma BayFitsWindow(slots: nat, ds: seq<Demand>, bs: seq<Booking>, c: nat, lo: real, hi: real)
    requires EarliestFree(slots, ds, bs) && lo <= hi
    requires forall k :: 0 <= k < |bs| ==> lo <= bs[k].start && bs[k].end <= hi
    ensures BusyOn(ds, bs, c) <= hi - lo
  {
    BayFits(slots, ds, bs, c, lo);
    if FreeAt(bs, c).Some? { var i := LastOn(bs, c); }
  }

  /** Total charge time is at most bays times window, so utilisation is at most 100 percent. */
  lemma UtilisationBound(slots: nat, ds: seq<Demand>, bs: seq<Booking>, lo: real, hi: real)
    requires EarliestFree(slots, ds, bs) && lo <= hi && slots > 0
    requires forall k :: 0 <= k < |bs| ==> lo <= bs[k].start && bs[k].end <= hi
    ensures TotalDuration(ds) <= slots as real * (hi - lo)
    ensures Utilisation(TotalDuration(ds), slots, hi - lo) <= 100.0
  {
    hide EarliestFree, Utilisation, BusyBelow, Times, TotalDuration;
    BaysInRange(slots, ds, bs);
    TotalIsBusy(ds, bs, slots);
    BaysFit(slots, ds, bs, slots, lo, hi);
    TimesIsProduct(slots, hi - lo);
    Percent(TotalDuration(ds), slots, hi - lo);
  }

  /** busy / (slots * window) in percent, zero for an empty window. */
  function Utilisation(busy: real, slots: nat, window: real): real
    requires slots > 0
  {
    if window > 0.0 then
      Positive(slots, window);
      busy / (slots as real * window) * 100.0
    else 0.0
  }

  lemma Positive(slots: nat, window: real)
    requires slots > 0 && window > 0.0
    ensures slots as real * window > 0.0
  {
  }

  lemma Percent(busy: real, slots: nat, window: real)
    requires slots > 0 && busy <= slots as real * window
    ensures Utilisation(busy, slots, window) <= 100.0
  {
    if window > 0.0 {
      var room := slots as real * window;
      Positive(slots, window);
      assert busy / room <= 1.0;
    }
  }
}
