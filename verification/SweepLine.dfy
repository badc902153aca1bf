/** The event sweep used by the charging and the airspace reports: sort (+1 at a start, -1 at
    an end) events by (time, delta) and keep the running maximum. */
module SweepLine {
  import opened Ordering

  type Interval = (real, real)
  type Event = (real, int)

  predicate EventLe(a: Event, b: Event) {
    a.0 < b.0 || (a.0 == b.0 && a.1 <= b.1)
  }

  function Events(intervals: seq<Interval>): seq<Event> {
    if intervals == [] then []
    else Events(intervals[..|intervals| - 1])
         + [(intervals[|intervals| - 1].0, 1), (intervals[|intervals| - 1].1, -1)]
  }

  /** Number of half-open intervals [start, end) that contain t. */
  function Depth(intervals: seq<Interval>, t: real): nat {
    if intervals == [] then 0
    else Depth(intervals[..|intervals| - 1], t)
         + (if intervals[|intervals| - 1].0 <= t < intervals[|intervals| - 1].1 then 1 else 0)
  }

  /** The intervals in force at t. */
  ghost function InForce(intervals: seq<Interval>, t: real): set<nat> {
    set k: nat | k < |intervals| && intervals[k].0 <= t < intervals[k].1
  }

  lemma {:induction false} DepthCounts(intervals: seq<Interval>, t: real)
    ensures Depth(intervals, t) == |InForce(intervals, t)|
  {
    if intervals == [] {
      assert InForce(intervals, t) == {};
    } else {
      var n := |intervals| - 1;
      DepthCounts(intervals[..n], t);
      assert InForce(intervals, t)
             == InForce(intervals[..n], t) + if intervals[n].0 <= t < intervals[n].1 then {n} else {};
    }
  }

  /** Sum of the deltas up to and including time t. */
  function Net(events: seq<Event>, t: real): int {
    if events == [] then 0
    else (if events[0].0 <= t then events[0].1 else 0) + Net(events[1..], t)
  }

  function Running(events: seq<Event>): int {
    if events == [] then 0 else Running(events[..|events| - 1]) + events[|events| - 1].1
  }

  // ---- Net depends on the events, not on their order ------------------------------

  lemma {:induction false} NetAppend(a: seq<Event>, b: seq<Event>, t: real)
    ensures Net(a + b, t) == Net(a, t) + Net(b, t)
  {
    if a == [] {
      assert a + b == b;
    } else {
      NetAppend(a[1..], b, t);
      assert (a + b)[1..] == a[1..] + b;
    }
  }

  lemma {:induction false} NetInsert(x: Event, s: seq<Event>, t: real)
    ensures Net(Insert(EventLe, x, s), t) == Net([x], t) + Net(s, t)
  {
    if s == [] {
    } else if EventLe(x, s[0]) {
      assert ([x] + s)[1..] == s;
    } else {
      NetInsert(x, s[1..], t);
      var r := [s[0]] + Insert(EventLe, x, s[1..]);
      assert r[1..] == Insert(EventLe, x, s[1..]);
    }
  }

  lemma {:induction false} NetSorted(s: seq<Event>, t: real)
    ensures Net(SortBy(EventLe, s), t) == Net(s, t)
  {
    if s != [] {
      NetSorted(s[1..], t);
      NetInsert(s[0], SortBy(EventLe, s[1..]), t);
    }
  }

  ghost predicate Upright(intervals: seq<Interval>) {
    forall v :: v in intervals ==> v.0 <= v.1
  }

  lemma NetPair(v: Interval, t: real)
    ensures Net([(v.0, 1), (v.1, -1)], t) == (if v.0 <= t then 1 else 0) - (if v.1 <= t then 1 else 0)
  {
    var pair: seq<Event> := [(v.0, 1), (v.1, -1)];
    assert pair[1..] == [(v.1, -1)];
    assert Net(pair[1..], t) == if v.1 <= t then -1 else 0;
  }

  /** With no reversed interval, Net at t is the number of intervals containing t. */
  lemma {:induction false} NetIsDepth(intervals: seq<Interval>, t: real)
    requires Upright(intervals)
    ensures Net(Events(intervals), t) == Depth(intervals, t)
  {
    if intervals != [] {
      var front, v := intervals[..|intervals| - 1], intervals[|intervals| - 1];
      assert v in intervals;
      NetIsDepth(front, t);
      NetAppend(Events(front), [(v.0, 1), (v.1, -1)], t);
      NetPair(v, t);
    }
  }

  // ---- Prefix sums of the sorted events --------------------------------------------

  lemma {:induction false} NetIsSum(s: seq<Event>, t: real)
    requires forall e :: e in s ==> e.0 <= t
    ensures Net(s, t) == Running(s)
  {
    if s != [] {
      var front, e := s[..|s| - 1], s[|s| - 1];
      NetIsSum(front, t);
      NetAppend(front, [e], t);
      assert s == front + [e] && e in s;
    }
  }

  lemma {:induction false} NetLater(s: seq<Event>, t: real, sign: int)
    requires forall e :: e in s && e.0 <= t ==> e.1 * sign >= 0
    requires sign == 1 || sign == -1
    ensures Net(s, t) * sign >= 0
  {
    if s != [] {
      assert s[0] in s;
      NetLater(s[1..], t, sign);
    }
  }

  ghost predicate UnitEvents(s: seq<Event>) {
    forall e :: e in s ==> e.1 == 1 || e.1 == -1
  }

  /** Every value of Net is a prefix sum: the events up to t are a prefix. */
  lemma {:induction false} NetIsPrefix(s: seq<Event>, t: real) returns (k: nat)
    requires SortedBy(EventLe, s)
    ensures k <= |s| && Net(s, t) == Running(s[..k])
  {
    k := 0;
    while k < |s| && s[k].0 <= t
      invariant k <= |s| && forall e :: e in s[..k] ==> e.0 <= t
    {
      k := k + 1;
    }
    assert forall e :: e in s[k..] ==> e.0 > t;
    assert s == s[..k] + s[k..];
    NetAppend(s[..k], s[k..], t);
    NetIsSum(s[..k], t);
    NetLater(s[k..], t, 1);
    NetLater(s[k..], t, -1);
  }

  /** Every prefix sum is at most zero or at most some value of Net: a prefix ending in +1
      only misses further +1 events of the same instant. */
  lemma {:induction false} PrefixIsNet(s: seq<Event>, k: nat)
    requires SortedBy(EventLe, s) && UnitEvents(s) && k <= |s|
    ensures Running(s[..k]) <= 0 || exists t: real :: Running(s[..k]) <= Net(s, t)
  {
    if k > 0 {
      var e := s[k - 1];
      assert s[..k][..k - 1] == s[..k - 1];
      if e.1 == -1 {
        PrefixIsNet(s, k - 1);
      } else {
        assert e in s;
        assert s == s[..k] + s[k..];
        NetAppend(s[..k], s[k..], e.0);
        NetIsSum(s[..k], e.0);
        NetLater(s[k..], e.0, 1);
        assert Running(s[..k]) <= Net(s, e.0);
      }
    }
  }

  lemma EventLeSorts(s: seq<Event>)
    ensures SortedBy(EventLe, SortBy(EventLe, s))
  {
    SortBySorted(EventLe, s);
  }

  lemma {:induction false} EventsAreUnit(intervals: seq<Interval>)
    ensures UnitEvents(Events(intervals))
  {
    if intervals != [] { EventsAreUnit(intervals[..|intervals| - 1]); }
  }

  // ---- The counter -----------------------------------------------------------------

  /** The peak is the largest value of Net, or zero; for intervals that are not reversed it
      is the greatest number of intervals containing one instant. */
  ghost predicate IsPeak(intervals: seq<Interval>, peak: int) {
    && peak >= 0
    && (forall t: real :: Net(Events(intervals), t) <= peak)
    && (peak > 0 ==> exists t: real :: Net(Events(intervals), t) == peak)
  }

  method PeakOverlap(intervals: seq<Interval>) returns (peak: nat)
    ensures IsPeak(intervals, peak)
    ensures Upright(intervals) ==>
              && (forall t: real :: |InForce(intervals, t)| <= peak)
              && (peak > 0 ==> exists t: real :: |InForce(intervals, t)| == peak)
  {
    var events := CollectEvents(intervals);
    var ordered := SortBy(EventLe, events);
    peak := Sweep(ordered);
    SweepIsPeak(intervals, ordered, peak);
    if Upright(intervals) { PeakIsDepth(intervals, peak); }
  }

  lemma PeakIsDepth(intervals: seq<Interval>, peak: nat)
    requires Upright(intervals) && IsPeak(intervals, peak)
    ensures forall t: real :: Depth(intervals, t) == |InForce(intervals, t)| <= peak
    ensures peak > 0 ==> exists t: real :: Depth(intervals, t) == |InForce(intervals, t)| == peak
  {
    forall t: real ensures Net(Events(intervals), t) == Depth(intervals, t) == |InForce(intervals, t)| {
      NetIsDepth(intervals, t);
      DepthCounts(intervals, t);
    }
    if peak > 0 {
      var t: real :| Net(Events(intervals), t) == peak;
      assert Depth(intervals, t) == |InForce(intervals, t)| == peak;
    }
  }

  method CollectEvents(intervals: seq<Interval>) returns (events: seq<Event>)
    ensures events == Events(intervals)
  {
    events := [];
    for i := 0 to |intervals|
      invariant events == Events(intervals[..i])
    {
      assert intervals[..i + 1][..i] == intervals[..i];
      events := events + [(intervals[i].0, 1), (intervals[i].1, -1)];
    }
    assert intervals[..|intervals|] == intervals;
  }

  method Sweep(ordered: seq<Event>) returns (peak: nat)
    ensures forall j :: 0 <= j <= |ordered| ==> Running(ordered[..j]) <= peak
    ensures peak > 0 ==> exists j :: 0 <= j <= |ordered| && Running(ordered[..j]) == peak
  {
    var current := 0;
    peak := 0;
    for k := 0 to |ordered|
      invariant current == Running(ordered[..k])
      invariant forall j :: 0 <= j <= k ==> Running(ordered[..j]) <= peak
      invariant peak > 0 ==> exists j :: 0 <= j <= k && Running(ordered[..j]) == peak
    {
      assert ordered[..k + 1][..k] == ordered[..k];
      current := current + ordered[k].1;
      peak := if current > peak then current else peak;
    }
  }

  lemma SweepIsPeak(intervals: seq<Interval>, ordered: seq<Event>, peak: nat)
    requires ordered == SortBy(EventLe, Events(intervals))
    requires forall j :: 0 <= j <= |ordered| ==> Running(ordered[..j]) <= peak
    requires peak > 0 ==> exists j :: 0 <= j <= |ordered| && Running(ordered[..j]) == peak
    ensures IsPeak(intervals, peak)
  {
    var events := Events(intervals);
    EventLeSorts(events);
    EventsAreUnit(intervals);
    SameMembers(ordered, events);
    forall t: real ensures Net(events, t) == Net(ordered, t) <= peak {
      NetSorted(events, t);
      var k := NetIsPrefix(ordered, t);
    }
    if peak > 0 {
      var j :| 0 <= j <= |ordered| && Running(ordered[..j]) == peak;
      PrefixIsNet(ordered, j);
      var t: real :| Running(ordered[..j]) <= Net(ordered, t);
      assert Net(events, t) == peak;
    }
  }
}
