/** How free held assets are: the longest free gap of a capacity horizon
    (src/fl_op/solver/allocation/scoring.py, build_free_capacity and _largest_free_gap, with
    merge_intervals of src/fl_op/solver/restrictions.py). */
module FreeCapacity {
  import opened Ordering
  import opened Calendar

  type Id = string

  // ---- Merging -----------------------------------------------------------------------------------

  /** One turn of the merge: a span that starts at most one second after the last one ends joins
      it. */
  function Joined(merged: seq<Span>, v: Span): seq<Span> {
    if merged != [] && v.0 <= merged[|merged| - 1].1 + 1 then
      var last := merged[|merged| - 1];
      merged[..|merged| - 1] + [(last.0, if v.1 > last.1 then v.1 else last.1)]
    else merged + [v]
  }

  /** Sorted non-empty spans with gaps of at least two seconds. */
  ghost predicate Spaced(s: seq<Span>) {
    && (forall i :: 0 <= i < |s| ==> s[i].0 < s[i].1)
    && (forall i, j :: 0 <= i < j < |s| ==> s[i].1 + 1 < s[j].0)
  }

  /** merged covers what busy covers and, beyond that, only single seconds between busy ones. */
  ghost predicate Pads(merged: seq<Span>, busy: seq<Span>) {
    && (forall t :: Covers(busy, t) ==> Covers(merged, t))
    && (forall t :: Covers(merged, t) && !Covers(busy, t) ==> Covers(busy, t - 1) && Covers(busy, t + 1))
  }

  ghost predicate EndsBusy(merged: seq<Span>, busy: seq<Span>) {
    forall i :: 0 <= i < |merged| ==> Covers(busy, merged[i].1 - 1)
  }

  ghost predicate StartsBy(merged: seq<Span>, t: int) { forall i :: 0 <= i < |merged| ==> merged[i].0 <= t }

  ghost predicate JoinedSoFar(merged: seq<Span>, ordered: seq<Span>, k: nat) {
    && k <= |ordered| && Spaced(merged) && Pads(merged, ordered[..k]) && EndsBusy(merged, ordered[..k])
    && (forall j :: k <= j < |ordered| ==> StartsBy(merged, ordered[j].0))
  }

  lemma JoinedCovers(merged: seq<Span>, v: Span, t: int)
    requires merged != [] ==> merged[|merged| - 1].0 <= v.0 && merged[|merged| - 1].0 < merged[|merged| - 1].1
    ensures Covers(Joined(merged, v), t) <==>
            || Covers(merged, t) || Within(v, t)
            || (merged != [] && t == merged[|merged| - 1].1 && v.0 == t + 1 && v.1 > t)
  {
    CoversOne(v, t);
    CoversAppend(merged, [v], t);
    if merged != [] && v.0 <= merged[|merged| - 1].1 + 1 {
      var front, last := merged[..|merged| - 1], merged[|merged| - 1];
      var wide := (last.0, if v.1 > last.1 then v.1 else last.1);
      assert merged == front + [last];
      CoversAppend(front, [last], t);
      CoversAppend(front, [wide], t);
      CoversOne(last, t);
      CoversOne(wide, t);
    }
  }

  lemma JoinedPads(merged: seq<Span>, busy: seq<Span>, v: Span)
    requires Spaced(merged) && Pads(merged, busy) && EndsBusy(merged, busy) && v.0 < v.1 && StartsBy(merged, v.0)
    ensures Pads(Joined(merged, v), busy + [v])
  {
    hide Covers, Joined;
    forall t ensures Covers(busy + [v], t) <==> Covers(busy, t) || Within(v, t) {
      CoversAppend(busy, [v], t);
      CoversOne(v, t);
    }
    var next, more := Joined(merged, v), busy + [v];
    forall t | Covers(more, t) ensures Covers(next, t) { JoinedCovers(merged, v, t); }
    forall t | Covers(next, t) && !Covers(more, t) ensures Covers(more, t - 1) && Covers(more, t + 1) {
      JoinedCovers(merged, v, t);
    }
  }

  lemma JoinedShape(merged: seq<Span>, busy: seq<Span>, v: Span)
    requires Spaced(merged) && EndsBusy(merged, busy) && v.0 < v.1 && StartsBy(merged, v.0)
    ensures Spaced(Joined(merged, v)) && EndsBusy(Joined(merged, v), busy + [v]) && StartsBy(Joined(merged, v), v.0)
  {
    hide Covers;
    forall t ensures Covers(busy + [v], t) <==> Covers(busy, t) || Within(v, t) {
      CoversAppend(busy, [v], t);
      CoversOne(v, t);
    }
  }

  lemma JoinStep(merged: seq<Span>, ordered: seq<Span>, k: nat)
    requires SortedBy(SpanLe, ordered) && NonEmptySpans(ordered) && k < |ordered| && JoinedSoFar(merged, ordered, k)
    ensures JoinedSoFar(Joined(merged, ordered[k]), ordered, k + 1)
  {
    hide Covers, Joined, Pads, Spaced, EndsBusy;
    var v := ordered[k];
    assert v in ordered;
    assert ordered[..k + 1] == ordered[..k] + [v];
    JoinedPads(merged, ordered[..k], v);
    JoinedShape(merged, ordered[..k], v);
    forall j | k + 1 <= j < |ordered| ensures StartsBy(Joined(merged, v), ordered[j].0) {
      assert SpanLe(ordered[k], ordered[j]);
    }
  }

  method MergeIntervals(intervals: seq<Span>) returns (merged: seq<Span>)
    requires NonEmptySpans(intervals)
    ensures Spaced(merged) && Pads(merged, intervals)
  {
    hide Pads, Spaced, Joined, JoinedSoFar;
    var ordered := SortBy(SpanLe, intervals);
    SortBySorted(SpanLe, intervals);
    SameMembers(ordered, intervals);
    merged := [];
    NothingMerged(ordered);
    for k := 0 to |ordered|
      invariant JoinedSoFar(merged, ordered, k)
    {
      JoinStep(merged, ordered, k);
      merged := Joined(merged, ordered[k]);
    }
    AllJoined(merged, ordered, intervals);
  }

  lemma NothingMerged(ordered: seq<Span>)
    ensures JoinedSoFar([], ordered, 0)
  {
  }

  lemma AllJoined(merged: seq<Span>, ordered: seq<Span>, intervals: seq<Span>)
    requires JoinedSoFar(merged, ordered, |ordered|) && multiset(ordered) == multiset(intervals)
    ensures Spaced(merged) && Pads(merged, intervals)
  {
    hide Pads, Spaced, EndsBusy;
    assert ordered[..|ordered|] == ordered;
    PadsPermuted(merged, ordered, intervals);
  }

  lemma PadsPermuted(merged: seq<Span>, a: seq<Span>, b: seq<Span>)
    requires Pads(merged, a) && multiset(a) == multiset(b)
    ensures Pads(merged, b)
  {
    hide Covers;
    forall t ensures Covers(a, t) <==> Covers(b, t) { CoversPermuted(a, b, t); }
  }

  // ---- Gaps --------------------------------------------------------------------------------------

  /** [a, b) lies in [start, end) and no second of it is busy. */
  ghost predicate FreeRun(busy: seq<Span>, start: int, end: int, a: int, b: int) {
    start <= a < b <= end && forall t :: a <= t < b ==> !Covers(busy, t)
  }

  /** n is the length of the longest free run, 0 when there is none. */
  ghost predicate Longest(busy: seq<Span>, start: int, end: int, n: int) {
    && n >= 0 && (forall a, b :: FreeRun(busy, start, end, a, b) ==> b - a <= n)
    && (n > 0 ==> exists a, b :: FreeRun(busy, start, end, a, b) && b - a == n)
  }

  ghost predicate Inside(busy: seq<Span>, start: int, end: int) {
    forall v :: v in busy ==> start <= v.0 && v.1 <= end
  }

  /** Longest as far as the first k spans reach. */
  ghost predicate LongestUpTo(busy: seq<Span>, start: int, end: int, k: nat, cursor: int, n: int) {
    && k <= |busy| && cursor == (if k == 0 then start else busy[k - 1].1) && start <= cursor <= end
    && Longest(busy, start, cursor, n)
  }

  method LargestFreeGap(busy: seq<Span>, start: int, end: int) returns (largest: int)
    requires Spaced(busy) && Inside(busy, start, end) && start <= end
    ensures Longest(busy, start, end, largest)
  {
    hide Longest, Spaced, Inside;
    var cursor := start;
    largest := 0;
    NoRoom(busy, start);
    for k := 0 to |busy|
      invariant LongestUpTo(busy, start, end, k, cursor, largest)
    {
      GapStep(busy, start, end, k, cursor, largest);
      var gap := busy[k].0 - cursor;
      if gap > largest { largest := gap; }
      if busy[k].1 > cursor { cursor := busy[k].1; }
    }
    TailStep(busy, start, end, cursor, largest);
    var tail := end - cursor;
    if tail > largest { largest := tail; }
  }

  lemma NoRoom(busy: seq<Span>, start: int)
    ensures Longest(busy, start, start, 0)
  {
  }

  lemma Apart(busy: seq<Span>, k: nat, t: int)
    requires Spaced(busy) && k < |busy|
    ensures busy[k].0 <= t < busy[k].1 ==> Covers(busy, t)
    ensures (k == 0 || busy[k - 1].1 <= t) && t < busy[k].0 ==> !Covers(busy, t)
    ensures k == |busy| - 1 && busy[k].1 <= t ==> !Covers(busy, t)
  {
    if busy[k].0 <= t < busy[k].1 { assert Within(busy[k], t); }
    if i :| 0 <= i < |busy| && Within(busy[i], t) {
      if i < k - 1 { assert busy[i].1 + 1 < busy[k - 1].0; }
      if i < k { assert busy[i].1 + 1 < busy[k].0; }
      if k < i { assert busy[k].1 + 1 < busy[i].0; }
    }
  }

  lemma RunAvoids(busy: seq<Span>, start: int, end: int, a: int, b: int, t: int)
    requires FreeRun(busy, start, end, a, b) && Covers(busy, t)
    ensures t < a || b <= t
  {
    hide Covers;
  }

  lemma RunAvoidsSpan(busy: seq<Span>, start: int, end: int, a: int, b: int, k: nat)
    requires FreeRun(busy, start, end, a, b) && Spaced(busy) && k < |busy|
    ensures b <= busy[k].0 || busy[k].1 <= a
  {
    Apart(busy, k, if a < busy[k].0 then busy[k].0 else a);
  }

  lemma GapStep(busy: seq<Span>, start: int, end: int, k: nat, cursor: int, largest: int)
    requires Spaced(busy) && Inside(busy, start, end) && k < |busy|
    requires LongestUpTo(busy, start, end, k, cursor, largest)
    ensures cursor <= busy[k].0 < busy[k].1 <= end
    ensures LongestUpTo(busy, start, end, k + 1, busy[k].1,
                        if busy[k].0 - cursor > largest then busy[k].0 - cursor else largest)
  {
    hide Covers;
    var gap := busy[k].0 - cursor;
    assert busy[k] in busy;
    assert k > 0 ==> busy[k - 1].1 + 1 < busy[k].0;
    forall t ensures busy[k].0 <= t < busy[k].1 ==> Covers(busy, t)
             ensures cursor <= t < busy[k].0 ==> !Covers(busy, t) { Apart(busy, k, t); }
    if k > 0 { Apart(busy, k - 1, cursor - 1); }
    forall a, b | FreeRun(busy, start, busy[k].1, a, b) ensures b <= cursor || (cursor <= a && b <= busy[k].0) {
      RunAvoidsSpan(busy, start, busy[k].1, a, b, k);
      if k > 0 { RunAvoids(busy, start, busy[k].1, a, b, cursor - 1); }
    }
    forall a, b | FreeRun(busy, start, busy[k].1, a, b) && b <= cursor ensures FreeRun(busy, start, cursor, a, b) { }
    if gap > largest {
      assert FreeRun(busy, start, busy[k].1, cursor, busy[k].0);
    } else if largest > 0 {
      var a, b :| FreeRun(busy, start, cursor, a, b) && b - a == largest;
      assert FreeRun(busy, start, busy[k].1, a, b);
    }
  }

  lemma TailStep(busy: seq<Span>, start: int, end: int, cursor: int, largest: int)
    requires Spaced(busy) && Inside(busy, start, end)
    requires LongestUpTo(busy, start, end, |busy|, cursor, largest)
    ensures Longest(busy, start, end, if end - cursor > largest then end - cursor else largest)
  {
    hide Covers;
    var n := |busy|;
    forall t ensures cursor <= t ==> !Covers(busy, t) {
      if n > 0 { Apart(busy, n - 1, t); } else { NothingCovers(busy, t); }
    }
    if n > 0 { assert busy[n - 1] in busy; Apart(busy, n - 1, cursor - 1); }
    forall a, b | FreeRun(busy, start, end, a, b) ensures b <= cursor || cursor <= a {
      if n > 0 { RunAvoids(busy, start, end, a, b, cursor - 1); }
    }
    forall a, b | FreeRun(busy, start, end, a, b) && b <= cursor ensures FreeRun(busy, start, cursor, a, b) { }
    if end - cursor > largest {
      assert FreeRun(busy, start, end, cursor, end);
    } else if largest > 0 {
      var a, b :| FreeRun(busy, start, cursor, a, b) && b - a == largest;
      assert FreeRun(busy, start, end, a, b);
    }
  }

  lemma NothingCovers(none: seq<Span>, t: int)
    requires none == []
    ensures !Covers(none, t)
  {
  }

  // ---- What merging does to the longest gap --------------------------------------------------------

  /** Merging closes single free seconds between busy ones: the gap found is the longest free run,
      except that it is 0 where the longest runs are single seconds and both ends of the horizon
      are busy. */
  lemma GapIsLongest(merged: seq<Span>, busy: seq<Span>, start: int, end: int, largest: int, n: int)
    requires Spaced(merged) && Pads(merged, busy) && Inside(busy, start, end)
    requires Longest(merged, start, end, largest) && Longest(busy, start, end, n)
    ensures largest == if n == 1 && Covers(busy, start) && Covers(busy, end - 1) then 0 else n
  {
    hide Covers;
    forall a, b | FreeRun(merged, start, end, a, b) ensures FreeRun(busy, start, end, a, b) { }
    forall a, b | FreeRun(busy, start, end, a, b) && b - a >= 2 ensures FreeRun(merged, start, end, a, b) {
      WideRunStays(merged, busy, start, end, a, b);
    }
    if n >= 2 {
      var a, b :| FreeRun(busy, start, end, a, b) && b - a == n;
      assert FreeRun(merged, start, end, a, b);
    } else if n == 1 {
      var a, b :| FreeRun(busy, start, end, a, b) && b - a == 1;
      if !Covers(busy, start) { EdgeStays(merged, busy, start, end, start); }
      if !Covers(busy, end - 1) { EdgeStays(merged, busy, start, end, end - 1); }
      if Covers(busy, start) && Covers(busy, end - 1) && largest == 1 {
        var c, d :| FreeRun(merged, start, end, c, d) && d - c == 1;
        LoneSecond(merged, start, end, c);
        SingleIsClosed(merged, c);
      }
    }
  }

  lemma WideRunStays(merged: seq<Span>, busy: seq<Span>, start: int, end: int, a: int, b: int)
    requires Pads(merged, busy) && FreeRun(busy, start, end, a, b) && b - a >= 2
    ensures FreeRun(merged, start, end, a, b)
  {
    hide Covers;
    forall t | a <= t < b ensures !Covers(merged, t) {
      assert !Covers(busy, t) && !Covers(busy, if t > a then t - 1 else t + 1);
    }
  }

  /** A free second at an end of the horizon stays free. */
  lemma EdgeStays(merged: seq<Span>, busy: seq<Span>, start: int, end: int, t: int)
    requires Pads(merged, busy) && Inside(busy, start, end) && start < end && (t == start || t == end - 1)
    requires !Covers(busy, t)
    ensures FreeRun(merged, start, end, t, t + 1)
  {
    assert !Covers(busy, start - 1) && !Covers(busy, end);
  }

  lemma LoneSecond(merged: seq<Span>, start: int, end: int, c: int)
    requires Longest(merged, start, end, 1) && FreeRun(merged, start, end, c, c + 1)
    requires Covers(merged, start) && Covers(merged, end - 1)
    ensures Covers(merged, c - 1) && Covers(merged, c + 1)
  {
    hide Covers;
    assert !Covers(merged, c);
    if !Covers(merged, c - 1) { WiderRun(merged, start, end, c, c - 1); }
    if !Covers(merged, c + 1) { WiderRun(merged, start, end, c, c + 1); }
  }

  lemma WiderRun(merged: seq<Span>, start: int, end: int, c: int, d: int)
    requires FreeRun(merged, start, end, c, c + 1) && !Covers(merged, d) && start <= d < end
    requires d == c - 1 || d == c + 1
    ensures exists a, b :: FreeRun(merged, start, end, a, b) && b - a == 2
  {
    hide Covers;
    if d < c {
      assert FreeRun(merged, start, end, d, c + 1);
    } else {
      assert FreeRun(merged, start, end, c, d + 1);
    }
  }

  /** In a spaced list no free second stands alone between two covered ones. */
  lemma SingleIsClosed(merged: seq<Span>, c: int)
    requires Spaced(merged) && Covers(merged, c - 1) && Covers(merged, c + 1)
    ensures Covers(merged, c)
  {
    var i :| 0 <= i < |merged| && Within(merged[i], c - 1);
    var j :| 0 <= j < |merged| && Within(merged[j], c + 1);
    assert i == j;
    assert Within(merged[i], c);
  }

  lemma SomeLongest(merged: seq<Span>, busy: seq<Span>, start: int, end: int, largest: int) returns (n: int)
    requires Pads(merged, busy) && Longest(merged, start, end, largest)
    ensures Longest(busy, start, end, n)
  {
    hide Covers;
    forall a, b | FreeRun(merged, start, end, a, b) ensures FreeRun(busy, start, end, a, b) { }
    forall a, b | FreeRun(busy, start, end, a, b) && b - a >= 2 ensures FreeRun(merged, start, end, a, b) {
      WideRunStays(merged, busy, start, end, a, b);
    }
    n := largest;
    if largest == 0 && exists a, b :: FreeRun(busy, start, end, a, b) { n := 1; }
  }

  // ---- build_free_capacity -----------------------------------------------------------------------------

  /** The windows as far as they lie in [start, end). */
  function Clamped(windows: seq<Span>, start: int, end: int): (r: seq<Span>)
    ensures NonEmptySpans(r) && Inside(r, start, end)
  {
    if windows == [] then []
    else
      var last := windows[|windows| - 1];
      var v := (if last.0 > start then last.0 else start, if last.1 < end then last.1 else end);
      Clamped(windows[..|windows| - 1], start, end) + (if v.1 > v.0 then [v] else [])
  }

  lemma {:induction false} ClampedCovers(windows: seq<Span>, start: int, end: int, t: int)
    ensures Covers(Clamped(windows, start, end), t) <==> start <= t < end && Covers(windows, t)
  {
    if windows == [] {
      NothingCovers(windows, t);
    } else {
      var front, last := windows[..|windows| - 1], windows[|windows| - 1];
      var v := (if last.0 > start then last.0 else start, if last.1 < end then last.1 else end);
      ClampedCovers(front, start, end, t);
      CoversAppend(front, [last], t);
      CoversOne(last, t);
      CoversAppend(Clamped(front, start, end), [v], t);
      CoversOne(v, t);
      assert windows == front + [last];
      assert Clamped(front, start, end) + [] == Clamped(front, start, end);
    }
  }

  /** The gap a free run of length n is counted as. */
  ghost function Counted(windows: seq<Span>, start: int, end: int, n: int): int {
    if n == 1 && Covers(windows, start) && Covers(windows, end - 1) then 0 else n
  }

  /** c is the share of the longest free run in the horizon; single seconds between busy windows
      count only where one of them lies at an end of the horizon. */
  ghost predicate IsCapacity(windows: seq<Span>, start: int, end: int, c: real) {
    && 0.0 <= c <= 1.0
    && exists n :: Longest(windows, start, end, n)
                   && c * (end - start) as real == Counted(windows, start, end, n) as real
  }

  method BuildFreeCapacity(held: map<Id, seq<Span>>, now: int, horizon: int) returns (capacity: map<Id, real>)
    requires horizon > 0
    ensures capacity.Keys == held.Keys
    ensures forall id :: id in held ==> IsCapacity(held[id], now, now + horizon, capacity[id])
  {
    hide IsCapacity;
    capacity := map[];
    var todo := held.Keys;
    while todo != {}
      invariant todo <= held.Keys && capacity.Keys == held.Keys - todo
      invariant forall id :: id in capacity ==> IsCapacity(held[id], now, now + horizon, capacity[id])
      decreases |todo|
    {
      var id :| id in todo;
      var c := CapacityOf(held[id], now, horizon);
      capacity, todo := capacity[id := c], todo - {id};
    }
  }

  method CapacityOf(windows: seq<Span>, now: int, horizon: int) returns (c: real)
    requires horizon > 0
    ensures IsCapacity(windows, now, now + horizon, c)
  {
    hide Longest, Pads, Covers, Spaced, Inside, Counted, Clamped, IsCapacity;
    var busy := MergeIntervals(Clamped(windows, now, now + horizon));
    assert Inside(busy, now, now + horizon) by { PadsInside(busy, Clamped(windows, now, now + horizon), now, now + horizon); }
    var gap := LargestFreeGap(busy, now, now + horizon);
    ghost var n := GapCounts(busy, windows, now, now + horizon, gap);
    var share := gap as real / horizon as real;
    c := if share > 1.0 then 1.0 else share;
    if c < 0.0 { c := 0.0; }
    ShareInUnit(gap, horizon);
    CapacityIs(windows, now, now + horizon, c, n);
  }

  lemma CapacityIs(windows: seq<Span>, start: int, end: int, c: real, n: int)
    requires 0.0 <= c <= 1.0 && Longest(windows, start, end, n)
    requires c * (end - start) as real == Counted(windows, start, end, n) as real
    ensures IsCapacity(windows, start, end, c)
  {
  }

  lemma ShareInUnit(gap: int, horizon: int)
    requires 0 <= gap <= horizon && horizon > 0
    ensures 0.0 <= gap as real / horizon as real <= 1.0
    ensures gap as real / horizon as real * horizon as real == gap as real
  {
  }

  lemma PadsInside(merged: seq<Span>, busy: seq<Span>, start: int, end: int)
    requires Spaced(merged) && Pads(merged, busy) && Inside(busy, start, end)
    ensures Inside(merged, start, end)
  {
    forall t | Covers(busy, t) ensures start <= t < end {
      var i :| 0 <= i < |busy| && Within(busy[i], t);
      assert busy[i] in busy;
    }
    forall t | Covers(merged, t) ensures start <= t < end {
      assert Covers(busy, t) || (Covers(busy, t - 1) && Covers(busy, t + 1));
    }
    forall i | 0 <= i < |merged| ensures start <= merged[i].0 && merged[i].1 <= end {
      assert Within(merged[i], merged[i].0) && Within(merged[i], merged[i].1 - 1);
      assert Covers(merged, merged[i].0) && Covers(merged, merged[i].1 - 1);
    }
  }

  lemma GapCounts(merged: seq<Span>, windows: seq<Span>, start: int, end: int, gap: int) returns (n: int)
    requires start < end && Spaced(merged) && Pads(merged, Clamped(windows, start, end))
    requires Longest(merged, start, end, gap)
    ensures Longest(windows, start, end, n) && gap == Counted(windows, start, end, n) && 0 <= gap <= end - start
  {
    hide Covers, Pads, Spaced, Inside;
    var busy := Clamped(windows, start, end);
    n := SomeLongest(merged, busy, start, end, gap);
    GapIsLongest(merged, busy, start, end, gap, n);
    forall t ensures Covers(busy, t) <==> start <= t < end && Covers(windows, t) { ClampedCovers(windows, start, end, t); }
    forall a, b ensures FreeRun(busy, start, end, a, b) <==> FreeRun(windows, start, end, a, b) {
      SameRuns(busy, windows, start, end, a, b);
    }
    if gap > 0 { var a, b :| FreeRun(merged, start, end, a, b) && b - a == gap; }
  }

  lemma SameRuns(busy: seq<Span>, windows: seq<Span>, start: int, end: int, a: int, b: int)
    requires forall t :: Covers(busy, t) <==> start <= t < end && Covers(windows, t)
    ensures FreeRun(busy, start, end, a, b) <==> FreeRun(windows, start, end, a, b)
  {
    hide Covers;
  }

  /** A capacity of zero means that nothing is free, or that only single seconds inside the
      horizon are. */
  lemma ZeroCapacityIff(windows: seq<Span>, start: int, end: int, c: real)
    requires start < end && IsCapacity(windows, start, end, c)
    ensures c == 0.0 <==> Covers(windows, start) && Covers(windows, end - 1)
                          && forall a, b :: FreeRun(windows, start, end, a, b) ==> b - a == 1
  {
    hide Covers;
    var n :| Longest(windows, start, end, n) && c * (end - start) as real == Counted(windows, start, end, n) as real;
    if !Covers(windows, start) { assert FreeRun(windows, start, end, start, start + 1); }
    if !Covers(windows, end - 1) { assert FreeRun(windows, start, end, end - 1, end); }
  }

  /** For instance: the second between two windows is free, and the capacity is zero. */
  lemma LoneSecondIsLost(c: real)
    requires IsCapacity([(0, 5), (6, 10)], 0, 10, c)
    ensures !Covers([(0, 5), (6, 10)], 5) && c == 0.0
  {
    var windows: seq<Span> := [(0, 5), (6, 10)];
    forall t | 0 <= t < 10 ensures Covers(windows, t) <==> t != 5 {
      if t < 5 { assert Within(windows[0], t); }
      if t > 5 { assert Within(windows[1], t); }
    }
    hide Covers;
    forall a, b | FreeRun(windows, 0, 10, a, b) ensures b - a == 1 {
      assert !Covers(windows, a) && !Covers(windows, b - 1);
    }
    ZeroCapacityIff(windows, 0, 10, c);
  }
}
