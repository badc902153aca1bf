/** Half-open epoch-second spans and merged busy calendars
    (src/fl_op/solver/enforcement.py, _merge_busy and _intervals_overlap). */
module Calendar {
  import opened Ordering

  type Span = (int, int)

  predicate Within(v: Span, t: int) { v.0 <= t < v.1 }

  /** The instants a list of spans denotes. */
  ghost predicate Covers(s: seq<Span>, t: int) {
    exists i :: 0 <= i < |s| && Within(s[i], t)
  }

  ghost predicate NonEmptySpans(s: seq<Span>) {
    forall v :: v in s ==> v.0 < v.1
  }

  predicate Meet(a: Span, b: Span) { a.0 < b.1 && b.0 < a.1 }

  ghost predicate Overlap(left: seq<Span>, right: seq<Span>) {
    exists i, j :: 0 <= i < |left| && 0 <= j < |right| && Meet(left[i], right[j])
  }

  /** The overlap test is intersection of the denoted instants. */
  lemma OverlapIsSharedInstant(left: seq<Span>, right: seq<Span>)
    requires NonEmptySpans(left) && NonEmptySpans(right)
    ensures Overlap(left, right) <==> exists t :: Covers(left, t) && Covers(right, t)
  {
    if Overlap(left, right) {
      var i, j :| 0 <= i < |left| && 0 <= j < |right| && Meet(left[i], right[j]);
      var t := if left[i].0 >= right[j].0 then left[i].0 else right[j].0;
      assert left[i] in left && right[j] in right;
      assert Within(left[i], t) && Within(right[j], t);
      assert Covers(left, t) && Covers(right, t);
    }
    if t :| Covers(left, t) && Covers(right, t) {
      var i :| 0 <= i < |left| && Within(left[i], t);
      var j :| 0 <= j < |right| && Within(right[j], t);
      assert Meet(left[i], right[j]);
    }
  }

  method IntervalsOverlap(left: seq<Span>, right: seq<Span>) returns (b: bool)
    ensures b <==> Overlap(left, right)
  {
    for i := 0 to |left|
      invariant forall p, q :: 0 <= p < i && 0 <= q < |right| ==> !Meet(left[p], right[q])
    {
      for j := 0 to |right|
        invariant forall q :: 0 <= q < j ==> !Meet(left[i], right[q])
      {
        if Meet(left[i], right[j]) { return true; }
      }
    }
    return false;
  }

  // ---- _merge_busy -------------------------------------------------------------------------

  predicate SpanLe(a: Span, b: Span) { a.0 < b.0 || (a.0 == b.0 && a.1 <= b.1) }

  /** Sorted, separated, non-empty spans: the normal form of a set of instants. */
  ghost predicate Canonical(s: seq<Span>) {
    && (forall i :: 0 <= i < |s| ==> s[i].0 < s[i].1)
    && (forall i, j :: 0 <= i < j < |s| ==> s[i].1 < s[j].0)
  }

  lemma CoversAppend(a: seq<Span>, b: seq<Span>, t: int)
    ensures Covers(a + b, t) <==> Covers(a, t) || Covers(b, t)
  {
    if Covers(a, t) {
      var i :| 0 <= i < |a| && Within(a[i], t);
      assert (a + b)[i] == a[i];
    }
    if Covers(b, t) {
      var i :| 0 <= i < |b| && Within(b[i], t);
      assert (a + b)[|a| + i] == b[i];
    }
    if Covers(a + b, t) {
      var i :| 0 <= i < |a + b| && Within((a + b)[i], t);
      if i < |a| { assert Within(a[i], t); } else { assert Within(b[i - |a|], t); }
    }
  }

  lemma CoversOne(v: Span, t: int)
    ensures Covers([v], t) <==> Within(v, t)
  {
    if Within(v, t) { assert Within([v][0], t); }
  }

  lemma CoversPermuted(a: seq<Span>, b: seq<Span>, t: int)
    requires multiset(a) == multiset(b)
    ensures Covers(a, t) <==> Covers(b, t)
  {
    SameMembers(a, b);
    if Covers(a, t) {
      var i :| 0 <= i < |a| && Within(a[i], t);
      var j :| 0 <= j < |b| && b[j] == a[i];
    }
    if Covers(b, t) {
      var i :| 0 <= i < |b| && Within(b[i], t);
      var j :| 0 <= j < |a| && a[j] == b[i];
    }
  }

  /** One turn of the merge: extend the last span or open a new one. */
  function MergeInto(merged: seq<Span>, v: Span): seq<Span> {
    if merged != [] && v.0 <= merged[|merged| - 1].1 then
      var last := merged[|merged| - 1];
      merged[..|merged| - 1] + [(last.0, if v.1 > last.1 then v.1 else last.1)]
    else merged + [v]
  }

  lemma MergeIntoCovers(merged: seq<Span>, v: Span, t: int)
    requires merged != [] ==> merged[|merged| - 1].0 <= v.0
    ensures Covers(MergeInto(merged, v), t) <==> Covers(merged, t) || Within(v, t)
  {
    CoversOne(v, t);
    CoversAppend(merged, [v], t);
    if merged != [] && v.0 <= merged[|merged| - 1].1 {
      var front, last := merged[..|merged| - 1], merged[|merged| - 1];
      var wide := (last.0, if v.1 > last.1 then v.1 else last.1);
      assert merged == front + [last];
      CoversAppend(front, [last], t);
      CoversAppend(front, [wide], t);
      CoversOne(last, t);
      CoversOne(wide, t);
    }
  }

  lemma MergeIntoCanonical(merged: seq<Span>, v: Span)
    requires Canonical(merged) && v.0 < v.1
    requires forall i :: 0 <= i < |merged| ==> merged[i].0 <= v.0
    ensures Canonical(MergeInto(merged, v))
    ensures forall i :: 0 <= i < |MergeInto(merged, v)| ==> MergeInto(merged, v)[i].0 <= v.0
  {
  }

  /** merged denotes the first k spans of the sorted list and precedes the rest. */
  ghost predicate MergedSoFar(merged: seq<Span>, ordered: seq<Span>, k: nat) {
    && k <= |ordered|
    && (forall t :: Covers(merged, t) <==> Covers(ordered[..k], t))
    && (NonEmptySpans(ordered) ==> Canonical(merged))
    && (forall i, j :: 0 <= i < |merged| && k <= j < |ordered| ==> merged[i].0 <= ordered[j].0)
  }

  lemma MergeStep(merged: seq<Span>, ordered: seq<Span>, k: nat)
    requires SortedBy(SpanLe, ordered) && k < |ordered| && MergedSoFar(merged, ordered, k)
    ensures MergedSoFar(MergeInto(merged, ordered[k]), ordered, k + 1)
  {
    hide Covers, Canonical;
    var v, next := ordered[k], MergeInto(merged, ordered[k]);
    assert v in ordered;
    assert ordered[..k + 1] == ordered[..k] + [v];
    forall t ensures Covers(next, t) <==> Covers(ordered[..k + 1], t) {
      MergeIntoCovers(merged, v, t);
      CoversAppend(ordered[..k], [v], t);
      CoversOne(v, t);
    }
    if NonEmptySpans(ordered) { MergeIntoCanonical(merged, v); }
    forall i, j | 0 <= i < |next| && k + 1 <= j < |ordered| ensures next[i].0 <= ordered[j].0 {
      assert SpanLe(ordered[k], ordered[j]);
    }
  }

  method MergeBusy(intervals: seq<Span>) returns (merged: seq<Span>)
    ensures forall t :: Covers(merged, t) <==> Covers(intervals, t)
    ensures NonEmptySpans(intervals) ==> Canonical(merged)
  {
    var ordered := SortBy(SpanLe, intervals);
    SortBySorted(SpanLe, intervals);
    merged := [];
    for k := 0 to |ordered|
      invariant MergedSoFar(merged, ordered, k)
    {
      MergeStep(merged, ordered, k);
      merged := MergeInto(merged, ordered[k]);
    }
    MergeDone(merged, ordered, intervals);
  }

  lemma MergeDone(merged: seq<Span>, ordered: seq<Span>, intervals: seq<Span>)
    requires MergedSoFar(merged, ordered, |ordered|) && multiset(ordered) == multiset(intervals)
    ensures forall t :: Covers(merged, t) <==> Covers(intervals, t)
    ensures NonEmptySpans(intervals) ==> Canonical(merged)
  {
    hide Covers;
    assert ordered[..|ordered|] == ordered;
    SameMembers(ordered, intervals);
    forall t ensures Covers(ordered, t) <==> Covers(intervals, t) { CoversPermuted(ordered, intervals, t); }
  }

  // ---- The normal form is unique -----------------------------------------------------------

  /** Two canonical calendars denoting the same instants are the same list. */
  lemma {:induction false} CanonicalUnique(a: seq<Span>, b: seq<Span>)
    requires Canonical(a) && Canonical(b) && forall t :: Covers(a, t) <==> Covers(b, t)
    ensures a == b
  {
    if a == [] || b == [] {
      if a != [] { FirstCovers(a, a[0].0); }
      if b != [] { FirstCovers(b, b[0].0); }
    } else {
      FirstSpan(a, b);
      FirstSpan(b, a);
      assert a[0] == b[0];
      forall t ensures Covers(a[1..], t) <==> Covers(b[1..], t) {
        assert a == [a[0]] + a[1..] && b == [b[0]] + b[1..];
        CoversAppend([a[0]], a[1..], t);
        CoversAppend([b[0]], b[1..], t);
        CoversOne(a[0], t);
        TailIsLater(a, t);
        TailIsLater(b, t);
      }
      CanonicalUnique(a[1..], b[1..]);
      assert a == [a[0]] + a[1..] && b == [b[0]] + b[1..];
    }
  }

  lemma TailIsLater(a: seq<Span>, t: int)
    requires Canonical(a) && a != []
    ensures Covers(a[1..], t) ==> !Within(a[0], t)
  {
    if i :| 0 <= i < |a[1..]| && Within(a[1..][i], t) { assert a[1..][i] == a[i + 1]; }
  }

  lemma FirstCovers(a: seq<Span>, t: int)
    requires a != []
    ensures Within(a[0], t) ==> Covers(a, t)
  {
  }

  /** The instant at which the first span ends is free. */
  lemma EndIsFree(b: seq<Span>)
    requires Canonical(b) && b != []
    ensures !Covers(b, b[0].1)
  {
    forall j | 0 <= j < |b| ensures !Within(b[j], b[0].1) {
      assert j > 0 ==> b[0].1 < b[j].0;
    }
  }

  lemma FirstSpan(a: seq<Span>, b: seq<Span>)
    requires Canonical(a) && Canonical(b) && a != [] && b != []
    requires forall t :: Covers(a, t) <==> Covers(b, t)
    ensures a[0].0 >= b[0].0
    ensures a[0].0 == b[0].0 ==> a[0].1 <= b[0].1
  {
    assert Within(a[0], a[0].0) && Covers(a, a[0].0);
    var i :| 0 <= i < |b| && Within(b[i], a[0].0);
    assert i > 0 ==> b[0].1 < b[i].0;
    EndIsFree(b);
    FirstCovers(a, b[0].1);
  }
}
