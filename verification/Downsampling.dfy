/** Retention and downsampling of one observation series
    (src/fl_op/snapshot/assessment.py, _retained and _window_representative). */
module Downsampling {
  import opened Wrappers
  import opened Ordering
  import opened Sums

  /** Aggregates of the window a reading stands for. */
  datatype Window = Window(min: real, mean: real, max: real, n: nat)

  datatype Observation = Observation(id: string, entity: string, metric: string, at: Option<real>, value: Option<real>,
                                     flagFactor: real, sourceRef: string, confidence: Option<real>,
                                     window: Option<Window>)

  type Series = seq<Observation>

  /** The epoch second of year 1, where readings without a timestamp sort. */
  const EARLIEST := -62135596800.0

  function Ts(o: Observation): real { if o.at.Some? then o.at.value else EARLIEST }

  const RETENTION_S := 14.0 * 24.0 * 3600.0

  ghost predicate ByTime(s: Series) { forall i, j :: 0 <= i < j < |s| ==> Ts(s[i]) <= Ts(s[j]) }

  // ---- Windows ------------------------------------------------------------------------------------------

  /** The number of the window a reading falls into; the last window takes its right end too. */
  function Bucket(start: real, width: real, limit: nat, o: Observation): int
    requires width > 0.0 && limit > 0
  {
    var b := ((Ts(o) - start) / width).Floor;
    if b < limit - 1 then b else limit - 1
  }

  lemma BucketInRange(start: real, width: real, limit: nat, o: Observation)
    requires width > 0.0 && limit > 0 && start <= Ts(o)
    ensures 0 <= Bucket(start, width, limit, o) < limit
  {
    var q := (Ts(o) - start) / width;
    QuotientOrder(0.0, Ts(o) - start, width);
    assert q >= 0.0 && q.Floor >= 0;
  }

  lemma QuotientOrder(a: real, b: real, w: real)
    requires a <= b && w > 0.0
    ensures a / w <= b / w
  {
    var d := b / w - a / w;
    assert d * w == b - a;
    SignOfFactor(d, w);
  }

  lemma SignOfFactor(d: real, w: real)
    requires w > 0.0 && d * w >= 0.0
    ensures d >= 0.0
  {
  }

  /** Later windows hold later readings. */
  lemma BucketsFollowTime(start: real, width: real, limit: nat, a: Observation, b: Observation)
    requires width > 0.0 && limit > 0
    requires Bucket(start, width, limit, a) < Bucket(start, width, limit, b)
    ensures Ts(a) < Ts(b)
  {
    if Ts(b) <= Ts(a) { QuotientOrder(Ts(b) - start, Ts(a) - start, width); }
  }

  /** The readings of one window, in series order. */
  function InBucket(s: Series, start: real, width: real, limit: nat, b: int): Series
    requires width > 0.0 && limit > 0
  {
    if s == [] then []
    else
      var front, last := s[..|s| - 1], s[|s| - 1];
      InBucket(front, start, width, limit, b) + (if Bucket(start, width, limit, last) == b then [last] else [])
  }

  lemma {:induction false} InBucketMembers(s: Series, start: real, width: real, limit: nat, b: int, o: Observation)
    requires width > 0.0 && limit > 0
    ensures o in InBucket(s, start, width, limit, b) <==> o in s && Bucket(start, width, limit, o) == b
  {
    hide Bucket;
    if s != [] {
      var front, last := s[..|s| - 1], s[|s| - 1];
      InBucketMembers(front, start, width, limit, b, o);
      assert s == front + [last];
    }
  }

  // ---- Representatives ------------------------------------------------------------------------------------

  function Values(w: Series): seq<real> {
    if w == [] then []
    else
      var last := w[|w| - 1];
      Values(w[..|w| - 1]) + (if last.value.Some? then [last.value.value] else [])
  }

  lemma {:induction false} ValuesMembers(w: Series, v: real)
    ensures v in Values(w) <==> exists o :: o in w && o.value == Some(v)
  {
    if w != [] {
      var front, last := w[..|w| - 1], w[|w| - 1];
      ValuesMembers(front, v);
      assert forall o :: o in w <==> o in front || o == last;
    }
  }

  /** Every value counts as often as it was read. */
  lemma {:induction false} ValuesJoin(a: Series, b: Series)
    ensures Values(a + b) == Values(a) + Values(b)
  {
    if b == [] {
      assert a + b == a;
    } else {
      ValuesJoin(a, b[..|b| - 1]);
      assert (a + b)[..|a + b| - 1] == a + b[..|b| - 1];
    }
  }

  ghost predicate Extremes(v: seq<real>, lo: real, hi: real) {
    lo in v && hi in v && forall x :: x in v ==> lo <= x <= hi
  }

  method MinMax(v: seq<real>) returns (lo: real, hi: real)
    requires v != []
    ensures Extremes(v, lo, hi)
  {
    lo, hi := v[0], v[0];
    for k := 1 to |v|
      invariant Extremes(v[..k], lo, hi)
    {
      assert v[..k + 1] == v[..k] + [v[k]];
      if v[k] < lo { lo := v[k]; }
      if v[k] > hi { hi := v[k]; }
    }
    assert v[..|v|] == v;
  }

  /** r stands for window w: it is the last reading, with the window's extremes, mean and size
      when there is a value at all. */
  ghost predicate Represents(r: Observation, w: Series) {
    && w != [] && r == w[|w| - 1].(window := r.window)
    && (if Values(w) == [] then r.window == w[|w| - 1].window
        else r.window.Some? && Extremes(Values(w), r.window.value.min, r.window.value.max)
             && r.window.value.mean * |Values(w)| as real == Sum(Values(w)) && r.window.value.n == |w|)
  }

  method WindowRepresentative(w: Series) returns (r: Observation)
    requires w != []
    ensures Represents(r, w)
  {
    hide Sum;
    r := w[|w| - 1];
    var values := Values(w);
    if |values| == 0 { return; }
    var lo, hi := MinMax(values);
    var total := SumOf(values);
    r := r.(window := Some(Window(lo, total / |values| as real, hi, |w|)));
  }

  method SumOf(v: seq<real>) returns (total: real)
    ensures total == Sum(v)
  {
    total := 0.0;
    for k := 0 to |v|
      invariant total == Sum(v[..k])
    {
      assert v[..k + 1][..k] == v[..k];
      total := total + v[k];
    }
    assert v[..|v|] == v;
  }

  /** The readings of a window, none left out, none twice. */
  lemma {:induction false} InBucketFilters(s: Series, start: real, width: real, limit: nat, b: int)
    requires width > 0.0 && limit > 0
    ensures InBucket(s, start, width, limit, b) == Filter((o: Observation) => Bucket(start, width, limit, o) == b, s)
  {
    hide Bucket;
    if s != [] {
      var front, last := s[..|s| - 1], s[|s| - 1];
      InBucketFilters(front, start, width, limit, b);
      FilterLast((o: Observation) => Bucket(start, width, limit, o) == b, front, last);
      assert s == front + [last];
    }
  }

  /** Window b begins b widths after the start and lasts one width; the last one has no end. */
  lemma BucketMeans(start: real, width: real, limit: nat, o: Observation)
    requires width > 0.0 && limit > 0 && start <= Ts(o)
    ensures var b := Bucket(start, width, limit, o);
            && 0 <= b < limit && start + b as real * width <= Ts(o)
            && (b < limit - 1 ==> Ts(o) < start + (b + 1) as real * width)
  {
    BucketInRange(start, width, limit, o);
    var b := Bucket(start, width, limit, o);
    Share(Ts(o) - start, width, b);
  }

  lemma Share(d: real, width: real, b: int)
    requires width > 0.0 && b <= (d / width).Floor
    ensures b as real * width <= d
    ensures b == (d / width).Floor ==> d < (b + 1) as real * width
  {
    var q := d / width;
    assert q * width == d;
    if b as real < q { Widen(b as real, q, width); }
    if b == q.Floor { WidenedTo(d, q, (b + 1) as real, width); }
  }

  lemma WidenedTo(d: real, q: real, next: real, width: real)
    requires q < next && width > 0.0 && q * width == d
    ensures d < next * width
  {
    Widen(q, next, width);
  }

  lemma Widen(x: real, y: real, width: real)
    requires x < y && width > 0.0
    ensures x * width < y * width
  {
    assert (y - x) * width > 0.0;
  }

  // ---- What downsampling keeps --------------------------------------------------------------------------------

  /** rows[k] represents window from[k]. */
  ghost predicate RowAt(s: Series, start: real, width: real, limit: nat, rows: Series, from: seq<int>, k: int)
    requires width > 0.0 && limit > 0
  {
    0 <= k < |rows| && k < |from| ==> Represents(rows[k], InBucket(s, start, width, limit, from[k]))
  }

  /** rows[k] represents the kth non-empty window; from[k] is that window's number. */
  ghost predicate Downsampled(s: Series, start: real, width: real, limit: nat, n: int, rows: Series, from: seq<int>)
    requires width > 0.0 && limit > 0
  {
    && |from| == |rows|
    && (forall k :: 0 <= k < |from| ==> 0 <= from[k] < n)
    && (forall k {:trigger RowAt(s, start, width, limit, rows, from, k)} :: RowAt(s, start, width, limit, rows, from, k))
    && (forall i, j :: 0 <= i < j < |from| ==> from[i] < from[j])
    && (forall o :: o in s && Bucket(start, width, limit, o) < n ==> Bucket(start, width, limit, o) in from)
  }

  method Downsample(s: Series, start: real, width: real, limit: nat) returns (rows: Series, ghost from: seq<int>)
    requires width > 0.0 && limit > 0 && forall o :: o in s ==> start <= Ts(o)
    ensures Downsampled(s, start, width, limit, limit, rows, from)
    ensures |rows| <= limit
  {
    hide Bucket, InBucket, Represents;
    var perWindow: map<int, Series> := map[];
    forall b ensures InBucket(s[..0], start, width, limit, b) == [] { EmptyBucket(s[..0], start, width, limit, b); }
    for k := 0 to |s|
      invariant forall b :: (if b in perWindow then perWindow[b] else []) == InBucket(s[..k], start, width, limit, b)
      invariant forall b :: b in perWindow ==> perWindow[b] != []
    {
      var b := Bucket(start, width, limit, s[k]);
      forall c ensures InBucket(s[..k + 1], start, width, limit, c)
                       == InBucket(s[..k], start, width, limit, c) + (if b == c then [s[k]] else [])
      {
        BucketNext(s, start, width, limit, c, k);
      }
      perWindow := perWindow[b := (if b in perWindow then perWindow[b] else []) + [s[k]]];
    }
    assert s[..|s|] == s;
    rows, from := [], [];
    NoWindows(s, start, width, limit);
    for b := 0 to limit
      invariant Downsampled(s, start, width, limit, b, rows, from)
    {
      if b in perWindow {
        var r := WindowRepresentative(perWindow[b]);
        WindowNext(s, start, width, limit, b, rows, from, r);
        rows, from := rows + [r], from + [b];
      } else {
        WindowEmpty(s, start, width, limit, b, rows, from);
      }
    }
    RowsBounded(from, limit);
  }

  lemma EmptyBucket(none: Series, start: real, width: real, limit: nat, b: int)
    requires width > 0.0 && limit > 0 && none == []
    ensures InBucket(none, start, width, limit, b) == []
  {
  }

  lemma BucketNext(s: Series, start: real, width: real, limit: nat, b: int, k: nat)
    requires width > 0.0 && limit > 0 && k < |s|
    ensures InBucket(s[..k + 1], start, width, limit, b)
            == InBucket(s[..k], start, width, limit, b) + (if Bucket(start, width, limit, s[k]) == b then [s[k]] else [])
  {
    assert s[..k + 1][..k] == s[..k] && s[..k + 1][k] == s[k];
  }

  lemma NoWindows(s: Series, start: real, width: real, limit: nat)
    requires width > 0.0 && limit > 0 && forall o :: o in s ==> start <= Ts(o)
    ensures Downsampled(s, start, width, limit, 0, [], [])
  {
    forall o | o in s ensures Bucket(start, width, limit, o) >= 0 { BucketInRange(start, width, limit, o); }
  }

  lemma WindowNext(s: Series, start: real, width: real, limit: nat, b: int, rows: Series, from: seq<int>, r: Observation)
    requires width > 0.0 && limit > 0 && 0 <= b && Downsampled(s, start, width, limit, b, rows, from)
    requires Represents(r, InBucket(s, start, width, limit, b))
    ensures Downsampled(s, start, width, limit, b + 1, rows + [r], from + [b])
  {
    hide Bucket, InBucket, Represents;
    var more := from + [b];
    var all := rows + [r];
    assert more[|from|] == b && forall k :: 0 <= k < |from| ==> more[k] == from[k];
    assert forall x :: x in from ==> x in more;
    forall k {:trigger RowAt(s, start, width, limit, all, more, k)} ensures RowAt(s, start, width, limit, all, more, k) {
      assert RowAt(s, start, width, limit, rows, from, k);
    }
  }

  lemma WindowEmpty(s: Series, start: real, width: real, limit: nat, b: int, rows: Series, from: seq<int>)
    requires width > 0.0 && limit > 0 && 0 <= b && Downsampled(s, start, width, limit, b, rows, from)
    requires InBucket(s, start, width, limit, b) == []
    ensures Downsampled(s, start, width, limit, b + 1, rows, from)
  {
    hide Bucket, InBucket, Represents;
    forall o | o in s ensures Bucket(start, width, limit, o) != b {
      InBucketMembers(s, start, width, limit, b, o);
    }
  }

  // ---- _retained -----------------------------------------------------------------------------------------

  predicate InWindow(o: Observation, asOf: Option<real>) {
    asOf.None? || o.at.None? || Ts(o) >= asOf.value - RETENTION_S
  }

  /** The readings inside the retention window, in order. */
  function Recent(s: Series, asOf: Option<real>): Series {
    if s == [] then []
    else
      var last := s[|s| - 1];
      Recent(s[..|s| - 1], asOf) + (if InWindow(last, asOf) then [last] else [])
  }

  lemma {:induction false} RecentMembers(s: Series, asOf: Option<real>, o: Observation)
    ensures o in Recent(s, asOf) <==> o in s && InWindow(o, asOf)
  {
    if s != [] {
      var front, last := s[..|s| - 1], s[|s| - 1];
      RecentMembers(front, asOf, o);
      assert s == front + [last];
    }
  }

  /** Fourteen days before the reference time are kept, and whatever has no timestamp. */
  lemma {:induction false} RecentFilters(s: Series, asOf: Option<real>)
    ensures Recent(s, asOf)
            == Filter((o: Observation) => asOf.None? || o.at.None? || o.at.value >= asOf.value - 1209600.0, s)
  {
    if s != [] {
      var front, last := s[..|s| - 1], s[|s| - 1];
      RecentFilters(front, asOf);
      FilterLast((o: Observation) => asOf.None? || o.at.None? || o.at.value >= asOf.value - 1209600.0, front, last);
      assert s == front + [last];
    }
  }

  lemma {:induction false} RecentByTime(s: Series, asOf: Option<real>)
    requires ByTime(s)
    ensures ByTime(Recent(s, asOf))
  {
    if s != [] {
      var front, last := s[..|s| - 1], s[|s| - 1];
      RecentByTime(front, asOf);
      var r := Recent(front, asOf);
      forall i | 0 <= i < |r| ensures Ts(r[i]) <= Ts(last) {
        RecentMembers(front, asOf, r[i]);
        var j :| 0 <= j < |front| && front[j] == r[i];
      }
    }
  }

  function Span(s: Series): real
    requires s != []
  {
    Ts(s[|s| - 1]) - Ts(s[0])
  }

  function WidthOf(s: Series, limit: nat): real
    requires s != [] && limit > 0
  {
    Span(s) / limit as real
  }

  /** The windows of a compacted series divide its span evenly. */
  lemma WidthDivides(s: Series, limit: nat)
    requires s != [] && limit > 0
    ensures WidthOf(s, limit) * limit as real == Ts(s[|s| - 1]) - Ts(s[0])
  {
  }

  /** rows with the first reading put in front unless it is there already. */
  function WithFirst(s: Series, rows: Series): Series
    requires s != [] && rows != []
  {
    if rows[0].id != s[0].id then [s[0]] + rows else rows
  }

  /** rows represents the windows of the series and kept is rows behind the first reading. */
  ghost predicate CompactVia(s: Series, width: real, limit: nat, kept: Series, rows: Series, from: seq<int>) {
    && s != [] && limit > 0 && width > 0.0 && rows != []
    && Downsampled(s, Ts(s[0]), width, limit, limit, rows, from) && kept == WithFirst(s, rows)
  }

  /** A long series with positive span becomes at most one reading per window, plus its first. */
  ghost predicate Compact(s: Series, limit: nat, kept: Series) {
    && s != [] && limit > 0 && Span(s) > 0.0
    && exists rows: Series, from: seq<int> :: CompactVia(s, WidthOf(s, limit), limit, kept, rows, from)
  }

  method Retained(all: Series, asOf: Option<real>, limit: nat) returns (kept: Series)
    requires limit > 0 && ByTime(all)
    ensures var s := Recent(all, asOf);
            if |s| <= limit then kept == s
            else if Span(s) <= 0.0 then kept == s[|s| - limit..]
            else Compact(s, limit, kept)
  {
    var s := DropOld(all, asOf);
    if |s| <= limit { return s; }
    if Span(s) <= 0.0 { return s[|s| - limit..]; }
    RecentByTime(all, asOf);
    kept := CompactSeries(s, limit);
  }

  method CompactSeries(s: Series, limit: nat) returns (kept: Series)
    requires limit > 0 && s != [] && Span(s) > 0.0 && ByTime(s)
    ensures Compact(s, limit, kept)
  {
    hide Downsampled;
    var start := Ts(s[0]);
    var width := WidthOf(s, limit);
    var rows;
    ghost var from;
    rows, from := Downsample(s, start, width, limit);
    SomeWindow(s, start, width, limit, rows, from);
    kept := rows;
    if kept[0].id != s[0].id { kept := [s[0]] + kept; }
    assert CompactVia(s, width, limit, kept, rows, from);
  }

  method DropOld(all: Series, asOf: Option<real>) returns (s: Series)
    ensures s == Recent(all, asOf)
  {
    s := [];
    for k := 0 to |all|
      invariant s == Recent(all[..k], asOf)
    {
      assert all[..k + 1][..k] == all[..k] && all[..k + 1][k] == all[k];
      if InWindow(all[k], asOf) { s := s + [all[k]]; }
    }
    assert all[..|all|] == all;
  }

  lemma SomeWindow(s: Series, start: real, width: real, limit: nat, rows: Series, from: seq<int>)
    requires width > 0.0 && limit > 0 && s != [] && Downsampled(s, start, width, limit, limit, rows, from)
    ensures rows != []
  {
    assert s[0] in s;
    assert Bucket(start, width, limit, s[0]) in from;
  }

  // ---- Theorems ---------------------------------------------------------------------------------------------

  /** A representative stands inside its window. */
  lemma RowIsReading(s: Series, start: real, width: real, limit: nat, rows: Series, from: seq<int>, k: nat)
    requires width > 0.0 && limit > 0 && Downsampled(s, start, width, limit, limit, rows, from) && k < |rows|
    ensures exists o :: o in s && Bucket(start, width, limit, o) == from[k] && rows[k] == o.(window := rows[k].window)
  {
    hide Bucket;
    assert RowAt(s, start, width, limit, rows, from, k);
    var w := InBucket(s, start, width, limit, from[k]);
    InBucketMembers(s, start, width, limit, from[k], w[|w| - 1]);
  }

  lemma RowsByTime(s: Series, start: real, width: real, limit: nat, rows: Series, from: seq<int>)
    requires width > 0.0 && limit > 0 && Downsampled(s, start, width, limit, limit, rows, from)
    ensures forall i, j :: 0 <= i < j < |rows| ==> Ts(rows[i]) < Ts(rows[j])
  {
    hide Bucket, Represents, InBucket;
    forall i, j | 0 <= i < j < |rows| ensures Ts(rows[i]) < Ts(rows[j]) {
      RowIsReading(s, start, width, limit, rows, from, i);
      RowIsReading(s, start, width, limit, rows, from, j);
      var a :| a in s && Bucket(start, width, limit, a) == from[i] && rows[i] == a.(window := rows[i].window);
      var b :| b in s && Bucket(start, width, limit, b) == from[j] && rows[j] == b.(window := rows[j].window);
      BucketsFollowTime(start, width, limit, a, b);
    }
  }

  lemma RowsBounded(from: seq<int>, limit: nat)
    requires forall k :: 0 <= k < |from| ==> 0 <= from[k] < limit
    requires forall i, j :: 0 <= i < j < |from| ==> from[i] < from[j]
    ensures |from| <= limit
  {
    var f := seq(|from|, k requires 0 <= k < |from| => from[k] as nat);
    DistinctBelow(f, limit);
  }

  /** No reading that can close the first window repeats the id of the oldest one. With several
      windows the last reading never closes the first, with a single window it always does. */
  predicate Unrepeated(ids: seq<string>, limit: nat)
    requires ids != []
  {
    if limit == 1 then ids[|ids| - 1] != ids[0] else forall j :: 0 < j < |ids| - 1 ==> ids[j] != ids[0]
  }

  function Ids(s: Series): (ids: seq<string>)
    ensures |ids| == |s| && forall k :: 0 <= k < |s| ==> ids[k] == s[k].id
  {
    seq(|s|, k requires 0 <= k < |s| => s[k].id)
  }

  /** The oldest reading is still there, window aggregates aside. */
  ghost predicate OldestKept(s: Series, kept: Series) {
    s != [] && kept != [] && kept[0] == s[0].(window := kept[0].window)
  }

  /** At most limit + 1 readings, in time order and ending with the last of the series; they
      begin with its first unless that one's id is repeated. */
  lemma CompactShape(s: Series, limit: nat, kept: Series)
    requires ByTime(s) && Compact(s, limit, kept)
    ensures 0 < |kept| <= limit + 1 && ByTime(kept)
    ensures kept[0].id == s[0].id && (Unrepeated(Ids(s), limit) ==> OldestKept(s, kept))
    ensures kept[|kept| - 1] == s[|s| - 1].(window := kept[|kept| - 1].window)
  {
    hide CompactVia, ByTime;
    var width := WidthOf(s, limit);
    var rows: Series, from: seq<int> :| CompactVia(s, width, limit, kept, rows, from);
    PositiveWidth(s, width, limit, kept, rows, from);
    LastBucket(Span(s), limit);
    ShapeOf(s, width, limit, kept, rows, from);
    if Unrepeated(Ids(s), limit) { FirstStays(s, width, limit, kept, rows, from); }
  }

  lemma PositiveWidth(s: Series, width: real, limit: nat, kept: Series, rows: Series, from: seq<int>)
    requires CompactVia(s, width, limit, kept, rows, from)
    ensures width > 0.0
  {
  }

  lemma ShapeOf(s: Series, width: real, limit: nat, kept: Series, rows: Series, from: seq<int>)
    requires ByTime(s) && CompactVia(s, width, limit, kept, rows, from)
    requires Bucket(Ts(s[0]), width, limit, s[|s| - 1]) == limit - 1
    ensures 0 < |kept| <= limit + 1 && ByTime(kept)
    ensures kept[0].id == s[0].id
    ensures kept[|kept| - 1] == s[|s| - 1].(window := kept[|kept| - 1].window)
  {
    hide Bucket, Represents, InBucket;
    RowsBounded(from, limit);
    RowsByTime(s, Ts(s[0]), width, limit, rows, from);
    RowsAfterFirst(s, width, limit, rows, from);
    LastRow(s, width, limit, rows, from);
  }

  lemma RowsAfterFirst(s: Series, width: real, limit: nat, rows: Series, from: seq<int>)
    requires s != [] && limit > 0 && width > 0.0 && ByTime(s)
    requires Downsampled(s, Ts(s[0]), width, limit, limit, rows, from)
    ensures forall k :: 0 <= k < |rows| ==> Ts(s[0]) <= Ts(rows[k])
  {
    hide Bucket, Represents, InBucket;
    forall k | 0 <= k < |rows| ensures Ts(s[0]) <= Ts(rows[k]) {
      RowIsReading(s, Ts(s[0]), width, limit, rows, from, k);
      var o :| o in s && Bucket(Ts(s[0]), width, limit, o) == from[k] && rows[k] == o.(window := rows[k].window);
    }
  }

  lemma TopIsLast(from: seq<int>, limit: nat, k: nat)
    requires k < |from| && from[k] == limit - 1 && forall i :: 0 <= i < |from| ==> from[i] < limit
    requires forall i, j :: 0 <= i < j < |from| ==> from[i] < from[j]
    ensures k == |from| - 1
  {
    assert from[|from| - 1] < limit;
  }

  /** The last window is the one of the last reading. */
  lemma LastRow(s: Series, width: real, limit: nat, rows: Series, from: seq<int>)
    requires s != [] && limit > 0 && width > 0.0
    requires Downsampled(s, Ts(s[0]), width, limit, limit, rows, from)
    requires Bucket(Ts(s[0]), width, limit, s[|s| - 1]) == limit - 1
    ensures rows != [] && rows[|rows| - 1] == s[|s| - 1].(window := rows[|rows| - 1].window)
  {
    hide InBucket, Bucket;
    var last := s[|s| - 1];
    assert last in s;
    var k :| 0 <= k < |from| && from[k] == Bucket(Ts(s[0]), width, limit, last);
    TopIsLast(from, limit, k);
    assert RowAt(s, Ts(s[0]), width, limit, rows, from, k);
    LastInBucket(s, Ts(s[0]), width, limit);
  }

  lemma LastBucket(span: real, limit: nat)
    requires span > 0.0 && limit > 0
    ensures (span / (span / limit as real)).Floor == limit
  {
    var width := span / limit as real;
    assert width * limit as real == span;
    assert span / width == limit as real;
  }

  lemma LastInBucket(s: Series, start: real, width: real, limit: nat)
    requires width > 0.0 && limit > 0 && s != []
    ensures var w := InBucket(s, start, width, limit, Bucket(start, width, limit, s[|s| - 1]));
            w != [] && w[|w| - 1] == s[|s| - 1]
  {
  }

  /** Some kept reading's window encloses v. */
  ghost predicate Enclosed(kept: Series, v: real) {
    exists r :: r in kept && r.window.Some? && r.window.value.min <= v <= r.window.value.max
  }

  ghost predicate Measured(s: Series, v: real) { exists o :: o in s && o.value == Some(v) }

  /** The window extremes enclose every value of the series and are values of it: the least
      window_min and the greatest window_max are the extremes of the whole series. */
  lemma ExtremesSurvive(s: Series, limit: nat, kept: Series)
    requires Compact(s, limit, kept) && forall o :: o in s ==> o.window.None?
    ensures forall v :: Measured(s, v) ==> Enclosed(kept, v)
    ensures forall r :: r in kept && r.window.Some? ==> Measured(s, r.window.value.min) && Measured(s, r.window.value.max)
  {
    hide CompactVia, Measured, Enclosed;
    var width := WidthOf(s, limit);
    var rows: Series, from: seq<int> :| CompactVia(s, width, limit, kept, rows, from);
    PositiveWidth(s, width, limit, kept, rows, from);
    forall v | Measured(s, v) ensures Enclosed(kept, v) { ValueEnclosed(s, width, limit, kept, rows, from, v); }
    forall r | r in kept && r.window.Some?
      ensures Measured(s, r.window.value.min) && Measured(s, r.window.value.max)
    {
      ExtremesAttained(s, width, limit, kept, rows, from, r);
    }
  }

  lemma BucketBelow(start: real, width: real, limit: nat, o: Observation)
    requires width > 0.0 && limit > 0
    ensures Bucket(start, width, limit, o) < limit
  {
  }

  lemma ValueEnclosed(s: Series, width: real, limit: nat, kept: Series, rows: Series, from: seq<int>, v: real)
    requires CompactVia(s, width, limit, kept, rows, from) && Measured(s, v)
    ensures Enclosed(kept, v)
  {
    hide Bucket, Represents, InBucket;
    var o :| o in s && o.value == Some(v);
    BucketBelow(Ts(s[0]), width, limit, o);
    var k :| 0 <= k < |from| && from[k] == Bucket(Ts(s[0]), width, limit, o);
    assert RowAt(s, Ts(s[0]), width, limit, rows, from, k);
    WindowEncloses(s, Ts(s[0]), width, limit, rows[k], o, v);
    assert rows[k] in rows;
    assert rows[k] in kept;
  }

  lemma ExtremesAttained(s: Series, width: real, limit: nat, kept: Series, rows: Series, from: seq<int>, r: Observation)
    requires CompactVia(s, width, limit, kept, rows, from) && forall o :: o in s ==> o.window.None?
    requires r in kept && r.window.Some?
    ensures Measured(s, r.window.value.min) && Measured(s, r.window.value.max)
  {
    hide Bucket, Represents, InBucket, Measured;
    assert s[0] in s;
    assert r in rows;
    var k :| 0 <= k < |rows| && rows[k] == r;
    assert RowAt(s, Ts(s[0]), width, limit, rows, from, k);
    WindowAttains(s, Ts(s[0]), width, limit, r, from[k]);
  }

  lemma WindowEncloses(s: Series, start: real, width: real, limit: nat, r: Observation, o: Observation, v: real)
    requires width > 0.0 && limit > 0 && o in s && o.value == Some(v)
    requires Represents(r, InBucket(s, start, width, limit, Bucket(start, width, limit, o)))
    ensures r.window.Some? && r.window.value.min <= v <= r.window.value.max
  {
    hide Bucket;
    var w := InBucket(s, start, width, limit, Bucket(start, width, limit, o));
    InBucketMembers(s, start, width, limit, Bucket(start, width, limit, o), o);
    ValuesMembers(w, v);
  }

  lemma WindowAttains(s: Series, start: real, width: real, limit: nat, r: Observation, b: int)
    requires width > 0.0 && limit > 0 && r.window.Some? && forall o :: o in s ==> o.window.None?
    requires Represents(r, InBucket(s, start, width, limit, b))
    ensures Measured(s, r.window.value.min) && Measured(s, r.window.value.max)
  {
    hide Bucket;
    var w := InBucket(s, start, width, limit, b);
    InBucketMembers(s, start, width, limit, b, w[|w| - 1]);
    ValuesMembers(w, r.window.value.min);
    ValuesMembers(w, r.window.value.max);
    var lo :| lo in w && lo.value == Some(r.window.value.min);
    var hi :| hi in w && hi.value == Some(r.window.value.max);
    InBucketMembers(s, start, width, limit, b, lo);
    InBucketMembers(s, start, width, limit, b, hi);
  }

  // ---- When the oldest reading survives ---------------------------------------------------------------------

  /** The last reading of a window stands at some index after which the window gets no more. */
  lemma {:induction false} LastOfBucket(s: Series, start: real, width: real, limit: nat, b: int) returns (m: nat)
    requires width > 0.0 && limit > 0 && InBucket(s, start, width, limit, b) != []
    ensures var w := InBucket(s, start, width, limit, b);
            m < |s| && Bucket(start, width, limit, s[m]) == b && w[|w| - 1] == s[m]
    ensures forall k :: m < k < |s| ==> Bucket(start, width, limit, s[k]) != b
  {
    hide Bucket;
    var n := |s| - 1;
    if Bucket(start, width, limit, s[n]) == b {
      m := n;
    } else {
      m := LastOfBucket(s[..n], start, width, limit, b);
    }
  }

  lemma FirstBucket(s: Series, width: real, limit: nat)
    requires s != [] && width > 0.0 && limit > 0
    ensures Bucket(Ts(s[0]), width, limit, s[0]) == 0
  {
    assert 0.0 / width == 0.0;
  }

  lemma LeastFirst(from: seq<int>)
    requires 0 in from && forall i, j :: 0 <= i < j < |from| ==> from[i] < from[j]
    requires forall i :: 0 <= i < |from| ==> from[i] >= 0
    ensures from[0] == 0
  {
    assert forall k :: 0 < k < |from| ==> from[0] < from[k];
  }

  /** The first row is the reading that closes the first window. */
  lemma FirstRow(s: Series, width: real, limit: nat, rows: Series, from: seq<int>) returns (m: nat)
    requires s != [] && width > 0.0 && limit > 0 && Downsampled(s, Ts(s[0]), width, limit, limit, rows, from)
    ensures rows != [] && m < |s| && rows[0] == s[m].(window := rows[0].window)
    ensures Bucket(Ts(s[0]), width, limit, s[m]) == 0
    ensures forall k :: m < k < |s| ==> Bucket(Ts(s[0]), width, limit, s[k]) != 0
  {
    hide Bucket, InBucket;
    var start := Ts(s[0]);
    FirstBucket(s, width, limit);
    assert s[0] in s;
    var k :| 0 <= k < |from| && from[k] == 0;
    LeastFirst(from);
    assert RowAt(s, start, width, limit, rows, from, 0);
    m := LastOfBucket(s, start, width, limit, 0);
  }

  lemma FirstStays(s: Series, width: real, limit: nat, kept: Series, rows: Series, from: seq<int>)
    requires CompactVia(s, width, limit, kept, rows, from) && Unrepeated(Ids(s), limit)
    requires Bucket(Ts(s[0]), width, limit, s[|s| - 1]) == limit - 1
    ensures OldestKept(s, kept)
  {
    hide Bucket, Downsampled;
    var m := FirstRow(s, width, limit, rows, from);
    if limit == 1 { assert m == |s| - 1; }
    if m != 0 { assert Ids(s)[m] != Ids(s)[0]; }
  }

  /** A compacted series with these ids whose oldest reading is gone. */
  ghost predicate LosesOldest(ids: seq<string>, limit: nat, s: Series, kept: Series) {
    Ids(s) == ids && ByTime(s) && Compact(s, limit, kept) && !OldestKept(s, kept)
  }

  /** Compaction keeps the oldest reading at every choice of timestamps and values exactly when
      no reading that can close the first window repeats its id. */
  lemma OldestKeptIff(ids: seq<string>, limit: nat)
    requires 1 <= limit < |ids|
    ensures (forall s, kept :: !LosesOldest(ids, limit, s, kept)) <==> Unrepeated(ids, limit)
  {
    hide Compact;
    if Unrepeated(ids, limit) {
      forall s, kept ensures !LosesOldest(ids, limit, s, kept) {
        if Ids(s) == ids && ByTime(s) && Compact(s, limit, kept) { CompactShape(s, limit, kept); }
      }
    } else {
      var j :| 0 < j < |ids| && (limit == 1 <==> j == |ids| - 1) && ids[j] == ids[0];
      var s, kept := Losing(ids, limit, j);
      assert LosesOldest(ids, limit, s, kept);
    }
  }

  /** Readings valued by their position, at time 0 up to cut and at time 1 from there on. */
  function Stepped(ids: seq<string>, cut: nat): (s: Series)
    ensures |s| == |ids| && Ids(s) == ids
    ensures forall k :: 0 <= k < |s| ==>
              Ts(s[k]) == (if k < cut then 0.0 else 1.0) && s[k].value == Some(k as real) && s[k].window.None?
  {
    seq(|ids|, k requires 0 <= k < |ids| =>
      Observation(ids[k], "", "", Some(if k < cut then 0.0 else 1.0), Some(k as real), 1.0, "", None, None))
  }

  /** Readings 0 to j share the first window and the j-th repeats the oldest id. */
  lemma Losing(ids: seq<string>, limit: nat, j: nat) returns (s: Series, kept: Series)
    requires 1 <= limit < |ids| && 0 < j < |ids| && (limit == 1 <==> j == |ids| - 1) && ids[j] == ids[0]
    ensures Ids(s) == ids && ByTime(s) && Compact(s, limit, kept) && !OldestKept(s, kept)
  {
    hide Downsampled, Bucket;
    s := Stepped(ids, if limit == 1 then |ids| - 1 else j + 1);
    var width := WidthOf(s, limit);
    var rows, from := CompactRows(s, limit);
    var m := FirstRow(s, width, limit, rows, from);
    FirstBucket(s, width, limit);
    SteppedBuckets(s, width, limit, j, m);
    kept := rows;
    assert CompactVia(s, width, limit, kept, rows, from);
  }

  lemma SteppedBuckets(s: Series, width: real, limit: nat, j: nat, m: nat)
    requires 1 <= limit < |s| && 0 < j < |s| && (limit == 1 <==> j == |s| - 1) && m < |s|
    requires forall k :: 0 <= k < |s| ==>
               Ts(s[k]) == if k < (if limit == 1 then |s| - 1 else j + 1) then 0.0 else 1.0
    requires width == WidthOf(s, limit) && width > 0.0
    requires Bucket(Ts(s[0]), width, limit, s[m]) == 0
    requires forall k :: m < k < |s| ==> Bucket(Ts(s[0]), width, limit, s[k]) != 0
    ensures m == j
  {
    hide Bucket;
    forall k | 0 <= k < |s|
      ensures Bucket(Ts(s[0]), width, limit, s[k]) == if Ts(s[k]) == 0.0 then 0 else limit - 1
    {
      SteppedBucket(width, limit, s[k]);
    }
    assert Bucket(Ts(s[0]), width, limit, s[j]) == 0;
  }

  lemma SteppedBucket(width: real, limit: nat, o: Observation)
    requires limit > 0 && width == 1.0 / limit as real && (Ts(o) == 0.0 || Ts(o) == 1.0)
    ensures width > 0.0 && Bucket(0.0, width, limit, o) == if Ts(o) == 0.0 then 0 else limit - 1
  {
    LastBucket(1.0, limit);
    assert 0.0 / width == 0.0;
  }

  /** Every series that is compacted has rows. */
  lemma CompactRows(s: Series, limit: nat) returns (rows: Series, from: seq<int>)
    requires s != [] && limit > 0 && ByTime(s) && Span(s) > 0.0
    ensures WidthOf(s, limit) > 0.0 && rows != []
    ensures Downsampled(s, Ts(s[0]), WidthOf(s, limit), limit, limit, rows, from)
  {
    hide Downsampled;
    forall o | o in s ensures Ts(s[0]) <= Ts(o) {
      var k :| 0 <= k < |s| && s[k] == o;
    }
    rows, from := WindowRows(s, Ts(s[0]), WidthOf(s, limit), limit, limit);
    SomeWindow(s, Ts(s[0]), WidthOf(s, limit), limit, rows, from);
  }

  lemma {:induction false} WindowRows(s: Series, start: real, width: real, limit: nat, n: nat)
    returns (rows: Series, from: seq<int>)
    requires width > 0.0 && limit > 0 && forall o :: o in s ==> start <= Ts(o)
    ensures Downsampled(s, start, width, limit, n, rows, from)
  {
    hide Downsampled, InBucket, Bucket, Represents;
    if n == 0 {
      rows, from := [], [];
      NoWindows(s, start, width, limit);
    } else {
      rows, from := WindowRows(s, start, width, limit, n - 1);
      var w := InBucket(s, start, width, limit, n - 1);
      if w == [] {
        WindowEmpty(s, start, width, limit, n - 1, rows, from);
      } else {
        var r := SomeRepresentative(w);
        WindowNext(s, start, width, limit, n - 1, rows, from, r);
        rows, from := rows + [r], from + [n - 1];
      }
    }
  }

  lemma SomeRepresentative(w: Series) returns (r: Observation)
    requires w != []
    ensures Represents(r, w)
  {
    hide Sum, Extremes, Values;
    r := w[|w| - 1];
    var values := Values(w);
    if values != [] {
      var lo, hi := SomeExtremes(values);
      var mean := Sum(values) / |values| as real;
      r := r.(window := Some(Window(lo, mean, hi, |w|)));
    }
  }

  lemma {:induction false} SomeExtremes(v: seq<real>) returns (lo: real, hi: real)
    requires v != []
    ensures Extremes(v, lo, hi)
  {
    var n := |v| - 1;
    lo, hi := v[n], v[n];
    if n > 0 {
      lo, hi := SomeExtremes(v[..n]);
      assert v == v[..n] + [v[n]];
      lo, hi := if v[n] < lo then v[n] else lo, if v[n] > hi then v[n] else hi;
    }
  }

  /** Two readings of different contracts under one id, kept to two windows: the older one is
      gone, though the series has another window. */
  lemma RepeatedIdLosesOldest(kept: Series)
    requires var a := Observation("x", "", "", Some(0.0), Some(3.0), 1.0, "first:x", None, None);
             var b := Observation("x", "", "", Some(1.0), Some(5.0), 1.0, "second:x", None, None);
             var c := Observation("y", "", "", Some(10.0), Some(4.0), 1.0, "first:y", None, None);
             Compact([a, b, c], 2, kept)
    ensures kept[0].value == Some(5.0) && forall r :: r in kept ==> r.value != Some(3.0)
  {
    var a := Observation("x", "", "", Some(0.0), Some(3.0), 1.0, "first:x", None, None);
    var b := Observation("x", "", "", Some(1.0), Some(5.0), 1.0, "second:x", None, None);
    var c := Observation("y", "", "", Some(10.0), Some(4.0), 1.0, "first:y", None, None);
    var s := [a, b, c];
    var rows: Series, from: seq<int> :| CompactVia(s, 5.0, 2, kept, rows, from);
    var m := FirstRow(s, 5.0, 2, rows, from);
    assert 1.0 / 5.0 == 0.2 && 10.0 / 5.0 == 2.0 && 0.0 / 5.0 == 0.0;
    assert Bucket(0.0, 5.0, 2, s[0]) == 0 && Bucket(0.0, 5.0, 2, s[1]) == 0 && Bucket(0.0, 5.0, 2, s[2]) == 1;
    assert m == 1;
    RowsByTime(s, 0.0, 5.0, 2, rows, from);
    forall k: nat | k < |rows| ensures rows[k].value != Some(3.0) {
      RowIsReading(s, 0.0, 5.0, 2, rows, from, k);
    }
  }
}
