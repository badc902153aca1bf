/** Obstacle-avoiding rerouting of a polyline, leg by leg
    (src/fl_op/core/geometry.py, reroute_path_around_polygons). */
module Reroute {
  import opened ObstaclePaths

  /** A way to travel one leg: a walk that enters no obstacle, or nothing to travel. */
  ghost predicate IsLeg(m: Map, rings: seq<seq<Point>>, start: Point, end: Point, leg: seq<Point>) {
    if start == end then leg == [start, end] else OpenWalk(m, rings, start, end, leg)
  }

  /** cuts[i] is where waypoint i sits in route; consecutive cuts bound leg i. */
  ghost predicate Cuts(path: seq<Point>, route: seq<Point>, cuts: seq<nat>) {
    && |cuts| == |path| >= 1 && cuts[0] == 0 && cuts[|cuts| - 1] == |route| - 1
    && (forall i :: 0 <= i < |cuts| ==> cuts[i] < |route| && route[cuts[i]] == path[i])
    && (forall i :: 0 <= i < |cuts| - 1 ==> cuts[i] < cuts[i + 1])
  }

  ghost function Leg(route: seq<Point>, cuts: seq<nat>, i: nat): seq<Point>
    requires i + 1 < |cuts| && cuts[i] <= cuts[i + 1] < |route|
  {
    route[cuts[i]..cuts[i + 1] + 1]
  }

  /** route visits the waypoints of path in order, each leg travelled the shortest way. */
  ghost predicate Rerouted(m: Map, rings: seq<seq<Point>>, path: seq<Point>, route: seq<Point>, cuts: seq<nat>) {
    && Cuts(path, route, cuts)
    && (forall i {:trigger Leg(route, cuts, i)} :: 0 <= i < |path| - 1 ==>
          ShortestLeg(m, rings, path[i], path[i + 1], Leg(route, cuts, i)))
  }

  ghost predicate AnyRoute(m: Map, rings: seq<seq<Point>>, path: seq<Point>, route: seq<Point>, cuts: seq<nat>) {
    && Cuts(path, route, cuts)
    && (forall i {:trigger Leg(route, cuts, i)} :: 0 <= i < |path| - 1 ==>
          IsLeg(m, rings, path[i], path[i + 1], Leg(route, cuts, i)))
  }

  method ReroutePath(m: Map, path: seq<Point>, rings: seq<seq<Point>>)
    returns (rerouted: seq<Point>, ghost cuts: seq<nat>)
    requires Planar(m, rings)
    ensures |path| < 2 || rings == [] ==> rerouted == path
    ensures |path| >= 2 && rings != [] ==>
              (rerouted == [] <==>
                 exists i :: 0 <= i < |path| - 1 && Unreachable(m, rings, path[i], path[i + 1]))
    ensures |path| >= 2 && rings != [] && rerouted != [] ==> Rerouted(m, rings, path, rerouted, cuts)
    ensures |path| >= 2 && rerouted != [] ==>
              forall r, o :: r in rings && |r| >= 3 && o in m.repair(r) ==>
                && (forall k :: 0 <= k < |rerouted| - 1 && rerouted[k] != rerouted[k + 1] ==>
                      o.admits(rerouted[k], rerouted[k + 1]))
                && (forall i :: 0 <= i < |path| - 1 && path[i] != path[i + 1] ==>
                      !o.contains(path[i]) && !o.contains(path[i + 1]))
  {
    hide Unreachable, ShortestLeg, Planar;
    cuts := [0];
    if |path| < 2 || |rings| == 0 { return path, cuts; }
    rerouted := [path[0]];
    for i := 0 to |path| - 1
      invariant Rerouted(m, rings, path[..i + 1], rerouted, cuts)
      invariant forall k :: 0 <= k < i ==> !Unreachable(m, rings, path[k], path[k + 1])
    {
      var segment := ShortestPathAround(m, path[i], path[i + 1], rings);
      if |segment| == 0 {
        return [], cuts;
      }
      LegEnds(m, rings, path[i], path[i + 1], segment);
      Stitch(m, rings, path[..i + 1], rerouted, cuts, path[i + 1], segment);
      rerouted := rerouted + segment[1..];
      cuts := cuts + [|rerouted| - 1];
      assert path[..i + 1] + [path[i + 1]] == path[..i + 2];
    }
    assert path[..|path|] == path;
    RouteIsOpen(m, rings, path, rerouted, cuts);
  }

  /** No hop of the route enters an obstacle and no waypoint between two legs is inside one. */
  lemma RouteIsOpen(m: Map, rings: seq<seq<Point>>, path: seq<Point>, route: seq<Point>, cuts: seq<nat>)
    requires Rerouted(m, rings, path, route, cuts)
    ensures forall r, o :: r in rings && |r| >= 3 && o in m.repair(r) ==>
              && (forall k :: 0 <= k < |route| - 1 && route[k] != route[k + 1] ==> o.admits(route[k], route[k + 1]))
              && (forall i :: 0 <= i < |path| - 1 && path[i] != path[i + 1] ==>
                    !o.contains(path[i]) && !o.contains(path[i + 1]))
  {
    forall k | 0 <= k < |route| - 1 && route[k] != route[k + 1] ensures Open(m, rings, route[k], route[k + 1]) {
      HopIsOpen(m, rings, path, route, cuts, k);
    }
    forall i | 0 <= i < |path| - 1 && path[i] != path[i + 1]
      ensures !Buried(m, rings, path[i]) && !Buried(m, rings, path[i + 1])
    {
      assert ShortestLeg(m, rings, path[i], path[i + 1], Leg(route, cuts, i));
    }
  }

  lemma HopIsOpen(m: Map, rings: seq<seq<Point>>, path: seq<Point>, route: seq<Point>, cuts: seq<nat>, k: nat)
    requires Rerouted(m, rings, path, route, cuts) && k < |route| - 1 && route[k] != route[k + 1]
    ensures Open(m, rings, route[k], route[k + 1])
  {
    hide Open, Buried, Corner;
    var i := LegOf(path, route, cuts, k, |cuts| - 1);
    var leg := Leg(route, cuts, i);
    assert ShortestLeg(m, rings, path[i], path[i + 1], leg);
    assert leg[k - cuts[i]] == route[k] && leg[k - cuts[i] + 1] == route[k + 1];
  }

  /** The leg a hop belongs to. */
  lemma {:induction false} LegOf(path: seq<Point>, route: seq<Point>, cuts: seq<nat>, k: nat, n: nat) returns (i: nat)
    requires Cuts(path, route, cuts) && n < |cuts| && k < cuts[n]
    ensures i + 1 < |cuts| && cuts[i] <= k < cuts[i + 1]
  {
    if cuts[n - 1] <= k { i := n - 1; } else { i := LegOf(path, route, cuts, k, n - 1); }
  }

  lemma LegEnds(m: Map, rings: seq<seq<Point>>, start: Point, end: Point, leg: seq<Point>)
    requires ShortestLeg(m, rings, start, end, leg)
    ensures |leg| >= 2 && leg[0] == start && leg[|leg| - 1] == end
    ensures IsLeg(m, rings, start, end, leg)
  {
  }

  lemma Stitch(m: Map, rings: seq<seq<Point>>, path: seq<Point>, route: seq<Point>, cuts: seq<nat>,
               next: Point, segment: seq<Point>)
    requires Rerouted(m, rings, path, route, cuts)
    requires |segment| >= 2 && segment[0] == path[|path| - 1] && segment[|segment| - 1] == next
    requires ShortestLeg(m, rings, path[|path| - 1], next, segment)
    ensures Rerouted(m, rings, path + [next], route + segment[1..], cuts + [|route + segment[1..]| - 1])
  {
    hide ShortestLeg;
    var route', cuts' := route + segment[1..], cuts + [|route + segment[1..]| - 1];
    var path' := path + [next];
    assert Cuts(path', route', cuts');
    forall i | 0 <= i < |path'| - 1
      ensures ShortestLeg(m, rings, path'[i], path'[i + 1], Leg(route', cuts', i))
    {
      if i < |path| - 1 {
        assert Leg(route', cuts', i) == Leg(route, cuts, i);
      } else {
        assert Leg(route', cuts', i) == segment;
      }
    }
  }

  // ---- The rerouted path is the shortest through the same waypoints ------------------

  lemma {:induction false} DistanceSplit(m: Map, route: seq<Point>, k: nat)
    requires k < |route|
    ensures PathDistance(m, route) == PathDistance(m, route[..k + 1]) + PathDistance(m, route[k..])
  {
    var front := route[..|route| - 1];
    if k == |route| - 1 {
      assert route[..k + 1] == route;
    } else {
      DistanceSplit(m, front, k);
      assert front[..k + 1] == route[..k + 1];
      assert route[k..][..|route| - k - 1] == front[k..];
    }
  }

  lemma {:induction false} RerouteIsShortest(m: Map, rings: seq<seq<Point>>, path: seq<Point>,
                                             route: seq<Point>, cuts: seq<nat>,
                                             other: seq<Point>, otherCuts: seq<nat>)
    requires Triangle(m)
    requires Rerouted(m, rings, path, route, cuts) && AnyRoute(m, rings, path, other, otherCuts)
    ensures PathDistance(m, route) <= PathDistance(m, other)
  {
    if |path| > 1 {
      var n := |path| - 2;
      var a, b := cuts[n], otherCuts[n];
      assert ShortestLeg(m, rings, path[n], path[n + 1], Leg(route, cuts, n));
      assert IsLeg(m, rings, path[n], path[n + 1], Leg(other, otherCuts, n));
      DropLast(m, rings, path, route, cuts);
      DropLastAny(m, rings, path, other, otherCuts);
      RerouteIsShortest(m, rings, path[..n + 1], route[..a + 1], cuts[..n + 1], other[..b + 1], otherCuts[..n + 1]);
      DistanceSplit(m, route, a);
      DistanceSplit(m, other, b);
      assert Leg(route, cuts, n) == route[a..] && Leg(other, otherCuts, n) == other[b..];
    }
  }

  lemma DropLast(m: Map, rings: seq<seq<Point>>, path: seq<Point>, route: seq<Point>, cuts: seq<nat>)
    requires |path| > 1 && Rerouted(m, rings, path, route, cuts)
    ensures var n := |path| - 2;
            Rerouted(m, rings, path[..n + 1], route[..cuts[n] + 1], cuts[..n + 1])
  {
    hide ShortestLeg;
    var n := |path| - 2;
    var route', cuts' := route[..cuts[n] + 1], cuts[..n + 1];
    CutsOrdered(path, route, cuts);
    forall i | 0 <= i < n ensures ShortestLeg(m, rings, path[i], path[i + 1], Leg(route', cuts', i)) {
      assert Leg(route', cuts', i) == Leg(route, cuts, i);
    }
  }

  lemma DropLastAny(m: Map, rings: seq<seq<Point>>, path: seq<Point>, route: seq<Point>, cuts: seq<nat>)
    requires |path| > 1 && AnyRoute(m, rings, path, route, cuts)
    ensures var n := |path| - 2;
            AnyRoute(m, rings, path[..n + 1], route[..cuts[n] + 1], cuts[..n + 1])
  {
    hide IsLeg;
    var n := |path| - 2;
    var route', cuts' := route[..cuts[n] + 1], cuts[..n + 1];
    CutsOrdered(path, route, cuts);
    forall i | 0 <= i < n ensures IsLeg(m, rings, path[i], path[i + 1], Leg(route', cuts', i)) {
      assert Leg(route', cuts', i) == Leg(route, cuts, i);
    }
  }

  lemma {:induction false} CutsOrdered(path: seq<Point>, route: seq<Point>, cuts: seq<nat>)
    requires Cuts(path, route, cuts)
    ensures forall i, j :: 0 <= i <= j < |cuts| ==> cuts[i] <= cuts[j]
  {
    Ascending(cuts);
  }

  lemma {:induction false} Ascending(cuts: seq<nat>)
    requires forall i :: 0 <= i < |cuts| - 1 ==> cuts[i] < cuts[i + 1]
    ensures forall i, j :: 0 <= i <= j < |cuts| ==> cuts[i] <= cuts[j]
  {
    if |cuts| > 1 {
      Ascending(cuts[..|cuts| - 1]);
      assert cuts[|cuts| - 2] < cuts[|cuts| - 1];
    }
  }
}
