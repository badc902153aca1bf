/** Obstacle-avoiding paths over (lat, lon) points (src/fl_op/core/geometry.py). The planar
    predicates and the geodesic distance are the parameters of a Map. */
module ObstaclePaths {
  import opened Ordering
  import opened VisibilityGraph

  type Point = (real, real)

  /** One valid polygon: its exterior vertices, the interior test and the test that a
      segment's interior does not enter it. */
  datatype Obstacle = Obstacle(vertices: seq<Point>, contains: Point -> bool,
                               admits: (Point, Point) -> bool)

  /** repair: the non-empty polygons of positive area a ring yields; haversine: kilometres. */
  datatype Map = Map(repair: seq<Point> -> seq<Obstacle>, haversine: (Point, Point) -> real)

  ghost predicate Metric(m: Map) {
    forall p: Point, q: Point ::
      m.haversine(p, q) >= 0.0 && m.haversine(p, q) == m.haversine(q, p)
  }

  ghost predicate Triangle(m: Map) {
    forall p: Point, q: Point, r: Point ::
      m.haversine(p, r) <= m.haversine(p, q) + m.haversine(q, r)
  }

  ghost predicate Undirected(o: Obstacle) {
    forall p: Point, q: Point :: o.admits(p, q) == o.admits(q, p)
  }

  // ---- What the rings forbid ---------------------------------------------------------

  /** o is an obstacle of one of the rings of three points or more. */
  ghost predicate FromRing(m: Map, rings: seq<seq<Point>>, o: Obstacle) {
    exists r :: r in rings && |r| >= 3 && o in m.repair(r)
  }

  /** What the geometry library guarantees of its answers. */
  ghost predicate Planar(m: Map, rings: seq<seq<Point>>) {
    Metric(m) && forall o :: FromRing(m, rings, o) ==> Undirected(o)
  }

  /** p lies inside an obstacle of some ring. */
  ghost predicate Buried(m: Map, rings: seq<seq<Point>>, p: Point) {
    exists r, o :: r in rings && |r| >= 3 && o in m.repair(r) && o.contains(p)
  }

  /** The segment enters no obstacle of any ring. */
  ghost predicate Open(m: Map, rings: seq<seq<Point>>, p: Point, q: Point) {
    forall r, o :: r in rings && |r| >= 3 && o in m.repair(r) ==> o.admits(p, q)
  }

  /** p is a vertex of an obstacle of some ring. */
  ghost predicate Corner(m: Map, rings: seq<seq<Point>>, p: Point) {
    exists r, o :: r in rings && |r| >= 3 && o in m.repair(r) && p in o.vertices
  }

  /** A walk from start to end over the rings' corners whose legs enter no obstacle. */
  ghost predicate OpenWalk(m: Map, rings: seq<seq<Point>>, start: Point, end: Point, w: seq<Point>) {
    && |w| >= 1 && w[0] == start && w[|w| - 1] == end
    && (forall i :: 0 <= i < |w| ==> w[i] == start || w[i] == end || Corner(m, rings, w[i]))
    && (forall i :: 0 <= i < |w| - 1 ==> w[i] != w[i + 1] && Open(m, rings, w[i], w[i + 1]))
  }

  /** No route exists: an endpoint is buried, or no walk joins the two. */
  ghost predicate Unreachable(m: Map, rings: seq<seq<Point>>, start: Point, end: Point) {
    && start != end
    && (Buried(m, rings, start) || Buried(m, rings, end) || forall w :: !OpenWalk(m, rings, start, end, w))
  }

  /** path is the answer for one leg: the direct segment where nothing forbids it, otherwise a
      walk no longer than any other. */
  ghost predicate ShortestLeg(m: Map, rings: seq<seq<Point>>, start: Point, end: Point, path: seq<Point>) {
    if start == end then path == [start, end]
    else
      && OpenWalk(m, rings, start, end, path) && !Buried(m, rings, start) && !Buried(m, rings, end)
      && (Open(m, rings, start, end) ==> path == [start, end])
      && (Triangle(m) || !Open(m, rings, start, end) ==>
            forall w :: OpenWalk(m, rings, start, end, w) ==> PathDistance(m, path) <= PathDistance(m, w))
  }

  // ---- The obstacles as a list --------------------------------------------------------

  ghost predicate Represented(m: Map, rings: seq<seq<Point>>, obstacles: seq<Obstacle>) {
    forall o :: o in obstacles <==> FromRing(m, rings, o)
  }

  /** Rings with fewer than three points are skipped, the others contribute their polygons. */
  method CollectObstacles(m: Map, rings: seq<seq<Point>>) returns (obstacles: seq<Obstacle>)
    ensures forall o :: o in obstacles <==> exists r :: r in rings && |r| >= 3 && o in m.repair(r)
    ensures Represented(m, rings, obstacles)
  {
    obstacles := [];
    for k := 0 to |rings|
      invariant forall o :: o in obstacles <==> FromRing(m, rings[..k], o)
    {
      assert rings[..k + 1] == rings[..k] + [rings[k]];
      ghost var before := obstacles;
      if |rings[k]| >= 3 { obstacles := obstacles + m.repair(rings[k]); }
      forall o ensures o in obstacles <==> FromRing(m, rings[..k + 1], o) {
        NextRing(m, rings[..k], rings[k], o);
        assert o in obstacles <==> o in before || (|rings[k]| >= 3 && o in m.repair(rings[k]));
      }
    }
    assert rings[..|rings|] == rings;
    forall o ensures o in obstacles <==> exists r :: r in rings && |r| >= 3 && o in m.repair(r) { }
  }

  lemma NextRing(m: Map, rings: seq<seq<Point>>, ring: seq<Point>, o: Obstacle)
    ensures FromRing(m, rings + [ring], o) <==> FromRing(m, rings, o) || (|ring| >= 3 && o in m.repair(ring))
  {
    assert forall r :: r in rings + [ring] <==> r in rings || r == ring;
  }

  predicate Inside(obstacles: seq<Obstacle>, p: Point) {
    exists i :: 0 <= i < |obstacles| && obstacles[i].contains(p)
  }

  predicate Clear(obstacles: seq<Obstacle>, p: Point, q: Point) {
    forall i :: 0 <= i < |obstacles| ==> obstacles[i].admits(p, q)
  }

  ghost predicate IsCorner(obstacles: seq<Obstacle>, p: Point) {
    exists i :: 0 <= i < |obstacles| && p in obstacles[i].vertices
  }

  // ---- Paths of points -----------------------------------------------------------

  /** path_distance_km: the sum over consecutive pairs. */
  function PathDistance(m: Map, path: seq<Point>): real {
    if |path| <= 1 then 0.0
    else PathDistance(m, path[..|path| - 1]) + m.haversine(path[|path| - 2], path[|path| - 1])
  }

  /** A walk from start to end whose nodes are the two endpoints and obstacle corners and
      whose legs enter no obstacle. */
  ghost predicate VisibleWalk(obstacles: seq<Obstacle>, start: Point, end: Point, w: seq<Point>) {
    && |w| >= 1 && w[0] == start && w[|w| - 1] == end
    && (forall i :: 0 <= i < |w| ==> w[i] == start || w[i] == end || IsCorner(obstacles, w[i]))
    && (forall i :: 0 <= i < |w| - 1 ==> w[i] != w[i + 1] && Clear(obstacles, w[i], w[i + 1]))
  }

  /** The list says what the rings say. */
  lemma ListedRings(m: Map, rings: seq<seq<Point>>, obstacles: seq<Obstacle>, p: Point, q: Point)
    requires Represented(m, rings, obstacles)
    ensures Inside(obstacles, p) <==> Buried(m, rings, p)
    ensures Clear(obstacles, p, q) <==> Open(m, rings, p, q)
    ensures IsCorner(obstacles, p) <==> Corner(m, rings, p)
  {
    if Inside(obstacles, p) {
      var i :| 0 <= i < |obstacles| && obstacles[i].contains(p);
      assert obstacles[i] in obstacles && FromRing(m, rings, obstacles[i]);
    }
    if r, o :| r in rings && |r| >= 3 && o in m.repair(r) && o.contains(p) { assert FromRing(m, rings, o); }
    if Clear(obstacles, p, q) {
      forall r, o | r in rings && |r| >= 3 && o in m.repair(r) ensures o.admits(p, q) {
        assert FromRing(m, rings, o) && o in obstacles;
      }
    }
    if Open(m, rings, p, q) {
      forall i | 0 <= i < |obstacles| ensures obstacles[i].admits(p, q) {
        assert obstacles[i] in obstacles && FromRing(m, rings, obstacles[i]);
      }
    }
    if IsCorner(obstacles, p) {
      var i :| 0 <= i < |obstacles| && p in obstacles[i].vertices;
      assert obstacles[i] in obstacles && FromRing(m, rings, obstacles[i]);
    }
    if r, o :| r in rings && |r| >= 3 && o in m.repair(r) && p in o.vertices { assert FromRing(m, rings, o); }
  }

  lemma SameWalks(m: Map, rings: seq<seq<Point>>, obstacles: seq<Obstacle>, start: Point, end: Point, w: seq<Point>)
    requires Represented(m, rings, obstacles)
    ensures VisibleWalk(obstacles, start, end, w) <==> OpenWalk(m, rings, start, end, w)
  {
    hide Represented, Inside, Clear, IsCorner, Buried, Open, Corner;
    forall p: Point ensures IsCorner(obstacles, p) <==> Corner(m, rings, p) {
      ListedRings(m, rings, obstacles, p, p);
    }
    forall p: Point, q: Point ensures Clear(obstacles, p, q) <==> Open(m, rings, p, q) {
      ListedRings(m, rings, obstacles, p, q);
    }
  }

  /** The direct-line shortcut loses nothing under the triangle inequality. */
  lemma {:induction false} DirectIsShortest(m: Map, w: seq<Point>)
    requires Triangle(m) && |w| >= 2
    ensures m.haversine(w[0], w[|w| - 1]) <= PathDistance(m, w)
  {
    var v := w[..|w| - 1];
    if |w| == 2 {
      assert PathDistance(m, v) == 0.0;
    } else {
      DirectIsShortest(m, v);
      assert v[|v| - 1] == w[|w| - 2];
    }
  }

  // ---- The visibility graph --------------------------------------------------------

  function GraphOf(m: Map, obstacles: seq<Obstacle>, points: seq<Point>): Graph {
    Graph(|points|,
          (u: nat, v: nat) => u < |points| && v < |points| && u != v && Clear(obstacles, points[u], points[v]),
          (u: nat, v: nat) => if u < |points| && v < |points| then m.haversine(points[u], points[v]) else 0.0)
  }

  function At(points: seq<Point>, path: seq<nat>): (w: seq<Point>)
    requires forall i :: 0 <= i < |path| ==> path[i] < |points|
    ensures |w| == |path|
  {
    seq(|path|, i requires 0 <= i < |path| => points[path[i]])
  }

  lemma {:induction false} AtLength(m: Map, obstacles: seq<Obstacle>, points: seq<Point>, path: seq<nat>)
    requires IsWalk(GraphOf(m, obstacles, points), path)
    ensures PathDistance(m, At(points, path)) == Length(GraphOf(m, obstacles, points), path)
  {
    if |path| > 1 {
      var front := path[..|path| - 1];
      AtLength(m, obstacles, points, front);
      assert At(points, path)[..|path| - 1] == At(points, front);
    }
  }

  ghost predicate IsNodeList(obstacles: seq<Obstacle>, start: Point, end: Point, points: seq<Point>) {
    && |points| >= 2 && points[0] == start && points[1] == end && Distinct(points)
    && (forall p :: p in points <==> p == start || p == end || IsCorner(obstacles, p))
  }

  lemma WalkOfPoints(m: Map, obstacles: seq<Obstacle>, start: Point, end: Point, points: seq<Point>,
                     path: seq<nat>)
    requires IsNodeList(obstacles, start, end, points)
    requires Joins(GraphOf(m, obstacles, points), path, 0, 1)
    ensures VisibleWalk(obstacles, start, end, At(points, path))
  {
    var w := At(points, path);
    var g := GraphOf(m, obstacles, points);
    forall i | 0 <= i < |w| ensures w[i] == start || w[i] == end || IsCorner(obstacles, w[i]) {
      assert w[i] in points;
    }
    forall i | 0 <= i < |w| - 1 ensures w[i] != w[i + 1] && Clear(obstacles, w[i], w[i + 1]) {
      assert g.edge(path[i], path[i + 1]);
    }
  }

  lemma WalkOfIndices(m: Map, obstacles: seq<Obstacle>, start: Point, end: Point, points: seq<Point>,
                      w: seq<Point>) returns (path: seq<nat>)
    requires IsNodeList(obstacles, start, end, points) && VisibleWalk(obstacles, start, end, w)
    ensures Joins(GraphOf(m, obstacles, points), path, 0, 1)
    ensures At(points, path) == w
  {
    assert forall i :: 0 <= i < |w| ==> w[i] in points;
    path := seq(|w|, i requires 0 <= i < |w| => IndexIn(points, w[i]));
    assert IndexIn(points, start) == 0 && IndexIn(points, end) == 1;
    var g := GraphOf(m, obstacles, points);
    forall i | 0 <= i < |path| - 1 ensures g.edge(path[i], path[i + 1]) {
      assert w[i] != w[i + 1];
    }
  }

  ghost function IndexIn(points: seq<Point>, p: Point): (i: nat)
    requires p in points
    ensures i < |points| && points[i] == p
  {
    var i :| 0 <= i < |points| && points[i] == p;
    i
  }

  method NodeList(obstacles: seq<Obstacle>, start: Point, end: Point) returns (points: seq<Point>)
    requires start != end
    ensures IsNodeList(obstacles, start, end, points)
  {
    points := [start, end];
    var seen := {start, end};
    for i := 0 to |obstacles|
      invariant |points| >= 2 && points[0] == start && points[1] == end && Distinct(points)
      invariant forall p :: p in points <==> p in seen
      invariant forall p :: p in seen <==> p == start || p == end || IsCorner(obstacles[..i], p)
    {
      for k := 0 to |obstacles[i].vertices|
        invariant |points| >= 2 && points[0] == start && points[1] == end && Distinct(points)
        invariant forall p :: p in points <==> p in seen
        invariant forall p :: p in seen <==> p == start || p == end || IsCorner(obstacles[..i], p)
                                             || p in obstacles[i].vertices[..k]
      {
        var point := obstacles[i].vertices[k];
        if point !in seen {
          seen := seen + {point};
          points := points + [point];
        }
      }
      CornerStep(obstacles, i);
    }
    assert obstacles[..|obstacles|] == obstacles;
  }

  lemma CornerStep(obstacles: seq<Obstacle>, i: nat)
    requires i < |obstacles|
    ensures forall p :: IsCorner(obstacles[..i + 1], p) <==>
                        IsCorner(obstacles[..i], p) || p in obstacles[i].vertices
  {
    var a, b := obstacles[..i], obstacles[..i + 1];
    forall p ensures IsCorner(b, p) <==> IsCorner(a, p) || p in obstacles[i].vertices {
      if IsCorner(a, p) {
        var j :| 0 <= j < |a| && p in a[j].vertices;
        assert b[j] == a[j];
      }
      if p in obstacles[i].vertices { assert b[i] == obstacles[i]; }
      if IsCorner(b, p) {
        var j :| 0 <= j < |b| && p in b[j].vertices;
        assert j < i ==> a[j] == b[j];
      }
    }
  }

  /** The hops recorded so far are sound, and every clear pair before (left, right) in
      lexicographic order is recorded on both sides. */
  ghost predicate Built(adj: seq<seq<(nat, real)>>, g: Graph, left: nat, right: nat) {
    && |adj| == g.n
    && (forall u: nat, k: nat :: u < g.n && k < |adj[u]| ==> Sound(g, u, adj[u][k]))
    && (forall u: nat, v: nat :: u < v < g.n && (u < left || (u == left && v < right)) && g.edge(u, v) ==>
          (v, g.len(u, v)) in adj[u] && (u, g.len(u, v)) in adj[v])
  }

  method BuildAdjacency(m: Map, obstacles: seq<Obstacle>, points: seq<Point>) returns (adj: Adjacency)
    requires Metric(m) && forall o :: o in obstacles ==> Undirected(o)
    ensures Represents(adj, GraphOf(m, obstacles, points))
  {
    ghost var g := GraphOf(m, obstacles, points);
    adj := seq(|points|, _ => []);
    for left := 0 to |points|
      invariant Built(adj, g, left, left + 1)
    {
      for right := left + 1 to |points|
        invariant Built(adj, g, left, right)
      {
        ghost var before := adj;
        if Clear(obstacles, points[left], points[right]) {
          var distance := m.haversine(points[left], points[right]);
          ClearSymmetric(obstacles, points[left], points[right]);
          adj := adj[left := adj[left] + [(right, distance)]];
          adj := adj[right := adj[right] + [(left, distance)]];
        }
        BuiltStep(g, before, adj, left, right);
      }
    }
    BuiltRepresents(m, obstacles, points, adj);
  }

  lemma ClearSymmetric(obstacles: seq<Obstacle>, p: Point, q: Point)
    requires forall o :: o in obstacles ==> Undirected(o)
    ensures Clear(obstacles, p, q) == Clear(obstacles, q, p)
  {
    forall i | 0 <= i < |obstacles| ensures obstacles[i].admits(p, q) == obstacles[i].admits(q, p) {
      assert Undirected(obstacles[i]);
    }
  }

  lemma BuiltStep(g: Graph, before: Adjacency, adj: Adjacency, left: nat, right: nat)
    requires left < right < g.n && Built(before, g, left, right)
    requires g.edge(left, right) ==>
               && Sound(g, left, (right, g.len(left, right))) && Sound(g, right, (left, g.len(left, right)))
               && adj == before[left := before[left] + [(right, g.len(left, right))]]
                               [right := before[right] + [(left, g.len(left, right))]]
    requires !g.edge(left, right) ==> adj == before
    ensures Built(adj, g, left, right + 1)
  {
    forall u: nat, v: nat | u < v < g.n && (u < left || (u == left && v < right + 1)) && g.edge(u, v)
      ensures (v, g.len(u, v)) in adj[u] && (u, g.len(u, v)) in adj[v]
    {
      if !(u == left && v == right) {
        assert (v, g.len(u, v)) in before[u] && (u, g.len(u, v)) in before[v];
      }
    }
  }

  lemma BuiltRepresents(m: Map, obstacles: seq<Obstacle>, points: seq<Point>, adj: Adjacency)
    requires Metric(m) && forall o :: o in obstacles ==> Undirected(o)
    requires Built(adj, GraphOf(m, obstacles, points), |points|, |points| + 1)
    ensures Represents(adj, GraphOf(m, obstacles, points))
  {
    var g := GraphOf(m, obstacles, points);
    forall u: nat, v: nat | u < g.n && v < g.n && g.edge(u, v) ensures (v, g.len(u, v)) in adj[u] {
      ClearSymmetric(obstacles, points[u], points[v]);
      if v < u { assert g.edge(v, u) && g.len(v, u) == g.len(u, v); }
    }
  }

  // ---- shortest_path_around_polygons -------------------------------------------------

  method ShortestPathAround(m: Map, start: Point, end: Point, rings: seq<seq<Point>>)
    returns (path: seq<Point>)
    requires Planar(m, rings)
    ensures path == [] <==> Unreachable(m, rings, start, end)
    ensures path != [] ==> ShortestLeg(m, rings, start, end, path)
    ensures path != [] && start != end ==>
              forall r, o, i :: r in rings && |r| >= 3 && o in m.repair(r) && 0 <= i < |path| - 1 ==>
                o.admits(path[i], path[i + 1])
    ensures (forall r, o :: r in rings && |r| >= 3 && o in m.repair(r) ==>
               !o.contains(start) && !o.contains(end) && o.admits(start, end)) ==> path == [start, end]
    ensures start != end && path != [] ==>
              forall r, o :: r in rings && |r| >= 3 && o in m.repair(r) ==> !o.contains(start) && !o.contains(end)
  {
    hide Represented, Inside, Clear, IsCorner, VisibleWalk, OpenWalk, Metric;
    var obstacles := CollectObstacles(m, rings);
    assert Metric(m) && forall o :: o in obstacles ==> Undirected(o);
    ListedRings(m, rings, obstacles, start, end);
    ListedRings(m, rings, obstacles, end, start);
    forall w ensures VisibleWalk(obstacles, start, end, w) <==> OpenWalk(m, rings, start, end, w) {
      SameWalks(m, rings, obstacles, start, end, w);
    }
    if start == end { return [start, end]; }
    if |obstacles| == 0 {
      path := [start, end];
      NothingBuried(m, rings, obstacles, start, end);
      NothingBuried(m, rings, obstacles, end, start);
      DirectAnswer(m, rings, start, end);
      return;
    }
    if Inside(obstacles, start) || Inside(obstacles, end) { return []; }
    if Clear(obstacles, start, end) {
      path := [start, end];
      DirectAnswer(m, rings, start, end);
      return;
    }
    path := SearchAround(m, start, end, obstacles);
    if path != [] { LegsAreOpen(m, rings, start, end, path); }
  }

  lemma NothingBuried(m: Map, rings: seq<seq<Point>>, obstacles: seq<Obstacle>, p: Point, q: Point)
    requires Represented(m, rings, obstacles) && obstacles == []
    ensures !Inside(obstacles, p) && Clear(obstacles, p, q)
  {
  }

  /** Where nothing forbids it the direct segment is the answer. */
  lemma DirectAnswer(m: Map, rings: seq<seq<Point>>, start: Point, end: Point)
    requires start != end && Open(m, rings, start, end) && !Buried(m, rings, start) && !Buried(m, rings, end)
    ensures ShortestLeg(m, rings, start, end, [start, end]) && !Unreachable(m, rings, start, end)
  {
    hide Buried, Corner;
    assert OpenWalk(m, rings, start, end, [start, end]);
    forall w | Triangle(m) && OpenWalk(m, rings, start, end, w)
      ensures PathDistance(m, [start, end]) <= PathDistance(m, w)
    {
      DirectIsShortest(m, w);
      assert [start, end][..1] == [start];
    }
  }

  lemma LegsAreOpen(m: Map, rings: seq<seq<Point>>, start: Point, end: Point, path: seq<Point>)
    requires OpenWalk(m, rings, start, end, path)
    ensures forall i :: 0 <= i < |path| - 1 ==> Open(m, rings, path[i], path[i + 1])
  {
  }

  /** The part after the shortcuts: build the graph, search it, translate back. */
  method SearchAround(m: Map, start: Point, end: Point, obstacles: seq<Obstacle>)
    returns (path: seq<Point>)
    requires Metric(m) && start != end && forall o :: o in obstacles ==> Undirected(o)
    ensures path == [] <==> forall w :: !VisibleWalk(obstacles, start, end, w)
    ensures path != [] ==> VisibleWalk(obstacles, start, end, path)
    ensures forall w :: path != [] && VisibleWalk(obstacles, start, end, w) ==>
                          PathDistance(m, path) <= PathDistance(m, w)
  {
    hide VisibleWalk, Represents, PathDistance, Length, Joins;
    var points := NodeList(obstacles, start, end);
    var adj := BuildAdjacency(m, obstacles, points);
    ghost var g := GraphOf(m, obstacles, points);
    var indices := ShortestPath(g, adj);
    forall w | VisibleWalk(obstacles, start, end, w)
      ensures indices != [] && Length(g, indices) <= PathDistance(m, w)
    {
      var q := WalkOfIndices(m, obstacles, start, end, points, w);
      JoinsLength(m, obstacles, points, q);
    }
    if indices == [] { return []; }
    JoinsLength(m, obstacles, points, indices);
    WalkOfPoints(m, obstacles, start, end, points, indices);
    path := At(points, indices);
  }

  lemma JoinsLength(m: Map, obstacles: seq<Obstacle>, points: seq<Point>, path: seq<nat>)
    requires Joins(GraphOf(m, obstacles, points), path, 0, 1)
    ensures path != [] && forall i :: 0 <= i < |path| ==> path[i] < |points|
    ensures PathDistance(m, At(points, path)) == Length(GraphOf(m, obstacles, points), path)
  {
    AtLength(m, obstacles, points, path);
  }
}
