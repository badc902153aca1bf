/** Dijkstra with a lazy-deletion heap over an obstacle visibility graph
    (src/fl_op/core/geometry.py, shortest_path_around_polygons). */
module VisibilityGraph {
  import opened Ordering
  import opened Wrappers

  /** Nodes 0..n-1; 0 is the start and 1 the end of the requested path. */
  datatype Graph = Graph(n: nat, edge: (nat, nat) -> bool, len: (nat, nat) -> real)

  type Adjacency = seq<seq<(nat, real)>>
  type Entry = (real, nat)

  ghost predicate NonNegative(g: Graph) {
    forall u: nat, v: nat :: g.len(u, v) >= 0.0
  }

  ghost predicate Represents(adj: Adjacency, g: Graph) {
    && |adj| == g.n
    && (forall u: nat, k: nat :: u < g.n && k < |adj[u]| ==> Sound(g, u, adj[u][k]))
    && (forall u: nat, v: nat :: u < g.n && v < g.n && g.edge(u, v) ==> (v, g.len(u, v)) in adj[u])
  }

  ghost predicate Sound(g: Graph, u: nat, hop: (nat, real)) {
    hop.0 < g.n && g.edge(u, hop.0) && hop.1 == g.len(u, hop.0)
  }

  // ---- Walks -----------------------------------------------------------------

  ghost predicate IsWalk(g: Graph, p: seq<nat>) {
    && |p| >= 1
    && (forall i :: 0 <= i < |p| ==> p[i] < g.n)
    && (forall i :: 0 <= i < |p| - 1 ==> g.edge(p[i], p[i + 1]))
  }

  ghost predicate Joins(g: Graph, p: seq<nat>, u: nat, v: nat) {
    IsWalk(g, p) && p[0] == u && p[|p| - 1] == v
  }

  ghost function Length(g: Graph, p: seq<nat>): real {
    if |p| <= 1 then 0.0
    else Length(g, p[..|p| - 1]) + g.len(p[|p| - 2], p[|p| - 1])
  }

  lemma {:induction false} LengthPrepend(g: Graph, u: nat, p: seq<nat>)
    requires |p| >= 1
    ensures Length(g, [u] + p) == g.len(u, p[0]) + Length(g, p)
  {
    var q := [u] + p;
    if |p| == 1 {
      assert q[..1] == [u];
    } else {
      LengthPrepend(g, u, p[..|p| - 1]);
      assert q[..|q| - 1] == [u] + p[..|p| - 1];
    }
  }

  lemma JoinsPrepend(g: Graph, u: nat, p: seq<nat>, v: nat)
    requires p != [] && Joins(g, p, p[0], v) && u < g.n && g.edge(u, p[0])
    ensures Joins(g, [u] + p, u, v) && Length(g, [u] + p) == g.len(u, p[0]) + Length(g, p)
  {
    LengthPrepend(g, u, p);
  }

  // ---- The state of the search -------------------------------------------------
  // best and predecessor are the code's lists; rank maps each settled node to its
  // position in settling order.

  type Labels = seq<Option<real>>

  ghost predicate Labelled(best: Labels, v: nat) {
    v < |best| && best[v].Some?
  }

  ghost predicate Shape(n: nat, best: Labels, rank: map<nat, nat>) {
    && n >= 2 && |best| == n && best[0] == Some(0.0)
    && (forall u :: u in rank ==> Labelled(best, u) && rank[u] < |rank|)
  }

  /** v's label is its predecessor's label plus one edge, and the predecessor was
      settled, before v if v is settled too. */
  ghost predicate HasParent(g: Graph, best: Labels, predecessor: seq<int>, rank: map<nat, nat>, v: nat)
    requires Labelled(best, v) && v < |predecessor|
  {
    var u := predecessor[v];
    && 0 <= u && u in rank && (v in rank ==> rank[u] < rank[v])
    && Labelled(best, u) && g.edge(u, v) && best[v].value == best[u].value + g.len(u, v)
  }

  ghost predicate Tree(g: Graph, best: Labels, predecessor: seq<int>, rank: map<nat, nat>) {
    && |predecessor| == |best|
    && (forall v: nat {:trigger HasParent(g, best, predecessor, rank, v)} ::
          Labelled(best, v) && v != 0 ==> HasParent(g, best, predecessor, rank, v))
  }

  /** Lazy deletion: every queued entry is at least its node's label, and a labelled
      node has exactly its current label queued just when it is not settled. */
  ghost predicate Queued(best: Labels, queue: multiset<Entry>, rank: map<nat, nat>) {
    && (forall e :: e in queue ==> Labelled(best, e.1) && best[e.1].value <= e.0 && queue[e] == 1)
    && (forall v: nat :: Labelled(best, v) ==> ((best[v].value, v) in queue <==> v !in rank))
  }

  ghost predicate AtMost(best: Labels, u: nat, bound: real) {
    Labelled(best, u) && best[u].value <= bound
  }

  /** No queued entry undercuts a settled label. */
  ghost predicate Monotone(best: Labels, queue: multiset<Entry>, settled: set<nat>) {
    forall u, e :: u in settled && e in queue ==> AtMost(best, u, e.0)
  }

  ghost predicate Relaxed(g: Graph, best: Labels, u: nat, v: nat) {
    Labelled(best, u) && AtMost(best, v, best[u].value + g.len(u, v))
  }

  ghost predicate AllRelaxed(g: Graph, best: Labels, settled: set<nat>) {
    forall u, v: nat :: u in settled && v < |best| && g.edge(u, v) ==> Relaxed(g, best, u, v)
  }

  ghost predicate Invariant(g: Graph, best: Labels, predecessor: seq<int>, queue: multiset<Entry>,
                            rank: map<nat, nat>)
  {
    && Shape(g.n, best, rank) && Tree(g, best, predecessor, rank) && Queued(best, queue, rank)
    && Monotone(best, queue, rank.Keys) && AllRelaxed(g, best, rank.Keys)
  }

  /** Invariant while node, settled last, is expanded: its first k hops are relaxed. */
  ghost predicate Expanding(g: Graph, best: Labels, predecessor: seq<int>, queue: multiset<Entry>,
                            rank: map<nat, nat>, node: nat, hops: seq<(nat, real)>, k: nat)
  {
    && Shape(g.n, best, rank) && Tree(g, best, predecessor, rank) && Queued(best, queue, rank)
    && Monotone(best, queue, rank.Keys) && AllRelaxed(g, best, rank.Keys - {node})
    && node in rank && k <= |hops|
    && (forall u :: u in rank ==> AtMost(best, u, best[node].value))
    && (forall j :: 0 <= j < k ==> Relaxed(g, best, node, hops[j].0))
  }

  ghost predicate IsMinimum(e: Entry, q: multiset<Entry>) {
    e in q && forall f :: f in q ==> e.0 <= f.0
  }

  // ---- Popping -------------------------------------------------------------------

  lemma SettledBound(n: nat, best: Labels, rank: map<nat, nat>)
    requires Shape(n, best, rank)
    ensures |rank| <= n == |best|
  {
    assert rank.Keys <= Below(n) by {
      forall u | u in rank ensures u < n { assert Labelled(best, u); }
    }
    SubsetSize(rank.Keys, Below(n));
  }

  lemma PopQueued(best: Labels, queue: multiset<Entry>, rank: map<nat, nat>, e: Entry)
    requires Queued(best, queue, rank) && e in queue
    ensures AtMost(best, e.1, e.0)
    ensures best[e.1].value < e.0 ==> Queued(best, queue - multiset{e}, rank)
    ensures best[e.1].value >= e.0 ==>
              e.1 !in rank && Queued(best, queue - multiset{e}, rank[e.1 := |rank|])
  {
    var q := queue - multiset{e};
    assert forall f :: f in q <==> f in queue && f != e;
  }

  lemma PopMonotone(best: Labels, queue: multiset<Entry>, settled: set<nat>, e: Entry)
    requires Monotone(best, queue, settled) && IsMinimum(e, queue) && AtMost(best, e.1, e.0)
    ensures Monotone(best, queue - multiset{e}, settled)
    ensures Monotone(best, queue - multiset{e}, settled + {e.1})
    ensures forall u :: u in settled + {e.1} ==> AtMost(best, u, e.0)
  {
    var q := queue - multiset{e};
    assert forall f :: f in q ==> f in queue;
  }

  lemma SettleShape(n: nat, best: Labels, rank: map<nat, nat>, node: nat)
    requires Shape(n, best, rank) && node !in rank && Labelled(best, node)
    ensures Shape(n, best, rank[node := |rank|])
    ensures forall u :: u in rank ==> rank[u] < |rank|
  {
    var r := rank[node := |rank|];
    assert r.Keys == rank.Keys + {node};
    assert |r.Keys| == |rank.Keys| + 1;
  }

  lemma SettleParent(g: Graph, best: Labels, predecessor: seq<int>, rank: map<nat, nat>, node: nat, v: nat)
    requires Labelled(best, v) && v < |predecessor| && HasParent(g, best, predecessor, rank, v)
    requires node !in rank && forall u :: u in rank ==> rank[u] < |rank|
    ensures HasParent(g, best, predecessor, rank[node := |rank|], v)
  {
    var r := rank[node := |rank|];
    var u := predecessor[v];
    assert u in rank && r[u] == rank[u];
  }

  lemma SettleTree(g: Graph, best: Labels, predecessor: seq<int>, rank: map<nat, nat>, node: nat)
    requires Tree(g, best, predecessor, rank) && node !in rank
    requires forall u :: u in rank ==> rank[u] < |rank|
    ensures Tree(g, best, predecessor, rank[node := |rank|])
  {
    hide HasParent;
    forall v: nat | Labelled(best, v) && v != 0
      ensures HasParent(g, best, predecessor, rank[node := |rank|], v)
    {
      assert HasParent(g, best, predecessor, rank, v);
      SettleParent(g, best, predecessor, rank, node, v);
    }
  }

  /** An outdated entry is dropped; a current one settles a node not settled before. */
  lemma Pop(g: Graph, adj: Adjacency, best: Labels, predecessor: seq<int>, queue: multiset<Entry>,
            rank: map<nat, nat>, e: Entry)
    requires Represents(adj, g)
    requires Invariant(g, best, predecessor, queue, rank) && IsMinimum(e, queue)
    ensures Labelled(best, e.1) && |best| == g.n && |rank| <= g.n
    ensures if best[e.1].value < e.0 then Invariant(g, best, predecessor, queue - multiset{e}, rank)
            else e.1 !in rank && |rank| < g.n && best[e.1] == Some(e.0) &&
                 Expanding(g, best, predecessor, queue - multiset{e}, rank[e.1 := |rank|], e.1, adj[e.1], 0)
  {
    hide Shape, Tree, Queued, Monotone, AllRelaxed;
    SettledBound(g.n, best, rank);
    PopQueued(best, queue, rank, e);
    PopMonotone(best, queue, rank.Keys, e);
    if best[e.1].value >= e.0 {
      SettleShape(g.n, best, rank, e.1);
      SettleTree(g, best, predecessor, rank, e.1);
      var r := rank[e.1 := |rank|];
      SettledBound(g.n, best, r);
      assert r.Keys == rank.Keys + {e.1} && r.Keys - {e.1} == rank.Keys;
    }
  }

  // ---- Relaxing ------------------------------------------------------------------

  /** Lowering the label of an unsettled node v to c, as a better way to it does. */
  ghost predicate Improves(best: Labels, rank: map<nat, nat>, node: nat, v: nat, c: real) {
    && v < |best| && v !in rank && v != 0 && (best[v].Some? ==> c < best[v].value)
    && node in rank && Labelled(best, node)
    && (forall u :: u in rank ==> AtMost(best, u, c))
  }

  lemma ImproveShape(n: nat, best: Labels, rank: map<nat, nat>, node: nat, v: nat, c: real)
    requires Shape(n, best, rank) && Improves(best, rank, node, v, c)
    ensures Shape(n, best[v := Some(c)], rank)
  {
    var b := best[v := Some(c)];
    assert forall u :: u in rank ==> Labelled(best, u);
  }

  lemma ImproveTree(g: Graph, best: Labels, predecessor: seq<int>, rank: map<nat, nat>, node: nat,
                    v: nat, c: real)
    requires Tree(g, best, predecessor, rank) && Improves(best, rank, node, v, c)
    requires g.edge(node, v) && c == best[node].value + g.len(node, v)
    ensures Tree(g, best[v := Some(c)], predecessor[v := node], rank)
  {
    var b, p := best[v := Some(c)], predecessor[v := node];
    forall x: nat | Labelled(b, x) && x != 0 ensures HasParent(g, b, p, rank, x) {
      if x != v {
        assert Labelled(best, x);
        assert HasParent(g, best, predecessor, rank, x);
      }
    }
  }

  lemma ImproveQueued(best: Labels, queue: multiset<Entry>, rank: map<nat, nat>, node: nat, v: nat,
                      c: real)
    requires Queued(best, queue, rank) && Improves(best, rank, node, v, c)
    ensures Queued(best[v := Some(c)], queue + multiset{(c, v)}, rank)
  {
    var b, q := best[v := Some(c)], queue + multiset{(c, v)};
    assert (c, v) !in queue;
    forall e | e in q ensures Labelled(b, e.1) && b[e.1].value <= e.0 && q[e] == 1 {
      assert e in queue || e == (c, v);
    }
    forall x: nat | Labelled(b, x) ensures (b[x].value, x) in q <==> x !in rank {
      assert x != v ==> Labelled(best, x);
    }
  }

  lemma ImproveOrder(g: Graph, best: Labels, queue: multiset<Entry>, rank: map<nat, nat>, node: nat,
                     v: nat, c: real, settled: set<nat>)
    requires Improves(best, rank, node, v, c) && settled <= rank.Keys
    requires Monotone(best, queue, rank.Keys) && AllRelaxed(g, best, settled)
    ensures Monotone(best[v := Some(c)], queue + multiset{(c, v)}, rank.Keys)
    ensures AllRelaxed(g, best[v := Some(c)], settled)
  {
    var b, q := best[v := Some(c)], queue + multiset{(c, v)};
    forall u, e | u in rank && e in q ensures AtMost(b, u, e.0) {
      assert e in queue || e == (c, v);
      assert AtMost(best, u, c);
    }
    forall u, x: nat | u in settled && x < |b| && g.edge(u, x) ensures Relaxed(g, b, u, x) {
      assert Relaxed(g, best, u, x);
    }
  }

  /** A settled label is final: only an unsettled node, and never the start, can improve. */
  lemma ImproveApplies(g: Graph, best: Labels, predecessor: seq<int>, rank: map<nat, nat>, node: nat,
                       v: nat)
    requires NonNegative(g) && Shape(g.n, best, rank) && Tree(g, best, predecessor, rank)
    requires node in rank && (forall u :: u in rank ==> AtMost(best, u, best[node].value))
    requires v < g.n && (best[v].Some? ==> best[node].value + g.len(node, v) < best[v].value)
    ensures Improves(best, rank, node, v, best[node].value + g.len(node, v))
  {
    LabelNonNegative(g, best, predecessor, rank, node);
    assert g.len(node, v) >= 0.0;
    assert v in rank ==> AtMost(best, v, best[node].value);
    forall u | u in rank ensures AtMost(best, u, best[node].value + g.len(node, v)) {
      assert AtMost(best, u, best[node].value);
    }
  }

  /** One turn of the expansion loop that improves a label. */
  lemma Improve(g: Graph, best: Labels, predecessor: seq<int>, queue: multiset<Entry>,
                rank: map<nat, nat>, node: nat, hops: seq<(nat, real)>, k: nat, v: nat, c: real)
    requires Expanding(g, best, predecessor, queue, rank, node, hops, k) && k < |hops|
    requires |best| == |predecessor| && Labelled(best, node)
    requires hops[k].0 == v && g.edge(node, v) && c == best[node].value + g.len(node, v)
    requires Improves(best, rank, node, v, c)
    ensures Expanding(g, best[v := Some(c)], predecessor[v := node], queue + multiset{(c, v)},
                      rank, node, hops, k + 1)
  {
    hide Shape, Tree, Queued, Monotone, AllRelaxed;
    ImproveShape(g.n, best, rank, node, v, c);
    ImproveTree(g, best, predecessor, rank, node, v, c);
    ImproveQueued(best, queue, rank, node, v, c);
    ImproveOrder(g, best, queue, rank, node, v, c, rank.Keys - {node});
    var b := best[v := Some(c)];
    forall j | 0 <= j < k + 1 ensures Relaxed(g, b, node, hops[j].0) {
      assert j < k ==> Relaxed(g, best, node, hops[j].0);
    }
    forall u | u in rank ensures AtMost(b, u, b[node].value) {
      assert AtMost(best, u, best[node].value);
    }
  }

  /** One turn of the expansion loop, with and without an improvement. */
  lemma Relax(g: Graph, best: Labels, predecessor: seq<int>, queue: multiset<Entry>,
              rank: map<nat, nat>, node: nat, hops: seq<(nat, real)>, k: nat)
    requires Expanding(g, best, predecessor, queue, rank, node, hops, k) && k < |hops|
    requires NonNegative(g) && Sound(g, node, hops[k])
    ensures Labelled(best, node) && hops[k].0 < |best| == |predecessor|
    ensures var v, c := hops[k].0, best[node].value + hops[k].1;
            if best[v].None? || c < best[v].value
            then Expanding(g, best[v := Some(c)], predecessor[v := node],
                           queue + multiset{(c, v)}, rank, node, hops, k + 1)
            else Expanding(g, best, predecessor, queue, rank, node, hops, k + 1)
  {
    hide Shape, Tree, Queued, Monotone, AllRelaxed;
    RelaxInBounds(g, best, predecessor, rank, node);
    var v, c := hops[k].0, best[node].value + hops[k].1;
    if best[v].None? || c < best[v].value {
      ImproveApplies(g, best, predecessor, rank, node, v);
      Improve(g, best, predecessor, queue, rank, node, hops, k, v, c);
    } else {
      assert Relaxed(g, best, node, v);
    }
  }

  lemma RelaxInBounds(g: Graph, best: Labels, predecessor: seq<int>, rank: map<nat, nat>, node: nat)
    requires Shape(g.n, best, rank) && Tree(g, best, predecessor, rank) && node in rank
    ensures Labelled(best, node) && |best| == |predecessor| == g.n
  {
  }

  lemma {:induction false} LabelNonNegative(g: Graph, best: Labels, predecessor: seq<int>,
                                            rank: map<nat, nat>, v: nat)
    requires NonNegative(g) && Shape(g.n, best, rank) && Tree(g, best, predecessor, rank) && v in rank
    ensures best[v].value >= 0.0
    decreases rank[v]
  {
    if v != 0 {
      assert HasParent(g, best, predecessor, rank, v);
      LabelNonNegative(g, best, predecessor, rank, predecessor[v]);
      assert g.len(predecessor[v], v) >= 0.0;
    }
  }

  /** Once every hop of the settled node is relaxed the loop invariant is back. */
  lemma ExpansionDone(g: Graph, adj: Adjacency, best: Labels, predecessor: seq<int>,
                      queue: multiset<Entry>, rank: map<nat, nat>, node: nat)
    requires Represents(adj, g) && node < g.n
    requires Expanding(g, best, predecessor, queue, rank, node, adj[node], |adj[node]|)
    ensures Invariant(g, best, predecessor, queue, rank)
  {
    RelaxInBounds(g, best, predecessor, rank, node);
    hide Shape, Tree, Queued, Monotone;
    forall u, v: nat | u in rank && v < |best| && g.edge(u, v) ensures Relaxed(g, best, u, v) {
      if u == node {
        assert (v, g.len(u, v)) in adj[node];
        var j :| 0 <= j < |adj[node]| && adj[node][j] == (v, g.len(u, v));
        assert Relaxed(g, best, node, adj[node][j].0);
      }
    }
  }

  // ---- Optimality --------------------------------------------------------------

  /** A walk from the start either ends at a settled node whose label it does not beat,
      or does not beat the label of some unsettled node. */
  lemma {:induction false} WalkBound(g: Graph, best: Labels, rank: map<nat, nat>, p: seq<nat>)
    requires NonNegative(g) && Shape(g.n, best, rank) && AllRelaxed(g, best, rank.Keys)
    requires IsWalk(g, p) && p[0] == 0
    ensures (p[|p| - 1] in rank && AtMost(best, p[|p| - 1], Length(g, p)))
            || exists x: nat :: x !in rank && AtMost(best, x, Length(g, p))
  {
    if |p| == 1 {
      assert AtMost(best, 0, Length(g, p));
    } else {
      var q, v := p[..|p| - 1], p[|p| - 1];
      assert q[0] == 0 && IsWalk(g, q);
      WalkBound(g, best, rank, q);
      var u := q[|q| - 1];
      assert u == p[|p| - 2] && g.edge(u, v) && g.len(u, v) >= 0.0;
      assert Length(g, p) == Length(g, q) + g.len(u, v);
      if u in rank && AtMost(best, u, Length(g, q)) {
        assert Relaxed(g, best, u, v);
        assert AtMost(best, v, Length(g, p));
      } else {
        var x: nat :| x !in rank && AtMost(best, x, Length(g, q));
        assert AtMost(best, x, Length(g, p));
      }
    }
  }

  /** The end node's label is final when it is popped, or when the heap has drained. */
  lemma LabelIsShortest(g: Graph, best: Labels, predecessor: seq<int>, queue: multiset<Entry>,
                        rank: map<nat, nat>, p: seq<nat>)
    requires NonNegative(g) && Invariant(g, best, predecessor, queue, rank) && Joins(g, p, 0, 1)
    requires queue == multiset{} || exists d :: IsMinimum((d, 1), queue) && AtMost(best, 1, d)
    ensures AtMost(best, 1, Length(g, p))
  {
    hide Tree, Monotone, AllRelaxed;
    WalkBound(g, best, rank, p);
    if !(1 in rank && AtMost(best, 1, Length(g, p))) {
      var x: nat :| x !in rank && AtMost(best, x, Length(g, p));
      assert (best[x].value, x) in queue;
    }
  }

  lemma Start(g: Graph, best: Labels, predecessor: seq<int>)
    requires g.n >= 2 && |best| == |predecessor| == g.n
    requires best[0] == Some(0.0) && forall v :: 1 <= v < g.n ==> best[v] == None
    ensures Invariant(g, best, predecessor, multiset{(0.0, 0)}, map[])
  {
  }

  // ---- heapq ---------------------------------------------------------------------

  /** Order of (distance, node) entries. */
  predicate EntryLe(e: Entry, f: Entry) { e.0 < f.0 || (e.0 == f.0 && e.1 <= f.1) }

  ghost predicate IsLeast(e: Entry, q: multiset<Entry>) { e in q && forall f :: f in q ==> EntryLe(e, f) }

  lemma {:induction false} LeastExists(q: multiset<Entry>)
    requires q != multiset{}
    ensures exists e :: IsLeast(e, q)
  {
    var x :| x in q;
    var rest := q - multiset{x};
    if rest == multiset{} {
      assert q == multiset{x};
      assert IsLeast(x, q);
    } else {
      LeastExists(rest);
      var y :| IsLeast(y, rest);
      assert forall f :: f in q ==> f == x || f in rest;
      assert IsLeast(if EntryLe(x, y) then x else y, q);
    }
  }

  /** The entry of least distance, the lower node on ties. */
  method HeapPop(q: multiset<Entry>) returns (e: Entry, rest: multiset<Entry>)
    requires q != multiset{}
    ensures IsLeast(e, q) && IsMinimum(e, q) && rest == q - multiset{e}
  {
    LeastExists(q);
    e :| e in q && forall f :: f in q ==> EntryLe(e, f);
    rest := q - multiset{e};
  }

  // ---- The search ------------------------------------------------------------------

  method Expand(ghost g: Graph, adj: Adjacency, node: nat, best: array<Option<real>>,
                predecessor: array<int>, queue: multiset<Entry>, ghost rank: map<nat, nat>)
    returns (q: multiset<Entry>)
    requires NonNegative(g) && Represents(adj, g) && node < g.n
    requires Expanding(g, best[..], predecessor[..], queue, rank, node, adj[node], 0)
    modifies best, predecessor
    ensures Invariant(g, best[..], predecessor[..], q, rank)
  {
    hide Expanding, Invariant;
    q := queue;
    var hops := adj[node];
    for k := 0 to |hops|
      invariant Expanding(g, best[..], predecessor[..], q, rank, node, hops, k)
    {
      assert Sound(g, node, hops[k]);
      Relax(g, best[..], predecessor[..], q, rank, node, hops, k);
      var (neighbor, distance) := hops[k];
      var candidate := best[node].value + distance;
      if best[neighbor] == None || candidate < best[neighbor].value {
        best[neighbor] := Some(candidate);
        predecessor[neighbor] := node;
        q := q + multiset{(candidate, neighbor)};
      }
    }
    ExpansionDone(g, adj, best[..], predecessor[..], q, rank, node);
  }

  /** Node indices of a shortest path from node 0 to node 1; empty when there is none. */
  method ShortestPath(ghost g: Graph, adj: Adjacency) returns (path: seq<nat>)
    requires g.n >= 2 && NonNegative(g) && Represents(adj, g)
    ensures path == [] <==> !exists p :: Joins(g, p, 0, 1)
    ensures path != [] ==> Joins(g, path, 0, 1)
    ensures forall p :: path != [] && Joins(g, p, 0, 1) ==> Length(g, path) <= Length(g, p)
  {
    hide Invariant, Expanding, Joins;
    var best := new Option<real>[|adj|](_ => None);
    var predecessor := new int[|adj|](_ => -1);
    best[0] := Some(0.0);
    var queue := multiset{(0.0, 0)};
    ghost var rank: map<nat, nat> := map[];
    Start(g, best[..], predecessor[..]);
    while queue != multiset{}
      invariant Invariant(g, best[..], predecessor[..], queue, rank)
      decreases g.n - |rank|, |queue|
    {
      var top, rest := HeapPop(queue);
      var (distance, node) := top;
      Pop(g, adj, best[..], predecessor[..], queue, rank, top);
      if distance > best[node].value {
        queue := rest;
        continue;
      }
      if node == 1 { break; }
      rank := rank[node := |rank|];
      queue := Expand(g, adj, node, best, predecessor, rest, rank);
    }
    forall p | Joins(g, p, 0, 1) ensures AtMost(best[..], 1, Length(g, p)) {
      LabelIsShortest(g, best[..], predecessor[..], queue, rank, p);
    }
    if best[1] == None { return []; }
    path := WalkBack(g, best[..], predecessor, queue, rank);
  }

  /** Follow predecessors from the end to the start and reverse. */
  method WalkBack(ghost g: Graph, ghost best: Labels, predecessor: array<int>,
                  ghost queue: multiset<Entry>, ghost rank: map<nat, nat>)
    returns (path: seq<nat>)
    requires g.n >= 2 && Invariant(g, best, predecessor[..], queue, rank) && Labelled(best, 1)
    ensures path != [] && Joins(g, path, 0, 1) && Length(g, path) == best[1].value
  {
    hide Invariant;
    var indices: seq<nat> := [1];
    ghost var trail: seq<nat> := [1];
    assert Joins(g, trail, 1, 1);
    Parents(g, best, predecessor[..], queue, rank, 1);
    hide Joins, Length;
    while indices[|indices| - 1] != 0
      invariant |indices| > 0 && trail == Reversed(indices) && Labelled(best, indices[|indices| - 1])
      invariant trail != [] && trail[0] == indices[|indices| - 1] && Joins(g, trail, trail[0], 1)
      invariant Length(g, trail) + best[indices[|indices| - 1]].value == best[1].value
      decreases var v := indices[|indices| - 1]; if v in rank then rank[v] else |rank|
    {
      var v := indices[|indices| - 1];
      Parents(g, best, predecessor[..], queue, rank, v);
      var u: nat := predecessor[v];
      JoinsPrepend(g, u, trail, 1);
      ReversedPush<nat>(indices, u);
      indices := indices + [u];
      trail := [u] + trail;
    }
    path := Reversed(indices);
  }

  lemma Parents(g: Graph, best: Labels, predecessor: seq<int>, queue: multiset<Entry>,
                rank: map<nat, nat>, v: nat)
    requires Invariant(g, best, predecessor, queue, rank) && Labelled(best, v)
    ensures best[0] == Some(0.0) && v < |best| == |predecessor| == g.n
    ensures v != 0 ==>
              && HasParent(g, best, predecessor, rank, v) && predecessor[v] < g.n
              && (var u: nat := predecessor[v]; rank[u] < |rank|)
  {
    hide Queued, Monotone, AllRelaxed;
    if v != 0 { assert HasParent(g, best, predecessor, rank, v); }
  }

  function Reversed<T>(s: seq<T>): (r: seq<T>)
    ensures |r| == |s|
  {
    if s == [] then [] else Reversed(s[1..]) + [s[0]]
  }

  lemma {:induction false} ReversedPush<T>(s: seq<T>, x: T)
    ensures Reversed(s + [x]) == [x] + Reversed(s)
  {
    if s == [] {
      assert s + [x] == [x];
    } else {
      ReversedPush(s[1..], x);
      assert (s + [x])[1..] == s[1..] + [x];
    }
  }
}
