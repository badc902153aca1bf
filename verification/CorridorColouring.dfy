/** Degree-ordered greedy colouring of the flight conflict graph with a bounded number of
    corridors (src/fl_op/planning/airspace.py, _assign_corridors), on values. */
module CorridorColouring {
  import opened Ordering

  type Pairs = seq<(nat, nat)>
  /** Corridor of each flight; -1 is the code's "not yet assigned". */
  type Colours = seq<int>

  ghost predicate ConflictGraph(n: nat, pairs: Pairs) {
    && Distinct(pairs)
    && (forall k :: 0 <= k < |pairs| ==> pairs[k].0 < pairs[k].1 < n)
  }

  predicate Touches(e: (nat, nat), i: nat) { e.0 == i || e.1 == i }

  function Other(e: (nat, nat), i: nat): nat { if e.0 == i then e.1 else e.0 }

  /** neighbors[i]: the flights conflicting with i. */
  function Neighbours(pairs: Pairs, i: nat): set<nat> {
    if pairs == [] then {}
    else Neighbours(pairs[..|pairs| - 1], i)
         + (if Touches(pairs[|pairs| - 1], i) then {Other(pairs[|pairs| - 1], i)} else {})
  }

  function Degree(pairs: Pairs, i: nat): nat { |Neighbours(pairs, i)| }

  function WithColour(ns: set<nat>, col: Colours, c: int): set<nat> {
    set v | v in ns && v < |col| && col[v] == c
  }

  /** How many of the flights ns are in corridor c. */
  function Load(ns: set<nat>, col: Colours, c: int): nat { |WithColour(ns, col, c)| }

  /** The corridor a flight takes: the least loaded by its neighbours, lowest first. A free
      corridor has load zero, so this covers both branches of the code. */
  ghost predicate Chosen(ns: set<nat>, col: Colours, count: nat, c: int) {
    && 0 <= c < count
    && (forall d :: 0 <= d < count ==> Load(ns, col, c) <= Load(ns, col, d))
    && (forall d :: 0 <= d < c ==> Load(ns, col, c) < Load(ns, col, d))
  }

  // ---- The run of the greedy pass ----------------------------------------------------

  /** The colours when the first p flights of order have been served. */
  ghost function After(col: Colours, order: seq<nat>, p: nat): Colours
    requires p <= |order|
  {
    seq(|col|, v requires 0 <= v < |col| => if v in order[..p] then col[v] else -1)
  }

  ghost predicate IsOrder(n: nat, pairs: Pairs, order: seq<nat>) {
    && multiset(order) == multiset(Range(n)) && Distinct(order)
    && (forall p :: 0 <= p < |order| ==> order[p] < n)
    && (forall v: nat :: v < n ==> v in order)
    && (forall i, j :: 0 <= i < j < |order| ==> Degree(pairs, order[i]) >= Degree(pairs, order[j]))
  }

  /** col is what _assign_corridors leaves behind for this service order. */
  ghost predicate GreedyColoured(n: nat, pairs: Pairs, count: nat, order: seq<nat>, col: Colours) {
    && |col| == n && IsOrder(n, pairs, order)
    && (forall p :: 0 <= p < |order| ==>
          Chosen(Neighbours(pairs, order[p]), After(col, order, p), count, col[order[p]]))
  }

  // ---- Counting conflict pairs -------------------------------------------------------

  /** Conflict pairs with both flights in one corridor. */
  function SameCorridor(pairs: Pairs, col: Colours): nat
    requires forall k :: 0 <= k < |pairs| ==> pairs[k].0 < |col| && pairs[k].1 < |col|
  {
    if pairs == [] then 0
    else SameCorridor(pairs[..|pairs| - 1], col)
         + (var e := pairs[|pairs| - 1]; if col[e.0] == col[e.1] && col[e.0] >= 0 then 1 else 0)
  }

  /** Conflict pairs with both flights already assigned. */
  function Assigned(pairs: Pairs, col: Colours): nat
    requires forall k :: 0 <= k < |pairs| ==> pairs[k].0 < |col| && pairs[k].1 < |col|
  {
    if pairs == [] then 0
    else Assigned(pairs[..|pairs| - 1], col)
         + (var e := pairs[|pairs| - 1]; if col[e.0] >= 0 && col[e.1] >= 0 then 1 else 0)
  }

  /** Assigned conflict partners of i whose corridor is below m. */
  function PartnersBelow(pairs: Pairs, col: Colours, i: nat, m: int): nat {
    if pairs == [] then 0
    else PartnersBelow(pairs[..|pairs| - 1], col, i, m)
         + (var e := pairs[|pairs| - 1]; var o := Other(e, i);
            if Touches(e, i) && o < |col| && 0 <= col[o] < m then 1 else 0)
  }

  /** Conflict partners of i in corridor c. */
  function PartnersIn(pairs: Pairs, col: Colours, i: nat, c: int): nat {
    if pairs == [] then 0
    else PartnersIn(pairs[..|pairs| - 1], col, i, c)
         + (var e := pairs[|pairs| - 1]; var o := Other(e, i);
            if Touches(e, i) && o < |col| && col[o] == c then 1 else 0)
  }

  lemma {:induction false} NeighbourIsPartner(pairs: Pairs, i: nat, v: nat)
    ensures v in Neighbours(pairs, i) <==>
            exists k :: 0 <= k < |pairs| && Touches(pairs[k], i) && Other(pairs[k], i) == v
  {
    if pairs != [] {
      var n := |pairs| - 1;
      NeighbourIsPartner(pairs[..n], i, v);
      if v in Neighbours(pairs[..n], i) {
        var k :| 0 <= k < n && Touches(pairs[..n][k], i) && Other(pairs[..n][k], i) == v;
        assert pairs[k] == pairs[..n][k];
      }
      if k :| 0 <= k < |pairs| && Touches(pairs[k], i) && Other(pairs[k], i) == v {
        if k < n { assert pairs[..n][k] == pairs[k]; }
      }
    }
  }

  lemma AddLoad(ns: set<nat>, col: Colours, c: int, v: nat)
    requires v !in ns
    ensures Load(ns + {v}, col, c) == Load(ns, col, c) + (if v < |col| && col[v] == c then 1 else 0)
  {
    var a, b := WithColour(ns, col, c), WithColour(ns + {v}, col, c);
    if v < |col| && col[v] == c {
      assert b == a + {v};
    } else {
      assert b == a;
    }
  }

  /** In a conflict graph the set-based load equals the pair count. */
  lemma {:induction false} LoadIsPartners(n: nat, pairs: Pairs, col: Colours, i: nat, c: int)
    requires ConflictGraph(n, pairs)
    ensures Load(Neighbours(pairs, i), col, c) == PartnersIn(pairs, col, i, c)
  {
    hide Load;
    if pairs == [] {
      LoadOfNone(col, c);
    } else {
      var front, e := pairs[..|pairs| - 1], pairs[|pairs| - 1];
      LoadIsPartners(n, front, col, i, c);
      if Touches(e, i) {
        NewNeighbour(n, pairs, i);
        AddLoad(Neighbours(front, i), col, c, Other(e, i));
      } else {
        assert Neighbours(pairs, i) == Neighbours(front, i);
      }
    }
  }

  lemma LoadOfNone(col: Colours, c: int)
    ensures Load({}, col, c) == 0
  {
    assert WithColour({}, col, c) == {};
  }

  lemma NewNeighbour(n: nat, pairs: Pairs, i: nat)
    requires ConflictGraph(n, pairs) && pairs != [] && Touches(pairs[|pairs| - 1], i)
    ensures Other(pairs[|pairs| - 1], i) !in Neighbours(pairs[..|pairs| - 1], i)
  {
    var front, e := pairs[..|pairs| - 1], pairs[|pairs| - 1];
    NeighbourIsPartner(front, i, Other(e, i));
    forall k | 0 <= k < |front| && Touches(front[k], i) ensures Other(front[k], i) != Other(e, i) {
      assert front[k] == pairs[k] && pairs[k] != e;
    }
  }

  lemma {:induction false} PartnersWithinDegree(n: nat, pairs: Pairs, col: Colours, i: nat, m: int)
    requires ConflictGraph(n, pairs)
    ensures PartnersBelow(pairs, col, i, m) <= Degree(pairs, i)
  {
    if pairs != [] {
      var front := pairs[..|pairs| - 1];
      PartnersWithinDegree(n, front, col, i, m);
      if Touches(pairs[|pairs| - 1], i) { NewNeighbour(n, pairs, i); }
    }
  }

  lemma {:induction false} PartnersStep(pairs: Pairs, col: Colours, i: nat, c: nat)
    ensures PartnersBelow(pairs, col, i, c + 1)
            == PartnersBelow(pairs, col, i, c) + PartnersIn(pairs, col, i, c)
  {
    if pairs != [] { PartnersStep(pairs[..|pairs| - 1], col, i, c); }
  }

  lemma {:induction false} NoPartnersBelowZero(pairs: Pairs, col: Colours, i: nat)
    ensures PartnersBelow(pairs, col, i, 0) == 0
  {
    if pairs != [] { NoPartnersBelowZero(pairs[..|pairs| - 1], col, i); }
  }

  /** m corridors with at least load partners each hold at least m * load partners. */
  lemma {:induction false} LoadsAddUp(pairs: Pairs, col: Colours, i: nat, load: nat, m: nat)
    requires forall d :: 0 <= d < m ==> load <= PartnersIn(pairs, col, i, d)
    ensures m * load <= PartnersBelow(pairs, col, i, m)
  {
    if m == 0 {
      NoPartnersBelowZero(pairs, col, i);
    } else {
      LoadsAddUp(pairs, col, i, load, m - 1);
      PartnersStep(pairs, col, i, m - 1);
      assert m * load == (m - 1) * load + load;
    }
  }

  /** The corridor chosen for i carries at most a count-th of its assigned partners. */
  lemma ChosenIsLight(n: nat, pairs: Pairs, col: Colours, count: nat, i: nat, c: int)
    requires ConflictGraph(n, pairs) && Chosen(Neighbours(pairs, i), col, count, c)
    ensures count * PartnersIn(pairs, col, i, c) <= PartnersBelow(pairs, col, i, count)
  {
    LoadIsPartners(n, pairs, col, i, c);
    forall d | 0 <= d < count ensures PartnersIn(pairs, col, i, c) <= PartnersIn(pairs, col, i, d) {
      LoadIsPartners(n, pairs, col, i, d);
    }
    LoadsAddUp(pairs, col, i, PartnersIn(pairs, col, i, c), count);
  }

  // ---- One assignment ----------------------------------------------------------------

  ghost predicate InRange(pairs: Pairs, col: Colours, count: nat) {
    && (forall k :: 0 <= k < |pairs| ==> pairs[k].0 < pairs[k].1 < |col|)
    && (forall v :: 0 <= v < |col| ==> -1 <= col[v] < count)
  }

  lemma {:induction false} AssignCounts(pairs: Pairs, col: Colours, count: nat, i: nat, c: int)
    requires InRange(pairs, col, count) && i < |col| && col[i] == -1 && 0 <= c < count
    ensures SameCorridor(pairs, col[i := c]) == SameCorridor(pairs, col) + PartnersIn(pairs, col, i, c)
    ensures Assigned(pairs, col[i := c]) == Assigned(pairs, col) + PartnersBelow(pairs, col, i, count)
  {
    if pairs != [] {
      var front, e := pairs[..|pairs| - 1], pairs[|pairs| - 1];
      assert forall k :: 0 <= k < |front| ==> front[k] == pairs[k];
      AssignCounts(front, col, count, i, c);
      assert pairs[|pairs| - 1].0 < pairs[|pairs| - 1].1;
    }
  }

  lemma {:induction false} NothingAssigned(pairs: Pairs, col: Colours)
    requires forall k :: 0 <= k < |pairs| ==> pairs[k].0 < |col| && pairs[k].1 < |col|
    requires forall v :: 0 <= v < |col| ==> col[v] == -1
    ensures SameCorridor(pairs, col) == 0
  {
    if pairs != [] { NothingAssigned(pairs[..|pairs| - 1], col); }
  }

  lemma {:induction false} AssignedAtMostAll(pairs: Pairs, col: Colours)
    requires forall k :: 0 <= k < |pairs| ==> pairs[k].0 < |col| && pairs[k].1 < |col|
    ensures Assigned(pairs, col) <= |pairs|
  {
    if pairs != [] { AssignedAtMostAll(pairs[..|pairs| - 1], col); }
  }

  // ---- Theorems ----------------------------------------------------------------------

  lemma EveryFlightAssigned(n: nat, pairs: Pairs, count: nat, order: seq<nat>, col: Colours)
    requires GreedyColoured(n, pairs, count, order, col)
    ensures forall v :: 0 <= v < n ==> 0 <= col[v] < count
  {
    forall v: nat | v < n ensures 0 <= col[v] < count {
      assert v in order;
      var p :| 0 <= p < |order| && order[p] == v;
      assert Chosen(Neighbours(pairs, order[p]), After(col, order, p), count, col[order[p]]);
    }
  }

  lemma AfterStep(n: nat, pairs: Pairs, count: nat, order: seq<nat>, col: Colours, p: nat)
    requires GreedyColoured(n, pairs, count, order, col) && p < |order|
    ensures var v := order[p];
            v < n && After(col, order, p)[v] == -1 && After(col, order, p + 1) == After(col, order, p)[v := col[v]]
  {
    var v := order[p];
    assert v in order;
    assert order[..p + 1] == order[..p] + [v];
    assert v !in order[..p];
  }

  lemma {:induction false} PrefixBound(n: nat, pairs: Pairs, count: nat, order: seq<nat>, col: Colours, p: nat)
    requires ConflictGraph(n, pairs) && GreedyColoured(n, pairs, count, order, col) && p <= |order|
    ensures InRange(pairs, After(col, order, p), count)
    ensures count * SameCorridor(pairs, After(col, order, p)) <= Assigned(pairs, After(col, order, p))
  {
    hide Chosen, SameCorridor, Assigned;
    EveryFlightAssigned(n, pairs, count, order, col);
    var after := After(col, order, p);
    if p == 0 {
      NothingAssigned(pairs, after);
    } else {
      var before, v := After(col, order, p - 1), order[p - 1];
      PrefixBound(n, pairs, count, order, col, p - 1);
      AfterStep(n, pairs, count, order, col, p - 1);
      assert Chosen(Neighbours(pairs, v), before, count, col[v]);
      StepBound(n, pairs, count, before, v, col[v]);
    }
  }

  lemma StepBound(n: nat, pairs: Pairs, count: nat, before: Colours, v: nat, c: int)
    requires ConflictGraph(n, pairs) && InRange(pairs, before, count)
    requires v < |before| && before[v] == -1 && Chosen(Neighbours(pairs, v), before, count, c)
    requires count * SameCorridor(pairs, before) <= Assigned(pairs, before)
    ensures InRange(pairs, before[v := c], count)
    ensures count * SameCorridor(pairs, before[v := c]) <= Assigned(pairs, before[v := c])
  {
    ChosenIsLight(n, pairs, before, count, v, c);
    AssignCounts(pairs, before, count, v, c);
    Expand(count, SameCorridor(pairs, before), PartnersIn(pairs, before, v, c));
  }

  lemma Expand(a: nat, b: nat, c: nat)
    ensures a * (b + c) == a * b + a * c
  {
  }

  /** At most one conflict pair in count is left in a shared corridor. */
  lemma SharedPairsBound(n: nat, pairs: Pairs, count: nat, order: seq<nat>, col: Colours)
    requires ConflictGraph(n, pairs) && GreedyColoured(n, pairs, count, order, col)
    ensures count * SameCorridor(pairs, col) <= |pairs|
  {
    PrefixBound(n, pairs, count, order, col, |order|);
    assert order[..|order|] == order;
    assert After(col, order, |order|) == col;
    AssignedAtMostAll(pairs, col);
  }

  lemma {:induction false} PartnerCounts(pairs: Pairs, col: Colours, k: nat, i: nat)
    requires k < |pairs| && Touches(pairs[k], i) && Other(pairs[k], i) < |col|
    ensures PartnersIn(pairs, col, i, col[Other(pairs[k], i)]) >= 1
  {
    if k < |pairs| - 1 { PartnerCounts(pairs[..|pairs| - 1], col, k, i); }
  }

  /** Flights left sharing a corridor are contended: each has at least count neighbours. */
  lemma SharingNeedsDegree(n: nat, pairs: Pairs, count: nat, order: seq<nat>, col: Colours, k: nat)
    requires ConflictGraph(n, pairs) && GreedyColoured(n, pairs, count, order, col)
    requires k < |pairs| && col[pairs[k].0] == col[pairs[k].1]
    ensures Degree(pairs, pairs[k].0) >= count && Degree(pairs, pairs[k].1) >= count
  {
    var e := pairs[k];
    assert e.0 in order && e.1 in order;
    var p :| 0 <= p < |order| && order[p] == e.0;
    var q :| 0 <= q < |order| && order[q] == e.1;
    if p < q {
      LaterNeedsDegree(n, pairs, count, order, col, k, q);
    } else {
      LaterNeedsDegree(n, pairs, count, order, col, k, p);
    }
  }

  lemma LaterNeedsDegree(n: nat, pairs: Pairs, count: nat, order: seq<nat>, col: Colours, k: nat, q: nat)
    requires ConflictGraph(n, pairs) && GreedyColoured(n, pairs, count, order, col)
    requires k < |pairs| && q < |order| && Touches(pairs[k], order[q])
    requires Other(pairs[k], order[q]) in order[..q]
    requires col[pairs[k].0] == col[pairs[k].1]
    ensures Degree(pairs, order[q]) >= count
  {
    var v, u := order[q], Other(pairs[k], order[q]);
    var before := After(col, order, q);
    assert before[u] == col[u] == col[v];
    assert Chosen(Neighbours(pairs, v), before, count, col[v]);
    PartnerCounts(pairs, before, k, v);
    ChosenIsLight(n, pairs, before, count, v, col[v]);
    PartnersWithinDegree(n, pairs, before, v, count);
    AtLeast(count, PartnersIn(pairs, before, v, col[v]));
  }

  lemma AtLeast(a: nat, b: nat)
    requires b >= 1
    ensures a * b >= a
  {
  }

  /** With every degree below the number of corridors no conflict pair shares one. */
  lemma FewNeighboursSeparate(n: nat, pairs: Pairs, count: nat, order: seq<nat>, col: Colours)
    requires ConflictGraph(n, pairs) && GreedyColoured(n, pairs, count, order, col)
    requires forall v: nat :: v < n ==> Degree(pairs, v) < count
    ensures forall k :: 0 <= k < |pairs| ==> col[pairs[k].0] != col[pairs[k].1]
  {
    forall k | 0 <= k < |pairs| ensures col[pairs[k].0] != col[pairs[k].1] {
      if col[pairs[k].0] == col[pairs[k].1] { SharingNeedsDegree(n, pairs, count, order, col, k); }
    }
  }
}
