/** The mutable airspace deconfliction pass (src/fl_op/planning/airspace.py). */
module Airspace {
  import opened Wrappers
  import opened Ordering
  import opened CorridorColouring
  import opened TemporalSeparation

  class Flight {
    const plan: Plan
    var corridor: int
    var delayS: real

    constructor (plan: Plan)
      ensures this.plan == plan && corridor == -1 && delayS == 0.0
    {
      this.plan, corridor, delayS := plan, -1, 0.0;
    }
  }

  /** AIRSPACE_CORRIDOR_COUNT, AIRSPACE_TIME_BUFFER_S, AIRSPACE_HORIZONTAL_SEPARATION_M. */
  datatype Config = Config(corridors: nat, bufferS: real, separationM: real)

  const DEFAULT_CONFIG := Config(4, 60.0, 150.0)

  function Plans(flights: seq<Flight>): (r: seq<Plan>)
    ensures |r| == |flights| && forall k :: 0 <= k < |r| ==> r[k] == flights[k].plan
  {
    seq(|flights|, k requires 0 <= k < |flights| => flights[k].plan)
  }

  function Corridors(flights: seq<Flight>): (r: Colours)
    reads flights
    ensures |r| == |flights| && forall k :: 0 <= k < |r| ==> r[k] == flights[k].corridor
  {
    seq(|flights|, k requires 0 <= k < |flights| reads flights => flights[k].corridor)
  }

  function Delays(flights: seq<Flight>): (r: seq<real>)
    reads flights
    ensures |r| == |flights| && forall k :: 0 <= k < |r| ==> r[k] == flights[k].delayS
  {
    seq(|flights|, k requires 0 <= k < |flights| reads flights => flights[k].delayS)
  }

  // ---- _conflict_pairs -----------------------------------------------------------------

  /** The un-shifted windows overlap and the lateral paths come too close. */
  predicate Conflicting(plans: seq<Plan>, lateral: (nat, nat) -> real, config: Config, i: nat, j: nat)
    requires i < |plans| && j < |plans|
  {
    && Overlap(config.bufferS, plans[i].entry, plans[i].exit, plans[j].entry, plans[j].exit)
    && lateral(i, j) < config.separationM
  }

  /** pairs holds the conflicting pairs before (left, right) in lexicographic order. */
  ghost predicate PairsSoFar(plans: seq<Plan>, lateral: (nat, nat) -> real, config: Config, pairs: Pairs,
                             left: nat, right: nat)
  {
    && (forall k :: 0 <= k < |pairs| ==> pairs[k].0 < pairs[k].1 < |plans|)
    && (forall k :: 0 <= k < |pairs| ==>
          pairs[k].0 < left || (pairs[k].0 == left && pairs[k].1 < right))
    && (forall i: nat, j: nat :: i < j < |plans| && (i < left || (i == left && j < right)) ==>
          ((i, j) in pairs <==> Conflicting(plans, lateral, config, i, j)))
  }

  /** pairs are exactly the flights that come closer than the separation while neither is out
      of the air a buffer before the other enters, each pair once. */
  ghost predicate PairsAre(plans: seq<Plan>, lateral: (nat, nat) -> real, config: Config, pairs: Pairs) {
    && ConflictGraph(|plans|, pairs)
    && (forall i: nat, j: nat :: i < j < |plans| ==>
          ((i, j) in pairs <==>
             && lateral(i, j) < config.separationM
             && plans[i].exit + config.bufferS > plans[j].entry
             && plans[j].exit + config.bufferS > plans[i].entry))
  }

  method ConflictPairs(plans: seq<Plan>, lateral: (nat, nat) -> real, config: Config) returns (pairs: Pairs)
    ensures PairsAre(plans, lateral, config, pairs)
  {
    pairs := [];
    for i := 0 to |plans|
      invariant Distinct(pairs) && PairsSoFar(plans, lateral, config, pairs, i, i + 1)
    {
      for j := i + 1 to |plans|
        invariant Distinct(pairs) && PairsSoFar(plans, lateral, config, pairs, i, j)
      {
        ghost var before := pairs;
        if Conflicting(plans, lateral, config, i, j) {
          pairs := pairs + [(i, j)];
        }
        PairsStep(plans, lateral, config, before, pairs, i, j);
      }
    }
  }

  lemma PairsStep(plans: seq<Plan>, lateral: (nat, nat) -> real, config: Config, before: Pairs, pairs: Pairs,
                  i: nat, j: nat)
    requires i < j < |plans| && Distinct(before) && PairsSoFar(plans, lateral, config, before, i, j)
    requires pairs == if Conflicting(plans, lateral, config, i, j) then before + [(i, j)] else before
    ensures Distinct(pairs) && PairsSoFar(plans, lateral, config, pairs, i, j + 1)
  {
    hide Conflicting;
    assert (i, j) !in before;
    forall u: nat, v: nat | u < v < |plans| && (u < i || (u == i && v < j + 1))
      ensures (u, v) in pairs <==> Conflicting(plans, lateral, config, u, v)
    {
      if (u, v) != (i, j) { assert (u, v) in pairs <==> (u, v) in before; }
    }
  }

  // ---- _assign_corridors ---------------------------------------------------------------

  method NeighbourSets(n: nat, pairs: Pairs) returns (neighbors: seq<set<nat>>)
    requires forall k :: 0 <= k < |pairs| ==> pairs[k].0 < n && pairs[k].1 < n && pairs[k].0 != pairs[k].1
    ensures |neighbors| == n && forall i :: 0 <= i < n ==> neighbors[i] == Neighbours(pairs, i)
  {
    neighbors := seq(n, _ => {});
    for k := 0 to |pairs|
      invariant |neighbors| == n && forall i :: 0 <= i < n ==> neighbors[i] == Neighbours(pairs[..k], i)
    {
      assert pairs[..k + 1][..k] == pairs[..k];
      var (i, j) := pairs[k];
      neighbors := neighbors[i := neighbors[i] + {j}];
      neighbors := neighbors[j := neighbors[j] + {i}];
    }
    assert pairs[..|pairs|] == pairs;
  }

  predicate DegreeLe(degrees: seq<nat>, plans: seq<Plan>, i: nat, j: nat) {
    && i < |degrees| == |plans| && j < |degrees|
    && (degrees[i] > degrees[j] || (degrees[i] == degrees[j] && (i == j || PlacedBefore(plans, i, j))))
  }

  /** Among flights of one degree the service order is by entry, then task id, then index. */
  ghost predicate TieBreak(plans: seq<Plan>, pairs: Pairs, order: seq<nat>) {
    && (forall p :: 0 <= p < |order| ==> order[p] < |plans|)
    && (forall p, q :: 0 <= p < q < |order| && Degree(pairs, order[p]) == Degree(pairs, order[q]) ==>
          Earlier(plans, order[p], order[q]))
  }

  /** Decreasing conflict degree, then entry time, then task id; the sort is stable, so the
      index settles equal keys. */
  method DegreeOrder(plans: seq<Plan>, pairs: Pairs, neighbors: seq<set<nat>>) returns (order: seq<nat>)
    requires |neighbors| == |plans| && forall i :: 0 <= i < |plans| ==> neighbors[i] == Neighbours(pairs, i)
    ensures IsOrder(|plans|, pairs, order)
    ensures TieBreak(plans, pairs, order)
  {
    var degrees := seq(|plans|, i requires 0 <= i < |plans| => |neighbors[i]|);
    var le := (i: nat, j: nat) => DegreeLe(degrees, plans, i, j);
    order := SortBy(le, Range(|plans|));
    DegreePreorder(degrees, plans, le);
    SortedRange(le, |plans|, order);
    hide SortBy, SortedBy, PreorderOn, Neighbours, DegreeLe, Earlier, IsOrder;
    DegreesSorted(degrees, plans, le, order);
    DegreesGiveOrder(degrees, plans, pairs, order);
  }

  lemma DegreesGiveOrder(degrees: seq<nat>, plans: seq<Plan>, pairs: Pairs, order: seq<nat>)
    requires |degrees| == |plans| == |order| && Distinct(order) && multiset(order) == multiset(Range(|plans|))
    requires forall i :: 0 <= i < |plans| ==> degrees[i] == Degree(pairs, i)
    requires (forall p :: 0 <= p < |order| ==> order[p] < |plans|) && forall v: nat :: v < |plans| ==> v in order
    requires forall p, q :: 0 <= p < q < |order| ==>
               && degrees[order[p]] >= degrees[order[q]]
               && (degrees[order[p]] == degrees[order[q]] ==> Earlier(plans, order[p], order[q]))
    ensures IsOrder(|plans|, pairs, order)
    ensures TieBreak(plans, pairs, order)
  {
    hide Earlier, Degree;
  }

  lemma DegreesSorted(degrees: seq<nat>, plans: seq<Plan>, le: (nat, nat) -> bool, order: seq<nat>)
    requires forall i: nat, j: nat :: le(i, j) == DegreeLe(degrees, plans, i, j)
    requires SortedBy(le, order) && Distinct(order)
    requires forall p :: 0 <= p < |order| ==> order[p] < |degrees| == |plans|
    ensures forall p, q :: 0 <= p < q < |order| ==>
              && degrees[order[p]] >= degrees[order[q]]
              && (degrees[order[p]] == degrees[order[q]] ==> Earlier(plans, order[p], order[q]))
  {
    hide PlacedBefore, Earlier;
    forall p, q | 0 <= p < q < |order|
      ensures DegreeLe(degrees, plans, order[p], order[q])
      ensures PlacedBefore(plans, order[p], order[q]) <==> Earlier(plans, order[p], order[q])
    {
      assert le(order[p], order[q]);
      PlacedIsEarlier(plans, order[p], order[q]);
    }
  }

  lemma DegreePreorder(degrees: seq<nat>, plans: seq<Plan>, le: (nat, nat) -> bool)
    requires |degrees| == |plans|
    requires forall i: nat, j: nat :: le(i, j) == DegreeLe(degrees, plans, i, j)
    ensures PreorderOn(le, Range(|plans|))
  {
    var all := Range(|plans|);
    hide Earlier, PlacedBefore;
    forall i: nat, j: nat | i < |plans| && j < |plans|
      ensures PlacedBefore(plans, i, j) <==> Earlier(plans, i, j)
    {
      PlacedIsEarlier(plans, i, j);
    }
    forall i, j | i in all && j in all ensures le(i, j) || le(j, i) {
      if i != j { EarlierTotal(plans, i, j); }
    }
    forall i, j, k | i in all && j in all && k in all && le(i, j) && le(j, k) ensures le(i, k) {
      if Earlier(plans, i, j) && Earlier(plans, j, k) { EarlierTransitive(plans, i, j, k); }
    }
  }

  /** used[c] counts the neighbours already in corridor c; absent means none. */
  ghost predicate CountsLoads(used: map<int, nat>, ns: set<nat>, col: Colours) {
    forall c :: c >= 0 ==> Load(ns, col, c) == if c in used then used[c] else 0
  }

  method UsedByNeighbor(ns: set<nat>, flights: seq<Flight>) returns (used: map<int, nat>)
    requires forall v :: v in ns ==> v < |flights|
    ensures CountsLoads(used, ns, Corridors(flights))
    ensures forall c :: c in used ==> used[c] > 0
  {
    used := map[];
    var todo := ns;
    ghost var seen: set<nat> := {};
    ghost var col := Corridors(flights);
    forall c ensures Load({}, col, c) == 0 { LoadOfNone(col, c); }
    while todo != {}
      invariant seen + todo == ns && seen !! todo
      invariant CountsLoads(used, seen, col)
      invariant forall c :: c in used ==> used[c] > 0
      decreases |todo|
    {
      var v :| v in todo;
      forall c ensures Load(seen + {v}, col, c)
                       == Load(seen, col, c) + (if v < |col| && col[v] == c then 1 else 0)
      {
        AddLoad(seen, col, c, v);
      }
      var c := flights[v].corridor;
      if c >= 0 { used := used[c := (if c in used then used[c] else 0) + 1]; }
      todo, seen := todo - {v}, seen + {v};
    }
    assert seen == ns;
  }

  method FirstFreeCorridor(used: map<int, nat>, count: nat) returns (c: Option<nat>)
    ensures c.None? ==> forall d :: 0 <= d < count ==> d in used
    ensures c.Some? ==> c.value < count && c.value !in used && forall d :: 0 <= d < c.value ==> d in used
  {
    for d := 0 to count
      invariant forall e :: 0 <= e < d ==> e in used
    {
      if d !in used { return Some(d); }
    }
    return None;
  }

  function UseCount(used: map<int, nat>, c: int): nat { if c in used then used[c] else 0 }

  method LeastContended(used: map<int, nat>, count: nat) returns (c: nat)
    requires count >= 1
    ensures c < count
    ensures forall d :: 0 <= d < count ==> UseCount(used, c) <= UseCount(used, d)
    ensures forall d :: 0 <= d < c ==> UseCount(used, c) < UseCount(used, d)
  {
    c := 0;
    for d := 1 to count
      invariant c < d <= count
      invariant forall e :: 0 <= e < d ==> UseCount(used, c) <= UseCount(used, e)
      invariant forall e :: 0 <= e < c ==> UseCount(used, c) < UseCount(used, e)
    {
      if UseCount(used, d) < UseCount(used, c) { c := d; }
    }
  }

  method ChooseCorridor(ns: set<nat>, flights: seq<Flight>, count: nat) returns (c: nat)
    requires count >= 1 && forall v :: v in ns ==> v < |flights|
    ensures Chosen(ns, Corridors(flights), count, c)
  {
    var used := UsedByNeighbor(ns, flights);
    var free := FirstFreeCorridor(used, count);
    if free.Some? {
      c := free.value;
    } else {
      c := LeastContended(used, count);
    }
    ghost var col := Corridors(flights);
    hide Load;
    assert forall d: nat :: d < count ==> Load(ns, col, d) == UseCount(used, d);
  }

  method AssignCorridors(flights: seq<Flight>, pairs: Pairs, count: nat) returns (order: seq<nat>)
    requires Distinct(flights) && ConflictGraph(|flights|, pairs) && count >= 1
    requires forall f :: f in flights ==> f.corridor == -1
    modifies flights
    ensures GreedyColoured(|flights|, pairs, count, order, Corridors(flights))
    ensures TieBreak(Plans(flights), pairs, order)
    ensures Delays(flights) == old(Delays(flights))
  {
    hide Progress, IsOrder, GreedyColoured, Chosen, TieBreak, Neighbours, Degree;
    assert forall k :: 0 <= k < |pairs| ==> pairs[k].0 < pairs[k].1 < |flights|;
    var neighbors := NeighbourSets(|flights|, pairs);
    order := DegreeOrder(Plans(flights), pairs, neighbors);
    OrderFits(|flights|, pairs, order);
    FirstProgress(|flights|, pairs, count, order, Corridors(flights));
    for p := 0 to |order|
      invariant Delays(flights) == old(Delays(flights))
      invariant Progress(pairs, count, order, Corridors(flights), p)
    {
      ghost var col := Corridors(flights);
      NeighboursInRange(|flights|, pairs, order[p]);
      var corridor := AssignOne(flights, order[p], neighbors[order[p]], count);
      ProgressStep(|flights|, pairs, count, order, col, p, corridor);
    }
    ProgressDone(|flights|, pairs, count, order, Corridors(flights));
  }

  method AssignOne(flights: seq<Flight>, i: nat, ns: set<nat>, count: nat) returns (corridor: nat)
    requires Distinct(flights) && i < |flights| && count >= 1 && forall v :: v in ns ==> v < |flights|
    modifies flights
    ensures Chosen(ns, old(Corridors(flights)), count, corridor)
    ensures Corridors(flights) == old(Corridors(flights))[i := corridor]
    ensures Delays(flights) == old(Delays(flights))
  {
    hide Chosen;
    corridor := ChooseCorridor(ns, flights, count);
    flights[i].corridor := corridor;
  }

  /** The first p flights of order chose their corridors; the others have none. */
  ghost predicate Progress(pairs: Pairs, count: nat, order: seq<nat>, col: Colours, p: nat) {
    && p <= |order| && (forall q :: 0 <= q < |order| ==> order[q] < |col|)
    && (forall v: nat :: v < |col| && v !in order[..p] ==> col[v] == -1)
    && (forall q :: 0 <= q < p ==>
          Chosen(Neighbours(pairs, order[q]), After(col, order, q), count, col[order[q]]))
  }

  lemma OrderFits(n: nat, pairs: Pairs, order: seq<nat>)
    requires IsOrder(n, pairs, order)
    ensures |order| == n && forall q :: 0 <= q < |order| ==> order[q] < n
  {
    assert |multiset(order)| == |multiset(Range(n))|;
  }

  lemma FirstProgress(n: nat, pairs: Pairs, count: nat, order: seq<nat>, col: Colours)
    requires |col| == n && IsOrder(n, pairs, order)
    requires forall v :: 0 <= v < n ==> col[v] == -1
    ensures Progress(pairs, count, order, col, 0)
  {
  }

  lemma ProgressStep(n: nat, pairs: Pairs, count: nat, order: seq<nat>, col: Colours, p: nat, c: int)
    requires IsOrder(n, pairs, order) && Progress(pairs, count, order, col, p) && p < |order|
    requires Chosen(Neighbours(pairs, order[p]), col, count, c)
    ensures Progress(pairs, count, order, col[order[p] := c], p + 1)
  {
    hide Chosen;
    var i, next := order[p], col[order[p] := c];
    assert order[..p + 1] == order[..p] + [i];
    assert After(col, order, p) == col;
    forall q | 0 <= q <= p ensures After(next, order, q) == After(col, order, q) {
      AfterUntouched(col, order, i, c, q);
    }
  }

  lemma AfterUntouched(col: Colours, order: seq<nat>, i: nat, c: int, q: nat)
    requires i < |col| && q <= |order| && i !in order[..q]
    ensures After(col[i := c], order, q) == After(col, order, q)
  {
  }

  lemma ProgressDone(n: nat, pairs: Pairs, count: nat, order: seq<nat>, col: Colours)
    requires |col| == n && IsOrder(n, pairs, order) && Progress(pairs, count, order, col, |order|)
    ensures GreedyColoured(n, pairs, count, order, col)
  {
  }

  lemma NeighboursInRange(n: nat, pairs: Pairs, i: nat)
    requires ConflictGraph(n, pairs)
    ensures forall v :: v in Neighbours(pairs, i) ==> v < n
  {
    forall v | v in Neighbours(pairs, i) ensures v < n {
      NeighbourIsPartner(pairs, i, v);
      var k :| 0 <= k < |pairs| && Touches(pairs[k], i) && Other(pairs[k], i) == v;
      assert pairs[k].0 < pairs[k].1 < n;
    }
  }
}
