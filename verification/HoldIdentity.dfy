/** When holds keyed by task id move the right flights
    (src/fl_op/planning/airspace.py, deconflict_airspace and apply_airspace_holds). */
module HoldIdentity {
  import opened Wrappers
  import opened Ordering
  import opened CorridorColouring
  import opened TemporalSeparation
  import opened Airspace
  import opened Deconfliction

  /** Every flight's task is moved by the flight's own hold. */
  ghost predicate Faithful(plans: seq<Plan>, delays: seq<real>, holds: map<string, real>)
    requires |plans| == |delays|
  {
    forall i :: 0 <= i < |plans| ==> HoldFor(holds, plans[i].taskId) == delays[i]
  }

  ghost predicate HasIds(plans: seq<Plan>, ids: seq<string>) {
    |plans| == |ids| && forall i :: 0 <= i < |ids| ==> plans[i].taskId == ids[i]
  }

  ghost predicate IsDistance(lateral: (nat, nat) -> real) {
    forall i: nat, j: nat :: lateral(i, j) == lateral(j, i) >= 0.0
  }

  /** A run of the pass over these tasks that publishes a wrong hold. */
  ghost predicate Misheld(ids: seq<string>, config: Config, plans: seq<Plan>, lateral: (nat, nat) -> real,
                          pairs: Pairs, order: seq<nat>, col: Colours, delays: seq<real>, holds: map<string, real>)
  {
    && HasIds(plans, ids) && IsDistance(lateral)
    && Deconflicted(plans, lateral, config, pairs, order, col, delays)
    && HoldsOf(holds, plans, delays) && !Faithful(plans, delays, holds)
  }

  /** The published holds are right in every run over these tasks exactly when the task ids are
      distinct, or there is a corridor for every flight, or no two flights can ever conflict. */
  lemma HoldsFaithfulIff(ids: seq<string>, config: Config)
    requires config.corridors >= 1
    ensures Distinct(ids) || |ids| <= config.corridors || config.separationM <= 0.0 <==>
            forall plans, lateral, pairs, order, col, delays, holds ::
              !Misheld(ids, config, plans, lateral, pairs, order, col, delays, holds)
  {
    hide Misheld;
    if Distinct(ids) || |ids| <= config.corridors || config.separationM <= 0.0 {
      forall plans, lateral, pairs, order, col, delays, holds
        ensures !Misheld(ids, config, plans, lateral, pairs, order, col, delays, holds)
      {
        NeverMisheld(ids, config, plans, lateral, pairs, order, col, delays, holds);
      }
    } else {
      var i, j :| 0 <= i < j < |ids| && ids[i] == ids[j];
      SharedIsMisheld(ids, config, i, j);
    }
  }

  // ---- Where the holds are right --------------------------------------------------------

  lemma NeverMisheld(ids: seq<string>, config: Config, plans: seq<Plan>, lateral: (nat, nat) -> real,
                     pairs: Pairs, order: seq<nat>, col: Colours, delays: seq<real>, holds: map<string, real>)
    requires Distinct(ids) || |ids| <= config.corridors || config.separationM <= 0.0
    ensures !Misheld(ids, config, plans, lateral, pairs, order, col, delays, holds)
  {
    hide GreedyColoured, HeldRight, TieBreak, PairsAre, HoldsOf;
    if Misheld(ids, config, plans, lateral, pairs, order, col, delays, holds) {
      PairsGraph(plans, lateral, config, pairs);
      if Distinct(ids) {
        DistinctIsFaithful(ids, config.bufferS, plans, pairs, col, delays, holds);
      } else {
        NobodyContends(config, plans, lateral, pairs, order, col);
        NoContentionNoHold(plans, pairs, col, delays, config.bufferS);
        NoHoldIsFaithful(plans, delays, holds);
      }
    }
  }

  lemma DistinctIsFaithful(ids: seq<string>, buffer: real, plans: seq<Plan>, pairs: Pairs, col: Colours,
                           delays: seq<real>, holds: map<string, real>)
    requires Distinct(ids) && HasIds(plans, ids)
    requires Separated(plans, pairs, col, delays, buffer) && HoldsOf(holds, plans, delays)
    ensures Faithful(plans, delays, holds)
  {
    hide HeldRight;
    forall i | 0 <= i < |plans| ensures HoldFor(holds, plans[i].taskId) == delays[i] {
      DelayWithinSlack(plans, pairs, col, delays, buffer, i);
      if plans[i].taskId in holds {
        var k :| 0 <= k < |plans| && plans[k].taskId == plans[i].taskId && delays[k] > 0.0
                 && holds[plans[i].taskId] == delays[k];
        assert ids[k] == ids[i];
      }
    }
  }

  lemma NobodyContends(config: Config, plans: seq<Plan>, lateral: (nat, nat) -> real, pairs: Pairs,
                       order: seq<nat>, col: Colours)
    requires IsDistance(lateral) && PairsAre(plans, lateral, config, pairs)
    requires GreedyColoured(|plans|, pairs, config.corridors, order, col)
    requires |plans| <= config.corridors || config.separationM <= 0.0
    ensures forall k :: 0 <= k < |pairs| ==> col[pairs[k].0] != col[pairs[k].1]
  {
    hide PairsAre;
    PairsGraph(plans, lateral, config, pairs);
    if config.separationM <= 0.0 {
      if pairs != [] {
        PairConflicts(plans, lateral, config, pairs, 0);
        assert false;
      }
    } else {
      forall v: nat | v < |plans| ensures Degree(pairs, v) < config.corridors { DegreeBelow(|plans|, pairs, v); }
      FewNeighboursSeparate(|plans|, pairs, config.corridors, order, col);
    }
  }

  lemma PairConflicts(plans: seq<Plan>, lateral: (nat, nat) -> real, config: Config, pairs: Pairs, k: nat)
    requires PairsAre(plans, lateral, config, pairs) && k < |pairs|
    ensures pairs[k].0 < |plans| && pairs[k].1 < |plans|
    ensures Conflicting(plans, lateral, config, pairs[k].0, pairs[k].1)
  {
    assert (pairs[k].0, pairs[k].1) in pairs;
  }

  /** No flight conflicts with itself, so its degree is below the number of flights. */
  lemma DegreeBelow(n: nat, pairs: Pairs, v: nat)
    requires ConflictGraph(n, pairs) && v < n
    ensures Degree(pairs, v) < n
  {
    forall u | u in Neighbours(pairs, v) ensures u in Below(n) - {v} {
      NeighbourIsPartner(pairs, v, u);
      var k :| 0 <= k < |pairs| && Touches(pairs[k], v) && Other(pairs[k], v) == u;
      assert pairs[k].0 < pairs[k].1 < n;
    }
    SubsetSize(Neighbours(pairs, v), Below(n) - {v});
  }

  lemma NoContentionNoHold(plans: seq<Plan>, pairs: Pairs, col: Colours, delays: seq<real>, buffer: real)
    requires ConflictGraph(|plans|, pairs) && Separated(plans, pairs, col, delays, buffer)
    requires forall k :: 0 <= k < |pairs| ==> col[pairs[k].0] != col[pairs[k].1]
    ensures forall i :: 0 <= i < |delays| ==> delays[i] == 0.0
  {
    hide HeldRight;
    forall i | 0 <= i < |delays| ensures delays[i] == 0.0 {
      DelayWithinSlack(plans, pairs, col, delays, buffer, i);
      if delays[i] > 0.0 {
        HoldIsNeeded(plans, pairs, col, delays, buffer, i);
        var j: nat :| Precedes(plans, pairs, col, j, i);
        NoContention(pairs, col, i, j);
      }
    }
  }

  lemma NoContention(pairs: Pairs, col: Colours, i: nat, j: nat)
    requires ConflictGraph(|col|, pairs)
    requires forall k :: 0 <= k < |pairs| ==> col[pairs[k].0] != col[pairs[k].1]
    ensures !Contend(pairs, col, i, j)
  {
    if (i, j) in pairs {
      var k :| 0 <= k < |pairs| && pairs[k] == (i, j);
    }
    if (j, i) in pairs {
      var k :| 0 <= k < |pairs| && pairs[k] == (j, i);
    }
  }

  lemma NoHoldIsFaithful(plans: seq<Plan>, delays: seq<real>, holds: map<string, real>)
    requires |plans| == |delays| && HoldsOf(holds, plans, delays)
    requires forall i :: 0 <= i < |delays| ==> delays[i] == 0.0
    ensures Faithful(plans, delays, holds)
  {
  }

  // ---- A crowd: one flight more than there are corridors, all in conflict ------------------

  /** Where v stands in the service order. */
  ghost function Place(order: seq<nat>, v: nat): (p: nat)
    requires v in order
    ensures p < |order| && order[p] == v
  {
    var p :| 0 <= p < |order| && order[p] == v;
    p
  }

  ghost predicate Permutation(order: seq<nat>) {
    && multiset(order) == multiset(Range(|order|)) && Distinct(order)
    && (forall p :: 0 <= p < |order| ==> order[p] < |order|)
    && (forall v: nat :: v < |order| ==> v in order)
  }

  /** The flights that take off first, one more than there are corridors. */
  ghost function Crowd(order: seq<nat>, count: nat): set<nat>
    requires count < |order|
  {
    set p | 0 <= p <= count :: order[p]
  }

  /** Flights enter in service order, one second apart, and are aloft together. */
  ghost predicate CrowdPlans(plans: seq<Plan>, ids: seq<string>, order: seq<nat>, length: real) {
    && HasIds(plans, ids) && |order| == |ids| && Permutation(order)
    && (forall p :: 0 <= p < |order| ==>
          plans[order[p]].entry == p as real && plans[order[p]].exit == length && plans[order[p]].slack.None?)
  }

  /** The crowd flies at one spot, the others keep the required distance. */
  ghost predicate CrowdLateral(lateral: (nat, nat) -> real, order: seq<nat>, config: Config)
    requires config.corridors < |order|
  {
    forall i: nat, j: nat :: lateral(i, j) ==
      if i in Crowd(order, config.corridors) && j in Crowd(order, config.corridors) then 0.0 else config.separationM
  }

  /** The crowd fills the corridors in order and its last flight comes back to the first. */
  ghost predicate CrowdColours(col: Colours, order: seq<nat>, count: nat) {
    && |col| == |order| && Permutation(order)
    && (forall p :: 0 <= p < |order| ==> col[order[p]] == if p < count then p else 0)
  }

  ghost predicate CrowdPairs(pairs: Pairs, order: seq<nat>, count: nat)
    requires count < |order|
  {
    && ConflictGraph(|order|, pairs)
    && (forall i: nat, j: nat :: (i, j) in pairs <==> i < j && i in Crowd(order, count) && j in Crowd(order, count))
  }

  ghost predicate CrowdDelays(delays: seq<real>, order: seq<nat>, count: nat, hold: real)
    requires count < |order|
  {
    |delays| == |order| && forall v :: 0 <= v < |delays| ==> delays[v] == if v == order[count] then hold else 0.0
  }

  lemma CrowdPlace(order: seq<nat>, count: nat, p: nat)
    requires Permutation(order) && count < |order| && p < |order|
    ensures order[p] in Crowd(order, count) <==> p <= count
  {
  }

  lemma CrowdNeighbours(pairs: Pairs, order: seq<nat>, count: nat, v: nat)
    requires Permutation(order) && count < |order| && CrowdPairs(pairs, order, count)
    ensures Neighbours(pairs, v) == if v in Crowd(order, count) then Crowd(order, count) - {v} else {}
  {
    var crowd := Crowd(order, count);
    forall u: nat ensures u in Neighbours(pairs, v) <==> u != v && u in crowd && v in crowd {
      NeighbourIsPartner(pairs, v, u);
      if u in Neighbours(pairs, v) {
        var k :| 0 <= k < |pairs| && Touches(pairs[k], v) && Other(pairs[k], v) == u;
        assert (pairs[k].0, pairs[k].1) in pairs;
      }
      if u != v && u in crowd && v in crowd {
        var e := if u < v then (u, v) else (v, u);
        assert e in pairs;
        var k :| 0 <= k < |pairs| && pairs[k] == e;
        assert Touches(pairs[k], v) && Other(pairs[k], v) == u;
      }
    }
  }

  lemma CrowdDegree(pairs: Pairs, order: seq<nat>, count: nat, p: nat)
    requires Permutation(order) && count < |order| && CrowdPairs(pairs, order, count) && p < |order|
    ensures Degree(pairs, order[p]) == if p <= count then count else 0
  {
    CrowdNeighbours(pairs, order, count, order[p]);
    CrowdPlace(order, count, p);
    CrowdSize(order, count);
  }

  lemma CrowdSize(order: seq<nat>, count: nat)
    requires Permutation(order) && count < |order|
    ensures |Crowd(order, count)| == count + 1
  {
    var first := order[..count + 1];
    ImageSize(first);
    assert Crowd(order, count) == set p | 0 <= p < |first| :: first[p];
  }

  /** When the p-th flight of the crowd chooses, the corridors below p hold one neighbour each. */
  lemma CrowdLoad(order: seq<nat>, count: nat, col: Colours, p: nat, d: nat)
    requires count < |order| && CrowdColours(col, order, count) && p <= count && d < count
    ensures Load(Crowd(order, count) - {order[p]}, After(col, order, p), d) == if d < p then 1 else 0
  {
    var ns, after := Crowd(order, count) - {order[p]}, After(col, order, p);
    var those := WithColour(ns, after, d);
    forall v ensures v in those <==> d < p && v == order[d] {
      if v in those {
        assert v in order[..p];
        var q :| 0 <= q < p && order[q] == v;
        assert q == d;
      }
      if d < p && v == order[d] {
        assert order[..p][d] == v;
        CrowdPlace(order, count, d);
      }
    }
    assert those == if d < p then {order[d]} else {};
  }

  lemma CrowdColoured(pairs: Pairs, order: seq<nat>, count: nat, col: Colours)
    requires 1 <= count < |order| && CrowdPairs(pairs, order, count) && CrowdColours(col, order, count)
    ensures GreedyColoured(|order|, pairs, count, order, col)
  {
    hide CrowdPairs, Load;
    forall p | 0 <= p < |order|
      ensures Chosen(Neighbours(pairs, order[p]), After(col, order, p), count, col[order[p]])
    {
      CrowdNeighbours(pairs, order, count, order[p]);
      CrowdPlace(order, count, p);
      forall d: nat | d < count
        ensures Load(Neighbours(pairs, order[p]), After(col, order, p), d) == if d < p <= count then 1 else 0
      {
        if p <= count {
          CrowdLoad(order, count, col, p, d);
        } else {
          LoadOfNone(After(col, order, p), d);
        }
      }
    }
    forall p, q | 0 <= p < q < |order| ensures Degree(pairs, order[p]) >= Degree(pairs, order[q]) {
      CrowdDegree(pairs, order, count, p);
      CrowdDegree(pairs, order, count, q);
    }
  }

  lemma CrowdTies(plans: seq<Plan>, ids: seq<string>, pairs: Pairs, order: seq<nat>, length: real)
    requires CrowdPlans(plans, ids, order, length)
    ensures TieBreak(plans, pairs, order)
  {
    forall p, q | 0 <= p < q < |order| ensures Earlier(plans, order[p], order[q]) {
      assert plans[order[p]].entry < plans[order[q]].entry;
    }
  }

  lemma CrowdConflicts(plans: seq<Plan>, ids: seq<string>, lateral: (nat, nat) -> real, pairs: Pairs,
                       order: seq<nat>, config: Config, length: real)
    requires CrowdPlans(plans, ids, order, length) && config.corridors < |order|
    requires CrowdLateral(lateral, order, config) && CrowdPairs(pairs, order, config.corridors)
    requires length + config.bufferS > |order| as real && config.separationM > 0.0
    ensures PairsAre(plans, lateral, config, pairs)
  {
    hide Permutation;
    forall i: nat, j: nat | i < j < |plans|
      ensures (i, j) in pairs <==> Conflicting(plans, lateral, config, i, j)
    {
      EntersBy(plans, ids, order, length, i);
      EntersBy(plans, ids, order, length, j);
    }
  }

  lemma EntersBy(plans: seq<Plan>, ids: seq<string>, order: seq<nat>, length: real, i: nat)
    requires CrowdPlans(plans, ids, order, length) && i < |order|
    ensures i < |plans| && 0.0 <= plans[i].entry < |order| as real
    ensures plans[i].exit == length && plans[i].slack.None?
  {
    assert i in order;
    assert order[Place(order, i)] == i;
  }

  /** Only the last flight of the crowd is held, until the first has cleared. */
  lemma CrowdHeld(plans: seq<Plan>, ids: seq<string>, pairs: Pairs, order: seq<nat>, count: nat, col: Colours,
                  delays: seq<real>, length: real, buffer: real)
    requires CrowdPlans(plans, ids, order, length) && 1 <= count < |order|
    requires CrowdPairs(pairs, order, count) && CrowdColours(col, order, count)
    requires CrowdDelays(delays, order, count, length + buffer - count as real)
    requires length + buffer > |order| as real
    ensures Separated(plans, pairs, col, delays, buffer)
  {
    hide CrowdPairs, Permutation, HeldRight;
    forall v: nat | v < |plans|
      ensures HeldRight(plans, pairs, col, delays, buffer, v) && NonNegativeSlack(plans[v])
    {
      assert v in order by { PermutationCovers(order, v); }
      var p := Place(order, v);
      EntersBy(plans, ids, order, length, v);
      CrowdHeldAt(plans, ids, pairs, order, count, col, delays, length, buffer, p);
    }
  }

  lemma PermutationCovers(order: seq<nat>, v: nat)
    requires Permutation(order) && v < |order|
    ensures v in order
  {
  }

  lemma CrowdHeldAt(plans: seq<Plan>, ids: seq<string>, pairs: Pairs, order: seq<nat>, count: nat, col: Colours,
                    delays: seq<real>, length: real, buffer: real, p: nat)
    requires CrowdPlans(plans, ids, order, length) && 1 <= count < |order| && p < |order|
    requires CrowdPairs(pairs, order, count) && CrowdColours(col, order, count)
    requires CrowdDelays(delays, order, count, length + buffer - count as real)
    requires length + buffer > |order| as real
    ensures HeldRight(plans, pairs, col, delays, buffer, order[p])
  {
    var v := order[p];
    var entry := if p == count then length + buffer else p as real;
    forall u: nat | Precedes(plans, pairs, col, u, v) ensures p == count && u == order[0] {
      CrowdPrecedes(plans, ids, pairs, order, count, col, length, u, p);
    }
    if p == count {
      assert (order[0], v) in pairs || (v, order[0]) in pairs by { CrowdMeets(pairs, order, count); }
      assert Precedes(plans, pairs, col, order[0], v);
      assert ClearTime(plans, delays, buffer, order[0]) == entry;
    }
    assert ClearedAt(plans, pairs, col, delays, buffer, v, entry);
    assert delays[v] == Cap(entry - plans[v].entry, plans[v].slack);
  }

  lemma CrowdMeets(pairs: Pairs, order: seq<nat>, count: nat)
    requires Permutation(order) && 1 <= count < |order| && CrowdPairs(pairs, order, count)
    ensures (order[0], order[count]) in pairs || (order[count], order[0]) in pairs
  {
    CrowdPlace(order, count, 0);
    CrowdPlace(order, count, count);
  }

  lemma CrowdPrecedes(plans: seq<Plan>, ids: seq<string>, pairs: Pairs, order: seq<nat>, count: nat, col: Colours,
                      length: real, u: nat, p: nat)
    requires CrowdPlans(plans, ids, order, length) && 1 <= count < |order| && p < |order|
    requires CrowdPairs(pairs, order, count) && CrowdColours(col, order, count)
    requires Precedes(plans, pairs, col, u, order[p])
    ensures p == count && u == order[0]
  {
    assert u in order;
    var q := Place(order, u);
    CrowdPlace(order, count, p);
    CrowdPlace(order, count, q);
    assert q <= p;
  }

  /** A crowd whose first and last flight share their task id is published with the first moved
      by the hold of the last. */
  lemma CrowdIsMisheld(ids: seq<string>, config: Config, plans: seq<Plan>, lateral: (nat, nat) -> real, pairs: Pairs,
                       order: seq<nat>, col: Colours, delays: seq<real>, length: real)
    requires CrowdPlans(plans, ids, order, length) && 1 <= config.corridors < |order| && config.separationM > 0.0
    requires CrowdLateral(lateral, order, config) && CrowdPairs(pairs, order, config.corridors)
    requires CrowdColours(col, order, config.corridors)
    requires length + config.bufferS > |order| as real
    requires CrowdDelays(delays, order, config.corridors, length + config.bufferS - config.corridors as real)
    requires ids[order[0]] == ids[order[config.corridors]]
    ensures var holds := map[ids[order[0]] := length + config.bufferS - config.corridors as real];
            Misheld(ids, config, plans, lateral, pairs, order, col, delays, holds)
  {
    var count, hold := config.corridors, length + config.bufferS - config.corridors as real;
    var i, j, holds := order[0], order[count], map[ids[order[0]] := hold];
    CrowdFacts(ids, config, plans, lateral, pairs, order, col, delays, length);
    assert plans[j].taskId in holds && delays[j] == hold;
    assert HoldsOf(holds, plans, delays);
    assert HoldFor(holds, plans[i].taskId) != delays[i];
  }

  lemma CrowdFacts(ids: seq<string>, config: Config, plans: seq<Plan>, lateral: (nat, nat) -> real, pairs: Pairs,
                   order: seq<nat>, col: Colours, delays: seq<real>, length: real)
    requires CrowdPlans(plans, ids, order, length) && 1 <= config.corridors < |order| && config.separationM > 0.0
    requires CrowdLateral(lateral, order, config) && CrowdPairs(pairs, order, config.corridors)
    requires CrowdColours(col, order, config.corridors)
    requires length + config.bufferS > |order| as real
    requires CrowdDelays(delays, order, config.corridors, length + config.bufferS - config.corridors as real)
    ensures IsDistance(lateral) && Deconflicted(plans, lateral, config, pairs, order, col, delays)
  {
    assert IsDistance(lateral);
    hide CrowdColours, CrowdPairs, CrowdDelays, CrowdLateral, PairsAre, GreedyColoured, TieBreak, Separated, Permutation;
    CrowdConflicts(plans, ids, lateral, pairs, order, config, length);
    CrowdColoured(pairs, order, config.corridors, col);
    CrowdTies(plans, ids, pairs, order, length);
    CrowdHeld(plans, ids, pairs, order, config.corridors, col, delays, length, config.bufferS);
  }

  // ---- Two tasks of one id --------------------------------------------------------------

  function Swap(s: seq<nat>, a: nat, b: nat): (r: seq<nat>)
    requires a < |s| && b < |s|
    ensures |r| == |s| && multiset(r) == multiset(s)
  {
    s[a := s[b]][b := s[a]]
  }

  /** The indices below n with i first and j after as many flights as there are corridors. */
  lemma OrderWith(n: nat, i: nat, j: nat, count: nat) returns (order: seq<nat>)
    requires i < j < n && 1 <= count < n
    ensures |order| == n && Permutation(order) && order[0] == i && order[count] == j
  {
    order := Swap(Swap(Range(n), 0, i), count, j);
    PermutationDistinct(Range(n), order);
    SameMembers(order, Range(n));
    forall v: nat | v < n ensures v in order { assert Range(n)[v] == v; }
  }

  /** Any finite set can be listed without repetition. */
  lemma {:induction false} Listed<T>(s: set<T>) returns (list: seq<T>)
    ensures Distinct(list) && forall x :: x in list <==> x in s
  {
    if s == {} {
      list := [];
    } else {
      var x :| x in s;
      var rest := Listed(s - {x});
      list := [x] + rest;
    }
  }

  lemma PairsOfCrowd(order: seq<nat>, count: nat) returns (pairs: Pairs)
    requires Permutation(order) && count < |order|
    ensures CrowdPairs(pairs, order, count)
  {
    var crowd := Crowd(order, count);
    pairs := Listed(set i, j | i in crowd && j in crowd && i < j :: (i, j));
    forall k | 0 <= k < |pairs| ensures pairs[k].0 < pairs[k].1 < |order| {
      assert pairs[k] in pairs;
    }
  }

  lemma SharedIsMisheld(ids: seq<string>, config: Config, i: nat, j: nat)
    requires i < j < |ids| && ids[i] == ids[j]
    requires 1 <= config.corridors < |ids| && config.separationM > 0.0
    ensures exists plans, lateral, pairs, order, col, delays, holds ::
              Misheld(ids, config, plans, lateral, pairs, order, col, delays, holds)
  {
    hide Misheld;
    var n, count := |ids|, config.corridors;
    var order := OrderWith(n, i, j, count);
    var pairs := PairsOfCrowd(order, count);
    var length := n as real + 1.0 + if config.bufferS < 0.0 then -config.bufferS else 0.0;
    var hold := length + config.bufferS - count as real;
    var crowd := Crowd(order, count);
    var plans := seq(n, v requires 0 <= v < n => Plan(ids[v], Place(order, v) as real, length, None));
    var lateral := (u: nat, v: nat) => if u in crowd && v in crowd then 0.0 else config.separationM;
    var col: Colours := seq(n, v requires 0 <= v < n => if Place(order, v) < count then Place(order, v) else 0);
    var delays := seq(n, v => if v == j then hold else 0.0);
    forall p | 0 <= p < n ensures Place(order, order[p]) == p { }
    CrowdIsMisheld(ids, config, plans, lateral, pairs, order, col, delays, length);
  }

  /** Five flights at one spot and the default four corridors: the fifth waits for the first,
      which is moved as well because both carry the same task id. */
  lemma SharedTaskIdMovesBoth()
    ensures var plans := [Plan("t", 0.0, 600.0, None), Plan("a", 1.0, 600.0, None), Plan("b", 2.0, 600.0, None),
                          Plan("c", 3.0, 600.0, None), Plan("t", 4.0, 600.0, None)];
            var delays := [0.0, 0.0, 0.0, 0.0, 656.0];
            var holds := map["t" := 656.0];
            && (exists lateral, pairs, order, col ::
                  Misheld(["t", "a", "b", "c", "t"], DEFAULT_CONFIG, plans, lateral, pairs, order, col, delays, holds))
            && Retimed(Assignment("t", 0.0, 600.0, false, false), holds).plannedFinish != plans[0].exit + delays[0]
  {
    hide Misheld;
    var ids := ["t", "a", "b", "c", "t"];
    var plans := [Plan("t", 0.0, 600.0, None), Plan("a", 1.0, 600.0, None), Plan("b", 2.0, 600.0, None),
                  Plan("c", 3.0, 600.0, None), Plan("t", 4.0, 600.0, None)];
    var order := Range(5);
    forall v: nat | v < 5 ensures v in order { assert order[v] == v; }
    var pairs := PairsOfCrowd(order, 4);
    var crowd := Crowd(order, 4);
    var lateral := (u: nat, v: nat) => if u in crowd && v in crowd then 0.0 else 150.0;
    var col: Colours := [0, 1, 2, 3, 0];
    var delays, holds := [0.0, 0.0, 0.0, 0.0, 656.0], map["t" := 656.0];
    CrowdIsMisheld(ids, DEFAULT_CONFIG, plans, lateral, pairs, order, col, delays, 600.0);
    assert Misheld(ids, DEFAULT_CONFIG, plans, lateral, pairs, order, col, delays, holds);
  }
}
