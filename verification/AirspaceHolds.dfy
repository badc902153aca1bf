/** Temporal separation: holding the flights left in a shared corridor
    (src/fl_op/planning/airspace.py). */
module AirspaceHolds {
  import opened Ordering
  import opened CorridorColouring
  import opened TemporalSeparation
  import opened Airspace

  // ---- _apply_temporal_separation --------------------------------------------------------

  method SameCorridorPairs(flights: seq<Flight>, pairs: Pairs) returns (same: Pairs)
    requires ConflictGraph(|flights|, pairs)
    ensures forall k :: 0 <= k < |same| ==> same[k].0 < same[k].1 < |flights|
    ensures forall e :: e in same <==>
              e in pairs && e.0 < |flights| && e.1 < |flights| && flights[e.0].corridor == flights[e.1].corridor
  {
    same := [];
    for k := 0 to |pairs|
      invariant forall j :: 0 <= j < |same| ==> same[j].0 < same[j].1 < |flights|
      invariant forall e :: e in same <==>
                  e in pairs[..k] && e.0 < |flights| && e.1 < |flights|
                  && flights[e.0].corridor == flights[e.1].corridor
    {
      if flights[pairs[k].0].corridor == flights[pairs[k].1].corridor { same := same + [pairs[k]]; }
      assert pairs[..k + 1] == pairs[..k] + [pairs[k]];
    }
    assert pairs[..|pairs|] == pairs;
  }

  /** adj[i] is the set of flights contending with i. */
  ghost predicate IsContention(adj: seq<set<nat>>, pairs: Pairs, col: Colours) {
    |adj| == |col| && forall i: nat, j: nat :: i < |adj| ==> (j in adj[i] <==> Contend(pairs, col, i, j))
  }

  lemma ContentionFromPairs(adj: seq<set<nat>>, pairs: Pairs, same: Pairs, col: Colours)
    requires |adj| == |col| && forall i :: 0 <= i < |adj| ==> adj[i] == Neighbours(same, i)
    requires forall e :: e in same <==> e in pairs && e.0 < |col| && e.1 < |col| && col[e.0] == col[e.1]
    ensures IsContention(adj, pairs, col)
  {
    forall i: nat, j: nat | i < |adj| ensures j in adj[i] <==> Contend(pairs, col, i, j) {
      NeighbourIsPartner(same, i, j);
      if j in adj[i] {
        var k :| 0 <= k < |same| && Touches(same[k], i) && Other(same[k], i) == j;
        assert same[k] == (i, j) || same[k] == (j, i);
      }
      if Contend(pairs, col, i, j) {
        var e := if (i, j) in same then (i, j) else (j, i);
        var k :| 0 <= k < |same| && same[k] == e;
      }
    }
  }

  ghost predicate IsGrouping(keys: seq<int>, members: map<int, seq<nat>>, col: Colours, n: nat)
    requires n <= |col|
  {
    && Distinct(keys) && (forall c :: c in keys <==> c in members)
    && (forall i: nat :: i < n ==> col[i] in members && i in members[col[i]])
    && (forall c :: c in members ==> Distinct(members[c]) && forall i :: i in members[c] ==> i < n && col[i] == c)
  }

  /** by_corridor: the members of each corridor in index order, corridors as first met. */
  method GroupByCorridor(flights: seq<Flight>) returns (keys: seq<int>, members: map<int, seq<nat>>)
    ensures IsGrouping(keys, members, Corridors(flights), |flights|)
  {
    keys, members := [], map[];
    for i := 0 to |flights|
      invariant IsGrouping(keys, members, Corridors(flights), i)
    {
      var c := flights[i].corridor;
      if c !in members {
        keys := keys + [c];
        members := members[c := [i]];
      } else {
        members := members[c := members[c] + [i]];
      }
    }
  }

  /** required_entry after scanning placed. */
  method RequiredEntry(flights: seq<Flight>, i: nat, placed: seq<nat>, contenders: set<nat>, buffer: real)
    returns (entry: real)
    requires i < |flights| && forall j :: j in placed ==> j < |flights|
    ensures flights[i].plan.entry <= entry
    ensures forall j :: j in placed && j in contenders ==>
                          ClearTime(Plans(flights), Delays(flights), buffer, j) <= entry
    ensures entry == flights[i].plan.entry
            || exists j :: j in placed && j in contenders
                           && ClearTime(Plans(flights), Delays(flights), buffer, j) == entry
  {
    entry := flights[i].plan.entry;
    for k := 0 to |placed|
      invariant flights[i].plan.entry <= entry && forall j :: j in placed[..k] ==> j < |flights|
      invariant forall j :: j in placed[..k] && j in contenders ==>
                              ClearTime(Plans(flights), Delays(flights), buffer, j) <= entry
      invariant entry == flights[i].plan.entry
                || exists j :: j in placed[..k] && j in contenders
                               && ClearTime(Plans(flights), Delays(flights), buffer, j) == entry
    {
      var j := placed[k];
      assert j in placed;
      assert placed[..k + 1] == placed[..k] + [j];
      if j in contenders {
        var clear := flights[j].plan.exit + flights[j].delayS + buffer;
        assert clear == ClearTime(Plans(flights), Delays(flights), buffer, j);
        entry := if clear > entry then clear else entry;
      }
    }
    assert placed[..|placed|] == placed;
  }

  /** A hold depends only on the flight's own delay and those of its earlier contenders. */
  lemma HeldFrame(plans: seq<Plan>, pairs: Pairs, col: Colours, before: seq<real>, after: seq<real>, buffer: real,
                  i: nat)
    requires i < |plans| == |before| == |after| && HeldRight(plans, pairs, col, before, buffer, i)
    requires before[i] == after[i] && forall j: nat :: Precedes(plans, pairs, col, j, i) ==> before[j] == after[j]
    ensures HeldRight(plans, pairs, col, after, buffer, i)
  {
    var entry: real :| ClearedAt(plans, pairs, col, before, buffer, i, entry)
                       && before[i] == Cap(entry - plans[i].entry, plans[i].slack);
    assert ClearedAt(plans, pairs, col, after, buffer, i, entry);
  }

  /** order lists the flights of one corridor, earlier ones first. */
  ghost predicate CorridorOrder(plans: seq<Plan>, col: Colours, order: seq<nat>) {
    && |plans| == |col| && (forall p :: 0 <= p < |order| ==> order[p] < |plans|)
    && (forall p, q :: 0 <= p < q < |order| ==> Earlier(plans, order[p], order[q]))
    && (forall i: nat, p :: i < |col| && 0 <= p < |order| && col[i] == col[order[p]] ==> i in order)
  }

  /** What a flight's earlier contenders are: the placed ones among its contenders. */
  lemma PlacedArePreceding(plans: seq<Plan>, pairs: Pairs, col: Colours, order: seq<nat>, p: nat, j: nat)
    requires CorridorOrder(plans, col, order) && p < |order|
    ensures Precedes(plans, pairs, col, j, order[p]) <==> j in order[..p] && Contend(pairs, col, order[p], j)
  {
    var i := order[p];
    if Precedes(plans, pairs, col, j, i) {
      assert j in order;
      var q :| 0 <= q < |order| && order[q] == j;
      EarlierTotal(plans, j, i);
      assert q < p && order[..p][q] == j;
    }
    if j in order[..p] && Contend(pairs, col, i, j) {
      var q :| 0 <= q < p && order[..p][q] == j;
      assert Earlier(plans, order[q], order[p]);
    }
  }

  /** Hold one flight until its earlier contenders have cleared, as far as its slack allows. */
  method HoldOne(flights: seq<Flight>, order: seq<nat>, p: nat, contenders: set<nat>, buffer: real,
                 ghost pairs: Pairs)
    requires Distinct(flights) && p < |order|
    requires CorridorOrder(Plans(flights), Corridors(flights), order)
    requires forall j: nat :: j in contenders <==> Contend(pairs, Corridors(flights), order[p], j)
    modifies flights
    ensures Corridors(flights) == old(Corridors(flights))
    ensures Delays(flights) == old(Delays(flights))[order[p] := flights[order[p]].delayS]
    ensures HeldRight(Plans(flights), pairs, Corridors(flights), Delays(flights), buffer, order[p])
  {
    var i := order[p];
    ghost var plans, col, before := Plans(flights), Corridors(flights), Delays(flights);
    var entry := RequiredEntry(flights, i, order[..p], contenders, buffer);
    var wanted := entry - flights[i].plan.entry;
    var desired := if wanted > 0.0 then wanted else 0.0;
    flights[i].delayS := Cap(desired, flights[i].plan.slack);
    ghost var after := Delays(flights);
    assert after == before[i := flights[i].delayS];
    HoldIsRight(plans, pairs, col, order, p, before, after, buffer, entry);
  }

  lemma HoldIsRight(plans: seq<Plan>, pairs: Pairs, col: Colours, order: seq<nat>, p: nat,
                    before: seq<real>, after: seq<real>, buffer: real, entry: real)
    requires CorridorOrder(plans, col, order) && p < |order| && |before| == |after| == |plans|
    requires var i := order[p];
             && plans[i].entry <= entry
             && after == before[i := Cap(entry - plans[i].entry, plans[i].slack)]
             && (forall j: nat :: j in order[..p] && Contend(pairs, col, i, j) ==>
                   ClearTime(plans, before, buffer, j) <= entry)
             && (entry == plans[i].entry
                 || exists j: nat :: j in order[..p] && Contend(pairs, col, i, j)
                                     && ClearTime(plans, before, buffer, j) == entry)
    ensures HeldRight(plans, pairs, col, after, buffer, order[p])
  {
    var i := order[p];
    forall j: nat ensures Precedes(plans, pairs, col, j, i) <==> j in order[..p] && Contend(pairs, col, i, j) {
      PlacedArePreceding(plans, pairs, col, order, p, j);
    }
    forall j: nat | Precedes(plans, pairs, col, j, i)
      ensures ClearTime(plans, after, buffer, j) == ClearTime(plans, before, buffer, j)
    {
      assert j != i;
    }
    if entry != plans[i].entry {
      var j: nat :| j in order[..p] && Contend(pairs, col, i, j) && ClearTime(plans, before, buffer, j) == entry;
      assert Precedes(plans, pairs, col, j, i);
      assert ClearTime(plans, after, buffer, j) == entry;
    }
    assert ClearedAt(plans, pairs, col, after, buffer, i, entry);
  }

  method HoldCorridor(flights: seq<Flight>, order: seq<nat>, adj: seq<set<nat>>, buffer: real, ghost pairs: Pairs)
    requires Distinct(flights) && CorridorOrder(Plans(flights), Corridors(flights), order)
    requires IsContention(adj, pairs, Corridors(flights))
    modifies flights
    ensures Corridors(flights) == old(Corridors(flights))
    ensures forall i: nat :: i < |flights| && i !in order ==> flights[i].delayS == old(flights[i].delayS)
    ensures forall i: nat :: i in order ==>
              HeldRight(Plans(flights), pairs, Corridors(flights), Delays(flights), buffer, i)
  {
    hide HeldRight;
    ghost var plans, col := Plans(flights), Corridors(flights);
    for p := 0 to |order|
      invariant Corridors(flights) == col
      invariant forall i: nat :: i < |flights| && i !in order ==> flights[i].delayS == old(flights[i].delayS)
      invariant forall q :: 0 <= q < p ==> HeldRight(plans, pairs, col, Delays(flights), buffer, order[q])
    {
      ghost var before := Delays(flights);
      HoldOne(flights, order, p, adj[order[p]], buffer, pairs);
      EarlierHoldsStay(plans, pairs, col, order, p, before, Delays(flights), buffer);
    }
  }

  lemma EarlierHoldsStay(plans: seq<Plan>, pairs: Pairs, col: Colours, order: seq<nat>, p: nat,
                         before: seq<real>, after: seq<real>, buffer: real)
    requires CorridorOrder(plans, col, order) && p < |order| && |before| == |after| == |plans|
    requires after == before[order[p] := after[order[p]]]
    requires forall q :: 0 <= q < p ==> HeldRight(plans, pairs, col, before, buffer, order[q])
    ensures forall q :: 0 <= q < p ==> HeldRight(plans, pairs, col, after, buffer, order[q])
  {
    hide HeldRight;
    forall q | 0 <= q < p ensures HeldRight(plans, pairs, col, after, buffer, order[q]) {
      assert Earlier(plans, order[q], order[p]);
      EarlierTotal(plans, order[q], order[p]);
      HeldFrame(plans, pairs, col, before, after, buffer, order[q]);
    }
  }

  predicate EarlierOrSame(plans: seq<Plan>, i: nat, j: nat) {
    i < |plans| && j < |plans| && (i == j || PlacedBefore(plans, i, j))
  }

  /** Members in order of entry and task id: they come in index order and the sort is stable,
      so the index settles equal keys. */
  method SortMembers(plans: seq<Plan>, members: seq<nat>) returns (order: seq<nat>)
    requires Distinct(members) && forall i :: i in members ==> i < |plans|
    ensures |order| == |members| && (forall i :: i in order <==> i in members)
    ensures forall p, q :: 0 <= p < q < |order| ==>
              order[p] < |plans| && order[q] < |plans| && Earlier(plans, order[p], order[q])
  {
    var le := (i: nat, j: nat) => EarlierOrSame(plans, i, j);
    order := SortBy(le, members);
    EarlierPreorder(plans, le, members);
    SortBySorted(le, members);
    PermutationDistinct(members, order);
    SameMembers(members, order);
    forall p, q | 0 <= p < q < |order| ensures Earlier(plans, order[p], order[q]) {
      assert le(order[p], order[q]);
      PlacedIsEarlier(plans, order[p], order[q]);
    }
  }

  lemma EarlierPreorder(plans: seq<Plan>, le: (nat, nat) -> bool, members: seq<nat>)
    requires forall i :: i in members ==> i < |plans|
    requires forall i: nat, j: nat :: le(i, j) == EarlierOrSame(plans, i, j)
    ensures PreorderOn(le, members)
  {
    forall i: nat, j: nat | i < |plans| && j < |plans|
      ensures PlacedBefore(plans, i, j) <==> Earlier(plans, i, j)
    {
      PlacedIsEarlier(plans, i, j);
    }
    forall i, j | i in members && j in members ensures le(i, j) || le(j, i) {
      if i != j { EarlierTotal(plans, i, j); }
    }
    forall i, j, k | i in members && j in members && k in members && le(i, j) && le(j, k) ensures le(i, k) {
      if i != j && j != k { EarlierTransitive(plans, i, j, k); }
    }
  }

  method ApplyTemporalSeparation(flights: seq<Flight>, pairs: Pairs, buffer: real)
    requires Distinct(flights) && ConflictGraph(|flights|, pairs)
    requires forall f :: f in flights ==> f.delayS == 0.0 && NonNegativeSlack(f.plan)
    modifies flights
    ensures Corridors(flights) == old(Corridors(flights))
    ensures Separated(Plans(flights), pairs, Corridors(flights), Delays(flights), buffer)
  {
    hide HeldRight, Separated, IsGrouping, IsContention;
    ghost var plans, col := Plans(flights), Corridors(flights);
    var same := SameCorridorPairs(flights, pairs);
    if |same| == 0 {
      NothingToHold(plans, pairs, col, Delays(flights), buffer);
      return;
    }
    var adj := NeighbourSets(|flights|, same);
    ContentionFromPairs(adj, pairs, same, col);
    var keys, members := GroupByCorridor(flights);
    HoldGroups(flights, keys, members, adj, buffer, pairs);
    AllHeld(plans, pairs, col, Delays(flights), buffer);
  }

  method HoldGroups(flights: seq<Flight>, keys: seq<int>, members: map<int, seq<nat>>, adj: seq<set<nat>>,
                    buffer: real, ghost pairs: Pairs)
    requires Distinct(flights) && IsGrouping(keys, members, Corridors(flights), |flights|)
    requires IsContention(adj, pairs, Corridors(flights))
    modifies flights
    ensures Corridors(flights) == old(Corridors(flights))
    ensures forall i: nat :: i < |flights| ==>
              HeldRight(Plans(flights), pairs, Corridors(flights), Delays(flights), buffer, i)
  {
    hide HeldRight, IsGrouping, IsContention;
    ghost var plans, col := Plans(flights), Corridors(flights);
    for g := 0 to |keys|
      invariant Corridors(flights) == col
      invariant forall i: nat :: i < |flights| && col[i] in keys[..g] ==>
                  HeldRight(plans, pairs, col, Delays(flights), buffer, i)
    {
      ghost var before := Delays(flights);
      GroupOf(keys, members, col, keys[g]);
      HoldGroup(flights, keys[g], members[keys[g]], adj, buffer, pairs);
      OtherCorridorsStay(plans, pairs, col, before, Delays(flights), buffer, keys[g]);
      assert keys[..g + 1] == keys[..g] + [keys[g]];
    }
    assert keys[..|keys|] == keys;
    forall i: nat | i < |flights| ensures col[i] in keys { GroupOf(keys, members, col, col[i]); }
  }

  lemma GroupOf(keys: seq<int>, members: map<int, seq<nat>>, col: Colours, c: int)
    requires IsGrouping(keys, members, col, |col|) && (c in keys || c in col)
    ensures c in members && c in keys && Distinct(members[c])
    ensures forall i: nat :: i in members[c] <==> i < |col| && col[i] == c
  {
  }

  lemma AllHeld(plans: seq<Plan>, pairs: Pairs, col: Colours, delays: seq<real>, buffer: real)
    requires |plans| == |col| == |delays| && forall i :: 0 <= i < |plans| ==> NonNegativeSlack(plans[i])
    requires forall i: nat :: i < |plans| ==> HeldRight(plans, pairs, col, delays, buffer, i)
    ensures Separated(plans, pairs, col, delays, buffer)
  {
  }

  method HoldGroup(flights: seq<Flight>, c: int, members: seq<nat>, adj: seq<set<nat>>, buffer: real,
                   ghost pairs: Pairs)
    requires Distinct(flights) && Distinct(members)
    requires forall i: nat :: i in members <==> i < |flights| && flights[i].corridor == c
    requires IsContention(adj, pairs, Corridors(flights))
    modifies flights
    ensures Corridors(flights) == old(Corridors(flights))
    ensures forall i: nat :: i < |flights| && flights[i].corridor != c ==> flights[i].delayS == old(flights[i].delayS)
    ensures forall i: nat :: i < |flights| && flights[i].corridor == c ==>
              HeldRight(Plans(flights), pairs, Corridors(flights), Delays(flights), buffer, i)
  {
    hide HeldRight;
    var order := SortMembers(Plans(flights), members);
    assert CorridorOrder(Plans(flights), Corridors(flights), order) by {
      assert forall p :: 0 <= p < |order| ==> order[p] in members;
    }
    HoldCorridor(flights, order, adj, buffer, pairs);
  }

  lemma OtherCorridorsStay(plans: seq<Plan>, pairs: Pairs, col: Colours, before: seq<real>, after: seq<real>,
                           buffer: real, c: int)
    requires |plans| == |col| == |before| == |after|
    requires forall i: nat :: i < |col| && col[i] != c ==> before[i] == after[i]
    ensures forall i: nat :: i < |plans| && col[i] != c && HeldRight(plans, pairs, col, before, buffer, i) ==>
              HeldRight(plans, pairs, col, after, buffer, i)
  {
    hide HeldRight;
    forall i: nat | i < |plans| && col[i] != c && HeldRight(plans, pairs, col, before, buffer, i)
      ensures HeldRight(plans, pairs, col, after, buffer, i)
    {
      HeldFrame(plans, pairs, col, before, after, buffer, i);
    }
  }

  lemma NothingToHold(plans: seq<Plan>, pairs: Pairs, col: Colours, delays: seq<real>, buffer: real)
    requires |plans| == |col| == |delays|
    requires forall i :: 0 <= i < |delays| ==> delays[i] == 0.0 && NonNegativeSlack(plans[i])
    requires forall e :: e in pairs && e.0 < |col| && e.1 < |col| ==> col[e.0] != col[e.1]
    ensures Separated(plans, pairs, col, delays, buffer)
  {
    forall i: nat | i < |plans| ensures HeldRight(plans, pairs, col, delays, buffer, i) {
      assert ClearedAt(plans, pairs, col, delays, buffer, i, plans[i].entry);
    }
  }
}
