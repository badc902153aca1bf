/** The whole cluster pool: operator-sharing groups are solved one cluster after another, every
    other cluster on its own (src/fl_op/solver/cluster_pool.py, pool_solve and
    _solve_sequential_groups), and what that means for backup operators claimed twice. */
module PoolSolve {
  import opened Wrappers
  import opened Ordering
  import opened Calendar
  import opened OperatorGroups
  import opened GroupSolve
  import B = BackupOperators
  import Q = OperatorQualification

  type Id = string
  type Plans = map<Id, seq<Package>>

  ghost predicate DistinctIds(clusters: seq<Cluster>) {
    forall i, j :: 0 <= i < j < |clusters| ==> clusters[i].clusterId != clusters[j].clusterId
  }

  ghost predicate ById(byId: map<Id, Cluster>, clusters: seq<Cluster>) {
    && (forall x :: x in byId <==> IsCluster(clusters, x))
    && (forall x :: x in byId ==> byId[x].clusterId == x && byId[x] in clusters)
    && (forall x, op :: Lists(clusters, x, op) ==> x in byId && op in byId[x].sharedBackups)
  }

  method IndexById(clusters: seq<Cluster>) returns (byId: map<Id, Cluster>)
    requires DistinctIds(clusters)
    ensures ById(byId, clusters)
  {
    byId := map[];
    for k := 0 to |clusters|
      invariant forall x :: x in byId <==> IsCluster(clusters[..k], x)
      invariant forall i :: 0 <= i < k ==> clusters[i].clusterId in byId && byId[clusters[i].clusterId] == clusters[i]
      invariant forall x :: x in byId ==> byId[x].clusterId == x && byId[x] in clusters
    {
      byId := byId[clusters[k].clusterId := clusters[k]];
      forall x ensures IsCluster(clusters[..k + 1], x) <==> IsCluster(clusters[..k], x) || x == clusters[k].clusterId {
        assert clusters[..k + 1][k] == clusters[k] && forall i :: 0 <= i < k ==> clusters[..k + 1][i] == clusters[..k][i];
      }
    }
    assert clusters[..|clusters|] == clusters;
  }

  // ---- One group ---------------------------------------------------------------------------------

  function PenaltyOf(penalty: map<Id, real>, x: Id): real { if x in penalty then penalty[x] else 0.0 }

  /** Highest total penalty first, ties by cluster id. */
  predicate SolvedBefore(penalty: map<Id, real>, x: Id, y: Id) {
    KeyLe(-PenaltyOf(penalty, x), x, -PenaltyOf(penalty, y), y)
  }

  /** x is worth more than y, or the same with the smaller id; no penalty on record is none. */
  ghost predicate WorthFirst(penalty: map<Id, real>, x: Id, y: Id) {
    var a, b := if x in penalty then penalty[x] else 0.0, if y in penalty then penalty[y] else 0.0;
    a > b || (a == b && StringLe(x, y))
  }

  /** The package keeps op busy from start to end. */
  ghost predicate KeepsBusy(p: Package, op: Id, start: int, end: int) {
    p.operatorId == op && op != "" && p.start == Some(start) && p.end == Some(end) && start < end
  }

  /** Plans of different clusters never keep one operator busy at one instant, when both list it:
      one package ends before the other starts. */
  ghost predicate Apart(byId: map<Id, Cluster>, plans: Plans, x: Id, y: Id, op: Id) {
    x != y && x in plans && y in plans && x in byId && y in byId
    && op in byId[x].sharedBackups && op in byId[y].sharedBackups ==>
      forall p, q, a, b, c, d :: p in plans[x] && q in plans[y] && KeepsBusy(p, op, a, b) && KeepsBusy(q, op, c, d) ==>
        b <= c || d <= a
  }

  ghost predicate AllApart(byId: map<Id, Cluster>, plans: Plans) {
    forall x, y, op :: Apart(byId, plans, x, y, op)
  }

  function CallIds(calls: seq<Call>): (ids: seq<Id>)
    ensures |ids| == |calls| && forall k :: 0 <= k < |ids| ==> ids[k] == calls[k].cluster.clusterId
  {
    seq(|calls|, k requires 0 <= k < |calls| => calls[k].cluster.clusterId)
  }

  /** A call is for an indexed cluster, its plan is the solver's answer to it, and that answer is
      what was kept for the cluster. */
  ghost predicate Recorded(byId: map<Id, Cluster>, plans: Plans, solve: Solver, call: Call) {
    var x := call.cluster.clusterId;
    && x in byId && byId[x] == call.cluster && call.plan == solve(call.cluster, call.held)
    && x in plans && plans[x] == call.plan
  }

  /** The solver was called once for every cluster with a plan, and for no other. */
  ghost predicate SolvedOnce(byId: map<Id, Cluster>, plans: Plans, solve: Solver, calls: seq<Call>) {
    && Distinct(CallIds(calls)) && (forall x :: x in plans <==> x in CallIds(calls))
    && (forall k :: 0 <= k < |calls| ==> Recorded(byId, plans, solve, calls[k]))
  }

  ghost predicate AllRespect(plans: Plans, held: map<Id, seq<Span>>) {
    forall x :: x in plans ==> Respects(plans[x], held)
  }

  /** The ids come in solving order, those at stake most first. */
  ghost predicate InSolvingOrder(penalty: map<Id, real>, ids: seq<Id>) {
    forall i, j :: 0 <= i < j < |ids| ==> WorthFirst(penalty, ids[i], ids[j])
  }

  /** Of two clusters joined by shared operators the one worth more is solved first. */
  ghost predicate BestFirst(clusters: seq<Cluster>, penalty: map<Id, real>, ids: seq<Id>) {
    forall i, j :: 0 <= i < j < |ids| && Linked(Sharing(clusters), ids[i], ids[j]) ==>
                     WorthFirst(penalty, ids[i], ids[j])
  }

  method SolveOrdered(group: seq<Id>, byId: map<Id, Cluster>, penalty: map<Id, real>, base: Held, solve: Solver)
    returns (plans: Plans, ghost calls: seq<Call>)
    requires KeepsClear(solve)
    requires forall x :: x in group ==> x in byId && byId[x].clusterId == x
    ensures plans.Keys == set x | x in group
    ensures AllApart(byId, plans) && AllRespect(plans, Contents(base))
    ensures InSolvingOrder(penalty, CallIds(calls)) && multiset(CallIds(calls)) == multiset(group)
    ensures forall x :: x in plans ==> exists k :: 0 <= k < |calls| && calls[k].cluster.clusterId == x
                                                   && Recorded(byId, plans, solve, calls[k])
    ensures Distinct(group) ==> SolvedOnce(byId, plans, solve, calls)
  {
    hide Respects, Commits, AllApart, AllRespect, NoDoubleBooking, KeepsClear, SolvedInTurn, SolvedBefore, CallsInTurn,
         Recorded, SolvedOnce, SortBy;
    var ids := SortBy((x, y) => SolvedBefore(penalty, x, y), group);
    SameMembers(ids, group);
    OrderedByPenalty(penalty, group);
    var ordered := seq(|ids|, k requires 0 <= k < |ids| => byId[ids[k]]);
    var dispatches;
    dispatches, calls := SolveGroup(ordered, base, solve);
    plans := CollectPlans(ids, dispatches);
    GroupIsApart(ids, byId, ordered, dispatches, plans, Contents(base));
    GroupIsRecorded(ids, byId, ordered, dispatches, plans, calls, Contents(base), solve);
    if Distinct(group) {
      PermutationDistinct(group, ids);
      GroupIsSolvedOnce(ids, byId, ordered, dispatches, plans, calls, Contents(base), solve);
    }
  }

  lemma OrderedByPenalty(penalty: map<Id, real>, group: seq<Id>)
    ensures InSolvingOrder(penalty, SortBy((x, y) => SolvedBefore(penalty, x, y), group))
  {
    var le := (x, y) => SolvedBefore(penalty, x, y);
    forall x, y ensures le(x, y) || le(y, x) { KeyLeTotal(-PenaltyOf(penalty, x), x, -PenaltyOf(penalty, y), y); }
    forall x, y, z | le(x, y) && le(y, z) ensures le(x, z) {
      KeyLeTransitive(-PenaltyOf(penalty, x), x, -PenaltyOf(penalty, y), y, -PenaltyOf(penalty, z), z);
    }
    SortBySorted(le, group);
    var ids := SortBy(le, group);
    forall i, j | 0 <= i < j < |ids| ensures WorthFirst(penalty, ids[i], ids[j]) { assert le(ids[i], ids[j]); }
  }

  /** Calls answer for the ordered clusters; of calls for one id the last is kept. */
  lemma GroupIsRecorded(ids: seq<Id>, byId: map<Id, Cluster>, ordered: seq<Cluster>, dispatches: seq<seq<Package>>,
                        plans: Plans, calls: seq<Call>, base: map<Id, seq<Span>>, solve: Solver)
    requires |ordered| == |ids| == |dispatches| && CallsInTurn(calls, ordered, dispatches, base)
    requires SolvedInTurn(ordered, dispatches, base, solve)
    requires forall i :: 0 <= i < |ids| ==> ids[i] in byId && ordered[i] == byId[ids[i]] && byId[ids[i]].clusterId == ids[i]
    requires forall x :: x in plans ==> exists i :: 0 <= i < |ids| && ids[i] == x && plans[x] == dispatches[i]
    ensures CallIds(calls) == ids
    ensures forall x :: x in plans ==> exists k :: 0 <= k < |calls| && calls[k].cluster.clusterId == x
                                                   && Recorded(byId, plans, solve, calls[k])
  {
    hide Joined, Fed;
    forall x | x in plans
      ensures exists k :: 0 <= k < |calls| && calls[k].cluster.clusterId == x && Recorded(byId, plans, solve, calls[k])
    {
      var i :| 0 <= i < |ids| && ids[i] == x && plans[x] == dispatches[i];
      assert Recorded(byId, plans, solve, calls[i]);
    }
  }

  lemma GroupIsSolvedOnce(ids: seq<Id>, byId: map<Id, Cluster>, ordered: seq<Cluster>, dispatches: seq<seq<Package>>,
                          plans: Plans, calls: seq<Call>, base: map<Id, seq<Span>>, solve: Solver)
    requires |ordered| == |ids| == |dispatches| && CallsInTurn(calls, ordered, dispatches, base)
    requires SolvedInTurn(ordered, dispatches, base, solve) && Distinct(ids)
    requires forall i :: 0 <= i < |ids| ==> ids[i] in byId && ordered[i] == byId[ids[i]] && byId[ids[i]].clusterId == ids[i]
    requires plans.Keys == set x | x in ids
    requires forall x :: x in plans ==> exists i :: 0 <= i < |ids| && ids[i] == x && plans[x] == dispatches[i]
    ensures SolvedOnce(byId, plans, solve, calls)
  {
    hide Joined, Fed;
    assert CallIds(calls) == ids;
    forall k | 0 <= k < |calls| ensures Recorded(byId, plans, solve, calls[k]) {
      assert ids[k] in plans;
      var i :| 0 <= i < |ids| && ids[i] == ids[k] && plans[ids[k]] == dispatches[i];
    }
  }

  method CollectPlans(ids: seq<Id>, dispatches: seq<seq<Package>>) returns (plans: Plans)
    requires |ids| == |dispatches|
    ensures plans.Keys == set x | x in ids
    ensures forall x :: x in plans ==> exists i :: 0 <= i < |ids| && ids[i] == x && plans[x] == dispatches[i]
  {
    plans := map[];
    for k := 0 to |ids|
      invariant plans.Keys == set x | x in ids[..k]
      invariant forall x :: x in plans ==> exists i :: 0 <= i < |ids| && ids[i] == x && plans[x] == dispatches[i]
    {
      plans := plans[ids[k] := dispatches[k]];
      assert ids[..k + 1] == ids[..k] + [ids[k]];
    }
    assert ids[..|ids|] == ids;
  }

  lemma GroupIsApart(ids: seq<Id>, byId: map<Id, Cluster>, ordered: seq<Cluster>, dispatches: seq<seq<Package>>,
                     plans: Plans, held: map<Id, seq<Span>>)
    requires |ordered| == |ids| == |dispatches| && NoDoubleBooking(ordered, dispatches) && ClearOfBase(dispatches, held)
    requires forall i :: 0 <= i < |ids| ==> ids[i] in byId && ordered[i] == byId[ids[i]]
    requires forall x :: x in plans ==> exists i :: 0 <= i < |ids| && ids[i] == x && plans[x] == dispatches[i]
    ensures AllApart(byId, plans) && AllRespect(plans, held)
  {
    hide Respects, Commits;
    forall x, y, op ensures Apart(byId, plans, x, y, op) {
      if x != y && x in plans && y in plans && x in byId && y in byId
         && op in byId[x].sharedBackups && op in byId[y].sharedBackups {
        var i :| 0 <= i < |ids| && ids[i] == x && plans[x] == dispatches[i];
        var j :| 0 <= j < |ids| && ids[j] == y && plans[y] == dispatches[j];
        forall p, q, a, b, c, d
          | p in plans[x] && q in plans[y] && KeepsBusy(p, op, a, b) && KeepsBusy(q, op, c, d)
          ensures b <= c || d <= a
        {
          Busy(plans[x], p, op, a, b);
          Busy(plans[y], q, op, c, d);
          assert Meet((a, b), (c, d)) <==> Meet((c, d), (a, b));
        }
      }
    }
  }

  lemma Busy(plan: seq<Package>, p: Package, op: Id, start: int, end: int)
    requires p in plan && KeepsBusy(p, op, start, end)
    ensures Commits(plan, op, (start, end))
  {
    var k :| 0 <= k < |plan| && plan[k] == p;
    assert IsCommitment(plan[k], op, (start, end));
  }

  // ---- The pool -------------------------------------------------------------------------------------

  /** Clusters in different groups, or in none, list no operator in common. */
  lemma UnionIsApart(byId: map<Id, Cluster>, clusters: seq<Cluster>, groups: seq<seq<Id>>, k: nat, plans: Plans, more: Plans)
    requires AreSharingGroups(groups, clusters) && k < |groups| && ById(byId, clusters)
    requires forall x :: x in more ==> x in groups[k]
    requires forall x :: x in plans ==> x !in groups[k]
    requires AllApart(byId, plans) && AllApart(byId, more)
    ensures AllApart(byId, plans + more)
  {
    hide AreSharingGroups, Commits, Lists, IsCluster;
    forall x, y, op ensures Apart(byId, plans + more, x, y, op) {
      if x != y && x in byId && y in byId && op in byId[x].sharedBackups && op in byId[y].sharedBackups {
        ListedIn(byId, clusters, x, op);
        ListedIn(byId, clusters, y, op);
        SameGroup(groups, clusters, k, x, y, op);
        assert Apart(byId, plans, x, y, op) && Apart(byId, more, x, y, op);
      }
    }
  }

  lemma ListedIn(byId: map<Id, Cluster>, clusters: seq<Cluster>, x: Id, op: Id)
    requires ById(byId, clusters) && x in byId && op in byId[x].sharedBackups
    ensures Lists(clusters, x, op)
  {
  }

  /** Two clusters listing one operator are in the same group. */
  lemma SameGroup(groups: seq<seq<Id>>, clusters: seq<Cluster>, k: nat, x: Id, y: Id, op: Id)
    requires AreSharingGroups(groups, clusters) && k < |groups| && x != y
    requires Lists(clusters, x, op) && Lists(clusters, y, op)
    ensures x in groups[k] <==> y in groups[k]
  {
    SeparateGroupsShareNothing(groups, clusters, x, y, op);
  }

  ghost predicate Grouped(groups: seq<seq<Id>>, x: Id) { exists g :: 0 <= g < |groups| && x in groups[g] }

  lemma IndependentIsApart(byId: map<Id, Cluster>, clusters: seq<Cluster>, groups: seq<seq<Id>>, plans: Plans)
    requires AreSharingGroups(groups, clusters) && ById(byId, clusters)
    requires forall x :: x in plans ==> !Grouped(groups, x)
    ensures AllApart(byId, plans)
  {
    hide AreSharingGroups, Commits, Lists, IsCluster;
    forall x, y, op ensures Apart(byId, plans, x, y, op) {
      if x != y && x in plans && x in byId && y in byId && op in byId[x].sharedBackups && op in byId[y].sharedBackups {
        ListedIn(byId, clusters, x, op);
        ListedIn(byId, clusters, y, op);
        SeparateGroupsShareNothing(groups, clusters, x, y, op);
      }
    }
  }

  /** The clusters outside every group, each solved alone against the base holds. */
  method SolveIndependent(clusters: seq<Cluster>, byId: map<Id, Cluster>, groups: seq<seq<Id>>, base: Held, solve: Solver)
    returns (plans: Plans, ghost calls: seq<Call>)
    requires KeepsClear(solve) && DistinctIds(clusters)
    requires forall k :: 0 <= k < |clusters| ==> clusters[k].clusterId in byId && byId[clusters[k].clusterId] == clusters[k]
    ensures forall x :: x in plans <==> IsCluster(clusters, x) && !Grouped(groups, x)
    ensures AllRespect(plans, Contents(base)) && SolvedOnce(byId, plans, solve, calls)
  {
    hide Respects, Recorded, SolvedOnce;
    plans, calls := map[], [];
    NothingSolved(byId, solve);
    for k := 0 to |clusters|
      invariant forall x :: x in plans <==> IsCluster(clusters[..k], x) && !Grouped(groups, x)
      invariant AllRespect(plans, Contents(base)) && SolvedOnce(byId, plans, solve, calls)
    {
      var c := clusters[k];
      IdsNext(clusters, k);
      if !(exists g :: 0 <= g < |groups| && c.clusterId in groups[g]) {
        var plan := solve(c, Contents(base));
        OneMore(byId, plans, solve, calls, Call(c, Contents(base), plan));
        plans := plans[c.clusterId := plan];
        calls := calls + [Call(c, Contents(base), plan)];
      }
    }
    assert clusters[..|clusters|] == clusters;
  }

  lemma IdsNext(clusters: seq<Cluster>, k: nat)
    requires DistinctIds(clusters) && k < |clusters|
    ensures forall x :: IsCluster(clusters[..k + 1], x) <==> IsCluster(clusters[..k], x) || x == clusters[k].clusterId
    ensures !IsCluster(clusters[..k], clusters[k].clusterId)
  {
    forall x ensures IsCluster(clusters[..k + 1], x) <==> IsCluster(clusters[..k], x) || x == clusters[k].clusterId {
      assert clusters[..k + 1][k] == clusters[k];
      assert forall i :: 0 <= i < k ==> clusters[..k + 1][i] == clusters[..k][i];
    }
  }

  lemma NothingSolved(byId: map<Id, Cluster>, solve: Solver)
    ensures SolvedOnce(byId, map[], solve, [])
  {
  }

  lemma OneMore(byId: map<Id, Cluster>, plans: Plans, solve: Solver, calls: seq<Call>, call: Call)
    requires SolvedOnce(byId, plans, solve, calls) && call.cluster.clusterId !in plans
    requires call.cluster.clusterId in byId && byId[call.cluster.clusterId] == call.cluster
    requires call.plan == solve(call.cluster, call.held)
    ensures SolvedOnce(byId, plans[call.cluster.clusterId := call.plan], solve, calls + [call])
  {
    var x := call.cluster.clusterId;
    var next := calls + [call];
    assert CallIds(next) == CallIds(calls) + [x];
    forall k | 0 <= k < |next| ensures Recorded(byId, plans[x := call.plan], solve, next[k]) {
      if k < |calls| { assert Recorded(byId, plans, solve, calls[k]) && CallIds(calls)[k] in plans; }
    }
  }

  /** Two sets of clusters solved once each, none in both, are solved once together. */
  lemma SolvedTogether(byId: map<Id, Cluster>, plans: Plans, more: Plans, solve: Solver, calls: seq<Call>, others: seq<Call>)
    requires SolvedOnce(byId, plans, solve, calls) && SolvedOnce(byId, more, solve, others) && plans.Keys !! more.Keys
    ensures SolvedOnce(byId, plans + more, solve, calls + others)
  {
    var all := calls + others;
    assert CallIds(all) == CallIds(calls) + CallIds(others);
    forall i, j | 0 <= i < j < |all| ensures CallIds(all)[i] != CallIds(all)[j] {
      if i < |calls| <= j {
        assert CallIds(calls)[i] in plans && CallIds(others)[j - |calls|] in more;
      }
    }
    forall k | 0 <= k < |all| ensures Recorded(byId, plans + more, solve, all[k]) {
      if k < |calls| {
        assert Recorded(byId, plans, solve, calls[k]) && CallIds(calls)[k] in plans;
      } else {
        assert Recorded(byId, more, solve, others[k - |calls|]);
      }
    }
  }

  method Solve(clusters: seq<Cluster>, penalty: map<Id, real>, sharing: bool, base: Held, solve: Solver)
    returns (plans: Plans, ghost byId: map<Id, Cluster>, ghost calls: seq<Call>)
    requires KeepsClear(solve) && DistinctIds(clusters)
    ensures ById(byId, clusters) && forall x :: x in plans <==> IsCluster(clusters, x)
    ensures SolvedOnce(byId, plans, solve, calls) && AllRespect(plans, Contents(base))
    ensures sharing ==> AllApart(byId, plans) && BestFirst(clusters, penalty, CallIds(calls))
  {
    hide AreSharingGroups, AllApart, AllRespect, Respects, KeepsClear, ById, SolvedOnce, Recorded, BestFirst, CallIds,
         InSolvingOrder;
    var groups := [];
    if sharing { groups := OperatorSharingGroups(clusters); }
    var index := IndexById(clusters);
    byId := index;
    IndexHolds(byId, clusters);
    plans, calls := SolveIndependent(clusters, index, groups, base, solve);
    if sharing {
      IndependentIsApart(byId, clusters, groups, plans);
      CallsAreKept(byId, plans, solve, calls);
      IndependentIsBest(clusters, groups, penalty, CallIds(calls));
      for k := 0 to |groups|
        invariant forall x :: x in plans <==> IsCluster(clusters, x) && (Grouped(groups, x) ==> Grouped(groups[..k], x))
        invariant SolvedOnce(byId, plans, solve, calls) && AllRespect(plans, Contents(base)) && AllApart(byId, plans)
        invariant BestFirst(clusters, penalty, CallIds(calls))
      {
        GroupIsIndexed(byId, clusters, groups, k);
        var more;
        ghost var others;
        more, others := SolveOrdered(groups[k], index, penalty, base, solve);
        DoneGroups(groups, clusters, k);
        UnionIsApart(byId, clusters, groups, k, plans, more);
        UnionRespects(plans, more, Contents(base));
        SolvedTogether(byId, plans, more, solve, calls, others);
        CallsAreKept(byId, plans, solve, calls);
        GroupIsBest(clusters, groups, k, penalty, CallIds(calls), CallIds(others));
        IdsJoin(calls, others);
        plans, calls := plans + more, calls + others;
      }
      assert groups[..|groups|] == groups;
    }
  }

  lemma IdsJoin(calls: seq<Call>, others: seq<Call>)
    ensures CallIds(calls + others) == CallIds(calls) + CallIds(others)
  {
  }

  lemma CallsAreKept(byId: map<Id, Cluster>, plans: Plans, solve: Solver, calls: seq<Call>)
    requires SolvedOnce(byId, plans, solve, calls)
    ensures Distinct(CallIds(calls)) && forall x :: x in CallIds(calls) <==> x in plans
  {
  }

  /** Clusters outside every group are joined to no other. */
  lemma IndependentIsBest(clusters: seq<Cluster>, groups: seq<seq<Id>>, penalty: map<Id, real>, ids: seq<Id>)
    requires AreSharingGroups(groups, clusters) && Distinct(ids)
    requires forall x :: x in ids ==> IsCluster(clusters, x) && !Grouped(groups, x)
    ensures BestFirst(clusters, penalty, ids)
  {
    hide Linked, Sharing, IsCluster, WorthFirst, AreSharingGroups, Grouped;
    forall i, j | 0 <= i < j < |ids| ensures !Linked(Sharing(clusters), ids[i], ids[j]) {
      assert ids[i] in ids && ids[j] in ids;
      if Linked(Sharing(clusters), ids[i], ids[j]) { JoinedIsGrouped(clusters, groups, ids[i], ids[j]); }
    }
  }

  lemma JoinedIsGrouped(clusters: seq<Cluster>, groups: seq<seq<Id>>, x: Id, y: Id)
    requires AreSharingGroups(groups, clusters) && IsCluster(clusters, x) && IsCluster(clusters, y) && x != y
    requires Linked(Sharing(clusters), x, y)
    ensures Grouped(groups, x)
  {
    hide Linked, Sharing, IsCluster;
  }

  lemma JoinedIsInGroup(clusters: seq<Cluster>, groups: seq<seq<Id>>, k: nat, x: Id, y: Id)
    requires AreSharingGroups(groups, clusters) && k < |groups| && IsCluster(clusters, x) && y in groups[k]
    requires Linked(Sharing(clusters), x, y)
    ensures x in groups[k]
  {
    hide Linked, Sharing, IsCluster;
    LinkedSym(Sharing(clusters), x, y);
  }

  /** A group solved in order keeps the order of what was solved before it: nothing there is
      joined to its members. */
  lemma GroupIsBest(clusters: seq<Cluster>, groups: seq<seq<Id>>, k: nat, penalty: map<Id, real>, ids: seq<Id>,
                    more: seq<Id>)
    requires AreSharingGroups(groups, clusters) && k < |groups|
    requires BestFirst(clusters, penalty, ids) && InSolvingOrder(penalty, more)
    requires forall x :: x in ids ==> IsCluster(clusters, x) && x !in groups[k]
    requires multiset(more) == multiset(groups[k])
    ensures BestFirst(clusters, penalty, ids + more)
  {
    hide Linked, Sharing, IsCluster, WorthFirst, AreSharingGroups;
    SameMembers(more, groups[k]);
    forall x, y | x in ids && y in more ensures !Linked(Sharing(clusters), x, y) {
      var j :| 0 <= j < |more| && more[j] == y;
      if Linked(Sharing(clusters), x, y) { JoinedIsInGroup(clusters, groups, k, x, y); }
    }
    var all := ids + more;
    forall i, j | 0 <= i < j < |all| && Linked(Sharing(clusters), all[i], all[j])
      ensures WorthFirst(penalty, all[i], all[j])
    {
      assert i < |ids| ==> all[i] == ids[i];
      assert j >= |ids| ==> all[j] == more[j - |ids|];
    }
  }

  lemma GroupIsIndexed(byId: map<Id, Cluster>, clusters: seq<Cluster>, groups: seq<seq<Id>>, k: nat)
    requires AreSharingGroups(groups, clusters) && k < |groups| && ById(byId, clusters)
    requires DistinctIds(clusters)
    ensures forall x :: x in groups[k] ==> x in byId && byId[x].clusterId == x
    ensures Distinct(groups[k])
  {
    GroupsAreDistinct(groups, clusters);
  }

  lemma DoneGroups(groups: seq<seq<Id>>, clusters: seq<Cluster>, k: nat)
    requires AreSharingGroups(groups, clusters) && k < |groups|
    ensures forall x :: Grouped(groups[..k + 1], x) <==> Grouped(groups[..k], x) || x in groups[k]
    ensures forall x :: x in groups[k] ==> IsCluster(clusters, x) && Grouped(groups, x) && !Grouped(groups[..k], x)
  {
    var done, next := groups[..k], groups[..k + 1];
    assert next == done + [groups[k]];
    forall x ensures Grouped(next, x) <==> Grouped(done, x) || x in groups[k] {
      if x in groups[k] { assert x in next[k]; }
      if g :| 0 <= g < |done| && x in done[g] { assert x in next[g]; }
      if g :| 0 <= g < |next| && x in next[g] { assert g < k ==> x in done[g]; }
    }
  }

  lemma UnionRespects(plans: Plans, more: Plans, held: map<Id, seq<Span>>)
    requires AllRespect(plans, held) && AllRespect(more, held)
    ensures AllRespect(plans + more, held)
  {
    hide Respects;
  }

  /** With distinct ids the index gives back every cluster. */
  lemma IndexHolds(byId: map<Id, Cluster>, clusters: seq<Cluster>)
    requires DistinctIds(clusters) && ById(byId, clusters)
    ensures forall k :: 0 <= k < |clusters| ==> clusters[k].clusterId in byId && byId[clusters[k].clusterId] == clusters[k]
  {
    forall k | 0 <= k < |clusters|
      ensures clusters[k].clusterId in byId && byId[clusters[k].clusterId] == clusters[k]
    {
      assert IsCluster(clusters, clusters[k].clusterId);
      var j :| 0 <= j < |clusters| && clusters[j] == byId[clusters[k].clusterId];
    }
  }

  // ---- From claim to schedule -----------------------------------------------------------------------

  /** The pool was given what the qualification pass stamped. */
  ghost predicate CarriesStamps(clusters: seq<Cluster>, log: seq<B.Attempt>) {
    forall x, op :: IsCluster(clusters, x) ==>
      (Q.OverlapClaimed(log, op) && Q.ClaimedBy(log, op, x) ==> Lists(clusters, x, op))
  }

  /** Two clusters that claimed one operator for a common instant end with plans that never
      keep it busy at the same time. */
  lemma ClaimsAreKeptApart(env: B.Env, log: seq<B.Attempt>, clusters: seq<Cluster>, byId: map<Id, Cluster>, plans: Plans,
                           i: nat, j: nat, op: Id, p: Package, q: Package)
    requires B.ValidLog(env, log) && CarriesStamps(clusters, log) && ById(byId, clusters)
    requires AllApart(byId, plans)
    requires i < j < |log| && log[i].chosen == Some(op) && log[j].chosen == Some(op)
    requires log[i].cluster != log[j].cluster && log[i].cluster in plans && log[j].cluster in plans
    requires IsCluster(clusters, log[i].cluster) && IsCluster(clusters, log[j].cluster)
    requires B.SharedInstant(log[i].demand, log[j].demand)
    requires p in plans[log[i].cluster] && q in plans[log[j].cluster] && p.operatorId == op == q.operatorId && op != ""
    requires p.start.Some? && p.end.Some? && p.start.value < p.end.value
    requires q.start.Some? && q.end.Some? && q.start.value < q.end.value
    ensures env.allowOverlap && (p.end.value <= q.start.value || q.end.value <= p.start.value)
  {
    hide B.ValidLog, B.SharedInstant, Lists, IsCluster;
    SharedClaimIsStamped(env, log, i, j, op);
    var x, y := log[i].cluster, log[j].cluster;
    assert Lists(clusters, x, op) && Lists(clusters, y, op);
    assert Apart(byId, plans, x, y, op);
    assert KeepsBusy(p, op, p.start.value, p.end.value) && KeepsBusy(q, op, q.start.value, q.end.value);
  }

  lemma SharedClaimIsStamped(env: B.Env, log: seq<B.Attempt>, i: nat, j: nat, op: Id)
    requires B.ValidLog(env, log) && i < j < |log| && log[i].chosen == Some(op) && log[j].chosen == Some(op)
    requires B.SharedInstant(log[i].demand, log[j].demand)
    ensures env.allowOverlap && Q.OverlapClaimed(log, op)
    ensures Q.ClaimedBy(log, op, log[i].cluster) && Q.ClaimedBy(log, op, log[j].cluster)
  {
    hide B.SharedInstant;
    if !log[j].overlap { B.ClaimIsDisjoint(env, log, i, j); }
    var k := B.Winner(env, log[..j], log[j]);
  }
}
