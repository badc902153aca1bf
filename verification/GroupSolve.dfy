/** Sequential solving inside one operator-sharing group: each cluster's committed intervals are
    fed forward as held windows (src/fl_op/solver/cluster_pool.py, _solve_group). */
module GroupSolve {
  import opened Wrappers
  import opened DisjointSets
  import OperatorGroups
  import opened Calendar
  import opened Tables

  /** A mutable list of held windows, shared by reference between dictionaries. */
  class WindowList {
    var items: seq<Span>

    constructor (items: seq<Span>)
      ensures this.items == items
    {
      this.items := items;
    }
  }

  type Held = map<Id, WindowList>
  type Cluster = OperatorGroups.Cluster

  /** One dispatched package; operatorId "" is an absent operator, None an unreadable time. */
  datatype Package = Package(operatorId: Id, start: Option<int>, end: Option<int>)

  function Contents(held: Held): (r: map<Id, seq<Span>>)
    reads held.Values
    ensures r.Keys == held.Keys
  {
    map k | k in held :: held[k].items
  }

  ghost predicate Separate(held: Held) {
    forall k, l :: k in held && l in held && k != l ==> held[k] != held[l]
  }

  // ---- _operator_intervals ----------------------------------------------------------------

  predicate IsCommitment(p: Package, op: Id, v: Span) {
    && p.operatorId == op && op != "" && p.start.Some? && p.end.Some?
    && p.end.value > p.start.value && v == (p.start.value, p.end.value)
  }

  /** The plan keeps operator op busy over v. */
  ghost predicate Commits(dispatch: seq<Package>, op: Id, v: Span) {
    exists k :: 0 <= k < |dispatch| && IsCommitment(dispatch[k], op, v)
  }

  /** The commitments of a dispatch, per operator, in dispatch order. */
  function Intervals(dispatch: seq<Package>): map<Id, seq<Span>> {
    if dispatch == [] then map[]
    else
      var p, before := dispatch[|dispatch| - 1], Intervals(dispatch[..|dispatch| - 1]);
      if p.operatorId != "" && p.start.Some? && p.end.Some? && p.end.value > p.start.value
      then AppendTo(before, p.operatorId, (p.start.value, p.end.value))
      else before
  }

  lemma {:induction false} IntervalsAreCommitments(dispatch: seq<Package>, op: Id, v: Span)
    ensures InTable(Intervals(dispatch), op, v) <==> Commits(dispatch, op, v)
  {
    if dispatch != [] {
      var n := |dispatch| - 1;
      var p := dispatch[n];
      IntervalsAreCommitments(dispatch[..n], op, v);
      CommitsNext(dispatch, n, op, v);
      assert dispatch[..n + 1] == dispatch;
      if p.start.Some? && p.end.Some? {
        AppendToAdds(Intervals(dispatch[..n]), p.operatorId, (p.start.value, p.end.value), op, v);
      }
    }
  }

  method OperatorIntervals(dispatch: seq<Package>) returns (intervals: map<Id, seq<Span>>)
    ensures intervals == Intervals(dispatch)
    ensures forall op, v :: InTable(intervals, op, v) <==> Commits(dispatch, op, v)
  {
    intervals := map[];
    for k := 0 to |dispatch|
      invariant intervals == Intervals(dispatch[..k])
    {
      var p := dispatch[k];
      assert dispatch[..k + 1][..k] == dispatch[..k] && dispatch[..k + 1][k] == p;
      if p.operatorId != "" && p.start.Some? && p.end.Some? && p.end.value > p.start.value {
        intervals := AppendTo(intervals, p.operatorId, (p.start.value, p.end.value));
      }
    }
    assert dispatch[..|dispatch|] == dispatch;
    forall op, v ensures InTable(intervals, op, v) <==> Commits(dispatch, op, v) {
      IntervalsAreCommitments(dispatch, op, v);
    }
  }

  lemma CommitsNext(dispatch: seq<Package>, k: nat, op: Id, v: Span)
    requires k < |dispatch|
    ensures Commits(dispatch[..k + 1], op, v) <==> Commits(dispatch[..k], op, v) || IsCommitment(dispatch[k], op, v)
  {
    if Commits(dispatch[..k], op, v) {
      var j :| 0 <= j < k && IsCommitment(dispatch[..k][j], op, v);
      assert dispatch[..k + 1][j] == dispatch[..k][j];
    }
    if IsCommitment(dispatch[k], op, v) { assert dispatch[..k + 1][k] == dispatch[k]; }
    if Commits(dispatch[..k + 1], op, v) {
      var j :| 0 <= j < k + 1 && IsCommitment(dispatch[..k + 1][j], op, v);
      assert j < k ==> dispatch[..k][j] == dispatch[..k + 1][j];
    }
  }

  // ---- _merge_held_windows ----------------------------------------------------------------

  method CopyLists(base: Held) returns (copy: Held)
    ensures Separate(copy) && forall k :: k in copy ==> fresh(copy[k])
    ensures Contents(copy) == Contents(base)
  {
    copy := map[];
    var todo := base.Keys;
    while todo != {}
      invariant todo <= base.Keys && copy.Keys == base.Keys - todo && Separate(copy)
      invariant forall k :: k in copy ==> fresh(copy[k]) && copy[k].items == base[k].items
      decreases |todo|
    {
      var k :| k in todo;
      var list := new WindowList(base[k].items);
      copy := copy[k := list];
      todo := todo - {k};
    }
  }

  function Row(m: map<Id, seq<Span>>, op: Id): seq<Span> { if op in m then m[op] else [] }

  /** What both dictionaries hold for each operator, the first one's windows in front. */
  function Joined(a: map<Id, seq<Span>>, b: map<Id, seq<Span>>): map<Id, seq<Span>> {
    map op | op in a.Keys + b.Keys :: Row(a, op) + Row(b, op)
  }

  /** Extend op's list, in place when it exists. */
  method Extend(held: Held, op: Id, items: seq<Span>) returns (next: Held)
    requires Separate(held)
    modifies held.Values
    ensures Separate(next) && forall k :: k in next ==> (k in held && next[k] == held[k]) || fresh(next[k])
    ensures Contents(next) == old(Contents(held))[op := Row(old(Contents(held)), op) + items]
  {
    ghost var before := Contents(held);
    if op in held {
      held[op].items := held[op].items + items;
      next := held;
      assert forall k :: k in next && k != op ==> next[k].items == before[k];
    } else {
      var list := new WindowList(items);
      next := held[op := list];
      assert Row(before, op) + items == items;
    }
    assert Contents(next) == before[op := Row(before, op) + items];
  }

  /** One extend per entry of added, in any order. */
  method ExtendAll(held: Held, added: map<Id, seq<Span>>) returns (next: Held)
    requires Separate(held)
    modifies held.Values
    ensures Separate(next) && forall k :: k in next ==> (k in held && next[k] == held[k]) || fresh(next[k])
    ensures Contents(next) == Joined(old(Contents(held)), added)
  {
    hide Joined;
    next := held;
    ghost var start := Contents(held);
    ghost var done: map<Id, seq<Span>> := map[];
    var todo := added.Keys;
    JoinedNone(start, done);
    while todo != {}
      invariant todo <= added.Keys && done.Keys == added.Keys - todo && forall k :: k in done ==> done[k] == added[k]
      invariant Separate(next) && forall k :: k in next ==> (k in held && next[k] == held[k]) || fresh(next[k])
      invariant Contents(next) == Joined(start, done)
      decreases |todo|
    {
      var k :| k in todo;
      JoinedStep(start, done, k, added[k]);
      next := Extend(next, k, added[k]);
      done := done[k := added[k]];
      todo := todo - {k};
    }
    assert done == added;
  }

  lemma JoinedNone(start: map<Id, seq<Span>>, none: map<Id, seq<Span>>)
    requires none == map[]
    ensures Joined(start, none) == start
  {
    forall k | k in start ensures Joined(start, none)[k] == start[k] {
      assert start[k] + [] == start[k];
    }
  }

  lemma JoinedStep(start: map<Id, seq<Span>>, done: map<Id, seq<Span>>, k: Id, items: seq<Span>)
    requires k !in done
    ensures var now := Joined(start, done);
            now[k := Row(now, k) + items] == Joined(start, done[k := items])
  {
    var now, next := Joined(start, done), Joined(start, done[k := items]);
    assert Row(now, k) == Row(start, k) by { assert Row(start, k) + [] == Row(start, k); }
    forall op | op in next ensures now[k := Row(now, k) + items][op] == next[op] {
    }
  }

  /** Without forward-fed windows the result shares base's lists; otherwise every list is
      new. Neither argument changes: the method may modify nothing that exists. */
  method MergeHeldWindows(base: Held, extra: Held) returns (merged: Held)
    ensures Contents(merged) == Joined(Contents(base), Contents(extra))
    ensures extra == map[] ==> merged == base
    ensures extra != map[] ==> forall k :: k in merged ==> fresh(merged[k])
  {
    hide Joined;
    if extra == map[] {
      JoinedNone(Contents(base), Contents(extra));
      merged := base;
    } else {
      var added := Contents(extra);
      merged := CopyAndExtend(base, added);
    }
  }

  method CopyAndExtend(base: Held, added: map<Id, seq<Span>>) returns (merged: Held)
    ensures Contents(merged) == Joined(Contents(base), added)
    ensures forall k :: k in merged ==> fresh(merged[k])
  {
    hide Joined;
    merged := CopyLists(base);
    merged := ExtendAll(merged, added);
  }

  // ---- _solve_group -----------------------------------------------------------------------

  /** The plan keeps clear of the held windows it was given. */
  ghost predicate Respects(dispatch: seq<Package>, held: map<Id, seq<Span>>) {
    forall op, v, w :: Commits(dispatch, op, v) && InTable(held, op, w) ==> !Meet(v, w)
  }

  type Solver = (Cluster, map<Id, seq<Span>>) -> seq<Package>

  /** One invocation of the solver: its arguments and its answer. */
  datatype Call = Call(cluster: Cluster, held: map<Id, seq<Span>>, plan: seq<Package>)

  /** The calls are those of the plans, one per cluster in order, each under the base holds and
      what was fed forward to it. */
  ghost predicate CallsInTurn(calls: seq<Call>, clusters: seq<Cluster>, plans: seq<seq<Package>>,
                              base: map<Id, seq<Span>>)
  {
    && |calls| == |plans| <= |clusters|
    && forall k :: 0 <= k < |calls| ==>
         calls[k] == Call(clusters[k], Joined(base, Fed(clusters, plans[..k])), plans[k])
  }

  /** One of the first k plans keeps op busy over v, and its cluster lists op. */
  ghost predicate FedBy(clusters: seq<Cluster>, plans: seq<seq<Package>>, k: nat, op: Id, v: Span) {
    exists i :: 0 <= i < k && i < |plans| && i < |clusters| && op in clusters[i].sharedBackups && Commits(plans[i], op, v)
  }

  /** Each call is held off the base windows and what was fed forward to it, and off nothing else. */
  ghost predicate HeldOff(calls: seq<Call>, clusters: seq<Cluster>, plans: seq<seq<Package>>,
                          base: map<Id, seq<Span>>)
  {
    forall k: nat, op, v :: k < |calls| ==>
      (InTable(calls[k].held, op, v) <==> InTable(base, op, v) || FedBy(clusters, plans, k, op, v))
  }

  lemma {:induction false} FedIs(clusters: seq<Cluster>, plans: seq<seq<Package>>, op: Id, v: Span)
    requires |plans| <= |clusters|
    ensures InTable(Fed(clusters, plans), op, v) <==> FedBy(clusters, plans, |plans|, op, v)
  {
    hide Commits, Joined;
    if plans != [] {
      var n := |plans| - 1;
      FedIs(clusters, plans[..n], op, v);
      InJoined(Fed(clusters, plans[..n]), Shared(Intervals(plans[n]), clusters[n].sharedBackups), op, v);
      IntervalsAreCommitments(plans[n], op, v);
      FedNext(clusters, plans, op, v);
    }
  }

  lemma FedNext(clusters: seq<Cluster>, plans: seq<seq<Package>>, op: Id, v: Span)
    requires plans != [] && |plans| <= |clusters|
    ensures var n := |plans| - 1;
            FedBy(clusters, plans, |plans|, op, v) <==>
            FedBy(clusters, plans[..n], n, op, v) || (op in clusters[n].sharedBackups && Commits(plans[n], op, v))
  {
    hide Commits;
    var n := |plans| - 1;
    assert forall i :: 0 <= i < n ==> plans[..n][i] == plans[i];
  }

  lemma CallsAreHeldOff(calls: seq<Call>, clusters: seq<Cluster>, plans: seq<seq<Package>>, base: map<Id, seq<Span>>)
    requires CallsInTurn(calls, clusters, plans, base)
    ensures HeldOff(calls, clusters, plans, base)
  {
    hide Joined, Fed, FedBy;
    forall k: nat, op, v | k < |calls|
      ensures InTable(calls[k].held, op, v) <==> InTable(base, op, v) || FedBy(clusters, plans, k, op, v)
    {
      assert calls[k] == Call(clusters[k], Joined(base, Fed(clusters, plans[..k])), plans[k]);
      InJoined(base, Fed(clusters, plans[..k]), op, v);
      FedIs(clusters, plans[..k], op, v);
      FedPrefix(clusters, plans, k, op, v);
    }
  }

  lemma FedPrefix(clusters: seq<Cluster>, plans: seq<seq<Package>>, k: nat, op: Id, v: Span)
    requires k <= |plans| <= |clusters|
    ensures FedBy(clusters, plans[..k], k, op, v) <==> FedBy(clusters, plans, k, op, v)
  {
    hide Commits;
    assert forall i :: 0 <= i < k ==> plans[..k][i] == plans[i];
  }

  /** The one assumption about the cluster solver. */
  ghost predicate KeepsClear(solve: Solver) {
    forall c, held :: Respects(solve(c, held), held)
  }

  /** Plans of earlier clusters that listed op never meet later plans on op. */
  ghost predicate NoDoubleBooking(clusters: seq<Cluster>, plans: seq<seq<Package>>) {
    |plans| <= |clusters| &&
    forall i, j, op, v, w ::
      0 <= i < j < |plans| && op in clusters[i].sharedBackups && Commits(plans[i], op, v) && Commits(plans[j], op, w)
      ==> !Meet(w, v)
  }

  ghost predicate ClearOfBase(plans: seq<seq<Package>>, base: map<Id, seq<Span>>) {
    forall j :: 0 <= j < |plans| ==> Respects(plans[j], base)
  }

  /** Everything committed so far on a listed operator is in the forward-fed windows. */
  ghost predicate FedForward(clusters: seq<Cluster>, plans: seq<seq<Package>>, fed: map<Id, seq<Span>>) {
    |plans| <= |clusters| &&
    forall i, op, v :: 0 <= i < |plans| && op in clusters[i].sharedBackups && Commits(plans[i], op, v) ==>
                         InTable(fed, op, v)
  }

  /** What the plans so far feed forward: their commitments to operators their clusters list. */
  function Fed(clusters: seq<Cluster>, plans: seq<seq<Package>>): map<Id, seq<Span>>
    requires |plans| <= |clusters|
  {
    if plans == [] then map[]
    else
      var n := |plans| - 1;
      Joined(Fed(clusters, plans[..n]), Shared(Intervals(plans[n]), clusters[n].sharedBackups))
  }

  /** Each plan is the solver's answer under the base holds and what was fed forward to it. */
  ghost predicate SolvedInTurn(clusters: seq<Cluster>, plans: seq<seq<Package>>, base: map<Id, seq<Span>>, solve: Solver) {
    && |plans| <= |clusters|
    && forall k :: 0 <= k < |plans| ==> plans[k] == solve(clusters[k], Joined(base, Fed(clusters, plans[..k])))
  }

  ghost predicate SoFar(clusters: seq<Cluster>, plans: seq<seq<Package>>, base: map<Id, seq<Span>>,
                        fed: map<Id, seq<Span>>, solve: Solver)
  {
    && |plans| <= |clusters| && fed == Fed(clusters, plans) && FedForward(clusters, plans, fed)
    && SolvedInTurn(clusters, plans, base, solve) && NoDoubleBooking(clusters, plans) && ClearOfBase(plans, base)
  }

  method SolveGroup(clusters: seq<Cluster>, base: Held, solve: Solver)
    returns (plans: seq<seq<Package>>, ghost calls: seq<Call>)
    requires KeepsClear(solve)
    ensures CallsInTurn(calls, clusters, plans, Contents(base)) && HeldOff(calls, clusters, plans, Contents(base))
    ensures |plans| == |clusters| && SolvedInTurn(clusters, plans, Contents(base), solve)
    ensures NoDoubleBooking(clusters, plans) && ClearOfBase(plans, Contents(base))
  {
    hide Joined, NoDoubleBooking, ClearOfBase, FedForward, Fed, SolvedInTurn, KeepsClear, SoFar, CallsInTurn, HeldOff,
         CalledSoFar, Intervals, Shared, InTable;
    plans, calls := [], [];
    var fed: Held := map[];
    ghost var held := Contents(base);
    NothingCalled(clusters, held, Contents(fed), solve);
    for k := 0 to |clusters|
      invariant |plans| == k && Separate(fed) && forall op :: op in fed ==> fresh(fed[op])
      invariant Contents(base) == held && CalledSoFar(calls, clusters, plans, held, Contents(fed), solve)
    {
      var merged := MergeHeldWindows(base, fed);
      var dispatch := solve(clusters[k], Contents(merged));
      var intervals := OperatorIntervals(dispatch);
      CalledNext(calls, clusters, plans, held, Contents(fed), solve, dispatch);
      calls := calls + [Call(clusters[k], Contents(merged), dispatch)];
      fed := ExtendAll(fed, Shared(intervals, clusters[k].sharedBackups));
      plans := plans + [dispatch];
    }
    AllCalled(calls, clusters, plans, held, Contents(fed), solve);
  }

  lemma CallsBegin(clusters: seq<Cluster>, base: map<Id, seq<Span>>)
    ensures CallsInTurn([], clusters, [], base)
  {
  }

  lemma CallsNext(calls: seq<Call>, clusters: seq<Cluster>, plans: seq<seq<Package>>, base: map<Id, seq<Span>>,
                  fed: map<Id, seq<Span>>, solve: Solver, dispatch: seq<Package>)
    requires CallsInTurn(calls, clusters, plans, base) && SoFar(clusters, plans, base, fed, solve)
    requires |plans| < |clusters|
    ensures CallsInTurn(calls + [Call(clusters[|plans|], Joined(base, fed), dispatch)], clusters, plans + [dispatch], base)
  {
    hide Joined, Fed, FedForward, SolvedInTurn, NoDoubleBooking, ClearOfBase;
    var next := plans + [dispatch];
    forall k | 0 <= k < |next| ensures next[..k] == plans[..k] { }
  }

  ghost predicate CalledSoFar(calls: seq<Call>, clusters: seq<Cluster>, plans: seq<seq<Package>>,
                              base: map<Id, seq<Span>>, fed: map<Id, seq<Span>>, solve: Solver)
  {
    SoFar(clusters, plans, base, fed, solve) && CallsInTurn(calls, clusters, plans, base)
  }

  lemma NothingCalled(clusters: seq<Cluster>, base: map<Id, seq<Span>>, fed: map<Id, seq<Span>>, solve: Solver)
    requires fed == map[]
    ensures CalledSoFar([], clusters, [], base, fed, solve)
  {
    NothingCommitted(clusters, base, fed, solve);
    CallsBegin(clusters, base);
  }

  lemma CalledNext(calls: seq<Call>, clusters: seq<Cluster>, plans: seq<seq<Package>>, base: map<Id, seq<Span>>,
                   fed: map<Id, seq<Span>>, solve: Solver, dispatch: seq<Package>)
    requires KeepsClear(solve) && CalledSoFar(calls, clusters, plans, base, fed, solve) && |plans| < |clusters|
    requires dispatch == solve(clusters[|plans|], Joined(base, fed))
    ensures CalledSoFar(calls + [Call(clusters[|plans|], Joined(base, fed), dispatch)], clusters, plans + [dispatch], base,
                        Joined(fed, Shared(Intervals(dispatch), clusters[|plans|].sharedBackups)), solve)
  {
    hide SoFar, CallsInTurn, KeepsClear, Joined, Shared, Intervals;
    Turn(clusters, plans, base, fed, solve, dispatch);
    CallsNext(calls, clusters, plans, base, fed, solve, dispatch);
  }

  lemma AllCalled(calls: seq<Call>, clusters: seq<Cluster>, plans: seq<seq<Package>>, base: map<Id, seq<Span>>,
                  fed: map<Id, seq<Span>>, solve: Solver)
    requires CalledSoFar(calls, clusters, plans, base, fed, solve)
    ensures SolvedInTurn(clusters, plans, base, solve) && NoDoubleBooking(clusters, plans) && ClearOfBase(plans, base)
    ensures CallsInTurn(calls, clusters, plans, base) && HeldOff(calls, clusters, plans, base)
  {
    hide SoFar, CallsInTurn, HeldOff, SolvedInTurn, NoDoubleBooking, ClearOfBase;
    AllTurns(clusters, plans, base, fed, solve);
    CallsAreHeldOff(calls, clusters, plans, base);
  }

  lemma AllTurns(clusters: seq<Cluster>, plans: seq<seq<Package>>, base: map<Id, seq<Span>>, fed: map<Id, seq<Span>>,
                 solve: Solver)
    requires SoFar(clusters, plans, base, fed, solve)
    ensures SolvedInTurn(clusters, plans, base, solve) && NoDoubleBooking(clusters, plans) && ClearOfBase(plans, base)
  {
  }

  /** One turn: the next cluster is solved and its shared commitments are fed forward. */
  lemma Turn(clusters: seq<Cluster>, plans: seq<seq<Package>>, base: map<Id, seq<Span>>, fed: map<Id, seq<Span>>,
             solve: Solver, dispatch: seq<Package>)
    requires KeepsClear(solve) && |plans| < |clusters| && SoFar(clusters, plans, base, fed, solve)
    requires dispatch == solve(clusters[|plans|], Joined(base, fed))
    ensures SoFar(clusters, plans + [dispatch], base,
                  Joined(fed, Shared(Intervals(dispatch), clusters[|plans|].sharedBackups)), solve)
  {
    hide Respects, Commits, InTable, Joined, NoDoubleBooking, ClearOfBase, FedForward, Intervals, SolvedInTurn;
    assert Respects(solve(clusters[|plans|], Joined(base, fed)), Joined(base, fed));
    PlanIsSafe(clusters, plans, dispatch, base, fed);
    SolvedNext(clusters, plans, dispatch, base, solve);
    forall op, v ensures InTable(Intervals(dispatch), op, v) <==> Commits(dispatch, op, v) {
      IntervalsAreCommitments(dispatch, op, v);
    }
    FedMore(clusters, plans, dispatch, fed, Intervals(dispatch));
    assert (plans + [dispatch])[..|plans|] == plans;
  }

  lemma SolvedNext(clusters: seq<Cluster>, plans: seq<seq<Package>>, dispatch: seq<Package>, base: map<Id, seq<Span>>,
                   solve: Solver)
    requires SolvedInTurn(clusters, plans, base, solve) && |plans| < |clusters|
    requires dispatch == solve(clusters[|plans|], Joined(base, Fed(clusters, plans)))
    ensures SolvedInTurn(clusters, plans + [dispatch], base, solve)
  {
    hide Joined, Fed;
    var next := plans + [dispatch];
    assert next[..|plans|] == plans;
    forall k | 0 <= k < |next| ensures next[k] == solve(clusters[k], Joined(base, Fed(clusters, next[..k]))) {
      if k < |plans| { assert next[..k] == plans[..k]; }
    }
  }

  function Shared(intervals: map<Id, seq<Span>>, ops: seq<Id>): map<Id, seq<Span>> {
    map op | op in intervals && op in ops :: intervals[op]
  }

  lemma NothingCommitted(clusters: seq<Cluster>, base: map<Id, seq<Span>>, fed: map<Id, seq<Span>>, solve: Solver)
    requires fed == map[]
    ensures SoFar(clusters, [], base, fed, solve)
  {
  }

  lemma InJoined(a: map<Id, seq<Span>>, b: map<Id, seq<Span>>, op: Id, v: Span)
    ensures InTable(Joined(a, b), op, v) <==> InTable(a, op, v) || InTable(b, op, v)
  {
  }

  lemma PlanIsSafe(clusters: seq<Cluster>, plans: seq<seq<Package>>, dispatch: seq<Package>,
                   base: map<Id, seq<Span>>, fed: map<Id, seq<Span>>)
    requires |plans| < |clusters| && FedForward(clusters, plans, fed) && Respects(dispatch, Joined(base, fed))
    requires NoDoubleBooking(clusters, plans) && ClearOfBase(plans, base)
    ensures NoDoubleBooking(clusters, plans + [dispatch]) && ClearOfBase(plans + [dispatch], base)
  {
    hide Commits, InTable, Joined;
    var next := plans + [dispatch];
    forall op, v ensures InTable(Joined(base, fed), op, v) <==> InTable(base, op, v) || InTable(fed, op, v) {
      InJoined(base, fed, op, v);
    }
    forall i, j, op, v, w | 0 <= i < j < |next| && op in clusters[i].sharedBackups
                            && Commits(next[i], op, v) && Commits(next[j], op, w)
      ensures !Meet(w, v)
    {
      if j == |plans| {
        assert next[i] == plans[i];
        assert InTable(Joined(base, fed), op, v);
      } else {
        assert next[i] == plans[i] && next[j] == plans[j];
      }
    }
  }

  lemma FedMore(clusters: seq<Cluster>, plans: seq<seq<Package>>, dispatch: seq<Package>,
                fed: map<Id, seq<Span>>, intervals: map<Id, seq<Span>>)
    requires |plans| < |clusters| && FedForward(clusters, plans, fed)
    requires forall op, v :: InTable(intervals, op, v) <==> Commits(dispatch, op, v)
    ensures FedForward(clusters, plans + [dispatch],
                       Joined(fed, Shared(intervals, clusters[|plans|].sharedBackups)))
  {
    hide Commits, Joined;
    var all, shared := plans + [dispatch], Shared(intervals, clusters[|plans|].sharedBackups);
    forall i, op, v | 0 <= i < |all| && op in clusters[i].sharedBackups && Commits(all[i], op, v)
      ensures InTable(Joined(fed, shared), op, v)
    {
      InJoined(fed, shared, op, v);
      if i < |plans| {
        assert all[i] == plans[i];
      } else {
        assert InTable(intervals, op, v);
      }
    }
  }
}
