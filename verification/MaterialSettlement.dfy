/** What material charging guarantees over a whole run, and the settlement of reservations
    (src/fl_op/solver/enforcement.py, apply_material_limits, finalize_material_reservations). */
module MaterialSettlement {
  import opened Wrappers
  import opened Ordering
  import opened Tables
  import opened DepotStock
  import opened MaterialLedger

  // ---- Stock is conserved ---------------------------------------------------------------------------

  /** The demand charged to depot d, over the charges marked in flags. */
  function Drawn(charges: seq<Charge>, flags: seq<bool>, d: Id): real
    requires |flags| == |charges|
  {
    if charges == [] then 0.0
    else
      var n := |charges| - 1;
      Drawn(charges[..n], flags[..n], d) + (if flags[n] && charges[n].depot == d then charges[n].demand else 0.0)
  }

  function Always(n: nat): (r: seq<bool>)
    ensures |r| == n && forall i :: 0 <= i < n ==> r[i]
  {
    seq(n, i => true)
  }

  function DrawnInAll(charges: seq<Charge>, d: Id): real { Drawn(charges, Always(|charges|), d) }

  lemma {:induction false} DrawnJoin(a: seq<Charge>, b: seq<Charge>, d: Id)
    ensures DrawnInAll(a + b, d) == DrawnInAll(a, d) + DrawnInAll(b, d)
  {
    if b == [] {
      assert a + b == a;
    } else {
      var n := |a + b| - 1;
      DrawnJoin(a, b[..|b| - 1], d);
      assert (a + b)[..n] == a + b[..|b| - 1] && Always(|a + b|)[..n] == Always(n);
      assert Always(|b|)[..|b| - 1] == Always(|b| - 1);
    }
  }

  lemma DrawnOnce(c: Charge, d: Id)
    ensures DrawnInAll([c], d) == if c.depot == d then c.demand else 0.0
  {
    assert Drawn([c][..0], Always(1)[..0], d) == 0.0;
  }

  lemma {:induction false} DrawnFromQueue(stock: real, queue: seq<Demand>, depot: Id, d: Id)
    ensures DrawnInAll(Charges(stock, queue, depot), d) == if d == depot then ChargedSum(stock, queue) else 0.0
    ensures forall c :: c in Charges(stock, queue, depot) ==> c.demand > 0.0 && c.depot == depot
  {
    if queue != [] {
      var n := |queue| - 1;
      DrawnFromQueue(stock, queue[..n], depot, d);
      if VerdictAt(stock, queue, n) == Charged {
        var last := [Charge(queue[n].task, queue[n].material, depot, queue[n].amount)];
        DrawnJoin(Charges(stock, queue[..n], depot), last, d);
        DrawnOnce(last[0], d);
      } else {
        assert Charges(stock, queue[..n], depot) + [] == Charges(stock, queue[..n], depot);
      }
    }
  }

  lemma {:induction false} ChargesPositive(env: Env, depots: seq<(Id, real)>, loads: seq<Load>)
    ensures forall c :: c in AllCharges(env, depots, loads) ==> c.demand > 0.0
  {
    if loads != [] {
      var n := |loads| - 1;
      ChargesPositive(env, depots, loads[..n]);
      DrawnFromQueue(StartOf(env, depots, loads, n), Queue(env, loads[n].tasks), loads[n].depot, "");
    }
  }

  /** Over all clusters a depot's stock is what remains plus everything admitted there. It is
      never overdrawn, and a depot that starts below zero admits nothing. */
  lemma {:induction false} StockConserved(env: Env, depots: seq<(Id, real)>, loads: seq<Load>, d: Id)
    ensures var left, drawn := Level(StockOf(depots, d), DepotQueue(env, loads, d)),
                               DrawnInAll(AllCharges(env, depots, loads), d);
            && StockOf(depots, d) == left + drawn
            && (StockOf(depots, d) >= 0.0 ==> left >= 0.0)
            && (StockOf(depots, d) < 0.0 ==> drawn == 0.0)
  {
    hide Queue, StockOf, Charges, Level;
    if loads == [] {
      EmptyLevel(StockOf(depots, d));
    } else {
      var n := |loads| - 1;
      var start, queue := StartOf(env, depots, loads, n), Queue(env, loads[n].tasks);
      StockConserved(env, depots, loads[..n], d);
      assert loads[..n + 1] == loads;
      NextLevel(env, depots, loads, n, d);
      DrawnJoin(AllCharges(env, depots, loads[..n]), Charges(start, queue, loads[n].depot), d);
      DrawnFromQueue(start, queue, loads[n].depot, d);
      Conservation(start, queue);
      Conservation(StockOf(depots, d), DepotQueue(env, loads[..n], d));
    }
  }

  lemma EmptyLevel(stock: real)
    ensures Level(stock, []) == stock
  {
  }

  // ---- Charges -------------------------------------------------------------------------------------

  lemma {:induction false} ChargedOnes(stock: real, queue: seq<Demand>, depot: Id, c: Charge)
    ensures c in Charges(stock, queue, depot) <==>
            exists i :: 0 <= i < |queue| && VerdictAt(stock, queue, i) == Charged
                        && c == Charge(queue[i].task, queue[i].material, depot, queue[i].amount)
  {
    hide VerdictAt;
    if queue != [] {
      var n := |queue| - 1;
      ChargedOnes(stock, queue[..n], depot, c);
      forall i: nat | i < n ensures VerdictAt(stock, queue[..n], i) == VerdictAt(stock, queue, i) {
        VerdictOfPrefix(stock, queue, n, i);
      }
      if i :| 0 <= i < n && VerdictAt(stock, queue[..n], i) == Charged
              && c == Charge(queue[..n][i].task, queue[..n][i].material, depot, queue[..n][i].amount) {
        assert VerdictAt(stock, queue, i) == Charged && queue[i] == queue[..n][i];
      }
      if i :| 0 <= i < |queue| && VerdictAt(stock, queue, i) == Charged
              && c == Charge(queue[i].task, queue[i].material, depot, queue[i].amount) {
        assert i < n ==> VerdictAt(stock, queue[..n], i) == Charged && queue[i] == queue[..n][i];
      }
    }
  }

  /** Every charge is the positive demand of a task of some cluster, made on that cluster's depot. */
  lemma {:induction false} ChargeIsDemand(env: Env, depots: seq<(Id, real)>, loads: seq<Load>, c: Charge)
    requires c in AllCharges(env, depots, loads)
    ensures exists k :: 0 <= k < |loads| && c.depot == loads[k].depot && c.task in loads[k].tasks
    ensures exists penalty :: Needs(env, Demand(c.task, c.material, penalty, c.demand))
    ensures c.demand > 0.0
  {
    hide Queue, Needs, StartOf;
    var n := |loads| - 1;
    var start, queue := StartOf(env, depots, loads, n), Queue(env, loads[n].tasks);
    if c in AllCharges(env, depots, loads[..n]) {
      ChargeIsDemand(env, depots, loads[..n], c);
      var k :| 0 <= k < n && c.depot == loads[..n][k].depot && c.task in loads[..n][k].tasks;
      assert loads[k] == loads[..n][k];
    } else {
      ChargedOnes(start, queue, loads[n].depot, c);
      var i :| 0 <= i < |queue| && VerdictAt(start, queue, i) == Charged
               && c == Charge(queue[i].task, queue[i].material, loads[n].depot, queue[i].amount);
      QueueIsDemands(env, loads[n].tasks, queue[i]);
      assert Needs(env, Demand(c.task, c.material, queue[i].penalty, c.demand));
    }
  }

  /** Demands are met in turn: one is charged exactly when it fits what the charges before it
      have left. */
  lemma VerdictMeans(stock: real, queue: seq<Demand>, i: nat)
    requires i < |queue|
    ensures VerdictAt(stock, queue, i) == Charged <==> 0.0 < queue[i].amount <= stock - ChargedSum(stock, queue[..i])
    ensures VerdictAt(stock, queue, i) == Refused <==>
            queue[i].amount > 0.0 && queue[i].amount > stock - ChargedSum(stock, queue[..i])
  {
    Conservation(stock, queue[..i]);
  }

  // ---- Kept or refused ------------------------------------------------------------------------------

  ghost predicate RefusedIn(stock: real, queue: seq<Demand>, t: Id) {
    exists i :: 0 <= i < |queue| && queue[i].task == t && VerdictAt(stock, queue, i) == Refused
  }

  ghost predicate AdmittedIn(stock: real, queue: seq<Demand>, t: Id) {
    exists i :: 0 <= i < |queue| && queue[i].task == t && VerdictAt(stock, queue, i) != Refused
  }

  lemma VerdictOfPrefix(stock: real, queue: seq<Demand>, n: nat, i: nat)
    requires i < n <= |queue|
    ensures VerdictAt(stock, queue[..n], i) == VerdictAt(stock, queue, i)
  {
    assert queue[..n][..i] == queue[..i];
  }

  lemma {:induction false} VerdictsListed(stock: real, queue: seq<Demand>, t: Id)
    ensures t in Refusals(stock, queue) <==> RefusedIn(stock, queue, t)
    ensures t in Admitted(stock, queue) <==> AdmittedIn(stock, queue, t)
  {
    hide VerdictAt;
    if queue != [] {
      var n := |queue| - 1;
      VerdictsListed(stock, queue[..n], t);
      forall i: nat | i < n ensures VerdictAt(stock, queue[..n], i) == VerdictAt(stock, queue, i) {
        VerdictOfPrefix(stock, queue, n, i);
      }
      if RefusedIn(stock, queue[..n], t) {
        var i :| 0 <= i < n && queue[..n][i].task == t && VerdictAt(stock, queue[..n], i) == Refused;
        assert VerdictAt(stock, queue, i) == Refused;
      }
      if AdmittedIn(stock, queue[..n], t) {
        var i :| 0 <= i < n && queue[..n][i].task == t && VerdictAt(stock, queue[..n], i) != Refused;
        assert VerdictAt(stock, queue, i) != Refused;
      }
      if RefusedIn(stock, queue, t) && !(queue[n].task == t && VerdictAt(stock, queue, n) == Refused) {
        var i :| 0 <= i < |queue| && queue[i].task == t && VerdictAt(stock, queue, i) == Refused;
        assert VerdictAt(stock, queue[..n], i) == Refused && queue[..n][i] == queue[i];
      }
      if AdmittedIn(stock, queue, t) && !(queue[n].task == t && VerdictAt(stock, queue, n) != Refused) {
        var i :| 0 <= i < |queue| && queue[i].task == t && VerdictAt(stock, queue, i) != Refused;
        assert VerdictAt(stock, queue[..n], i) != Refused && queue[..n][i] == queue[i];
      }
    }
  }

  lemma {:induction false} OnlyMembers(tasks: seq<Id>, kept: set<Id>, t: Id)
    ensures t in Only(tasks, kept) <==> t in tasks && t in kept
  {
    if tasks != [] {
      var front, last := tasks[..|tasks| - 1], tasks[|tasks| - 1];
      OnlyMembers(front, kept, t);
      assert tasks == front + [last];
    }
  }

  lemma {:induction false} PassingMembers(env: Env, tasks: seq<Id>, t: Id)
    ensures t in PassThrough(env, tasks) <==> t in tasks && Passes(env, t)
  {
    if tasks != [] {
      var front, last := tasks[..|tasks| - 1], tasks[|tasks| - 1];
      PassingMembers(env, front, t);
      assert tasks == front + [last];
    }
  }

  /** A task stays in the cluster when it needs no material or one of its demands was met. */
  lemma StaysIff(env: Env, tasks: seq<Id>, stock: real, t: Id)
    ensures t in Only(tasks, KeptSet(env, tasks, stock)) <==>
            t in tasks && (Passes(env, t) || AdmittedIn(stock, Queue(env, tasks), t))
  {
    hide Queue, Passes, AdmittedIn;
    OnlyMembers(tasks, KeptSet(env, tasks, stock), t);
    PassingMembers(env, tasks, t);
    VerdictsListed(stock, Queue(env, tasks), t);
  }

  /** Every task is kept or refused, whatever the stock. */
  lemma NoTaskLost(env: Env, tasks: seq<Id>, stock: real, t: Id)
    requires t in tasks
    ensures t in Only(tasks, KeptSet(env, tasks, stock)) || t in Refusals(stock, Queue(env, tasks))
  {
    StaysIff(env, tasks, stock, t);
    VerdictsListed(stock, Queue(env, tasks), t);
    if !Passes(env, t) {
      QueueTasks(env, tasks, DemandOf(env, t));
      var i :| 0 <= i < |Queue(env, tasks)| && Queue(env, tasks)[i] == DemandOf(env, t);
      assert VerdictAt(stock, Queue(env, tasks), i) == Refused || VerdictAt(stock, Queue(env, tasks), i) != Refused;
    }
  }

  /** No task with a positive demand is listed twice. */
  ghost predicate DemandsOnce(env: Env, tasks: seq<Id>) {
    forall i, j :: 0 <= i < j < |tasks| && tasks[i] == tasks[j] && !Passes(env, tasks[i]) ==>
                     DemandOf(env, tasks[i]).amount <= 0.0
  }

  ghost predicate QueuedOnce(queue: seq<Demand>) {
    forall i, j :: 0 <= i < j < |queue| && queue[i] == queue[j] ==> queue[i].amount <= 0.0
  }

  lemma {:induction false} DemandCount(env: Env, tasks: seq<Id>, t: Id)
    requires !Passes(env, t)
    ensures multiset(Demanding(env, tasks))[DemandOf(env, t)] == multiset(tasks)[t]
  {
    if tasks != [] {
      var front, last := tasks[..|tasks| - 1], tasks[|tasks| - 1];
      DemandCount(env, front, t);
      assert tasks == front + [last];
    }
  }

  lemma TwiceCounts<T>(s: seq<T>, i: nat, j: nat)
    requires i < j < |s| && s[i] == s[j]
    ensures multiset(s)[s[i]] >= 2
  {
    var a, b := s[..j], s[j..];
    assert s == a + b;
    assert a[i] == s[i] && b[0] == s[j];
    assert s[i] in multiset(a) && s[i] in multiset(b);
  }

  lemma {:induction false} CountTwice<T>(s: seq<T>, x: T) returns (i: nat, j: nat)
    requires multiset(s)[x] >= 2
    ensures i < j < |s| && s[i] == x && s[j] == x
  {
    var front, last := s[..|s| - 1], s[|s| - 1];
    assert s == front + [last];
    if last == x {
      assert x in multiset(front);
      i :| 0 <= i < |front| && front[i] == x;
      j := |front|;
    } else {
      i, j := CountTwice(front, x);
    }
  }

  lemma QueuedOnceIff(env: Env, tasks: seq<Id>)
    ensures QueuedOnce(Queue(env, tasks)) <==> DemandsOnce(env, tasks)
  {
    hide Queue, DemandOf, Passes, Demanding;
    var queue := Queue(env, tasks);
    QueueIsSorted(env, tasks);
    if QueuedOnce(queue) {
      forall i, j | 0 <= i < j < |tasks| && tasks[i] == tasks[j] && !Passes(env, tasks[i])
        ensures DemandOf(env, tasks[i]).amount <= 0.0
      {
        TwiceCounts(tasks, i, j);
        DemandCount(env, tasks, tasks[i]);
        var p, q := CountTwice(queue, DemandOf(env, tasks[i]));
      }
    }
    if DemandsOnce(env, tasks) {
      forall i, j | 0 <= i < j < |queue| && queue[i] == queue[j] ensures queue[i].amount <= 0.0 {
        var d := queue[i];
        QueueTasks(env, tasks, d);
        TwiceCounts(queue, i, j);
        DemandCount(env, tasks, d.task);
        var p, q := CountTwice(tasks, d.task);
      }
    }
  }

  lemma QueueIsSorted(env: Env, tasks: seq<Id>)
    ensures multiset(Queue(env, tasks)) == multiset(Demanding(env, tasks))
  {
  }

  /** No task is both kept and refused. */
  ghost predicate SplitsTasks(env: Env, tasks: seq<Id>, stock: real) {
    forall t :: t in tasks ==>
      !(t in Only(tasks, KeptSet(env, tasks, stock)) && t in Refusals(stock, Queue(env, tasks)))
  }

  /** Whatever the stock, each task is either kept or refused - provided no task with a positive
      demand is listed twice, and only then. */
  lemma KeptOrRefusedIff(env: Env, tasks: seq<Id>)
    ensures (forall stock :: SplitsTasks(env, tasks, stock)) <==> DemandsOnce(env, tasks)
  {
    hide Queue, SplitsTasks;
    QueuedOnceIff(env, tasks);
    if DemandsOnce(env, tasks) {
      forall stock ensures SplitsTasks(env, tasks, stock) { OnceSplits(env, tasks, stock); }
    } else {
      var queue := Queue(env, tasks);
      var i, j :| 0 <= i < j < |queue| && queue[i] == queue[j] && queue[i].amount > 0.0;
      var stock := RepeatedDemandSplits(queue, i, j);
      TwiceConflicts(env, tasks, stock, i, j);
    }
  }

  lemma OnceSplits(env: Env, tasks: seq<Id>, stock: real)
    requires QueuedOnce(Queue(env, tasks))
    ensures SplitsTasks(env, tasks, stock)
  {
    hide Queue, Only, KeptSet, Refusals, DemandOf;
    var queue := Queue(env, tasks);
    forall t | t in tasks && t in Refusals(stock, queue) ensures t !in Only(tasks, KeptSet(env, tasks, stock)) {
      VerdictsListed(stock, queue, t);
      StaysIff(env, tasks, stock, t);
      var i :| 0 <= i < |queue| && queue[i].task == t && VerdictAt(stock, queue, i) == Refused;
      QueueTasks(env, tasks, queue[i]);
      forall j | 0 <= j < |queue| && queue[j].task == t ensures VerdictAt(stock, queue, j) == Refused {
        QueueTasks(env, tasks, queue[j]);
        assert queue[j] == queue[i] && queue[i].amount > 0.0;
      }
    }
  }

  lemma TwiceConflicts(env: Env, tasks: seq<Id>, stock: real, i: nat, j: nat)
    requires var queue := Queue(env, tasks);
             i < j < |queue| && queue[i] == queue[j]
             && VerdictAt(stock, queue, i) == Charged && VerdictAt(stock, queue, j) == Refused
    ensures !SplitsTasks(env, tasks, stock)
  {
    hide Queue, Only, KeptSet, Refusals, DemandOf;
    var queue := Queue(env, tasks);
    var t := queue[i].task;
    QueueTasks(env, tasks, queue[i]);
    VerdictsListed(stock, queue, t);
    StaysIff(env, tasks, stock, t);
  }

  // ---- Settlement ----------------------------------------------------------------------------------

  datatype Package = Package(task: Id, start: Option<int>, end: Option<int>)

  /** The package by which a task was dispatched: the last one naming it. */
  function PackageOf(dispatch: seq<Package>, t: Id): Option<Package> {
    if dispatch == [] then None
    else if dispatch[|dispatch| - 1].task == t then Some(dispatch[|dispatch| - 1])
    else PackageOf(dispatch[..|dispatch| - 1], t)
  }

  lemma {:induction false} DispatchedIff(dispatch: seq<Package>, t: Id)
    ensures PackageOf(dispatch, t).Some? <==> exists k :: 0 <= k < |dispatch| && dispatch[k].task == t
  {
    if dispatch != [] {
      var front := dispatch[..|dispatch| - 1];
      DispatchedIff(front, t);
      if k :| 0 <= k < |front| && front[k].task == t { assert dispatch[k] == front[k]; }
      if k :| 0 <= k < |dispatch| && dispatch[k].task == t { assert k < |front| ==> front[k] == dispatch[k]; }
    }
  }

  /** Of several packages naming a task the last counts. */
  lemma {:induction false} PackageIsLast(dispatch: seq<Package>, k: nat)
    requires k < |dispatch| && forall j :: k < j < |dispatch| ==> dispatch[j].task != dispatch[k].task
    ensures PackageOf(dispatch, dispatch[k].task) == Some(dispatch[k])
  {
    var n := |dispatch| - 1;
    if k < n {
      assert dispatch[n].task != dispatch[k].task;
      PackageIsLast(dispatch[..n], k);
    }
  }

  method Dispatched(dispatch: seq<Package>) returns (byTask: map<Id, Package>)
    ensures forall t :: t in byTask <==> PackageOf(dispatch, t).Some?
    ensures forall t :: t in byTask ==> PackageOf(dispatch, t) == Some(byTask[t])
  {
    byTask := map[];
    for k := 0 to |dispatch|
      invariant forall t :: t in byTask <==> PackageOf(dispatch[..k], t).Some?
      invariant forall t :: t in byTask ==> PackageOf(dispatch[..k], t) == Some(byTask[t])
    {
      assert dispatch[..k + 1][..k] == dispatch[..k] && dispatch[..k + 1][k] == dispatch[k];
      byTask := byTask[dispatch[k].task := dispatch[k]];
    }
    assert dispatch[..|dispatch|] == dispatch;
  }

  /** r is settled: confirmed over the dispatched window, or released with its window as before. */
  ghost predicate Settled(r: Reservation, dispatch: seq<Package>, was: Window)
    reads r
  {
    match PackageOf(dispatch, r.task)
    case Some(p) => r.status == Confirmed && r.reserved == Window(p.start, p.end)
    case None => r.status == Released && r.reserved == was
  }

  method Finalize(reservations: seq<Reservation>, dispatch: seq<Package>)
    requires Distinct(reservations)
    modifies reservations
    ensures forall k :: 0 <= k < |reservations| ==> Settled(reservations[k], dispatch, old(reservations[k].reserved))
  {
    var byTask := Dispatched(dispatch);
    for k := 0 to |reservations|
      invariant forall i :: 0 <= i < k ==> Settled(reservations[i], dispatch, old(reservations[i].reserved))
      invariant forall i :: k <= i < |reservations| ==> reservations[i].reserved == old(reservations[i].reserved)
    {
      var r := reservations[k];
      if r.task in byTask {
        r.status := Confirmed;
        r.reserved := Window(byTask[r.task].start, byTask[r.task].end);
      } else {
        r.status := Released;
      }
    }
  }

  lemma {:induction false} PartOfDrawn(charges: seq<Charge>, flags: seq<bool>, d: Id)
    requires |flags| == |charges| && forall c :: c in charges ==> c.demand > 0.0
    ensures 0.0 <= Drawn(charges, flags, d) <= DrawnInAll(charges, d)
  {
    if charges != [] {
      var n := |charges| - 1;
      assert charges[n] in charges;
      PartOfDrawn(charges[..n], flags[..n], d);
      assert Always(|charges|)[..n] == Always(n);
    }
  }

  function Recorded(charges: seq<Charge>, flags: seq<bool>, d: Id): real
    requires |flags| == |charges|
  {
    if charges == [] then 0.0
    else
      var n := |charges| - 1;
      Recorded(charges[..n], flags[..n], d)
      + (if flags[n] && charges[n].depot == d then RoundHundredth(charges[n].demand) else 0.0)
  }

  lemma {:induction false} RecordedClose(charges: seq<Charge>, flags: seq<bool>, d: Id)
    requires |flags| == |charges|
    ensures Recorded(charges, flags, d) <= Drawn(charges, flags, d) + 0.005 * |charges| as real
  {
    if charges != [] {
      var n := |charges| - 1;
      RecordedClose(charges[..n], flags[..n], d);
      RoundedClose(charges[n].demand);
    }
  }

  /** However the dispatch turns out, the demand confirmed at a depot never exceeds its stock,
      and the recorded quantities exceed it by rounding alone. */
  lemma ConfirmedWithinStock(env: Env, depots: seq<(Id, real)>, loads: seq<Load>, dispatch: seq<Package>, d: Id,
                             charges: seq<Charge>, flags: seq<bool>)
    requires charges == AllCharges(env, depots, loads) && |flags| == |charges|
    requires forall k :: 0 <= k < |charges| ==> (flags[k] <==> PackageOf(dispatch, charges[k].task).Some?)
    ensures StockOf(depots, d) >= 0.0 ==> Drawn(charges, flags, d) <= StockOf(depots, d)
    ensures StockOf(depots, d) < 0.0 ==> Drawn(charges, flags, d) == 0.0
    ensures StockOf(depots, d) >= 0.0 ==>
              Recorded(charges, flags, d) <= StockOf(depots, d) + 0.005 * |charges| as real
  {
    ChargesPositive(env, depots, loads);
    PartOfDrawn(charges, flags, d);
    StockConserved(env, depots, loads, d);
    RecordedClose(charges, flags, d);
  }

  /** The quantity confirmed at depot d, read off the reservations. */
  function ConfirmedAt(reservations: seq<Reservation>, d: Id): real
    reads reservations
  {
    if reservations == [] then 0.0
    else
      var last := reservations[|reservations| - 1];
      ConfirmedAt(reservations[..|reservations| - 1], d)
      + (if last.status == Confirmed && last.depot == d then last.quantity else 0.0)
  }

  function ConfirmedFlags(reservations: seq<Reservation>): (flags: seq<bool>)
    reads reservations
    ensures |flags| == |reservations|
    ensures forall k :: 0 <= k < |flags| ==> (flags[k] <==> reservations[k].status == Confirmed)
  {
    seq(|reservations|, k requires 0 <= k < |reservations| reads reservations => reservations[k].status == Confirmed)
  }

  ghost function WindowsOf(reservations: seq<Reservation>): (was: seq<Window>)
    reads reservations
    ensures |was| == |reservations| && forall k :: 0 <= k < |was| ==> was[k] == reservations[k].reserved
  {
    seq(|reservations|, k requires 0 <= k < |reservations| reads reservations => reservations[k].reserved)
  }

  lemma {:induction false} ConfirmedIsRecorded(reservations: seq<Reservation>, charges: seq<Charge>, d: Id)
    requires |reservations| == |charges| && forall k :: 0 <= k < |charges| ==> reservations[k].Records(charges[k])
    ensures ConfirmedAt(reservations, d) == Recorded(charges, ConfirmedFlags(reservations), d)
  {
    if charges != [] {
      var n := |charges| - 1;
      ConfirmedIsRecorded(reservations[..n], charges[..n], d);
      assert ConfirmedFlags(reservations)[..n] == ConfirmedFlags(reservations[..n]);
    }
  }

  /** The plan's reservations once they are settled: the demand of the confirmed ones at a depot
      stays within its stock, and their recorded quantities exceed it by rounding alone. */
  lemma SettledWithinStock(env: Env, depots: seq<(Id, real)>, loads: seq<Load>, dispatch: seq<Package>, d: Id,
                           charges: seq<Charge>, reservations: seq<Reservation>, was: seq<Window>)
    requires charges == AllCharges(env, depots, loads) && |reservations| == |charges| == |was|
    requires forall k :: 0 <= k < |charges| ==> reservations[k].Records(charges[k])
    requires forall k :: 0 <= k < |charges| ==> Settled(reservations[k], dispatch, was[k])
    ensures StockOf(depots, d) >= 0.0 ==> Drawn(charges, ConfirmedFlags(reservations), d) <= StockOf(depots, d)
    ensures StockOf(depots, d) < 0.0 ==> Drawn(charges, ConfirmedFlags(reservations), d) == 0.0
    ensures StockOf(depots, d) >= 0.0 ==>
              ConfirmedAt(reservations, d) <= StockOf(depots, d) + 0.005 * |charges| as real
    ensures forall k :: 0 <= k < |charges| ==>
              reservations[k].status == (if PackageOf(dispatch, charges[k].task).Some? then Confirmed else Released)
  {
    hide AllCharges, StockOf, Drawn, Recorded;
    ConfirmedWithinStock(env, depots, loads, dispatch, d, charges, ConfirmedFlags(reservations));
    ConfirmedIsRecorded(reservations, charges, d);
  }

  /** Charging and settling one plan. */
  method ChargeAndSettle(env: Env, clusters: seq<Cluster>, depots: seq<(Id, real)>, dispatch: seq<Package>)
    returns (reservations: seq<Reservation>, ghost charges: seq<Charge>)
    requires Distinct(clusters)
    modifies Members(clusters)`taskIds
    ensures charges == AllCharges(env, depots, old(Loads(clusters))) && |reservations| == |charges|
    ensures forall k :: 0 <= k < |charges| ==> reservations[k].Records(charges[k])
    ensures forall d :: StockOf(depots, d) >= 0.0 ==>
              && Drawn(charges, ConfirmedFlags(reservations), d) <= StockOf(depots, d)
              && ConfirmedAt(reservations, d) <= StockOf(depots, d) + 0.005 * |charges| as real
  {
    hide AllCharges, StockOf, Drawn, KeptTasks, AllRefusals, ConfirmedAt;
    ghost var loads := Loads(clusters);
    var infeasible;
    infeasible, reservations, charges := ApplyMaterialLimits(env, clusters, depots);
    ghost var was := WindowsOf(reservations);
    Finalize(reservations, dispatch);
    forall d | StockOf(depots, d) >= 0.0
      ensures Drawn(charges, ConfirmedFlags(reservations), d) <= StockOf(depots, d)
      ensures ConfirmedAt(reservations, d) <= StockOf(depots, d) + 0.005 * |charges| as real
    {
      SettledWithinStock(env, depots, loads, dispatch, d, charges, reservations, was);
    }
  }
}
