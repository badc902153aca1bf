/** Charging cluster tasks against depot inventory and settling the reservations against the
    final dispatch (src/fl_op/solver/enforcement.py, apply_material_limits,
    finalize_material_reservations). */
module MaterialLedger {
  import opened Wrappers
  import opened Ordering
  import opened Tables
  import opened DepotStock

  /** area and workQuantity are None when they do not parse; unit is stripped and lower-cased. */
  datatype Order = Order(operation: string, penalty: real, area: Option<real>, unit: string, workQuantity: Option<real>)
  datatype Spec = Spec(material: string, perAreaHa: real)
  datatype Env = Env(orders: map<Id, Order>, specs: map<string, Spec>)

  /** What the pass reads of one cluster. */
  datatype Load = Load(clusterId: Id, depot: Id, tasks: seq<Id>)

  datatype Charge = Charge(task: Id, material: string, depot: Id, demand: real)
  datatype Status = Provisional | Confirmed | Released
  datatype Window = Window(start: Option<int>, end: Option<int>)

  class Cluster {
    const clusterId: Id
    const depot: Id
    var taskIds: seq<Id>

    constructor (clusterId: Id, depot: Id, taskIds: seq<Id>)
      ensures this.clusterId == clusterId && this.depot == depot && this.taskIds == taskIds
    {
      this.clusterId, this.depot, this.taskIds := clusterId, depot, taskIds;
    }

    function AsLoad(): Load
      reads this
    {
      Load(clusterId, depot, taskIds)
    }
  }

  class Reservation {
    const task: Id
    const material: string
    const depot: Id
    const quantity: real
    var status: Status
    var reserved: Window

    constructor (c: Charge)
      ensures Records(c) && status == Provisional && reserved == Window(None, None)
    {
      task, material, depot, quantity := c.task, c.material, c.depot, RoundHundredth(c.demand);
      status, reserved := Provisional, Window(None, None);
    }

    ghost predicate Records(c: Charge) {
      task == c.task && material == c.material && depot == c.depot && quantity == RoundHundredth(c.demand)
    }
  }

  // ---- Demands of one cluster ------------------------------------------------------------------------

  function NonNegative(v: Option<real>): real {
    if v.Some? && v.value > 0.0 then v.value else 0.0
  }

  /** The area basis: the legacy field, or a work quantity in hectares. */
  function Area(o: Order): (r: real)
    ensures r >= 0.0
  {
    if NonNegative(o.area) > 0.0 then NonNegative(o.area)
    else if o.unit in {"", "ha", "hectare", "hectares"} then NonNegative(o.workQuantity)
    else 0.0
  }

  predicate Passes(env: Env, task: Id) {
    task !in env.orders || env.orders[task].operation !in env.specs
  }

  function DemandOf(env: Env, task: Id): Demand
    requires !Passes(env, task)
  {
    var o := env.orders[task];
    var spec := env.specs[o.operation];
    Demand(task, spec.material, o.penalty, spec.perAreaHa * Area(o))
  }

  function Demanding(env: Env, tasks: seq<Id>): seq<Demand> {
    if tasks == [] then []
    else
      var last := tasks[|tasks| - 1];
      Demanding(env, tasks[..|tasks| - 1]) + (if Passes(env, last) then [] else [DemandOf(env, last)])
  }

  predicate ServedBefore(a: Demand, b: Demand) { a.penalty >= b.penalty }

  /** Descending penalty; equal penalties keep their order. */
  function Queue(env: Env, tasks: seq<Id>): seq<Demand> {
    SortBy(ServedBefore, Demanding(env, tasks))
  }

  lemma QueueByPenalty(env: Env, tasks: seq<Id>)
    ensures forall i, j :: 0 <= i < j < |Queue(env, tasks)| ==>
                             Queue(env, tasks)[i].penalty >= Queue(env, tasks)[j].penalty
  {
    SortBySorted(ServedBefore, Demanding(env, tasks));
    var q := Queue(env, tasks);
    forall i, j | 0 <= i < j < |q| ensures q[i].penalty >= q[j].penalty { assert ServedBefore(q[i], q[j]); }
  }

  /** The hectares a demand is reckoned on: the legacy area where it is positive, else a positive
      work quantity whose unit is hectares or missing, else none. */
  ghost predicate IsArea(o: Order, hectares: real) {
    var legacy := o.area.Some? && o.area.value > 0.0;
    var work := o.workQuantity.Some? && o.workQuantity.value > 0.0
                && (o.unit == "" || o.unit == "ha" || o.unit == "hectare" || o.unit == "hectares");
    && (legacy ==> hectares == o.area.value)
    && (!legacy && work ==> hectares == o.workQuantity.value)
    && (!legacy && !work ==> hectares == 0.0)
  }

  /** The demand of a task whose operation needs material: so much per hectare, times its area. */
  ghost predicate Needs(env: Env, d: Demand) {
    && d.task in env.orders && env.orders[d.task].operation in env.specs
    && var o := env.orders[d.task]; var spec := env.specs[o.operation];
    && d.material == spec.material && d.penalty == o.penalty
    && exists hectares :: IsArea(o, hectares) && d.amount == spec.perAreaHa * hectares
  }

  lemma NeedsIsDemand(env: Env, d: Demand)
    ensures Needs(env, d) <==> !Passes(env, d.task) && d == DemandOf(env, d.task)
  {
    if !Passes(env, d.task) {
      var o := env.orders[d.task];
      assert IsArea(o, Area(o));
      forall hectares | IsArea(o, hectares) ensures hectares == Area(o) { }
    }
  }

  /** A queue holds exactly the demands of its tasks. */
  lemma QueueIsDemands(env: Env, tasks: seq<Id>, d: Demand)
    ensures d in Queue(env, tasks) <==> d.task in tasks && Needs(env, d)
  {
    hide Queue, DemandOf, Passes, Needs;
    QueueTasks(env, tasks, d);
    NeedsIsDemand(env, d);
  }

  /** The demands of a list of tasks, part by part. */
  lemma {:induction false} DemandingJoin(env: Env, a: seq<Id>, b: seq<Id>)
    ensures Demanding(env, a + b) == Demanding(env, a) + Demanding(env, b)
  {
    if b == [] {
      assert a + b == a;
    } else {
      DemandingJoin(env, a, b[..|b| - 1]);
      assert (a + b)[..|a + b| - 1] == a + b[..|b| - 1];
    }
  }

  /** Demands of one penalty are served in the order of their tasks. */
  lemma TiesKeepOrder(env: Env, tasks: seq<Id>, penalty: real)
    ensures Filter((d: Demand) => d.penalty == penalty, Queue(env, tasks))
            == Filter((d: Demand) => d.penalty == penalty, Demanding(env, tasks))
  {
    SortIsStable(ServedBefore, (d: Demand) => d.penalty == penalty, Demanding(env, tasks));
  }

  lemma {:induction false} DemandingTasks(env: Env, tasks: seq<Id>, d: Demand)
    ensures d in Demanding(env, tasks) <==> d.task in tasks && !Passes(env, d.task) && d == DemandOf(env, d.task)
  {
    if tasks != [] {
      var front, last := tasks[..|tasks| - 1], tasks[|tasks| - 1];
      DemandingTasks(env, front, d);
      assert tasks == front + [last];
    }
  }

  lemma QueueTasks(env: Env, tasks: seq<Id>, d: Demand)
    ensures d in Queue(env, tasks) <==> d.task in tasks && !Passes(env, d.task) && d == DemandOf(env, d.task)
  {
    DemandingTasks(env, tasks, d);
    SameMembers(Queue(env, tasks), Demanding(env, tasks));
  }

  // ---- One cluster ---------------------------------------------------------------------------------

  function Refusals(stock: real, queue: seq<Demand>): seq<Id> {
    if queue == [] then []
    else
      var n := |queue| - 1;
      Refusals(stock, queue[..n]) + (if VerdictAt(stock, queue, n) == Refused then [queue[n].task] else [])
  }

  function Charges(stock: real, queue: seq<Demand>, depot: Id): seq<Charge> {
    if queue == [] then []
    else
      var n := |queue| - 1;
      Charges(stock, queue[..n], depot)
      + (if VerdictAt(stock, queue, n) == Charged
         then [Charge(queue[n].task, queue[n].material, depot, queue[n].amount)] else [])
  }

  /** The tasks admitted without a charge, or with one. */
  function Admitted(stock: real, queue: seq<Demand>): seq<Id> {
    if queue == [] then []
    else
      var n := |queue| - 1;
      Admitted(stock, queue[..n]) + (if VerdictAt(stock, queue, n) == Refused then [] else [queue[n].task])
  }

  /** The first part of a queue is charged from the stock, the rest from what that leaves. */
  lemma {:induction false} ChargedInTurn(stock: real, a: seq<Demand>, b: seq<Demand>, depot: Id)
    ensures Charges(stock, a + b, depot) == Charges(stock, a, depot) + Charges(Level(stock, a), b, depot)
  {
    hide Level, VerdictAt;
    if b == [] {
      assert a + b == a;
    } else {
      ChargedInTurn(stock, a, b[..|b| - 1], depot);
      assert (a + b)[..|a + b| - 1] == a + b[..|b| - 1];
      LastVerdict(stock, a, b);
    }
  }

  /** Refusals come in the order of the queue. */
  lemma {:induction false} RefusedInTurn(stock: real, a: seq<Demand>, b: seq<Demand>)
    ensures Refusals(stock, a + b) == Refusals(stock, a) + Refusals(Level(stock, a), b)
  {
    hide Level, VerdictAt;
    if b == [] {
      assert a + b == a;
    } else {
      RefusedInTurn(stock, a, b[..|b| - 1]);
      assert (a + b)[..|a + b| - 1] == a + b[..|b| - 1];
      LastVerdict(stock, a, b);
    }
  }

  /** So do admissions. */
  lemma {:induction false} AdmittedInTurn(stock: real, a: seq<Demand>, b: seq<Demand>)
    ensures Admitted(stock, a + b) == Admitted(stock, a) + Admitted(Level(stock, a), b)
  {
    hide Level, VerdictAt;
    if b == [] {
      assert a + b == a;
    } else {
      AdmittedInTurn(stock, a, b[..|b| - 1]);
      assert (a + b)[..|a + b| - 1] == a + b[..|b| - 1];
      LastVerdict(stock, a, b);
    }
  }

  lemma LastVerdict(stock: real, a: seq<Demand>, b: seq<Demand>)
    requires b != []
    ensures VerdictAt(stock, a + b, |a + b| - 1) == VerdictAt(Level(stock, a), b, |b| - 1)
  {
    LevelJoin(stock, a, b[..|b| - 1]);
    assert (a + b)[..|a + b| - 1] == a + b[..|b| - 1];
  }

  function PassThrough(env: Env, tasks: seq<Id>): seq<Id> {
    if tasks == [] then []
    else
      var last := tasks[|tasks| - 1];
      PassThrough(env, tasks[..|tasks| - 1]) + (if Passes(env, last) then [last] else [])
  }

  function Only(tasks: seq<Id>, kept: set<Id>): seq<Id> {
    if tasks == [] then []
    else
      var last := tasks[|tasks| - 1];
      Only(tasks[..|tasks| - 1], kept) + (if last in kept then [last] else [])
  }

  /** The tasks among those kept, in order and as often as they were listed. */
  lemma {:induction false} OnlyFilters(tasks: seq<Id>, kept: set<Id>)
    ensures Only(tasks, kept) == Filter((t: Id) => t in kept, tasks)
  {
    if tasks != [] {
      var front, last := tasks[..|tasks| - 1], tasks[|tasks| - 1];
      OnlyFilters(front, kept);
      FilterLast((t: Id) => t in kept, front, last);
      assert tasks == front + [last];
    }
  }

  function KeptSet(env: Env, tasks: seq<Id>, stock: real): set<Id> {
    Members(PassThrough(env, tasks) + Admitted(stock, Queue(env, tasks)))
  }

  function Avail(remaining: map<Id, real>, depot: Id): real { if depot in remaining then remaining[depot] else 0.0 }

  method Partition(env: Env, tasks: seq<Id>) returns (demanding: seq<Demand>, passthrough: seq<Id>)
    ensures demanding == Demanding(env, tasks) && passthrough == PassThrough(env, tasks)
  {
    demanding, passthrough := [], [];
    for k := 0 to |tasks|
      invariant demanding == Demanding(env, tasks[..k]) && passthrough == PassThrough(env, tasks[..k])
    {
      assert tasks[..k + 1][..k] == tasks[..k] && tasks[..k + 1][k] == tasks[k];
      if Passes(env, tasks[k]) {
        passthrough := passthrough + [tasks[k]];
      } else {
        demanding := demanding + [DemandOf(env, tasks[k])];
      }
    }
    assert tasks[..|tasks|] == tasks;
  }

  method Serve(queue: seq<Demand>, depot: Id, start: map<Id, real>)
    returns (remaining: map<Id, real>, admitted: seq<Id>, refused: seq<Id>, charges: seq<Charge>)
    ensures admitted == Admitted(Avail(start, depot), queue) && refused == Refusals(Avail(start, depot), queue)
    ensures charges == Charges(Avail(start, depot), queue, depot)
    ensures forall d :: Avail(remaining, d) == if d == depot then Level(Avail(start, depot), queue) else Avail(start, d)
  {
    ghost var stock := Avail(start, depot);
    remaining, admitted, refused, charges := start, [], [], [];
    for k := 0 to |queue|
      invariant admitted == Admitted(stock, queue[..k]) && refused == Refusals(stock, queue[..k])
      invariant charges == Charges(stock, queue[..k], depot)
      invariant forall d :: Avail(remaining, d) == if d == depot then Level(stock, queue[..k]) else Avail(start, d)
    {
      var item := queue[k];
      assert queue[..k + 1][..k] == queue[..k] && queue[..k + 1][k] == item;
      if item.amount <= 0.0 {
        admitted := admitted + [item.task];
      } else {
        var available := Avail(remaining, depot);
        if item.amount <= available {
          remaining := remaining[depot := available - item.amount];
          admitted := admitted + [item.task];
          charges := charges + [Charge(item.task, item.material, depot, item.amount)];
        } else {
          refused := refused + [item.task];
        }
      }
    }
    assert queue[..|queue|] == queue;
  }

  method Retain(tasks: seq<Id>, kept: seq<Id>) returns (r: seq<Id>)
    ensures r == Only(tasks, Members(kept))
  {
    r := [];
    for k := 0 to |tasks|
      invariant r == Only(tasks[..k], Members(kept))
    {
      assert tasks[..k + 1][..k] == tasks[..k] && tasks[..k + 1][k] == tasks[k];
      if tasks[k] in kept { r := r + [tasks[k]]; }
    }
    assert tasks[..|tasks|] == tasks;
  }

  method ChargeCluster(env: Env, c: Cluster, start: map<Id, real>)
    returns (remaining: map<Id, real>, refused: seq<Id>, charges: seq<Charge>)
    modifies c`taskIds
    ensures c.taskIds == Only(old(c.taskIds), KeptSet(env, old(c.taskIds), Avail(start, c.depot)))
    ensures refused == Refusals(Avail(start, c.depot), Queue(env, old(c.taskIds)))
    ensures charges == Charges(Avail(start, c.depot), Queue(env, old(c.taskIds)), c.depot)
    ensures forall d :: Avail(remaining, d) ==
              if d == c.depot then Level(Avail(start, d), Queue(env, old(c.taskIds))) else Avail(start, d)
  {
    var demanding, passthrough := Partition(env, c.taskIds);
    var queue := SortBy(ServedBefore, demanding);
    var admitted;
    remaining, admitted, refused, charges := Serve(queue, c.depot, start);
    c.taskIds := Retain(c.taskIds, passthrough + admitted);
  }

  // ---- The whole pass ------------------------------------------------------------------------------

  /** Inventory by depot: the last entry of a depot counts, an unknown depot has none. */
  function StockOf(depots: seq<(Id, real)>, d: Id): real {
    if depots == [] then 0.0
    else if depots[|depots| - 1].0 == d then depots[|depots| - 1].1
    else StockOf(depots[..|depots| - 1], d)
  }

  /** A depot listed more than once has what was listed last. */
  lemma {:induction false} StockIsLast(depots: seq<(Id, real)>, k: nat)
    requires k < |depots| && forall j :: k < j < |depots| ==> depots[j].0 != depots[k].0
    ensures StockOf(depots, depots[k].0) == depots[k].1
  {
    if k < |depots| - 1 { StockIsLast(depots[..|depots| - 1], k); }
  }

  /** A depot that is not listed has nothing. */
  lemma {:induction false} UnlistedIsEmpty(depots: seq<(Id, real)>, d: Id)
    requires forall k :: 0 <= k < |depots| ==> depots[k].0 != d
    ensures StockOf(depots, d) == 0.0
  {
    if depots != [] { UnlistedIsEmpty(depots[..|depots| - 1], d); }
  }

  /** Every demand put to depot d, in the order it is served. */
  function DepotQueue(env: Env, loads: seq<Load>, d: Id): seq<Demand> {
    if loads == [] then []
    else
      var last := loads[|loads| - 1];
      DepotQueue(env, loads[..|loads| - 1], d) + (if last.depot == d then Queue(env, last.tasks) else [])
  }

  /** What is left at cluster k's depot when its turn comes. */
  function StartOf(env: Env, depots: seq<(Id, real)>, loads: seq<Load>, k: nat): real
    requires k < |loads|
  {
    Level(StockOf(depots, loads[k].depot), DepotQueue(env, loads[..k], loads[k].depot))
  }

  function AllRefusals(env: Env, depots: seq<(Id, real)>, loads: seq<Load>): seq<(Id, Id)> {
    if loads == [] then []
    else
      var n := |loads| - 1;
      AllRefusals(env, depots, loads[..n])
      + Tagged(Refusals(StartOf(env, depots, loads, n), Queue(env, loads[n].tasks)), loads[n].clusterId)
  }

  function AllCharges(env: Env, depots: seq<(Id, real)>, loads: seq<Load>): seq<Charge> {
    if loads == [] then []
    else
      var n := |loads| - 1;
      AllCharges(env, depots, loads[..n])
      + Charges(StartOf(env, depots, loads, n), Queue(env, loads[n].tasks), loads[n].depot)
  }

  /** Clusters are served in turn: more of them only add to what is refused and charged. */
  lemma {:induction false} ClustersInTurn(env: Env, depots: seq<(Id, real)>, loads: seq<Load>, k: nat)
    requires k <= |loads|
    ensures AllRefusals(env, depots, loads[..k]) <= AllRefusals(env, depots, loads)
    ensures AllCharges(env, depots, loads[..k]) <= AllCharges(env, depots, loads)
  {
    hide Refusals, Charges, StartOf, Queue;
    if k == |loads| {
      assert loads[..k] == loads;
    } else {
      ClustersInTurn(env, depots, loads[..|loads| - 1], k);
      assert loads[..|loads| - 1][..k] == loads[..k];
    }
  }

  function KeptTasks(env: Env, depots: seq<(Id, real)>, loads: seq<Load>, k: nat): seq<Id>
    requires k < |loads|
  {
    Only(loads[k].tasks, KeptSet(env, loads[k].tasks, StartOf(env, depots, loads, k)))
  }

  function Loads(clusters: seq<Cluster>): (r: seq<Load>)
    reads clusters
    ensures |r| == |clusters|
  {
    seq(|clusters|, k requires 0 <= k < |clusters| reads clusters => clusters[k].AsLoad())
  }

  method IndexStock(depots: seq<(Id, real)>) returns (remaining: map<Id, real>)
    ensures forall d :: Avail(remaining, d) == StockOf(depots, d)
  {
    remaining := map[];
    for k := 0 to |depots|
      invariant forall d :: Avail(remaining, d) == StockOf(depots[..k], d)
    {
      assert depots[..k + 1][..k] == depots[..k] && depots[..k + 1][k] == depots[k];
      remaining := remaining[depots[k].0 := depots[k].1];
    }
    assert depots[..|depots|] == depots;
  }

  method Reserve(charges: seq<Charge>) returns (reservations: seq<Reservation>)
    ensures |reservations| == |charges| && fresh(reservations) && Distinct(reservations)
    ensures forall k :: 0 <= k < |charges| ==>
              reservations[k].Records(charges[k]) && reservations[k].status == Provisional
  {
    reservations := [];
    for k := 0 to |charges|
      invariant |reservations| == k && fresh(reservations) && Distinct(reservations)
      invariant forall i :: 0 <= i < k ==> reservations[i].Records(charges[i]) && reservations[i].status == Provisional
    {
      var r := new Reservation(charges[k]);
      reservations := reservations + [r];
    }
  }

  /** The dictionary of remaining stock after the clusters in loads. */
  ghost predicate Remains(env: Env, depots: seq<(Id, real)>, loads: seq<Load>, remaining: map<Id, real>) {
    forall d :: Avail(remaining, d) == Level(StockOf(depots, d), DepotQueue(env, loads, d))
  }

  /** The loop over clusters. */
  method ChargeClusters(env: Env, clusters: seq<Cluster>, depots: seq<(Id, real)>, stock: map<Id, real>)
    returns (infeasible: seq<(Id, Id)>, charges: seq<Charge>)
    requires Distinct(clusters) && forall d :: Avail(stock, d) == StockOf(depots, d)
    modifies Members(clusters)`taskIds
    ensures forall k :: 0 <= k < |clusters| ==> clusters[k].taskIds == KeptTasks(env, depots, old(Loads(clusters)), k)
    ensures infeasible == AllRefusals(env, depots, old(Loads(clusters)))
    ensures charges == AllCharges(env, depots, old(Loads(clusters)))
  {
    hide KeptTasks, AllRefusals, AllCharges, Queue, Remains, Level, DepotQueue, StockOf, Only, KeptSet, Refusals, Charges;
    ghost var loads := Loads(clusters);
    infeasible, charges := [], [];
    var remaining := stock;
    NothingCharged(env, depots, loads[..0], stock);
    for k := 0 to |clusters|
      invariant forall i :: 0 <= i < k ==> clusters[i].taskIds == KeptTasks(env, depots, loads, i)
      invariant forall i :: k <= i < |clusters| ==> clusters[i].AsLoad() == loads[i]
      invariant infeasible == AllRefusals(env, depots, loads[..k]) && charges == AllCharges(env, depots, loads[..k])
      invariant Remains(env, depots, loads[..k], remaining)
    {
      var c := clusters[k];
      ghost var before := remaining;
      assert c.AsLoad() == loads[k];
      StartIs(env, depots, loads, k, before);
      var refused, charged;
      remaining, refused, charged := ChargeCluster(env, c, remaining);
      ClusterCharged(env, depots, loads, k);
      NextRemains(env, depots, loads, k, before, remaining);
      infeasible := infeasible + Tagged(refused, c.clusterId);
      charges := charges + charged;
    }
    assert loads[..|clusters|] == loads;
  }

  method ApplyMaterialLimits(env: Env, clusters: seq<Cluster>, depots: seq<(Id, real)>)
    returns (infeasible: seq<(Id, Id)>, reservations: seq<Reservation>, ghost charges: seq<Charge>)
    requires Distinct(clusters)
    modifies Members(clusters)`taskIds
    ensures forall k :: 0 <= k < |clusters| ==> clusters[k].taskIds == KeptTasks(env, depots, old(Loads(clusters)), k)
    ensures infeasible == AllRefusals(env, depots, old(Loads(clusters)))
    ensures charges == AllCharges(env, depots, old(Loads(clusters)))
    ensures |reservations| == |charges| && fresh(reservations) && Distinct(reservations)
    ensures forall k :: 0 <= k < |charges| ==>
              reservations[k].Records(charges[k]) && reservations[k].status == Provisional
  {
    hide KeptTasks, AllRefusals, AllCharges;
    if |env.specs| == 0 {
      NoSpecs(env, depots, Loads(clusters));
      return [], [], [];
    }
    var stock := IndexStock(depots);
    var charged;
    infeasible, charged := ChargeClusters(env, clusters, depots, stock);
    reservations := Reserve(charged);
    charges := charged;
  }

  lemma StartIs(env: Env, depots: seq<(Id, real)>, loads: seq<Load>, k: nat, remaining: map<Id, real>)
    requires k < |loads| && Remains(env, depots, loads[..k], remaining)
    ensures Avail(remaining, loads[k].depot) == StartOf(env, depots, loads, k)
  {
  }

  lemma NextRemains(env: Env, depots: seq<(Id, real)>, loads: seq<Load>, k: nat, before: map<Id, real>, after: map<Id, real>)
    requires k < |loads| && Remains(env, depots, loads[..k], before)
    requires forall d :: Avail(after, d) ==
               if d == loads[k].depot then Level(Avail(before, d), Queue(env, loads[k].tasks)) else Avail(before, d)
    ensures Remains(env, depots, loads[..k + 1], after)
  {
    hide Level, DepotQueue, StockOf, Queue;
    forall d ensures Avail(after, d) == Level(StockOf(depots, d), DepotQueue(env, loads[..k + 1], d)) {
      NextLevel(env, depots, loads, k, d);
    }
  }

  lemma NothingCharged(env: Env, depots: seq<(Id, real)>, none: seq<Load>, stock: map<Id, real>)
    requires none == [] && forall d :: Avail(stock, d) == StockOf(depots, d)
    ensures Remains(env, depots, none, stock)
    ensures AllRefusals(env, depots, none) == [] && AllCharges(env, depots, none) == []
  {
  }

  lemma ClusterCharged(env: Env, depots: seq<(Id, real)>, loads: seq<Load>, k: nat)
    requires k < |loads|
    ensures var start, queue := StartOf(env, depots, loads, k), Queue(env, loads[k].tasks);
            && KeptTasks(env, depots, loads, k) == Only(loads[k].tasks, KeptSet(env, loads[k].tasks, start))
            && AllRefusals(env, depots, loads[..k + 1])
               == AllRefusals(env, depots, loads[..k]) + Tagged(Refusals(start, queue), loads[k].clusterId)
            && AllCharges(env, depots, loads[..k + 1])
               == AllCharges(env, depots, loads[..k]) + Charges(start, queue, loads[k].depot)
  {
    hide Queue, Refusals, Charges, Only, KeptSet;
    assert loads[..k + 1][..k] == loads[..k];
  }

  lemma NextLevel(env: Env, depots: seq<(Id, real)>, loads: seq<Load>, k: nat, d: Id)
    requires k < |loads|
    ensures Level(StockOf(depots, d), DepotQueue(env, loads[..k + 1], d)) ==
            if loads[k].depot == d
            then Level(Level(StockOf(depots, d), DepotQueue(env, loads[..k], d)), Queue(env, loads[k].tasks))
            else Level(StockOf(depots, d), DepotQueue(env, loads[..k], d))
  {
    hide Level, Queue, StockOf;
    assert loads[..k + 1][..k] == loads[..k];
    if loads[k].depot == d {
      LevelJoin(StockOf(depots, d), DepotQueue(env, loads[..k], d), Queue(env, loads[k].tasks));
    } else {
      assert DepotQueue(env, loads[..k], d) + [] == DepotQueue(env, loads[..k], d);
    }
  }

  lemma {:induction false} NothingDemanded(env: Env, tasks: seq<Id>, kept: set<Id>)
    requires env.specs == map[] && Members(tasks) <= kept
    ensures Demanding(env, tasks) == [] && PassThrough(env, tasks) == tasks && Only(tasks, kept) == tasks
  {
    if tasks != [] {
      var front, last := tasks[..|tasks| - 1], tasks[|tasks| - 1];
      assert tasks == front + [last];
      assert Members(front) <= Members(tasks) && last in Members(tasks);
      NothingDemanded(env, front, kept);
    }
  }

  /** Without material specifications the early return does what the loop would. */
  lemma {:induction false} NoSpecs(env: Env, depots: seq<(Id, real)>, loads: seq<Load>)
    requires env.specs == map[]
    ensures forall k :: 0 <= k < |loads| ==> KeptTasks(env, depots, loads, k) == loads[k].tasks
    ensures AllRefusals(env, depots, loads) == [] && AllCharges(env, depots, loads) == []
  {
    forall k | 0 <= k < |loads| ensures KeptTasks(env, depots, loads, k) == loads[k].tasks {
      NothingDemanded(env, loads[k].tasks, Members(loads[k].tasks));
      assert loads[k].tasks + [] == loads[k].tasks;
      NothingDemanded(env, loads[k].tasks, KeptSet(env, loads[k].tasks, StartOf(env, depots, loads, k)));
    }
    if loads != [] {
      var n := |loads| - 1;
      NoSpecs(env, depots, loads[..n]);
      NothingDemanded(env, loads[n].tasks, Members(loads[n].tasks));
    }
  }
}
