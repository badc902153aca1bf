/** deconflict_airspace end to end, and the re-timing of the published plan
    (src/fl_op/planning/airspace.py). */
module Deconfliction {
  import opened Wrappers
  import opened Ordering
  import opened Sums
  import opened CorridorColouring
  import opened TemporalSeparation
  import opened Airspace
  import opened AirspaceHolds
  import opened SweepLine

  // ---- Pair accounting -----------------------------------------------------------------

  datatype Outcome = CorridorSeparated | TimeSeparated | Residual

  /** How a conflict pair ends up, from the final corridors and delays. */
  function OutcomeOf(plans: seq<Plan>, col: Colours, delays: seq<real>, buffer: real, e: (nat, nat)): Outcome
    requires |plans| == |col| == |delays| && e.0 < |plans| && e.1 < |plans|
  {
    if col[e.0] != col[e.1] then CorridorSeparated
    else if StillOverlap(plans, delays, buffer, e.0, e.1) then Residual
    else TimeSeparated
  }

  function Tally(plans: seq<Plan>, col: Colours, delays: seq<real>, buffer: real, pairs: Pairs, o: Outcome): nat
    requires |plans| == |col| == |delays|
    requires forall k :: 0 <= k < |pairs| ==> pairs[k].0 < |plans| && pairs[k].1 < |plans|
  {
    if pairs == [] then 0
    else Tally(plans, col, delays, buffer, pairs[..|pairs| - 1], o)
         + (if OutcomeOf(plans, col, delays, buffer, pairs[|pairs| - 1]) == o then 1 else 0)
  }

  /** Each conflict pair is counted once; the pairs not separated by corridor are exactly
      the same-corridor ones. */
  lemma {:induction false} TallyAddsUp(plans: seq<Plan>, col: Colours, delays: seq<real>, buffer: real, pairs: Pairs)
    requires |plans| == |col| == |delays| && forall v :: 0 <= v < |col| ==> col[v] >= 0
    requires forall k :: 0 <= k < |pairs| ==> pairs[k].0 < |plans| && pairs[k].1 < |plans|
    ensures Tally(plans, col, delays, buffer, pairs, TimeSeparated) + Tally(plans, col, delays, buffer, pairs, Residual)
            == SameCorridor(pairs, col)
    ensures Tally(plans, col, delays, buffer, pairs, CorridorSeparated) + SameCorridor(pairs, col) == |pairs|
  {
    if pairs != [] { TallyAddsUp(plans, col, delays, buffer, pairs[..|pairs| - 1]); }
  }

  method CountOutcomes(flights: seq<Flight>, pairs: Pairs, buffer: real)
    returns (corridor: nat, time: nat, residual: nat)
    requires forall k :: 0 <= k < |pairs| ==> pairs[k].0 < |flights| && pairs[k].1 < |flights|
    ensures var plans, col, delays := Plans(flights), Corridors(flights), Delays(flights);
            && corridor == Tally(plans, col, delays, buffer, pairs, CorridorSeparated)
            && time == Tally(plans, col, delays, buffer, pairs, TimeSeparated)
            && residual == Tally(plans, col, delays, buffer, pairs, Residual)
  {
    corridor, time, residual := 0, 0, 0;
    ghost var plans, col, delays := Plans(flights), Corridors(flights), Delays(flights);
    for k := 0 to |pairs|
      invariant corridor == Tally(plans, col, delays, buffer, pairs[..k], CorridorSeparated)
      invariant time == Tally(plans, col, delays, buffer, pairs[..k], TimeSeparated)
      invariant residual == Tally(plans, col, delays, buffer, pairs[..k], Residual)
    {
      assert pairs[..k + 1][..k] == pairs[..k];
      var a, b := flights[pairs[k].0], flights[pairs[k].1];
      if a.corridor != b.corridor {
        corridor := corridor + 1;
      } else if Overlap(buffer, a.plan.entry + a.delayS, a.plan.exit + a.delayS,
                        b.plan.entry + b.delayS, b.plan.exit + b.delayS) {
        residual := residual + 1;
      } else {
        time := time + 1;
      }
    }
    assert pairs[..|pairs|] == pairs;
  }

  /** The conflict pairs whose flights are in different corridors. */
  ghost function CorridorApart(pairs: Pairs, col: Colours): set<nat>
    requires forall k :: 0 <= k < |pairs| ==> pairs[k].0 < |col| && pairs[k].1 < |col|
  {
    set k: nat | k < |pairs| && col[pairs[k].0] != col[pairs[k].1]
  }

  /** The conflict pairs left in one corridor with their shifted windows less than a buffer apart. */
  ghost function StillClose(plans: seq<Plan>, col: Colours, delays: seq<real>, buffer: real, pairs: Pairs): set<nat>
    requires |plans| == |col| == |delays|
    requires forall k :: 0 <= k < |pairs| ==> pairs[k].0 < |plans| && pairs[k].1 < |plans|
  {
    set k: nat | k < |pairs| && CloseAt(plans, col, delays, buffer, pairs[k])
  }

  ghost predicate CloseAt(plans: seq<Plan>, col: Colours, delays: seq<real>, buffer: real, e: (nat, nat))
    requires |plans| == |col| == |delays| && e.0 < |plans| && e.1 < |plans|
  {
    var (i, j) := e;
    && col[i] == col[j]
    && plans[i].exit + delays[i] + buffer > plans[j].entry + delays[j]
    && plans[j].exit + delays[j] + buffer > plans[i].entry + delays[i]
  }

  lemma {:induction false} TallyCounts(plans: seq<Plan>, col: Colours, delays: seq<real>, buffer: real, pairs: Pairs)
    requires |plans| == |col| == |delays|
    requires forall k :: 0 <= k < |pairs| ==> pairs[k].0 < |plans| && pairs[k].1 < |plans|
    ensures Tally(plans, col, delays, buffer, pairs, CorridorSeparated) == |CorridorApart(pairs, col)|
    ensures Tally(plans, col, delays, buffer, pairs, Residual) == |StillClose(plans, col, delays, buffer, pairs)|
  {
    if pairs == [] {
      assert CorridorApart(pairs, col) == {} && StillClose(plans, col, delays, buffer, pairs) == {};
    } else {
      var n := |pairs| - 1;
      TallyCounts(plans, col, delays, buffer, pairs[..n]);
      ApartNext(pairs, col);
      CloseNext(plans, col, delays, buffer, pairs);
    }
  }

  lemma ApartNext(pairs: Pairs, col: Colours)
    requires pairs != [] && forall k :: 0 <= k < |pairs| ==> pairs[k].0 < |col| && pairs[k].1 < |col|
    ensures var n := |pairs| - 1;
            |CorridorApart(pairs, col)|
            == |CorridorApart(pairs[..n], col)| + if col[pairs[n].0] != col[pairs[n].1] then 1 else 0
  {
    var n := |pairs| - 1;
    assert CorridorApart(pairs, col)
           == CorridorApart(pairs[..n], col) + if col[pairs[n].0] != col[pairs[n].1] then {n} else {};
  }

  lemma CloseNext(plans: seq<Plan>, col: Colours, delays: seq<real>, buffer: real, pairs: Pairs)
    requires |plans| == |col| == |delays| && pairs != []
    requires forall k :: 0 <= k < |pairs| ==> pairs[k].0 < |plans| && pairs[k].1 < |plans|
    ensures var n := |pairs| - 1;
            |StillClose(plans, col, delays, buffer, pairs)|
            == |StillClose(plans, col, delays, buffer, pairs[..n])|
               + if CloseAt(plans, col, delays, buffer, pairs[n]) then 1 else 0
  {
    hide CloseAt;
    var n := |pairs| - 1;
    assert StillClose(plans, col, delays, buffer, pairs)
           == StillClose(plans, col, delays, buffer, pairs[..n])
              + if CloseAt(plans, col, delays, buffer, pairs[n]) then {n} else {};
  }

  /** A residual pair exists exactly when the residual count is positive. */
  lemma {:induction false} ResidualWitness(plans: seq<Plan>, col: Colours, delays: seq<real>, buffer: real, pairs: Pairs)
    requires |plans| == |col| == |delays|
    requires forall k :: 0 <= k < |pairs| ==> pairs[k].0 < |plans| && pairs[k].1 < |plans|
    ensures Tally(plans, col, delays, buffer, pairs, Residual) > 0 <==>
            exists k :: 0 <= k < |pairs| && OutcomeOf(plans, col, delays, buffer, pairs[k]) == Residual
  {
    if pairs != [] {
      var n := |pairs| - 1;
      ResidualWitness(plans, col, delays, buffer, pairs[..n]);
      if k :| 0 <= k < n && OutcomeOf(plans, col, delays, buffer, pairs[..n][k]) == Residual {
        assert pairs[k] == pairs[..n][k];
      }
      if k :| 0 <= k < |pairs| && OutcomeOf(plans, col, delays, buffer, pairs[k]) == Residual {
        assert k < n ==> pairs[..n][k] == pairs[k];
      }
    }
  }

  /** When no flight has a deadline, deconfliction is complete. */
  lemma NoDeadlinesNoResidual(plans: seq<Plan>, pairs: Pairs, col: Colours, delays: seq<real>, buffer: real)
    requires ConflictGraph(|plans|, pairs) && Separated(plans, pairs, col, delays, buffer)
    requires forall i :: 0 <= i < |plans| ==> plans[i].slack.None?
    ensures Tally(plans, col, delays, buffer, pairs, Residual) == 0
  {
    forall k | 0 <= k < |pairs| ensures OutcomeOf(plans, col, delays, buffer, pairs[k]) != Residual {
      var (i, j) := pairs[k];
      if col[i] == col[j] {
        assert (i, j) in pairs;
        UnboundedSlackSeparates(plans, pairs, col, delays, buffer, i, j);
      }
    }
    ResidualWitness(plans, col, delays, buffer, pairs);
  }

  // ---- The flights of a plan ---------------------------------------------------------------

  datatype Assignment = Assignment(taskId: string, plannedStart: real, plannedFinish: real, isFrozen: bool,
                                   isPinned: bool)

  /** What the snapshot says of an aerial assignment: inbound travel time and task deadline. */
  datatype Trip = Trip(inbound: real, deadline: Option<real>)

  /** The flight planned for an assignment (the _Flight built in the loop). */
  function PlanFor(a: Assignment, trip: Trip): Plan {
    Plan(a.taskId, a.plannedStart - trip.inbound, a.plannedFinish,
         DeadlineSlack(trip.deadline, a.plannedFinish, a.isFrozen || a.isPinned))
  }

  /** plan is the flight of assignment a: off its start by the inbound travel, down at its finish,
      and free to be held until its deadline unless it is committed. */
  ghost predicate FlightOf(plan: Plan, a: Assignment, trip: Trip) {
    && plan.taskId == a.taskId && plan.entry == a.plannedStart - trip.inbound && plan.exit == a.plannedFinish
    && (if a.isFrozen || a.isPinned then plan.slack == Some(0.0)
        else if trip.deadline.None? then plan.slack == None
        else if trip.deadline.value <= a.plannedFinish then plan.slack == Some(0.0)
        else plan.slack == Some(trip.deadline.value - a.plannedFinish))
  }

  /** from lists, in order, exactly the assignments that fly, and plans has the flight of each. No
      trip means an unknown task, ground work or a task without a path. */
  ghost predicate FlightsOf(plans: seq<Plan>, assignments: seq<Assignment>, trips: Assignment -> Option<Trip>,
                            from: seq<nat>)
  {
    && |from| == |plans| && (forall i, j :: 0 <= i < j < |from| ==> from[i] < from[j])
    && (forall k: nat :: k in from <==> k < |assignments| && trips(assignments[k]).Some?)
    && (forall p :: 0 <= p < |plans| ==> FlightAt(plans[p], assignments, trips, from[p]))
  }

  ghost predicate FlightAt(plan: Plan, assignments: seq<Assignment>, trips: Assignment -> Option<Trip>, k: nat) {
    && k < |assignments| && trips(assignments[k]).Some?
    && FlightOf(plan, assignments[k], trips(assignments[k]).value)
  }

  method BuildFlights(assignments: seq<Assignment>, trips: Assignment -> Option<Trip>)
    returns (flights: seq<Flight>, ghost from: seq<nat>)
    ensures FlightsOf(Plans(flights), assignments, trips, from)
    ensures Distinct(flights) && fresh(flights)
    ensures forall f :: f in flights ==> f.corridor == -1 && f.delayS == 0.0 && NonNegativeSlack(f.plan)
  {
    hide FlightsOf;
    flights, from := [], [];
    NoFlightsYet(assignments, trips);
    for k := 0 to |assignments|
      invariant FlightsOf(Plans(flights), assignments[..k], trips, from)
      invariant Distinct(flights) && fresh(flights)
      invariant forall f :: f in flights ==> f.corridor == -1 && f.delayS == 0.0 && NonNegativeSlack(f.plan)
    {
      var trip := trips(assignments[k]);
      NextFlight(Plans(flights), assignments, trips, from, k);
      if trip.Some? {
        var flight := new Flight(PlanFor(assignments[k], trip.value));
        assert Plans(flights + [flight]) == Plans(flights) + [flight.plan];
        flights, from := flights + [flight], from + [k];
      }
    }
    assert assignments[..|assignments|] == assignments;
  }

  lemma NoFlightsYet(assignments: seq<Assignment>, trips: Assignment -> Option<Trip>)
    ensures FlightsOf([], assignments[..0], trips, [])
  {
  }

  lemma NextFlight(plans: seq<Plan>, assignments: seq<Assignment>, trips: Assignment -> Option<Trip>, from: seq<nat>,
                   k: nat)
    requires k < |assignments| && FlightsOf(plans, assignments[..k], trips, from)
    ensures trips(assignments[k]).None? ==> FlightsOf(plans, assignments[..k + 1], trips, from)
    ensures trips(assignments[k]).Some? ==>
              FlightsOf(plans + [PlanFor(assignments[k], trips(assignments[k]).value)], assignments[..k + 1], trips, from + [k])
  {
    var before, after := assignments[..k], assignments[..k + 1];
    assert forall i: nat :: i < k ==> before[i] == after[i] == assignments[i];
    assert after[k] == assignments[k];
    forall p | 0 <= p < |plans| ensures FlightAt(plans[p], after, trips, from[p]) {
      assert FlightAt(plans[p], before, trips, from[p]);
    }
    if trips(assignments[k]).Some? {
      forall i | 0 <= i < |from| ensures from[i] < k { assert from[i] in from; }
      assert FlightAt(PlanFor(assignments[k], trips(assignments[k]).value), after, trips, k);
    }
  }

  // ---- deconflict_airspace ---------------------------------------------------------------

  datatype Report = Report(nFlights: nat, corridorsUsed: nat, nConflictPairs: nat, nCorridorSeparated: nat,
                           nTimeSeparated: nat, nResidual: nat, nHeld: nat, totalDelayS: real, maxDelayS: real,
                           maxConcurrentFlights: nat, fullyDeconflicted: bool)

  function Airborne(plans: seq<Plan>, delays: seq<real>): (v: seq<Interval>)
    requires |plans| == |delays|
    ensures |v| == |plans|
  {
    seq(|plans|, k requires 0 <= k < |plans| => (plans[k].entry + delays[k], plans[k].exit + delays[k]))
  }

  /** The state the pass leaves behind: the true conflict graph, coloured greedily in degree
      order, and every flight held right. */
  ghost predicate Deconflicted(plans: seq<Plan>, lateral: (nat, nat) -> real, config: Config, pairs: Pairs,
                               order: seq<nat>, col: Colours, delays: seq<real>)
  {
    && PairsAre(plans, lateral, config, pairs)
    && GreedyColoured(|plans|, pairs, config.corridors, order, col) && TieBreak(plans, pairs, order)
    && Separated(plans, pairs, col, delays, config.bufferS)
  }

  method Deconflict(assignments: seq<Assignment>, trips: Assignment -> Option<Trip>, lateral: (nat, nat) -> real,
                    config: Config)
    returns (flights: seq<Flight>, report: Option<Report>, holds: map<string, real>, ghost pairs: Pairs,
             ghost order: seq<nat>, ghost from: seq<nat>)
    requires config.corridors >= 1
    ensures FlightsOf(Plans(flights), assignments, trips, from)
    ensures Deconflicted(Plans(flights), lateral, config, pairs, order, Corridors(flights), Delays(flights))
    ensures report.None? <==> flights == []
    ensures report.Some? ==> Accounts(report.value, Plans(flights), pairs, Corridors(flights), Delays(flights), config)
    ensures forall i: nat, j: nat :: i < j < |flights| ==>
              SafelyApart(Plans(flights), lateral, config, Corridors(flights), Delays(flights), i, j)
    ensures HoldsOf(holds, Plans(flights), Delays(flights))
  {
    hide Deconflicted, HoldsOf, Accounts, FlightsOf, SafelyApart;
    flights, from := BuildFlights(assignments, trips);
    if |flights| == 0 {
      report, holds, pairs, order := None, map[], [], [];
      NoFlights(Plans(flights), lateral, config, Corridors(flights), Delays(flights));
      return;
    }
    var conflicts;
    conflicts, order := Separate(flights, lateral, config);
    pairs := conflicts;
    PairsAreSafe(Plans(flights), lateral, config, pairs, order, Corridors(flights), Delays(flights));
    var figures := MakeReport(flights, conflicts, lateral, config, order);
    report := Some(figures);
    holds := CollectHolds(flights);
  }

  /** How two flights are kept apart: in space, in their planned times, by corridor, in their
      shifted times, or else one of them has been held for all the slack it has. */
  ghost predicate SafelyApart(plans: seq<Plan>, lateral: (nat, nat) -> real, config: Config, col: Colours,
                              delays: seq<real>, i: nat, j: nat)
    requires |plans| == |col| == |delays| && i < |plans| && j < |plans|
  {
    var buffer := config.bufferS;
    || lateral(i, j) >= config.separationM
    || plans[i].exit + buffer <= plans[j].entry || plans[j].exit + buffer <= plans[i].entry
    || col[i] != col[j]
    || plans[i].exit + delays[i] + buffer <= plans[j].entry + delays[j]
    || plans[j].exit + delays[j] + buffer <= plans[i].entry + delays[i]
    || plans[i].slack == Some(delays[i]) || plans[j].slack == Some(delays[j])
  }

  lemma PairsAreSafe(plans: seq<Plan>, lateral: (nat, nat) -> real, config: Config, pairs: Pairs, order: seq<nat>,
                     col: Colours, delays: seq<real>)
    requires Deconflicted(plans, lateral, config, pairs, order, col, delays)
    ensures |plans| == |col| == |delays|
    ensures forall i: nat, j: nat :: i < j < |plans| ==> SafelyApart(plans, lateral, config, col, delays, i, j)
  {
    hide GreedyColoured, TieBreak, HeldRight, Earlier;
    forall i: nat, j: nat | i < j < |plans| ensures SafelyApart(plans, lateral, config, col, delays, i, j) {
      if (i, j) in pairs && col[i] == col[j] && StillOverlap(plans, delays, config.bufferS, i, j) {
        EarlierTotal(plans, i, j);
        if Earlier(plans, j, i) {
          ResidualOnlyIfCapped(plans, pairs, col, delays, config.bufferS, i, j);
        } else {
          ResidualOnlyIfCapped(plans, pairs, col, delays, config.bufferS, j, i);
        }
      }
    }
  }

  method Separate(flights: seq<Flight>, lateral: (nat, nat) -> real, config: Config)
    returns (pairs: Pairs, order: seq<nat>)
    requires Distinct(flights) && config.corridors >= 1
    requires forall f :: f in flights ==> f.corridor == -1 && f.delayS == 0.0 && NonNegativeSlack(f.plan)
    modifies flights
    ensures Deconflicted(Plans(flights), lateral, config, pairs, order, Corridors(flights), Delays(flights))
    ensures ConflictGraph(|flights|, pairs)
  {
    hide GreedyColoured, Separated, Conflicting, PairsAre, TieBreak;
    pairs := ConflictPairs(Plans(flights), lateral, config);
    PairsGraph(Plans(flights), lateral, config, pairs);
    order := AssignCorridors(flights, pairs, config.corridors);
    KeepsZero(flights);
    ApplyTemporalSeparation(flights, pairs, config.bufferS);
  }

  method MakeReport(flights: seq<Flight>, pairs: Pairs, ghost lateral: (nat, nat) -> real, config: Config,
                    ghost order: seq<nat>)
    returns (report: Report)
    requires Deconflicted(Plans(flights), lateral, config, pairs, order, Corridors(flights), Delays(flights))
    requires ConflictGraph(|flights|, pairs)
    ensures Accounts(report, Plans(flights), pairs, Corridors(flights), Delays(flights), config)
  {
    hide GreedyColoured, Separated, PairsAre, TieBreak, Tally, IsPeak, IsMost, HeldOnes, Sum, PairFigures, IsMostAloft, Depth;
    var corridor, time, residual := CountOutcomes(flights, pairs, config.bufferS);
    var used := CorridorsUsed(flights);
    var held, total, most := DelayFigures(flights);
    var peak := PeakOverlap(Airborne(Plans(flights), Delays(flights)));
    report := Report(|flights|, |used|, |pairs|, corridor, time, residual, held, total, most, peak, residual == 0);
    Accounted(report, Plans(flights), pairs, Corridors(flights), Delays(flights), config, order);
    UsedWithin(Plans(flights), pairs, Corridors(flights), config.corridors, order);
    if forall k :: 0 <= k < |flights| ==> Plans(flights)[k].entry <= Plans(flights)[k].exit {
      PeakIsMostAloft(Plans(flights), Delays(flights), peak);
    }
  }

  lemma PairsGraph(plans: seq<Plan>, lateral: (nat, nat) -> real, config: Config, pairs: Pairs)
    requires PairsAre(plans, lateral, config, pairs)
    ensures ConflictGraph(|plans|, pairs)
  {
  }

  lemma NoFlights(plans: seq<Plan>, lateral: (nat, nat) -> real, config: Config, col: Colours, delays: seq<real>)
    requires |plans| == |col| == |delays| == 0
    ensures Deconflicted(plans, lateral, config, [], [], col, delays) && HoldsOf(map[], plans, delays)
  {
    assert multiset(Range(0)) == multiset{};
  }

  method CorridorsUsed(flights: seq<Flight>) returns (used: set<int>)
    ensures used == set k | 0 <= k < |flights| :: Corridors(flights)[k]
  {
    used := {};
    ghost var col := Corridors(flights);
    for k := 0 to |flights|
      invariant used == set i | 0 <= i < k :: col[i]
    {
      used := used + {flights[k].corridor};
    }
  }

  ghost function HeldOnes(delays: seq<real>): set<nat> { set i: nat | i < |delays| && delays[i] > 0.0 }

  lemma HeldNone()
    ensures HeldOnes([]) == {}
  {
  }

  lemma HeldStep(delays: seq<real>, d: real)
    ensures |HeldOnes(delays + [d])| == |HeldOnes(delays)| + if d > 0.0 then 1 else 0
  {
    assert HeldOnes(delays + [d]) == HeldOnes(delays) + if d > 0.0 then {|delays|} else {};
  }

  method DelayFigures(flights: seq<Flight>) returns (held: nat, total: real, most: real)
    ensures held == |HeldOnes(Delays(flights))|
    ensures total == Sum(Delays(flights)) && IsMost(Delays(flights), most)
  {
    hide HeldOnes;
    ghost var delays := Delays(flights);
    assert HeldOnes([]) == {} by { HeldNone(); }
    held, total, most := 0, 0.0, Most(Delays(flights));
    for k := 0 to |flights|
      invariant held == |HeldOnes(delays[..k])|
      invariant total == Sum(delays[..k])
    {
      var d := flights[k].delayS;
      assert delays[..k + 1] == delays[..k] + [d];
      HeldStep(delays[..k], d);
      held, total := held + (if d > 0.0 then 1 else 0), total + d;
    }
    assert delays[..|flights|] == delays;
  }

  twostate lemma KeepsZero(flights: seq<Flight>)
    requires Delays(flights) == old(Delays(flights))
    requires forall f :: f in flights ==> old(f.delayS) == 0.0
    ensures forall f :: f in flights ==> f.delayS == 0.0
  {
    forall f | f in flights ensures f.delayS == 0.0 {
      var i :| 0 <= i < |flights| && flights[i] == f;
      assert Delays(flights)[i] == old(Delays(flights))[i];
    }
  }

  /** The pair figures: every pair counted once, the shared-corridor pairs bounded by the
      number of corridors, complete exactly when no pair is residual. */
  ghost predicate PairFigures(report: Report, plans: seq<Plan>, pairs: Pairs, col: Colours, delays: seq<real>,
                              config: Config)
    requires |plans| == |col| == |delays| && ConflictGraph(|plans|, pairs)
  {
    && report.nConflictPairs == |pairs|
    && report.nCorridorSeparated + report.nTimeSeparated + report.nResidual == |pairs|
    && report.nCorridorSeparated == |CorridorApart(pairs, col)|
    && report.nResidual == |StillClose(plans, col, delays, config.bufferS, pairs)|
    && config.corridors * (report.nTimeSeparated + report.nResidual) <= |pairs|
    && (report.fullyDeconflicted <==>
          forall k :: 0 <= k < |pairs| ==> !CloseAt(plans, col, delays, config.bufferS, pairs[k]))
  }

  /** The flight figures: corridors used, flights held, total and longest delay, and the peak
      taken over the shifted windows. */
  ghost predicate FlightFigures(report: Report, plans: seq<Plan>, col: Colours, delays: seq<real>, config: Config)
    requires |plans| == |col| == |delays|
  {
    && report.nFlights == |plans|
    && report.corridorsUsed == |set k | 0 <= k < |col| :: col[k]| <= config.corridors
    && report.nHeld == |HeldOnes(delays)|
    && report.totalDelayS == Sum(delays) && IsMost(delays, report.maxDelayS)
    && ((forall k :: 0 <= k < |plans| ==> plans[k].entry <= plans[k].exit) ==>
          IsMostAloft(plans, delays, report.maxConcurrentFlights))
  }

  /** The flights in the air at t, by their shifted windows. */
  ghost function Aloft(plans: seq<Plan>, delays: seq<real>, t: real): set<nat>
    requires |plans| == |delays|
  {
    set k: nat | k < |plans| && plans[k].entry + delays[k] <= t < plans[k].exit + delays[k]
  }

  /** peak is the greatest number of flights in the air at one instant. */
  ghost predicate IsMostAloft(plans: seq<Plan>, delays: seq<real>, peak: nat)
    requires |plans| == |delays|
  {
    && (forall t: real :: |Aloft(plans, delays, t)| <= peak)
    && (peak > 0 ==> exists t: real :: |Aloft(plans, delays, t)| == peak)
  }

  lemma PeakIsMostAloft(plans: seq<Plan>, delays: seq<real>, peak: nat)
    requires |plans| == |delays| && IsPeak(Airborne(plans, delays), peak)
    requires forall k :: 0 <= k < |plans| ==> plans[k].entry <= plans[k].exit
    ensures IsMostAloft(plans, delays, peak)
  {
    hide IsPeak, Depth;
    PeakIsDepth(Airborne(plans, delays), peak);
    forall t: real ensures InForce(Airborne(plans, delays), t) == Aloft(plans, delays, t) { }
  }

  ghost predicate Accounts(report: Report, plans: seq<Plan>, pairs: Pairs, col: Colours, delays: seq<real>,
                           config: Config)
    requires |plans| == |col| == |delays| && ConflictGraph(|plans|, pairs)
  {
    PairFigures(report, plans, pairs, col, delays, config) && FlightFigures(report, plans, col, delays, config)
  }

  lemma ResidualIsClose(plans: seq<Plan>, col: Colours, delays: seq<real>, buffer: real, e: (nat, nat))
    requires |plans| == |col| == |delays| && e.0 < |plans| && e.1 < |plans|
    ensures OutcomeOf(plans, col, delays, buffer, e) == Residual <==> CloseAt(plans, col, delays, buffer, e)
  {
  }

  lemma Accounted(report: Report, plans: seq<Plan>, pairs: Pairs, col: Colours, delays: seq<real>, config: Config,
                  order: seq<nat>)
    requires |plans| == |col| == |delays| && ConflictGraph(|plans|, pairs)
    requires GreedyColoured(|plans|, pairs, config.corridors, order, col)
    requires report.nConflictPairs == |pairs|
    requires report.nCorridorSeparated == Tally(plans, col, delays, config.bufferS, pairs, CorridorSeparated)
    requires report.nTimeSeparated == Tally(plans, col, delays, config.bufferS, pairs, TimeSeparated)
    requires report.nResidual == Tally(plans, col, delays, config.bufferS, pairs, Residual)
    requires report.fullyDeconflicted == (report.nResidual == 0)
    ensures PairFigures(report, plans, pairs, col, delays, config)
  {
    hide GreedyColoured, ConflictGraph, Tally, SameCorridor, OutcomeOf, CloseAt, StillClose, CorridorApart;
    SharedWithinBound(plans, pairs, col, config.corridors, order);
    TallyAddsUp(plans, col, delays, config.bufferS, pairs);
    TallyCounts(plans, col, delays, config.bufferS, pairs);
    forall k | 0 <= k < |pairs|
      ensures OutcomeOf(plans, col, delays, config.bufferS, pairs[k]) == Residual
              <==> CloseAt(plans, col, delays, config.bufferS, pairs[k])
    {
      ResidualIsClose(plans, col, delays, config.bufferS, pairs[k]);
    }
    SameProduct(config.corridors, report.nTimeSeparated + report.nResidual, SameCorridor(pairs, col));
    ResidualWitness(plans, col, delays, config.bufferS, pairs);
  }

  lemma UsedWithin(plans: seq<Plan>, pairs: Pairs, col: Colours, corridors: nat, order: seq<nat>)
    requires |plans| == |col| && GreedyColoured(|plans|, pairs, corridors, order, col)
    ensures |set k | 0 <= k < |col| :: col[k]| <= corridors
  {
    hide GreedyColoured;
    EveryFlightAssigned(|plans|, pairs, corridors, order, col);
    SubsetSize(set k | 0 <= k < |col| :: col[k], Lanes(corridors));
  }

  /** The corridors 0, ..., m - 1. */
  function Lanes(m: nat): (lanes: set<int>)
    ensures |lanes| == m && forall c :: c in lanes <==> 0 <= c < m
  {
    if m == 0 then {} else Lanes(m - 1) + {m - 1}
  }

  lemma SameProduct(c: nat, a: nat, b: nat)
    requires a == b
    ensures c * a == c * b
  {
  }

  lemma SharedWithinBound(plans: seq<Plan>, pairs: Pairs, col: Colours, corridors: nat, order: seq<nat>)
    requires |plans| == |col| && ConflictGraph(|plans|, pairs)
    requires GreedyColoured(|plans|, pairs, corridors, order, col)
    ensures forall k :: 0 <= k < |pairs| ==> pairs[k].0 < |plans| && pairs[k].1 < |plans|
    ensures forall i :: 0 <= i < |col| ==> 0 <= col[i] < corridors
    ensures corridors * SameCorridor(pairs, col) <= |pairs|
  {
    hide GreedyColoured, ConflictGraph, SameCorridor;
    PairsInRange(|plans|, pairs);
    EveryFlightAssigned(|plans|, pairs, corridors, order, col);
    SharedPairsBound(|plans|, pairs, corridors, order, col);
  }

  lemma PairsInRange(n: nat, pairs: Pairs)
    requires ConflictGraph(n, pairs)
    ensures forall k :: 0 <= k < |pairs| ==> pairs[k].0 < n && pairs[k].1 < n
  {
  }

  // ---- Holds and apply_airspace_holds --------------------------------------------------------

  /** holds maps task ids to positive delays; of two held flights with one id the last wins. */
  ghost predicate HoldsOf(holds: map<string, real>, plans: seq<Plan>, delays: seq<real>)
    requires |plans| == |delays|
  {
    && (forall i :: 0 <= i < |plans| && delays[i] > 0.0 ==> plans[i].taskId in holds)
    && (forall id :: id in holds ==>
          exists i :: 0 <= i < |plans| && plans[i].taskId == id && delays[i] > 0.0 && holds[id] == delays[i])
  }

  method CollectHolds(flights: seq<Flight>) returns (holds: map<string, real>)
    ensures HoldsOf(holds, Plans(flights), Delays(flights))
  {
    holds := map[];
    for k := 0 to |flights|
      invariant forall i :: 0 <= i < k && flights[i].delayS > 0.0 ==> flights[i].plan.taskId in holds
      invariant forall id :: id in holds ==>
                  exists i :: 0 <= i < k && flights[i].plan.taskId == id && flights[i].delayS > 0.0
                              && holds[id] == flights[i].delayS
    {
      ghost var before := holds;
      if flights[k].delayS > 0.0 { holds := holds[flights[k].plan.taskId := flights[k].delayS]; }
      forall id | id in holds
        ensures exists i :: 0 <= i < k + 1 && flights[i].plan.taskId == id && flights[i].delayS > 0.0
                            && holds[id] == flights[i].delayS
      {
        if flights[k].delayS > 0.0 && id == flights[k].plan.taskId {
          assert holds[id] == flights[k].delayS;
        } else {
          var i :| 0 <= i < k && flights[i].plan.taskId == id && flights[i].delayS > 0.0
                   && before[id] == flights[i].delayS;
        }
      }
    }
  }

  function HoldFor(holds: map<string, real>, task: string): real { if task in holds then holds[task] else 0.0 }

  function Retimed(a: Assignment, holds: map<string, real>): Assignment {
    var delay := HoldFor(holds, a.taskId);
    if delay > 0.0 && !a.isFrozen && !a.isPinned
    then a.(plannedStart := a.plannedStart + delay, plannedFinish := a.plannedFinish + delay)
    else a
  }

  /** now is was, its start and finish later by its task's positive hold unless it is committed. */
  ghost predicate IsRetimed(now: Assignment, was: Assignment, holds: map<string, real>) {
    if was.taskId in holds && holds[was.taskId] > 0.0 && !was.isFrozen && !was.isPinned then
      && now.taskId == was.taskId && now.isFrozen == was.isFrozen && now.isPinned == was.isPinned
      && now.plannedStart - was.plannedStart == now.plannedFinish - was.plannedFinish == holds[was.taskId]
    else now == was
  }

  method ApplyAirspaceHolds(assignments: seq<Assignment>, holds: map<string, real>) returns (held: seq<Assignment>)
    ensures |held| == |assignments|
    ensures forall k :: 0 <= k < |held| ==> IsRetimed(held[k], assignments[k], holds)
    ensures holds == map[] ==> held == assignments
  {
    if holds == map[] { return assignments; }
    held := [];
    for k := 0 to |assignments|
      invariant |held| == k && forall j :: 0 <= j < k ==> IsRetimed(held[j], assignments[j], holds)
    {
      held := held + [Retimed(assignments[k], holds)];
    }
  }

  /** With distinct task ids the published windows are exactly the deconflicted ones, so the
      separation proved of the delays holds of the dispatched plan; frozen work stays put. */
  lemma PublishedIsDeconflicted(plans: seq<Plan>, pairs: Pairs, col: Colours, delays: seq<real>, buffer: real,
                                holds: map<string, real>, i: nat, a: Assignment, trip: Trip)
    requires Separated(plans, pairs, col, delays, buffer) && HoldsOf(holds, plans, delays)
    requires forall p, q :: 0 <= p < q < |plans| ==> plans[p].taskId != plans[q].taskId
    requires i < |plans| && FlightOf(plans[i], a, trip)
    ensures Retimed(a, holds).plannedFinish == plans[i].exit + delays[i]
    ensures Retimed(a, holds).plannedStart - trip.inbound == plans[i].entry + delays[i]
    ensures a.isFrozen || a.isPinned ==> Retimed(a, holds) == a
    ensures trip.deadline.Some? && a.plannedFinish <= trip.deadline.value ==>
              Retimed(a, holds).plannedFinish <= trip.deadline.value
  {
    DeadlineKept(plans, pairs, col, delays, buffer, i, trip.deadline, a.isFrozen || a.isPinned);
    DelayWithinSlack(plans, pairs, col, delays, buffer, i);
    if a.taskId in holds {
      var k :| 0 <= k < |plans| && plans[k].taskId == a.taskId && delays[k] > 0.0 && holds[a.taskId] == delays[k];
      assert k == i;
    }
  }
}
