/** Claiming backup operators against their busy calendars
    (src/fl_op/solver/enforcement.py, _operator_demand_window and _claim_backup_operator). */
module BackupOperators {
  import opened Wrappers
  import opened Calendar
  import F = FreeCapacity

  type Id = string

  /** A task row: operation None is a missing operation type; a window end None is open. */
  datatype Order = Order(operation: Option<string>, windows: seq<(int, Option<int>)>)

  datatype Env = Env(operators: seq<(Id, set<string>)>, mainClaimed: set<Id>, freeCapacity: map<Id, real>,
                     now: int, horizonEnd: int, allowOverlap: bool)

  // ---- Demand windows ----------------------------------------------------------------------

  /** The instant t lies in one of the order's workable windows. */
  ghost predicate Workable(order: Order, t: int) {
    exists w :: w in order.windows && w.0 <= t && (w.1.Some? ==> t < w.1.value)
  }

  ghost predicate SomeWorkable(orders: seq<Option<Order>>, t: int) {
    exists k :: 0 <= k < |orders| && orders[k].Some? && Workable(orders[k].value, t)
  }

  ghost predicate InHorizon(env: Env, t: int) { env.now <= t < env.horizonEnd }

  /** No usable timing: some task has no window, or no window reaches into the horizon. */
  ghost predicate TimingUnknown(env: Env, orders: seq<Option<Order>>) {
    || (exists k :: 0 <= k < |orders| && (orders[k].None? || orders[k].value.windows == []))
    || (forall t :: InHorizon(env, t) ==> !SomeWorkable(orders, t))
  }

  /** A backup is needed at t: inside the horizon and, when timing is known, workable. */
  ghost predicate Needed(env: Env, orders: seq<Option<Order>>, t: int) {
    && InHorizon(env, t)
    && (TimingUnknown(env, orders) || SomeWorkable(orders, t))
  }

  ghost predicate IsDemand(env: Env, orders: seq<Option<Order>>, demand: seq<Span>) {
    && Canonical(demand) && demand != []
    && (forall t :: Covers(demand, t) <==> Needed(env, orders, t))
  }

  function Clamp(env: Env, w: (int, Option<int>)): Span {
    (if w.0 > env.now then w.0 else env.now,
     if w.1.Some? && w.1.value < env.horizonEnd then w.1.value else env.horizonEnd)
  }

  lemma ClampIs(env: Env, w: (int, Option<int>), t: int)
    ensures Within(Clamp(env, w), t) <==> InHorizon(env, t) && w.0 <= t && (w.1.Some? ==> t < w.1.value)
  {
  }

  /** Spans collected from the orders seen so far. */
  ghost predicate Collected(env: Env, orders: seq<Option<Order>>, spans: seq<Span>) {
    && NonEmptySpans(spans)
    && (forall t :: Covers(spans, t) <==> InHorizon(env, t) && SomeWorkable(orders, t))
  }

  method OrderSpans(env: Env, order: Order) returns (spans: seq<Span>)
    ensures NonEmptySpans(spans)
    ensures forall t :: Covers(spans, t) <==> InHorizon(env, t) && Workable(order, t)
  {
    spans := [];
    for k := 0 to |order.windows|
      invariant NonEmptySpans(spans)
      invariant forall t :: Covers(spans, t) <==> InHorizon(env, t) && Workable(Order(None, order.windows[..k]), t)
    {
      var w := order.windows[k];
      var span := Clamp(env, w);
      ghost var before := spans;
      if span.1 > span.0 { spans := spans + [span]; }
      forall t
        ensures Covers(spans, t) <==> InHorizon(env, t) && Workable(Order(None, order.windows[..k + 1]), t)
      {
        WindowNext(order.windows, k, t);
        ClampIs(env, w, t);
        CoversAppend(before, [span], t);
        CoversOne(span, t);
      }
    }
    assert order.windows[..|order.windows|] == order.windows;
  }

  lemma WindowNext(windows: seq<(int, Option<int>)>, k: nat, t: int)
    requires k < |windows|
    ensures Workable(Order(None, windows[..k + 1]), t) <==>
            Workable(Order(None, windows[..k]), t)
            || (windows[k].0 <= t && (windows[k].1.Some? ==> t < windows[k].1.value))
  {
    assert windows[..k + 1] == windows[..k] + [windows[k]];
    var a, b := Order(None, windows[..k]), Order(None, windows[..k + 1]);
    if w :| w in a.windows && w.0 <= t && (w.1.Some? ==> t < w.1.value) { assert w in b.windows; }
    if windows[k].0 <= t && (windows[k].1.Some? ==> t < windows[k].1.value) { assert windows[k] in b.windows; }
  }

  method DemandWindow(env: Env, orders: seq<Option<Order>>) returns (demand: seq<Span>)
    requires env.now < env.horizonEnd
    ensures IsDemand(env, orders, demand)
  {
    hide Covers, Workable;
    var intervals: seq<Span> := [];
    assert Collected(env, orders[..0], intervals) by { NothingCollected(env, orders[..0]); }
    for k := 0 to |orders|
      invariant Collected(env, orders[..k], intervals)
      invariant forall j :: 0 <= j < k ==> orders[j].Some? && orders[j].value.windows != []
    {
      if orders[k].None? || |orders[k].value.windows| == 0 {
        WholeHorizon(env, orders);
        return [(env.now, env.horizonEnd)];
      }
      var spans := OrderSpans(env, orders[k].value);
      CollectNext(env, orders, k, intervals, spans);
      intervals := intervals + spans;
    }
    assert orders[..|orders|] == orders;
    if |intervals| == 0 {
      NeverWorkable(env, orders);
      WholeHorizon(env, orders);
      return [(env.now, env.horizonEnd)];
    }
    demand := MergeBusy(intervals);
    CollectedIsDemand(env, orders, intervals, demand);
  }

  lemma NothingCollected(env: Env, none: seq<Option<Order>>)
    requires none == []
    ensures Collected(env, none, [])
  {
  }

  lemma CollectNext(env: Env, orders: seq<Option<Order>>, k: nat, intervals: seq<Span>, spans: seq<Span>)
    requires k < |orders| && orders[k].Some? && Collected(env, orders[..k], intervals) && NonEmptySpans(spans)
    requires forall t :: Covers(spans, t) <==> InHorizon(env, t) && Workable(orders[k].value, t)
    ensures Collected(env, orders[..k + 1], intervals + spans)
  {
    hide Covers, Workable;
    forall t
      ensures Covers(intervals + spans, t) <==> InHorizon(env, t) && SomeWorkable(orders[..k + 1], t)
    {
      CoversAppend(intervals, spans, t);
      SomeWorkableNext(orders, k, t);
    }
  }

  lemma SomeWorkableNext(orders: seq<Option<Order>>, k: nat, t: int)
    requires k < |orders| && orders[k].Some?
    ensures SomeWorkable(orders[..k + 1], t) <==> SomeWorkable(orders[..k], t) || Workable(orders[k].value, t)
  {
    var a, b := orders[..k], orders[..k + 1];
    if j :| 0 <= j < |a| && a[j].Some? && Workable(a[j].value, t) { assert b[j] == a[j]; }
    if Workable(orders[k].value, t) { assert b[k] == orders[k]; }
    if j :| 0 <= j < |b| && b[j].Some? && Workable(b[j].value, t) { assert j < k ==> a[j] == b[j]; }
  }

  lemma WholeHorizon(env: Env, orders: seq<Option<Order>>)
    requires env.now < env.horizonEnd && TimingUnknown(env, orders)
    ensures IsDemand(env, orders, [(env.now, env.horizonEnd)])
  {
    forall t ensures Covers([(env.now, env.horizonEnd)], t) <==> Needed(env, orders, t) {
      CoversOne((env.now, env.horizonEnd), t);
    }
  }

  lemma NeverWorkable(env: Env, orders: seq<Option<Order>>)
    requires Collected(env, orders, [])
    ensures TimingUnknown(env, orders)
  {
    forall t | InHorizon(env, t) ensures !SomeWorkable(orders, t) {
      assert !Covers([], t);
    }
  }

  lemma CollectedIsDemand(env: Env, orders: seq<Option<Order>>, intervals: seq<Span>, demand: seq<Span>)
    requires Collected(env, orders, intervals) && intervals != [] && Canonical(demand)
    requires forall t :: Covers(demand, t) <==> Covers(intervals, t)
    requires forall j :: 0 <= j < |orders| ==> orders[j].Some? && orders[j].value.windows != []
    ensures IsDemand(env, orders, demand)
  {
    hide Workable;
    var t := intervals[0].0;
    assert intervals[0] in intervals;
    FirstCovers(intervals, t);
    assert Covers(demand, t);
    assert !TimingUnknown(env, orders);
  }

  // ---- Claims --------------------------------------------------------------------------------

  /** One call of _claim_backup_operator; chosen None is a refusal. */
  datatype Attempt = Attempt(cluster: Id, operation: string, demand: seq<Span>, chosen: Option<Id>, overlap: bool)

  /** The score the scan goes by. */
  function Capacity(env: Env, op: Id): (c: real)
    ensures FreeShare(env, op, c)
  {
    if op in env.freeCapacity then env.freeCapacity[op] else 1.0
  }

  /** c is op's free capacity; an operator without held windows is wholly free. */
  ghost predicate FreeShare(env: Env, op: Id, c: real) {
    (op in env.freeCapacity ==> c == env.freeCapacity[op]) && (op !in env.freeCapacity ==> c == 1.0)
  }

  /** Certified, and nobody's prime operator. */
  predicate Qualified(env: Env, operation: string, k: nat) {
    k < |env.operators| && env.operators[k].0 !in env.mainClaimed && operation in env.operators[k].1
  }

  /** Qualified, and with a capacity that the scan's start value of -1 admits. */
  predicate Candidate(env: Env, operation: string, k: nat) {
    Qualified(env, operation, k) && Capacity(env, env.operators[k].0) > -1.0
  }

  ghost predicate SharedInstant(a: seq<Span>, b: seq<Span>) { exists t :: Covers(a, t) && Covers(b, t) }

  /** An earlier claim on op already reserves an instant of demand. */
  ghost predicate Taken(before: seq<Attempt>, op: Id, demand: seq<Span>) {
    exists j :: 0 <= j < |before| && before[j].chosen == Some(op) && SharedInstant(before[j].demand, demand)
  }

  ghost predicate Eligible(env: Env, before: seq<Attempt>, operation: string, demand: seq<Span>, taken: bool, k: nat) {
    Candidate(env, operation, k) && (Taken(before, env.operators[k].0, demand) <==> taken)
  }

  /** best is the freest eligible operator among the first n, the first one on ties. */
  ghost predicate IsBest(env: Env, before: seq<Attempt>, operation: string, demand: seq<Span>, taken: bool,
                         n: nat, best: Option<nat>)
  {
    match best
    case None => forall j: nat :: j < n ==> !Eligible(env, before, operation, demand, taken, j)
    case Some(k) =>
      && k < n && Eligible(env, before, operation, demand, taken, k)
      && (forall j: nat :: j < n && Eligible(env, before, operation, demand, taken, j) ==>
            Capacity(env, env.operators[j].0) <= Capacity(env, env.operators[k].0))
      && (forall j: nat :: j < k && Eligible(env, before, operation, demand, taken, j) ==>
            Capacity(env, env.operators[j].0) < Capacity(env, env.operators[k].0))
  }

  /** What the two best candidates of a call decide: the freest operator free over the
      demand; failing that, in overlap mode, the freest one already committed. */
  ghost predicate Decides(env: Env, before: seq<Attempt>, a: Attempt, free: Option<nat>, over: Option<nat>) {
    && IsBest(env, before, a.operation, a.demand, false, |env.operators|, free)
    && IsBest(env, before, a.operation, a.demand, true, |env.operators|, over)
    && (a.overlap <==> free.None? && env.allowOverlap)
    && a.chosen == (var pick := if a.overlap then over else free;
                    if pick.Some? && pick.value < |env.operators| then Some(env.operators[pick.value].0) else None)
  }

  ghost predicate AttemptOk(env: Env, before: seq<Attempt>, a: Attempt) {
    exists free: Option<nat>, over: Option<nat> :: Decides(env, before, a, free, over)
  }

  ghost predicate ValidLog(env: Env, log: seq<Attempt>) {
    && (forall k :: 0 <= k < |log| ==> Canonical(log[k].demand) && log[k].demand != [])
    && (forall k :: 0 <= k < |log| ==> AttemptOk(env, log[..k], log[k]))
  }

  function BusyRow(busy: map<Id, seq<Span>>, op: Id): seq<Span> { if op in busy then busy[op] else [] }

  ghost predicate ReservedAt(log: seq<Attempt>, op: Id, t: int) {
    exists j :: 0 <= j < |log| && log[j].chosen == Some(op) && Covers(log[j].demand, t)
  }

  /** Each calendar is in normal form and denotes exactly the instants claimed. */
  ghost predicate BusyIs(busy: map<Id, seq<Span>>, log: seq<Attempt>) {
    && (forall op :: Canonical(BusyRow(busy, op)))
    && (forall op, t :: Covers(BusyRow(busy, op), t) <==> ReservedAt(log, op, t))
  }

  lemma TakenIsOverlap(busy: map<Id, seq<Span>>, log: seq<Attempt>, op: Id, demand: seq<Span>)
    requires BusyIs(busy, log) && Canonical(demand)
    ensures Overlap(BusyRow(busy, op), demand) <==> Taken(log, op, demand)
  {
    hide Covers, Overlap;
    CanonicalIsNonEmpty(BusyRow(busy, op));
    CanonicalIsNonEmpty(demand);
    OverlapIsSharedInstant(BusyRow(busy, op), demand);
    if t :| Covers(BusyRow(busy, op), t) && Covers(demand, t) {
      assert ReservedAt(log, op, t);
      var j :| 0 <= j < |log| && log[j].chosen == Some(op) && Covers(log[j].demand, t);
      assert SharedInstant(log[j].demand, demand);
    }
    if Taken(log, op, demand) {
      var j :| 0 <= j < |log| && log[j].chosen == Some(op) && SharedInstant(log[j].demand, demand);
      var t :| Covers(log[j].demand, t) && Covers(demand, t);
      assert ReservedAt(log, op, t);
    }
  }

  lemma CanonicalIsNonEmpty(s: seq<Span>)
    requires Canonical(s)
    ensures NonEmptySpans(s)
  {
  }

  lemma ReservedNext(log: seq<Attempt>, a: Attempt, op: Id, t: int)
    ensures ReservedAt(log + [a], op, t) <==> ReservedAt(log, op, t) || (a.chosen == Some(op) && Covers(a.demand, t))
  {
    var next := log + [a];
    if j :| 0 <= j < |log| && log[j].chosen == Some(op) && Covers(log[j].demand, t) { assert next[j] == log[j]; }
    if a.chosen == Some(op) && Covers(a.demand, t) { assert next[|log|] == a; }
    if j :| 0 <= j < |next| && next[j].chosen == Some(op) && Covers(next[j].demand, t) {
      assert j < |log| ==> next[j] == log[j];
    }
  }

  lemma LogNext(env: Env, log: seq<Attempt>, a: Attempt)
    requires ValidLog(env, log) && Canonical(a.demand) && a.demand != [] && AttemptOk(env, log, a)
    ensures ValidLog(env, log + [a])
  {
    var next := log + [a];
    forall k | 0 <= k < |next| ensures AttemptOk(env, next[..k], next[k]) {
      assert next[..k] == if k < |log| then log[..k] else log;
    }
  }

  /** The backup_busy dictionary; the log is the history of calls that produced it. */
  class Ledger {
    var busy: map<Id, seq<Span>>
    ghost var log: seq<Attempt>

    ghost predicate Valid(env: Env)
      reads this
    {
      BusyIs(busy, log) && ValidLog(env, log)
    }

    constructor (ghost env: Env)
      ensures Valid(env) && log == []
    {
      busy, log := map[], [];
    }

    /** The scan over operators_by_id. */
    method Scan(env: Env, operation: string, demand: seq<Span>) returns (free: Option<nat>, over: Option<nat>)
      requires Valid(env) && Canonical(demand)
      ensures IsBest(env, log, operation, demand, false, |env.operators|, free)
      ensures IsBest(env, log, operation, demand, true, |env.operators|, over)
    {
      hide Taken, BusyIs, ValidLog;
      free, over := None, None;
      for k := 0 to |env.operators|
        invariant IsBest(env, log, operation, demand, false, k, free)
        invariant IsBest(env, log, operation, demand, true, k, over)
      {
        var id := env.operators[k].0;
        TakenIsOverlap(busy, log, id, demand);
        var overlaps := IntervalsOverlap(BusyRow(busy, id), demand);
        if id !in env.mainClaimed && operation in env.operators[k].1 {
          var score := Capacity(env, id);
          if overlaps {
            if score > (if over.Some? then Capacity(env, env.operators[over.value].0) else -1.0) { over := Some(k); }
          } else if score > (if free.Some? then Capacity(env, env.operators[free.value].0) else -1.0) {
            free := Some(k);
          }
        }
      }
    }

    method Claim(env: Env, ghost cluster: Id, operation: string, demand: seq<Span>)
      returns (chosen: Option<Id>, isOverlap: bool)
      requires Valid(env) && Canonical(demand) && demand != []
      modifies this
      ensures Valid(env) && log == old(log) + [Attempt(cluster, operation, demand, chosen, isOverlap)]
    {
      hide IsBest, ValidLog, BusyIs, Canonical;
      var free, over := Scan(env, operation, demand);
      isOverlap := free.None? && env.allowOverlap;
      var pick := if isOverlap then over else free;
      BestInRange(env, log, operation, demand, false, free);
      BestInRange(env, log, operation, demand, true, over);
      chosen := if pick.Some? then Some(env.operators[pick.value].0) else None;
      ghost var a := Attempt(cluster, operation, demand, chosen, isOverlap);
      assert Decides(env, log, a, free, over);
      LogNext(env, log, a);
      if chosen.Some? {
        var merged := MergeBusy(BusyRow(busy, chosen.value) + demand);
        Reserve(busy, log, a, merged);
        busy := busy[chosen.value := merged];
      } else {
        RefusalKeeps(busy, log, a);
      }
      log := log + [a];
    }
  }

  lemma BestInRange(env: Env, before: seq<Attempt>, operation: string, demand: seq<Span>, taken: bool,
                    best: Option<nat>)
    requires IsBest(env, before, operation, demand, taken, |env.operators|, best)
    ensures best.Some? ==> best.value < |env.operators|
  {
  }

  lemma Reserve(busy: map<Id, seq<Span>>, log: seq<Attempt>, a: Attempt, merged: seq<Span>)
    requires BusyIs(busy, log) && a.chosen.Some? && Canonical(a.demand)
    requires forall t :: Covers(merged, t) <==> Covers(BusyRow(busy, a.chosen.value) + a.demand, t)
    requires NonEmptySpans(BusyRow(busy, a.chosen.value) + a.demand) ==> Canonical(merged)
    ensures BusyIs(busy[a.chosen.value := merged], log + [a])
  {
    hide Covers;
    var op := a.chosen.value;
    var next := busy[op := merged];
    CanonicalIsNonEmpty(BusyRow(busy, op));
    CanonicalIsNonEmpty(a.demand);
    forall o, t ensures Covers(BusyRow(next, o), t) <==> ReservedAt(log + [a], o, t) {
      ReservedNext(log, a, o, t);
      CoversAppend(BusyRow(busy, op), a.demand, t);
    }
    forall o ensures Canonical(BusyRow(next, o)) {
      assert o != op ==> BusyRow(next, o) == BusyRow(busy, o);
    }
  }

  lemma RefusalKeeps(busy: map<Id, seq<Span>>, log: seq<Attempt>, a: Attempt)
    requires BusyIs(busy, log) && a.chosen.None?
    ensures BusyIs(busy, log + [a])
  {
    hide Covers;
    forall op, t ensures Covers(BusyRow(busy, op), t) <==> ReservedAt(log + [a], op, t) {
      ReservedNext(log, a, op, t);
    }
  }

  // ---- Theorems about a whole run -----------------------------------------------------------

  /** The winning operator's position, eligible as the call's kind demands. */
  lemma Winner(env: Env, before: seq<Attempt>, a: Attempt) returns (k: nat)
    requires AttemptOk(env, before, a) && a.chosen.Some?
    ensures k < |env.operators| && a.chosen == Some(env.operators[k].0)
    ensures Eligible(env, before, a.operation, a.demand, a.overlap, k)
    ensures a.overlap ==> env.allowOverlap
  {
    hide Eligible;
    var free: Option<nat>, over: Option<nat> :| Decides(env, before, a, free, over);
    k := if a.overlap then over.value else free.value;
  }

  lemma Refused(env: Env, before: seq<Attempt>, a: Attempt, k: nat)
    requires AttemptOk(env, before, a) && a.chosen.None? && k < |env.operators|
    ensures !Eligible(env, before, a.operation, a.demand, false, k)
    ensures env.allowOverlap ==> !Eligible(env, before, a.operation, a.demand, true, k)
  {
    hide Eligible;
    var free: Option<nat>, over: Option<nat> :| Decides(env, before, a, free, over);
  }

  /** A claim that is not an overlap share reserves instants nobody reserved before. */
  lemma ClaimIsDisjoint(env: Env, log: seq<Attempt>, i: nat, j: nat)
    requires ValidLog(env, log) && i < j < |log| && !log[j].overlap
    requires log[i].chosen.Some? && log[i].chosen == log[j].chosen
    ensures !SharedInstant(log[i].demand, log[j].demand)
  {
    hide SharedInstant;
    var k := Winner(env, log[..j], log[j]);
    assert log[..j][i] == log[i];
  }

  /** With overlap sharing off no operator is ever claimed twice for one instant. */
  lemma NeverDoubleBooked(env: Env, log: seq<Attempt>, i: nat, j: nat, t: int)
    requires ValidLog(env, log) && !env.allowOverlap && i < j < |log|
    requires log[i].chosen.Some? && log[i].chosen == log[j].chosen
    ensures !(Covers(log[i].demand, t) && Covers(log[j].demand, t))
  {
    var k := Winner(env, log[..j], log[j]);
    ClaimIsDisjoint(env, log, i, j);
  }

  /** A chosen backup is certified for the operation and is no cluster's prime operator. */
  lemma ChosenIsQualified(env: Env, log: seq<Attempt>, j: nat)
    requires ValidLog(env, log) && j < |log| && log[j].chosen.Some?
    ensures log[j].chosen.value !in env.mainClaimed
    ensures exists k: nat :: k < |env.operators| && env.operators[k].0 == log[j].chosen.value
                             && log[j].operation in env.operators[k].1
  {
    var k := Winner(env, log[..j], log[j]);
    assert Candidate(env, log[j].operation, k);
  }

  /** A claim goes to the freest candidate of its kind, the first of them on ties: one free over
      the demand, or for an overlap share one already claimed, and that only when none is free. */
  lemma ClaimIsFreest(env: Env, log: seq<Attempt>, j: nat, other: nat, c: real, d: real) returns (winner: nat)
    requires ValidLog(env, log) && j < |log| && log[j].chosen.Some?
    requires other < |env.operators| && Candidate(env, log[j].operation, other)
    requires Taken(log[..j], env.operators[other].0, log[j].demand) <==> log[j].overlap
    requires FreeShare(env, env.operators[other].0, d) && FreeShare(env, log[j].chosen.value, c)
    ensures winner < |env.operators| && log[j].chosen == Some(env.operators[winner].0)
    ensures Candidate(env, log[j].operation, winner)
    ensures Taken(log[..j], env.operators[winner].0, log[j].demand) <==> log[j].overlap
    ensures d <= c && (d == c ==> winner <= other)
    ensures log[j].overlap ==>
              env.allowOverlap && forall i: nat :: i < |env.operators| && Candidate(env, log[j].operation, i) ==>
                                                   Taken(log[..j], env.operators[i].0, log[j].demand)
  {
    hide Taken, Candidate;
    var before, a := log[..j], log[j];
    assert AttemptOk(env, before, a);
    var free: Option<nat>, over: Option<nat> :| Decides(env, before, a, free, over);
    winner := if a.overlap then over.value else free.value;
    assert Eligible(env, before, a.operation, a.demand, a.overlap, other);
    forall i: nat | i < |env.operators| && a.overlap && Candidate(env, a.operation, i)
      ensures Taken(before, env.operators[i].0, a.demand)
    {
      assert !Eligible(env, before, a.operation, a.demand, false, i);
    }
  }

  /** With overlap sharing off a demand is refused exactly when every qualified operator with
      a capacity above -1 is already reserved at some instant of it. */
  lemma RefusedIffNoneFree(env: Env, log: seq<Attempt>, j: nat)
    requires ValidLog(env, log) && j < |log| && !env.allowOverlap
    ensures log[j].chosen.None? <==>
            forall k: nat :: Candidate(env, log[j].operation, k) ==>
                               Taken(log[..j], env.operators[k].0, log[j].demand)
  {
    hide Taken;
    var before, a := log[..j], log[j];
    if a.chosen.Some? {
      var k := Winner(env, before, a);
      assert Candidate(env, a.operation, k) && !Taken(before, env.operators[k].0, a.demand);
    } else {
      forall k: nat | Candidate(env, a.operation, k) ensures Taken(before, env.operators[k].0, a.demand) {
        Refused(env, before, a, k);
      }
    }
  }

  /** Capacities as the planner's builder makes them. */
  ghost predicate UnitCapacities(env: Env) {
    forall op :: op in env.freeCapacity ==> 0.0 <= env.freeCapacity[op] <= 1.0
  }

  lemma BuiltCapacitiesAreUnit(env: Env, held: map<Id, seq<Span>>, start: int, end: int)
    requires forall op :: op in env.freeCapacity ==>
               op in held && F.IsCapacity(held[op], start, end, env.freeCapacity[op])
    ensures UnitCapacities(env)
  {
    forall op | op in env.freeCapacity ensures 0.0 <= env.freeCapacity[op] <= 1.0 {
      assert F.IsCapacity(held[op], start, end, env.freeCapacity[op]);
    }
  }

  /** With the planner's capacities every qualified operator is a candidate. */
  lemma QualifiedIsCandidate(env: Env, operation: string, k: nat)
    requires UnitCapacities(env)
    ensures Candidate(env, operation, k) <==> Qualified(env, operation, k)
  {
  }

  /** With the planner's capacities and overlap sharing off, a demand is refused exactly when
      every qualified operator is already reserved at some instant of it. */
  lemma RefusedIffQualifiedTaken(env: Env, log: seq<Attempt>, j: nat)
    requires UnitCapacities(env) && ValidLog(env, log) && j < |log| && !env.allowOverlap
    ensures log[j].chosen.None? <==>
            forall k: nat :: Qualified(env, log[j].operation, k) ==>
                               Taken(log[..j], env.operators[k].0, log[j].demand)
  {
    hide Taken, ValidLog;
    RefusedIffNoneFree(env, log, j);
    forall k: nat ensures Candidate(env, log[j].operation, k) <==> Qualified(env, log[j].operation, k) {
      QualifiedIsCandidate(env, log[j].operation, k);
    }
  }

  /** Nothing but that range keeps the scan honest: a capacity of -1 or less, which the builder
      never produces, would hide a qualified, wholly free operator. */
  lemma NegativeCapacityHides()
    ensures var env := Env([("op", {"MOW"})], {}, map["op" := -1.0], 0, 10, false);
            AttemptOk(env, [], Attempt("c", "MOW", [(0, 10)], None, false))
  {
    var env := Env([("op", {"MOW"})], {}, map["op" := -1.0], 0, 10, false);
    assert Decides(env, [], Attempt("c", "MOW", [(0, 10)], None, false), None, None);
  }
}
