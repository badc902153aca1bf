/** The greedy warm start: a one-sided maximal matching of orders to implements
    (src/fl_op/solver/greedy.py, greedy_assign and _assignment_order_priority). */
module Greedy {
  import opened Wrappers
  import opened Ordering

  type Id = string

  datatype Candidate = Candidate(score: real, vehicle: int, implement: int)
  /** One entry of the scored dictionary. */
  datatype Row = Row(oid: Id, candidates: seq<Candidate>)
  type Assignment = map<Id, Candidate>

  ghost predicate DistinctIds(rows: seq<Row>) {
    forall i, j :: 0 <= i < j < |rows| ==> rows[i].oid != rows[j].oid
  }

  // ---- _assignment_order_priority -----------------------------------------------------------------

  const NO_SECOND_SCORE := -1000000000000.0

  datatype Priority = Priority(empty: int, implements: int, regret: real, best: real, oid: Id)

  function Implements(candidates: seq<Candidate>): set<int> {
    set c | c in candidates :: c.implement
  }

  function PriorityOf(row: Row): Priority {
    var cs := row.candidates;
    if cs == [] then Priority(1, 0, 0.0, 0.0, row.oid)
    else
      var second := if |cs| > 1 then cs[1].score else NO_SECOND_SCORE;
      Priority(0, |Implements(cs)|, cs[0].score - second, cs[0].score, row.oid)
  }

  /** Python's tuple order on (empty, implements, -regret, -best, oid). */
  predicate PriorityLe(a: Priority, b: Priority) {
    if a.empty != b.empty then a.empty < b.empty
    else if a.implements != b.implements then a.implements < b.implements
    else if a.regret != b.regret then a.regret > b.regret
    else if a.best != b.best then a.best > b.best
    else StringLe(a.oid, b.oid)
  }

  predicate Before(a: Row, b: Row) { PriorityLe(PriorityOf(a), PriorityOf(b)) }

  /** How much is lost by taking the second best candidate; a lone one is all there is. */
  ghost function Regret(cs: seq<Candidate>): real
    requires cs != []
  {
    if |cs| == 1 then cs[0].score + 1000000000000.0 else cs[0].score - cs[1].score
  }

  /** a is served no later than b: orders without a candidate come last; then fewer implements to
      choose from, then more regret, then the better best score, then the smaller id. */
  ghost predicate Outranks(a: Row, b: Row) {
    var x, y := a.candidates, b.candidates;
    if x == [] then y == [] && StringLe(a.oid, b.oid)
    else if y == [] then true
    else
      var m, n := |set c | c in x :: c.implement|, |set c | c in y :: c.implement|;
      || m < n
      || (m == n && Regret(x) > Regret(y))
      || (m == n && Regret(x) == Regret(y) && x[0].score > y[0].score)
      || (m == n && Regret(x) == Regret(y) && x[0].score == y[0].score && StringLe(a.oid, b.oid))
  }

  lemma BeforeMeans(a: Row, b: Row)
    ensures Before(a, b) <==> Outranks(a, b)
  {
    hide StringLe;
  }

  lemma BeforeTotal(a: Row, b: Row)
    ensures Before(a, b) || Before(b, a)
    ensures Before(a, b) && Before(b, a) ==> a.oid == b.oid
  {
    StringLeTotal(a.oid, b.oid);
  }

  lemma BeforeTransitive(a: Row, b: Row, c: Row)
    requires Before(a, b) && Before(b, c)
    ensures Before(a, c)
  {
    if StringLe(a.oid, b.oid) && StringLe(b.oid, c.oid) { StringLeTransitive(a.oid, b.oid, c.oid); }
  }

  function Queue(scored: seq<Row>): seq<Row> { SortBy(Before, scored) }

  lemma QueueSorted(scored: seq<Row>)
    requires DistinctIds(scored)
    ensures SortedBy(Before, Queue(scored)) && DistinctIds(Queue(scored))
    ensures multiset(Queue(scored)) == multiset(scored)
    ensures forall i, j :: 0 <= i < j < |scored| ==> Outranks(Queue(scored)[i], Queue(scored)[j])
    ensures forall r :: r in scored <==> r in Queue(scored)
  {
    hide Before, Outranks;
    forall x, y ensures Before(x, y) <==> Outranks(x, y) { BeforeMeans(x, y); }
    forall x, y | x in scored && y in scored ensures Before(x, y) || Before(y, x) { BeforeTotal(x, y); }
    forall x, y, z | x in scored && y in scored && z in scored && Before(x, y) && Before(y, z) ensures Before(x, z) {
      BeforeTransitive(x, y, z);
    }
    SortBySorted(Before, scored);
    var queue := Queue(scored);
    SameMembers(queue, scored);
    PermutationDistinct(scored, queue);
    forall i, j | 0 <= i < j < |queue| ensures queue[i].oid != queue[j].oid {
      var p :| 0 <= p < |scored| && scored[p] == queue[i];
      var q :| 0 <= q < |scored| && scored[q] == queue[j];
    }
  }

  // ---- What the greedy pass promises ----------------------------------------------------------------

  /** implement i has gone to one of the first k orders. */
  ghost predicate Held(queue: seq<Row>, a: Assignment, k: nat, i: int) {
    exists j :: 0 <= j < k && j < |queue| && queue[j].oid in a && a[queue[j].oid].implement == i
  }

  /** Candidate c of the kth order is its first one whose implement is still free. */
  ghost predicate FirstFree(queue: seq<Row>, a: Assignment, k: nat, c: nat)
    requires k < |queue|
  {
    && c < |queue[k].candidates|
    && !Held(queue, a, k, queue[k].candidates[c].implement)
    && forall b :: 0 <= b < c ==> Held(queue, a, k, queue[k].candidates[b].implement)
  }

  /** The kth order got its first free candidate, or nothing because none was free. */
  ghost predicate Fair(queue: seq<Row>, a: Assignment, k: nat)
    requires k < |queue|
  {
    if queue[k].oid in a then
      exists c: nat :: FirstFree(queue, a, k, c) && a[queue[k].oid] == queue[k].candidates[c]
    else
      forall b :: 0 <= b < |queue[k].candidates| ==> Held(queue, a, k, queue[k].candidates[b].implement)
  }

  ghost predicate IsGreedy(queue: seq<Row>, a: Assignment, n: nat)
    requires n <= |queue|
  {
    && (forall oid :: oid in a ==> exists k :: 0 <= k < n && queue[k].oid == oid)
    && (forall k :: 0 <= k < n ==> Fair(queue, a, k))
  }

  /** Later orders do not disturb what the first k were given. */
  lemma HeldStays(queue: seq<Row>, a: Assignment, oid: Id, c: Candidate, k: nat, i: int)
    requires k <= |queue| && forall j :: 0 <= j < k ==> queue[j].oid != oid
    ensures Held(queue, a[oid := c], k, i) <==> Held(queue, a, k, i)
  {
    if j :| 0 <= j < k && queue[j].oid in a && a[queue[j].oid].implement == i { assert queue[j].oid in a[oid := c]; }
    if j :| 0 <= j < k && queue[j].oid in a[oid := c] && a[oid := c][queue[j].oid].implement == i {
      assert queue[j].oid != oid;
    }
  }

  lemma FairStays(queue: seq<Row>, a: Assignment, oid: Id, c: Candidate, k: nat)
    requires k < |queue| && forall j :: 0 <= j <= k ==> queue[j].oid != oid
    requires Fair(queue, a, k)
    ensures Fair(queue, a[oid := c], k)
  {
    hide Held;
    forall i ensures Held(queue, a[oid := c], k, i) <==> Held(queue, a, k, i) {
      HeldStays(queue, a, oid, c, k, i);
    }
    if queue[k].oid in a {
      var b: nat :| FirstFree(queue, a, k, b) && a[queue[k].oid] == queue[k].candidates[b];
      assert FirstFree(queue, a[oid := c], k, b);
    }
  }

  lemma GreedyStep(queue: seq<Row>, a: Assignment, k: nat, choice: Option<nat>)
    requires DistinctIds(queue) && k < |queue| && IsGreedy(queue, a, k)
    requires match choice
             case Some(c) => FirstFree(queue, a, k, c)
             case None => forall b :: 0 <= b < |queue[k].candidates| ==> Held(queue, a, k, queue[k].candidates[b].implement)
    ensures IsGreedy(queue, if choice.Some? then a[queue[k].oid := queue[k].candidates[choice.value]] else a, k + 1)
  {
    hide Held, Fair;
    var oid := queue[k].oid;
    if choice.Some? {
      var c := queue[k].candidates[choice.value];
      var next := a[oid := c];
      forall j: nat | j < k ensures Fair(queue, next, j) { FairStays(queue, a, oid, c, j); }
      assert Fair(queue, next, k) by { NewIsFair(queue, a, k, choice.value); }
      forall o | o in next ensures exists j :: 0 <= j < k + 1 && queue[j].oid == o {
        if o == oid { assert queue[k].oid == o; }
      }
    } else {
      assert Fair(queue, a, k) by { NoneIsFair(queue, a, k); }
    }
  }

  lemma NewIsFair(queue: seq<Row>, a: Assignment, k: nat, c: nat)
    requires DistinctIds(queue) && k < |queue| && FirstFree(queue, a, k, c)
    ensures Fair(queue, a[queue[k].oid := queue[k].candidates[c]], k)
  {
    hide Held;
    var next := a[queue[k].oid := queue[k].candidates[c]];
    forall i ensures Held(queue, next, k, i) <==> Held(queue, a, k, i) {
      HeldStays(queue, a, queue[k].oid, queue[k].candidates[c], k, i);
    }
    assert FirstFree(queue, next, k, c);
  }

  lemma NoneIsFair(queue: seq<Row>, a: Assignment, k: nat)
    requires DistinctIds(queue) && k < |queue| && IsGreedy(queue, a, k)
    requires forall b :: 0 <= b < |queue[k].candidates| ==> Held(queue, a, k, queue[k].candidates[b].implement)
    ensures Fair(queue, a, k)
  {
    hide Held;
    assert queue[k].oid !in a;
  }

  method GreedyAssign(scored: seq<Row>) returns (assignment: Assignment)
    requires DistinctIds(scored)
    ensures IsGreedy(Queue(scored), assignment, |scored|) && multiset(Queue(scored)) == multiset(scored)
    ensures forall i, j :: 0 <= i < j < |scored| ==> Outranks(Queue(scored)[i], Queue(scored)[j])
  {
    hide Held, IsGreedy, FirstFree, Before, Outranks;
    QueueSorted(scored);
    var queue := SortBy(Before, scored);
    var claimed: set<int> := {};
    assignment := map[];
    assert IsGreedy(queue, assignment, 0) && forall i :: i in claimed <==> Held(queue, assignment, 0, i) by {
      NobodyServed(queue, claimed);
    }
    for k := 0 to |queue|
      invariant IsGreedy(queue, assignment, k)
      invariant forall i :: i in claimed <==> Held(queue, assignment, k, i)
    {
      var candidates := queue[k].candidates;
      var c := 0;
      while c < |candidates| && candidates[c].implement in claimed
        invariant c <= |candidates| && forall b :: 0 <= b < c ==> candidates[b].implement in claimed
      {
        c := c + 1;
      }
      ghost var before, held := assignment, claimed;
      if c < |candidates| {
        assert FirstFree(queue, assignment, k, c) by { IsFirstFree(queue, assignment, k, c, claimed); }
        GreedyStep(queue, assignment, k, Some(c));
        claimed := claimed + {candidates[c].implement};
        assignment := assignment[queue[k].oid := candidates[c]];
      } else {
        GreedyStep(queue, assignment, k, None);
      }
      HeldNext(queue, before, k, if c < |candidates| then Some(candidates[c]) else None, held);
    }
  }

  lemma NobodyServed(queue: seq<Row>, claimed: set<int>)
    requires claimed == {}
    ensures IsGreedy(queue, map[], 0) && forall i :: i in claimed <==> Held(queue, map[], 0, i)
  {
  }

  lemma IsFirstFree(queue: seq<Row>, a: Assignment, k: nat, c: nat, claimed: set<int>)
    requires k < |queue| && c < |queue[k].candidates|
    requires forall i :: i in claimed <==> Held(queue, a, k, i)
    requires queue[k].candidates[c].implement !in claimed
    requires forall b :: 0 <= b < c ==> queue[k].candidates[b].implement in claimed
    ensures FirstFree(queue, a, k, c)
  {
  }

  lemma HeldNext(queue: seq<Row>, a: Assignment, k: nat, choice: Option<Candidate>, claimed: set<int>)
    requires DistinctIds(queue) && k < |queue| && IsGreedy(queue, a, k)
    requires forall i :: i in claimed <==> Held(queue, a, k, i)
    ensures var next := if choice.Some? then a[queue[k].oid := choice.value] else a;
            var more := if choice.Some? then claimed + {choice.value.implement} else claimed;
            forall i :: i in more <==> Held(queue, next, k + 1, i)
  {
    hide Fair;
    var next := if choice.Some? then a[queue[k].oid := choice.value] else a;
    var more := if choice.Some? then claimed + {choice.value.implement} else claimed;
    forall i ensures i in more <==> Held(queue, next, k + 1, i) {
      OneMoreHeld(queue, next, k, i);
      if choice.Some? { HeldStays(queue, a, queue[k].oid, choice.value, k, i); }
    }
  }

  lemma OneMoreHeld(queue: seq<Row>, a: Assignment, k: nat, i: int)
    requires k < |queue|
    ensures Held(queue, a, k + 1, i) <==>
            Held(queue, a, k, i) || (queue[k].oid in a && a[queue[k].oid].implement == i)
  {
  }

  // ---- Theorems -------------------------------------------------------------------------------------

  lemma ServedFirstFree(queue: seq<Row>, a: Assignment, k: nat) returns (c: nat)
    requires k < |queue| && IsGreedy(queue, a, |queue|) && queue[k].oid in a
    ensures FirstFree(queue, a, k, c) && a[queue[k].oid] == queue[k].candidates[c]
  {
    assert Fair(queue, a, k);
    c :| FirstFree(queue, a, k, c) && a[queue[k].oid] == queue[k].candidates[c];
  }

  /** No implement is used twice, and every order got one of its own candidates. */
  lemma NoImplementTwice(queue: seq<Row>, a: Assignment, x: Id, y: Id)
    requires DistinctIds(queue) && IsGreedy(queue, a, |queue|) && x in a && y in a
    ensures a[x].implement == a[y].implement ==> x == y
    ensures exists k :: 0 <= k < |queue| && queue[k].oid == x && a[x] in queue[k].candidates
  {
    var i :| 0 <= i < |queue| && queue[i].oid == x;
    var j :| 0 <= j < |queue| && queue[j].oid == y;
    var c := ServedFirstFree(queue, a, i);
    var d := ServedFirstFree(queue, a, j);
    if i < j { assert Held(queue, a, j, a[x].implement); }
    if j < i { assert Held(queue, a, i, a[y].implement); }
  }

  /** The candidates an order would have preferred to what it got. */
  ghost predicate Preferred(a: Assignment, row: Row, b: nat) {
    b < |row.candidates| && (row.oid in a ==> forall c :: 0 <= c <= b ==> row.candidates[c] != a[row.oid])
  }

  /** What an order would have preferred went to an order that comes before it in priority. */
  lemma LosesOnlyToPriority(scored: seq<Row>, a: Assignment, row: Row, b: nat) returns (holder: Row)
    requires DistinctIds(scored) && IsGreedy(Queue(scored), a, |scored|)
    requires row in scored && Preferred(a, row, b)
    ensures holder in scored && holder.oid in a && a[holder.oid].implement == row.candidates[b].implement
    ensures Outranks(holder, row) && !Outranks(row, holder)
  {
    hide Before, Outranks;
    forall x, y ensures Before(x, y) <==> Outranks(x, y) { BeforeMeans(x, y); }
    var queue := Queue(scored);
    QueueSorted(scored);
    var k :| 0 <= k < |queue| && queue[k] == row;
    assert Fair(queue, a, k);
    if row.oid in a {
      var c := ServedFirstFree(queue, a, k);
      assert row.candidates[c] == a[row.oid];
      assert b < c;
    }
    assert Held(queue, a, k, row.candidates[b].implement);
    var j :| 0 <= j < k && queue[j].oid in a && a[queue[j].oid].implement == row.candidates[b].implement;
    holder := queue[j];
    BeforeTotal(holder, row);
  }

  /** An order left out lost every candidate to an order with no more implements to choose from. */
  lemma ScarceLosesOnlyToScarcer(scored: seq<Row>, a: Assignment, row: Row, b: nat) returns (holder: Row)
    requires DistinctIds(scored) && IsGreedy(Queue(scored), a, |scored|)
    requires row in scored && row.oid !in a && b < |row.candidates|
    ensures holder in scored && holder.oid in a && a[holder.oid].implement == row.candidates[b].implement
    ensures |Implements(holder.candidates)| <= |Implements(row.candidates)|
  {
    holder := LosesOnlyToPriority(scored, a, row, b);
    QueueSorted(scored);
    NoImplementTwice(Queue(scored), a, holder.oid, holder.oid);
    var queue := Queue(scored);
    var k :| 0 <= k < |queue| && queue[k].oid == holder.oid && a[holder.oid] in queue[k].candidates;
    var p :| 0 <= p < |queue| && queue[p] == holder;
  }

  /** other serves its orders from their own candidates, no implement twice. */
  ghost predicate Matching(scored: seq<Row>, other: Assignment) {
    && (forall x :: x in other ==> exists k :: 0 <= k < |scored| && scored[k].oid == x && other[x] in scored[k].candidates)
    && (forall x, y :: x in other && y in other && other[x].implement == other[y].implement ==> x == y)
  }

  function UsedBy(a: Assignment, orders: set<Id>): set<int>
    requires orders <= a.Keys
  {
    set x | x in orders :: a[x].implement
  }

  lemma {:induction false} UsedAtMost(a: Assignment, orders: set<Id>)
    requires orders <= a.Keys
    ensures |UsedBy(a, orders)| <= |orders|
  {
    if orders != {} {
      var x :| x in orders;
      UsedAtMost(a, orders - {x});
      assert UsedBy(a, orders) == UsedBy(a, orders - {x}) + {a[x].implement};
    } else {
      assert UsedBy(a, orders) == {};
    }
  }

  lemma {:induction false} UsedExactly(a: Assignment, orders: set<Id>)
    requires orders <= a.Keys
    requires forall x, y :: x in orders && y in orders && a[x].implement == a[y].implement ==> x == y
    ensures |UsedBy(a, orders)| == |orders|
  {
    if orders != {} {
      var x :| x in orders;
      UsedExactly(a, orders - {x});
      assert UsedBy(a, orders) == UsedBy(a, orders - {x}) + {a[x].implement};
      assert a[x].implement !in UsedBy(a, orders - {x});
    } else {
      assert UsedBy(a, orders) == {};
    }
  }

  /** The greedy pass serves at least half as many orders as any other assignment. */
  lemma HalfOptimal(scored: seq<Row>, a: Assignment, other: Assignment)
    requires DistinctIds(scored) && IsGreedy(Queue(scored), a, |scored|) && Matching(scored, other)
    ensures |other| <= 2 * |a|
  {
    hide Fair, Before, IsGreedy;
    var left := other.Keys - a.Keys;
    forall i | i in UsedBy(other, left) ensures i in UsedBy(a, a.Keys) {
      var x :| x in left && other[x].implement == i;
      var k :| 0 <= k < |scored| && scored[k].oid == x && other[x] in scored[k].candidates;
      var b :| 0 <= b < |scored[k].candidates| && scored[k].candidates[b] == other[x];
      var holder := LosesOnlyToPriority(scored, a, scored[k], b);
    }
    UsedExactly(other, left);
    UsedAtMost(a, a.Keys);
    SubsetSize(UsedBy(other, left), UsedBy(a, a.Keys));
    SubsetSize(other.Keys, a.Keys + left);
    assert |a.Keys + left| == |a.Keys| + |left|;
  }

  lemma HeldAgree(queue: seq<Row>, a: Assignment, b: Assignment, k: nat, i: int)
    requires forall j :: 0 <= j < k && j < |queue| ==>
               (queue[j].oid in a <==> queue[j].oid in b) && (queue[j].oid in a ==> a[queue[j].oid] == b[queue[j].oid])
    ensures Held(queue, a, k, i) <==> Held(queue, b, k, i)
  {
  }

  lemma {:induction false} AgreeUpTo(queue: seq<Row>, a: Assignment, b: Assignment, n: nat)
    requires n <= |queue| && DistinctIds(queue)
    requires IsGreedy(queue, a, |queue|) && IsGreedy(queue, b, |queue|)
    ensures forall j :: 0 <= j < n ==>
              (queue[j].oid in a <==> queue[j].oid in b) && (queue[j].oid in a ==> a[queue[j].oid] == b[queue[j].oid])
  {
    hide Held;
    if n > 0 {
      var k := n - 1;
      AgreeUpTo(queue, a, b, k);
      forall i ensures Held(queue, a, k, i) <==> Held(queue, b, k, i) { HeldAgree(queue, a, b, k, i); }
      assert Fair(queue, a, k) && Fair(queue, b, k);
      if queue[k].oid in a { var c := ServedFirstFree(queue, a, k); }
      if queue[k].oid in b { var d := ServedFirstFree(queue, b, k); }
    }
  }

  /** The promise pins the assignment down. */
  lemma GreedyUnique(queue: seq<Row>, a: Assignment, b: Assignment)
    requires DistinctIds(queue) && IsGreedy(queue, a, |queue|) && IsGreedy(queue, b, |queue|)
    ensures a == b
  {
    hide Fair;
    AgreeUpTo(queue, a, b, |queue|);
    assert forall x :: x in a ==> x in b && a[x] == b[x];
    assert forall x :: x in b ==> x in a;
  }
}
