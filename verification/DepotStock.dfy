/** Charging a queue of material demands against one depot's stock: the arithmetic of
    admission (src/fl_op/solver/enforcement.py, apply_material_limits). */
module DepotStock {
  type Id = string

  datatype Demand = Demand(task: Id, material: string, penalty: real, amount: real)

  datatype Verdict = Free | Charged | Refused

  /** What is left of stock after the queue has been served in order. */
  function Level(stock: real, queue: seq<Demand>): real {
    if queue == [] then stock
    else
      var before, last := Level(stock, queue[..|queue| - 1]), queue[|queue| - 1];
      if 0.0 < last.amount <= before then before - last.amount else before
  }

  /** How demand i of the queue is answered. */
  function VerdictAt(stock: real, queue: seq<Demand>, i: nat): Verdict
    requires i < |queue|
  {
    if queue[i].amount <= 0.0 then Free
    else if queue[i].amount <= Level(stock, queue[..i]) then Charged
    else Refused
  }

  function ChargedSum(stock: real, queue: seq<Demand>): real {
    if queue == [] then 0.0
    else
      var n := |queue| - 1;
      ChargedSum(stock, queue[..n]) + (if VerdictAt(stock, queue, n) == Charged then queue[n].amount else 0.0)
  }

  /** Nothing is lost: stock is what remains plus what was charged. */
  lemma {:induction false} Conservation(stock: real, queue: seq<Demand>)
    ensures stock == Level(stock, queue) + ChargedSum(stock, queue)
    ensures 0.0 <= ChargedSum(stock, queue)
    ensures stock >= 0.0 ==> Level(stock, queue) >= 0.0
    ensures stock < 0.0 ==> Level(stock, queue) == stock
  {
    if queue != [] { Conservation(stock, queue[..|queue| - 1]); }
  }

  lemma {:induction false} LevelFalls(stock: real, queue: seq<Demand>, i: nat)
    requires i <= |queue|
    ensures Level(stock, queue) <= Level(stock, queue[..i])
  {
    if i < |queue| {
      LevelFalls(stock, queue[..|queue| - 1], i);
      assert queue[..|queue| - 1][..i] == queue[..i];
    } else {
      assert queue[..i] == queue;
    }
  }

  /** A refused demand does not fit what is left once everything has been served. */
  lemma RefusedNeverFits(stock: real, queue: seq<Demand>, i: nat)
    requires i < |queue| && VerdictAt(stock, queue, i) == Refused
    ensures queue[i].amount > Level(stock, queue)
  {
    LevelFalls(stock, queue, i);
  }

  /** A demand served after a refused one is smaller: no refused task is overtaken by a task
      that needs as much. */
  lemma OvertakenOnlyBySmaller(stock: real, queue: seq<Demand>, i: nat, j: nat)
    requires i < j < |queue|
    requires VerdictAt(stock, queue, i) == Refused && VerdictAt(stock, queue, j) == Charged
    ensures queue[j].amount < queue[i].amount
  {
    LevelFalls(stock, queue[..j], i);
    assert queue[..j][..i] == queue[..i];
  }

  /** Serving two queues in turn is serving them joined. */
  lemma {:induction false} LevelJoin(stock: real, a: seq<Demand>, b: seq<Demand>)
    ensures Level(stock, a + b) == Level(Level(stock, a), b)
  {
    if b == [] {
      assert a + b == a;
    } else {
      var front := b[..|b| - 1];
      LevelJoin(stock, a, front);
      assert (a + b)[..|a + b| - 1] == a + front;
      assert Level(stock, (a + b)[..|a + b| - 1]) == Level(Level(stock, a), front);
    }
  }

  /** The stock a queue needs so that nothing in it is refused. */
  function Need(queue: seq<Demand>): real {
    if queue == [] then 0.0
    else Need(queue[1..]) + (if queue[0].amount > 0.0 then queue[0].amount else 0.0)
  }

  lemma {:induction false} NeedIsNatural(queue: seq<Demand>)
    ensures Need(queue) >= 0.0
  {
    if queue != [] { NeedIsNatural(queue[1..]); }
  }

  /** A queue served from what it needs plus spare leaves exactly spare. */
  lemma {:induction false} LevelOfNeed(queue: seq<Demand>, spare: real)
    requires spare >= 0.0
    ensures Level(Need(queue) + spare, queue) == spare
  {
    if queue != [] {
      NeedIsNatural(queue[1..]);
      var stock := Need(queue) + spare;
      assert queue == [queue[0]] + queue[1..];
      LevelJoin(stock, [queue[0]], queue[1..]);
      assert Level(stock, [queue[0]]) == Need(queue[1..]) + spare by {
        assert [queue[0]][..0] == [];
        assert Level(stock, [queue[0]][..0]) == stock;
      }
      LevelOfNeed(queue[1..], spare);
    }
  }

  /** One demand listed twice can be both charged and refused. */
  lemma RepeatedDemandSplits(queue: seq<Demand>, i: nat, j: nat) returns (stock: real)
    requires i < j < |queue| && 0.0 < queue[i].amount <= queue[j].amount
    ensures stock >= 0.0 && VerdictAt(stock, queue, i) == Charged && VerdictAt(stock, queue, j) == Refused
  {
    stock := Need(queue[..i]) + queue[i].amount;
    NeedIsNatural(queue[..i]);
    LevelOfNeed(queue[..i], queue[i].amount);
    assert queue[..i + 1][..i] == queue[..i];
    assert Level(stock, queue[..i + 1]) == 0.0;
    LevelFalls(stock, queue[..j], i + 1);
    assert queue[..j][..i + 1] == queue[..i + 1];
  }

  // ---- round(demand, 2) ---------------------------------------------------------------------------

  /** Nearest hundredth, ties to the even one. */
  function RoundHundredth(x: real): real {
    var scaled := x * 100.0;
    var low := scaled.Floor;
    var rest := scaled - low as real;
    (if rest < 0.5 || (rest == 0.5 && low % 2 == 0) then low as real else low as real + 1.0) / 100.0
  }

  lemma RoundedClose(x: real)
    ensures -0.005 <= RoundHundredth(x) - x <= 0.005
  {
    var scaled := x * 100.0;
    assert 0.0 <= scaled - scaled.Floor as real < 1.0;
  }

  /** The result is a whole number of hundredths, the even one where two are equally near. */
  lemma RoundedIsHundredths(x: real) returns (n: int)
    ensures RoundHundredth(x) == n as real / 100.0
    ensures RoundHundredth(x) - x == 0.005 || x - RoundHundredth(x) == 0.005 ==> n % 2 == 0
  {
    var scaled := x * 100.0;
    var low := scaled.Floor;
    var rest := scaled - low as real;
    n := if rest < 0.5 || (rest == 0.5 && low % 2 == 0) then low else low + 1;
    assert 0.0 <= rest < 1.0;
  }
}
