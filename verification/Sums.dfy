/** Python's `sum` over numbers and over conditions. */
module Sums {

  function Sum(v: seq<real>): (total: real)
    ensures v == [] ==> total == 0.0
    ensures |v| == 1 ==> total == v[0]
  {
    if v == [] then 0.0 else Sum(v[..|v| - 1]) + v[|v| - 1]
  }

  /** The total does not depend on how the terms are grouped. */
  lemma {:induction false} SumJoin(a: seq<real>, b: seq<real>)
    ensures Sum(a + b) == Sum(a) + Sum(b)
  {
    if b == [] {
      assert a + b == a;
    } else {
      SumJoin(a, b[..|b| - 1]);
      assert (a + b)[..|a + b| - 1] == a + b[..|b| - 1];
    }
  }

  /** Terms no larger give a total no larger. */
  lemma {:induction false} SumLe(a: seq<real>, b: seq<real>)
    requires |a| == |b| && forall k :: 0 <= k < |a| ==> a[k] <= b[k]
    ensures Sum(a) <= Sum(b)
  {
    if a != [] { SumLe(a[..|a| - 1], b[..|b| - 1]); }
  }

  /** Where the conditions hold. */
  ghost function Holding(flags: seq<bool>): (r: set<nat>) { set k: nat | k < |flags| && flags[k] }

  /** How many of the conditions hold. */
  function HowMany(flags: seq<bool>): (n: nat)
    ensures n == |Holding(flags)|
  {
    if flags == [] then
      assert Holding(flags) == {};
      0
    else
      var front, last := flags[..|flags| - 1], flags[|flags| - 1];
      assert Holding(flags) == Holding(front) + if last then {|flags| - 1} else {};
      HowMany(front) + (if last then 1 else 0)
  }
}
