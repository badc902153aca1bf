/** Splitting a group's solve time over its clusters
    (src/fl_op/solver/cluster_pool.py, _group_budgets and _cluster_budget_weight). */
module GroupBudgets {
  import opened Sums

  type Id = string

  const GROUP_MIN_CLUSTER_TIME_S := 5

  datatype Cluster = Cluster(clusterId: Id, penaltyPerDay: real, tasks: nat, vehicles: nat)

  /** Value times difficulty. */
  function Weight(c: Cluster): (w: real)
    ensures w >= 2.0
  {
    var penalty := if c.penaltyPerDay > 1.0 then c.penaltyPerDay else 1.0;
    var tasks := if c.tasks > 1 then c.tasks else 1;
    var vehicles := if c.vehicles > 1 then c.vehicles else 1;
    AtLeast(penalty, tasks * (vehicles + 1));
    penalty * (tasks * (vehicles + 1)) as real
  }

  lemma AtLeast(penalty: real, difficulty: int)
    requires penalty >= 1.0 && difficulty >= 2
    ensures penalty * difficulty as real >= 2.0
  {
    assert penalty * difficulty as real >= 1.0 * difficulty as real;
  }

  function TotalWeight(clusters: seq<Cluster>): (w: real)
    ensures w >= 2.0 * |clusters| as real
  {
    if clusters == [] then 0.0
    else TotalWeight(clusters[..|clusters| - 1]) + Weight(clusters[|clusters| - 1])
  }

  function Share(cap: int, weight: real, total: real): int
    requires total > 0.0
  {
    (cap as real * weight / total).Floor
  }

  function Total(budgets: seq<int>): int {
    if budgets == [] then 0 else Total(budgets[..|budgets| - 1]) + budgets[|budgets| - 1]
  }

  /** One cluster's budget under a cap: its share, raised to the floor. */
  function Budget(cap: int, weight: real, total: real): int
    requires total > 0.0
  {
    var share := Share(cap, weight, total);
    if share > GROUP_MIN_CLUSTER_TIME_S then share else GROUP_MIN_CLUSTER_TIME_S
  }

  ghost predicate Split(clusters: seq<Cluster>, cap: int, budgets: seq<int>) {
    && |budgets| == |clusters|
    && forall k :: 0 <= k < |clusters| ==>
         TotalWeight(clusters) > 0.0 && budgets[k] == Budget(cap, Weight(clusters[k]), TotalWeight(clusters))
  }

  /** The budgets by cluster id; of clusters with one id the last wins. */
  function Indexed(clusters: seq<Cluster>, budgets: seq<int>): map<Id, int>
    requires |budgets| == |clusters|
  {
    if clusters == [] then map[]
    else
      var n := |clusters| - 1;
      Indexed(clusters[..n], budgets[..n])[clusters[n].clusterId := budgets[n]]
  }

  // ---- What a split is --------------------------------------------------------------------------

  /** w is what is at stake, at least 1, times the size of the routing model: tasks times vehicles
      and one more, with at least one of each. */
  ghost predicate IsWeight(c: Cluster, w: real) {
    var stake := if c.penaltyPerDay >= 1.0 then c.penaltyPerDay else 1.0;
    var tasks := if c.tasks == 0 then 1 else c.tasks;
    var vehicles := if c.vehicles == 0 then 1 else c.vehicles;
    w == stake * (tasks * (vehicles + 1)) as real
  }

  /** b seconds are the whole seconds of the weight's part of the cap, or five where that is more. */
  ghost predicate IsShare(cap: int, weight: real, total: real, b: int) {
    && b >= 5 && cap as real * weight < (b + 1) as real * total
    && (b > 5 ==> b as real * total <= cap as real * weight)
  }

  ghost predicate WeightedSplit(clusters: seq<Cluster>, cap: int, budgets: seq<int>, weights: seq<real>) {
    && |budgets| == |clusters| == |weights|
    && forall k :: 0 <= k < |clusters| ==>
         IsWeight(clusters[k], weights[k]) && IsShare(cap, weights[k], Sum(weights), budgets[k])
  }

  function Weights(clusters: seq<Cluster>): (r: seq<real>)
    ensures |r| == |clusters| && forall k :: 0 <= k < |r| ==> r[k] == Weight(clusters[k])
  {
    seq(|clusters|, k requires 0 <= k < |clusters| => Weight(clusters[k]))
  }

  lemma {:induction false} WeightsSum(clusters: seq<Cluster>)
    ensures Sum(Weights(clusters)) == TotalWeight(clusters)
  {
    hide Weight;
    if clusters != [] {
      WeightsSum(clusters[..|clusters| - 1]);
      assert Weights(clusters)[..|clusters| - 1] == Weights(clusters[..|clusters| - 1]);
    }
  }

  lemma WeightIsWeight(c: Cluster)
    ensures IsWeight(c, Weight(c))
  {
  }

  lemma BudgetIsShare(cap: int, weight: real, total: real)
    requires total > 0.0 && weight >= 0.0 && cap > 0
    ensures IsShare(cap, weight, total, Budget(cap, weight, total))
  {
    var share, b := Share(cap, weight, total), Budget(cap, weight, total);
    var part := cap as real * weight / total;
    assert Product(part, total) == Product(cap as real, weight);
    ProductLe(share as real, part, total);
    ProductLe((b + 1) as real, part, total);
    assert part < (share + 1) as real;
  }

  lemma SplitIsWeighted(clusters: seq<Cluster>, cap: int, budgets: seq<int>)
    requires cap > 0 && Split(clusters, cap, budgets)
    ensures WeightedSplit(clusters, cap, budgets, Weights(clusters))
  {
    hide Weight, Budget, IsWeight, IsShare;
    WeightsSum(clusters);
    forall k | 0 <= k < |clusters|
      ensures IsWeight(clusters[k], Weights(clusters)[k])
      ensures IsShare(cap, Weights(clusters)[k], Sum(Weights(clusters)), budgets[k])
    {
      WeightIsWeight(clusters[k]);
      BudgetIsShare(cap, Weight(clusters[k]), TotalWeight(clusters));
    }
  }

  /** The kth cluster is the last one with its id. */
  ghost predicate LastOfId(clusters: seq<Cluster>, k: nat) {
    k < |clusters| && forall j :: k < j < |clusters| ==> clusters[j].clusterId != clusters[k].clusterId
  }

  /** Each id has the budget of the last cluster that carries it. */
  ghost predicate BudgetedById(clusters: seq<Cluster>, budgets: seq<int>, byId: map<Id, int>)
    requires |budgets| == |clusters|
  {
    && (forall k: nat :: LastOfId(clusters, k) ==>
          clusters[k].clusterId in byId && byId[clusters[k].clusterId] == budgets[k])
    && (forall id :: id in byId ==> exists k :: 0 <= k < |clusters| && clusters[k].clusterId == id)
  }

  lemma {:induction false} IndexedIs(clusters: seq<Cluster>, budgets: seq<int>)
    requires |budgets| == |clusters|
    ensures BudgetedById(clusters, budgets, Indexed(clusters, budgets))
  {
    hide Indexed;
    var byId := Indexed(clusters, budgets);
    forall k: nat | LastOfId(clusters, k)
      ensures clusters[k].clusterId in byId && byId[clusters[k].clusterId] == budgets[k]
    {
      IndexedAt(clusters, budgets, k);
    }
    forall id | id in byId ensures exists k :: 0 <= k < |clusters| && clusters[k].clusterId == id {
      var k := IndexedFrom(clusters, budgets, id);
    }
  }

  lemma {:induction false} IndexedAt(clusters: seq<Cluster>, budgets: seq<int>, k: nat)
    requires |budgets| == |clusters| && LastOfId(clusters, k)
    ensures clusters[k].clusterId in Indexed(clusters, budgets)
    ensures Indexed(clusters, budgets)[clusters[k].clusterId] == budgets[k]
  {
    var n := |clusters| - 1;
    if k < n {
      assert clusters[n].clusterId != clusters[k].clusterId;
      IndexedAt(clusters[..n], budgets[..n], k);
    }
  }

  lemma {:induction false} IndexedFrom(clusters: seq<Cluster>, budgets: seq<int>, id: Id) returns (k: nat)
    requires |budgets| == |clusters| && id in Indexed(clusters, budgets)
    ensures k < |clusters| && clusters[k].clusterId == id
  {
    var n := |clusters| - 1;
    if clusters[n].clusterId == id { k := n; } else { k := IndexedFrom(clusters[..n], budgets[..n], id); }
  }

  method Budgets(clusters: seq<Cluster>, perCluster: int, cap: int) returns (byId: map<Id, int>, budgets: seq<int>)
    ensures |budgets| == |clusters| && byId == Indexed(clusters, budgets)
    ensures BudgetedById(clusters, budgets, byId)
    ensures if cap <= 0 then forall k :: 0 <= k < |budgets| ==> budgets[k] == perCluster else Split(clusters, cap, budgets)
    ensures cap > 0 ==> exists weights :: WeightedSplit(clusters, cap, budgets, weights)
  {
    hide Budget, Weight, TotalWeight, WeightedSplit, BudgetedById;
    var total := SumWeights(clusters);
    byId, budgets := map[], [];
    for k := 0 to |clusters|
      invariant |budgets| == k && byId == Indexed(clusters[..k], budgets)
      invariant forall i :: 0 <= i < k ==>
                  budgets[i] == if cap <= 0 then perCluster else Budget(cap, Weight(clusters[i]), total)
    {
      var budget := if cap <= 0 then perCluster else Budget(cap, Weight(clusters[k]), total);
      ghost var before := budgets;
      byId := byId[clusters[k].clusterId := budget];
      budgets := budgets + [budget];
      assert clusters[..k + 1][..k] == clusters[..k] && budgets[..k] == before;
    }
    assert clusters[..|clusters|] == clusters;
    IndexedIs(clusters, budgets);
    if cap > 0 { SplitIsWeighted(clusters, cap, budgets); }
  }

  method SumWeights(clusters: seq<Cluster>) returns (total: real)
    ensures total == TotalWeight(clusters) && (clusters != [] ==> total > 0.0)
  {
    total := 0.0;
    for k := 0 to |clusters|
      invariant total == TotalWeight(clusters[..k])
    {
      assert clusters[..k + 1][..k] == clusters[..k];
      total := total + Weight(clusters[k]);
    }
    assert clusters[..|clusters|] == clusters;
  }

  ghost function Product(a: real, b: real): real { a * b }

  lemma ProductLe(a: real, b: real, c: real)
    requires c > 0.0
    ensures a <= b <==> Product(a, c) <= Product(b, c)
  {
    if a < b { assert (b - a) * c > 0.0; }
    if b < a { assert (a - b) * c > 0.0; }
  }

  lemma ProductAdds(a: real, b: real, c: real)
    ensures Product(a + b, c) == Product(a, c) + Product(b, c)
    ensures Product(c, a + b) == Product(c, a) + Product(c, b)
  {
  }

  lemma ShareBounds(cap: int, weight: real, total: real)
    requires total > 0.0 && weight >= 0.0 && cap >= 0
    ensures 0 <= Share(cap, weight, total)
    ensures Product(Share(cap, weight, total) as real, total) <= Product(cap as real, weight)
  {
    var part := cap as real * weight / total;
    assert Product(part, total) == Product(cap as real, weight);
    assert Product(0.0, total) <= Product(cap as real, weight);
    ProductLe(0.0, part, total);
    ProductLe(part.Floor as real, part, total);
  }

  /** What the clusters' shares come to, before any is raised. */
  function Shared(clusters: seq<Cluster>, cap: int, total: real): int
    requires total > 0.0
  {
    if clusters == [] then 0
    else
      Shared(clusters[..|clusters| - 1], cap, total) + Share(cap, Weight(clusters[|clusters| - 1]), total)
  }

  lemma {:induction false} SharesFit(clusters: seq<Cluster>, cap: int, total: real)
    requires cap >= 0 && total > 0.0
    ensures Product(Shared(clusters, cap, total) as real, total) <= Product(cap as real, TotalWeight(clusters))
  {
    if clusters == [] {
      assert Product(0.0, total) == 0.0 == Product(cap as real, 0.0);
    } else {
      hide Product, Share, Weight;
      var front, w := clusters[..|clusters| - 1], Weight(clusters[|clusters| - 1]);
      SharesFit(front, cap, total);
      ShareBounds(cap, w, total);
      ProductAdds(Shared(front, cap, total) as real, Share(cap, w, total) as real, total);
      ProductAdds(TotalWeight(front), w, cap as real);
      assert Shared(clusters, cap, total) as real == Shared(front, cap, total) as real + Share(cap, w, total) as real;
    }
  }

  /** Raising shares to the floor costs at most the floor per cluster, and nothing when every
      share reaches it. */
  lemma {:induction false} RaisedBy(clusters: seq<Cluster>, cap: int, total: real, budgets: seq<int>)
    requires total > 0.0 && cap >= 0 && |budgets| == |clusters|
    requires forall k :: 0 <= k < |clusters| ==> budgets[k] == Budget(cap, Weight(clusters[k]), total)
    ensures Total(budgets) <= Shared(clusters, cap, total) + GROUP_MIN_CLUSTER_TIME_S * |clusters|
    ensures (forall k :: 0 <= k < |clusters| ==> Share(cap, Weight(clusters[k]), total) >= GROUP_MIN_CLUSTER_TIME_S) ==>
              Total(budgets) == Shared(clusters, cap, total)
  {
    hide Share, Weight;
    if clusters != [] {
      var n := |clusters| - 1;
      RaisedBy(clusters[..n], cap, total, budgets[..n]);
      ShareBounds(cap, Weight(clusters[n]), total);
    }
  }

  /** A capped group gets at least the floor per cluster and, in sum, at most the cap plus the
      floor per cluster; it keeps to the cap when every share reaches the floor. */
  lemma BudgetsFit(clusters: seq<Cluster>, cap: int, budgets: seq<int>)
    requires clusters != [] && cap > 0 && Split(clusters, cap, budgets)
    ensures forall k :: 0 <= k < |budgets| ==> budgets[k] >= GROUP_MIN_CLUSTER_TIME_S
    ensures Total(budgets) <= cap + GROUP_MIN_CLUSTER_TIME_S * |clusters|
    ensures (forall k :: 0 <= k < |clusters| ==>
               Share(cap, Weight(clusters[k]), TotalWeight(clusters)) >= GROUP_MIN_CLUSTER_TIME_S) ==>
              Total(budgets) <= cap
  {
    hide Product, Weight, Share;
    var total := TotalWeight(clusters);
    SharesFit(clusters, cap, total);
    ProductLe(Shared(clusters, cap, total) as real, cap as real, total);
    RaisedBy(clusters, cap, total, budgets);
  }

  // ---- When a group keeps to its cap --------------------------------------------------------

  /** A group, its clusters listed once each, whose budgets come to more than the cap. */
  ghost predicate Exceeds(clusters: seq<Cluster>, cap: int, budgets: seq<int>) {
    && (forall i, j :: 0 <= i < j < |clusters| ==> clusters[i].clusterId != clusters[j].clusterId)
    && Split(clusters, cap, budgets) && Total(budgets) > cap
  }

  /** The cap bounds the solve time of every group of n clusters exactly when there is nothing to
      solve, or a lone cluster under a cap no lower than the floor. */
  lemma CapKeptIff(n: nat, cap: int)
    requires cap > 0
    ensures (forall clusters, budgets :: |clusters| == n ==> !Exceeds(clusters, cap, budgets)) <==>
            n == 0 || (n == 1 && cap >= GROUP_MIN_CLUSTER_TIME_S)
  {
    if n == 0 || (n == 1 && cap >= GROUP_MIN_CLUSTER_TIME_S) {
      forall clusters, budgets | |clusters| == n ensures !Exceeds(clusters, cap, budgets) {
        if n == 1 && Split(clusters, cap, budgets) { LoneBudget(clusters, cap, budgets); }
      }
    } else {
      var clusters := Skewed(n - 1, n * cap);
      SkewedWeight(n - 1, n * cap);
      var budgets := seq(n, k requires 0 <= k < n => Budget(cap, Weight(clusters[k]), TotalWeight(clusters)));
      assert Split(clusters, cap, budgets);
      if n == 1 { LoneBudget(clusters, cap, budgets); } else { SkewedTotal(n, cap, budgets); }
      assert Exceeds(clusters, cap, budgets);
    }
  }

  /** A cluster on its own gets the whole cap, raised to the floor. */
  lemma LoneBudget(clusters: seq<Cluster>, cap: int, budgets: seq<int>)
    requires |clusters| == 1 && Split(clusters, cap, budgets)
    ensures Total(budgets) == if cap > GROUP_MIN_CLUSTER_TIME_S then cap else GROUP_MIN_CLUSTER_TIME_S
  {
    var w := Weight(clusters[0]);
    assert clusters[..0] == [] && budgets[..0] == [];
    assert TotalWeight(clusters) == w;
    WholeShare(cap, w);
    assert budgets[0] == Budget(cap, w, w);
  }

  lemma WholeShare(cap: int, w: real)
    requires w > 0.0
    ensures Share(cap, w, w) == cap
  {
    assert Product(cap as real, w) / w == cap as real;
  }

  /** One heavy cluster in front of m light ones. */
  function Skewed(m: nat, heavy: nat): (clusters: seq<Cluster>)
    ensures |clusters| == m + 1
    ensures forall k :: 0 <= k <= m ==>
              |clusters[k].clusterId| == k
              && clusters[k].penaltyPerDay == (if k == 0 then heavy as real + 1.0 else 1.0)
              && clusters[k].tasks == clusters[k].vehicles == 1
  {
    if m == 0 then [Cluster("", heavy as real + 1.0, 1, 1)]
    else Skewed(m - 1, heavy) + [Cluster(seq(m, _ => 'c'), 1.0, 1, 1)]
  }

  lemma SmallWeight(c: Cluster)
    requires c.tasks == c.vehicles == 1 && c.penaltyPerDay >= 1.0
    ensures Weight(c) == 2.0 * c.penaltyPerDay
  {
  }

  lemma {:induction false} SkewedWeight(m: nat, heavy: nat)
    ensures TotalWeight(Skewed(m, heavy)) == 2.0 * (heavy + 1 + m) as real
  {
    var clusters := Skewed(m, heavy);
    if m == 0 {
      assert TotalWeight(clusters[..0]) == 0.0;
    } else {
      SkewedWeight(m - 1, heavy);
      assert clusters[..m] == Skewed(m - 1, heavy);
    }
  }

  /** The heavy cluster keeps all but a second of the cap and every light one gets the floor. */
  lemma SkewedTotal(n: nat, cap: int, budgets: seq<int>)
    requires n >= 2 && cap > 0 && Split(Skewed(n - 1, n * cap), cap, budgets)
    ensures Total(budgets) > cap
  {
    hide Weight, TotalWeight, Share, Skewed;
    SkewedWeight(n - 1, n * cap);
    var total := TotalWeight(Skewed(n - 1, n * cap));
    var weight := Weight(Skewed(n - 1, n * cap)[0]);
    SmallWeight(Skewed(n - 1, n * cap)[0]);
    HeavyShare(n, cap, weight, total);
    AllAtLeast(budgets, cap - 1);
  }

  lemma HeavyShare(n: nat, cap: int, weight: real, total: real)
    requires n >= 2 && cap > 0
    requires total == 2.0 * (n * cap + n) as real && weight == 2.0 * (n * cap + 1) as real
    ensures total > 0.0 && Share(cap, weight, total) >= cap - 1
  {
    var left := (cap - 1) as real;
    assert total > 0.0;
    assert (cap - 1) * (n * cap + n) <= cap * (n * cap + 1);
    assert left * total <= cap as real * weight;
    Divided(left, cap as real * weight, total);
  }

  lemma Divided(a: real, b: real, c: real)
    requires c > 0.0 && a * c <= b
    ensures a <= b / c
  {
    var part := b / c;
    assert Product(part, c) == b;
    ProductLe(a, part, c);
  }

  lemma {:induction false} AllAtLeast(budgets: seq<int>, first: int)
    requires budgets != [] && budgets[0] >= first
    requires forall k :: 1 <= k < |budgets| ==> budgets[k] >= GROUP_MIN_CLUSTER_TIME_S
    ensures Total(budgets) >= first + GROUP_MIN_CLUSTER_TIME_S * (|budgets| - 1)
  {
    var n := |budgets| - 1;
    if n == 0 {
      assert Total(budgets[..0]) == 0;
    } else {
      AllAtLeast(budgets[..n], first);
    }
  }

  /** The cap alone is exceeded: two light clusters under a cap of 4 seconds get 10. */
  lemma CapCanBeExceeded(budgets: seq<int>)
    requires Split([Cluster("a", 0.0, 1, 1), Cluster("b", 0.0, 1, 1)], 4, budgets)
    ensures Total(budgets) == 10
  {
    var clusters := [Cluster("a", 0.0, 1, 1), Cluster("b", 0.0, 1, 1)];
    forall k | 0 <= k < 2 ensures budgets[k] == 5 {
      BudgetsFit(clusters, 4, budgets);
      assert clusters[..1] == [clusters[0]] && TotalWeight([clusters[0]][..0]) == 0.0;
      assert TotalWeight(clusters) == 4.0;
    }
    assert budgets == [5, 5];
    assert budgets[..1] == [5] && Total([5][..0]) == 0;
  }
}
