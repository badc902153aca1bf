/** Operator-sharing groups: connected components of clusters that list a common shared backup
    operator (src/fl_op/solver/cluster_pool.py, _operator_sharing_groups). */
module OperatorGroups {
  import opened DisjointSets
  import opened Ordering
  import opened Tables

  datatype Cluster = Cluster(clusterId: Id, sharedBackups: seq<Id>)

  // ---- Links -----------------------------------------------------------------------------

  type Relation = iset<(Id, Id)>

  ghost predicate Step(r: Relation, x: Id, y: Id) { (x, y) in r || (y, x) in r }

  ghost predicate StepAt(r: Relation, p: seq<Id>, i: int) {
    0 <= i < |p| - 1 ==> Step(r, p[i], p[i + 1])
  }

  ghost predicate Chain(r: Relation, p: seq<Id>) {
    |p| >= 1 && forall i :: StepAt(r, p, i)
  }

  ghost predicate ChainFrom(r: Relation, p: seq<Id>, x: Id, y: Id) {
    Chain(r, p) && p[0] == x && p[|p| - 1] == y
  }

  /** x and y are joined by a chain of related clusters, in either direction. */
  ghost predicate Linked(r: Relation, x: Id, y: Id) { exists p :: ChainFrom(r, p, x, y) }

  lemma LinkedRefl(r: Relation, x: Id)
    ensures Linked(r, x, x)
  {
    assert ChainFrom(r, [x], x, x);
  }

  lemma LinkedStep(r: Relation, x: Id, y: Id)
    requires Step(r, x, y)
    ensures Linked(r, x, y) && Linked(r, y, x)
  {
    assert ChainFrom(r, [x, y], x, y) && ChainFrom(r, [y, x], y, x);
  }

  lemma LinkedTrans(r: Relation, x: Id, y: Id, z: Id)
    requires Linked(r, x, y) && Linked(r, y, z)
    ensures Linked(r, x, z)
  {
    var p :| ChainFrom(r, p, x, y);
    var q :| ChainFrom(r, q, y, z);
    var s := p + q[1..];
    forall i ensures StepAt(r, s, i) {
      assert StepAt(r, p, i) && StepAt(r, q, i - |p| + 1);
      if |p| - 1 <= i < |s| - 1 { assert s[i] == q[i - |p| + 1] && s[i + 1] == q[i - |p| + 2]; }
    }
    assert ChainFrom(r, s, x, z);
  }

  lemma LinkedSym(r: Relation, x: Id, y: Id)
    requires Linked(r, x, y)
    ensures Linked(r, y, x)
  {
    var p :| ChainFrom(r, p, x, y);
    var q := seq(|p|, i requires 0 <= i < |p| => p[|p| - 1 - i]);
    forall i ensures StepAt(r, q, i) {
      assert StepAt(r, p, |p| - 2 - i);
    }
    assert ChainFrom(r, q, y, x);
  }

  lemma ChainSteps(r: Relation, p: seq<Id>)
    requires Chain(r, p) && |p| > 1
    ensures Step(r, p[0], p[1]) && Step(r, p[|p| - 2], p[|p| - 1]) && Chain(r, p[..|p| - 1])
  {
    assert StepAt(r, p, 0) && StepAt(r, p, |p| - 2);
    var front := p[..|p| - 1];
    forall i ensures StepAt(r, front, i) { assert StepAt(r, p, i); }
  }

  /** Links only depend on the one-step links. */
  lemma {:induction false} ChainTransfers(r: Relation, s: Relation, p: seq<Id>)
    requires Chain(r, p) && forall x, y :: Step(r, x, y) ==> Linked(s, x, y)
    ensures Linked(s, p[0], p[|p| - 1])
  {
    if |p| == 1 {
      LinkedRefl(s, p[0]);
    } else {
      ChainSteps(r, p);
      ChainTransfers(r, s, p[..|p| - 1]);
      LinkedTrans(s, p[0], p[|p| - 2], p[|p| - 1]);
    }
  }

  // ---- Representatives denote the links ------------------------------------------------------

  ghost predicate Touched(r: Relation, x: Id) { exists y :: Step(r, x, y) }

  ghost predicate Rooted(rep: map<Id, Id>, r: Relation, x: Id) {
    x in rep ==> Linked(r, x, rep[x]) && Touched(r, x)
  }

  ghost predicate Represents(rep: map<Id, Id>, r: Relation) {
    && (forall x, y :: Step(r, x, y) ==> x in rep && y in rep && rep[x] == rep[y])
    && (forall x :: Rooted(rep, r, x))
  }

  lemma {:induction false} ChainSameRep(rep: map<Id, Id>, r: Relation, p: seq<Id>)
    requires Represents(rep, r) && Chain(r, p) && p[0] in rep
    ensures p[|p| - 1] in rep && rep[p[|p| - 1]] == rep[p[0]]
  {
    if |p| > 1 {
      ChainSteps(r, p);
      ChainSameRep(rep, r, p[..|p| - 1]);
    }
  }

  /** Two known clusters have one representative exactly when they are linked. */
  lemma SameRepIffLinked(rep: map<Id, Id>, r: Relation, x: Id, y: Id)
    requires Represents(rep, r) && x in rep && y in rep
    ensures rep[x] == rep[y] <==> Linked(r, x, y)
  {
    if rep[x] == rep[y] {
      assert Rooted(rep, r, x) && Rooted(rep, r, y);
      LinkedSym(r, y, rep[y]);
      LinkedTrans(r, x, rep[x], y);
    }
    if Linked(r, x, y) {
      var p :| ChainFrom(r, p, x, y);
      ChainSameRep(rep, r, p);
    }
  }

  lemma LinkedGrows(r: Relation, s: Relation, x: Id, y: Id)
    requires r <= s && Linked(r, x, y)
    ensures Linked(s, x, y)
  {
    var p :| ChainFrom(r, p, x, y);
    forall i ensures StepAt(s, p, i) { assert StepAt(r, p, i); }
    assert ChainFrom(s, p, x, y);
  }

  lemma WithNodeLinked(rep: map<Id, Id>, r: Relation, s: Relation, a: Id, b: Id, x: Id)
    requires Represents(rep, r) && r <= s && (x in rep || x == a || x == b)
    ensures var both := WithNode(WithNode(rep, a), b); x in both && Linked(s, x, both[x])
  {
    if x in rep {
      assert Rooted(rep, r, x);
      LinkedGrows(r, s, x, rep[x]);
    } else {
      LinkedRefl(s, x);
    }
  }

  lemma UnionLinks(rep: map<Id, Id>, r: Relation, a: Id, b: Id, x: Id)
    requires Represents(rep, r) && x in Joined(rep, a, b)
    ensures Linked(r + iset{(a, b)}, x, Joined(rep, a, b)[x])
  {
    hide Linked, Represents;
    var s := r + iset{(a, b)};
    var both := WithNode(WithNode(rep, a), b);
    WithNodeLinked(rep, r, s, a, b, a);
    WithNodeLinked(rep, r, s, a, b, b);
    WithNodeLinked(rep, r, s, a, b, x);
    if both[x] == both[b] {
      LinkedStep(s, a, b);
      LinkedSym(s, b, both[b]);
      LinkedTrans(s, x, both[b], b);
      LinkedTrans(s, x, b, a);
      LinkedTrans(s, x, a, both[a]);
    }
  }

  /** union(a, b) adds exactly the link between a and b. */
  lemma UnionAddsLink(rep: map<Id, Id>, r: Relation, a: Id, b: Id)
    requires Represents(rep, r)
    ensures Represents(Joined(rep, a, b), r + iset{(a, b)})
  {
    hide Linked, Touched, Joined, Step;
    var s := r + iset{(a, b)};
    var joined := Joined(rep, a, b);
    forall x | x in joined ensures Linked(s, x, joined[x]) && Touched(s, x) {
      UnionLinks(rep, r, a, b, x);
      UnionTouches(rep, r, a, b, x);
    }
    forall x, y | Step(s, x, y) ensures x in joined && y in joined && joined[x] == joined[y] {
      UnionRespectsSteps(rep, r, a, b, x, y);
    }
  }

  lemma UnionRespectsSteps(rep: map<Id, Id>, r: Relation, a: Id, b: Id, x: Id, y: Id)
    requires Represents(rep, r) && Step(r + iset{(a, b)}, x, y)
    ensures var joined := Joined(rep, a, b);
            x in joined && y in joined && joined[x] == joined[y]
  {
    if Step(r, x, y) {
      assert x in rep && y in rep && rep[x] == rep[y];
    } else {
      assert (x, y) == (a, b) || (y, x) == (a, b);
    }
  }

  lemma UnionTouches(rep: map<Id, Id>, r: Relation, a: Id, b: Id, x: Id)
    requires Represents(rep, r) && (x in rep || x == a || x == b)
    ensures Touched(r + iset{(a, b)}, x)
  {
    var s := r + iset{(a, b)};
    if x in rep {
      assert Rooted(rep, r, x);
      var y :| Step(r, x, y);
      assert Step(s, x, y);
    } else {
      assert Step(s, a, b) && Step(s, b, a);
    }
  }

  // ---- Sharing an operator -----------------------------------------------------------------

  ghost predicate Lists(clusters: seq<Cluster>, x: Id, operator: Id) {
    exists k :: 0 <= k < |clusters| && clusters[k].clusterId == x && operator in clusters[k].sharedBackups
  }

  ghost predicate Share(clusters: seq<Cluster>, x: Id, y: Id) {
    exists operator :: Lists(clusters, x, operator) && Lists(clusters, y, operator)
  }

  ghost function Sharing(clusters: seq<Cluster>): Relation {
    iset x: Id, y: Id | Share(clusters, x, y) :: (x, y)
  }

  /** claimants[op] lists the clusters naming op. */
  ghost predicate Claims(claimants: map<Id, seq<Id>>, clusters: seq<Cluster>) {
    && (forall op, x :: InTable(claimants, op, x) <==> Lists(clusters, x, op))
    && NoEmptyRow(claimants)
  }

  /** Every claimant of the operators done is united with its operator's first claimant, and
      nothing else is united. */
  ghost predicate United(r: Relation, claimants: map<Id, seq<Id>>, done: set<Id>) {
    && (forall op, x :: op in done && op in claimants && x in claimants[op] ==>
          x == claimants[op][0] || (claimants[op][0], x) in r)
    && (forall e :: e in r ==> exists op :: op in claimants && e.0 in claimants[op] && e.1 in claimants[op])
  }

  lemma UnitedIsSharing(r: Relation, claimants: map<Id, seq<Id>>, clusters: seq<Cluster>, x: Id, y: Id)
    requires Claims(claimants, clusters) && United(r, claimants, claimants.Keys)
    ensures Linked(r, x, y) <==> Linked(Sharing(clusters), x, y)
  {
    var s := Sharing(clusters);
    forall u, v | Step(r, u, v) ensures Linked(s, u, v) {
      var e := if (u, v) in r then (u, v) else (v, u);
      var op :| op in claimants && e.0 in claimants[op] && e.1 in claimants[op];
      assert InTable(claimants, op, e.0) && InTable(claimants, op, e.1);
      assert Share(clusters, e.0, e.1);
      LinkedStep(s, e.0, e.1);
    }
    forall u, v | Step(s, u, v) ensures Linked(r, u, v) {
      SharersAreLinked(r, claimants, clusters, u, v);
    }
    if Linked(r, x, y) {
      var p :| ChainFrom(r, p, x, y);
      ChainTransfers(r, s, p);
    }
    if Linked(s, x, y) {
      var p :| ChainFrom(s, p, x, y);
      ChainTransfers(s, r, p);
    }
  }

  lemma SharersAreLinked(r: Relation, claimants: map<Id, seq<Id>>, clusters: seq<Cluster>, u: Id, v: Id)
    requires Claims(claimants, clusters) && United(r, claimants, claimants.Keys)
    requires Step(Sharing(clusters), u, v)
    ensures Linked(r, u, v)
    ensures u != v ==> Touched(r, u)
  {
    var op :| Lists(clusters, u, op) && Lists(clusters, v, op);
    assert InTable(claimants, op, u) && InTable(claimants, op, v);
    var first := claimants[op][0];
    forall w | w in claimants[op] ensures Linked(r, first, w) && Linked(r, w, first) {
      if w == first { LinkedRefl(r, w); } else { LinkedStep(r, first, w); }
    }
    assert u in claimants[op] && v in claimants[op];
    LinkedTrans(r, u, first, v);
    if u != v {
      assert Step(r, u, if u == first then v else first);
    }
  }

  // ---- The result ----------------------------------------------------------------------------

  function IdsOf(clusters: seq<Cluster>): (ids: seq<Id>)
    ensures |ids| == |clusters| && forall k :: 0 <= k < |ids| ==> ids[k] == clusters[k].clusterId
  {
    seq(|clusters|, k requires 0 <= k < |clusters| => clusters[k].clusterId)
  }

  function Count(ids: seq<Id>, x: Id): nat { multiset(ids)[x] }

  /** The returned groups are the linked classes of at least two clusters, each cluster listed
      as often as it was given. */
  ghost predicate AreSharingGroups(groups: seq<seq<Id>>, clusters: seq<Cluster>) {
    && (forall g :: 0 <= g < |groups| ==> |groups[g]| >= 2)
    && (forall g, x :: 0 <= g < |groups| && x in groups[g] ==> Count(groups[g], x) == Count(IdsOf(clusters), x))
    && (forall g, x :: 0 <= g < |groups| && x in groups[g] ==> IsCluster(clusters, x))
    && (forall g, x, y :: 0 <= g < |groups| && x in groups[g] && y in groups[g] ==> Linked(Sharing(clusters), x, y))
    && (forall g, x, y ::
          0 <= g < |groups| && x in groups[g] && IsCluster(clusters, y) && Linked(Sharing(clusters), x, y) ==>
            y in groups[g])
    && (forall x, y ::
          IsCluster(clusters, x) && IsCluster(clusters, y) && x != y && Linked(Sharing(clusters), x, y) ==>
            exists g :: 0 <= g < |groups| && x in groups[g] && y in groups[g])
    && (forall g, h, x :: 0 <= g < h < |groups| && x in groups[g] ==> x !in groups[h])
  }

  ghost predicate IsCluster(clusters: seq<Cluster>, x: Id) {
    exists k :: 0 <= k < |clusters| && clusters[k].clusterId == x
  }

  /** With distinct cluster ids no group repeats a cluster: it has two different members at
      least. */
  lemma GroupsAreDistinct(groups: seq<seq<Id>>, clusters: seq<Cluster>)
    requires AreSharingGroups(groups, clusters) && Distinct(IdsOf(clusters))
    ensures forall g :: 0 <= g < |groups| ==> Distinct(groups[g]) && groups[g][0] != groups[g][1]
  {
    hide Linked, IsCluster;
    DistinctCounts(IdsOf(clusters));
    forall g | 0 <= g < |groups| ensures Distinct(groups[g]) {
      forall x | x in groups[g] ensures Count(groups[g], x) <= 1 {
        assert Count(groups[g], x) == Count(IdsOf(clusters), x) == multiset(IdsOf(clusters))[x];
      }
      OnceIsDistinct(groups[g]);
    }
  }

  lemma OnceIsDistinct(ids: seq<Id>)
    requires forall x :: x in ids ==> Count(ids, x) <= 1
    ensures Distinct(ids)
  {
    forall i, j | 0 <= i < j < |ids| ensures ids[i] != ids[j] {
      assert ids == ids[..i] + [ids[i]] + ids[i + 1..];
      assert ids[j] in multiset(ids[i + 1..]);
      assert Count(ids, ids[i]) <= 1;
    }
  }

  /** Clusters that share an operator are solved in one group, so concurrent groups, and
      clusters outside every group, have no shared operator in common. */
  lemma SeparateGroupsShareNothing(groups: seq<seq<Id>>, clusters: seq<Cluster>, x: Id, y: Id, operator: Id)
    requires AreSharingGroups(groups, clusters) && x != y
    requires Lists(clusters, x, operator) && Lists(clusters, y, operator)
    ensures exists g :: 0 <= g < |groups| && x in groups[g] && y in groups[g]
  {
    assert Share(clusters, x, y);
    LinkedStep(Sharing(clusters), x, y);
    assert IsCluster(clusters, x) && IsCluster(clusters, y);
  }

  // ---- _operator_sharing_groups --------------------------------------------------------------

  /** Cluster i names op among its first k shared operators. */
  ghost predicate ListsSoFar(clusters: seq<Cluster>, i: nat, k: nat, x: Id, operator: Id) {
    && i < |clusters| && k <= |clusters[i].sharedBackups|
    && x == clusters[i].clusterId && operator in clusters[i].sharedBackups[..k]
  }

  ghost predicate ClaimsUpTo(claimants: map<Id, seq<Id>>, clusters: seq<Cluster>, i: nat, k: nat)
    requires i <= |clusters|
  {
    && (forall op, x :: InTable(claimants, op, x) <==>
          (Lists(clusters[..i], x, op) || ListsSoFar(clusters, i, k, x, op)))
    && NoEmptyRow(claimants)
  }

  method CollectClaimants(clusters: seq<Cluster>) returns (operators: seq<Id>, claimants: map<Id, seq<Id>>)
    ensures Claims(claimants, clusters) && forall op :: op in operators <==> op in claimants
  {
    hide Lists, ListsSoFar;
    operators, claimants := [], map[];
    NoClaims(clusters);
    for i := 0 to |clusters|
      invariant ClaimsUpTo(claimants, clusters, i, 0)
      invariant forall op :: op in operators <==> op in claimants
    {
      hide ClaimsUpTo;
      for k := 0 to |clusters[i].sharedBackups|
        invariant ClaimsUpTo(claimants, clusters, i, k)
        invariant forall op :: op in operators <==> op in claimants
      {
        var op := clusters[i].sharedBackups[k];
        if op !in claimants { operators := operators + [op]; }
        ClaimStep(claimants, clusters, i, k);
        claimants := AppendTo(claimants, op, clusters[i].clusterId);
      }
      ClaimsNext(claimants, clusters, i);
    }
    ClaimsAll(claimants, clusters);
  }

  lemma NoClaims(clusters: seq<Cluster>)
    ensures ClaimsUpTo(map[], clusters, 0, 0)
  {
  }

  lemma ClaimStep(claimants: map<Id, seq<Id>>, clusters: seq<Cluster>, i: nat, k: nat)
    requires i < |clusters| && k < |clusters[i].sharedBackups| && ClaimsUpTo(claimants, clusters, i, k)
    ensures ClaimsUpTo(AppendTo(claimants, clusters[i].sharedBackups[k], clusters[i].clusterId), clusters, i, k + 1)
  {
    hide Lists, InTable;
    var op, id := clusters[i].sharedBackups[k], clusters[i].clusterId;
    assert clusters[i].sharedBackups[..k + 1] == clusters[i].sharedBackups[..k] + [op];
    forall o, x
      ensures InTable(AppendTo(claimants, op, id), o, x) <==>
              (Lists(clusters[..i], x, o) || ListsSoFar(clusters, i, k + 1, x, o))
    {
      AppendToAdds(claimants, op, id, o, x);
    }
  }

  lemma ListsNext(clusters: seq<Cluster>, i: nat, x: Id, operator: Id)
    requires i < |clusters|
    ensures Lists(clusters[..i + 1], x, operator) <==>
            (Lists(clusters[..i], x, operator) || ListsSoFar(clusters, i, |clusters[i].sharedBackups|, x, operator))
  {
    var c := clusters[i];
    assert c.sharedBackups[..|c.sharedBackups|] == c.sharedBackups;
    if Lists(clusters[..i], x, operator) {
      var k :| 0 <= k < i && clusters[..i][k].clusterId == x && operator in clusters[..i][k].sharedBackups;
      assert clusters[..i + 1][k] == clusters[..i][k];
    }
    if ListsSoFar(clusters, i, |c.sharedBackups|, x, operator) { assert clusters[..i + 1][i] == c; }
    if Lists(clusters[..i + 1], x, operator) {
      var k :| 0 <= k < i + 1 && clusters[..i + 1][k].clusterId == x
               && operator in clusters[..i + 1][k].sharedBackups;
      assert k < i ==> clusters[..i][k] == clusters[..i + 1][k];
    }
  }

  lemma ClaimsNext(claimants: map<Id, seq<Id>>, clusters: seq<Cluster>, i: nat)
    requires i < |clusters| && ClaimsUpTo(claimants, clusters, i, |clusters[i].sharedBackups|)
    ensures ClaimsUpTo(claimants, clusters, i + 1, 0)
  {
    hide Lists;
    forall op, x
      ensures InTable(claimants, op, x) <==>
              (Lists(clusters[..i + 1], x, op) || ListsSoFar(clusters, i + 1, 0, x, op))
    {
      ListsNext(clusters, i, x, op);
    }
  }

  lemma ClaimsAll(claimants: map<Id, seq<Id>>, clusters: seq<Cluster>)
    requires ClaimsUpTo(claimants, clusters, |clusters|, 0)
    ensures Claims(claimants, clusters)
  {
    hide Lists;
    assert clusters[..|clusters|] == clusters;
  }

  ghost predicate UnitedWith(r: Relation, ids: seq<Id>, k: nat) {
    forall j :: 0 <= j < k && j < |ids| ==> ids[j] == ids[0] || (ids[0], ids[j]) in r
  }

  ghost predicate OnlyClaimants(r: Relation, claimants: map<Id, seq<Id>>) {
    forall e :: e in r ==> exists op :: op in claimants && e.0 in claimants[op] && e.1 in claimants[op]
  }

  method UniteOperator(sets: Sets, ids: seq<Id>, ghost op: Id, ghost r0: Relation, ghost claimants: map<Id, seq<Id>>)
    returns (ghost r: Relation)
    requires sets.Valid() && Represents(sets.rep, r0) && OnlyClaimants(r0, claimants)
    requires op in claimants && claimants[op] == ids && ids != []
    modifies sets
    ensures sets.Valid() && Represents(sets.rep, r) && OnlyClaimants(r, claimants)
    ensures r0 <= r && UnitedWith(r, ids, |ids|)
  {
    hide Represents, OnlyClaimants;
    r := r0;
    for k := 1 to |ids|
      invariant sets.Valid() && Represents(sets.rep, r) && OnlyClaimants(r, claimants)
      invariant r0 <= r && UnitedWith(r, ids, k)
    {
      UnionAddsLink(sets.rep, r, ids[0], ids[k]);
      ClaimantsAdd(r, claimants, op, 0, k);
      sets.Union(ids[0], ids[k]);
      r := r + iset{(ids[0], ids[k])};
    }
  }

  lemma ClaimantsAdd(r: Relation, claimants: map<Id, seq<Id>>, op: Id, i: nat, j: nat)
    requires OnlyClaimants(r, claimants) && op in claimants && i < |claimants[op]| && j < |claimants[op]|
    ensures OnlyClaimants(r + iset{(claimants[op][i], claimants[op][j])}, claimants)
  {
  }

  method UniteClaimants(operators: seq<Id>, claimants: map<Id, seq<Id>>) returns (sets: Sets, ghost r: Relation)
    requires forall op :: op in operators <==> op in claimants
    requires forall op :: op in claimants ==> claimants[op] != []
    ensures fresh(sets) && sets.Valid() && Represents(sets.rep, r) && United(r, claimants, claimants.Keys)
  {
    hide Represents;
    sets := new Sets();
    r := iset{};
    assert Represents(map[], r) by { NothingLinked(r); }
    for g := 0 to |operators|
      invariant fresh(sets) && sets.Valid() && Represents(sets.rep, r) && OnlyClaimants(r, claimants)
      invariant forall j :: 0 <= j < g ==> UnitedWith(r, claimants[operators[j]], |claimants[operators[j]]|)
    {
      assert operators[g] in claimants;
      r := UniteOperator(sets, claimants[operators[g]], operators[g], r, claimants);
    }
    UnitedAll(r, operators, claimants);
  }

  lemma NothingLinked(r: Relation)
    requires r == iset{}
    ensures Represents(map[], r)
  {
  }

  lemma UnitedAll(r: Relation, operators: seq<Id>, claimants: map<Id, seq<Id>>)
    requires forall op :: op in operators <==> op in claimants
    requires forall op :: op in claimants ==> claimants[op] != []
    requires OnlyClaimants(r, claimants)
    requires forall j :: 0 <= j < |operators| ==> UnitedWith(r, claimants[operators[j]], |claimants[operators[j]]|)
    ensures United(r, claimants, claimants.Keys)
  {
    forall op, x | op in claimants && x in claimants[op]
      ensures x == claimants[op][0] || (claimants[op][0], x) in r
    {
      assert op in operators;
      var j :| 0 <= j < |operators| && operators[j] == op;
      var k :| 0 <= k < |claimants[op]| && claimants[op][k] == x;
      assert UnitedWith(r, claimants[operators[j]], |claimants[operators[j]]|);
    }
  }

  /** byRoot holds the first n clusters that were united with another, keyed by root. */
  ghost predicate GroupedByRoot(byRoot: map<Id, seq<Id>>, rep: map<Id, Id>, clusters: seq<Cluster>, n: nat) {
    && (forall root, x :: InTable(byRoot, root, x) ==> x in rep && rep[x] == root && IsCluster(clusters, x))
    && (forall k :: 0 <= k < n && k < |clusters| && clusters[k].clusterId in rep ==>
          InTable(byRoot, rep[clusters[k].clusterId], clusters[k].clusterId))
    && (forall x :: x in rep ==> Count(Row(byRoot, rep[x]), x) == CountIds(clusters, n, x))
  }

  function Row(byRoot: map<Id, seq<Id>>, root: Id): seq<Id> { if root in byRoot then byRoot[root] else [] }

  /** How many of the first n clusters carry the id x. */
  function CountIds(clusters: seq<Cluster>, n: nat, x: Id): nat {
    if n <= |clusters| then Count(IdsOf(clusters[..n]), x) else 0
  }

  lemma CountNext(clusters: seq<Cluster>, n: nat, x: Id)
    requires n < |clusters|
    ensures CountIds(clusters, n + 1, x) == CountIds(clusters, n, x) + if clusters[n].clusterId == x then 1 else 0
  {
    assert IdsOf(clusters[..n + 1]) == IdsOf(clusters[..n]) + [clusters[n].clusterId];
  }

  lemma RowNext(byRoot: map<Id, seq<Id>>, root: Id, id: Id, r: Id, x: Id)
    ensures Count(Row(AppendTo(byRoot, root, id), r), x)
            == Count(Row(byRoot, r), x) + if r == root && x == id then 1 else 0
  {
  }

  method CollectGroups(sets: Sets, clusters: seq<Cluster>) returns (roots: seq<Id>, byRoot: map<Id, seq<Id>>)
    requires sets.Valid()
    modifies sets
    ensures sets.Valid() && sets.rep == old(sets.rep)
    ensures Distinct(roots) && forall x :: x in roots <==> x in byRoot
    ensures GroupedByRoot(byRoot, sets.rep, clusters, |clusters|)
  {
    hide GroupedByRoot, Forest;
    roots, byRoot := [], map[];
    ghost var rep := sets.rep;
    NothingGrouped(rep, clusters);
    for k := 0 to |clusters|
      invariant sets.Valid() && sets.rep == rep
      invariant Distinct(roots) && forall x :: x in roots <==> x in byRoot
      invariant GroupedByRoot(byRoot, rep, clusters, k)
    {
      var id := clusters[k].clusterId;
      KeysAgree(sets.parent, sets.rep, sets.level, sets.top);
      GroupStep(byRoot, rep, clusters, k);
      if id in sets.parent {
        var root := sets.Find(id);
        if root !in byRoot { roots := roots + [root]; }
        byRoot := AppendTo(byRoot, root, id);
      }
    }
  }

  lemma NothingGrouped(rep: map<Id, Id>, clusters: seq<Cluster>)
    ensures GroupedByRoot(map[], rep, clusters, 0)
  {
  }

  lemma GroupStep(byRoot: map<Id, seq<Id>>, rep: map<Id, Id>, clusters: seq<Cluster>, k: nat)
    requires k < |clusters| && GroupedByRoot(byRoot, rep, clusters, k)
    ensures var id := clusters[k].clusterId;
            GroupedByRoot(if id in rep then AppendTo(byRoot, rep[id], id) else byRoot, rep, clusters, k + 1)
  {
    hide InTable, CountIds, Count, Row, AppendTo;
    var id := clusters[k].clusterId;
    assert IsCluster(clusters, id);
    if id in rep {
      forall root, x
        ensures InTable(AppendTo(byRoot, rep[id], id), root, x) <==> InTable(byRoot, root, x) || (root == rep[id] && x == id)
      {
        AppendToAdds(byRoot, rep[id], id, root, x);
      }
    }
    CountsStep(byRoot, rep, clusters, k);
  }

  lemma CountsStep(byRoot: map<Id, seq<Id>>, rep: map<Id, Id>, clusters: seq<Cluster>, k: nat)
    requires k < |clusters|
    requires forall x :: x in rep ==> Count(Row(byRoot, rep[x]), x) == CountIds(clusters, k, x)
    ensures var id := clusters[k].clusterId;
            var next := if id in rep then AppendTo(byRoot, rep[id], id) else byRoot;
            forall x :: x in rep ==> Count(Row(next, rep[x]), x) == CountIds(clusters, k + 1, x)
  {
    hide CountIds, Count, Row;
    var id := clusters[k].clusterId;
    var next := if id in rep then AppendTo(byRoot, rep[id], id) else byRoot;
    forall x | x in rep ensures Count(Row(next, rep[x]), x) == CountIds(clusters, k + 1, x) {
      CountNext(clusters, k, x);
      if id in rep { RowNext(byRoot, rep[id], id, rep[x], x); }
    }
  }

  method OperatorSharingGroups(clusters: seq<Cluster>) returns (groups: seq<seq<Id>>)
    ensures AreSharingGroups(groups, clusters)
  {
    hide Represents, United, Claims, GroupedByRoot, AreSharingGroups;
    var operators, claimants := CollectClaimants(clusters);
    ClaimsNonEmpty(claimants, clusters);
    var sets, r := UniteClaimants(operators, claimants);
    var roots, byRoot := CollectGroups(sets, clusters);
    ghost var from;
    groups, from := SelectGroups(roots, byRoot);
    GroupsAreClasses(groups, from, byRoot, roots, sets.rep, r, claimants, clusters);
  }

  /** The rows with at least two members, in the order of their roots. */
  method SelectGroups(roots: seq<Id>, byRoot: map<Id, seq<Id>>) returns (groups: seq<seq<Id>>, ghost from: seq<Id>)
    requires Distinct(roots) && forall x :: x in roots <==> x in byRoot
    ensures Selected(groups, from, byRoot, roots) && forall g :: g in groups ==> |g| >= 2
  {
    groups, from := [], [];
    for k := 0 to |roots|
      invariant |from| == |groups| && Distinct(from)
      invariant forall g :: 0 <= g < |from| ==>
                  from[g] in byRoot && groups[g] == byRoot[from[g]] && |groups[g]| >= 2 && from[g] in roots[..k]
      invariant forall x :: x in roots[..k] && |byRoot[x]| >= 2 ==> x in from
    {
      assert roots[k] in byRoot && roots[k] !in roots[..k];
      assert roots[..k + 1] == roots[..k] + [roots[k]];
      if |byRoot[roots[k]]| >= 2 {
        groups := groups + [byRoot[roots[k]]];
        from := from + [roots[k]];
      }
    }
    assert roots[..|roots|] == roots;
  }

  lemma ClaimsNonEmpty(claimants: map<Id, seq<Id>>, clusters: seq<Cluster>)
    requires Claims(claimants, clusters)
    ensures forall op :: op in claimants ==> claimants[op] != []
  {
  }

  /** Linked to a different cluster, a cluster has a representative. */
  lemma LinkedIsKnown(rep: map<Id, Id>, r: Relation, x: Id, y: Id)
    requires Represents(rep, r) && Linked(r, x, y) && x != y
    ensures x in rep && y in rep && rep[x] == rep[y]
  {
    var p :| ChainFrom(r, p, x, y);
    ChainSteps(r, p);
    ChainSameRep(rep, r, p);
  }

  lemma MemberRep(byRoot: map<Id, seq<Id>>, rep: map<Id, Id>, clusters: seq<Cluster>, root: Id, x: Id)
    requires GroupedByRoot(byRoot, rep, clusters, |clusters|) && root in byRoot && x in byRoot[root]
    ensures x in rep && rep[x] == root && IsCluster(clusters, x)
    ensures Count(byRoot[root], x) == Count(IdsOf(clusters), x)
  {
    assert InTable(byRoot, root, x);
    assert clusters[..|clusters|] == clusters;
  }

  lemma KnownIsGrouped(byRoot: map<Id, seq<Id>>, rep: map<Id, Id>, clusters: seq<Cluster>, x: Id)
    requires GroupedByRoot(byRoot, rep, clusters, |clusters|) && IsCluster(clusters, x) && x in rep
    ensures rep[x] in byRoot && x in byRoot[rep[x]]
  {
    var k :| 0 <= k < |clusters| && clusters[k].clusterId == x;
    assert InTable(byRoot, rep[clusters[k].clusterId], clusters[k].clusterId);
  }

  lemma InItsGroup(byRoot: map<Id, seq<Id>>, rep: map<Id, Id>, r: Relation, clusters: seq<Cluster>, x: Id, y: Id,
                   root: Id)
    requires GroupedByRoot(byRoot, rep, clusters, |clusters|) && Represents(rep, r)
    requires root in byRoot && x in byRoot[root] && IsCluster(clusters, y) && Linked(r, x, y)
    ensures y in byRoot[root]
  {
    hide GroupedByRoot, Represents, Linked, IsCluster;
    MemberRep(byRoot, rep, clusters, root, x);
    if x != y {
      LinkedIsKnown(rep, r, x, y);
      KnownIsGrouped(byRoot, rep, clusters, y);
    }
  }

  lemma TwoMembers<T>(s: seq<T>, x: T, y: T)
    requires x in s && y in s && x != y
    ensures |s| >= 2
  {
  }

  /** Groups chosen by root: from[g] is the root of groups[g]. */
  ghost predicate Selected(groups: seq<seq<Id>>, from: seq<Id>, byRoot: map<Id, seq<Id>>, roots: seq<Id>) {
    && Distinct(from) && |from| == |groups| && (forall x :: x in roots <==> x in byRoot)
    && (forall g :: 0 <= g < |from| ==>
          from[g] in byRoot && groups[g] == byRoot[from[g]] && |groups[g]| >= 2)
    && (forall x :: x in roots && |byRoot[x]| >= 2 ==> x in from)
  }

  lemma GroupsAreClasses(groups: seq<seq<Id>>, from: seq<Id>, byRoot: map<Id, seq<Id>>, roots: seq<Id>,
                         rep: map<Id, Id>, r: Relation, claimants: map<Id, seq<Id>>, clusters: seq<Cluster>)
    requires Represents(rep, r) && Claims(claimants, clusters) && United(r, claimants, claimants.Keys)
    requires GroupedByRoot(byRoot, rep, clusters, |clusters|) && Selected(groups, from, byRoot, roots)
    ensures AreSharingGroups(groups, clusters)
  {
    hide United, Claims, Represents, Linked, GroupedByRoot, IsCluster, Sharing, Count;
    var s := Sharing(clusters);
    forall x, y ensures Linked(r, x, y) <==> Linked(s, x, y) { UnitedIsSharing(r, claimants, clusters, x, y); }
    forall g, x | 0 <= g < |groups| && x in groups[g]
      ensures x in rep && rep[x] == from[g] && IsCluster(clusters, x)
      ensures Count(groups[g], x) == Count(IdsOf(clusters), x)
    {
      MemberRep(byRoot, rep, clusters, from[g], x);
    }
    forall g, x, y | 0 <= g < |groups| && x in groups[g] && y in groups[g] ensures Linked(s, x, y) {
      SameRepIffLinked(rep, r, x, y);
    }
    forall g, x, y | 0 <= g < |groups| && x in groups[g] && IsCluster(clusters, y) && Linked(s, x, y)
      ensures y in groups[g]
    {
      InItsGroup(byRoot, rep, r, clusters, x, y, from[g]);
    }
    forall x, y | IsCluster(clusters, x) && IsCluster(clusters, y) && x != y && Linked(s, x, y)
      ensures exists g :: 0 <= g < |groups| && x in groups[g] && y in groups[g]
    {
      LinkedIsKnown(rep, r, x, y);
      KnownIsGrouped(byRoot, rep, clusters, x);
      InItsGroup(byRoot, rep, r, clusters, x, y, rep[x]);
      TwoMembers(byRoot[rep[x]], x, y);
      var g :| 0 <= g < |from| && from[g] == rep[x];
      assert groups[g] == byRoot[rep[x]];
    }
    forall g, h, x | 0 <= g < h < |groups| && x in groups[g] ensures x !in groups[h] {
      assert from[g] != from[h] && rep[x] == from[g];
      if x in groups[h] { MemberRep(byRoot, rep, clusters, from[h], x); }
    }
  }
}
