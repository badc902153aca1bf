/** Union-find with path halving and no ranks (src/fl_op/solver/cluster_pool.py). */
module DisjointSets {

  type Id = string

  /** One node: rep is the root its parent chain leads to, level grows along the chain. */
  ghost predicate Node(parent: map<Id, Id>, rep: map<Id, Id>, level: map<Id, nat>, top: nat, x: Id) {
    && x in parent && x in rep && x in level
    && parent[x] in parent && rep[x] in parent
    && parent[x] in rep && rep[parent[x]] == rep[x]
    && rep[x] in rep && rep[rep[x]] == rep[x]
    && (parent[x] == x <==> rep[x] == x)
    && level[x] <= top
    && (parent[x] != x ==> parent[x] in level && level[x] < level[parent[x]])
  }

  ghost predicate Forest(parent: map<Id, Id>, rep: map<Id, Id>, level: map<Id, nat>, top: nat) {
    && parent.Keys == rep.Keys == level.Keys
    && (forall x {:trigger Node(parent, rep, level, top, x)} :: x in parent ==> Node(parent, rep, level, top, x))
  }

  /** Following parents k times. */
  ghost function Climb(parent: map<Id, Id>, x: Id, k: nat): Id
    decreases k
  {
    if k == 0 || x !in parent then x else Climb(parent, parent[x], k - 1)
  }

  /** rep is not a free choice: the parent chain of x ends in rep[x]. */
  lemma {:induction false} RepIsRoot(parent: map<Id, Id>, rep: map<Id, Id>, level: map<Id, nat>, top: nat, x: Id)
    returns (k: nat)
    requires Forest(parent, rep, level, top) && x in parent
    ensures rep[x] in parent && parent[rep[x]] == rep[x] && Climb(parent, x, k) == rep[x]
    decreases top - level[x]
  {
    assert Node(parent, rep, level, top, x);
    if parent[x] == x {
      k := 0;
    } else {
      assert Node(parent, rep, level, top, parent[x]);
      k := RepIsRoot(parent, rep, level, top, parent[x]);
      k := k + 1;
    }
  }

  /** Pointing a node at its grandparent keeps every root. */
  lemma HalvingKeepsRoots(parent: map<Id, Id>, rep: map<Id, Id>, level: map<Id, nat>, top: nat, n: Id)
    requires Forest(parent, rep, level, top) && n in parent && parent[n] in parent
    ensures Forest(parent[n := parent[parent[n]]], rep, level, top)
  {
    var next := parent[n := parent[parent[n]]];
    assert next.Keys == parent.Keys;
    assert Node(parent, rep, level, top, n) && Node(parent, rep, level, top, parent[n]);
    forall x | x in next ensures Node(next, rep, level, top, x) {
      assert Node(parent, rep, level, top, x);
    }
  }

  ghost function Merged(rep: map<Id, Id>, ra: Id, rb: Id): map<Id, Id> {
    map x | x in rep :: if rep[x] == rb then ra else rep[x]
  }

  /** Hanging the root rb under ra moves exactly rb's tree there. */
  lemma LinkMerges(parent: map<Id, Id>, rep: map<Id, Id>, level: map<Id, nat>, top: nat, ra: Id, rb: Id)
    requires Forest(parent, rep, level, top) && ra in parent && rb in parent && ra != rb
    requires parent.Keys == rep.Keys == level.Keys && rep[ra] == ra && rep[rb] == rb
    ensures Forest(parent[rb := ra], Merged(rep, ra, rb), level[ra := level[ra] + level[rb] + 1],
                   top + level[ra] + level[rb] + 1)
  {
    var next, rep', level' := parent[rb := ra], Merged(rep, ra, rb), level[ra := level[ra] + level[rb] + 1];
    assert next.Keys == parent.Keys && rep'.Keys == rep.Keys && level'.Keys == level.Keys;
    assert Node(parent, rep, level, top, ra) && Node(parent, rep, level, top, rb);
    forall x | x in next ensures Node(next, rep', level', top + level[ra] + level[rb] + 1, x) {
      assert Node(parent, rep, level, top, x);
    }
  }

  lemma FreshIsRoot(parent: map<Id, Id>, rep: map<Id, Id>, level: map<Id, nat>, top: nat, n: Id)
    requires Forest(parent, rep, level, top) && n !in parent
    ensures Forest(parent[n := n], rep[n := n], level[n := 0], top)
  {
    var next, rep', level' := parent[n := n], rep[n := n], level[n := 0];
    assert next.Keys == rep'.Keys == level'.Keys;
    forall x | x in next ensures Node(next, rep', level', top, x) {
      if x != n { assert Node(parent, rep, level, top, x); }
    }
  }

  lemma KeysAgree(parent: map<Id, Id>, rep: map<Id, Id>, level: map<Id, nat>, top: nat)
    requires Forest(parent, rep, level, top)
    ensures parent.Keys == rep.Keys == level.Keys
  {
  }

  lemma NodeOf(parent: map<Id, Id>, rep: map<Id, Id>, level: map<Id, nat>, top: nat, x: Id)
    requires Forest(parent, rep, level, top) && x in parent
    ensures Node(parent, rep, level, top, x)
  {
  }

  class Sets {
    var parent: map<Id, Id>
    ghost var rep: map<Id, Id>
    ghost var level: map<Id, nat>
    ghost var top: nat

    ghost predicate Valid()
      reads this
    {
      Forest(parent, rep, level, top)
    }

    constructor ()
      ensures Valid() && parent == map[] && rep == map[]
    {
      parent, rep, level, top := map[], map[], map[], 0;
    }

    /** An unknown node becomes its own root; then climb to the root, halving the path. */
    method Find(start: Id) returns (root: Id)
      requires Valid()
      modifies this
      ensures Valid()
      ensures rep == WithNode(old(rep), start) && rep.Keys == parent.Keys == level.Keys
      ensures parent.Keys == old(parent.Keys) + {start}
      ensures start in rep && root == rep[start] && root in parent && rep[root] == root
    {
      KeysAgree(parent, rep, level, top);
      hide Forest;
      if start !in parent {
        FreshIsRoot(parent, rep, level, top, start);
        parent, rep, level := parent[start := start], rep[start := start], level[start := 0];
      }
      var node := start;
      NodeOf(parent, rep, level, top, start);
      ghost var keys, roots := parent.Keys, rep;
      while parent[node] != node
        invariant Valid() && rep == roots && parent.Keys == keys
        invariant Node(parent, rep, level, top, node) && rep[node] == rep[start]
        decreases top - level[node]
      {
        NodeOf(parent, rep, level, top, parent[node]);
        HalvingKeepsRoots(parent, rep, level, top, node);
        parent := parent[node := parent[parent[node]]];
        NodeOf(parent, rep, level, top, node);
        NodeOf(parent, rep, level, top, parent[node]);
        node := parent[node];
      }
      KeysAgree(parent, rep, level, top);
      root := node;
    }

    /** b's root goes under a's; a is looked up first. */
    method Union(a: Id, b: Id)
      requires Valid()
      modifies this
      ensures Valid() && parent.Keys == old(parent.Keys) + {a, b}
      ensures rep == Joined(old(rep), a, b)
    {
      hide Forest, Merged, WithNode;
      var ra := Find(a);
      var rb := Find(b);
      Attach(ra, rb);
    }

    /** One write: rb's parent becomes ra. */
    method Attach(ra: Id, rb: Id)
      requires Valid() && ra in parent && rb in parent && parent.Keys == rep.Keys == level.Keys
      requires rep[ra] == ra && rep[rb] == rb
      modifies this
      ensures Valid() && parent.Keys == old(parent.Keys) && rep == Merged(old(rep), ra, rb)
    {
      hide Forest, Node, Merged;
      if ra != rb {
        LinkMerges(parent, rep, level, top, ra, rb);
        level, top := level[ra := level[ra] + level[rb] + 1], top + level[ra] + level[rb] + 1;
      } else {
        MergeSame(rep, ra);
        NodeOf(parent, rep, level, top, ra);
        RootPointsToItself(parent, rep, level, top, ra);
      }
      rep := Merged(rep, ra, rb);
      parent := parent[rb := ra];
    }
  }

  lemma MergeSame(rep: map<Id, Id>, r: Id)
    ensures Merged(rep, r, r) == rep
  {
  }

  lemma RootPointsToItself(parent: map<Id, Id>, rep: map<Id, Id>, level: map<Id, nat>, top: nat, r: Id)
    requires Node(parent, rep, level, top, r) && rep[r] == r
    ensures parent[r := r] == parent
  {
  }

  ghost function WithNode(rep: map<Id, Id>, x: Id): (r: map<Id, Id>)
    ensures x in r && forall y :: y in rep ==> y in r && r[y] == rep[y]
  {
    if x in rep then rep else rep[x := x]
  }

  /** The representatives after union(a, b). */
  ghost function Joined(rep: map<Id, Id>, a: Id, b: Id): (r: map<Id, Id>)
    ensures r.Keys == rep.Keys + {a, b}
  {
    var both := WithNode(WithNode(rep, a), b);
    Merged(both, both[a], both[b])
  }
}
