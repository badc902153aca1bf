/** Order-preserving unions by key, and the union of constraints in which an enforced one wins
    (src/fl_op/contracts/profile.py, _union_preserving_order and _merge_constraints). */
module KeyedUnion {
  // ---- Unions ---------------------------------------------------------------------------------------

  predicate HasKey<T>(key: T -> string, s: seq<T>, k: string) {
    exists i :: 0 <= i < |s| && key(s[i]) == k
  }

  /** primary as it stands, then the entries of secondary whose key has not been seen. */
  function Union<T>(key: T -> string, primary: seq<T>, secondary: seq<T>): seq<T> {
    if secondary == [] then primary
    else
      var u, last := Union(key, primary, secondary[..|secondary| - 1]), secondary[|secondary| - 1];
      if HasKey(key, u, key(last)) then u else u + [last]
  }

  lemma HasKeyAppend<T>(key: T -> string, a: seq<T>, x: T, k: string)
    ensures HasKey(key, a + [x], k) <==> HasKey(key, a, k) || key(x) == k
  {
    assert (a + [x])[|a|] == x;
    assert forall i :: 0 <= i < |a| ==> (a + [x])[i] == a[i];
  }

  lemma {:induction false} UnionKeys<T>(key: T -> string, a: seq<T>, b: seq<T>, k: string)
    ensures HasKey(key, Union(key, a, b), k) <==> HasKey(key, a, k) || HasKey(key, b, k)
  {
    if b != [] {
      var front, last := b[..|b| - 1], b[|b| - 1];
      UnionKeys(key, a, front, k);
      UnionKeys(key, a, front, key(last));
      assert b == front + [last];
      HasKeyAppend(key, front, last, k);
      HasKeyAppend(key, Union(key, a, front), last, k);
    }
  }

  /** Unions associate, whatever repetitions the lists hold. */
  lemma {:induction false} UnionAssociative<T>(key: T -> string, a: seq<T>, b: seq<T>, c: seq<T>)
    ensures Union(key, Union(key, a, b), c) == Union(key, a, Union(key, b, c))
  {
    hide HasKey;
    if c != [] {
      var front, last := c[..|c| - 1], c[|c| - 1];
      UnionAssociative(key, a, b, front);
      var right := Union(key, b, front);
      UnionKeys(key, a, right, key(last));
      if !HasKey(key, right, key(last)) {
        assert (right + [last])[..|right|] == right;
      }
    }
  }

  /** primary comes first and unchanged. */
  lemma {:induction false} UnionExtends<T>(key: T -> string, a: seq<T>, b: seq<T>)
    ensures a <= Union(key, a, b)
  {
    if b != [] { UnionExtends(key, a, b[..|b| - 1]); }
  }

  /** Entries of secondary come once per key, in order, and only when primary has no such key. */
  lemma {:induction false} UnionAddsOnce<T>(key: T -> string, a: seq<T>, b: seq<T>)
    ensures forall i :: |a| <= i < |Union(key, a, b)| ==>
                          Union(key, a, b)[i] in b && !HasKey(key, Union(key, a, b)[..i], key(Union(key, a, b)[i]))
  {
    hide HasKey;
    if b != [] {
      var front, last := b[..|b| - 1], b[|b| - 1];
      UnionAddsOnce(key, a, front);
      UnionExtends(key, a, front);
      var u, r := Union(key, a, front), Union(key, a, b);
      forall i | |a| <= i < |r| ensures r[i] in b && !HasKey(key, r[..i], key(r[i])) {
        if i < |u| { assert r[..i] == u[..i]; } else { assert r[..i] == u; }
      }
    }
  }

  /** The places in b of what a union with a adds: keys not in a, each at its first occurrence. */
  ghost predicate Added<T>(key: T -> string, a: seq<T>, b: seq<T>, r: seq<T>, from: seq<nat>) {
    && |r| == |a| + |from| && a <= r
    && (forall i, j :: 0 <= i < j < |from| ==> from[i] < from[j])
    && (forall k: nat :: k in from <==> FirstOfKey(key, a, b, k))
    && (forall i :: 0 <= i < |from| ==> from[i] < |b| && r[|a| + i] == b[from[i]])
  }

  ghost predicate FirstOfKey<T>(key: T -> string, a: seq<T>, b: seq<T>, k: nat) {
    && k < |b| && (forall i :: 0 <= i < |a| ==> key(a[i]) != key(b[k]))
    && (forall j :: 0 <= j < k ==> key(b[j]) != key(b[k]))
  }

  ghost predicate IsUnion<T>(key: T -> string, a: seq<T>, b: seq<T>, r: seq<T>) {
    exists from :: Added(key, a, b, r, from)
  }

  lemma {:induction false} UnionAdds<T>(key: T -> string, a: seq<T>, b: seq<T>) returns (from: seq<nat>)
    ensures Added(key, a, b, Union(key, a, b), from)
  {
    hide FirstOfKey, HasKey;
    if b == [] {
      from := [];
      NothingFirst(key, a, b);
    } else {
      var n := |b| - 1;
      from := UnionAdds(key, a, b[..n]);
      forall k: nat ensures FirstOfKey(key, a, b, k) <==>
                            FirstOfKey(key, a, b[..n], k) || (k == n && !HasKey(key, Union(key, a, b[..n]), key(b[n])))
      {
        FirstNext(key, a, b, k);
      }
      assert forall i :: 0 <= i < |from| ==> from[i] in from && b[..n][from[i]] == b[from[i]];
      if !HasKey(key, Union(key, a, b[..n]), key(b[n])) { from := AddLast(key, a, b, from); }
    }
  }

  lemma AddLast<T>(key: T -> string, a: seq<T>, b: seq<T>, from: seq<nat>) returns (more: seq<nat>)
    requires b != [] && Added(key, a, b[..|b| - 1], Union(key, a, b[..|b| - 1]), from)
    requires !HasKey(key, Union(key, a, b[..|b| - 1]), key(b[|b| - 1]))
    requires forall k: nat :: FirstOfKey(key, a, b, k) <==> FirstOfKey(key, a, b[..|b| - 1], k) || k == |b| - 1
    ensures Added(key, a, b, Union(key, a, b), more)
  {
    hide FirstOfKey, HasKey;
    var n := |b| - 1;
    more := from + [n];
    assert more[|from|] == n && forall i :: 0 <= i < |from| ==> more[i] == from[i];
    assert forall i :: 0 <= i < |from| ==> from[i] < n && b[..n][from[i]] == b[from[i]];
  }

  lemma NothingFirst<T>(key: T -> string, a: seq<T>, b: seq<T>)
    requires b == []
    ensures forall k: nat :: !FirstOfKey(key, a, b, k)
  {
  }

  lemma FirstNext<T>(key: T -> string, a: seq<T>, b: seq<T>, k: nat)
    requires b != []
    ensures var n := |b| - 1;
            FirstOfKey(key, a, b, k) <==>
            FirstOfKey(key, a, b[..n], k) || (k == n && !HasKey(key, Union(key, a, b[..n]), key(b[n])))
  {
    var n := |b| - 1;
    assert forall j :: 0 <= j < n ==> b[..n][j] == b[j];
    KeyIsNew(key, a, b[..n], key(b[n]));
  }

  lemma KeyIsNew<T>(key: T -> string, a: seq<T>, b: seq<T>, k: string)
    ensures HasKey(key, Union(key, a, b), k) <==>
            (exists i :: 0 <= i < |a| && key(a[i]) == k) || (exists j :: 0 <= j < |b| && key(b[j]) == k)
  {
    UnionKeys(key, a, b, k);
  }

  method UnionPreservingOrder<T>(key: T -> string, primary: seq<T>, secondary: seq<T>) returns (merged: seq<T>)
    ensures merged == Union(key, primary, secondary) && IsUnion(key, primary, secondary, merged)
  {
    hide IsUnion, Added;
    merged := primary;
    var seen := Keys(key, primary);
    for j := 0 to |secondary|
      invariant merged == Union(key, primary, secondary[..j])
      invariant forall k :: k in seen <==> HasKey(key, merged, k)
    {
      var item := secondary[j];
      assert secondary[..j + 1][..j] == secondary[..j] && secondary[..j + 1][j] == item;
      if key(item) !in seen {
        forall k ensures HasKey(key, merged + [item], k) <==> HasKey(key, merged, k) || key(item) == k {
          HasKeyAppend(key, merged, item, k);
        }
        merged := merged + [item];
        seen := seen + {key(item)};
      }
    }
    assert secondary[..|secondary|] == secondary;
    UnionIs(key, primary, secondary);
  }

  lemma UnionIs<T>(key: T -> string, a: seq<T>, b: seq<T>)
    ensures IsUnion(key, a, b, Union(key, a, b))
  {
    var from := UnionAdds(key, a, b);
  }

  function Keys<T>(key: T -> string, s: seq<T>): (r: set<string>)
    ensures forall k :: k in r <==> HasKey(key, s, k)
  {
    set i | 0 <= i < |s| :: key(s[i])
  }

  // ---- Constraints ----------------------------------------------------------------------------------

  datatype Constraint = Constraint(id: string, severity: string, enforced: bool)

  function IdOf(c: Constraint): string { c.id }

  function Choose(a: Constraint, b: Constraint): Constraint {
    if b.enforced && !a.enforced then b else a
  }

  /** The entry that settles a conflict on id: the first enforced one, or the first one.
      An empty result means that no entry has the id. */
  function Winner(s: seq<Constraint>, id: string): (r: seq<Constraint>)
    ensures |r| <= 1
  {
    if s == [] then []
    else
      var before, last := Winner(s[..|s| - 1], id), s[|s| - 1];
      if last.id != id then before
      else if before == [] then [last]
      else [Choose(before[0], last)]
  }

  /** Winners of two lists in turn. */
  function Combine(a: seq<Constraint>, b: seq<Constraint>): seq<Constraint> {
    if a == [] then b else if b == [] then a else [Choose(a[0], b[0])]
  }

  lemma {:induction false} WinnerJoin(a: seq<Constraint>, b: seq<Constraint>, id: string)
    ensures Winner(a + b, id) == Combine(Winner(a, id), Winner(b, id))
  {
    if b == [] {
      assert a + b == a;
    } else {
      WinnerJoin(a, b[..|b| - 1], id);
      assert (a + b)[..|a + b| - 1] == a + b[..|b| - 1];
    }
  }

  lemma {:induction false} WinnerIs(s: seq<Constraint>, id: string)
    ensures Winner(s, id) == [] <==> !HasKey(IdOf, s, id)
    ensures Winner(s, id) != [] ==>
              && Winner(s, id)[0].id == id && Winner(s, id)[0] in s
              && (Winner(s, id)[0].enforced <==> exists c :: c in s && c.id == id && c.enforced)
  {
    if s != [] {
      var front, last := s[..|s| - 1], s[|s| - 1];
      WinnerIs(front, id);
      assert s == front + [last];
      HasKeyAppend(IdOf, front, last, id);
      assert forall c :: c in s <==> c in front || c == last;
    }
  }

  /** c settles its id among the entries of s: it is the first enforced entry, or where none is
      enforced the first. */
  ghost predicate Settles(s: seq<Constraint>, c: Constraint) {
    exists i :: 0 <= i < |s| && s[i] == c && SettlesAt(s, i)
  }

  ghost predicate SettlesAt(s: seq<Constraint>, i: nat)
    requires i < |s|
  {
    && (forall j :: 0 <= j < i && s[j].id == s[i].id ==> s[i].enforced && !s[j].enforced)
    && (!s[i].enforced ==> forall j :: 0 <= j < |s| && s[j].id == s[i].id ==> !s[j].enforced)
  }

  lemma {:induction false} WinnerSettles(s: seq<Constraint>, id: string)
    ensures Winner(s, id) != [] ==> Settles(s, Winner(s, id)[0])
  {
    if s != [] {
      var n := |s| - 1;
      var front, last := s[..n], s[n];
      WinnerSettles(front, id);
      WinnerIs(front, id);
      assert forall j :: 0 <= j < n ==> front[j] == s[j];
      if Winner(front, id) == [] {
        NoneBefore(front, id);
        if last.id == id { assert SettlesAt(s, n); }
      } else {
        var c := Winner(front, id)[0];
        var i :| 0 <= i < n && front[i] == c && SettlesAt(front, i);
        if last.id == id && last.enforced && !c.enforced { assert SettlesAt(s, n); } else { assert SettlesAt(s, i); }
      }
    }
  }

  lemma NoneBefore(s: seq<Constraint>, id: string)
    requires Winner(s, id) == []
    ensures forall j :: 0 <= j < |s| ==> s[j].id != id
  {
    WinnerIs(s, id);
    forall j | 0 <= j < |s| ensures IdOf(s[j]) != id { }
  }

  /** r lists each id of s once, in order of first appearance, with its winner. */
  ghost predicate Settled(r: seq<Constraint>, s: seq<Constraint>) {
    && Ids(r) == Union(Same, [], Ids(s))
    && forall i :: 0 <= i < |r| ==> Winner(s, r[i].id) == [r[i]]
  }

  function Same(id: string): string { id }

  function Ids(s: seq<Constraint>): (r: seq<string>)
    ensures |r| == |s|
  {
    seq(|s|, i requires 0 <= i < |s| => s[i].id)
  }

  lemma SettledUnique(a: seq<Constraint>, b: seq<Constraint>, s: seq<Constraint>)
    requires Settled(a, s) && Settled(b, s)
    ensures a == b
  {
    hide Union, Winner;
    assert |a| == |b|;
    forall i | 0 <= i < |a| ensures a[i] == b[i] {
      assert Ids(a)[i] == Ids(b)[i];
      assert [a[i]] == [b[i]];
    }
  }

  /** The settled list itself. */
  function Settle(s: seq<Constraint>): (r: seq<Constraint>)
    ensures Settled(r, s)
  {
    hide Winner, Union, HasKey;
    var order := Union(Same, [], Ids(s));
    OrderHasWinners(s);
    seq(|order|, i requires 0 <= i < |order| => Winner(s, order[i])[0])
  }

  lemma OrderHasWinners(s: seq<Constraint>)
    ensures forall id :: id in Union(Same, [], Ids(s)) ==> Winner(s, id) != [] && Winner(s, id)[0].id == id
  {
    hide Winner, Union;
    var order := Union(Same, [], Ids(s));
    forall id | id in order ensures Winner(s, id) != [] && Winner(s, id)[0].id == id {
      var i :| 0 <= i < |order| && order[i] == id;
      assert Same(order[i]) == id;
      UnionKeys(Same, [], Ids(s), id);
      IdsHaveKeys(s, id);
      WinnerIs(s, id);
    }
  }

  function At(order: seq<string>, byId: map<string, Constraint>): seq<Constraint>
    requires forall id :: id in order ==> id in byId
  {
    seq(|order|, i requires 0 <= i < |order| => byId[order[i]])
  }

  /** The two containers of the merge after the entries of s. */
  ghost predicate Merged(order: seq<string>, byId: map<string, Constraint>, s: seq<Constraint>) {
    && order == Union(Same, [], Ids(s))
    && (forall id :: id in byId <==> HasKey(Same, order, id))
    && (forall id :: id in byId ==> Winner(s, id) == [byId[id]])
  }

  lemma MergeNext(order: seq<string>, byId: map<string, Constraint>, s: seq<Constraint>, c: Constraint)
    requires Merged(order, byId, s)
    ensures c.id !in byId ==> Merged(order + [c.id], byId[c.id := c], s + [c])
    ensures c.id in byId ==> Merged(order, byId[c.id := Choose(byId[c.id], c)], s + [c])
  {
    hide HasKey, Winner;
    var next := s + [c];
    assert Ids(next)[..|s|] == Ids(s) && Ids(next)[|s|] == c.id;
    forall id ensures HasKey(Same, order + [c.id], id) <==> HasKey(Same, order, id) || c.id == id {
      HasKeyAppend(Same, order, c.id, id);
    }
    forall id ensures Winner(next, id) == Combine(Winner(s, id), if c.id == id then [c] else []) {
      WinnerJoin(s, [c], id);
      WinnerOne(c, id);
    }
    forall id | id !in byId ensures Winner(s, id) == [] {
      UnionKeys(Same, [], Ids(s), id);
      assert !HasKey(Same, [], id) by { EmptyHasNone(id); }
      IdsHaveKeys(s, id);
      WinnerIs(s, id);
    }
  }

  lemma EmptyHasNone(id: string)
    ensures !HasKey(Same, [], id)
  {
  }

  lemma WinnerOne(c: Constraint, id: string)
    ensures Winner([c], id) == if c.id == id then [c] else []
  {
    assert Winner([c][..0], id) == [];
  }

  lemma IdsHaveKeys(s: seq<Constraint>, id: string)
    ensures HasKey(Same, Ids(s), id) <==> HasKey(IdOf, s, id)
  {
    if i :| 0 <= i < |s| && IdOf(s[i]) == id { assert Same(Ids(s)[i]) == id; }
    if i :| 0 <= i < |Ids(s)| && Same(Ids(s)[i]) == id { assert IdOf(s[i]) == id; }
  }

  method MergeConstraints(primary: seq<Constraint>, secondary: seq<Constraint>) returns (merged: seq<Constraint>)
    ensures merged == Settle(primary + secondary)
  {
    hide HasKey, Winner, Settle;
    var byId: map<string, Constraint> := map[];
    var order: seq<string> := [];
    var all := primary + secondary;
    NothingMerged(all[..0]);
    for k := 0 to |all|
      invariant Merged(order, byId, all[..k])
    {
      var spec := all[k];
      assert all[..k + 1] == all[..k] + [spec];
      MergeNext(order, byId, all[..k], spec);
      if spec.id !in byId {
        byId := byId[spec.id := spec];
        order := order + [spec.id];
      } else if spec.enforced && !byId[spec.id].enforced {
        byId := byId[spec.id := spec];
      } else {
        assert byId[spec.id := byId[spec.id]] == byId;
      }
    }
    assert all[..|all|] == all;
    OrderIsKnown(order, byId, all);
    merged := At(order, byId);
    MergedIsSettled(order, byId, all);
    SettledUnique(merged, Settle(all), all);
  }

  lemma NothingMerged(none: seq<Constraint>)
    requires none == []
    ensures Merged([], map[], none)
  {
  }

  lemma OrderIsKnown(order: seq<string>, byId: map<string, Constraint>, s: seq<Constraint>)
    requires Merged(order, byId, s)
    ensures forall id :: id in order ==> id in byId
  {
    forall id | id in order ensures HasKey(Same, order, id) {
      var i :| 0 <= i < |order| && order[i] == id;
      assert Same(order[i]) == id;
    }
  }

  lemma MergedIsSettled(order: seq<string>, byId: map<string, Constraint>, s: seq<Constraint>)
    requires Merged(order, byId, s) && forall id :: id in order ==> id in byId
    ensures Settled(At(order, byId), s)
  {
    hide Union, Winner, HasKey;
    var r := At(order, byId);
    forall i | 0 <= i < |r| ensures r[i].id == order[i] && Winner(s, r[i].id) == [r[i]] {
      assert order[i] in byId;
      WinnerIs(s, order[i]);
    }
    assert Ids(r) == order;
  }

  // ---- Settling twice is settling once ---------------------------------------------------------------

  lemma SettledWinner(r: seq<Constraint>, s: seq<Constraint>, id: string)
    requires Settled(r, s)
    ensures Winner(r, id) == Winner(s, id)
  {
    hide Winner, Union, HasKey;
    IdsHaveKeys(r, id);
    IdsHaveKeys(s, id);
    UnionKeys(Same, [], Ids(s), id);
    EmptyHasNone(id);
    WinnerIs(r, id);
    WinnerIs(s, id);
    if Winner(r, id) != [] {
      var c := Winner(r, id)[0];
      var i :| 0 <= i < |r| && r[i] == c;
      assert Winner(s, r[i].id) == [r[i]];
    }
  }

  lemma {:induction false} UnionOfUnion(a: seq<string>, b: seq<string>)
    ensures Union(Same, [], Union(Same, [], a) + b) == Union(Same, [], a + b)
  {
    hide HasKey;
    if b == [] {
      assert Union(Same, [], a) + b == Union(Same, [], a) && a + b == a;
      UnionAssociative(Same, [], [], a);
    } else {
      var front, last := b[..|b| - 1], b[|b| - 1];
      UnionOfUnion(a, front);
      assert (Union(Same, [], a) + b)[..|Union(Same, [], a) + b| - 1] == Union(Same, [], a) + front;
      assert (a + b)[..|a + b| - 1] == a + front;
    }
  }

  lemma {:induction false} UnionJoin(a: seq<string>, b: seq<string>, c: seq<string>)
    ensures Union(Same, a, b + c) == Union(Same, Union(Same, a, b), c)
  {
    if c == [] {
      assert b + c == b;
    } else {
      UnionJoin(a, b, c[..|c| - 1]);
      assert (b + c)[..|b + c| - 1] == b + c[..|c| - 1];
    }
  }

  lemma UnionOfTail(a: seq<string>, b: seq<string>)
    ensures Union(Same, [], a + Union(Same, [], b)) == Union(Same, [], a + b)
  {
    UnionJoin([], a, Union(Same, [], b));
    UnionJoin([], a, b);
    UnionAssociative(Same, Union(Same, [], a), [], b);
  }

  /** Merging is associative: either bracketing settles the joined list. */
  lemma MergeAssociative(a: seq<Constraint>, b: seq<Constraint>, c: seq<Constraint>)
    ensures Settle(Settle(a + b) + c) == Settle(a + Settle(b + c)) == Settle(a + b + c)
  {
    hide Winner, Union, HasKey, Settle, Settled;
    var left, right := Settle(Settle(a + b) + c), Settle(a + Settle(b + c));
    LeftSettles(a + b, c, Settle(a + b), left);
    RightSettles(a, b + c, Settle(b + c), right);
    assert a + b + c == a + (b + c);
    SettledUnique(left, Settle(a + b + c), a + b + c);
    SettledUnique(right, Settle(a + b + c), a + b + c);
  }

  lemma LeftSettles(s: seq<Constraint>, c: seq<Constraint>, r: seq<Constraint>, left: seq<Constraint>)
    requires Settled(r, s) && Settled(left, r + c)
    ensures Settled(left, s + c)
  {
    hide Winner, Union, HasKey;
    assert Ids(r + c) == Ids(r) + Ids(c) && Ids(s + c) == Ids(s) + Ids(c);
    UnionOfUnion(Ids(s), Ids(c));
    forall i | 0 <= i < |left| ensures Winner(s + c, left[i].id) == [left[i]] {
      WinnerJoin(r, c, left[i].id);
      WinnerJoin(s, c, left[i].id);
      SettledWinner(r, s, left[i].id);
    }
  }

  lemma RightSettles(a: seq<Constraint>, s: seq<Constraint>, r: seq<Constraint>, right: seq<Constraint>)
    requires Settled(r, s) && Settled(right, a + r)
    ensures Settled(right, a + s)
  {
    hide Winner, Union, HasKey;
    assert Ids(a + r) == Ids(a) + Ids(r) && Ids(a + s) == Ids(a) + Ids(s);
    UnionOfTail(Ids(a), Ids(s));
    forall i | 0 <= i < |right| ensures Winner(a + s, right[i].id) == [right[i]] {
      WinnerJoin(a, r, right[i].id);
      WinnerJoin(a, s, right[i].id);
      SettledWinner(r, s, right[i].id);
    }
  }
}
