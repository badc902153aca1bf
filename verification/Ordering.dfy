/** Sorting and ordering shared by every pass: Python's stable `sorted` over a key,
    and the lexicographic order of identifiers. */
module Ordering {

  /** le is total and transitive on the members of s. */
  ghost predicate PreorderOn<T>(le: (T, T) -> bool, s: seq<T>) {
    && (forall x, y | x in s && y in s :: le(x, y) || le(y, x))
    && (forall x, y, z | x in s && y in s && z in s :: le(x, y) && le(y, z) ==> le(x, z))
  }

  ghost predicate SortedBy<T>(le: (T, T) -> bool, s: seq<T>) {
    forall i, j :: 0 <= i < j < |s| ==> le(s[i], s[j])
  }

  /** Place x in front of the first element it does not exceed. */
  function Insert<T>(le: (T, T) -> bool, x: T, s: seq<T>): (r: seq<T>)
    ensures multiset(r) == multiset([x] + s)
  {
    if s == [] then [x]
    else if le(x, s[0]) then [x] + s
    else
      assert s == [s[0]] + s[1..];
      [s[0]] + Insert(le, x, s[1..])
  }

  /** Stable sorting with the key comparison given by le. */
  function SortBy<T>(le: (T, T) -> bool, s: seq<T>): (r: seq<T>)
    ensures multiset(r) == multiset(s)
    ensures |r| == |s|
  {
    if s == [] then [] else
      assert s == [s[0]] + s[1..];
      var r := Insert(le, s[0], SortBy(le, s[1..]));
      assert |multiset(r)| == |multiset(s)|;
      r
  }

  lemma InsertMembers<T>(le: (T, T) -> bool, x: T, s: seq<T>)
    ensures forall y :: y in Insert(le, x, s) ==> y == x || y in s
  {
    forall y | y in Insert(le, x, s) ensures y == x || y in s {
      assert y in multiset(Insert(le, x, s));
      assert y in [x] + s;
    }
  }

  lemma {:induction false} InsertSorted<T>(le: (T, T) -> bool, x: T, s: seq<T>)
    requires PreorderOn(le, [x] + s) && SortedBy(le, s)
    ensures SortedBy(le, Insert(le, x, s))
  {
    assert x in [x] + s && forall y :: y in s ==> y in [x] + s;
    if s != [] && le(x, s[0]) {
      forall j | 0 <= j < |s| ensures le(x, s[j]) {
        assert s[0] in s && s[j] in s;
      }
    } else if s != [] {
      var rest := Insert(le, x, s[1..]);
      assert forall y :: y in [x] + s[1..] ==> y in [x] + s;
      InsertSorted(le, x, s[1..]);
      InsertMembers(le, x, s[1..]);
      forall j | 0 <= j < |rest| ensures le(s[0], rest[j]) {
        assert s[0] in s && rest[j] in rest;
        if rest[j] != x {
          var k :| 0 <= k < |s[1..]| && s[1..][k] == rest[j];
          assert le(s[0], s[k + 1]);
        }
      }
    }
  }

  lemma {:induction false} SortBySorted<T>(le: (T, T) -> bool, s: seq<T>)
    requires PreorderOn(le, s)
    ensures SortedBy(le, SortBy(le, s))
  {
    if s != [] {
      var r := SortBy(le, s[1..]);
      assert forall y :: y in s[1..] ==> y in s;
      SortBySorted(le, s[1..]);
      SameMembers(r, s[1..]);
      forall y | y in [s[0]] + r ensures y in s {
        if y != s[0] { assert y in r; }
      }
      InsertSorted(le, s[0], r);
    }
  }

  function Filter<T>(keep: T -> bool, s: seq<T>): (r: seq<T>) {
    if s == [] then [] else (if keep(s[0]) then [s[0]] else []) + Filter(keep, s[1..])
  }

  lemma {:induction false} FilterLast<T>(keep: T -> bool, s: seq<T>, x: T)
    ensures Filter(keep, s + [x]) == Filter(keep, s) + (if keep(x) then [x] else [])
  {
    if s == [] {
      assert s + [x] == [x] && [x][1..] == [];
    } else {
      FilterLast(keep, s[1..], x);
      assert (s + [x])[1..] == s[1..] + [x];
    }
  }

  lemma FilterFirst<T>(keep: T -> bool, x: T, s: seq<T>)
    ensures Filter(keep, [x] + s) == (if keep(x) then [x] else []) + Filter(keep, s)
  {
    assert ([x] + s)[1..] == s;
  }

  lemma {:induction false} InsertIsStable<T>(le: (T, T) -> bool, keep: T -> bool, x: T, s: seq<T>)
    requires keep(x) ==> forall y :: y in s && keep(y) ==> le(x, y)
    ensures Filter(keep, Insert(le, x, s)) == (if keep(x) then [x] else []) + Filter(keep, s)
  {
    hide Filter;
    if s == [] || le(x, s[0]) {
      FilterFirst(keep, x, s);
      assert [x] + s == Insert(le, x, s);
    } else {
      var rest := s[1..];
      assert s == [s[0]] + rest && s[0] in s;
      InsertIsStable(le, keep, x, rest);
      FilterFirst(keep, s[0], Insert(le, x, rest));
      FilterFirst(keep, s[0], rest);
      OneIsEmpty(if keep(x) then [x] else [], if keep(s[0]) then [s[0]] else [], Filter(keep, rest));
    }
  }

  lemma OneIsEmpty<T>(a: seq<T>, b: seq<T>, c: seq<T>)
    requires a == [] || b == []
    ensures b + (a + c) == a + (b + c)
  {
    if a == [] {
      assert a + c == c;
      assert a + (b + c) == b + c;
    } else {
      assert b + (a + c) == a + c;
      assert b + c == c;
    }
  }

  /** Sorting leaves elements that tie in the order they came in. */
  lemma {:induction false} SortIsStable<T>(le: (T, T) -> bool, keep: T -> bool, s: seq<T>)
    requires forall x, y :: x in s && y in s && keep(x) && keep(y) ==> le(x, y)
    ensures Filter(keep, SortBy(le, s)) == Filter(keep, s)
  {
    if s != [] {
      SortIsStable(le, keep, s[1..]);
      SameMembers(SortBy(le, s[1..]), s[1..]);
      InsertIsStable(le, keep, s[0], SortBy(le, s[1..]));
    }
  }

  lemma SameMembers<T>(s: seq<T>, t: seq<T>)
    requires multiset(s) == multiset(t)
    ensures forall i :: 0 <= i < |s| ==> s[i] in t
    ensures forall i :: 0 <= i < |t| ==> t[i] in s
  {
    forall i | 0 <= i < |s| ensures s[i] in t {
      assert s[i] in multiset(s);
      assert s[i] in multiset(t);
    }
    forall i | 0 <= i < |t| ensures t[i] in s {
      assert t[i] in multiset(t);
      assert t[i] in multiset(s);
    }
  }

  ghost predicate Distinct<T>(s: seq<T>) {
    forall i, j :: 0 <= i < j < |s| ==> s[i] != s[j]
  }

  lemma {:induction false} DistinctCounts<T>(s: seq<T>)
    requires Distinct(s)
    ensures forall x :: multiset(s)[x] <= 1
  {
    if s != [] {
      DistinctCounts(s[1..]);
      assert s == [s[0]] + s[1..];
    }
  }

  lemma PermutationDistinct<T>(s: seq<T>, t: seq<T>)
    requires multiset(s) == multiset(t) && Distinct(s)
    ensures Distinct(t)
  {
    DistinctCounts(s);
    forall i, j | 0 <= i < j < |t| ensures t[i] != t[j] {
      assert t == t[..i] + [t[i]] + t[i + 1..];
      assert multiset(t)[t[i]] <= 1;
      assert t[j] in multiset(t[i + 1..]);
    }
  }

  /** 0, 1, ..., n - 1: the domain of `range(n)`. */
  function Range(n: nat): (r: seq<nat>)
    ensures |r| == n && forall i :: 0 <= i < n ==> r[i] == i
  {
    seq(n, i => i)
  }

  /** Sorting the indices below n lists each of them once, in key order. */
  lemma SortedRange(le: (nat, nat) -> bool, n: nat, order: seq<nat>)
    requires PreorderOn(le, Range(n)) && order == SortBy(le, Range(n))
    ensures |order| == n && multiset(order) == multiset(Range(n))
    ensures Distinct(order) && SortedBy(le, order)
    ensures forall p :: 0 <= p < n ==> order[p] < n
    ensures forall v: nat :: v < n ==> v in order
  {
    SortBySorted(le, Range(n));
    PermutationDistinct(Range(n), order);
    SameMembers(order, Range(n));
    forall v: nat | v < n ensures v in order {
      assert Range(n)[v] == v;
    }
  }

  /** Code-point order of Python strings. */
  predicate StringLe(a: string, b: string) {
    if a == "" then true
    else if b == "" then false
    else if a[0] == b[0] then StringLe(a[1..], b[1..])
    else a[0] < b[0]
  }

  lemma {:induction false} StringLeTotal(a: string, b: string)
    ensures StringLe(a, b) || StringLe(b, a)
    ensures StringLe(a, b) && StringLe(b, a) ==> a == b
  {
    if a != "" && b != "" && a[0] == b[0] {
      StringLeTotal(a[1..], b[1..]);
      assert a == [a[0]] + a[1..] && b == [b[0]] + b[1..];
    }
  }

  lemma {:induction false} StringLeTransitive(a: string, b: string, c: string)
    requires StringLe(a, b) && StringLe(b, c)
    ensures StringLe(a, c)
  {
    if a != "" && b != "" && c != "" && a[0] == b[0] && b[0] == c[0] {
      StringLeTransitive(a[1..], b[1..], c[1..]);
    }
  }

  /** One text comes before another when it is its beginning, or where they first differ it has
      the smaller character. */
  lemma {:induction false} StringLeMeans(a: string, b: string)
    ensures StringLe(a, b) <==>
            || (|a| <= |b| && b[..|a|] == a)
            || exists k :: 0 <= k < |a| && k < |b| && a[..k] == b[..k] && a[k] < b[k]
  {
    if a != "" && b != "" {
      if a[0] == b[0] {
        var x, y := a[1..], b[1..];
        StringLeMeans(x, y);
        if |x| <= |y| && y[..|x|] == x { assert b[..|a|] == [b[0]] + y[..|x|] == [a[0]] + x; }
        if |a| <= |b| && b[..|a|] == a { assert y[..|x|] == b[..|a|][1..]; }
        if k :| 0 <= k < |x| && k < |y| && x[..k] == y[..k] && x[k] < y[k] {
          assert a[..k + 1] == [a[0]] + x[..k] && b[..k + 1] == [b[0]] + y[..k] && a[k + 1] < b[k + 1];
        }
        if k :| 0 <= k < |a| && k < |b| && a[..k] == b[..k] && a[k] < b[k] {
          assert k > 0 && x[..k - 1] == a[..k][1..] && y[..k - 1] == b[..k][1..] && x[k - 1] < y[k - 1];
        }
      } else {
        assert |a| <= |b| ==> b[..|a|][0] == b[0];
        assert forall k :: 0 < k <= |a| ==> a[..k][0] == a[0];
        assert forall k :: 0 < k <= |b| ==> b[..k][0] == b[0];
        if a[0] < b[0] { assert a[..0] == b[..0]; }
      }
    }
  }

  /** Order of a (time, id) key pair. */
  predicate KeyLe(t: real, a: string, u: real, b: string) {
    t < u || (t == u && StringLe(a, b))
  }

  lemma KeyLeTotal(t: real, a: string, u: real, b: string)
    ensures KeyLe(t, a, u, b) || KeyLe(u, b, t, a)
  {
    StringLeTotal(a, b);
  }

  lemma KeyLeTransitive(t: real, a: string, u: real, b: string, v: real, c: string)
    requires KeyLe(t, a, u, b) && KeyLe(u, b, v, c)
    ensures KeyLe(t, a, v, c)
  {
    if t == u == v { StringLeTransitive(a, b, c); }
  }

  /** Distinct values below m number at most m. */
  lemma DistinctBelow(f: seq<nat>, m: nat)
    requires Distinct(f) && forall i :: 0 <= i < |f| ==> f[i] < m
    ensures |f| <= m
  {
    ImageSize(f);
    SubsetSize(set i | 0 <= i < |f| :: f[i], Below(m));
  }

  lemma {:induction false} ImageSize<T>(f: seq<T>)
    requires Distinct(f)
    ensures |set i | 0 <= i < |f| :: f[i]| == |f|
  {
    if f != [] {
      var g := f[..|f| - 1];
      ImageSize(g);
      assert (set i | 0 <= i < |f| :: f[i]) == (set i | 0 <= i < |g| :: g[i]) + {f[|f| - 1]};
    }
  }

  /** The set {0, ..., m - 1}. */
  function Below(m: nat): (r: set<nat>)
    ensures |r| == m && forall k: nat :: k in r <==> k < m
  {
    if m == 0 then {} else Below(m - 1) + {m - 1}
  }

  lemma {:induction false} SubsetSize<T>(a: set<T>, b: set<T>)
    requires a <= b
    ensures |a| <= |b|
  {
    if a != {} {
      var x :| x in a;
      SubsetSize(a - {x}, b - {x});
    }
  }

  /** most is the largest of the values, or zero when there is none. */
  ghost predicate IsMost(values: seq<real>, most: real) {
    && (forall i :: 0 <= i < |values| ==> values[i] <= most)
    && (if values == [] then most == 0.0 else exists i :: 0 <= i < |values| && values[i] == most)
  }

  function Most(values: seq<real>): (most: real)
    ensures IsMost(values, most)
  {
    if values == [] then 0.0
    else if |values| == 1 then values[0]
    else
      var front, last := values[..|values| - 1], values[|values| - 1];
      var most := Most(front);
      assert forall i :: 0 <= i < |front| ==> values[i] == front[i];
      if last > most then last else most
  }

  /** The least of the values. */
  function Least(values: seq<real>): (least: real)
    requires values != []
    ensures forall i :: 0 <= i < |values| ==> least <= values[i]
    ensures exists i :: 0 <= i < |values| && values[i] == least
  {
    if |values| == 1 then values[0]
    else
      var front, last := values[..|values| - 1], values[|values| - 1];
      var least := Least(front);
      assert forall i :: 0 <= i < |front| ==> values[i] == front[i];
      if last < least then last else least
  }
}
