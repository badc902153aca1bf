/** Dictionaries of lists and plain list helpers. */
module Tables {

  function AppendTo<K, V>(m: map<K, seq<V>>, k: K, v: V): map<K, seq<V>> {
    m[k := (if k in m then m[k] else []) + [v]]
  }

  ghost predicate InTable<K, V>(m: map<K, seq<V>>, k: K, v: V) {
    k in m && v in m[k]
  }

  ghost predicate NoEmptyRow<K, V>(m: map<K, seq<V>>) {
    forall k :: k in m ==> m[k] != []
  }

  lemma AppendToAdds<K, V>(m: map<K, seq<V>>, k: K, v: V, k': K, v': V)
    ensures InTable(AppendTo(m, k, v), k', v') <==> InTable(m, k', v') || (k' == k && v' == v)
  {
  }

  function Members<T>(s: seq<T>): set<T> { set x | x in s }

  /** Every item paired with one tag, in order. */
  function Tagged<A, B>(items: seq<A>, tag: B): seq<(A, B)> {
    seq(|items|, k requires 0 <= k < |items| => (items[k], tag))
  }
}
