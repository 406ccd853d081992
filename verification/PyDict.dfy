/** Insertion-ordered dictionaries, as the Python code uses them: a sequence of
    entries with pairwise distinct keys, in the order in which the keys were first
    assigned. */
module PyDict {

  datatype Option<+T> = None | Some(value: T)

  type Dict<K, V> = seq<(K, V)>

  ghost predicate HasKey<K, V>(d: Dict<K, V>, k: K) {
    exists i :: 0 <= i < |d| && d[i].0 == k
  }

  ghost predicate Distinct<K, V>(d: Dict<K, V>) {
    forall i, j :: 0 <= i < j < |d| ==> d[i].0 != d[j].0
  }

  /** `d.get(k)`. */
  function Get<K(==), V>(d: Dict<K, V>, k: K): (r: Option<V>)
    ensures r.Some? <==> HasKey(d, k)
    ensures r.Some? ==> exists i :: 0 <= i < |d| && d[i] == (k, r.value)
  {
    if d == [] then None
    else if d[0].0 == k then
      assert d[0] == (k, d[0].1);
      Some(d[0].1)
    else
      var r := Get(d[1..], k);
      assert forall i :: 0 <= i < |d[1..]| ==> d[1..][i] == d[i + 1];
      r
  }

  /** `d[k] = v`: an existing key keeps its place, a new one goes to the end. */
  function Set<K(==), V>(d: Dict<K, V>, k: K, v: V): (r: Dict<K, V>)
    ensures Get(r, k) == Some(v)
  {
    if d == [] then [(k, v)]
    else if d[0].0 == k then [(k, v)] + d[1..]
    else [d[0]] + Set(d[1..], k, v)
  }

  lemma {:induction false} GetAfterSet<K, V>(d: Dict<K, V>, k: K, v: V, q: K)
    ensures Get(Set(d, k, v), q) == if q == k then Some(v) else Get(d, q)
  {
    if d != [] && d[0].0 != k {
      GetAfterSet(d[1..], k, v, q);
    }
  }

  lemma {:induction false} SetKeepsDistinct<K, V>(d: Dict<K, V>, k: K, v: V)
    requires Distinct(d)
    ensures Distinct(Set(d, k, v))
    ensures forall q :: HasKey(Set(d, k, v), q) <==> q == k || HasKey(d, q)
  {
    forall q ensures HasKey(Set(d, k, v), q) <==> q == k || HasKey(d, q) {
      GetAfterSet(d, k, v, q);
    }
    if d != [] && d[0].0 != k {
      var tail := Set(d[1..], k, v);
      SetKeepsDistinct(d[1..], k, v);
      forall j | 0 <= j < |tail| ensures tail[j].0 != d[0].0 {
        assert HasKey(tail, tail[j].0);
        if HasKey(d[1..], tail[j].0) {
          var i :| 0 <= i < |d[1..]| && d[1..][i].0 == tail[j].0;
          assert d[i + 1].0 == tail[j].0;
        }
      }
    }
  }

  lemma NotInRest<K, V>(d: Dict<K, V>, k: K)
    requires !HasKey(d, k) && d != []
    ensures d[0].0 != k && !HasKey(d[1..], k)
  {
    forall i | 0 <= i < |d[1..]| ensures d[1..][i].0 != k {
      assert d[1..][i] == d[i + 1];
    }
  }

  lemma HeadAndRest<K, V>(d: Dict<K, V>, e: (K, V))
    requires d != []
    ensures [d[0]] + (d[1..] + [e]) == d + [e]
  {
  }

  lemma {:induction false} SetFresh<K, V>(d: Dict<K, V>, k: K, v: V)
    requires !HasKey(d, k)
    ensures Set(d, k, v) == d + [(k, v)]
  {
    if d != [] {
      NotInRest(d, k);
      SetFresh(d[1..], k, v);
      HeadAndRest(d, (k, v));
    }
  }

  lemma {:induction false} GetAt<K, V>(d: Dict<K, V>, i: nat)
    requires Distinct(d) && i < |d|
    ensures Get(d, d[i].0) == Some(d[i].1)
  {
  }
}
