/** Multi-maps built by appending: the pattern `a = map.get(k); a = (a == null) ? {v} :
    ArrayUtils.add(a, v); map.put(k, a)` with which the spent-output index, the UTXO
    index and the spendable-output selection are all filled. */
module Grouping {

  /** One append: v goes to the end of the array under k, which starts as `{v}` when k
      has no entry. */
  function Append<K(==), V>(m: map<K, seq<V>>, k: K, v: V): (r: map<K, seq<V>>)
  {
    m[k := if k in m then m[k] + [v] else [v]]
  }

  /** The map left by appending every pair in order, starting from an empty map. */
  function Group<K(==), V>(pairs: seq<(K, V)>): map<K, seq<V>>
  {
    if pairs == [] then map[]
    else
      var n := |pairs| - 1;
      Append(Group(pairs[..n]), pairs[n].0, pairs[n].1)
  }

  /** The values paired with k, in order: an independent description of what a grouped
      map holds under k. */
  function ValuesOf<K(==), V>(pairs: seq<(K, V)>, k: K): (r: seq<V>)
    ensures |r| <= |pairs|
  {
    if pairs == [] then []
    else
      var n := |pairs| - 1;
      ValuesOf(pairs[..n], k) + (if pairs[n].0 == k then [pairs[n].1] else [])
  }

  /** Appending one more pair is one more `Append`. */
  lemma GroupSnoc<K, V>(pairs: seq<(K, V)>, k: K, v: V)
    ensures Group(pairs + [(k, v)]) == Append(Group(pairs), k, v)
  {
    assert (pairs + [(k, v)])[..|pairs|] == pairs;
  }

  /** A key has an entry exactly when some value is paired with it, and the entry is
      the values paired with it, in order. */
  lemma {:induction false} GroupMeaning<K, V>(pairs: seq<(K, V)>, k: K)
    ensures k in Group(pairs) <==> ValuesOf(pairs, k) != []
    ensures k in Group(pairs) ==> Group(pairs)[k] == ValuesOf(pairs, k)
    decreases |pairs|
  {
    if pairs != [] {
      GroupMeaning(pairs[..|pairs| - 1], k);
    }
  }

  /** v is among the values of k exactly when the pair (k, v) occurs. */
  lemma {:induction false} ValuesOfMembership<K, V>(pairs: seq<(K, V)>, k: K, v: V)
    ensures v in ValuesOf(pairs, k) <==> (k, v) in pairs
    decreases |pairs|
  {
    if pairs != [] {
      var n := |pairs| - 1;
      ValuesOfMembership(pairs[..n], k, v);
      assert pairs == pairs[..n] + [pairs[n]];
    }
  }

  /** The values of a concatenation are the values of each part, in order. */
  lemma {:induction false} ValuesOfAppend<K, V>(a: seq<(K, V)>, b: seq<(K, V)>, k: K)
    ensures ValuesOf(a + b, k) == ValuesOf(a, k) + ValuesOf(b, k)
    decreases |b|
  {
    if b != [] {
      var n := |b| - 1;
      assert (a + b)[..|a| + n] == a + b[..n];
      ValuesOfAppend(a, b[..n], k);
    } else {
      assert a + b == a;
    }
  }
}
