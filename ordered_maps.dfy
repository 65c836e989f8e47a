/**
 * A JavaScript `Map`: a finite map that also remembers the order in which
 * its keys were first inserted. `set` on a key already present replaces the
 * value and keeps the key where it was; `delete` drops the key, so a later
 * `set` of it puts it last. `values()` lists the values in key order.
 */
module OrderedMaps {

  /** No element of `s` occurs twice. */
  ghost predicate Distinct<T>(s: seq<T>) {
    s == [] || (s[0] !in s[1..] && Distinct(s[1..]))
  }

  /** In a sequence without repetitions, different positions hold different elements. */
  lemma {:induction false} DistinctAt<T>(s: seq<T>, i: nat, j: nat)
    requires Distinct(s) && i < |s| && j < |s| && i != j
    ensures s[i] != s[j]
  {
    if i == 0 {
      assert s[j] == s[1..][j - 1];
    } else if j == 0 {
      assert s[i] == s[1..][i - 1];
    } else {
      DistinctAt(s[1..], i - 1, j - 1);
    }
  }

  /** The pairwise form of `Distinct`. */
  lemma DistinctPairwise<T>(s: seq<T>)
    requires Distinct(s)
    ensures forall i, j :: 0 <= i < j < |s| ==> s[i] != s[j]
  {
    forall i, j | 0 <= i < j < |s|
      ensures s[i] != s[j]
    {
      DistinctAt(s, i, j);
    }
  }

  /** Appending an element that is not there yet keeps a sequence free of repetitions. */
  lemma {:induction false} DistinctAppend<T>(s: seq<T>, x: T)
    requires Distinct(s) && x !in s
    ensures Distinct(s + [x])
  {
    if s != [] {
      assert (s + [x])[1..] == s[1..] + [x];
      DistinctAppend(s[1..], x);
    }
  }

  /** `r` is `s` with some elements dropped and the rest in their original order. */
  ghost predicate IsSubsequence<T>(r: seq<T>, s: seq<T>)
    decreases |s|
  {
    if r == [] then true
    else if s == [] then false
    else (r[0] == s[0] && IsSubsequence(r[1..], s[1..])) || IsSubsequence(r, s[1..])
  }

  /** `s` with every occurrence of `k` removed. */
  function Without<K(==, !new)>(s: seq<K>, k: K): (r: seq<K>)
    ensures forall x :: x in r <==> x in s && x != k
    ensures Distinct(s) ==> Distinct(r)
    ensures IsSubsequence(r, s)
  {
    if s == [] then []
    else if s[0] == k then Without(s[1..], k)
    else
      var rest := Without(s[1..], k);
      assert ([s[0]] + rest)[1..] == rest;
      [s[0]] + rest
  }

  /** Every sequence is a subsequence of itself. */
  lemma {:induction false} SubsequenceReflexive<T>(s: seq<T>)
    ensures IsSubsequence(s, s)
  {
    if s != [] {
      SubsequenceReflexive(s[1..]);
    }
  }

  /** Removing a key that is absent changes nothing. */
  lemma {:induction false} WithoutAbsent<K(!new)>(s: seq<K>, k: K)
    requires k !in s
    ensures Without(s, k) == s
  {
    if s != [] {
      WithoutAbsent(s[1..], k);
    }
  }

  /** In a sequence without repetitions, removing the element at `p` closes the gap. */
  lemma {:induction false} WithoutAt<K(!new)>(s: seq<K>, p: nat)
    requires Distinct(s) && p < |s|
    ensures Without(s, s[p]) == s[..p] + s[p + 1..]
  {
    if p == 0 {
      WithoutAbsent(s[1..], s[0]);
    } else {
      assert s[1..][p - 1] == s[p];
      DistinctAt(s, 0, p);
      WithoutAt(s[1..], p - 1);
      assert s[..p] == [s[0]] + s[1..][..p - 1];
      assert s[p + 1..] == s[1..][p..];
    }
  }

  datatype OrderedMap<K(==, !new), V> = OrderedMap(keys: seq<K>, entries: map<K, V>) {

    /** The key order lists each key of the map exactly once. */
    ghost predicate Valid() {
      Distinct(keys) && forall k :: k in entries <==> k in keys
    }

    /** `Map.prototype.set`: a new key goes last, a present key keeps its place. */
    function Set(k: K, v: V): (r: OrderedMap<K, V>)
      requires Valid()
      ensures r.Valid()
      ensures r.entries == entries[k := v]
      ensures k in entries ==> r.keys == keys
      ensures k !in entries ==> r.keys == keys + [k]
    {
      if k in entries then
        OrderedMap(keys, entries[k := v])
      else
        DistinctAppend(keys, k);
        OrderedMap(keys + [k], entries[k := v])
    }

    /** `Map.prototype.delete`: the key leaves both the map and the order. */
    function Delete(k: K): (r: OrderedMap<K, V>)
      requires Valid()
      ensures r.Valid()
      ensures r.entries == entries - {k}
      ensures k !in entries ==> r == this
      ensures IsSubsequence(r.keys, keys)
    {
      if k !in entries then
        SubsequenceReflexive(keys);
        this
      else
        OrderedMap(Without(keys, k), entries - {k})
    }

    /** `Array.from(map.values())`: one value per key, in key order. */
    function Values(): (r: seq<V>)
      requires Valid()
      ensures |r| == |keys|
      ensures forall i :: 0 <= i < |keys| ==> keys[i] in entries && r[i] == entries[keys[i]]
    {
      seq(|keys|, i requires 0 <= i < |keys| => entries[keys[i]])
    }
  }

  /** `new Map()`. */
  function Empty<K(==, !new), V>(): (r: OrderedMap<K, V>)
    ensures r.Valid() && r.entries == map[] && r.keys == []
  {
    OrderedMap([], map[])
  }

  /** The values listed are exactly the values stored, each under some key. */
  lemma ValuesComplete<K(!new), V>(m: OrderedMap<K, V>)
    requires m.Valid()
    ensures forall k :: k in m.entries ==> m.entries[k] in m.Values()
    ensures forall v :: v in m.Values() ==> exists k :: k in m.entries && m.entries[k] == v
  {
    var vs := m.Values();
    forall k | k in m.entries
      ensures m.entries[k] in vs
    {
      var i :| 0 <= i < |m.keys| && m.keys[i] == k;
      assert vs[i] == m.entries[k];
    }
  }

  /** Setting a new key appends its value to the value list. */
  lemma ValuesSetNew<K(!new), V>(m: OrderedMap<K, V>, k: K, v: V)
    requires m.Valid() && k !in m.entries
    ensures m.Set(k, v).Values() == m.Values() + [v]
  {
  }

  /** Setting a present key replaces its value where it stands. */
  lemma ValuesSetPresent<K(!new), V>(m: OrderedMap<K, V>, p: nat, v: V)
    requires m.Valid() && p < |m.keys|
    ensures m.Set(m.keys[p], v).Values() == m.Values()[p := v]
  {
    var r := m.Set(m.keys[p], v);
    forall i | 0 <= i < |m.keys|
      ensures r.Values()[i] == m.Values()[p := v][i]
    {
      if i != p {
        DistinctAt(m.keys, i, p);
      }
    }
  }

  /** Deleting a key drops exactly its value from the value list. */
  lemma ValuesDelete<K(!new), V>(m: OrderedMap<K, V>, p: nat)
    requires m.Valid() && p < |m.keys|
    ensures m.Delete(m.keys[p]).Values() == m.Values()[..p] + m.Values()[p + 1..]
  {
    WithoutAt(m.keys, p);
    var r := m.Delete(m.keys[p]);
    assert r.keys == m.keys[..p] + m.keys[p + 1..];
    forall i | 0 <= i < |r.keys|
      ensures r.Values()[i] == (m.Values()[..p] + m.Values()[p + 1..])[i]
    {
      if i < p {
        assert r.keys[i] == m.keys[i];
      } else {
        assert r.keys[i] == m.keys[i + 1];
      }
    }
  }

  /** Setting the same key to the same value twice is the same as once. */
  lemma SetIdempotent<K(!new), V>(m: OrderedMap<K, V>, k: K, v: V)
    requires m.Valid()
    ensures m.Set(k, v).Set(k, v) == m.Set(k, v)
  {
  }

  /** Deleting the same key twice is the same as once. */
  lemma DeleteIdempotent<K(!new), V>(m: OrderedMap<K, V>, k: K)
    requires m.Valid()
    ensures m.Delete(k).Delete(k) == m.Delete(k)
  {
  }
}
