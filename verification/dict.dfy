/** Python's insertion-ordered `dict`, as the list of its
    (key, value) entries in insertion order. Keys are distinct in a real
    `dict`; `DistinctKeys` says so where it is needed. */
module Dict {
  import opened Options

  function Keys<K(==), V>(m: seq<(K, V)>): (ks: seq<K>)
    ensures |ks| == |m|
    ensures forall i :: 0 <= i < |m| ==> ks[i] == m[i].0
  {
    if |m| == 0 then [] else [m[0].0] + Keys(m[1..])
  }

  predicate DistinctKeys<K(==), V>(m: seq<(K, V)>) {
    forall i, j :: 0 <= i < j < |m| ==> m[i].0 != m[j].0
  }

  /** `m.get(k)`: the value stored under `k`, if any. */
  function Lookup<K(==), V>(m: seq<(K, V)>, k: K): (r: Option<V>)
    ensures r.None? <==> k !in Keys(m)
    ensures r.Some? ==> (k, r.value) in m
  {
    if |m| == 0 then None
    else if m[0].0 == k then Some(m[0].1)
    else
      assert Keys(m) == [m[0].0] + Keys(m[1..]);
      Lookup(m[1..], k)
  }

  /** Where `k` sits in the iteration order of `m`; |m| when it is absent. */
  function Position<K(==), V>(m: seq<(K, V)>, k: K): (p: nat)
    ensures p <= |m|
    ensures p < |m| ==> m[p].0 == k
  {
    if |m| == 0 then 0
    else if m[0].0 == k then 0
    else 1 + Position(m[1..], k)
  }

  /** `Position` finds every key and only keys, at its first occurrence. */
  lemma {:induction false} PositionFinds<K, V>(m: seq<(K, V)>, k: K)
    ensures Position(m, k) < |m| <==> k in Keys(m)
    ensures forall i :: 0 <= i < Position(m, k) ==> m[i].0 != k
  {
    if |m| > 0 && m[0].0 != k {
      PositionFinds(m[1..], k);
      TailKeys(m);
      assert forall i :: 1 <= i < |m| ==> m[i] == m[1..][i - 1];
    }
  }

  /** With distinct keys an entry is found by its key: `Lookup` returns the
      value stored with it and `Position` its index. */
  lemma LookupEntry<K, V>(m: seq<(K, V)>, i: nat)
    requires DistinctKeys(m) && i < |m|
    ensures m[i].0 in Keys(m)
    ensures Lookup(m, m[i].0) == Some(m[i].1)
    ensures Position(m, m[i].0) == i
  {
    assert Keys(m)[i] == m[i].0;
    var k := m[i].0;
    PositionFinds(m, k);
    var v := Lookup(m, k).value;
    var j :| 0 <= j < |m| && m[j] == (k, v);
    assert j == i;
  }

  /** The keys of `m` are its first key followed by the keys of its tail,
      and distinct keys stay distinct in the tail. */
  lemma TailKeys<K, V>(m: seq<(K, V)>)
    requires |m| > 0
    ensures Keys(m) == [m[0].0] + Keys(m[1..])
    ensures DistinctKeys(m) ==> DistinctKeys(m[1..]) && m[0].0 !in Keys(m[1..])
  {
    assert Keys(m) == [m[0].0] + Keys(m[1..]);
  }

  /** Past the first key, positions in `m` are one more than in its tail. */
  lemma TailPositions<K, V>(m: seq<(K, V)>)
    requires |m| > 0
    ensures forall k :: k != m[0].0 ==> Position(m, k) == 1 + Position(m[1..], k)
  {
  }

  /** The keys of `sub` are keys of `m`. */
  predicate KeysIn<K(==), U, V>(sub: seq<(K, V)>, m: seq<(K, U)>) {
    forall i :: 0 <= i < |sub| ==> sub[i].0 in Keys(m)
  }

  /** The keys of `sub` come in the order they have in `m`. */
  predicate OrderedBy<K(==), U, V>(sub: seq<(K, V)>, m: seq<(K, U)>) {
    forall i, j :: 0 <= i < j < |sub| ==> Position(m, sub[i].0) < Position(m, sub[j].0)
  }

  /** The keys of `sub` are keys of `m`, listed in the order of `m`. */
  predicate InOrderOf<K(==), U, V>(sub: seq<(K, V)>, m: seq<(K, U)>) {
    KeysIn(sub, m) && OrderedBy(sub, m)
  }

  /** Keys listed in the order of the tail of `m` are listed in the order
      of `m`. */
  lemma TailInOrder<K, U, V>(m: seq<(K, U)>, sub: seq<(K, V)>)
    requires |m| > 0 && DistinctKeys(m) && InOrderOf(sub, m[1..])
    ensures InOrderOf(sub, m)
    ensures forall i :: 0 <= i < |sub| ==> sub[i].0 != m[0].0
  {
    TailKeysIn(m, sub);
    TailOrdered(m, sub);
  }

  lemma TailKeysIn<K, U, V>(m: seq<(K, U)>, sub: seq<(K, V)>)
    requires |m| > 0 && DistinctKeys(m) && KeysIn(sub, m[1..])
    ensures KeysIn(sub, m)
    ensures forall i :: 0 <= i < |sub| ==> sub[i].0 != m[0].0
  {
    TailKeys(m);
  }

  lemma TailOrdered<K, U, V>(m: seq<(K, U)>, sub: seq<(K, V)>)
    requires |m| > 0 && OrderedBy(sub, m[1..])
    requires forall i :: 0 <= i < |sub| ==> sub[i].0 != m[0].0
    ensures OrderedBy(sub, m)
  {
    TailPositions(m);
  }

  /** Putting the first key of `m` in front of keys listed in the order of
      its tail lists distinct keys in the order of `m`. */
  lemma PrependInOrder<K, U, V>(m: seq<(K, U)>, v: V, sub: seq<(K, V)>)
    requires |m| > 0 && DistinctKeys(m)
    requires DistinctKeys(sub) && InOrderOf(sub, m[1..])
    ensures DistinctKeys([(m[0].0, v)] + sub)
    ensures InOrderOf([(m[0].0, v)] + sub, m)
  {
    TailInOrder(m, sub);
    PrependDistinct(m[0].0, v, sub);
    PrependKeys(m, v, sub);
    PrependOrdered(m, v, sub);
  }

  lemma PrependDistinct<K, V>(k: K, v: V, sub: seq<(K, V)>)
    requires DistinctKeys(sub)
    requires forall i :: 0 <= i < |sub| ==> sub[i].0 != k
    ensures DistinctKeys([(k, v)] + sub)
  {
    var s := [(k, v)] + sub;
    forall i, j | 0 <= i < j < |s|
      ensures s[i].0 != s[j].0
    {
      assert s[j] == sub[j - 1];
      if i > 0 {
        assert s[i] == sub[i - 1];
      }
    }
  }

  lemma PrependKeys<K, U, V>(m: seq<(K, U)>, v: V, sub: seq<(K, V)>)
    requires |m| > 0 && KeysIn(sub, m)
    ensures KeysIn([(m[0].0, v)] + sub, m)
  {
    var s := [(m[0].0, v)] + sub;
    assert Keys(m)[0] == m[0].0;
    forall i | 0 <= i < |s|
      ensures s[i].0 in Keys(m)
    {
      if i > 0 {
        assert s[i] == sub[i - 1];
      }
    }
  }

  lemma PrependOrdered<K, U, V>(m: seq<(K, U)>, v: V, sub: seq<(K, V)>)
    requires |m| > 0 && OrderedBy(sub, m)
    requires forall i :: 0 <= i < |sub| ==> sub[i].0 != m[0].0
    ensures OrderedBy([(m[0].0, v)] + sub, m)
  {
    var s := [(m[0].0, v)] + sub;
    forall j | 0 < j < |s|
      ensures Position(m, s[0].0) < Position(m, s[j].0)
    {
      assert s[j] == sub[j - 1];
      PositionPastFirst(m, sub[j - 1].0);
    }
    forall i, j | 0 < i < j < |s|
      ensures Position(m, s[i].0) < Position(m, s[j].0)
    {
      assert s[i] == sub[i - 1] && s[j] == sub[j - 1];
    }
  }

  /** The first key sits at position 0 and every other key after it. */
  lemma PositionPastFirst<K, V>(m: seq<(K, V)>, k: K)
    requires |m| > 0 && k != m[0].0
    ensures Position(m, m[0].0) == 0 < Position(m, k)
  {
  }
}
