/**
  Insertion-ordered dictionaries, the way Python's `dict` behaves: a
  sequence of key/value entries with pairwise distinct keys. Assigning to a
  key that is already present replaces its value where it stands; a new key
  is appended at the end.
 */
module Dict {
  import opened Wrappers

  type Dict<K, V> = seq<(K, V)>

  predicate Distinct<T(==)>(s: seq<T>) {
    forall i, j :: 0 <= i < j < |s| ==> s[i] != s[j]
  }

  function Keys<K, V>(d: seq<(K, V)>): seq<K> {
    seq(|d|, i requires 0 <= i < |d| => d[i].0)
  }

  function Values<K, V>(d: seq<(K, V)>): seq<V> {
    seq(|d|, i requires 0 <= i < |d| => d[i].1)
  }

  /** A well-formed dictionary has no key twice. */
  predicate Valid<K(==), V>(d: Dict<K, V>) {
    Distinct(Keys(d))
  }

  lemma KeysCons<K, V>(d: seq<(K, V)>)
    requires |d| > 0
    ensures Keys(d) == [d[0].0] + Keys(d[1..])
  {
  }

  /** `d.get(k)`. */
  function Get<K(==), V>(d: Dict<K, V>, k: K): (r: Option<V>)
    ensures r.None? <==> k !in Keys(d)
    ensures r.Some? ==> exists i :: 0 <= i < |d| && d[i] == (k, r.value)
  {
    if |d| == 0 then None
    else if d[0].0 == k then
      assert Keys(d)[0] == k;
      Some(d[0].1)
    else
      KeysCons(d);
      var r := Get(d[1..], k);
      assert r.Some? ==> exists i :: 0 <= i < |d| && d[i] == (k, r.value) by {
        if r.Some? {
          var i :| 0 <= i < |d[1..]| && d[1..][i] == (k, r.value);
          assert d[i + 1] == (k, r.value);
        }
      }
      r
  }

  /** In a well-formed dictionary every entry is what a lookup of its key finds. */
  lemma {:induction false} GetAt<K, V>(d: Dict<K, V>, i: int)
    requires Valid(d)
    requires 0 <= i < |d|
    ensures Get(d, d[i].0) == Some(d[i].1)
  {
    if i > 0 {
      assert d[0].0 != d[i].0 by { assert Keys(d)[0] != Keys(d)[i]; }
      assert Valid(d[1..]) by {
        forall a, b | 0 <= a < b < |d[1..]|
          ensures Keys(d[1..])[a] != Keys(d[1..])[b]
        {
          assert Keys(d)[a + 1] != Keys(d)[b + 1];
        }
      }
      GetAt(d[1..], i - 1);
    }
  }

  /** `d[k] = v`. */
  function Put<K(==,!new), V>(d: Dict<K, V>, k: K, v: V): (r: Dict<K, V>)
    ensures Get(r, k) == Some(v)
    ensures forall k' :: k' != k ==> Get(r, k') == Get(d, k')
    ensures k in Keys(d) ==> Keys(r) == Keys(d)
    ensures k !in Keys(d) ==> Keys(r) == Keys(d) + [k]
    ensures Valid(d) ==> Valid(r)
  {
    if |d| == 0 then [(k, v)]
    else if d[0].0 == k then
      var r := [(k, v)] + d[1..];
      KeysCons(d);
      KeysCons(r);
      assert r[1..] == d[1..];
      r
    else
      var rest := Put(d[1..], k, v);
      var r := [d[0]] + rest;
      KeysCons(d);
      KeysCons(r);
      assert r[1..] == rest;
      r
  }

  /**
    Python's `dict(pairs)` and `{k: v for ...}`: the pairs are assigned in
    order, so a later pair overwrites an earlier one with the same key.
   */
  function FromPairs<K(==,!new), V>(ps: seq<(K, V)>): (d: Dict<K, V>)
    ensures Valid(d)
    ensures |d| <= |ps|
    ensures forall k :: k in Keys(d) <==> k in Keys(ps)
  {
    if |ps| == 0 then []
    else
      var init := ps[..|ps| - 1];
      var d := Put(FromPairs(init), ps[|ps| - 1].0, ps[|ps| - 1].1);
      assert forall k :: k in Keys(ps) <==> k in Keys(init) || k == ps[|ps| - 1].0 by {
        assert Keys(ps) == Keys(init) + [ps[|ps| - 1].0];
      }
      d
  }

  /** Reference meaning of a dictionary built from pairs: the value of the last pair with key `k`. */
  function LastValue<K(==), V>(ps: seq<(K, V)>, k: K): Option<V> {
    if |ps| == 0 then None
    else if ps[|ps| - 1].0 == k then Some(ps[|ps| - 1].1)
    else LastValue(ps[..|ps| - 1], k)
  }

  /** A dictionary built from pairs maps every key to the value of its last pair. */
  lemma {:induction false} GetFromPairs<K(!new), V>(ps: seq<(K, V)>, k: K)
    ensures Get(FromPairs(ps), k) == LastValue(ps, k)
  {
    if |ps| > 0 {
      GetFromPairs(ps[..|ps| - 1], k);
    }
  }

  /** Pairs whose keys are already distinct make a dictionary that keeps all of them, in order. */
  lemma {:induction false} FromDistinctPairs<K(!new), V>(ps: seq<(K, V)>)
    requires Distinct(Keys(ps))
    ensures FromPairs(ps) == ps
  {
    if |ps| > 0 {
      var init, last := ps[..|ps| - 1], ps[|ps| - 1];
      DistinctLast(ps);
      FromDistinctPairs(init);
      AppendNewPair(init, last);
      assert init + [last] == ps;
    }
  }

  /** A pair with a new key, after pairs that already form themselves, is kept at the end. */
  lemma AppendNewPair<K(!new), V>(init: seq<(K, V)>, last: (K, V))
    requires FromPairs(init) == init && last.0 !in Keys(init)
    ensures FromPairs(init + [last]) == init + [last]
  {
    var ps := init + [last];
    assert ps[..|ps| - 1] == init;
    PutAppends(init, last.0, last.1);
  }

  /** Without its last pair, pairs with distinct keys still have distinct keys, none of them the last key. */
  lemma DistinctLast<K, V>(ps: seq<(K, V)>)
    requires |ps| > 0 && Distinct(Keys(ps))
    ensures Distinct(Keys(ps[..|ps| - 1]))
    ensures ps[|ps| - 1].0 !in Keys(ps[..|ps| - 1])
  {
    var init := ps[..|ps| - 1];
    forall i, j | 0 <= i < j < |init| ensures Keys(init)[i] != Keys(init)[j] {
      assert Keys(ps)[i] != Keys(ps)[j];
    }
    forall i | 0 <= i < |init| ensures Keys(init)[i] != ps[|ps| - 1].0 {
      assert Keys(ps)[i] != Keys(ps)[|ps| - 1];
    }
  }

  /** Assigning a new key appends exactly one entry. */
  lemma {:induction false} PutAppends<K(!new), V>(d: Dict<K, V>, k: K, v: V)
    requires k !in Keys(d)
    ensures Put(d, k, v) == d + [(k, v)]
  {
    if |d| > 0 {
      KeysCons(d);
      PutAppends(d[1..], k, v);
      assert [d[0]] + (d[1..] + [(k, v)]) == d + [(k, v)];
    }
  }

  /** The inverse dictionary: every entry turned around. */
  function Swap<K, V>(d: Dict<K, V>): Dict<V, K> {
    seq(|d|, i requires 0 <= i < |d| => (d[i].1, d[i].0))
  }

  /**
    A dictionary whose values are pairwise distinct (an injective table) is
    inverted by `Swap`: the inverse is well formed and looks up each value's key.
   */
  lemma InverseRoundTrip<K, V>(d: Dict<K, V>, k: K, v: V)
    requires Valid(d)
    requires Distinct(Values(d))
    ensures Valid(Swap(d))
    ensures Get(d, k) == Some(v) <==> Get(Swap(d), v) == Some(k)
  {
    var s := Swap(d);
    assert Keys(s) == Values(d);
    if Get(d, k) == Some(v) {
      var i :| 0 <= i < |d| && d[i] == (k, v);
      GetAt(s, i);
    }
    if Get(s, v) == Some(k) {
      var i :| 0 <= i < |s| && s[i] == (v, k);
      assert d[i] == (k, v);
      GetAt(d, i);
    }
  }
}
