/** Python dicts: key-value pairs in insertion order. */
module Dicts {
  import opened Text

  type Dict<K, V> = seq<(K, V)>

  function Get<K(==), V>(d: Dict<K, V>, key: K): (r: Option<V>) {
    if d == [] then None else if d[0].0 == key then Some(d[0].1) else Get(d[1..], key)
  }

  function GetOr<K(==), V>(d: Dict<K, V>, key: K, default: V): (r: V) {
    match Get(d, key)
    case None => default
    case Some(v) => v
  }

  /** `d[key] = value`: an old key keeps its place, a new one goes last. */
  function Put<K(==), V>(d: Dict<K, V>, key: K, value: V): (r: Dict<K, V>)
    ensures r != []
  {
    if d == [] then [(key, value)]
    else if d[0].0 == key then [(key, value)] + d[1..]
    else [d[0]] + Put(d[1..], key, value)
  }

  function Keys<K, V>(d: Dict<K, V>): (r: seq<K>)
    ensures |r| == |d| && forall i | 0 <= i < |d| :: r[i] == d[i].0
  {
    seq(|d|, i requires 0 <= i < |d| => d[i].0)
  }

  ghost predicate DistinctKeys<K, V>(d: Dict<K, V>) {
    forall i, j | 0 <= i < j < |d| :: d[i].0 != d[j].0
  }

  lemma {:induction false} PutReads<K, V>(d: Dict<K, V>, key: K, value: V, other: K)
    ensures Get(Put(d, key, value), other) == if other == key then Some(value) else Get(d, other)
  {
    if d != [] && d[0].0 != key {
      PutReads(d[1..], key, value, other);
      assert Put(d, key, value)[1..] == Put(d[1..], key, value);
    } else if d != [] {
      assert Put(d, key, value)[1..] == d[1..];
    }
  }

  lemma {:induction false} GetFinds<K, V>(d: Dict<K, V>, key: K)
    ensures Get(d, key).Some? <==> exists i | 0 <= i < |d| :: d[i].0 == key
    ensures Get(d, key).Some? ==> exists i | 0 <= i < |d| :: d[i] == (key, Get(d, key).value)
  {
    if d != [] && d[0].0 != key {
      GetFinds(d[1..], key);
      if Get(d, key).Some? {
        var i :| 0 <= i < |d[1..]| && d[1..][i] == (key, Get(d[1..], key).value);
        assert d[i + 1] == (key, Get(d, key).value);
      }
      if i :| 0 <= i < |d| && d[i].0 == key {
        assert d[1..][i - 1].0 == key;
      }
    } else if d != [] {
      assert d[0] == (key, Get(d, key).value);
    }
  }

  lemma GetAt<K, V>(d: Dict<K, V>, i: nat)
    requires DistinctKeys(d) && i < |d|
    ensures Get(d, d[i].0) == Some(d[i].1)
  {
    GetFinds(d, d[i].0);
  }

  lemma {:induction false} PutKeys<K, V>(d: Dict<K, V>, key: K, value: V)
    ensures Keys(Put(d, key, value)) == if key in Keys(d) then Keys(d) else Keys(d) + [key]
    ensures key !in Keys(d) ==> Put(d, key, value) == d + [(key, value)]
  {
    if d == [] {
      assert Keys([(key, value)]) == [key];
    } else {
      assert Keys(d) == [d[0].0] + Keys(d[1..]);
      if d[0].0 == key {
        assert Keys(Put(d, key, value)) == Keys(d);
      } else {
        PutKeys(d[1..], key, value);
        var rest := Put(d[1..], key, value);
        assert Put(d, key, value) == [d[0]] + rest;
        assert Keys([d[0]] + rest) == [d[0].0] + Keys(rest);
        if key in Keys(d) {
          assert key in Keys(d[1..]);
        } else {
          assert key !in Keys(d[1..]);
          assert [d[0]] + (d[1..] + [(key, value)]) == d + [(key, value)];
        }
      }
    }
  }

  lemma PutKeepsDistinct<K, V>(d: Dict<K, V>, key: K, value: V)
    requires DistinctKeys(d)
    ensures DistinctKeys(Put(d, key, value))
  {
    PutKeys(d, key, value);
    var after := Put(d, key, value);
    forall i, j | 0 <= i < j < |after| ensures after[i].0 != after[j].0 {
      assert Keys(after)[i] == after[i].0 && Keys(after)[j] == after[j].0;
      assert i < |d| ==> Keys(d)[i] == d[i].0;
      assert j < |d| ==> Keys(d)[j] == d[j].0;
    }
  }
}
