// Python dictionaries whose iteration order matters: the items in insertion order.

module Dicts {
  import opened Common

  /** The items of a Python `dict`, in insertion order. */
  type Dict<K, V> = seq<(K, V)>

  function Keys<K, V>(d: Dict<K, V>): (r: seq<K>)
    ensures |r| == |d|
    ensures forall i :: 0 <= i < |d| ==> r[i] == d[i].0
  {
    if |d| == 0 then [] else [d[0].0] + Keys(d[1..])
  }

  /** A dict holds each key once. */
  predicate DistinctKeys<K(==), V>(d: Dict<K, V>)
  {
    forall i, j :: 0 <= i < j < |d| ==> d[i].0 != d[j].0
  }

  /** `d.get(k)`. */
  function Get<K(==), V>(d: Dict<K, V>, k: K): (r: Option<V>)
    ensures r.None? <==> k !in Keys(d)
    ensures r.Some? ==> (k, r.value) in d
  {
    if |d| == 0 then None else if d[0].0 == k then Some(d[0].1) else Get(d[1..], k)
  }

  /** `d[k] = v`: an existing key keeps its place, a new key goes last. */
  function Put<K(==), V>(d: Dict<K, V>, k: K, v: V): (r: Dict<K, V>)
    ensures Get(r, k) == Some(v)
    ensures |r| == if k in Keys(d) then |d| else |d| + 1
  {
    if |d| == 0 then [(k, v)]
    else if d[0].0 == k then [(k, v)] + d[1..]
    else [d[0]] + Put(d[1..], k, v)
  }

  /** Writing a new key appends it. */
  lemma {:induction false} PutNew<K, V>(d: Dict<K, V>, k: K, v: V)
    requires k !in Keys(d)
    ensures Put(d, k, v) == d + [(k, v)]
  {
    if |d| > 0 {
      assert k != d[0].0 && k !in Keys(d[1..]) by {
        assert Keys(d) == [d[0].0] + Keys(d[1..]);
      }
      PutNew(d[1..], k, v);
      assert Put(d, k, v) == [d[0]] + (d[1..] + [(k, v)]);
      ConsAppend(d, [(k, v)]);
    }
  }

  /** Putting the head back in front of the tail with a suffix is the whole with that suffix. */
  lemma ConsAppend<T>(a: seq<T>, b: seq<T>)
    requires |a| > 0
    ensures [a[0]] + (a[1..] + b) == a + b
  {
    assert a == [a[0]] + a[1..];
  }

  /** Writing one key leaves every other key's entry as it was. */
  lemma {:induction false} PutOther<K, V>(d: Dict<K, V>, k: K, v: V, k': K)
    requires k' != k
    ensures Get(Put(d, k, v), k') == Get(d, k')
  {
    if |d| > 0 && d[0].0 != k {
      PutOther(d[1..], k, v, k');
    }
  }

  /** Writing a key keeps the key order, appending the key when it is new. */
  lemma {:induction false} PutKeys<K, V>(d: Dict<K, V>, k: K, v: V)
    ensures Keys(Put(d, k, v)) == if k in Keys(d) then Keys(d) else Keys(d) + [k]
  {
    if |d| > 0 && d[0].0 != k {
      PutKeys(d[1..], k, v);
      assert Put(d, k, v)[1..] == Put(d[1..], k, v);
      assert k in Keys(d) <==> k in Keys(d[1..]);
    } else if |d| > 0 {
      assert Put(d, k, v)[1..] == d[1..];
    }
  }

  lemma {:induction false} GetDistinct<K, V>(d: Dict<K, V>, i: nat)
    requires DistinctKeys(d) && i < |d|
    ensures Get(d, d[i].0) == Some(d[i].1)
  {
    if i > 0 {
      assert d[0].0 != d[i].0;
      GetDistinct(d[1..], i - 1);
    }
  }

  /** Writing a key keeps the keys distinct. */
  lemma DistinctPut<K, V>(d: Dict<K, V>, k: K, v: V)
    requires DistinctKeys(d)
    ensures DistinctKeys(Put(d, k, v))
  {
    PutKeys(d, k, v);
    var r := Put(d, k, v);
    var ks := Keys(r);
    var kd := Keys(d);
    forall i, j | 0 <= i < j < |r| ensures r[i].0 != r[j].0 {
      assert r[i].0 == ks[i] && r[j].0 == ks[j];
      if j < |d| {
        assert ks[i] == kd[i] == d[i].0 && ks[j] == kd[j] == d[j].0;
      } else {
        assert ks[j] == k && ks[i] == kd[i];
      }
    }
  }

  /** Writing a key, whatever its value, keeps the keys distinct. */
  lemma DistinctPutAny<K, V>(d: Dict<K, V>, k: K)
    requires DistinctKeys(d)
    ensures forall v :: DistinctKeys(Put(d, k, v))
  {
    forall v {
      DistinctPut(d, k, v);
    }
  }

  /** Two dicts with the same items, in any order (Python's `==` on dicts). */
  ghost predicate SameItems<K(!new), V>(a: Dict<K, V>, b: Dict<K, V>)
  {
    forall k :: Get(a, k) == Get(b, k)
  }

  /** `d[k] = d.get(k, 0) + 1`: one more `k` counted. */
  function Bump<K(==)>(d: Dict<K, int>, k: K): Dict<K, int>
  {
    Put(d, k, Get(d, k).GetOr(0) + 1)
  }

  /** Counting keeps the keys distinct. */
  lemma {:induction false} BumpDistinct<K>(d: Dict<K, int>, k: K)
    requires DistinctKeys(d)
    ensures DistinctKeys(Bump(d, k))
  {
    DistinctPutAny(d, k);
  }

  /** Counting adds no key but the counted one. */
  lemma {:induction false} BumpKeys<K>(d: Dict<K, int>, k: K, x: K)
    requires x in Keys(Bump(d, k))
    ensures x in Keys(d) || x == k
  {
    var v := Get(d, k).GetOr(0) + 1;
    var ks := Keys(d);
    PutKeys(d, k, v);
    if k !in ks {
      SnocMember(ks, k, x);
    }
  }

  /** A member of `s + [y]` is a member of `s` or is `y`. */
  lemma {:induction false} SnocMember<T>(s: seq<T>, y: T, x: T)
    ensures x in s + [y] <==> x in s || x == y
  {
    if x in s + [y] && x != y {
      var i :| 0 <= i < |s| + 1 && (s + [y])[i] == x;
      assert i < |s| && s[i] == x;
    }
  }
}
