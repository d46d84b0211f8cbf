// Python's `sorted(items, key=..., reverse=...)` and `min(items, key=...)`: a stable sort, in
// which items with equal keys keep their original order for both directions.

module Sorting {

  /** `a` sorts strictly before `b`. */
  predicate Before<T>(key: T -> real, reverse: bool, a: T, b: T)
  {
    if reverse then key(a) > key(b) else key(a) < key(b)
  }

  /** Insert `x` in front of the first item that does not sort strictly before it. */
  function Insert<T>(x: T, s: seq<T>, key: T -> real, reverse: bool): (r: seq<T>)
    ensures |r| == |s| + 1
    ensures forall y :: y in r ==> y == x || y in s
  {
    if s == [] || !Before(key, reverse, s[0], x) then [x] + s
    else [s[0]] + Insert(x, s[1..], key, reverse)
  }

  /** `sorted(s, key=key, reverse=reverse)`. */
  function Sort<T>(s: seq<T>, key: T -> real, reverse: bool): (r: seq<T>)
    ensures |r| == |s|
    ensures forall y :: y in r ==> y in s
  {
    if s == [] then [] else Insert(s[0], Sort(s[1..], key, reverse), key, reverse)
  }

  predicate Ordered<T>(s: seq<T>, key: T -> real, reverse: bool)
  {
    forall i, j :: 0 <= i < j < |s| ==> !Before(key, reverse, s[j], s[i])
  }

  lemma {:induction false} InsertOrdered<T>(x: T, s: seq<T>, key: T -> real, reverse: bool)
    requires Ordered(s, key, reverse)
    ensures Ordered(Insert(x, s, key, reverse), key, reverse)
    decreases |s|
  {
    if s == [] || !Before(key, reverse, s[0], x) {
    } else {
      InsertOrdered(x, s[1..], key, reverse);
      var r := Insert(x, s, key, reverse);
      forall j | 0 < j < |r| ensures !Before(key, reverse, r[j], r[0]) {
        assert r[j] in Insert(x, s[1..], key, reverse);
        if r[j] != x {
          var k :| 0 <= k < |s[1..]| && s[1..][k] == r[j];
          assert s[k + 1] == r[j];
        }
      }
    }
  }

  /** The result of `sorted` is ordered by key. */
  lemma {:induction false} SortOrdered<T>(s: seq<T>, key: T -> real, reverse: bool)
    ensures Ordered(Sort(s, key, reverse), key, reverse)
  {
    if s != [] {
      SortOrdered(s[1..], key, reverse);
      InsertOrdered(s[0], Sort(s[1..], key, reverse), key, reverse);
    }
  }

  lemma {:induction false} InsertPermutation<T>(x: T, s: seq<T>, key: T -> real, reverse: bool)
    ensures multiset(Insert(x, s, key, reverse)) == multiset(s) + multiset{x}
    decreases |s|
  {
    if s == [] || !Before(key, reverse, s[0], x) {
    } else {
      InsertPermutation(x, s[1..], key, reverse);
      assert s == [s[0]] + s[1..];
    }
  }

  /** The result of `sorted` is a permutation of its input. */
  lemma {:induction false} SortPermutation<T>(s: seq<T>, key: T -> real, reverse: bool)
    ensures multiset(Sort(s, key, reverse)) == multiset(s)
  {
    if s != [] {
      SortPermutation(s[1..], key, reverse);
      InsertPermutation(s[0], Sort(s[1..], key, reverse), key, reverse);
      assert s == [s[0]] + s[1..];
    }
  }

  /** The items whose key is `v`, in order. */
  function WithKey<T>(s: seq<T>, key: T -> real, v: real): seq<T>
  {
    if s == [] then [] else (if key(s[0]) == v then [s[0]] else []) + WithKey(s[1..], key, v)
  }

  lemma WithKeyCons<T>(y: T, t: seq<T>, key: T -> real, v: real)
    ensures WithKey([y] + t, key, v) == (if key(y) == v then [y] else []) + WithKey(t, key, v)
  {
    assert ([y] + t)[1..] == t;
  }

  lemma {:induction false} InsertWithKey<T>(x: T, s: seq<T>, key: T -> real, reverse: bool, v: real)
    ensures WithKey(Insert(x, s, key, reverse), key, v)
         == (if key(x) == v then [x] else []) + WithKey(s, key, v)
    decreases |s|
  {
    if s == [] || !Before(key, reverse, s[0], x) {
      WithKeyCons(x, s, key, v);
    } else {
      var t := Insert(x, s[1..], key, reverse);
      InsertWithKey(x, s[1..], key, reverse, v);
      WithKeyCons(s[0], t, key, v);
      assert key(s[0]) != v || key(x) != v;
    }
  }

  /** Stability: among items with equal keys the original order survives the sort. */
  lemma {:induction false} SortStable<T>(s: seq<T>, key: T -> real, reverse: bool, v: real)
    ensures WithKey(Sort(s, key, reverse), key, v) == WithKey(s, key, v)
  {
    if s != [] {
      SortStable(s[1..], key, reverse, v);
      InsertWithKey(s[0], Sort(s[1..], key, reverse), key, reverse, v);
    }
  }

  /** `i` is the first position holding an extreme key: strictly better than every earlier
      item and not beaten by any later one. */
  predicate IsFirstBest<T>(s: seq<T>, key: T -> real, reverse: bool, i: int)
  {
    0 <= i < |s|
    && (forall j :: 0 <= j < i ==> Before(key, reverse, s[i], s[j]))
    && (forall j :: i < j < |s| ==> !Before(key, reverse, s[j], s[i]))
  }

  function BestIndex<T>(s: seq<T>, key: T -> real, reverse: bool): (i: nat)
    requires |s| > 0
    ensures i < |s|
  {
    if |s| == 1 then 0
    else
      var j := BestIndex(s[1..], key, reverse) + 1;
      if Before(key, reverse, s[j], s[0]) then j else 0
  }

  lemma {:induction false} BestIndexIsFirstBest<T>(s: seq<T>, key: T -> real, reverse: bool)
    requires |s| > 0
    ensures IsFirstBest(s, key, reverse, BestIndex(s, key, reverse))
  {
    if |s| > 1 {
      BestIndexIsFirstBest(s[1..], key, reverse);
      var j := BestIndex(s[1..], key, reverse);
      assert forall k :: 0 < k < |s| ==> s[k] == s[1..][k - 1];
    }
  }

  /** The first best position is unique: it is the one `BestIndex` finds. */
  lemma {:induction false} FirstBestIsBestIndex<T>(s: seq<T>, key: T -> real, reverse: bool, i: int)
    requires IsFirstBest(s, key, reverse, i)
    ensures i == BestIndex(s, key, reverse)
  {
    if |s| > 1 && i > 0 {
      assert forall k :: 0 < k < |s| ==> s[k] == s[1..][k - 1];
      FirstBestIsBestIndex(s[1..], key, reverse, i - 1);
    } else if |s| > 1 {
      assert !Before(key, reverse, s[BestIndex(s[1..], key, reverse) + 1], s[0]);
    }
  }

  /** No item has a key that sorts strictly before that of the first best item. */
  lemma FirstBestKey<T>(s: seq<T>, key: T -> real, reverse: bool, i: int, j: int)
    requires IsFirstBest(s, key, reverse, i) && 0 <= j < |s|
    ensures !Before(key, reverse, s[j], s[i])
  {
    if j < i { assert Before(key, reverse, s[i], s[j]); }
  }

  /** The best position depends on the keys alone: two sequences whose items have the same
      keys, position by position, have the same best position. */
  lemma {:induction false} BestIndexOfKeys<T, U>(s: seq<T>, key: T -> real, t: seq<U>, key': U -> real, reverse: bool)
    requires |s| == |t| > 0 && forall k :: 0 <= k < |s| ==> key(s[k]) == key'(t[k])
    ensures BestIndex(s, key, reverse) == BestIndex(t, key', reverse)
  {
    if |s| > 1 {
      assert forall k :: 0 <= k < |s| - 1 ==> s[1..][k] == s[k + 1] && t[1..][k] == t[k + 1];
      BestIndexOfKeys(s[1..], key, t[1..], key', reverse);
    }
  }

  /** The head of `sorted(s)` is the first item with an extreme key, which is also `min(s)`
      (for `reverse == false`) or `max(s)` (for `reverse == true`). */
  lemma {:induction false} SortHead<T>(s: seq<T>, key: T -> real, reverse: bool)
    requires |s| > 0
    ensures Sort(s, key, reverse)[0] == s[BestIndex(s, key, reverse)]
  {
    if |s| > 1 {
      SortHead(s[1..], key, reverse);
    }
  }
}
