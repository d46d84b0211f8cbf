// Order-preserving removal of repeated keys: the first item carrying each key is kept.  This is
// what `choose_authors`, the value table of `choose_isxn` and the variant list of the registry
// builder do.

module Unique {
  import opened Common

  /** The position of the first item satisfying `p`. */
  function FirstIndex<T>(s: seq<T>, p: T -> bool): (r: Option<nat>)
    ensures r.Some? ==> r.value < |s| && p(s[r.value]) && forall j :: 0 <= j < r.value ==> !p(s[j])
    ensures r.None? ==> forall j :: 0 <= j < |s| ==> !p(s[j])
  {
    if |s| == 0 then None
    else if p(s[0]) then Some(0)
    else match FirstIndex(s[1..], p)
      case None => None
      case Some(i) => Some(i + 1)
  }

  /** The first item passing the test is found. */
  lemma FirstIndexAt<T>(s: seq<T>, p: T -> bool, k: nat)
    requires k < |s| && p(s[k]) && forall j :: 0 <= j < k ==> !p(s[j])
    ensures FirstIndex(s, p) == Some(k)
  {
  }

  /** Without an item passing the test nothing is found. */
  lemma FirstIndexNone<T>(s: seq<T>, p: T -> bool)
    requires forall j :: 0 <= j < |s| ==> !p(s[j])
    ensures FirstIndex(s, p) == None
  {
  }

  /** Some item before position `n` has key `k`. */
  predicate SeenBefore<T, K(==)>(s: seq<T>, key: T -> K, n: int, k: K)
    requires 0 <= n <= |s|
  {
    exists j :: 0 <= j < n && key(s[j]) == k
  }

  /** The first occurrence of each key, in the order of the input. */
  function FirstOccurrences<T, K(==)>(s: seq<T>, key: T -> K): (r: seq<T>)
    ensures |r| <= |s|
    ensures forall x :: x in r ==> x in s
  {
    if |s| == 0 then []
    else
      var p := s[..|s| - 1];
      FirstOccurrences(p, key) + (if SeenBefore(s, key, |s| - 1, key(s[|s| - 1])) then [] else [s[|s| - 1]])
  }

  /** The position of the first item with key `k`. */
  function FirstPos<T, K(==)>(s: seq<T>, key: T -> K, k: K): (i: nat)
    requires SeenBefore(s, key, |s|, k)
    ensures i < |s| && key(s[i]) == k && !SeenBefore(s, key, i, k)
  {
    var p := s[..|s| - 1];
    if SeenBefore(s, key, |s| - 1, k) then
      assert SeenBefore(p, key, |p|, k);
      var i := FirstPos(p, key, k);
      assert !SeenBefore(s, key, i, k) by {
        assert forall j :: 0 <= j < i ==> s[j] == p[j];
      }
      i
    else |s| - 1
  }

  lemma SeenBeforePrefix<T, K>(s: seq<T>, key: T -> K, n: int, k: K)
    requires 0 <= n <= |s|
    ensures SeenBefore(s[..n], key, n, k) <==> SeenBefore(s, key, n, k)
  {
    assert forall j :: 0 <= j < n ==> s[..n][j] == s[j];
  }

  /** A position holding `k` with no earlier `k` is the first position. */
  lemma FirstPosUnique<T, K>(s: seq<T>, key: T -> K, j: nat)
    requires j < |s| && !SeenBefore(s, key, j, key(s[j]))
    ensures SeenBefore(s, key, |s|, key(s[j]))
    ensures FirstPos(s, key, key(s[j])) == j
  {
    var i := FirstPos(s, key, key(s[j]));
    assert !(i < j) && !(j < i);
  }

  lemma FirstPosPrefix<T, K>(s: seq<T>, key: T -> K, k: K)
    requires |s| > 0 && SeenBefore(s, key, |s| - 1, k)
    ensures SeenBefore(s[..|s| - 1], key, |s| - 1, k)
    ensures FirstPos(s, key, k) == FirstPos(s[..|s| - 1], key, k)
  {
    SeenBeforePrefix(s, key, |s| - 1, k);
  }

  /** The keys that occur in `s`. */
  ghost function KeySet<T, K>(s: seq<T>, key: T -> K): set<K>
  {
    set i | 0 <= i < |s| :: key(s[i])
  }

  lemma SeenBeforeKeySet<T, K>(s: seq<T>, key: T -> K, k: K)
    ensures SeenBefore(s, key, |s|, k) <==> k in KeySet(s, key)
  {
    if k in KeySet(s, key) {
      var i :| 0 <= i < |s| && key(s[i]) == k;
    }
  }

  lemma KeySetSnoc<T, K>(s: seq<T>, key: T -> K, x: T)
    ensures KeySet(s + [x], key) == KeySet(s, key) + {key(x)}
  {
    var t := s + [x];
    forall k | k in KeySet(t, key) ensures k in KeySet(s, key) + {key(x)} {
      var i :| 0 <= i < |t| && key(t[i]) == k;
      if i < |s| { assert t[i] == s[i]; }
    }
    forall k | k in KeySet(s, key) ensures k in KeySet(t, key) {
      var i :| 0 <= i < |s| && key(s[i]) == k;
      assert t[i] == s[i];
    }
    assert key(t[|s|]) == key(x);
  }

  /** The output holds exactly the keys of the input. */
  lemma {:induction false} FirstOccurrencesKeys<T, K>(s: seq<T>, key: T -> K)
    ensures KeySet(FirstOccurrences(s, key), key) == KeySet(s, key)
  {
    if |s| > 0 {
      var p := s[..|s| - 1];
      var x := s[|s| - 1];
      var rp := FirstOccurrences(p, key);
      FirstOccurrencesKeys(p, key);
      assert s == p + [x];
      KeySetSnoc(p, key, x);
      SeenBeforePrefix(s, key, |s| - 1, key(x));
      SeenBeforeKeySet(p, key, key(x));
      if SeenBefore(s, key, |s| - 1, key(x)) {
        assert FirstOccurrences(s, key) == rp;
      } else {
        assert FirstOccurrences(s, key) == rp + [x];
        KeySetSnoc(rp, key, x);
      }
    }
  }

  /** No key is kept twice. */
  lemma {:induction false} FirstOccurrencesDistinct<T, K>(s: seq<T>, key: T -> K)
    ensures forall i, j :: 0 <= i < j < |FirstOccurrences(s, key)| ==>
              key(FirstOccurrences(s, key)[i]) != key(FirstOccurrences(s, key)[j])
  {
    if |s| > 0 {
      var p := s[..|s| - 1];
      var x := s[|s| - 1];
      var rp := FirstOccurrences(p, key);
      var r := FirstOccurrences(s, key);
      FirstOccurrencesDistinct(p, key);
      if !SeenBefore(s, key, |s| - 1, key(x)) {
        FirstOccurrencesKeys(p, key);
        SeenBeforePrefix(s, key, |s| - 1, key(x));
        SeenBeforeKeySet(p, key, key(x));
        assert key(x) !in KeySet(rp, key);
        assert r == rp + [x];
        forall i, j | 0 <= i < j < |r| ensures key(r[i]) != key(r[j]) {
          if j == |r| - 1 {
            assert r[i] == rp[i];
            assert key(rp[i]) in KeySet(rp, key);
          } else {
            assert r[i] == rp[i] && r[j] == rp[j];
          }
        }
      }
    }
  }

  /** Each kept item is the first item of the input with its key, and the kept items appear in
      the order of those first positions: the output is the input with every repeat dropped. */
  lemma {:induction false} FirstOccurrencesOrder<T, K>(s: seq<T>, key: T -> K)
    ensures forall i :: 0 <= i < |FirstOccurrences(s, key)| ==>
              SeenBefore(s, key, |s|, key(FirstOccurrences(s, key)[i]))
              && FirstOccurrences(s, key)[i] == s[FirstPos(s, key, key(FirstOccurrences(s, key)[i]))]
    ensures forall i, j :: 0 <= i < j < |FirstOccurrences(s, key)| ==>
              FirstPos(s, key, key(FirstOccurrences(s, key)[i])) < FirstPos(s, key, key(FirstOccurrences(s, key)[j]))
  {
    if |s| > 0 {
      var p := s[..|s| - 1];
      var x := s[|s| - 1];
      var rp := FirstOccurrences(p, key);
      var r := FirstOccurrences(s, key);
      FirstOccurrencesOrder(p, key);
      assert forall i :: 0 <= i < |rp| ==> r[i] == rp[i];
      forall i | 0 <= i < |rp|
        ensures SeenBefore(s, key, |s| - 1, key(r[i]))
        ensures FirstPos(s, key, key(r[i])) == FirstPos(p, key, key(r[i]))
      {
        assert r[i] == rp[i] && |p| == |s| - 1;
        assert SeenBefore(p, key, |p|, key(rp[i]));
        SeenBeforePrefix(s, key, |s| - 1, key(r[i]));
        FirstPosPrefix(s, key, key(r[i]));
      }
      assert forall i :: 0 <= i < |rp| ==> p[FirstPos(p, key, key(rp[i]))] == s[FirstPos(p, key, key(rp[i]))];
      if !SeenBefore(s, key, |s| - 1, key(x)) {
        assert r == rp + [x];
        assert FirstPos(s, key, key(x)) == |s| - 1;
        assert forall i :: 0 <= i < |rp| ==> FirstPos(p, key, key(rp[i])) < |s| - 1;
      }
    }
  }

  /** An input without repeated keys comes through unchanged. */
  lemma {:induction false} FirstOccurrencesNoRepeats<T, K>(s: seq<T>, key: T -> K)
    requires forall i, j :: 0 <= i < j < |s| ==> key(s[i]) != key(s[j])
    ensures FirstOccurrences(s, key) == s
  {
    if |s| > 0 {
      var p := s[..|s| - 1];
      assert forall i :: 0 <= i < |p| ==> p[i] == s[i];
      FirstOccurrencesNoRepeats(p, key);
      assert !SeenBefore(s, key, |s| - 1, key(s[|s| - 1]));
      assert s == p + [s[|s| - 1]];
    }
  }

  /** Extending the input by one item extends the output by that item when its key is new, and
      leaves it unchanged otherwise: the step of a loop that appends unseen items. */
  lemma FirstOccurrencesSnoc<T, K>(s: seq<T>, key: T -> K, x: T)
    ensures FirstOccurrences(s + [x], key)
         == FirstOccurrences(s, key) + (if SeenBefore(s, key, |s|, key(x)) then [] else [x])
  {
    assert (s + [x])[..|s|] == s;
    SeenBeforePrefix(s + [x], key, |s|, key(x));
  }
}
