// Sorting as the Java library does it (Collections.sort with a comparator
// on node heights, Arrays.sort on doubles): an insertion sort on
// sequences, proved to sort, to permute its input and to be stable.

module Sorting {

  ghost predicate SortedBy<T>(s: seq<T>, key: T -> real)
  {
    forall i, j :: 0 <= i < j < |s| ==> key(s[i]) <= key(s[j])
  }

  ghost predicate Sorted(s: seq<real>)
  {
    forall i, j :: 0 <= i < j < |s| ==> s[i] <= s[j]
  }

  /** Inserts x after every element whose key is not greater than x's. */
  function InsertBy<T>(x: T, s: seq<T>, key: T -> real): (r: seq<T>)
    requires SortedBy(s, key)
    ensures SortedBy(r, key)
    ensures multiset(r) == multiset(s) + multiset{x}
    ensures |r| == |s| + 1
  {
    if |s| == 0 then [x]
    else if key(x) < key(s[0]) then [x] + s
    else
      var tail := InsertBy(x, s[1..], key);
      assert s == [s[0]] + s[1..];
      ConsSorted(s[0], s[1..], x, tail, key);
      [s[0]] + tail
  }

  /** Putting h in front of a sorted permutation of t + [x] keeps it sorted when h's key is the least. */
  lemma ConsSorted<T>(h: T, t: seq<T>, x: T, tail: seq<T>, key: T -> real)
    requires SortedBy([h] + t, key) && key(h) <= key(x)
    requires SortedBy(tail, key) && multiset(tail) == multiset(t) + multiset{x}
    ensures SortedBy([h] + tail, key)
  {
    forall k | 0 <= k < |tail| ensures key(h) <= key(tail[k]) {
      assert tail[k] in multiset(t) + multiset{x};
      if tail[k] != x {
        assert tail[k] in t;
        var j :| 0 <= j < |t| && t[j] == tail[k];
        assert ([h] + t)[0] == h && ([h] + t)[j + 1] == t[j];
      }
    }
    forall i, j | 0 <= i < j < |[h] + tail| ensures key(([h] + tail)[i]) <= key(([h] + tail)[j]) {
      if i > 0 {
        assert ([h] + tail)[i] == tail[i - 1] && ([h] + tail)[j] == tail[j - 1];
      } else {
        assert ([h] + tail)[j] == tail[j - 1];
      }
    }
  }

  /** The elements of s, ordered by key; elements with equal keys keep their order. */
  function SortBy<T>(s: seq<T>, key: T -> real): (r: seq<T>)
    ensures SortedBy(r, key)
    ensures multiset(r) == multiset(s)
    ensures |r| == |s|
  {
    if |s| == 0 then []
    else
      assert s == s[..|s| - 1] + [s[|s| - 1]];
      InsertBy(s[|s| - 1], SortBy(s[..|s| - 1], key), key)
  }

  /** The elements of s whose key is k, in their order in s. */
  function WithKey<T>(s: seq<T>, key: T -> real, k: real): seq<T>
  {
    if |s| == 0 then []
    else (if key(s[0]) == k then [s[0]] else []) + WithKey(s[1..], key, k)
  }

  lemma {:induction false} WithKeyAppend<T>(a: seq<T>, b: seq<T>, key: T -> real, k: real)
    ensures WithKey(a + b, key, k) == WithKey(a, key, k) + WithKey(b, key, k)
    decreases |a|
  {
    if |a| > 0 {
      assert (a + b)[1..] == a[1..] + b;
      WithKeyAppend(a[1..], b, key, k);
    } else {
      assert a + b == b;
    }
  }

  /** No element of s has a key as small as k, so none has key k. */
  lemma {:induction false} WithKeyAbove<T>(s: seq<T>, key: T -> real, k: real)
    requires forall i :: 0 <= i < |s| ==> k < key(s[i])
    ensures WithKey(s, key, k) == []
    decreases |s|
  {
    if |s| > 0 {
      WithKeyAbove(s[1..], key, k);
    }
  }

  /** Insertion puts x after every element with the same key. */
  lemma {:induction false} InsertByStable<T>(x: T, s: seq<T>, key: T -> real, k: real)
    requires SortedBy(s, key)
    ensures WithKey(InsertBy(x, s, key), key, k) == WithKey(s, key, k) + (if key(x) == k then [x] else [])
    decreases |s|
  {
    if |s| == 0 {
      assert InsertBy(x, s, key) == [x];
      WithKeySingle(x, key, k);
      assert WithKey(s, key, k) == [];
    } else if key(x) < key(s[0]) {
      InsertByStableFront(x, s, key, k);
    } else {
      SortedTail(s, key);
      InsertByStable(x, s[1..], key, k);
      InsertByStableLater(x, s, key, k);
    }
  }

  /** InsertByStable when x goes in front. */
  lemma InsertByStableFront<T>(x: T, s: seq<T>, key: T -> real, k: real)
    requires SortedBy(s, key) && |s| > 0 && key(x) < key(s[0])
    ensures WithKey(InsertBy(x, s, key), key, k) == WithKey(s, key, k) + (if key(x) == k then [x] else [])
  {
    InsertByFront(x, s, key);
    WithKeyCons(x, s, key, k);
    if key(x) == k {
      WithKeyAbove(s, key, k);
      assert [x] + [] == [] + [x];
    } else {
      assert [] + WithKey(s, key, k) == WithKey(s, key, k) + [];
    }
  }

  /** InsertByStable when x goes past s[0], given the property for s[1..]. */
  lemma InsertByStableLater<T>(x: T, s: seq<T>, key: T -> real, k: real)
    requires SortedBy(s, key) && |s| > 0 && key(s[0]) <= key(x) && SortedBy(s[1..], key)
    requires WithKey(InsertBy(x, s[1..], key), key, k) == WithKey(s[1..], key, k) + (if key(x) == k then [x] else [])
    ensures WithKey(InsertBy(x, s, key), key, k) == WithKey(s, key, k) + (if key(x) == k then [x] else [])
  {
    var mx := if key(x) == k then [x] else [];
    var tail := InsertBy(x, s[1..], key);
    var m0 := if key(s[0]) == k then [s[0]] else [];
    InsertByLater(x, s, key);
    WithKeyCons(s[0], tail, key, k);
    WithKeyCons(s[0], s[1..], key, k);
    HeadTail(s);
    calc {
      WithKey(InsertBy(x, s, key), key, k);
      m0 + WithKey(tail, key, k);
      m0 + (WithKey(s[1..], key, k) + mx);
      { AppendAssociative(m0, WithKey(s[1..], key, k), mx); }
      (m0 + WithKey(s[1..], key, k)) + mx;
      WithKey(s, key, k) + mx;
    }
  }

  lemma HeadTail<T>(s: seq<T>)
    requires |s| > 0
    ensures s == [s[0]] + s[1..]
  {
  }

  lemma AppendAssociative<T>(a: seq<T>, b: seq<T>, c: seq<T>)
    ensures a + (b + c) == (a + b) + c
  {
  }

  lemma InsertByFront<T>(x: T, s: seq<T>, key: T -> real)
    requires SortedBy(s, key) && |s| > 0 && key(x) < key(s[0])
    ensures InsertBy(x, s, key) == [x] + s
  {
  }

  lemma InsertByLater<T>(x: T, s: seq<T>, key: T -> real)
    requires SortedBy(s, key) && |s| > 0 && key(s[0]) <= key(x) && SortedBy(s[1..], key)
    ensures InsertBy(x, s, key) == [s[0]] + InsertBy(x, s[1..], key)
  {
  }

  lemma WithKeyCons<T>(h: T, t: seq<T>, key: T -> real, k: real)
    ensures WithKey([h] + t, key, k) == (if key(h) == k then [h] else []) + WithKey(t, key, k)
  {
    assert ([h] + t)[0] == h && ([h] + t)[1..] == t;
  }

  lemma SortedTail<T>(s: seq<T>, key: T -> real)
    requires |s| > 0 && SortedBy(s, key)
    ensures SortedBy(s[1..], key)
  {
    forall i, j | 0 <= i < j < |s| - 1 ensures key(s[1..][i]) <= key(s[1..][j]) {
      assert s[1..][i] == s[i + 1] && s[1..][j] == s[j + 1];
    }
  }

  lemma WithKeySingle<T>(x: T, key: T -> real, k: real)
    ensures WithKey([x], key, k) == if key(x) == k then [x] else []
  {
    assert [x][1..] == [];
  }

  /** Sorting s picks its last element's key-k part out of the sorted front. */
  lemma SortedWithKeyLast<T>(s: seq<T>, key: T -> real, k: real)
    requires |s| > 0
    ensures WithKey(SortBy(s, key), key, k) ==
      WithKey(SortBy(s[..|s| - 1], key), key, k) + (if key(s[|s| - 1]) == k then [s[|s| - 1]] else [])
  {
    var sorted := SortBy(s[..|s| - 1], key);
    assert SortBy(s, key) == InsertBy(s[|s| - 1], sorted, key);
    InsertByStable(s[|s| - 1], sorted, key, k);
  }

  /** The key-k part of s is that of its front, then its last element when that has key k. */
  lemma WithKeyLast<T>(s: seq<T>, key: T -> real, k: real)
    requires |s| > 0
    ensures WithKey(s, key, k) == WithKey(s[..|s| - 1], key, k) + (if key(s[|s| - 1]) == k then [s[|s| - 1]] else [])
  {
    var n := |s| - 1;
    WithKeySingle(s[n], key, k);
    WithKeyAppend(s[..n], [s[n]], key, k);
    assert s == s[..n] + [s[n]];
  }

  /** SortBy is stable: the elements with any one key keep their order. */
  lemma {:induction false} SortByStable<T>(s: seq<T>, key: T -> real, k: real)
    ensures WithKey(SortBy(s, key), key, k) == WithKey(s, key, k)
    decreases |s|
  {
    if |s| > 0 {
      SortByStable(s[..|s| - 1], key, k);
      SortedWithKeyLast(s, key, k);
      WithKeyLast(s, key, k);
    }
  }

  function Identity(x: real): real { x }

  /** Inserts x after every element not greater than it. */
  function InsertReal(x: real, s: seq<real>): (r: seq<real>)
    ensures |r| == |s| + 1
  {
    if |s| == 0 then [x]
    else if x < s[0] then [x] + s
    else [s[0]] + InsertReal(x, s[1..])
  }

  /**
   * Ascending sort of real numbers (Arrays.sort on a double[]). Its
   * ordering and permutation properties are stated by SortRealsSorts, so
   * that they come into a proof only where they are asked for.
   */
  function SortReals(s: seq<real>): (r: seq<real>)
    ensures |r| == |s|
  {
    if |s| == 0 then [] else InsertReal(s[|s| - 1], SortReals(s[..|s| - 1]))
  }

  /** On a sorted sequence, InsertReal is insertion by the identity key. */
  lemma {:induction false} InsertRealAgrees(x: real, s: seq<real>)
    requires SortedBy(s, Identity)
    ensures InsertReal(x, s) == InsertBy(x, s, Identity)
  {
    if |s| > 0 && x >= s[0] {
      assert SortedBy(s[1..], Identity) by {
        forall i, j | 0 <= i < j < |s[1..]| ensures Identity(s[1..][i]) <= Identity(s[1..][j]) {
          assert s[1..][i] == s[i + 1] && s[1..][j] == s[j + 1];
        }
      }
      InsertRealAgrees(x, s[1..]);
    }
  }

  /** SortReals is SortBy on the identity key. */
  lemma {:induction false} SortRealsAgrees(s: seq<real>)
    ensures SortReals(s) == SortBy(s, Identity)
  {
    if |s| > 0 {
      SortRealsAgrees(s[..|s| - 1]);
      InsertRealAgrees(s[|s| - 1], SortBy(s[..|s| - 1], Identity));
    }
  }

  /** SortReals orders its input and keeps every element. */
  lemma SortRealsSorts(s: seq<real>)
    ensures Sorted(SortReals(s)) && multiset(SortReals(s)) == multiset(s)
  {
    SortRealsAgrees(s);
    var r := SortReals(s);
    assert SortedBy(r, Identity);
    forall i, j | 0 <= i < j < |r| ensures r[i] <= r[j] {
      assert Identity(r[i]) <= Identity(r[j]);
    }
  }

  /** A sorted permutation of a sequence whose elements lie in [lo, hi) stays in [lo, hi). */
  lemma PermutationKeepsBounds(s: seq<real>, r: seq<real>, lo: real, hi: real)
    requires multiset(r) == multiset(s)
    requires forall i :: 0 <= i < |s| ==> lo <= s[i] < hi
    ensures forall i :: 0 <= i < |r| ==> lo <= r[i] < hi
  {
    forall i | 0 <= i < |r| ensures lo <= r[i] < hi {
      assert r[i] in multiset(s);
      var k :| 0 <= k < |s| && s[k] == r[i];
    }
  }
}
