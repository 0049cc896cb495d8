/**
 * Ranking of candidates by a scalar cost in seconds: the running strict
 * minimum used to pick the fastest route and the best departure (first
 * minimum wins), and the stable ascending sort used on round-trip schedules.
 */
module Ranking {

  /**
   * The index a running minimum with a strict `<` ends on: the first index
   * holding the smallest value.
   */
  function FirstMin(xs: seq<int>): (k: nat)
    requires xs != []
    ensures k < |xs|
    ensures forall i :: 0 <= i < |xs| ==> xs[k] <= xs[i]
    ensures forall i :: 0 <= i < k ==> xs[k] < xs[i]
    decreases |xs|
  {
    if |xs| == 1 then 0
    else
      var k := FirstMin(xs[..|xs| - 1]);
      if xs[|xs| - 1] < xs[k] then |xs| - 1 else k
  }

  /** The two properties in the contract of `FirstMin` determine the index. */
  lemma FirstMinUnique(xs: seq<int>, k: int)
    requires 0 <= k < |xs|
    requires forall i :: 0 <= i < |xs| ==> xs[k] <= xs[i]
    requires forall i :: 0 <= i < k ==> xs[k] < xs[i]
    ensures k == FirstMin(xs)
  {
  }

  /** Elements are in ascending order of their keys. */
  predicate SortedBy<T>(s: seq<T>, key: T -> int) {
    forall i, j :: 0 <= i < j < |s| ==> key(s[i]) <= key(s[j])
  }

  /** The keys of `s`, in order. */
  function Keys<T>(s: seq<T>, key: T -> int): (ks: seq<int>)
    ensures |ks| == |s| && forall i :: 0 <= i < |s| ==> ks[i] == key(s[i])
  {
    seq(|s|, i requires 0 <= i < |s| => key(s[i]))
  }

  /** The elements of `s` whose key is `k`, in their order in `s`. */
  function WithKey<T>(s: seq<T>, key: T -> int, k: int): seq<T>
    decreases |s|
  {
    if s == [] then []
    else WithKey(s[..|s| - 1], key, k) + (if key(s[|s| - 1]) == k then [s[|s| - 1]] else [])
  }

  /**
   * Inserts `x` after the trailing elements whose key exceeds `x`'s, scanning
   * from the right: on a sorted `s`, `x` lands after every element whose key
   * is at most its own.
   */
  function Insert<T>(s: seq<T>, x: T, key: T -> int): seq<T>
    decreases |s|
  {
    if s == [] || key(s[|s| - 1]) <= key(x) then s + [x]
    else Insert(s[..|s| - 1], x, key) + [s[|s| - 1]]
  }

  /** Stable ascending sort by key (the order Python's `list.sort(key=...)` produces). */
  function InsertionSort<T>(s: seq<T>, key: T -> int): seq<T>
    decreases |s|
  {
    if s == [] then [] else Insert(InsertionSort(s[..|s| - 1], key), s[|s| - 1], key)
  }

  lemma {:induction false} InsertSorted<T>(s: seq<T>, x: T, key: T -> int)
    requires SortedBy(s, key)
    ensures SortedBy(Insert(s, x, key), key)
    ensures |Insert(s, x, key)| == |s| + 1
    ensures s != [] ==> Insert(s, x, key)[0] == if key(x) < key(s[0]) then x else s[0]
    decreases |s|
  {
    if s == [] || key(s[|s| - 1]) <= key(x) {
    } else {
      var init := s[..|s| - 1];
      InsertSorted(init, x, key);
      var r := Insert(init, x, key);
      assert Insert(s, x, key) == r + [s[|s| - 1]];
      // every element of r is x or an element of init, and both are at most the last key
      forall i | 0 <= i < |r| ensures key(r[i]) <= key(s[|s| - 1]) {
        InsertMembers(init, x, key, i);
      }
    }
  }

  /** Each element of `Insert(s, x)` is `x` or an element of `s`. */
  lemma {:induction false} InsertMembers<T>(s: seq<T>, x: T, key: T -> int, i: int)
    requires 0 <= i < |Insert(s, x, key)|
    ensures Insert(s, x, key)[i] == x || Insert(s, x, key)[i] in s
    decreases |s|
  {
    if s == [] || key(s[|s| - 1]) <= key(x) {
    } else {
      var init := s[..|s| - 1];
      if i < |Insert(init, x, key)| {
        InsertMembers(init, x, key, i);
        assert init[..] <= s;
      }
    }
  }

  lemma {:induction false} InsertPermutes<T>(s: seq<T>, x: T, key: T -> int)
    ensures multiset(Insert(s, x, key)) == multiset(s) + multiset{x}
    decreases |s|
  {
    if s == [] || key(s[|s| - 1]) <= key(x) {
    } else {
      var init := s[..|s| - 1];
      InsertPermutes(init, x, key);
      assert s == init + [s[|s| - 1]];
    }
  }

  lemma {:induction false} WithKeyAppend<T>(a: seq<T>, b: seq<T>, key: T -> int, k: int)
    ensures WithKey(a + b, key, k) == WithKey(a, key, k) + WithKey(b, key, k)
    decreases |b|
  {
    if b == [] {
      assert a + b == a;
    } else {
      var binit := b[..|b| - 1];
      assert (a + b)[..|a + b| - 1] == a + binit;
      WithKeyAppend(a, binit, key, k);
    }
  }

  lemma WithKeySingle<T>(x: T, key: T -> int, k: int)
    ensures WithKey([x], key, k) == if key(x) == k then [x] else []
  {
    assert [x][..0] == [];
  }

  /** Inserting keeps the relative order of the elements sharing any key. */
  lemma {:induction false} InsertStable<T>(s: seq<T>, x: T, key: T -> int, k: int)
    ensures WithKey(Insert(s, x, key), key, k) == WithKey(s, key, k) + WithKey([x], key, k)
    decreases |s|
  {
    if s == [] || key(s[|s| - 1]) <= key(x) {
      WithKeyAppend(s, [x], key, k);
    } else {
      var init := s[..|s| - 1];
      assert init + [s[|s| - 1]] == s;
      InsertStable(init, x, key, k);
      InsertPastStable(init, s[|s| - 1], x, key, k);
    }
  }

  /** The step of `InsertStable` where `x` moves in front of a larger `last`. */
  lemma InsertPastStable<T>(init: seq<T>, last: T, x: T, key: T -> int, k: int)
    requires key(x) < key(last)
    requires WithKey(Insert(init, x, key), key, k) == WithKey(init, key, k) + WithKey([x], key, k)
    ensures WithKey(Insert(init + [last], x, key), key, k) == WithKey(init + [last], key, k) + WithKey([x], key, k)
  {
    var s := init + [last];
    var inserted := Insert(init, x, key);
    var before, wx, wl := WithKey(init, key, k), WithKey([x], key, k), WithKey([last], key, k);
    calc {
      WithKey(Insert(s, x, key), key, k);
      == { assert s[..|s| - 1] == init; }
      WithKey(inserted + [last], key, k);
      == { WithKeyAppend(inserted, [last], key, k); }
      WithKey(inserted, key, k) + wl;
      ==
      before + wx + wl;
      == { SwapDistinctKeys(before, x, last, key, k); }
      before + wl + wx;
      == { WithKeyAppend(init, [last], key, k); }
      WithKey(s, key, k) + wx;
    }
  }

  /** Two elements with different keys never both have key `k`, so their filters commute. */
  lemma SwapDistinctKeys<T>(before: seq<T>, x: T, y: T, key: T -> int, k: int)
    requires key(x) != key(y)
    ensures before + WithKey([x], key, k) + WithKey([y], key, k) == before + WithKey([y], key, k) + WithKey([x], key, k)
  {
    WithKeySingle(x, key, k);
    WithKeySingle(y, key, k);
    if key(x) == k {
      assert WithKey([y], key, k) == [];
    } else {
      assert WithKey([x], key, k) == [];
    }
  }

  /** The sort is ascending. */
  lemma {:induction false} SortIsSorted<T>(s: seq<T>, key: T -> int)
    ensures SortedBy(InsertionSort(s, key), key)
    ensures |InsertionSort(s, key)| == |s|
    decreases |s|
  {
    if s != [] {
      SortIsSorted(s[..|s| - 1], key);
      InsertSorted(InsertionSort(s[..|s| - 1], key), s[|s| - 1], key);
    }
  }

  /** The sort is a permutation of its input. */
  lemma {:induction false} SortPermutes<T>(s: seq<T>, key: T -> int)
    ensures multiset(InsertionSort(s, key)) == multiset(s)
    decreases |s|
  {
    if s != [] {
      SortPermutes(s[..|s| - 1], key);
      InsertPermutes(InsertionSort(s[..|s| - 1], key), s[|s| - 1], key);
      assert s == s[..|s| - 1] + [s[|s| - 1]];
    }
  }

  /** The sort is stable: elements with equal keys keep their input order. */
  lemma {:induction false} SortIsStable<T>(s: seq<T>, key: T -> int, k: int)
    ensures WithKey(InsertionSort(s, key), key, k) == WithKey(s, key, k)
    decreases |s|
  {
    if s != [] {
      var init := s[..|s| - 1];
      SortIsStable(init, key, k);
      InsertStable(InsertionSort(init, key), s[|s| - 1], key, k);
      WithKeyAppend(init, [s[|s| - 1]], key, k);
      assert init + [s[|s| - 1]] == s;
      assert [s[|s| - 1]][..0] == [];
    }
  }

  /** The head of the sort is the first element of the input with the smallest key. */
  lemma {:induction false} SortHeadIsFirstMin<T>(s: seq<T>, key: T -> int)
    requires s != []
    ensures InsertionSort(s, key)[0] == s[FirstMin(Keys(s, key))]
    decreases |s|
  {
    if |s| > 1 {
      var init := s[..|s| - 1];
      var last := s[|s| - 1];
      var sortedInit := InsertionSort(init, key);
      SortHeadIsFirstMin(init, key);
      SortIsSorted(init, key);
      InsertSorted(sortedInit, last, key);
      var ks := Keys(s, key);
      assert ks[..|s| - 1] == Keys(init, key);
      var k := FirstMin(Keys(init, key));
      assert sortedInit[0] == init[k] == s[k];
      assert FirstMin(ks) == if ks[|s| - 1] < ks[k] then |s| - 1 else k;
    }
  }

  /**
   * Python's `a.sort(key=key)` in place, as an insertion sort: each element
   * in turn is moved left past the larger keys before it.
   */
  method SortInPlace<T>(a: array<T>, key: T -> int)
    modifies a
    ensures a[..] == InsertionSort(old(a[..]), key)
  {
    ghost var input := a[..];
    var i := 0;
    while i < a.Length
      invariant 0 <= i <= a.Length
      invariant a[..i] == InsertionSort(input[..i], key)
      invariant a[i..] == input[i..]
    {
      assert a[i] == input[i];
      assert input[..i + 1][..i] == input[..i];
      InsertLast(a, i, key);
      i := i + 1;
    }
    assert input[..a.Length] == input;
  }

  /**
   * `Insert` puts `x` right after index `j - 1` when every element from `j`
   * on has a larger key and the element before `j` (if any) does not.
   */
  lemma {:induction false} InsertAt<T>(s: seq<T>, x: T, key: T -> int, j: int)
    requires 0 <= j <= |s|
    requires j == 0 || key(s[j - 1]) <= key(x)
    requires forall m :: j <= m < |s| ==> key(s[m]) > key(x)
    ensures Insert(s, x, key) == s[..j] + [x] + s[j..]
    decreases |s|
  {
    if j < |s| {
      var init := s[..|s| - 1];
      InsertAt(init, x, key, j);
      assert init[..j] == s[..j];
      assert init[j..] + [s[|s| - 1]] == s[j..];
    }
  }

  /** Moves `a[i]` left into the already ordered prefix `a[..i]`. */
  method InsertLast<T>(a: array<T>, i: nat, key: T -> int)
    requires i < a.Length
    modifies a
    ensures a[..i + 1] == Insert(old(a[..i]), old(a[i]), key)
    ensures a[i + 1..] == old(a[i + 1..])
  {
    ghost var done := a[..i];
    var x := a[i];
    var j := i;
    while j > 0 && key(a[j - 1]) > key(x)
      invariant 0 <= j <= i
      invariant forall m :: 0 <= m < j ==> a[m] == done[m]
      invariant forall m :: j < m <= i ==> a[m] == done[m - 1]
      invariant forall m :: i < m < a.Length ==> a[m] == old(a[m])
      invariant forall m :: j <= m < i ==> key(done[m]) > key(x)
    {
      a[j] := a[j - 1];
      j := j - 1;
    }
    a[j] := x;
    InsertAt(done, x, key, j);
    ghost var expected := done[..j] + [x] + done[j..];
    forall m | 0 <= m <= i ensures a[m] == expected[m] {
      if m < j {
        assert expected[m] == done[m];
      } else if j < m {
        assert expected[m] == done[j..][m - j - 1] == done[m - 1];
      }
    }
    assert a[..i + 1] == expected;
  }
}
