/**
 sort.SliceStable: an in-place sort that keeps elements of equal key in their order.
 */
module StableSort {
  /** The elements of one key, in order. */
  ghost function WithKey<T>(s: seq<T>, key: T -> int, k: int): seq<T> {
    if s == [] then [] else WithKey(s[..|s| - 1], key, k) + if key(s[|s| - 1]) == k then [s[|s| - 1]] else []
  }

  ghost predicate Sorted<T>(s: seq<T>, key: T -> int) {
    forall i, j | 0 <= i < j < |s| :: key(s[i]) <= key(s[j])
  }

  ghost predicate SameOrder<T>(s: seq<T>, t: seq<T>, key: T -> int) {
    forall k: int :: WithKey(s, key, k) == WithKey(t, key, k)
  }

  /** `t` is sorted and has, for each key, the elements of `s` of that key in their order. */
  ghost predicate IsStableSort<T>(s: seq<T>, t: seq<T>, key: T -> int) {
    Sorted(t, key) && SameOrder(s, t, key)
  }

  method SliceStable<T>(a: array<T>, key: T -> int)
    modifies a
    ensures IsStableSort(old(a[..]), a[..], key)
  {
    for i := 0 to a.Length
      invariant Sorted(a[..i], key)
      invariant SameOrder(old(a[..]), a[..], key)
    {
      Insert(a, i, key);
    }
    assert a[..a.Length] == a[..];
  }

  /** Moves the element at `i` down over those of larger key. */
  method Insert<T>(a: array<T>, i: nat, key: T -> int)
    requires i < a.Length && Sorted(a[..i], key)
    modifies a
    ensures Sorted(a[..i + 1], key)
    ensures SameOrder(old(a[..]), a[..], key)
  {
    var j := i;
    while j > 0 && key(a[j]) < key(a[j - 1])
      invariant 0 <= j <= i
      invariant SortedBut(a[..], i, j, key)
      invariant SameOrder(old(a[..]), a[..], key)
    {
      hide SortedBut, SameOrder;
      ghost var before := a[..];
      a[j - 1], a[j] := a[j], a[j - 1];
      assert a[..] == Swapped(before, j);
      SwapKeepsOrder(before, j, key);
      SwapMoves(before, i, j, key);
      SameOrderChains(old(a[..]), before, a[..], key);
      j := j - 1;
    }
  }

  function Swapped<T>(s: seq<T>, j: nat): seq<T>
    requires 0 < j < |s|
  {
    s[j - 1 := s[j]][j := s[j - 1]]
  }

  /** Up to `i`, only the element at `j` may be smaller than some before it. */
  ghost predicate SortedBut<T>(s: seq<T>, i: nat, j: nat, key: T -> int)
    requires j <= i < |s|
  {
    && (forall p, q | 0 <= p < q <= i && q != j :: key(s[p]) <= key(s[q]))
    && (forall q | j < q <= i :: key(s[j]) <= key(s[q]))
  }

  lemma SwapMoves<T>(s: seq<T>, i: nat, j: nat, key: T -> int)
    requires 0 < j <= i < |s| && SortedBut(s, i, j, key) && key(s[j]) < key(s[j - 1])
    ensures SortedBut(Swapped(s, j), i, j - 1, key)
  {
  }

  lemma SameOrderChains<T>(s: seq<T>, t: seq<T>, u: seq<T>, key: T -> int)
    requires SameOrder(s, t, key) && SameOrder(t, u, key)
    ensures SameOrder(s, u, key)
  {
    forall k ensures WithKey(s, key, k) == WithKey(u, key, k) {
      assert WithKey(s, key, k) == WithKey(t, key, k);
    }
  }

  lemma {:induction false} WithKeySplit<T>(s: seq<T>, t: seq<T>, key: T -> int, k: int)
    ensures WithKey(s + t, key, k) == WithKey(s, key, k) + WithKey(t, key, k)
  {
    if t == [] {
      assert s + t == s;
    } else {
      assert (s + t)[..|s + t| - 1] == s + t[..|t| - 1];
      WithKeySplit(s, t[..|t| - 1], key, k);
    }
  }

  lemma SwapKeepsOrder<T>(s: seq<T>, j: nat, key: T -> int)
    requires 0 < j < |s| && key(s[j]) != key(s[j - 1])
    ensures SameOrder(s, Swapped(s, j), key)
  {
    hide WithKey;
    var xs, x, y, zs := s[..j - 1], s[j - 1], s[j], s[j + 1..];
    assert s == xs + ([x] + [y]) + zs;
    assert Swapped(s, j) == xs + ([y] + [x]) + zs;
    forall k ensures WithKey(s, key, k) == WithKey(Swapped(s, j), key, k) {
      PairSwaps(xs, x, y, zs, key, k);
    }
  }

  lemma PairSwaps<T>(xs: seq<T>, x: T, y: T, zs: seq<T>, key: T -> int, k: int)
    requires key(x) != key(y)
    ensures WithKey(xs + ([x] + [y]) + zs, key, k) == WithKey(xs + ([y] + [x]) + zs, key, k)
  {
    hide WithKey;
    WithKeySplit(xs + ([x] + [y]), zs, key, k);
    WithKeySplit(xs + ([y] + [x]), zs, key, k);
    WithKeySplit(xs, [x] + [y], key, k);
    WithKeySplit(xs, [y] + [x], key, k);
    PairWithKey(x, y, key, k);
  }

  lemma PairWithKey<T>(x: T, y: T, key: T -> int, k: int)
    requires key(x) != key(y)
    ensures WithKey([x] + [y], key, k) == WithKey([y] + [x], key, k)
  {
    WithKeySplit([x], [y], key, k);
    WithKeySplit([y], [x], key, k);
  }

  /** Sorting what is already sorted together with more elements is sorting everything at once. */
  lemma SortsCompose<T>(s: seq<T>, more: seq<T>, t: seq<T>, u: seq<T>, key: T -> int)
    requires IsStableSort(s, t, key) && IsStableSort(t + more, u, key)
    ensures IsStableSort(s + more, u, key)
  {
    forall k ensures WithKey(s + more, key, k) == WithKey(u, key, k) {
      WithKeySplit(s, more, key, k);
      WithKeySplit(t, more, key, k);
      assert WithKey(t + more, key, k) == WithKey(u, key, k);
    }
  }

  lemma {:induction false} WithKeyHas<T>(s: seq<T>, key: T -> int, k: int)
    ensures forall x | x in WithKey(s, key, k) :: x in s && key(x) == k
    ensures forall x | x in s && key(x) == k :: x in WithKey(s, key, k)
  {
    if s == [] {
    } else {
      WithKeyHas(s[..|s| - 1], key, k);
      assert s == s[..|s| - 1] + [s[|s| - 1]];
    }
  }

  lemma LastKeyAtMost<T>(t: seq<T>, u: seq<T>, key: T -> int)
    requires Sorted(t, key) && Sorted(u, key) && SameOrder(t, u, key) && t != []
    ensures u != [] && key(t[|t| - 1]) <= key(u[|u| - 1])
  {
    var x := t[|t| - 1];
    WithKeyHas(t, key, key(x));
    WithKeyHas(u, key, key(x));
    assert WithKey(t, key, key(x)) == WithKey(u, key, key(x));
    assert x in u;
  }

  lemma SameLast<T>(s: seq<T>, x: T, t: seq<T>, y: T)
    requires s + [x] == t + [y]
    ensures s == t && x == y
  {
    assert (s + [x])[|s|] == (t + [y])[|t|];
    assert s == (s + [x])[..|s|] == (t + [y])[..|t|] == t;
  }

  /** There is only one stable sort of a sequence. */
  lemma {:induction false} StableSortIsUnique<T>(s: seq<T>, t: seq<T>, u: seq<T>, key: T -> int)
    requires IsStableSort(s, t, key) && IsStableSort(s, u, key)
    ensures t == u
  {
    assert SameOrder(t, s, key) by {
      forall k ensures WithKey(t, key, k) == WithKey(s, key, k) {
        assert WithKey(s, key, k) == WithKey(t, key, k);
      }
    }
    SameOrderChains(t, s, u, key);
    SortedSameOrder(t, u, key);
  }

  lemma {:induction false} SortedSameOrder<T>(t: seq<T>, u: seq<T>, key: T -> int)
    requires Sorted(t, key) && Sorted(u, key) && SameOrder(t, u, key)
    ensures t == u
    decreases |t|
  {
    if t == [] {
      if u != [] {
        LastKeyAtMost(u, t, key);
      }
    } else {
      LastKeyAtMost(t, u, key);
      LastKeyAtMost(u, t, key);
      var m, n := |t| - 1, |u| - 1;
      var k := key(t[m]);
      assert WithKey(t, key, k) == WithKey(u, key, k);
      SameLast(WithKey(t[..m], key, k), t[m], WithKey(u[..n], key, k), u[n]);
      forall h ensures WithKey(t[..m], key, h) == WithKey(u[..n], key, h) {
        assert WithKey(t, key, h) == WithKey(u, key, h);
        if h != k {
          assert WithKey(t, key, h) == WithKey(t[..m], key, h);
          assert WithKey(u, key, h) == WithKey(u[..n], key, h);
        }
      }
      SortedSameOrder(t[..m], u[..n], key);
      assert t == t[..m] + [t[m]] && u == u[..n] + [u[n]];
    }
  }
}
