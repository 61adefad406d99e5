/** Sequence facts behind the sort: permutations of a segment, comparison laws. */
module Permutations {

  type Compare<!T> = (T, T) -> int

  /** A total preorder given by the sign of a comparison. */
  ghost predicate Preorder<T(!new)>(cmp: Compare<T>) {
    && (forall x, y :: cmp(x, y) < 0 <==> cmp(y, x) > 0)
    && (forall x, y, z :: cmp(x, y) <= 0 && cmp(y, z) <= 0 ==> cmp(x, z) <= 0)
  }

  lemma Flip<T(!new)>(cmp: Compare<T>, x: T, y: T)
    requires Preorder(cmp)
    ensures cmp(x, y) < 0 <==> cmp(y, x) > 0
    ensures cmp(x, y) > 0 <==> cmp(y, x) < 0
    ensures cmp(x, x) == 0
  {
  }

  lemma Trans<T(!new)>(cmp: Compare<T>, x: T, y: T, z: T)
    requires Preorder(cmp) && cmp(x, y) <= 0 && cmp(y, z) <= 0
    ensures cmp(x, z) <= 0
  {
  }

  predicate SortedBetween<T>(cmp: Compare<T>, s: seq<T>, lo: nat, hi: nat) {
    forall i, j :: lo <= i < j < hi <= |s| ==> cmp(s[i], s[j]) <= 0
  }

  // ----- Rearrangements of a segment -----

  function Swapped<T>(s: seq<T>, i: nat, j: nat): (t: seq<T>)
    requires i < |s| && j < |s|
    ensures |t| == |s|
  {
    s[i := s[j]][j := s[i]]
  }

  /** `t` is `s` with the elements of [lo, hi) permuted. */
  ghost predicate Rearranged<T>(s: seq<T>, t: seq<T>, lo: nat, hi: nat) {
    && |s| == |t| && lo <= hi <= |s|
    && (forall k :: 0 <= k < |s| && !(lo <= k < hi) ==> s[k] == t[k])
    && multiset(s) == multiset(t)
  }

  lemma SwapMultiset<T>(s: seq<T>, i: nat, j: nat)
    requires i < |s| && j < |s|
    ensures multiset(Swapped(s, i, j)) == multiset(s)
  {
  }

  lemma RearrangedSelf<T>(s: seq<T>, lo: nat, hi: nat)
    requires lo <= hi <= |s|
    ensures Rearranged(s, s, lo, hi)
  {
  }

  lemma RearrangedSwap<T>(s: seq<T>, t: seq<T>, lo: nat, hi: nat, i: nat, j: nat)
    requires Rearranged(s, t, lo, hi) && lo <= i < hi && lo <= j < hi
    ensures Rearranged(s, Swapped(t, i, j), lo, hi)
  {
    SwapMultiset(t, i, j);
  }

  lemma RearrangedTrans<T>(s: seq<T>, t: seq<T>, u: seq<T>, lo: nat, hi: nat, lo': nat, hi': nat)
    requires Rearranged(s, t, lo, hi) && Rearranged(t, u, lo', hi') && lo <= lo' && hi' <= hi
    ensures Rearranged(s, u, lo, hi)
  {
  }

  lemma SegmentMultiset<T>(s: seq<T>, t: seq<T>, lo: nat, hi: nat)
    requires Rearranged(s, t, lo, hi)
    ensures multiset(s[lo..hi]) == multiset(t[lo..hi])
  {
    ThreeParts(s, lo, hi);
    ThreeParts(t, lo, hi);
    assert s[..lo] == t[..lo] && s[hi..] == t[hi..];
  }

  lemma ThreeParts<T>(s: seq<T>, lo: nat, hi: nat)
    requires lo <= hi <= |s|
    ensures multiset(s[lo..hi]) == multiset(s) - multiset(s[..lo]) - multiset(s[hi..])
  {
    assert s == s[..lo] + s[lo..hi] + s[hi..];
  }

  /** Every value of a rearranged segment was in it before. */
  lemma CameFrom<T>(s: seq<T>, t: seq<T>, lo: nat, hi: nat, k: nat) returns (j: nat)
    requires Rearranged(s, t, lo, hi) && lo <= k < hi
    ensures lo <= j < hi && s[j] == t[k]
  {
    SegmentMultiset(s, t, lo, hi);
    assert t[lo..hi][k - lo] == t[k];
    assert t[k] in multiset(t[lo..hi]);
    assert t[k] in s[lo..hi];
    var n :| 0 <= n < hi - lo && s[lo..hi][n] == t[k];
    j := lo + n;
  }

  method Swap<T>(a: array<T>, i: nat, j: nat)
    requires i < a.Length && j < a.Length
    modifies a
    ensures a[..] == Swapped(old(a[..]), i, j)
  {
    a[i], a[j] := a[j], a[i];
  }
}

/** Heapsort of a segment of an array. */
module HeapSorting {
  import opened Permutations

  /** Parents from index `from` on, but not `skip`, are at least their children. */
  ghost predicate Heap<T>(cmp: Compare<T>, s: seq<T>, base: nat, n: nat, from: nat, skip: int) {
    base + n <= |s| && forall c :: EdgeIn(n, from, skip, c) ==> cmp(s[base + (c - 1) / 2], s[base + c]) >= 0
  }

  predicate EdgeIn(n: nat, from: nat, skip: int, c: int) {
    1 <= c < n && (c - 1) / 2 >= from && (c - 1) / 2 != skip
  }

  /** The value `v` is at least the children of `r`. */
  predicate Above<T>(cmp: Compare<T>, s: seq<T>, base: nat, n: nat, v: T, r: nat)
    requires base + n <= |s|
  {
    && (2 * r + 1 < n ==> cmp(v, s[base + 2 * r + 1]) >= 0)
    && (2 * r + 2 < n ==> cmp(v, s[base + 2 * r + 2]) >= 0)
  }

  /** The heap with a hole at `r`: the parent of `r` is already above its children. */
  ghost predicate Sifting<T>(cmp: Compare<T>, s: seq<T>, base: nat, n: nat, from: nat, r: nat) {
    Heap(cmp, s, base, n, from, r) && from <= r < n &&
    (r > from ==> (r - 1) / 2 >= from && Above(cmp, s, base, n, s[base + (r - 1) / 2], r))
  }

  lemma LargerChild<T(!new)>(cmp: Compare<T>, s: seq<T>, base: nat, n: nat, r: nat, c: nat)
    requires Preorder(cmp) && base + n <= |s| && 2 * r + 1 <= c <= 2 * r + 2 && c < n
    requires 2 * r + 2 < n ==> c == if cmp(s[base + 2 * r + 1], s[base + 2 * r + 2]) <= 0 then 2 * r + 2 else 2 * r + 1
    ensures Above(cmp, s, base, n, s[base + c], r)
  {
    Flip(cmp, s[base + c], s[base + 2 * r + 1]);
    if 2 * r + 2 < n { Flip(cmp, s[base + c], s[base + 2 * r + 2]); }
  }

  lemma SiftEdge<T(!new)>(cmp: Compare<T>, s: seq<T>, base: nat, n: nat, from: nat, r: nat, c: nat, d: nat, p: nat)
    requires Preorder(cmp) && Sifting(cmp, s, base, n, from, r) && 2 * r + 1 <= c <= 2 * r + 2 && c < n
    requires cmp(s[base + r], s[base + c]) <= 0 && Above(cmp, s, base, n, s[base + c], r)
    requires EdgeIn(n, from, c, d) && 2 * p + 1 <= d <= 2 * p + 2
    ensures cmp(Swapped(s, base + r, base + c)[base + p], Swapped(s, base + r, base + c)[base + d]) >= 0
  {
    hide Preorder;
    assert p == (d - 1) / 2 && p != c;
    if d == c {
      Flip(cmp, s[base + r], s[base + c]);
    } else if p != r && d != r {
      assert EdgeIn(n, from, r, d);
    }
  }

  /** Swapping a node with its larger child moves the hole down. */
  lemma SiftStep<T(!new)>(cmp: Compare<T>, s: seq<T>, base: nat, n: nat, from: nat, r: nat, c: nat)
    requires Preorder(cmp) && Sifting(cmp, s, base, n, from, r) && 2 * r + 1 <= c <= 2 * r + 2 && c < n
    requires cmp(s[base + r], s[base + c]) <= 0 && Above(cmp, s, base, n, s[base + c], r)
    ensures Sifting(cmp, Swapped(s, base + r, base + c), base, n, from, c)
  {
    hide Preorder;
    var t := Swapped(s, base + r, base + c);
    assert Heap(cmp, t, base, n, from, c) by {
      hide Swapped, Sifting, Above;
      forall d | EdgeIn(n, from, c, d) ensures cmp(t[base + (d - 1) / 2], t[base + d]) >= 0 {
        SiftEdge(cmp, s, base, n, from, r, c, d, (d - 1) / 2);
      }
    }
    if 2 * c + 1 < n { assert EdgeIn(n, from, r, 2 * c + 1); }
    if 2 * c + 2 < n { assert EdgeIn(n, from, r, 2 * c + 2); }
  }

  lemma SiftDone<T(!new)>(cmp: Compare<T>, s: seq<T>, base: nat, n: nat, from: nat, r: nat)
    requires Preorder(cmp) && Sifting(cmp, s, base, n, from, r) && Above(cmp, s, base, n, s[base + r], r)
    ensures Heap(cmp, s, base, n, from, -1)
  {
    forall d | EdgeIn(n, from, -1, d) ensures cmp(s[base + (d - 1) / 2], s[base + d]) >= 0 {
      if (d - 1) / 2 == r {
        assert d == 2 * r + 1 || d == 2 * r + 2;
      } else {
        assert EdgeIn(n, from, r, d);
      }
    }
  }

  lemma AboveAll<T(!new)>(cmp: Compare<T>, s: seq<T>, base: nat, n: nat, v: T, w: T, r: nat)
    requires Preorder(cmp) && base + n <= |s| && cmp(v, w) >= 0 && Above(cmp, s, base, n, w, r)
    ensures Above(cmp, s, base, n, v, r)
  {
    hide Preorder;
    if 2 * r + 1 < n { TransDown(cmp, v, w, s[base + 2 * r + 1]); }
    if 2 * r + 2 < n { TransDown(cmp, v, w, s[base + 2 * r + 2]); }
  }

  lemma TransDown<T(!new)>(cmp: Compare<T>, x: T, y: T, z: T)
    requires Preorder(cmp) && cmp(x, y) >= 0 && cmp(y, z) >= 0
    ensures cmp(x, z) >= 0
  {
    hide Preorder;
    Flip(cmp, x, y);
    Flip(cmp, y, z);
    Trans(cmp, z, y, x);
    Flip(cmp, x, z);
  }

  /** Restores the heap below `from`. */
  method SiftDown<T(!new)>(cmp: Compare<T>, a: array<T>, base: nat, n: nat, from: nat)
    requires Preorder(cmp) && base + n <= a.Length && Heap(cmp, a[..], base, n, from, from) && from < n
    modifies a
    ensures Heap(cmp, a[..], base, n, from, -1) && Rearranged(old(a[..]), a[..], base, base + n)
  {
    hide Preorder, Heap, Rearranged, Above, Sifting, Swapped;
    var r := from;
    RearrangedSelf(a[..], base, base + n);
    SiftStart(cmp, a[..], base, n, from);
    while 2 * r + 1 < n
      invariant from <= r < n && Sifting(cmp, a[..], base, n, from, r) && Rearranged(old(a[..]), a[..], base, base + n)
      decreases n - r
    {
      var c := 2 * r + 1;
      if c < n - 1 && cmp(a[base + c], a[base + c + 1]) <= 0 {
        c := c + 1;
      }
      LargerChild(cmp, a[..], base, n, r, c);
      if cmp(a[base + r], a[base + c]) > 0 {
        AboveAll(cmp, a[..], base, n, a[base + r], a[base + c], r);
        break;
      }
      SiftStep(cmp, a[..], base, n, from, r, c);
      RearrangedSwap(old(a[..]), a[..], base, base + n, base + r, base + c);
      Swap(a, base + r, base + c);
      r := c;
    }
    if 2 * r + 1 >= n { NoChildren(cmp, a[..], base, n, r); }
    SiftDone(cmp, a[..], base, n, from, r);
  }

  lemma SiftStart<T>(cmp: Compare<T>, s: seq<T>, base: nat, n: nat, from: nat)
    requires from < n && Heap(cmp, s, base, n, from, from)
    ensures Sifting(cmp, s, base, n, from, from)
  {
  }

  lemma NoChildren<T>(cmp: Compare<T>, s: seq<T>, base: nat, n: nat, r: nat)
    requires base + n <= |s| && r < n <= 2 * r + 1
    ensures Above(cmp, s, base, n, s[base + r], r)
  {
  }

  /** The root of a heap is its maximum. */
  lemma {:induction false} RootIsMax<T(!new)>(cmp: Compare<T>, s: seq<T>, base: nat, n: nat, k: nat)
    requires Preorder(cmp) && Heap(cmp, s, base, n, 0, -1) && k < n
    ensures cmp(s[base], s[base + k]) >= 0
    decreases k
  {
    if k == 0 {
      Flip(cmp, s[base], s[base]);
    } else {
      assert EdgeIn(n, 0, -1, k);
      RootIsMax(cmp, s, base, n, (k - 1) / 2);
      TransDown(cmp, s[base], s[base + (k - 1) / 2], s[base + k]);
    }
  }

  /** The elements behind `i` are sorted and at least everything before them. */
  ghost predicate Extracted<T>(cmp: Compare<T>, s: seq<T>, base: nat, n: nat, i: nat) {
    base + n <= |s| && i <= n &&
    forall x, y :: base <= x < y < base + n && base + i <= y ==> cmp(s[x], s[y]) <= 0
  }

  lemma ExtractMax<T(!new)>(cmp: Compare<T>, s: seq<T>, base: nat, n: nat, i: nat)
    requires Preorder(cmp) && 0 < i < n && Heap(cmp, s, base, i + 1, 0, -1) && Extracted(cmp, s, base, n, i + 1)
    ensures Extracted(cmp, Swapped(s, base, base + i), base, n, i)
    ensures Heap(cmp, Swapped(s, base, base + i), base, i, 0, 0)
  {
    hide Preorder;
    var t := Swapped(s, base, base + i);
    forall x, y | base <= x < y < base + n && base + i <= y ensures cmp(t[x], t[y]) <= 0 {
      var x' := if x == base then base + i else if x == base + i then base else x;
      assert t[x] == s[x'];
      if y == base + i {
        RootIsMax(cmp, s, base, i + 1, x' - base);
        Flip(cmp, s[base], s[x']);
      }
    }
    forall d | EdgeIn(i, 0, 0, d) ensures cmp(t[base + (d - 1) / 2], t[base + d]) >= 0 {
      assert EdgeIn(i + 1, 0, -1, d);
    }
  }

  /** Rearranging the unsorted front keeps what is behind it sorted. */
  lemma FrontMoves<T(!new)>(cmp: Compare<T>, s: seq<T>, t: seq<T>, base: nat, n: nat, i: nat)
    requires Extracted(cmp, s, base, n, i) && Rearranged(s, t, base, base + i)
    ensures Extracted(cmp, t, base, n, i)
  {
    forall x, y | base <= x < y < base + n && base + i <= y ensures cmp(t[x], t[y]) <= 0 {
      if x < base + i {
        var z := CameFrom(s, t, base, base + i, x);
      }
    }
  }

  lemma LeavesHeap<T>(cmp: Compare<T>, s: seq<T>, base: nat, n: nat)
    requires base + n <= |s|
    ensures Heap(cmp, s, base, n, n / 2, -1)
  {
  }

  lemma HeapHole<T>(cmp: Compare<T>, s: seq<T>, base: nat, n: nat, i: nat)
    requires Heap(cmp, s, base, n, i + 1, -1)
    ensures Heap(cmp, s, base, n, i, i)
  {
    forall d | EdgeIn(n, i, i, d) ensures cmp(s[base + (d - 1) / 2], s[base + d]) >= 0 {
      assert EdgeIn(n, i + 1, -1, d);
    }
  }

  lemma ExtractedSorted<T>(cmp: Compare<T>, s: seq<T>, base: nat, n: nat, i: nat)
    requires Extracted(cmp, s, base, n, i) && i <= 1
    ensures SortedBetween(cmp, s, base, base + n)
  {
  }

  lemma NothingExtracted<T>(cmp: Compare<T>, s: seq<T>, base: nat, n: nat)
    requires base + n <= |s|
    ensures Extracted(cmp, s, base, n, n)
  {
  }

  method BuildHeap<T(!new)>(cmp: Compare<T>, a: array<T>, base: nat, n: nat)
    requires Preorder(cmp) && base + n <= a.Length
    modifies a
    ensures Heap(cmp, a[..], base, n, 0, -1) && Rearranged(old(a[..]), a[..], base, base + n)
  {
    hide Preorder, Heap, Rearranged;
    var i := n / 2;
    LeavesHeap(cmp, a[..], base, n);
    RearrangedSelf(a[..], base, base + n);
    while i > 0
      invariant 0 <= i <= n / 2 && Heap(cmp, a[..], base, n, i, -1) && Rearranged(old(a[..]), a[..], base, base + n)
    {
      i := i - 1;
      HeapHole(cmp, a[..], base, n, i);
      ghost var s := a[..];
      SiftDown(cmp, a, base, n, i);
      RearrangedTrans(old(a[..]), s, a[..], base, base + n, base, base + n);
    }
  }

  method HeapSort<T(!new)>(cmp: Compare<T>, a: array<T>, base: nat, n: nat)
    requires Preorder(cmp) && base + n <= a.Length
    modifies a
    ensures SortedBetween(cmp, a[..], base, base + n) && Rearranged(old(a[..]), a[..], base, base + n)
  {
    hide Preorder, Heap, Rearranged, Extracted, SortedBetween;
    if n > 1 {
      BuildHeap(cmp, a, base, n);
      NothingExtracted(cmp, a[..], base, n);
      var i := n - 1;
      while i > 0
        invariant 0 <= i < n && Heap(cmp, a[..], base, i + 1, 0, -1) && Extracted(cmp, a[..], base, n, i + 1)
        invariant Rearranged(old(a[..]), a[..], base, base + n)
      {
        ExtractMax(cmp, a[..], base, n, i);
        RearrangedSwap(old(a[..]), a[..], base, base + n, base, base + i);
        Swap(a, base, base + i);
        ghost var s := a[..];
        SiftDown(cmp, a, base, i, 0);
        FrontMoves(cmp, s, a[..], base, n, i);
        RearrangedTrans(old(a[..]), s, a[..], base, base + n, base, base + i);
        i := i - 1;
      }
      ExtractedSorted(cmp, a[..], base, n, 1);
    } else {
      NothingExtracted(cmp, a[..], base, n);
      ExtractedSorted(cmp, a[..], base, n, n);
      RearrangedSelf(a[..], base, base + n);
    }
  }
}
