/** Three-way quicksort with an explicit stack of pending segments. */
module QuickSorting {
  import opened Permutations
  import opened HeapSorting

  // ----- Partition -----

  /** The sign with which the pivot compares to every element of [lo, hi). */
  predicate Zone<T>(cmp: Compare<T>, s: seq<T>, p: T, lo: int, hi: int, sign: int) {
    forall x :: 0 <= lo <= x < hi <= |s| ==> Sign(cmp(p, s[x])) == sign
  }

  function Sign(n: int): int {
    if n < 0 then -1 else if n > 0 then 1 else 0
  }

  /** Equal, smaller, unknown, greater, equal. */
  ghost predicate Zones<T>(cmp: Compare<T>, s: seq<T>, p: T, b: int, lt: int, i: int, j: int, gt: int, e: int) {
    && 0 <= b < lt <= i <= j <= gt <= e <= |s| && s[b] == p
    && Zone(cmp, s, p, b, lt, 0) && Zone(cmp, s, p, lt, i, 1)
    && Zone(cmp, s, p, j, gt, -1) && Zone(cmp, s, p, gt, e, 0)
  }

  lemma TakeEqualLeft<T>(cmp: Compare<T>, s: seq<T>, p: T, b: nat, lt: nat, i: nat, j: nat, gt: nat, e: nat)
    requires Zones(cmp, s, p, b, lt, i, j, gt, e) && i < j && cmp(p, s[i]) == 0
    ensures Zones(cmp, Swapped(s, lt, i), p, b, lt + 1, i + 1, j, gt, e)
  {
  }

  lemma TakeSmaller<T>(cmp: Compare<T>, s: seq<T>, p: T, b: nat, lt: nat, i: nat, j: nat, gt: nat, e: nat)
    requires Zones(cmp, s, p, b, lt, i, j, gt, e) && i < j && cmp(p, s[i]) > 0
    ensures Zones(cmp, s, p, b, lt, i + 1, j, gt, e)
  {
  }

  lemma TakeEqualRight<T>(cmp: Compare<T>, s: seq<T>, p: T, b: nat, lt: nat, i: nat, j: nat, gt: nat, e: nat)
    requires Zones(cmp, s, p, b, lt, i, j + 1, gt, e) && i < j && cmp(p, s[j]) == 0
    ensures Zones(cmp, Swapped(s, gt - 1, j), p, b, lt, i, j, gt - 1, e)
    ensures Swapped(s, gt - 1, j)[i] == s[i]
  {
  }

  lemma TakeGreater<T>(cmp: Compare<T>, s: seq<T>, p: T, b: nat, lt: nat, i: nat, j: nat, gt: nat, e: nat)
    requires Zones(cmp, s, p, b, lt, i, j + 1, gt, e) && i <= j && cmp(p, s[j]) < 0
    ensures Zones(cmp, s, p, b, lt, i, j, gt, e)
  {
  }

  lemma TakeBoth<T>(cmp: Compare<T>, s: seq<T>, p: T, b: nat, lt: nat, i: nat, j: nat, gt: nat, e: nat)
    requires Zones(cmp, s, p, b, lt, i, j + 1, gt, e) && i < j && cmp(p, s[i]) < 0 && cmp(p, s[j]) > 0
    ensures Zones(cmp, Swapped(s, i, j), p, b, lt, i + 1, j, gt, e) && Swapped(s, i, j)[b] == p
  {
  }

  function One(b: bool): nat {
    if b then 1 else 0
  }

  /** At least two of the three are not above `v`, and at least two not below it. */
  predicate Median<T>(cmp: Compare<T>, v: T, x: T, y: T, z: T) {
    && One(cmp(x, v) <= 0) + One(cmp(y, v) <= 0) + One(cmp(z, v) <= 0) >= 2
    && One(cmp(v, x) <= 0) + One(cmp(v, y) <= 0) + One(cmp(v, z) <= 0) >= 2
  }

  /** Index of a median of three. */
  method Med3<T(!new)>(cmp: Compare<T>, a: array<T>, x: nat, y: nat, z: nat) returns (m: nat)
    requires Preorder(cmp) && x < a.Length && y < a.Length && z < a.Length
    ensures m == x || m == y || m == z
    ensures Median(cmp, a[m], a[x], a[y], a[z])
  {
    hide Preorder;
    Flip(cmp, a[x], a[y]);
    Flip(cmp, a[y], a[z]);
    Flip(cmp, a[x], a[z]);
    Flip(cmp, a[z], a[z]);
    if cmp(a[x], a[y]) < 0 {
      m := if cmp(a[y], a[z]) < 0 then y else if cmp(a[x], a[z]) < 0 then z else x;
    } else {
      m := if cmp(a[y], a[z]) > 0 then y else if cmp(a[x], a[z]) < 0 then x else z;
    }
  }

  lemma ZonesStart<T(!new)>(cmp: Compare<T>, s: seq<T>, b: nat, e: nat)
    requires Preorder(cmp) && b < e <= |s|
    ensures Zones(cmp, s, s[b], b, b + 1, b + 1, e, e, e)
  {
    Flip(cmp, s[b], s[b]);
  }

  /** Passes over elements up to the first one greater than the pivot. */
  method GatherLeft<T>(cmp: Compare<T>, a: array<T>, b: nat, lt0: nat, i0: nat, j: nat, gt: nat, e: nat, ghost s0: seq<T>)
    returns (lt: nat, i: nat)
    requires e <= a.Length && b < lt0 <= i0 <= j <= gt <= e && Zones(cmp, a[..], a[b], b, lt0, i0, j, gt, e)
    requires Rearranged(s0, a[..], b, e)
    modifies a
    ensures a[b] == old(a[b]) && b < lt <= i && i0 <= i <= j && (i < j ==> cmp(a[b], a[i]) < 0)
    ensures Zones(cmp, a[..], a[b], b, lt, i, j, gt, e) && Rearranged(s0, a[..], b, e)
  {
    hide Zones, Rearranged;
    lt, i := lt0, i0;
    while i < j && cmp(a[b], a[i]) >= 0
      invariant b < lt <= i <= j && i0 <= i && a[b] == old(a[b])
      invariant Zones(cmp, a[..], a[b], b, lt, i, j, gt, e) && Rearranged(s0, a[..], b, e)
    {
      if cmp(a[b], a[i]) == 0 {
        TakeEqualLeft(cmp, a[..], a[b], b, lt, i, j, gt, e);
        RearrangedSwap(s0, a[..], b, e, lt, i);
        Swap(a, lt, i);
        lt := lt + 1;
      } else {
        TakeSmaller(cmp, a[..], a[b], b, lt, i, j, gt, e);
      }
      i := i + 1;
    }
  }

  /** Passes over elements down to the last one smaller than the pivot. */
  method GatherRight<T>(cmp: Compare<T>, a: array<T>, b: nat, lt: nat, i: nat, j0: int, gt0: nat, e: nat, ghost s0: seq<T>)
    returns (gt: nat, j: int)
    requires e <= a.Length && b < lt <= i <= j0 + 1 <= gt0 <= e && Zones(cmp, a[..], a[b], b, lt, i, j0 + 1, gt0, e)
    requires i <= j0 ==> cmp(a[b], a[i]) < 0
    requires Rearranged(s0, a[..], b, e)
    modifies a
    ensures a[b] == old(a[b]) && i <= j + 1 <= gt <= e && j <= j0 && Rearranged(s0, a[..], b, e)
    ensures i < j ==> cmp(a[b], a[i]) < 0 && cmp(a[b], a[j]) > 0 && Zones(cmp, a[..], a[b], b, lt, i, j + 1, gt, e)
    ensures i >= j ==> Zones(cmp, a[..], a[b], b, lt, i, i, gt, e)
  {
    hide Zones, Rearranged;
    gt, j := gt0, j0;
    while i < j && cmp(a[b], a[j]) <= 0
      invariant i <= j + 1 <= gt <= e && j <= j0 && a[b] == old(a[b]) && (i <= j ==> cmp(a[b], a[i]) < 0)
      invariant Zones(cmp, a[..], a[b], b, lt, i, j + 1, gt, e) && Rearranged(s0, a[..], b, e)
      decreases j - i
    {
      if cmp(a[b], a[j]) == 0 {
        gt := gt - 1;
        TakeEqualRight(cmp, a[..], a[b], b, lt, i, j, gt + 1, e);
        RearrangedSwap(s0, a[..], b, e, gt, j);
        Swap(a, gt, j);
      } else {
        TakeGreater(cmp, a[..], a[b], b, lt, i, j, gt, e);
      }
      j := j - 1;
    }
    if i == j {
      TakeGreater(cmp, a[..], a[b], b, lt, i, j, gt, e);
    }
  }

  /** Moves from both ends: smaller elements left, greater ones right, equal ones to
      the two borders. */
  method Gather<T(!new)>(cmp: Compare<T>, a: array<T>, b: nat, e: nat) returns (lt: nat, i: nat, gt: nat)
    requires Preorder(cmp) && b < e <= a.Length
    modifies a
    ensures b < lt <= i <= gt <= e && Zones(cmp, a[..], a[b], b, lt, i, i, gt, e) && Rearranged(old(a[..]), a[..], b, e)
  {
    hide Preorder, Zones, Rearranged, Swapped;
    lt, i, gt := b + 1, b + 1, e;
    var j: int := e;
    ZonesStart(cmp, a[..], b, e);
    RearrangedSelf(a[..], b, e);
    while true
      invariant b < lt <= i <= j <= gt <= e && Zones(cmp, a[..], a[b], b, lt, i, j, gt, e)
      invariant Rearranged(old(a[..]), a[..], b, e)
      decreases j - i
    {
      lt, i := GatherLeft(cmp, a, b, lt, i, j, gt, e, old(a[..]));
      j := j - 1;
      gt, j := GatherRight(cmp, a, b, lt, i, j, gt, e, old(a[..]));
      if i >= j {
        break;
      }
      TakeBoth(cmp, a[..], a[b], b, lt, i, j, gt, e);
      RearrangedSwap(old(a[..]), a[..], b, e, i, j);
      Swap(a, i, j);
      i := i + 1;
    }
  }

  /** The blocks of length n at x and y exchanged. */
  ghost predicate BlocksSwapped<T>(s: seq<T>, t: seq<T>, x: nat, y: nat, n: nat) {
    && |s| == |t| && x + n <= y && y + n <= |s|
    && (forall k :: x <= k < x + n ==> t[k] == s[k - x + y])
    && (forall k :: y <= k < y + n ==> t[k] == s[k - y + x])
    && (forall k :: 0 <= k < |s| && !(x <= k < x + n) && !(y <= k < y + n) ==> t[k] == s[k])
  }

  lemma BlockGrows<T>(s: seq<T>, t: seq<T>, x: nat, y: nat, n: nat)
    requires BlocksSwapped(s, t, x, y, n) && x + n < y && y + n < |s|
    ensures BlocksSwapped(s, Swapped(t, x + n, y + n), x, y, n + 1)
  {
  }

  method SwapBlock<T>(a: array<T>, x: nat, y: nat, n: nat, ghost lo: nat, ghost hi: nat)
    requires lo <= x && x + n <= y && y + n <= hi <= a.Length
    modifies a
    ensures BlocksSwapped(old(a[..]), a[..], x, y, n) && Rearranged(old(a[..]), a[..], lo, hi)
  {
    hide Rearranged, BlocksSwapped;
    RearrangedSelf(a[..], lo, hi);
    NoBlock(a[..], x, y);
    var k := 0;
    while k < n
      invariant 0 <= k <= n && BlocksSwapped(old(a[..]), a[..], x, y, k) && Rearranged(old(a[..]), a[..], lo, hi)
    {
      BlockGrows(old(a[..]), a[..], x, y, k);
      RearrangedSwap(old(a[..]), a[..], lo, hi, x + k, y + k);
      Swap(a, x + k, y + k);
      k := k + 1;
    }
  }

  lemma NoBlock<T>(s: seq<T>, x: nat, y: nat)
    requires x <= y <= |s|
    ensures BlocksSwapped(s, s, x, y, 0)
  {
  }

  /** Swapping the shorter of two neighbouring zones over exchanges the zones. */
  lemma ExchangeZones<T>(cmp: Compare<T>, s: seq<T>, t: seq<T>, p: T, lo: nat, mid: nat, hi: nat, n: nat, f: int, g: int)
    requires lo <= mid <= hi <= |s| && (n == mid - lo <= hi - mid || n == hi - mid <= mid - lo)
    requires Zone(cmp, s, p, lo, mid, f) && Zone(cmp, s, p, mid, hi, g) && BlocksSwapped(s, t, lo, hi - n, n)
    ensures Zone(cmp, t, p, lo, lo + (hi - mid), g) && Zone(cmp, t, p, lo + (hi - mid), hi, f)
  {
  }

  lemma ZoneKept<T>(cmp: Compare<T>, s: seq<T>, t: seq<T>, p: T, lo: nat, hi: nat, x: nat, y: nat, n: nat, f: int)
    requires Zone(cmp, s, p, lo, hi, f) && hi <= |s| && BlocksSwapped(s, t, x, y, n) && (hi <= x || y + n <= lo)
    ensures Zone(cmp, t, p, lo, hi, f)
  {
  }

  /** Smaller, equal and greater elements than `p`, the equal ones not empty. */
  ghost predicate Partitioned<T>(cmp: Compare<T>, s: seq<T>, p: T, b: nat, l: nat, g: nat, e: nat) {
    && b <= l < g <= e <= |s|
    && Zone(cmp, s, p, b, l, 1) && Zone(cmp, s, p, l, g, 0) && Zone(cmp, s, p, g, e, -1)
  }

  function Smaller(x: int, y: int): int {
    if x > y then y else x
  }

  /** Moves a median of three to the start. */
  method ChoosePivot<T(!new)>(cmp: Compare<T>, a: array<T>, b: nat, e: nat)
    requires Preorder(cmp) && b < e <= a.Length
    modifies a
    ensures Rearranged(old(a[..]), a[..], b, e)
  {
    hide Rearranged, Swapped, Preorder;
    var m4 := (e - b) / 4;
    var m := Med3(cmp, a, b + m4, b + 2 * m4, b + 3 * m4);
    RearrangedSelf(a[..], b, e);
    RearrangedSwap(a[..], a[..], b, e, b, m);
    Swap(a, b, m);
  }

  /** Exchanges the equal elements at the left border with the smaller ones. */
  method MoveLeft<T>(cmp: Compare<T>, a: array<T>, b: nat, lt: nat, i: nat, gt: nat, e: nat, ghost p: T) returns (l: nat)
    requires e <= a.Length && Zones(cmp, a[..], p, b, lt, i, i, gt, e)
    modifies a
    ensures b <= l < i && Rearranged(old(a[..]), a[..], b, e)
    ensures Zone(cmp, a[..], p, b, l, 1) && Zone(cmp, a[..], p, l, i, 0)
    ensures Zone(cmp, a[..], p, i, gt, -1) && Zone(cmp, a[..], p, gt, e, 0)
  {
    hide Rearranged, Zone, BlocksSwapped;
    ghost var s := a[..];
    var span := Smaller(lt - b, i - lt);
    SwapBlock(a, b, i - span, span, b, e);
    ExchangeZones(cmp, s, a[..], p, b, lt, i, span, 0, 1);
    ZoneKept(cmp, s, a[..], p, i, gt, b, i - span, span, -1);
    ZoneKept(cmp, s, a[..], p, gt, e, b, i - span, span, 0);
    l := b + (i - lt);
  }

  /** Exchanges the greater elements with the equal ones at the right border. */
  method MoveRight<T>(cmp: Compare<T>, a: array<T>, b: nat, l: nat, i: nat, gt: nat, e: nat, ghost p: T) returns (g: nat)
    requires b <= l < i <= gt <= e <= a.Length && Zone(cmp, a[..], p, b, l, 1) && Zone(cmp, a[..], p, l, i, 0)
    requires Zone(cmp, a[..], p, i, gt, -1) && Zone(cmp, a[..], p, gt, e, 0)
    modifies a
    ensures Partitioned(cmp, a[..], p, b, l, g, e) && Rearranged(old(a[..]), a[..], b, e)
  {
    hide Rearranged, Zone, BlocksSwapped;
    ghost var s := a[..];
    var span := Smaller(e - gt, gt - i);
    SwapBlock(a, i, e - span, span, b, e);
    ExchangeZones(cmp, s, a[..], p, i, gt, e, span, -1, 0);
    ZoneKept(cmp, s, a[..], p, b, l, i, e - span, span, 1);
    ZoneKept(cmp, s, a[..], p, l, i, i, e - span, span, 0);
    g := e - (gt - i);
    JoinZones(cmp, a[..], p, l, i, g);
  }

  method Partition<T(!new)>(cmp: Compare<T>, a: array<T>, b: nat, e: nat) returns (l: nat, g: nat, ghost p: T)
    requires Preorder(cmp) && b < e <= a.Length
    modifies a
    ensures Partitioned(cmp, a[..], p, b, l, g, e) && Rearranged(old(a[..]), a[..], b, e)
  {
    hide Preorder, Rearranged, Zone, Zones, Partitioned;
    ghost var s0 := a[..];
    ChoosePivot(cmp, a, b, e);
    ghost var s1 := a[..];
    var lt, i, gt := Gather(cmp, a, b, e);
    p := a[b];
    ghost var s2 := a[..];
    RearrangedTrans(s0, s1, s2, b, e, b, e);
    l := MoveLeft(cmp, a, b, lt, i, gt, e, p);
    ghost var s3 := a[..];
    RearrangedTrans(s0, s2, s3, b, e, b, e);
    g := MoveRight(cmp, a, b, l, i, gt, e, p);
    RearrangedTrans(s0, s3, a[..], b, e, b, e);
  }

  lemma JoinZones<T>(cmp: Compare<T>, s: seq<T>, p: T, lo: nat, mid: nat, hi: nat)
    requires lo <= mid <= hi <= |s| && Zone(cmp, s, p, lo, mid, 0) && Zone(cmp, s, p, mid, hi, 0)
    ensures Zone(cmp, s, p, lo, hi, 0)
  {
  }

  // ----- Insertion sort -----

  /** Sorted up to `i` except that the element at `j` may belong further left. */
  ghost predicate Inserting<T>(cmp: Compare<T>, s: seq<T>, b: nat, j: nat, i: nat) {
    b <= j <= i < |s| &&
    forall x, y :: b <= x < y <= i && y != j ==> cmp(s[x], s[y]) <= 0
  }

  lemma InsertStep<T(!new)>(cmp: Compare<T>, s: seq<T>, b: nat, j: nat, i: nat)
    requires Preorder(cmp) && Inserting(cmp, s, b, j, i) && b < j && cmp(s[j - 1], s[j]) > 0
    ensures Inserting(cmp, Swapped(s, j, j - 1), b, j - 1, i)
  {
    hide Preorder;
    Flip(cmp, s[j - 1], s[j]);
    var t := Swapped(s, j, j - 1);
    forall x, y | b <= x < y <= i && y != j - 1 ensures cmp(t[x], t[y]) <= 0 {
      if y == j {
        assert x == j - 1 || cmp(s[x], s[j - 1]) <= 0;
      }
    }
  }

  lemma InsertDone<T(!new)>(cmp: Compare<T>, s: seq<T>, b: nat, j: nat, i: nat)
    requires Preorder(cmp) && Inserting(cmp, s, b, j, i) && (b < j ==> cmp(s[j - 1], s[j]) <= 0)
    ensures SortedBetween(cmp, s, b, i + 1)
  {
    hide Preorder;
    forall x, y | b <= x < y < i + 1 ensures cmp(s[x], s[y]) <= 0 {
      if y == j && x < j - 1 {
        Trans(cmp, s[x], s[j - 1], s[j]);
      }
    }
  }

  method InsertionSort<T(!new)>(cmp: Compare<T>, a: array<T>, b: nat, e: nat)
    requires Preorder(cmp) && b <= e <= a.Length
    modifies a
    ensures SortedBetween(cmp, a[..], b, e) && Rearranged(old(a[..]), a[..], b, e)
  {
    hide Preorder, Rearranged, Swapped, Inserting, SortedBetween;
    RearrangedSelf(a[..], b, e);
    var i := b + 1;
    FewSorted(cmp, a[..], b);
    while i < e
      invariant b < i && (i <= e || b == e) && SortedBetween(cmp, a[..], b, if i <= e then i else e)
      invariant Rearranged(old(a[..]), a[..], b, e)
    {
      var j := i;
      InsertStart(cmp, a[..], b, i);
      while j > b && cmp(a[j - 1], a[j]) > 0
        invariant b <= j <= i && Inserting(cmp, a[..], b, j, i) && Rearranged(old(a[..]), a[..], b, e)
      {
        InsertStep(cmp, a[..], b, j, i);
        RearrangedSwap(old(a[..]), a[..], b, e, j, j - 1);
        Swap(a, j, j - 1);
        j := j - 1;
      }
      InsertDone(cmp, a[..], b, j, i);
      i := i + 1;
    }
  }

  lemma FewSorted<T>(cmp: Compare<T>, s: seq<T>, b: nat)
    ensures SortedBetween(cmp, s, b, b) && SortedBetween(cmp, s, b, b + 1)
  {
  }

  lemma InsertStart<T>(cmp: Compare<T>, s: seq<T>, b: nat, i: nat)
    requires b < i < |s| && SortedBetween(cmp, s, b, i)
    ensures Inserting(cmp, s, b, i, i)
  {
  }

  // ----- Pending segments -----

  datatype Segment = Segment(base: nat, count: nat, depth: int)

  predicate Holds(g: Segment, i: int) {
    g.base <= i < g.base + g.count
  }

  /** Both positions are in one pending segment. */
  predicate Together(segs: seq<Segment>, i: int, j: int) {
    exists k :: 0 <= k < |segs| && Holds(segs[k], i) && Holds(segs[k], j)
  }

  ghost predicate Apart(segs: seq<Segment>, len: nat) {
    && (forall k :: 0 <= k < |segs| ==> segs[k].base + segs[k].count <= len)
    && (forall k, l, i :: 0 <= k < l < |segs| && Holds(segs[k], i) ==> !Holds(segs[l], i))
  }

  /** Everything is in order except inside pending segments. */
  ghost predicate SortedExcept<T>(cmp: Compare<T>, s: seq<T>, segs: seq<Segment>) {
    forall i, j :: 0 <= i < j < |s| ==> cmp(s[i], s[j]) <= 0 || Together(segs, i, j)
  }

  lemma TogetherSnoc(segs: seq<Segment>, g: Segment, i: int, j: int)
    ensures Together(segs + [g], i, j) <==> Together(segs, i, j) || (Holds(g, i) && Holds(g, j))
  {
    var all := segs + [g];
    if Together(segs, i, j) {
      var k :| 0 <= k < |segs| && Holds(segs[k], i) && Holds(segs[k], j);
      assert all[k] == segs[k];
    }
    if Holds(g, i) && Holds(g, j) { assert all[|segs|] == g; }
  }

  /** One position inside the last segment, one outside: they are in order. */
  lemma AcrossBorder<T>(cmp: Compare<T>, s: seq<T>, segs: seq<Segment>, g: Segment, i: nat, j: nat)
    requires Apart(segs + [g], |s|) && SortedExcept(cmp, s, segs + [g]) && i < j < |s| && Holds(g, i) != Holds(g, j)
    ensures cmp(s[i], s[j]) <= 0
  {
    TogetherSnoc(segs, g, i, j);
    assert (segs + [g])[|segs|] == g;
    forall k | 0 <= k < |segs| ensures !(Holds(segs[k], i) && Holds(segs[k], j)) {
      assert (segs + [g])[k] == segs[k];
    }
  }

  /** Rearranging the last segment keeps the order around it. */
  lemma AroundSegment<T>(cmp: Compare<T>, s: seq<T>, t: seq<T>, segs: seq<Segment>, g: Segment, i: nat, j: nat)
    requires Apart(segs + [g], |s|) && SortedExcept(cmp, s, segs + [g]) && i < j < |s| && !(Holds(g, i) && Holds(g, j))
    requires Rearranged(s, t, g.base, g.base + g.count)
    ensures cmp(t[i], t[j]) <= 0 || Together(segs, i, j)
  {
    hide Rearranged, SortedExcept, Apart, Together;
    RearrangedParts(s, t, g.base, g.base + g.count);
    if Holds(g, i) {
      var k := CameFrom(s, t, g.base, g.base + g.count, i);
      AcrossBorder(cmp, s, segs, g, k, j);
    } else if Holds(g, j) {
      var k := CameFrom(s, t, g.base, g.base + g.count, j);
      AcrossBorder(cmp, s, segs, g, i, k);
    } else {
      InOrder(cmp, s, segs + [g], i, j);
      TogetherSnoc(segs, g, i, j);
    }
  }

  lemma RearrangedParts<T>(s: seq<T>, t: seq<T>, lo: nat, hi: nat)
    requires Rearranged(s, t, lo, hi)
    ensures |s| == |t| && lo <= hi <= |s| && forall k :: 0 <= k < |s| && !(lo <= k < hi) ==> s[k] == t[k]
  {
  }

  lemma InOrder<T>(cmp: Compare<T>, s: seq<T>, segs: seq<Segment>, i: nat, j: nat)
    requires SortedExcept(cmp, s, segs) && i < j < |s|
    ensures cmp(s[i], s[j]) <= 0 || Together(segs, i, j)
  {
  }

  /** A segment that has been sorted is no longer pending. */
  lemma SegmentSorted<T>(cmp: Compare<T>, s: seq<T>, t: seq<T>, segs: seq<Segment>, g: Segment)
    requires Apart(segs + [g], |s|) && SortedExcept(cmp, s, segs + [g])
    requires Rearranged(s, t, g.base, g.base + g.count) && SortedBetween(cmp, t, g.base, g.base + g.count)
    ensures SortedExcept(cmp, t, segs)
  {
    hide Rearranged, Apart, Together;
    RearrangedParts(s, t, g.base, g.base + g.count);
    forall i, j | 0 <= i < j < |t| ensures cmp(t[i], t[j]) <= 0 || Together(segs, i, j) {
      if !(Holds(g, i) && Holds(g, j)) { AroundSegment(cmp, s, t, segs, g, i, j); }
    }
  }

  lemma Across<T(!new)>(cmp: Compare<T>, s: seq<T>, p: T, b: nat, l: nat, g: nat, e: nat, i: nat, j: nat)
    requires Preorder(cmp) && Partitioned(cmp, s, p, b, l, g, e) && b <= i < j < e
    requires !(i < l && j < l) && !(g <= i && g <= j)
    ensures cmp(s[i], s[j]) <= 0
  {
    hide Preorder;
    assert Sign(cmp(p, s[i])) == (if i < l then 1 else if i < g then 0 else -1);
    assert Sign(cmp(p, s[j])) == (if j < l then 1 else if j < g then 0 else -1);
    Flip(cmp, p, s[i]);
    Flip(cmp, p, s[j]);
    Trans(cmp, s[i], p, s[j]);
  }

  /** A partitioned segment leaves two smaller ones pending. */
  lemma SegmentSplit<T(!new)>(cmp: Compare<T>, s: seq<T>, t: seq<T>, segs: seq<Segment>, g: Segment, p: T, x: Segment, y: Segment)
    requires Preorder(cmp) && Apart(segs + [g], |s|) && SortedExcept(cmp, s, segs + [g])
    requires Rearranged(s, t, g.base, g.base + g.count) && x.base == g.base && x.base + x.count < y.base
    requires y.base + y.count == g.base + g.count
    requires Partitioned(cmp, t, p, g.base, x.base + x.count, y.base, g.base + g.count)
    ensures SortedExcept(cmp, t, segs + [x] + [y]) && SortedExcept(cmp, t, segs + [y] + [x])
  {
    hide Rearranged, Apart, Together, Preorder, Partitioned;
    RearrangedParts(s, t, g.base, g.base + g.count);
    forall i, j | 0 <= i < j < |t|
      ensures cmp(t[i], t[j]) <= 0 || Together(segs + [x] + [y], i, j)
      ensures cmp(t[i], t[j]) <= 0 || Together(segs + [y] + [x], i, j) {
      TogetherSnoc(segs, x, i, j);
      TogetherSnoc(segs + [x], y, i, j);
      TogetherSnoc(segs, y, i, j);
      TogetherSnoc(segs + [y], x, i, j);
      if !(Holds(g, i) && Holds(g, j)) {
        AroundSegment(cmp, s, t, segs, g, i, j);
      } else if !(Holds(x, i) && Holds(x, j)) && !(Holds(y, i) && Holds(y, j)) {
        Across(cmp, t, p, g.base, x.base + x.count, y.base, g.base + g.count, i, j);
      }
    }
  }

  lemma ApartPieces(segs: seq<Segment>, g: Segment, x: Segment, y: Segment, len: nat)
    requires Apart(segs + [g], len) && g.base <= x.base && x.base + x.count <= g.base + g.count
    requires g.base <= y.base && y.base + y.count <= g.base + g.count
    requires x.base + x.count <= y.base || y.base + y.count <= x.base
    ensures Apart(segs + [x] + [y], len)
  {
    var all, news := segs + [g], segs + [x] + [y];
    assert all[|segs|] == g;
    forall k | 0 <= k < |segs| ensures all[k] == segs[k] == news[k] {}
    forall k, l, i | 0 <= k < l < |news| && Holds(news[k], i) ensures !Holds(news[l], i) {
      assert l >= |segs| && Holds(news[l], i) ==> Holds(g, i);
    }
  }

  // ----- The sort -----

  const STACK_ENTRIES: nat := 50

  /** Pending depths strictly increase within 1..50, so entry k has depth at least k + 1. */
  predicate Depths(segs: seq<Segment>) {
    && (forall k :: 0 <= k < |segs| ==> k + 1 <= segs[k].depth <= STACK_ENTRIES)
    && (forall k, l :: 0 <= k < l < |segs| ==> segs[k].depth < segs[l].depth)
  }

  predicate Shallower(segs: seq<Segment>, depth: int) {
    forall k :: 0 <= k < |segs| ==> segs[k].depth <= depth
  }

  lemma DepthsSnoc(segs: seq<Segment>, g: Segment)
    requires Depths(segs) && Shallower(segs, g.depth - 1) && 1 <= g.depth <= STACK_ENTRIES
    ensures |segs| < STACK_ENTRIES && Depths(segs + [g]) && Shallower(segs + [g], g.depth)
  {
    if segs != [] { assert segs[|segs| - 1].depth >= |segs|; }
  }

  /** Bounds the work left: splitting a segment makes it smaller. */
  function Weight(segs: seq<Segment>): nat {
    if segs == [] then 0 else Weight(segs[..|segs| - 1]) + 2 * segs[|segs| - 1].count + 1
  }

  lemma WeightSnoc(segs: seq<Segment>, g: Segment)
    ensures Weight(segs + [g]) == Weight(segs) + 2 * g.count + 1
  {
    assert (segs + [g])[..|segs|] == segs;
  }

  /** The pending segments, the current one last, cover all disorder in `s`, which is a
      permutation of `s0`. */
  ghost predicate Pending<T>(cmp: Compare<T>, s0: seq<T>, s: seq<T>, segs: seq<Segment>) {
    Apart(segs, |s|) && SortedExcept(cmp, s, segs) && Rearranged(s0, s, 0, |s|)
  }

  lemma AfterSort<T>(cmp: Compare<T>, s0: seq<T>, s: seq<T>, t: seq<T>, segs: seq<Segment>, g: Segment, rest: Segment)
    requires Pending(cmp, s0, s, segs + [g]) && Rearranged(s, t, g.base, g.base + g.count)
    requires SortedBetween(cmp, t, g.base, g.base + g.count) && rest.base == g.base && rest.count == 0
    ensures Pending(cmp, s0, t, segs) && Pending(cmp, s0, t, segs + [rest])
  {
    hide Rearranged, SortedExcept, Apart, SortedBetween;
    SegmentSorted(cmp, s, t, segs, g);
    RearrangedParts(s, t, g.base, g.base + g.count);
    RearrangedTrans(s0, s, t, 0, |s|, g.base, g.base + g.count);
    DropEmpty(cmp, t, segs, g, rest);
  }

  lemma DropEmpty<T>(cmp: Compare<T>, t: seq<T>, segs: seq<Segment>, g: Segment, rest: Segment)
    requires Apart(segs + [g], |t|) && SortedExcept(cmp, t, segs) && rest.base == g.base && rest.count == 0
    ensures Apart(segs, |t|) && Apart(segs + [rest], |t|) && SortedExcept(cmp, t, segs + [rest])
  {
    var all, news := segs + [g], segs + [rest];
    assert all[|segs|] == g;
    forall k | 0 <= k < |segs| ensures all[k] == segs[k] == news[k] {}
    forall i, j | 0 <= i < j < |t| ensures cmp(t[i], t[j]) <= 0 || Together(news, i, j) {
      TogetherSnoc(segs, rest, i, j);
    }
  }

  lemma AfterPartition<T(!new)>(cmp: Compare<T>, s0: seq<T>, s: seq<T>, t: seq<T>, segs: seq<Segment>, g: Segment, p: T, x: Segment, y: Segment)
    requires Preorder(cmp) && Pending(cmp, s0, s, segs + [g]) && Rearranged(s, t, g.base, g.base + g.count)
    requires x.base == g.base && x.base + x.count < y.base && y.base + y.count == g.base + g.count
    requires Partitioned(cmp, t, p, g.base, x.base + x.count, y.base, g.base + g.count)
    ensures Pending(cmp, s0, t, segs + [x] + [y]) && Pending(cmp, s0, t, segs + [y] + [x])
  {
    hide Rearranged, SortedExcept, Apart, Partitioned, Preorder;
    SegmentSplit(cmp, s, t, segs, g, p, x, y);
    RearrangedParts(s, t, g.base, g.base + g.count);
    RearrangedTrans(s0, s, t, 0, |s|, g.base, g.base + g.count);
    ApartPieces(segs, g, x, y, |s|);
    ApartPieces(segs, g, y, x, |s|);
  }

  lemma LastInside<T>(cmp: Compare<T>, s0: seq<T>, s: seq<T>, segs: seq<Segment>, g: Segment)
    requires Pending(cmp, s0, s, segs + [g])
    ensures g.base + g.count <= |s|
  {
    assert (segs + [g])[|segs|] == g;
  }

  /** Partitions the segment until at most 6 elements are left, pushing the larger parts. */
  method Descend<T(!new)>(cmp: Compare<T>, a: array<T>, stack: array<Segment>, sp0: nat, g0: Segment, ghost s0: seq<T>)
    returns (sp: nat, g: Segment)
    requires Preorder(cmp) && a as object != stack as object && stack.Length == STACK_ENTRIES && sp0 <= STACK_ENTRIES
    requires Depths(stack[..sp0]) && Shallower(stack[..sp0], g0.depth) && g0.depth >= 0
    requires Pending(cmp, s0, a[..], stack[..sp0] + [g0])
    modifies a, stack
    ensures sp <= STACK_ENTRIES && Depths(stack[..sp]) && Shallower(stack[..sp], g.depth)
    ensures Pending(cmp, s0, a[..], stack[..sp] + [g]) && g.count <= 6
    ensures Weight(stack[..sp] + [g]) <= Weight(old(stack[..sp0]) + [g0])
  {
    hide Preorder, Pending, Weight, Partitioned, SortedBetween, Rearranged, Depths, Shallower;
    sp, g := sp0, g0;
    while g.count > 6
      invariant sp <= STACK_ENTRIES && Depths(stack[..sp]) && Shallower(stack[..sp], g.depth) && g.depth >= 0
      invariant Pending(cmp, s0, a[..], stack[..sp] + [g])
      invariant Weight(stack[..sp] + [g]) <= Weight(old(stack[..sp0]) + [g0])
      decreases g.count
    {
      ghost var s, segs := a[..], stack[..sp];
      LastInside(cmp, s0, s, segs, g);
      WeightSnoc(segs, g);
      if g.depth + 1 > 50 {
        HeapSort(cmp, a, g.base, g.count);
        AfterSort(cmp, s0, s, a[..], segs, g, g.(count := 0));
        WeightSnoc(segs, g.(count := 0));
        g := g.(count := 0);
        break;
      }
      var l, h;
      ghost var p;
      l, h, p := Partition(cmp, a, g.base, g.base + g.count);
      SidesOf(cmp, a[..], p, g.base, l, h, g.base + g.count);
      var x := Segment(g.base, l - g.base, g.depth + 1);
      var y := Segment(h, g.base + g.count - h, g.depth + 1);
      AfterPartition(cmp, s0, s, a[..], segs, g, p, x, y);
      Deeper(segs, g.depth);
      if x.count > y.count {
        sp, g := PushSegment(stack, sp, x, y);
      } else {
        sp, g := PushSegment(stack, sp, y, x);
      }
    }
  }

  lemma SidesOf<T>(cmp: Compare<T>, s: seq<T>, p: T, b: nat, l: nat, g: nat, e: nat)
    requires Partitioned(cmp, s, p, b, l, g, e)
    ensures b <= l < g <= e
  {
  }

  lemma Deeper(segs: seq<Segment>, depth: int)
    requires Shallower(segs, depth)
    ensures Shallower(segs, (depth + 1) - 1)
  {
  }

  /** Stacks the segment `x` and continues with `y`. */
  method PushSegment(stack: array<Segment>, sp: nat, x: Segment, y: Segment) returns (sp': nat, g: Segment)
    requires stack.Length == STACK_ENTRIES && sp <= STACK_ENTRIES && Depths(stack[..sp])
    requires Shallower(stack[..sp], x.depth - 1) && 1 <= x.depth <= STACK_ENTRIES
    modifies stack
    ensures sp' == sp + 1 <= STACK_ENTRIES && g == y && stack[..sp'] == old(stack[..sp]) + [x]
    ensures Depths(stack[..sp']) && Shallower(stack[..sp'], x.depth)
    ensures Weight(stack[..sp'] + [g]) == Weight(old(stack[..sp])) + 2 * x.count + 1 + 2 * y.count + 1
  {
    hide Depths, Shallower, Weight;
    DepthsSnoc(stack[..sp], x);
    WeightSnoc(stack[..sp], x);
    WeightSnoc(stack[..sp] + [x], y);
    stack[sp] := x;
    sp' := sp + 1;
    g := y;
    assert stack[..sp'] == old(stack[..sp]) + [x];
  }

  /** Sorts the array: a sorted permutation, for every total preorder. */
  method Sort<T(!new)>(cmp: Compare<T>, a: array<T>)
    requires Preorder(cmp)
    modifies a
    ensures SortedBetween(cmp, a[..], 0, a.Length) && multiset(a[..]) == multiset(old(a[..]))
  {
    hide Preorder, Pending, Weight, SortedBetween, Rearranged, Depths, Shallower;
    if a.Length < 2 {
      AtMostOne(cmp, a[..]);
      return;
    }
    var stack := new Segment[STACK_ENTRIES](_ => Segment(0, 0, 0));
    ghost var s0 := a[..];
    stack[0] := Segment(0, a.Length, 0);
    var sp := 1;
    AllPending(cmp, a[..]);
    assert stack[..1] == [Segment(0, a.Length, 0)];
    while sp > 0
      invariant 0 <= sp <= STACK_ENTRIES && Pending(cmp, s0, a[..], stack[..sp])
      invariant stack[..sp] == [Segment(0, a.Length, 0)] || Depths(stack[..sp])
      decreases Weight(stack[..sp])
    {
      ghost var was := stack[..sp];
      sp := sp - 1;
      var g0 := stack[sp];
      assert was == stack[..sp] + [g0];
      PopDepths(stack[..sp], g0);
      var g;
      sp, g := Descend(cmp, a, stack, sp, g0, s0);
      ghost var s, segs := a[..], stack[..sp];
      LastInside(cmp, s0, s, segs, g);
      InsertionSort(cmp, a, g.base, g.base + g.count);
      AfterSort(cmp, s0, s, a[..], segs, g, g.(count := 0));
      WeightSnoc(segs, g);
    }
    assert stack[..0] == [];
    NonePending(cmp, s0, a[..]);
  }

  lemma AtMostOne<T>(cmp: Compare<T>, s: seq<T>)
    requires |s| < 2
    ensures SortedBetween(cmp, s, 0, |s|)
  {
  }

  lemma AllPending<T>(cmp: Compare<T>, s: seq<T>)
    ensures Pending(cmp, s, s, [Segment(0, |s|, 0)])
  {
    var segs := [Segment(0, |s|, 0)];
    forall i, j | 0 <= i < j < |s| ensures Together(segs, i, j) {
      assert Holds(segs[0], i) && Holds(segs[0], j);
    }
  }

  lemma NonePending<T>(cmp: Compare<T>, s0: seq<T>, s: seq<T>)
    requires Pending(cmp, s0, s, [])
    ensures SortedBetween(cmp, s, 0, |s|) && multiset(s) == multiset(s0)
  {
    forall i, j | 0 <= i < j < |s| ensures cmp(s[i], s[j]) <= 0 {
      assert !Together([], i, j);
    }
  }

  lemma PopDepths(segs: seq<Segment>, g: Segment)
    requires segs + [g] == [Segment(0, g.count, 0)] || Depths(segs + [g])
    ensures Depths(segs) && Shallower(segs, g.depth) && g.depth >= 0
  {
    var all := segs + [g];
    assert all[|segs|] == g;
    forall k | 0 <= k < |segs| ensures all[k] == segs[k] {}
  }
}
