/** Set algebra on interval lists: a merge by parity and a compression in place. */
module CharRanges {
  import opened Basics
  import opened Intervals

  /** Even-length point lists in non-decreasing order: a `CharRange` before compression. */
  predicate Sorted(p: seq<int>) {
    |p| % 2 == 0 && Ordered(p)
  }

  predicate Ordered(p: seq<int>) {
    forall i, j :: 0 <= i <= j < |p| ==> p[i] <= p[j]
  }

  /** All points are 32-bit values. */
  predicate Words(p: seq<int>) {
    forall i :: 0 <= i < |p| ==> 0 <= p[i] <= UINT32_MAX
  }

  ghost predicate SameSet(p: seq<int>, q: seq<int>) {
    forall c :: InIntervals(p, c) <==> InIntervals(q, c)
  }

  // ----- Membership -----

  lemma InPair(a: int, b: int, c: int)
    ensures InIntervals([a, b], c) <==> a <= c < b
  {
    if a <= c < b { assert InInterval([a, b], 0, c); }
  }

  lemma InSplit(p: seq<int>, e: nat, c: int)
    requires e <= |p| && e % 2 == 0
    ensures InIntervals(p, c) <==> InIntervals(p[..e], c) || InIntervals(p[e..], c)
  {
    if InIntervals(p, c) {
      var k: nat :| k < |p| && InInterval(p, k, c);
      if 2 * k < e { assert InInterval(p[..e], k, c); } else { assert InInterval(p[e..], k - e / 2, c); }
    }
    if InIntervals(p[..e], c) {
      var k: nat :| k < e && InInterval(p[..e], k, c);
      assert InInterval(p, k, c);
    }
    if InIntervals(p[e..], c) {
      var k: nat :| k < |p| - e && InInterval(p[e..], k, c);
      assert InInterval(p, k + e / 2, c);
    }
  }

  /** How many points are at or below `c`. */
  function CountUpTo(p: seq<int>, c: int): nat {
    if p == [] then 0 else CountUpTo(p[..|p| - 1], c) + if p[|p| - 1] <= c then 1 else 0
  }

  lemma {:induction false} CountAll(p: seq<int>, c: int)
    requires forall i :: 0 <= i < |p| ==> p[i] <= c
    ensures CountUpTo(p, c) == |p|
  {
    if p != [] { CountAll(p[..|p| - 1], c); }
  }

  lemma CountSnoc(p: seq<int>, v: int, c: int)
    ensures CountUpTo(p + [v], c) == CountUpTo(p, c) + if v <= c then 1 else 0
  {
    assert (p + [v])[..|p|] == p;
  }

  /** A point is in the set when an odd number of end points is at or below it. */
  lemma {:induction false} OddCount(p: seq<int>, c: int)
    requires Sorted(p)
    ensures InIntervals(p, c) <==> CountUpTo(p, c) % 2 == 1
    decreases |p|
  {
    if p != [] {
      var n := |p|;
      OddCount(p[..n - 2], c);
      LastInterval(p, c);
    }
  }

  lemma LastInterval(p: seq<int>, c: int)
    requires Sorted(p) && p != []
    ensures var q, a, b := p[..|p| - 2], p[|p| - 2], p[|p| - 1];
            && (InIntervals(p, c) <==> InIntervals(q, c) || a <= c < b)
            && CountUpTo(p, c) == CountUpTo(q, c) + (if a <= c then 1 else 0) + (if b <= c then 1 else 0)
            && (a <= c ==> CountUpTo(q, c) == |q|) && |q| % 2 == 0 && a <= b
  {
    hide CountUpTo, InIntervals;
    var n := |p|;
    var q, a, b := p[..n - 2], p[n - 2], p[n - 1];
    InSplit(p, n - 2, c);
    assert p[n - 2..] == [a, b];
    InPair(a, b, c);
    assert p == (q + [a]) + [b];
    CountSnoc(q + [a], b, c);
    CountSnoc(q, a, c);
    if a <= c {
      CountAll(q, c);
    }
  }

  // ----- Compression -----

  /** `p` is the union of the intervals already written and those still to read. */
  ghost predicate SplitInto(p: seq<int>, done: seq<int>, rest: seq<int>) {
    forall c :: InIntervals(p, c) <==> InIntervals(done, c) || InIntervals(rest, c)
  }

  lemma MergedStep(p: seq<int>, i: nat, j: nat)
    requires Sorted(p) && i % 2 == 0 && j % 2 == 0 && i <= j && j + 3 < |p| && p[j + 1] == p[j + 2]
    requires SameSet(p[i..j + 2], [p[i], p[j + 1]])
    ensures SameSet(p[i..j + 4], [p[i], p[j + 3]])
  {
    var q := p[i..j + 4];
    forall c ensures InIntervals(q, c) <==> InIntervals([p[i], p[j + 3]], c) {
      InSplit(q, j + 2 - i, c);
      assert q[..j + 2 - i] == p[i..j + 2] && q[j + 2 - i..] == [p[j + 2], p[j + 3]];
      InPair(p[i], p[j + 1], c);
      InPair(p[j + 2], p[j + 3], c);
      InPair(p[i], p[j + 3], c);
      assert p[i] <= p[j + 2] <= p[j + 3];
    }
  }

  lemma SkipEmpty(p: seq<int>, i: nat, done: seq<int>)
    requires i + 1 < |p| && p[i] == p[i + 1] && SplitInto(p, done, p[i..])
    ensures SplitInto(p, done, p[i + 2..])
  {
    forall c ensures InIntervals(p[i..], c) <==> InIntervals(p[i + 2..], c) {
      InSplit(p[i..], 2, c);
      assert p[i..][..2] == [p[i], p[i + 1]] && p[i..][2..] == p[i + 2..];
      InPair(p[i], p[i + 1], c);
    }
  }

  /** From offset `i` on nothing has been overwritten yet. */
  ghost predicate TailKept(q: seq<int>, p: seq<int>, i: nat) {
    |q| == |p| && forall n :: i <= n < |p| ==> q[n] == p[n]
  }

  /** The first `k` points are the compressed form of the first `i`. */
  ghost predicate Compressing(q: seq<int>, p: seq<int>, i: nat, k: nat) {
    && k <= i <= |p| == |q| && i % 2 == 0 && k % 2 == 0
    && Compressed(q[..k]) && SplitInto(p, q[..k], p[i..])
    && (k > 0 && i < |p| ==> q[k - 1] < p[i])
  }

  lemma NothingCompressed(p: seq<int>)
    ensures Compressing(p, p, 0, 0)
  {
    assert p[0..] == p;
  }

  lemma SkipStep(q: seq<int>, p: seq<int>, i: nat, k: nat)
    requires Sorted(p) && Compressing(q, p, i, k) && i + 1 < |p| && p[i] == p[i + 1]
    ensures Compressing(q, p, i + 2, k)
  {
    hide SplitInto, Compressed;
    SkipEmpty(p, i, q[..k]);
  }

  /** Copying the merged interval down keeps what is behind it. */
  lemma CopyStep(q: seq<int>, p: seq<int>, i: nat, j: nat, k: nat)
    requires Sorted(p) && Words(p) && Compressing(q, p, i, k) && TailKept(q, p, i)
    requires i <= j && j % 2 == 0 && j + 1 < |p| && p[i] < p[i + 1] && SameSet(p[i..j + 2], [p[i], p[j + 1]])
    requires j + 3 < |p| ==> p[j + 1] != p[j + 2]
    ensures var r := q[k := p[i]][k + 1 := p[j + 1]]; Compressing(r, p, j + 2, k + 2) && TailKept(r, p, j + 2)
  {
    hide SplitInto, SameSet;
    CopyMerged(p, i, j, q[..k]);
    var r := q[k := p[i]][k + 1 := p[j + 1]];
    assert r[..k + 2] == q[..k] + [p[i], p[j + 1]];
    assert p[i + 1] <= p[j + 1];
    AppendInterval(q[..k], p[i], p[j + 1]);
  }

  lemma AppendInterval(x: seq<int>, a: int, b: int)
    requires Compressed(x) && (x != [] ==> x[|x| - 1] < a) && 0 <= a < b <= UINT32_MAX
    ensures Compressed(x + [a, b])
  {
    assert forall n :: 0 <= n < |x| ==> x[n] <= x[|x| - 1];
  }

  lemma OneInterval(p: seq<int>, i: nat)
    requires i + 1 < |p|
    ensures SameSet(p[i..i + 2], [p[i], p[i + 1]])
  {
    assert p[i..i + 2] == [p[i], p[i + 1]];
  }

  lemma AllCompressed(q: seq<int>, p: seq<int>, i: nat, k: nat)
    requires |p| % 2 == 0 && Compressing(q, p, i, k) && i + 1 >= |p|
    ensures k <= |q| && Compressed(q[..k]) && SameSet(q[..k], p)
  {
  }

  lemma CopyMerged(p: seq<int>, i: nat, j: nat, done: seq<int>)
    requires i % 2 == 0 && j % 2 == 0 && i <= j && j + 1 < |p| && |done| % 2 == 0
    requires SameSet(p[i..j + 2], [p[i], p[j + 1]]) && SplitInto(p, done, p[i..])
    ensures SplitInto(p, done + [p[i], p[j + 1]], p[j + 2..])
  {
    var q := done + [p[i], p[j + 1]];
    forall c ensures InIntervals(p, c) <==> InIntervals(q, c) || InIntervals(p[j + 2..], c) {
      InSplit(p[i..], j + 2 - i, c);
      assert p[i..][..j + 2 - i] == p[i..j + 2] && p[i..][j + 2 - i..] == p[j + 2..];
      InSplit(q, |done|, c);
      assert q[..|done|] == done && q[|done|..] == [p[i], p[j + 1]];
    }
  }

  // ----- Canonical form -----

  /** The least member of a compressed set is its first point. */
  lemma FirstPoint(p: seq<int>, c: int)
    requires Compressed(p) && InIntervals(p, c)
    ensures |p| >= 2 && p[0] <= c && InIntervals(p, p[0])
  {
    var k: nat :| k < |p| && InInterval(p, k, c);
    assert InInterval(p, 0, p[0]);
  }

  /** The first point behind the first interval is not a member. */
  lemma FirstGap(p: seq<int>)
    requires Compressed(p) && |p| >= 2
    ensures !InIntervals(p, p[1]) && forall c :: p[0] <= c < p[1] ==> InIntervals(p, c)
  {
    forall k: nat | k < |p| ensures !InInterval(p, k, p[1]) {
      if k > 0 && 2 * k + 1 < |p| { assert p[1] < p[2 * k]; }
    }
    forall c | p[0] <= c < p[1] ensures InIntervals(p, c) { assert InInterval(p, 0, c); }
  }

  lemma BelowRest(p: seq<int>, c: int)
    requires Compressed(p) && |p| >= 2
    ensures InIntervals(p[2..], c) <==> InIntervals(p, c) && c >= p[1]
  {
    InSplit(p, 2, c);
    assert p[..2] == [p[0], p[1]];
    InPair(p[0], p[1], c);
    if InIntervals(p[2..], c) {
      FirstPoint(p[2..], c);
    }
  }

  /** Compressed lists are canonical: equal sets have equal lists. */
  lemma {:induction false} Canonical(p: seq<int>, q: seq<int>)
    requires Compressed(p) && Compressed(q) && SameSet(p, q)
    ensures p == q
    decreases |p| + |q|
  {
    if p == [] && q == [] {
    } else if p == [] {
      assert InIntervals(q, q[0]) by { assert InInterval(q, 0, q[0]); }
    } else if q == [] {
      assert InIntervals(p, p[0]) by { assert InInterval(p, 0, p[0]); }
    } else {
      assert InIntervals(p, p[0]) by { assert InInterval(p, 0, p[0]); }
      assert InIntervals(q, q[0]) by { assert InInterval(q, 0, q[0]); }
      FirstPoint(p, q[0]);
      FirstPoint(q, p[0]);
      FirstGap(p);
      FirstGap(q);
      assert p[0] == q[0] && p[1] == q[1];
      forall c ensures InIntervals(p[2..], c) <==> InIntervals(q[2..], c) {
        BelowRest(p, c);
        BelowRest(q, c);
      }
      Canonical(p[2..], q[2..]);
      assert p == p[..2] + p[2..] && q == q[..2] + q[2..];
    }
  }

  // ----- Merging -----

  datatype SetOp = Union | Inter | Xor

  predicate Combine(op: SetOp, x: bool, y: bool) {
    match op
    case Union => x || y
    case Inter => x && y
    case Xor => x != y
  }

  predicate Odd(n: int) {
    n % 2 == 1
  }

  predicate AllAtMost(p: seq<int>, v: int) {
    forall i :: 0 <= i < |p| ==> p[i] <= v
  }

  /** At every `c` the output has the parity the operation asks for. */
  ghost predicate ParityOk(op: SetOp, out: seq<int>, x: seq<int>, y: seq<int>) {
    forall c :: Odd(CountUpTo(out, c)) <==> Combine(op, Odd(CountUpTo(x, c)), Odd(CountUpTo(y, c)))
  }

  function Taken(p: seq<int>, take: bool, v: int): seq<int> {
    if take then p + [v] else p
  }

  lemma CountTaken(p: seq<int>, take: bool, v: int, c: int)
    ensures CountUpTo(Taken(p, take, v), c) == CountUpTo(p, c) + if take && v <= c then 1 else 0
  {
    CountSnoc(p, v, c);
  }

  /** Points are taken in increasing order, so from `v` on the parity is that of the lengths. */
  lemma MergeStep(op: SetOp, out: seq<int>, x: seq<int>, y: seq<int>, v: int, takeX: bool, takeY: bool, add: bool)
    requires AllAtMost(out, v) && AllAtMost(x, v) && AllAtMost(y, v) && ParityOk(op, out, x, y)
    requires Odd(|Taken(out, add, v)|) <==> Combine(op, Odd(|Taken(x, takeX, v)|), Odd(|Taken(y, takeY, v)|))
    ensures ParityOk(op, Taken(out, add, v), Taken(x, takeX, v), Taken(y, takeY, v))
  {
    hide CountUpTo, Combine;
    var out', x', y' := Taken(out, add, v), Taken(x, takeX, v), Taken(y, takeY, v);
    forall c ensures Odd(CountUpTo(out', c)) <==> Combine(op, Odd(CountUpTo(x', c)), Odd(CountUpTo(y', c))) {
      if v <= c {
        CountAll(out', c);
        CountAll(x', c);
        CountAll(y', c);
      } else {
        CountTaken(out, add, v, c);
        CountTaken(x, takeX, v, c);
        CountTaken(y, takeY, v, c);
      }
    }
  }

  lemma NothingMerged(op: SetOp, a: seq<int>, b: seq<int>)
    ensures Merging(op, [], a, 0, b, 0)
  {
  }

  /** The merge after `i` points of `a` and `j` points of `b`: nothing taken is above
      anything still to come. */
  ghost predicate Merging(op: SetOp, out: seq<int>, a: seq<int>, i: nat, b: seq<int>, j: nat) {
    && i <= |a| && j <= |b|
    && (Odd(|out|) <==> Combine(op, Odd(i), Odd(j)))
    && ParityOk(op, out, a[..i], b[..j])
    && Ordered(out) && Words(out)
    && (i < |a| ==> Below(out, a, i, b, j, a[i]))
    && (j < |b| ==> Below(out, a, i, b, j, b[j]))
  }

  predicate Below(out: seq<int>, a: seq<int>, i: nat, b: seq<int>, j: nat, v: int)
    requires i <= |a| && j <= |b|
  {
    AllAtMost(out, v) && AllAtMost(a[..i], v) && AllAtMost(b[..j], v)
  }

  lemma TakePoint(p: seq<int>, i: nat, take: bool, v: int, n: nat)
    requires Sorted(p) && i <= |p| && (take ==> i < |p| && p[i] == v) && n == (if take then i + 1 else i)
    ensures p[..n] == Taken(p[..i], take, v)
  {
  }

  lemma MergeAdvance(op: SetOp, out: seq<int>, a: seq<int>, i: nat, b: seq<int>, j: nat, v: int, takeA: bool, takeB: bool, i': nat, j': nat)
    requires Sorted(a) && Sorted(b) && Words(a) && Words(b) && Merging(op, out, a, i, b, j)
    requires takeA ==> i < |a| && v == a[i] && (j < |b| ==> a[i] <= b[j])
    requires takeB ==> j < |b| && v == b[j] && (i < |a| ==> b[j] <= a[i])
    requires (takeA || takeB) && i' == (if takeA then i + 1 else i) && j' == (if takeB then j + 1 else j)
    requires i < |a| && j < |b| && a[i] == b[j] ==> takeA && takeB
    ensures Merging(op, Taken(out, Combine(op, Odd(i'), Odd(j')) != Odd(|out|), v), a, i', b, j')
  {
    hide ParityOk, Combine, AllAtMost, Ordered, Words;
    TakePoint(a, i, takeA, v, i');
    TakePoint(b, j, takeB, v, j');
    var add := Combine(op, Odd(i'), Odd(j')) != Odd(|out|);
    assert Below(out, a, i, b, j, v);
    MergeStep(op, out, a[..i], b[..j], v, takeA, takeB, add);
    PointIsWord(a, i, takeA);
    PointIsWord(b, j, takeB);
    AppendTop(out, add, v);
    if i' < |a| {
      NextPoint(a, i, takeA, v);
      RaiseTop(out, add, v, a[i']);
      RaiseTop(a[..i], takeA, v, a[i']);
      RaiseTop(b[..j], takeB, v, a[i']);
    }
    if j' < |b| {
      NextPoint(b, j, takeB, v);
      RaiseTop(out, add, v, b[j']);
      RaiseTop(a[..i], takeA, v, b[j']);
      RaiseTop(b[..j], takeB, v, b[j']);
    }
  }

  lemma PointIsWord(p: seq<int>, i: nat, take: bool)
    requires Words(p) && (take ==> i < |p|)
    ensures take ==> 0 <= p[i] <= UINT32_MAX
  {
  }

  lemma AppendTop(p: seq<int>, take: bool, v: int)
    requires Ordered(p) && Words(p) && AllAtMost(p, v) && 0 <= v <= UINT32_MAX
    ensures Ordered(Taken(p, take, v)) && Words(Taken(p, take, v))
  {
  }

  lemma NextPoint(p: seq<int>, i: nat, take: bool, v: int)
    requires Sorted(p) && (take ==> i + 1 < |p| && p[i] == v)
    ensures take ==> v <= p[i + 1]
  {
  }

  lemma RaiseTop(p: seq<int>, take: bool, v: int, w: int)
    requires AllAtMost(p, v) && v <= w
    ensures AllAtMost(Taken(p, take, v), w)
  {
  }

  lemma MergedSet(op: SetOp, out: seq<int>, a: seq<int>, b: seq<int>, c: int)
    requires Sorted(out) && Sorted(a) && Sorted(b) && ParityOk(op, out, a, b)
    ensures InIntervals(out, c) <==> Combine(op, InIntervals(a, c), InIntervals(b, c))
  {
    OddCount(out, c);
    OddCount(a, c);
    OddCount(b, c);
  }

  /** `p` is the compressed list of the combined sets. */
  ghost predicate Combined(op: SetOp, a: seq<int>, b: seq<int>, p: seq<int>) {
    Compressed(p) && forall c :: InIntervals(p, c) <==> Combine(op, InIntervals(a, c), InIntervals(b, c))
  }

  ghost function Members(p: seq<int>): iset<int> {
    iset c | InIntervals(p, c)
  }

  /** The three operations as operations on sets. */
  lemma SetAlgebra(a: seq<int>, b: seq<int>, p: seq<int>)
    requires Compressed(p)
    ensures Combined(Union, a, b, p) <==> Members(p) == Members(a) + Members(b)
    ensures Combined(Inter, a, b, p) <==> Members(p) == Members(a) * Members(b)
    ensures Combined(Xor, a, b, p) <==> Members(p) == (Members(a) - Members(b)) + (Members(b) - Members(a))
  {
    hide InIntervals, Compressed;
    assert forall c :: c in Members(p) <==> InIntervals(p, c);
    assert forall c :: c in Members(a) <==> InIntervals(a, c);
    assert forall c :: c in Members(b) <==> InIntervals(b, c);
  }

  lemma MergeDone(op: SetOp, out: seq<int>, a: seq<int>, b: seq<int>)
    requires Sorted(a) && Sorted(b) && Merging(op, out, a, |a|, b, |b|)
    ensures Sorted(out) && Words(out)
    ensures forall c :: InIntervals(out, c) <==> Combine(op, InIntervals(a, c), InIntervals(b, c))
  {
    assert a[..|a|] == a && b[..|b|] == b;
    forall c ensures InIntervals(out, c) <==> Combine(op, InIntervals(a, c), InIntervals(b, c)) {
      MergedSet(op, out, a, b, c);
    }
  }

  lemma SameCombined(op: SetOp, a: seq<int>, b: seq<int>, p: seq<int>, q: seq<int>)
    requires forall c :: InIntervals(p, c) <==> Combine(op, InIntervals(a, c), InIntervals(b, c))
    requires Compressed(q) && SameSet(q, p)
    ensures Combined(op, a, b, q)
  {
  }

  /** `q` is the compressed complement of `p` below UINT32_MAX. */
  ghost predicate Inverse(p: seq<int>, q: seq<int>) {
    Compressed(q) && forall c :: InIntervals(q, c) <==> 0 <= c < UINT32_MAX && !InIntervals(p, c)
  }

  /** The result list of an operation depends only on the two sets. */
  lemma CombinedUnique(op: SetOp, a: seq<int>, b: seq<int>, a': seq<int>, b': seq<int>, p: seq<int>, q: seq<int>)
    requires SameSet(a, a') && SameSet(b, b') && Combined(op, a, b, p) && Combined(op, a', b', q)
    ensures p == q
  {
    Canonical(p, q);
  }

  lemma InsideWords(p: seq<int>, c: int)
    requires Words(p) && InIntervals(p, c)
    ensures 0 <= c < UINT32_MAX
  {
    var k: nat :| k < |p| && InInterval(p, k, c);
  }

  /** Inverting twice gives a compressed list back. */
  lemma InvertTwice(p: seq<int>, q: seq<int>, r: seq<int>)
    requires Compressed(p) && Inverse(p, q) && Inverse(q, r)
    ensures r == p
  {
    forall c ensures InIntervals(r, c) <==> InIntervals(p, c) {
      if InIntervals(p, c) { InsideWords(p, c); }
    }
    Canonical(r, p);
  }

  /** Complement exchanges union and intersection, list for list. */
  lemma DeMorgan(a: seq<int>, b: seq<int>, na: seq<int>, nb: seq<int>, u: seq<int>, nu: seq<int>, i: seq<int>)
    requires Inverse(a, na) && Inverse(b, nb) && Combined(Union, a, b, u) && Inverse(u, nu) && Combined(Inter, na, nb, i)
    ensures nu == i
  {
    Canonical(nu, i);
  }

  lemma InvertedSet(p: seq<int>, c: int)
    requires Sorted(p) && Words(p)
    ensures Sorted([0] + p + [UINT32_MAX]) && Words([0] + p + [UINT32_MAX])
    ensures InIntervals([0] + p + [UINT32_MAX], c) <==> 0 <= c < UINT32_MAX && !InIntervals(p, c)
  {
    var q := [0] + p + [UINT32_MAX];
    assert Sorted(q);
    OddCount(q, c);
    OddCount(p, c);
    CountSnoc([0] + p, UINT32_MAX, c);
    CountCons(0, p, c);
    if c < 0 || c >= UINT32_MAX {
      if InIntervals(q, c) { InsideWords(q, c); }
    }
  }

  lemma {:induction false} CountCons(v: int, p: seq<int>, c: int)
    ensures CountUpTo([v] + p, c) == CountUpTo(p, c) + if v <= c then 1 else 0
    decreases |p|
  {
    if p == [] {
      assert [v] + p == [] + [v];
      CountSnoc([], v, c);
    } else {
      var q := p[..|p| - 1];
      CountCons(v, q, c);
      assert [v] + p == ([v] + q) + [p[|p| - 1]];
      CountSnoc([v] + q, p[|p| - 1], c);
    }
  }

  class CharRange {
    var points: seq<int>

    constructor ()
      ensures points == []
    {
      points := [];
    }

    method AddPoint(v: int)
      modifies this
      ensures points == old(points) + [v]
    {
      points := points + [v];
    }

    /** Merges touching intervals and drops empty ones, in place. */
    method Compress()
      requires Sorted(points) && Words(points)
      modifies this
      ensures Compressed(points) && SameSet(points, old(points))
    {
      hide InIntervals, Compressed, Compressing, SameSet, Words;
      ghost var p := points;
      var len := |points|;
      var i, j, k := 0, 0, 0;
      NothingCompressed(p);
      while i + 1 < len
        invariant 0 <= k <= i <= len && i % 2 == 0 && TailKept(points, p, i) && Compressing(points, p, i, k)
      {
        if points[i] == points[i + 1] {
          SkipStep(points, p, i, k);
          i := i + 2;
        } else {
          j := i;
          OneInterval(p, i);
          while j + 3 < len && points[j + 1] == points[j + 2]
            invariant i <= j && j + 1 < len && j % 2 == 0
            invariant SameSet(p[i..j + 2], [p[i], p[j + 1]])
            decreases len - j
            modifies {}
          {
            MergedStep(p, i, j);
            j := j + 2;
          }
          CopyStep(points, p, i, j, k);
          points := points[k := points[i]];
          points := points[k + 1 := points[j + 1]];
          k := k + 2;
          i := j + 2;
        }
      }
      AllCompressed(points, p, i, k);
      points := points[..k];
    }

    /** Appends the points of the combination of `a` and `b`, then compresses. */
    method Op(a: seq<int>, b: seq<int>, op: SetOp)
      requires points == [] && Sorted(a) && Sorted(b) && Words(a) && Words(b)
      modifies this
      ensures Combined(op, a, b, points)
    {
      hide InIntervals, Combine, Merging, Sorted, Words, Compressed;
      var ai, bi := 0, 0;
      NothingMerged(op, a, b);
      while ai < |a| || bi < |b|
        invariant 0 <= ai <= |a| && 0 <= bi <= |b| && Merging(op, points, a, ai, b, bi)
        decreases |a| - ai + |b| - bi
      {
        var takeA, takeB;
        if ai < |a| && bi < |b| {
          takeA, takeB := a[ai] <= b[bi], b[bi] <= a[ai];
        } else {
          takeA, takeB := ai < |a|, bi < |b|;
        }
        var v := if takeA then a[ai] else b[bi];
        var i, j := if takeA then ai + 1 else ai, if takeB then bi + 1 else bi;
        MergeAdvance(op, points, a, ai, b, bi, v, takeA, takeB, i, j);
        ai, bi := i, j;
        var isIn := Combine(op, Odd(ai), Odd(bi));
        if isIn != Odd(|points|) {
          AddPoint(v);
        }
      }
      MergeDone(op, points, a, b);
      ghost var merged := points;
      Compress();
      SameCombined(op, a, b, merged, points);
    }

    /** Adds the set `b`. */
    method Union1(b: seq<int>)
      requires Sorted(points) && Words(points) && Sorted(b) && Words(b)
      modifies this
      ensures Combined(Union, old(points), b, points)
    {
      var a := points;
      points := [];
      Op(a, b, Union);
    }

    /** Adds the code points c1..c2; the end point c2 + 1 must not wrap. */
    method UnionInterval(c1: int, c2: int)
      requires Sorted(points) && Words(points) && 0 <= c1 <= c2 < UINT32_MAX
      modifies this
      ensures Compressed(points)
      ensures forall c :: InIntervals(points, c) <==> InIntervals(old(points), c) || c1 <= c <= c2
    {
      Union1([c1, c2 + 1]);
      forall c ensures InIntervals(points, c) <==> InIntervals(old(points), c) || c1 <= c <= c2 {
        InPair(c1, c2 + 1, c);
      }
    }

    method Invert()
      requires Sorted(points) && Words(points)
      modifies this
      ensures Inverse(old(points), points)
    {
      hide InIntervals;
      ghost var p := points;
      points := [0] + points + [UINT32_MAX];
      forall c ensures InIntervals(points, c) <==> 0 <= c < UINT32_MAX && !InIntervals(p, c) { InvertedSet(p, c); }
      InvertedSet(p, 0);
      Compress();
    }
  }
}
