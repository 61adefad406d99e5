/** Character classes: the ranges `re_emit_range` stores and the binary search
    with which `lre_exec_backtrack` tests them. */
module RegexClass {
  import opened Basics
  import opened Intervals

  type Pair = (int, int)

  /** The last end point that matters when choosing the 16-bit form. */
  function TopPoint(points: seq<int>): int
    requires |points| >= 2
  {
    if points[|points| - 1] == UINT32_MAX then points[|points| - 2] else points[|points| - 1]
  }

  /** An end point as stored in 16 bits, 0xffff meaning infinity. */
  function High16(point: int): int {
    if point == UINT32_MAX then 0xffff else point - 1
  }

  /** Closed intervals as emitted, in the 16-bit or the 32-bit form. */
  function Pairs(points: seq<int>, wide: bool): (r: seq<Pair>)
    ensures |r| == |points| / 2
  {
    seq(|points| / 2, k requires 0 <= k < |points| / 2 =>
      (points[2 * k], if wide then points[2 * k + 1] - 1 else High16(points[2 * k + 1])))
  }

  /** The bisection over the pairs lo..hi; `None` is an index that wrapped below 0. */
  function Bisect(pairs: seq<Pair>, c: int, lo: nat, hi: nat): Option<bool>
    requires lo <= hi + 1 && hi < |pairs|
    decreases hi + 1 - lo
  {
    if lo > hi then Some(false)
    else
      var mid := (lo + hi) / 2;
      if c < pairs[mid].0 then (if mid == 0 then None else Bisect(pairs, c, lo, mid - 1))
      else if c > pairs[mid].1 then Bisect(pairs, c, mid + 1, hi)
      else Some(true)
  }

  /** The whole range instruction. */
  function RangeTest(pairs: seq<Pair>, wide: bool, c: int): Option<bool>
    requires |pairs| > 0
  {
    var n := |pairs|;
    if c < pairs[0].0 then Some(false)
    else if !wide && c >= 0xffff && pairs[n - 1].1 == 0xffff then Some(true)
    else if c > pairs[n - 1].1 then Some(false)
    else Bisect(pairs, c, 0, n - 1)
  }

  ghost predicate InPairs(pairs: seq<Pair>, c: int) {
    exists k :: 0 <= k < |pairs| && pairs[k].0 <= c <= pairs[k].1
  }

  ghost predicate SortedPairs(pairs: seq<Pair>) {
    && (forall k :: 0 <= k < |pairs| ==> pairs[k].0 <= pairs[k].1)
    && (forall k, l :: 0 <= k < l < |pairs| ==> pairs[k].1 < pairs[l].0)
  }

  /** The unsigned search index never wraps, whatever the pairs are. */
  lemma {:induction false} BisectNoWrap(pairs: seq<Pair>, c: int, lo: nat, hi: nat)
    requires lo <= hi + 1 && hi < |pairs| && pairs[0].0 <= c
    ensures Bisect(pairs, c, lo, hi).Some?
    decreases hi + 1 - lo
  {
    if lo <= hi {
      var mid := (lo + hi) / 2;
      if c < pairs[mid].0 {
        BisectNoWrap(pairs, c, lo, mid - 1);
      } else if c > pairs[mid].1 {
        BisectNoWrap(pairs, c, mid + 1, hi);
      }
    }
  }

  /** One of the pairs from `lo` to `hi` holds `c`. */
  ghost predicate InSlice(pairs: seq<Pair>, c: int, lo: int, hi: int) {
    exists k :: lo <= k <= hi && 0 <= k < |pairs| && pairs[k].0 <= c <= pairs[k].1
  }

  lemma BisectSide(pairs: seq<Pair>, c: int, lo: nat, hi: nat, mid: nat)
    requires lo <= mid <= hi < |pairs| && SortedPairs(pairs)
    ensures c < pairs[mid].0 ==> (InSlice(pairs, c, lo, hi) <==> InSlice(pairs, c, lo, mid - 1))
    ensures c > pairs[mid].1 ==> (InSlice(pairs, c, lo, hi) <==> InSlice(pairs, c, mid + 1, hi))
    ensures pairs[mid].0 <= c <= pairs[mid].1 ==> InSlice(pairs, c, lo, hi)
  {
    if c < pairs[mid].0 { assert forall k :: mid <= k <= hi ==> c < pairs[k].0; }
    if c > pairs[mid].1 { assert forall k :: lo <= k <= mid ==> pairs[k].1 < c; }
  }

  lemma {:induction false} BisectCorrect(pairs: seq<Pair>, c: int, lo: nat, hi: nat)
    requires lo <= hi + 1 && hi < |pairs| && pairs[0].0 <= c && SortedPairs(pairs)
    ensures Bisect(pairs, c, lo, hi) == Some(InSlice(pairs, c, lo, hi))
    decreases hi + 1 - lo
  {
    if lo <= hi {
      hide SortedPairs, InSlice;
      var mid := (lo + hi) / 2;
      BisectSide(pairs, c, lo, hi, mid);
      if c < pairs[mid].0 {
        if mid > 0 { BisectCorrect(pairs, c, lo, mid - 1); }
      } else if c > pairs[mid].1 {
        BisectCorrect(pairs, c, mid + 1, hi);
      }
    }
  }

  /** The search loop of the two range instructions. */
  method SearchRange(pairs: seq<Pair>, wide: bool, c: int) returns (found: bool)
    requires |pairs| > 0
    ensures RangeTest(pairs, wide, c) == Some(found)
  {
    var n := |pairs|;
    if c < pairs[0].0 {
      return false;
    }
    if !wide && c >= 0xffff && pairs[n - 1].1 == 0xffff {
      return true;
    }
    if c > pairs[n - 1].1 {
      return false;
    }
    var idxMin, idxMax := 0, n - 1;
    while idxMin <= idxMax
      invariant 0 <= idxMin <= idxMax + 1 && 0 <= idxMax < n
      invariant Bisect(pairs, c, idxMin, idxMax) == Bisect(pairs, c, 0, n - 1)
      decreases idxMax + 1 - idxMin
    {
      var idx := (idxMin + idxMax) / 2;
      if c < pairs[idx].0 {
        idxMax := idx - 1;
      } else if c > pairs[idx].1 {
        idxMin := idx + 1;
      } else {
        return true;
      }
    }
    return false;
  }

  /** The code points that a pair stands for when c is below the 16-bit infinity. */
  predicate Fits(points: seq<int>, wide: bool) {
    |points| >= 2 && Compressed(points) && (wide || TopPoint(points) <= 0xffff)
  }

  lemma PairOrder(points: seq<int>, wide: bool, k: nat, l: nat)
    requires Fits(points, wide) && k <= l < |points| / 2
    ensures var p := Pairs(points, wide);
            p[k].0 <= p[k].1 && (k < l ==> p[k].1 < p[l].0) && p[k].1 <= p[l].1
  {
    var n := |points|;
    assert points[2 * k] < points[2 * k + 1] && points[2 * l] < points[2 * l + 1];
    assert 2 * k + 1 < n - 1 ==> points[2 * k + 1] <= points[n - 2] < points[n - 1];
    if k < l { assert points[2 * k + 1] < points[2 * l]; }
  }

  lemma PairsSorted(points: seq<int>, wide: bool)
    requires Fits(points, wide)
    ensures SortedPairs(Pairs(points, wide))
    ensures var p := Pairs(points, wide);
            forall k :: 0 <= k < |p| ==> p[0].0 <= p[k].0 && p[k].1 <= p[|p| - 1].1
  {
    var p := Pairs(points, wide);
    forall k, l | 0 <= k <= l < |p| ensures p[k].0 <= p[k].1 && (k < l ==> p[k].1 < p[l].0) && p[k].1 <= p[l].1 {
      PairOrder(points, wide, k, l);
    }
  }

  lemma InPairsIsInIntervals(points: seq<int>, wide: bool, c: int)
    requires Fits(points, wide) && (wide || c < 0xffff) && c < UINT32_MAX
    ensures InPairs(Pairs(points, wide), c) <==> InIntervals(points, c)
  {
    var pairs := Pairs(points, wide);
    forall k | 0 <= k < |pairs| ensures pairs[k].0 <= c <= pairs[k].1 <==> InInterval(points, k, c) {}
    hide Pairs, Compressed, InInterval;
    if InPairs(pairs, c) {
      var k :| 0 <= k < |pairs| && pairs[k].0 <= c <= pairs[k].1;
      assert InInterval(points, k, c);
    }
    if InIntervals(points, c) {
      var k: nat :| k < |points| && InInterval(points, k, c);
      IntervalIndex(points, k, c);
    }
  }

  lemma IntervalIndex(points: seq<int>, k: nat, c: int)
    requires InInterval(points, k, c)
    ensures k < |points| / 2
  {
  }

  lemma AboveAllPoints(points: seq<int>, c: int)
    requires Compressed(points) && |points| >= 2 && points[|points| - 1] <= c
    ensures !InIntervals(points, c)
  {
    forall k: nat | k < |points| ensures !InInterval(points, k, c) {
      if 2 * k + 1 < |points| { assert points[2 * k + 1] <= points[|points| - 1]; }
    }
  }

  lemma FiniteMatch(points: seq<int>, wide: bool, c: int)
    requires Fits(points, wide) && (wide || c < 0xffff) && 0 <= c < UINT32_MAX
    ensures RangeTest(Pairs(points, wide), wide, c) == Some(InIntervals(points, c))
  {
    hide RangeTest, Pairs, SortedPairs, InIntervals, InPairs;
    InPairsIsInIntervals(points, wide, c);
    PairsSorted(points, wide);
    RangeTestExact(Pairs(points, wide), wide, c);
  }

  /** The tests before the search only leave out what no pair holds. */
  lemma RangeTestExact(pairs: seq<Pair>, wide: bool, c: int)
    requires |pairs| > 0 && SortedPairs(pairs) && (wide || c < 0xffff)
    requires forall k :: 0 <= k < |pairs| ==> pairs[0].0 <= pairs[k].0 && pairs[k].1 <= pairs[|pairs| - 1].1
    ensures RangeTest(pairs, wide, c) == Some(InPairs(pairs, c))
  {
    hide SortedPairs, Bisect;
    assert InPairs(pairs, c) <==> InSlice(pairs, c, 0, |pairs| - 1);
    if pairs[0].0 <= c { BisectCorrect(pairs, c, 0, |pairs| - 1); }
  }

  lemma InfinityMatch(points: seq<int>, c: int)
    requires Fits(points, false) && 0xffff <= c < UINT32_MAX
    ensures RangeTest(Pairs(points, false), false, c) == Some(InIntervals(points, c))
  {
    var pairs, n := Pairs(points, false), |points|;
    assert points[0] <= points[n - 2] < points[n - 1];
    assert pairs[0].0 == points[0] && pairs[n / 2 - 1] == (points[n - 2], High16(points[n - 1]));
    if points[n - 1] == UINT32_MAX {
      assert InInterval(points, n / 2 - 1, c);
    } else {
      AboveAllPoints(points, c);
    }
  }

  /** Emitting a compressed range and searching it decides membership, for every
      code point below the "infinity" end point. */
  lemma ClassMatch(points: seq<int>, c: int)
    requires Compressed(points) && |points| >= 2 && 0 <= c < UINT32_MAX
    ensures var wide := TopPoint(points) > 0xffff;
            RangeTest(Pairs(points, wide), wide, c) == Some(InIntervals(points, c))
  {
    if TopPoint(points) > 0xffff || c < 0xffff {
      FiniteMatch(points, TopPoint(points) > 0xffff, c);
    } else {
      InfinityMatch(points, c);
    }
  }
}
