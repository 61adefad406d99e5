/** Sets of code points as lists of interval end points. */
module Intervals {
  import opened Basics

  /** Strictly increasing even-length point lists: what `cr_compress` leaves. */
  predicate Compressed(points: seq<int>) {
    && |points| % 2 == 0
    && (forall i :: 0 <= i < |points| ==> 0 <= points[i] <= UINT32_MAX)
    && (forall i, j :: 0 <= i < j < |points| ==> points[i] < points[j])
  }

  /** `c` lies in the k-th half-open interval. */
  predicate InInterval(points: seq<int>, k: nat, c: int) {
    2 * k + 1 < |points| && points[2 * k] <= c < points[2 * k + 1]
  }

  /** Membership in the union of the intervals. */
  predicate InIntervals(points: seq<int>, c: int) {
    exists k: nat | k < |points| :: InInterval(points, k, c)
  }
}
