/**
 * The statistics a segment-tree node holds, their merge, and the fold of a
 * range of daily statistics that a query over that range must return. Only
 * the integer counters and the two speed extremes are modelled; the speed
 * extremes are exact reals, since `std::max` and `std::min` do not round.
 */
module SegmentStatistics {
  /** `SegmentStats` without its floating-point sums and average. */
  datatype SegmentStats = SegmentStats(
    tripCount: int,
    maxSpeed: real,
    minSpeed: real,
    harshBrakingEvents: int,
    speedingViolations: int,
    daysCovered: int)

  /** `SegmentStats()`. */
  const Empty: SegmentStats := SegmentStats(0, 0.0, 999999.0, 0, 0, 0)

  function Max(a: real, b: real): real { if a < b then b else a }
  function Min(a: real, b: real): real { if b < a then b else a }

  /** `SegmentStats::merge(left, right)`: counters add, speed extremes combine. */
  function Merge(left: SegmentStats, right: SegmentStats): SegmentStats
  {
    SegmentStats(
      left.tripCount + right.tripCount,
      Max(left.maxSpeed, right.maxSpeed),
      Min(left.minSpeed, right.minSpeed),
      left.harshBrakingEvents + right.harshBrakingEvents,
      left.speedingViolations + right.speedingViolations,
      left.daysCovered + right.daysCovered)
  }

  /** Speeds the default statistics do not distort: a maximum of at least 0 and a minimum of at most 999999. */
  predicate InRange(s: SegmentStats)
  {
    0.0 <= s.maxSpeed && s.minSpeed <= 999999.0
  }

  /** `merge` adds the counters, and the default statistics are its identity on them. */
  lemma MergeCounts(a: SegmentStats, b: SegmentStats)
    ensures var m := Merge(a, b);
      m.tripCount == a.tripCount + b.tripCount && m.harshBrakingEvents == a.harshBrakingEvents + b.harshBrakingEvents
      && m.speedingViolations == a.speedingViolations + b.speedingViolations && m.daysCovered == a.daysCovered + b.daysCovered
      && m.maxSpeed >= a.maxSpeed && m.maxSpeed >= b.maxSpeed && (m.maxSpeed == a.maxSpeed || m.maxSpeed == b.maxSpeed)
      && m.minSpeed <= a.minSpeed && m.minSpeed <= b.minSpeed && (m.minSpeed == a.minSpeed || m.minSpeed == b.minSpeed)
    ensures var l, r := Merge(Empty, a), Merge(a, Empty);
      l.tripCount == r.tripCount == a.tripCount && l.harshBrakingEvents == r.harshBrakingEvents == a.harshBrakingEvents
      && l.speedingViolations == r.speedingViolations == a.speedingViolations && l.daysCovered == r.daysCovered == a.daysCovered
  {
  }

  /** The default statistics are an identity of `merge` exactly for statistics in range. */
  lemma MergeIdentity(a: SegmentStats)
    ensures InRange(a) <==> Merge(Empty, a) == a && Merge(a, Empty) == a
  {
  }

  /** `merge` is associative and commutative, so the shape of the tree does not change a range's statistics. */
  lemma MergeAssociative(a: SegmentStats, b: SegmentStats, c: SegmentStats)
    ensures Merge(Merge(a, b), c) == Merge(a, Merge(b, c))
    ensures Merge(a, b) == Merge(b, a)
  {
  }

  /** Statistics in range stay in range under `merge`. */
  lemma MergeInRange(a: SegmentStats, b: SegmentStats)
    requires InRange(a) && InRange(b)
    ensures InRange(Merge(a, b))
  {
  }

  /** The statistics of days `lo..hi` of `daily`, merged left to right; the default for an empty range. */
  function FoldRange(daily: seq<SegmentStats>, lo: int, hi: int): SegmentStats
    requires 0 <= lo && hi < |daily|
    decreases hi - lo
  {
    if lo > hi then Empty
    else if lo == hi then daily[lo]
    else Merge(FoldRange(daily, lo, hi - 1), daily[hi])
  }

  /** Two adjacent non-empty ranges fold to the merge of their folds. */
  lemma {:induction false} FoldSplit(daily: seq<SegmentStats>, lo: int, mid: int, hi: int)
    requires 0 <= lo <= mid < hi < |daily|
    ensures FoldRange(daily, lo, hi) == Merge(FoldRange(daily, lo, mid), FoldRange(daily, mid + 1, hi))
    decreases hi - mid
  {
    if hi > mid + 1 {
      FoldSplit(daily, lo, mid, hi - 1);
      MergeAssociative(FoldRange(daily, lo, mid), FoldRange(daily, mid + 1, hi - 1), daily[hi]);
    }
  }

  /** A fold of days in range is in range. */
  lemma {:induction false} FoldInRange(daily: seq<SegmentStats>, lo: int, hi: int)
    requires 0 <= lo && hi < |daily|
    requires forall d :: 0 <= d < |daily| ==> InRange(daily[d])
    ensures InRange(FoldRange(daily, lo, hi))
    decreases hi - lo
  {
    if lo < hi {
      FoldInRange(daily, lo, hi - 1);
      MergeInRange(FoldRange(daily, lo, hi - 1), daily[hi]);
    }
  }

  /** Changing one day changes no fold of a range that leaves it out. */
  lemma {:induction false} FoldOutside(daily: seq<SegmentStats>, lo: int, hi: int, day: int, s: SegmentStats)
    requires 0 <= lo && hi < |daily| && 0 <= day < |daily| && (day < lo || hi < day)
    ensures FoldRange(daily[day := s], lo, hi) == FoldRange(daily, lo, hi)
    decreases hi - lo
  {
    if lo < hi {
      FoldOutside(daily, lo, hi - 1, day, s);
    }
  }

  function MaxInt(a: int, b: int): int { if a < b then b else a }
  function MinInt(a: int, b: int): int { if b < a then b else a }

  /** The fold of the days `s..e` and `qs..qe` share; the default when they share none. */
  function QueryPart(daily: seq<SegmentStats>, s: int, e: int, qs: int, qe: int): SegmentStats
    requires 0 <= s && e < |daily|
  {
    FoldRange(daily, MaxInt(s, qs), MinInt(e, qe))
  }

  /** The folds of the parts of a query range that fall in two adjacent halves merge to the fold of its part in their union. */
  lemma FoldCombine(daily: seq<SegmentStats>, s: int, mid: int, e: int, qs: int, qe: int)
    requires 0 <= s <= mid < e < |daily| && forall d :: 0 <= d < |daily| ==> InRange(daily[d])
    requires qs <= e && s <= qe
    ensures Merge(QueryPart(daily, s, mid, qs, qe), QueryPart(daily, mid + 1, e, qs, qe)) == QueryPart(daily, s, e, qs, qe)
  {
    var lo, hi := MaxInt(s, qs), MinInt(e, qe);
    var hl, lr := MinInt(mid, qe), MaxInt(mid + 1, qs);
    if qe <= mid {
      assert hl == hi && lr > hi;
      assert QueryPart(daily, mid + 1, e, qs, qe) == Empty;
      FoldInRange(daily, lo, hi);
      MergeIdentity(FoldRange(daily, lo, hi));
    } else if qs > mid {
      assert lr == lo && hl < lo;
      assert QueryPart(daily, s, mid, qs, qe) == Empty;
      FoldInRange(daily, lo, hi);
      MergeIdentity(FoldRange(daily, lo, hi));
    } else {
      assert hl == mid && lr == mid + 1;
      FoldSplit(daily, lo, mid, hi);
    }
  }
}
