/**
 * The segment tree over per-day trip statistics: `SegmentTree`, its build,
 * query and update walks, and the calendar queries built on them.
 */
module SegmentTree {
  import opened SegmentStatistics
  import opened SegmentLayout

  /** `query_recursive(node_idx, query_start, query_end)`. */
  function QueryRec(tree: seq<Node>, nodeIdx: int, queryStart: int, queryEnd: int): SegmentStats
    requires WellFormed(tree) && (nodeIdx == -1 || 0 <= nodeIdx < |tree|)
    decreases if nodeIdx == -1 then 0 else |tree| - nodeIdx
  {
    if nodeIdx == -1 then Empty
    else
      assert ChildrenLater(tree, nodeIdx);
      var node := tree[nodeIdx];
      if node.endDay < queryStart || node.startDay > queryEnd then Empty
      else if queryStart <= node.startDay && node.endDay <= queryEnd then node.stats
      else Merge(QueryRec(tree, node.leftChild, queryStart, queryEnd), QueryRec(tree, node.rightChild, queryStart, queryEnd))
  }

  /** `query_recursive` on a node the query range does not reach yields the default, the fold of nothing. */
  lemma QueryOutside(tree: seq<Node>, k: int, daily: seq<SegmentStats>, qs: int, qe: int)
    requires WellFormed(tree) && 0 <= k < |tree| && 0 <= tree[k].startDay && tree[k].endDay < |daily|
    requires tree[k].endDay < qs || tree[k].startDay > qe
    ensures QueryRec(tree, k, qs, qe) == QueryPart(daily, tree[k].startDay, tree[k].endDay, qs, qe)
  {
    assert MaxInt(tree[k].startDay, qs) > MinInt(tree[k].endDay, qe);
  }

  /** `query_recursive` on a node inside the query range yields its statistics, the fold of its days. */
  lemma QueryInside(tree: seq<Node>, k: int, daily: seq<SegmentStats>, qs: int, qe: int)
    requires WellFormed(tree) && 0 <= k < |tree| && NodeOk(tree, k, daily) && OkRange(tree, k, End(tree, k), daily)
    requires qs <= tree[k].startDay && tree[k].endDay <= qe
    ensures 0 <= tree[k].startDay && tree[k].endDay < |daily|
    ensures QueryRec(tree, k, qs, qe) == QueryPart(daily, tree[k].startDay, tree[k].endDay, qs, qe)
  {
    assert NodeOk(tree, k, daily);
    assert MaxInt(tree[k].startDay, qs) == tree[k].startDay && MinInt(tree[k].endDay, qe) == tree[k].endDay;
    NodeIsFold(tree, k, daily);
  }

  /** One step of `query_recursive` on a node the query range overlaps: the merge of its children's answers. */
  lemma QueryStep(tree: seq<Node>, k: int, l: int, r: int, qs: int, qe: int)
    requires WellFormed(tree) && 0 <= k < |tree| && tree[k].leftChild == l && tree[k].rightChild == r
    requires !(tree[k].endDay < qs || tree[k].startDay > qe) && !(qs <= tree[k].startDay && tree[k].endDay <= qe)
    requires (l == -1 || 0 <= l < |tree|) && (r == -1 || 0 <= r < |tree|)
    ensures QueryRec(tree, k, qs, qe) == Merge(QueryRec(tree, l, qs, qe), QueryRec(tree, r, qs, qe))
  {
  }

  /** A query on a subtree yields the fold of the days the subtree and the query range share. */
  lemma {:induction false} QueryIsFold(tree: seq<Node>, k: int, daily: seq<SegmentStats>, qs: int, qe: int)
    requires WellFormed(tree) && 0 <= k < |tree| && NodeOk(tree, k, daily) && OkRange(tree, k, End(tree, k), daily)
    requires forall d :: 0 <= d < |daily| ==> InRange(daily[d])
    ensures 0 <= tree[k].startDay && tree[k].endDay < |daily|
    ensures QueryRec(tree, k, qs, qe) == QueryPart(daily, tree[k].startDay, tree[k].endDay, qs, qe)
    decreases tree[k].endDay - tree[k].startDay, 1
  {
    assert NodeOk(tree, k, daily);
    var s, e := tree[k].startDay, tree[k].endDay;
    if e < qs || s > qe {
      QueryOutside(tree, k, daily, qs, qe);
    } else if qs <= s && e <= qe {
      QueryInside(tree, k, daily, qs, qe);
    } else {
      QueryOverlap(tree, k, daily, qs, qe);
    }
  }

  /** The case of `QueryIsFold` where the query range overlaps the subtree without covering it. */
  lemma {:induction false} QueryOverlap(tree: seq<Node>, k: int, daily: seq<SegmentStats>, qs: int, qe: int)
    requires WellFormed(tree) && 0 <= k < |tree| && NodeOk(tree, k, daily) && OkRange(tree, k, End(tree, k), daily)
    requires forall d :: 0 <= d < |daily| ==> InRange(daily[d])
    requires !(tree[k].endDay < qs || tree[k].startDay > qe) && !(qs <= tree[k].startDay && tree[k].endDay <= qe)
    ensures 0 <= tree[k].startDay && tree[k].endDay < |daily|
    ensures QueryRec(tree, k, qs, qe) == QueryPart(daily, tree[k].startDay, tree[k].endDay, qs, qe)
    decreases tree[k].endDay - tree[k].startDay, 0
  {
    var mid, r := ChildrenOk(tree, k, daily);
    QueryIsFold(tree, k + 1, daily, qs, qe);
    QueryIsFold(tree, r, daily, qs, qe);
    QueryJoin(tree, k, r, daily, mid, qs, qe);
  }

  /** Merging the answers of the two children of an overlapped node, each the fold of its part, gives the fold of the node's part. */
  lemma QueryJoin(tree: seq<Node>, k: int, r: int, daily: seq<SegmentStats>, mid: int, qs: int, qe: int)
    requires WellFormed(tree) && 0 <= k < k + 1 < r < |tree| && tree[k].leftChild == k + 1 && tree[k].rightChild == r
    requires 0 <= tree[k].startDay <= mid < tree[k].endDay < |daily| && forall d :: 0 <= d < |daily| ==> InRange(daily[d])
    requires tree[k + 1].startDay == tree[k].startDay && tree[k + 1].endDay == mid
    requires tree[r].startDay == mid + 1 && tree[r].endDay == tree[k].endDay
    requires !(tree[k].endDay < qs || tree[k].startDay > qe) && !(qs <= tree[k].startDay && tree[k].endDay <= qe)
    requires QueryRec(tree, k + 1, qs, qe) == QueryPart(daily, tree[k + 1].startDay, tree[k + 1].endDay, qs, qe)
    requires QueryRec(tree, r, qs, qe) == QueryPart(daily, tree[r].startDay, tree[r].endDay, qs, qe)
    ensures QueryRec(tree, k, qs, qe) == QueryPart(daily, tree[k].startDay, tree[k].endDay, qs, qe)
  {
    QueryStep(tree, k, k + 1, r, qs, qe);
    FoldCombine(daily, tree[k].startDay, mid, tree[k].endDay, qs, qe);
  }

  /** A C++ `int` conversion of a value that fits in 64 bits: the low 32 bits, two's complement. */
  function ToInt32(x: nat): int
  {
    var r := x % 0x1_0000_0000;
    if r >= 0x8000_0000 then r - 0x1_0000_0000 else r
  }

  /** The day of a timestamp: `(ts - base_date) / 86400` in unsigned 64-bit arithmetic, then narrowed to `int`. */
  function DayOf(ts: nat, baseDate: nat): (day: int)
    requires ts < 0x1_0000_0000_0000_0000 && baseDate < 0x1_0000_0000_0000_0000
    ensures baseDate <= ts && ts - baseDate < 86400 * 0x8000_0000 ==> day == (ts - baseDate) / 86400
  {
    ToInt32(((ts - baseDate) % 0x1_0000_0000_0000_0000) / 86400)
  }

  class SegmentTree {
    /** `tree_`. */
    var tree: seq<Node>
    /** `num_days_`. */
    var numDays: int
    /** `base_date_`. */
    const baseDate: nat
    /** The daily statistics the tree currently summarises. */
    ghost var days: seq<SegmentStats>

    /** Either nothing has been built, or the vector is the tree of `days`: a root over every day and every node laid out by `build`. */
    ghost predicate Valid()
      reads this
    {
      baseDate < 0x1_0000_0000_0000_0000
      && (tree == [] ==> days == [])
      && (tree != [] ==>
            |days| >= 1 && numDays == |days| && |tree| == Size(|days|)
            && tree[0].startDay == 0 && tree[0].endDay == |days| - 1
            && WellFormed(tree) && OkRange(tree, 0, |tree|, days))
    }

    /** `SegmentTree(num_days, base_date)`: the number of days is recorded, but no node exists yet. */
    constructor (numDays: int, baseDate: nat)
      requires baseDate < 0x1_0000_0000_0000_0000
      ensures Valid() && tree == [] && days == [] && this.numDays == numDays && this.baseDate == baseDate
    {
      tree := [];
      this.numDays := numDays;
      this.baseDate := baseDate;
      days := [];
    }

    /** `build(daily_stats, start, end)`: appends the subtree of days `start..end` and returns its root index. */
    method BuildRec(daily: seq<SegmentStats>, start: int, end: int) returns (nodeIdx: int)
      requires 0 <= start <= end < |daily|
      modifies this
      ensures nodeIdx == |old(tree)| && |tree| == |old(tree)| + Size(end - start + 1) && tree[..|old(tree)|] == old(tree)
      ensures tree[nodeIdx].startDay == start && tree[nodeIdx].endDay == end
      ensures OkRange(tree, nodeIdx, |tree|, daily)
      ensures numDays == old(numDays) && days == old(days)
      decreases end - start
    {
      nodeIdx := |tree|;
      tree := tree + [Node(0, 0, Empty, -1, -1)];
      tree := tree[nodeIdx := tree[nodeIdx].(startDay := start, endDay := end)];
      if start == end {
        if start < |daily| {
          tree := tree[nodeIdx := tree[nodeIdx].(stats := daily[start])];
        }
        assert NodeOk(tree, nodeIdx, daily);
      } else {
        var mid := (start + end) / 2;
        ghost var t0 := tree;
        var left := BuildRec(daily, start, mid);
        ghost var t1 := tree;
        tree := tree[nodeIdx := tree[nodeIdx].(leftChild := left)];
        OkRangeSetBelow(t1, nodeIdx, tree[nodeIdx], left, |tree|, daily);
        ghost var t2 := tree;
        var right := BuildRec(daily, mid + 1, end);
        ghost var t3 := tree;
        OkRangeExtend(t2, t3, left, right, daily);
        assert t3[..|t2|][left] == t3[left] && t3[..|t2|][nodeIdx] == t3[nodeIdx];
        tree := tree[nodeIdx := tree[nodeIdx].(rightChild := right)];
        tree := tree[nodeIdx := tree[nodeIdx].(stats := Merge(tree[left].stats, tree[right].stats))];
        Assembled(t3, nodeIdx, tree[nodeIdx], right, |tree|, daily);
        assert tree == t3[nodeIdx := tree[nodeIdx]];
        assert tree[..nodeIdx] == t0[..nodeIdx];
      }
    }

    /** `build(daily_stats)`. An empty vector is excluded: the source's recursion on the range 0..-1 never ends. */
    method Build(daily: seq<SegmentStats>)
      requires Valid() && |daily| >= 1
      modifies this
      ensures Valid() && days == daily && numDays == |daily| && |tree| == Size(|daily|)
    {
      tree := [];
      numDays := |daily|;
      var root := BuildRec(daily, 0, numDays - 1);
      days := daily;
      OkWellFormed(tree, days);
    }

    /** The range `query_range` actually asks for: the start raised to 0, the end lowered to the last day. */
    function ClampStart(startDay: int): int
    {
      if startDay < 0 then 0 else startDay
    }

    function ClampEnd(endDay: int): int
      reads this
    {
      if endDay >= numDays then numDays - 1 else endDay
    }

    /**
     * `query_range(start_day, end_day)`: the clamped range's statistics, the
     * default for an empty clamped range. On a tree not yet built, only an
     * empty clamped range is defined (the source would read node 0).
     */
    function QueryRange(startDay: int, endDay: int): (r: SegmentStats)
      requires Valid() && (tree != [] || ClampStart(startDay) > ClampEnd(endDay))
      requires forall d :: 0 <= d < |days| ==> InRange(days[d])
      reads this
      ensures ClampStart(startDay) > ClampEnd(endDay) ==> r == Empty
      ensures ClampStart(startDay) <= ClampEnd(endDay) ==> r == FoldRange(days, ClampStart(startDay), ClampEnd(endDay))
    {
      var s := ClampStart(startDay);
      var e := ClampEnd(endDay);
      if s > e then Empty
      else
        QueryIsFold(tree, 0, days, s, e);
        assert MaxInt(0, s) == s && MinInt(|days| - 1, e) == e;
        QueryRec(tree, 0, s, e)
    }

    /** `query_by_timestamp(start_ts, end_ts)`. */
    function QueryByTimestamp(startTs: nat, endTs: nat): (r: SegmentStats)
      requires Valid() && startTs < 0x1_0000_0000_0000_0000 && endTs < 0x1_0000_0000_0000_0000
      requires tree != [] || ClampStart(DayOf(startTs, baseDate)) > ClampEnd(DayOf(endTs, baseDate))
      requires forall d :: 0 <= d < |days| ==> InRange(days[d])
      reads this
      ensures r == QueryRange(DayOf(startTs, baseDate), DayOf(endTs, baseDate))
    {
      QueryRange(DayOf(startTs, baseDate), DayOf(endTs, baseDate))
    }

    /** `get_all_stats()`: the root's statistics, the fold of every day. */
    function AllStats(): (r: SegmentStats)
      requires Valid()
      reads this
      ensures tree == [] ==> r == Empty
      ensures tree != [] ==> r == FoldRange(days, 0, |days| - 1)
    {
      if tree == [] then Empty
      else
        NodeIsFold(tree, 0, days);
        tree[0].stats
    }

    /** The statistics of the 30-day month `month` of `year`, counted from day 0 = January 2024 (`get_monthly_stats`). */
    function MonthlyStats(year: int, month: int): (r: SegmentStats)
      requires Valid() && forall d :: 0 <= d < |days| ==> InRange(days[d])
      requires var s := ((year - 2024) * 12 + (month - 1)) * 30; tree != [] || ClampStart(s) > ClampEnd(s + 29)
      reads this
      ensures var s := ((year - 2024) * 12 + (month - 1)) * 30; r == QueryRange(s, s + 29)
    {
      var start := ((year - 2024) * 12 + (month - 1)) * 30;
      QueryRange(start, start + 30 - 1)
    }

    /** `get_quarterly_stats(year, quarter)`: 90-day quarters. */
    function QuarterlyStats(year: int, quarter: int): (r: SegmentStats)
      requires Valid() && forall d :: 0 <= d < |days| ==> InRange(days[d])
      requires var s := ((year - 2024) * 4 + (quarter - 1)) * 90; tree != [] || ClampStart(s) > ClampEnd(s + 89)
      reads this
      ensures var s := ((year - 2024) * 4 + (quarter - 1)) * 90; r == QueryRange(s, s + 89)
    {
      var start := ((year - 2024) * 4 + (quarter - 1)) * 90;
      QueryRange(start, start + 90 - 1)
    }

    /** `get_yearly_stats(year)`: 365-day years. */
    function YearlyStats(year: int): (r: SegmentStats)
      requires Valid() && forall d :: 0 <= d < |days| ==> InRange(days[d])
      requires var s := (year - 2024) * 365; tree != [] || ClampStart(s) > ClampEnd(s + 364)
      reads this
      ensures var s := (year - 2024) * 365; r == QueryRange(s, s + 364)
    {
      var start := (year - 2024) * 365;
      QueryRange(start, start + 365 - 1)
    }

    /**
     * `update_recursive(node_idx, day, new_stats)`: replaces the leaf of `day`
     * below node `nodeIdx` and re-merges every node on the way back up. Only
     * the statistics of nodes of that subtree change.
     */
    method UpdateRec(nodeIdx: int, day: int, newStats: SegmentStats, ghost daily: seq<SegmentStats>)
      requires 0 <= nodeIdx < |tree| && NodeOk(tree, nodeIdx, daily) && OkRange(tree, nodeIdx, End(tree, nodeIdx), daily)
      requires tree[nodeIdx].startDay <= day <= tree[nodeIdx].endDay
      modifies this
      ensures |tree| == |old(tree)| && tree[nodeIdx] == old(tree)[nodeIdx].(stats := tree[nodeIdx].stats)
      ensures OkRange(tree, nodeIdx, End(old(tree), nodeIdx), daily[day := newStats])
      ensures forall k :: 0 <= k < |tree| && !(nodeIdx <= k < End(old(tree), nodeIdx)) ==> tree[k] == old(tree)[k]
      ensures numDays == old(numDays) && days == old(days)
      decreases tree[nodeIdx].endDay - tree[nodeIdx].startDay, 1
    {
      var node := tree[nodeIdx];
      if node.startDay == node.endDay {
        tree := tree[nodeIdx := node.(stats := newStats)];
        assert NodeOk(tree, nodeIdx, daily[day := newStats]);
        return;
      }
      var mid := (node.startDay + node.endDay) / 2;
      if day <= mid {
        UpdateLeft(nodeIdx, day, newStats, daily);
      } else {
        UpdateRight(nodeIdx, day, newStats, daily);
      }
    }

    /** The recursive branch of `update_recursive` for a day in the left half of internal node `nodeIdx`. */
    method UpdateLeft(nodeIdx: int, day: int, newStats: SegmentStats, ghost daily: seq<SegmentStats>)
      requires 0 <= nodeIdx < |tree| && NodeOk(tree, nodeIdx, daily) && OkRange(tree, nodeIdx, End(tree, nodeIdx), daily)
      requires tree[nodeIdx].startDay <= day <= (tree[nodeIdx].startDay + tree[nodeIdx].endDay) / 2 < tree[nodeIdx].endDay
      modifies this
      ensures |tree| == |old(tree)| && tree[nodeIdx] == old(tree)[nodeIdx].(stats := tree[nodeIdx].stats)
      ensures OkRange(tree, nodeIdx, End(old(tree), nodeIdx), daily[day := newStats])
      ensures forall k :: 0 <= k < |tree| && !(nodeIdx <= k < End(old(tree), nodeIdx)) ==> tree[k] == old(tree)[k]
      ensures numDays == old(numDays) && days == old(days)
      decreases tree[nodeIdx].endDay - tree[nodeIdx].startDay, 0
    {
      var left, right := tree[nodeIdx].leftChild, tree[nodeIdx].rightChild;
      ghost var m, r := ChildrenOk(tree, nodeIdx, daily);
      ghost var t0 := tree;
      UpdateRec(left, day, newStats, daily);
      ghost var t1 := tree;
      tree := tree[nodeIdx := tree[nodeIdx].(stats := Merge(tree[left].stats, tree[right].stats))];
      LeftDone(t0, t1, tree, nodeIdx, right, daily, day, newStats);
    }

    /** The recursive branch of `update_recursive` for a day in the right half of internal node `nodeIdx`. */
    method UpdateRight(nodeIdx: int, day: int, newStats: SegmentStats, ghost daily: seq<SegmentStats>)
      requires 0 <= nodeIdx < |tree| && NodeOk(tree, nodeIdx, daily) && OkRange(tree, nodeIdx, End(tree, nodeIdx), daily)
      requires tree[nodeIdx].startDay <= (tree[nodeIdx].startDay + tree[nodeIdx].endDay) / 2 < day <= tree[nodeIdx].endDay
      modifies this
      ensures |tree| == |old(tree)| && tree[nodeIdx] == old(tree)[nodeIdx].(stats := tree[nodeIdx].stats)
      ensures OkRange(tree, nodeIdx, End(old(tree), nodeIdx), daily[day := newStats])
      ensures forall k :: 0 <= k < |tree| && !(nodeIdx <= k < End(old(tree), nodeIdx)) ==> tree[k] == old(tree)[k]
      ensures numDays == old(numDays) && days == old(days)
      decreases tree[nodeIdx].endDay - tree[nodeIdx].startDay, 0
    {
      var left, right := tree[nodeIdx].leftChild, tree[nodeIdx].rightChild;
      ghost var m, r := ChildrenOk(tree, nodeIdx, daily);
      ghost var t0 := tree;
      UpdateRec(right, day, newStats, daily);
      ghost var t1 := tree;
      tree := tree[nodeIdx := tree[nodeIdx].(stats := Merge(tree[left].stats, tree[right].stats))];
      RightDone(t0, t1, tree, nodeIdx, right, daily, day, newStats);
    }

    /** `update_day(day, stats)`: days outside `[0, num_days)` are ignored. */
    method UpdateDay(day: int, stats: SegmentStats)
      requires Valid() && (tree != [] || !(0 <= day < numDays))
      modifies this
      ensures Valid() && numDays == old(numDays) && |tree| == |old(tree)|
      ensures days == if 0 <= day < numDays then old(days)[day := stats] else old(days)
    {
      if day < 0 || day >= numDays {
        return;
      }
      assert NodeOk(tree, 0, days);
      UpdateRec(0, day, stats, days);
      days := days[day := stats];
      OkWellFormed(tree, days);
    }

    /** `update_by_timestamp(timestamp, stats)`. */
    method UpdateByTimestamp(timestamp: nat, stats: SegmentStats)
      requires Valid() && timestamp < 0x1_0000_0000_0000_0000
      requires tree != [] || !(0 <= DayOf(timestamp, baseDate) < numDays)
      modifies this
      ensures Valid() && numDays == old(numDays)
      ensures var day := DayOf(timestamp, baseDate);
        days == if 0 <= day < numDays then old(days)[day := stats] else old(days)
    {
      var day := DayOf(timestamp, baseDate);
      UpdateDay(day, stats);
    }
  }
}
