/**
 * How `build` lays out the segment tree in its vector: nodes in the order
 * `build` creates them (pre-order), each holding its day range, its merged
 * statistics and the indices of its children (-1 for none). Each property is
 * stated per node, so an operation that changes a few nodes re-establishes it
 * node by node.
 */
module SegmentLayout {
  import opened SegmentStatistics

  /** `SegmentTreeNode`. */
  datatype Node = Node(startDay: int, endDay: int, stats: SegmentStats, leftChild: int, rightChild: int)

  /** The number of nodes `build` creates for a range of `days` days. */
  function Size(days: int): int
  {
    2 * days - 1
  }

  /** The index just past the nodes `build` creates for node `k`'s range. */
  function End(tree: seq<Node>, k: int): int
    requires 0 <= k < |tree|
  {
    k + Size(tree[k].endDay - tree[k].startDay + 1)
  }

  /** Each child index of node `k` is -1 or a later node of the vector. */
  ghost predicate ChildrenLater(tree: seq<Node>, k: int)
    requires 0 <= k < |tree|
  {
    (tree[k].leftChild == -1 || k < tree[k].leftChild < |tree|)
    && (tree[k].rightChild == -1 || k < tree[k].rightChild < |tree|)
  }

  /** Every child index is -1 or a later node of the vector, which is why the recursive walks end. */
  ghost predicate WellFormed(tree: seq<Node>)
  {
    forall k :: 0 <= k < |tree| ==> ChildrenLater(tree, k)
  }

  /**
   * Node `k` is laid out the way `build` lays it out over `daily`: its range
   * is a range of days and its subtree fits in the vector; a leaf holds its
   * day's statistics; an internal node splits at the midpoint, has the left
   * half's node right after it and the right half's node after the left
   * subtree, and holds the merge of their statistics.
   */
  ghost predicate NodeOk(tree: seq<Node>, k: int, daily: seq<SegmentStats>)
    requires 0 <= k < |tree|
  {
    var n := tree[k];
    0 <= n.startDay <= n.endDay < |daily| && End(tree, k) <= |tree|
    && if n.startDay == n.endDay then
         n.leftChild == -1 && n.rightChild == -1 && n.stats == daily[n.startDay]
       else
         var mid := (n.startDay + n.endDay) / 2;
         var r := k + 1 + Size(mid - n.startDay + 1);
         n.leftChild == k + 1 && n.rightChild == r
         && tree[k + 1].startDay == n.startDay && tree[k + 1].endDay == mid
         && tree[r].startDay == mid + 1 && tree[r].endDay == n.endDay
         && n.stats == Merge(tree[k + 1].stats, tree[r].stats)
  }

  /** Every node with index in `lo..hi-1` is laid out as `build` lays it out. */
  ghost predicate OkRange(tree: seq<Node>, lo: int, hi: int, daily: seq<SegmentStats>)
  {
    0 <= lo && hi <= |tree| && forall k :: lo <= k < hi ==> NodeOk(tree, k, daily)
  }

  /** The two children of an internal node, and how their subtrees divide the node's subtree. */
  lemma Children(tree: seq<Node>, k: int, daily: seq<SegmentStats>) returns (mid: int, r: int)
    requires 0 <= k < |tree| && NodeOk(tree, k, daily) && tree[k].startDay < tree[k].endDay
    ensures mid == (tree[k].startDay + tree[k].endDay) / 2 && tree[k].startDay <= mid < tree[k].endDay
    ensures r == k + 1 + Size(mid - tree[k].startDay + 1) && k + 1 < r < End(tree, k)
    ensures tree[k].leftChild == k + 1 && tree[k].rightChild == r
    ensures tree[k + 1].startDay == tree[k].startDay && tree[k + 1].endDay == mid
    ensures tree[r].startDay == mid + 1 && tree[r].endDay == tree[k].endDay
    ensures End(tree, k + 1) == r && End(tree, r) == End(tree, k)
  {
    mid := (tree[k].startDay + tree[k].endDay) / 2;
    r := k + 1 + Size(mid - tree[k].startDay + 1);
  }

  /** The subtrees of an internal node whose subtree is laid out are laid out too. */
  lemma ChildrenOk(tree: seq<Node>, k: int, daily: seq<SegmentStats>) returns (mid: int, r: int)
    requires 0 <= k < |tree| && NodeOk(tree, k, daily) && OkRange(tree, k, End(tree, k), daily)
    requires tree[k].startDay < tree[k].endDay
    ensures mid == (tree[k].startDay + tree[k].endDay) / 2 && tree[k].startDay <= mid < tree[k].endDay
    ensures r == k + 1 + Size(mid - tree[k].startDay + 1) && End(tree, k + 1) == r && End(tree, r) == End(tree, k)
    ensures tree[k].leftChild == k + 1 && tree[k].rightChild == r
    ensures tree[k + 1].startDay == tree[k].startDay && tree[k + 1].endDay == mid
    ensures tree[r].startDay == mid + 1 && tree[r].endDay == tree[k].endDay
    ensures NodeOk(tree, k + 1, daily) && OkRange(tree, k + 1, r, daily)
    ensures NodeOk(tree, r, daily) && OkRange(tree, r, End(tree, k), daily)
  {
    mid, r := Children(tree, k, daily);
  }

  /** Two adjacent laid-out ranges form one. */
  lemma OkRangeJoin(tree: seq<Node>, lo: int, mid: int, hi: int, daily: seq<SegmentStats>)
    requires OkRange(tree, lo, mid, daily) && OkRange(tree, mid, hi, daily)
    ensures OkRange(tree, lo, hi, daily)
  {
    forall k | lo <= k < hi
      ensures NodeOk(tree, k, daily)
    {
      if k < mid {
        assert NodeOk(tree, k, daily);
      }
    }
  }

  /**
   * The nodes after node `i` hold two laid-out subtrees, over the two halves
   * of days `s..e`, the way `build` places a node's children: the left one
   * directly after `i`, the right one at `r`, together ending at `end`.
   */
  ghost predicate ChildrenReady(tree: seq<Node>, i: int, s: int, e: int, r: int, end: int, daily: seq<SegmentStats>)
  {
    0 <= i && i + 1 < r < end <= |tree| && 0 <= s < e < |daily| && end == i + Size(e - s + 1)
    && r == i + 1 + Size((s + e) / 2 - s + 1)
    && OkRange(tree, i + 1, r, daily) && OkRange(tree, r, end, daily)
    && tree[i + 1].startDay == s && tree[i + 1].endDay == (s + e) / 2
    && tree[r].startDay == (s + e) / 2 + 1 && tree[r].endDay == e
  }

  /** After an update of day `day` below the left child of node `i`, both child subtrees are ready over the updated days. */
  lemma LeftUpdated(t0: seq<Node>, t1: seq<Node>, i: int, daily: seq<SegmentStats>, day: int, st: SegmentStats)
    requires 0 <= i < |t0| && NodeOk(t0, i, daily) && OkRange(t0, i, End(t0, i), daily)
    requires t0[i].startDay <= day <= (t0[i].startDay + t0[i].endDay) / 2 < t0[i].endDay
    requires |t1| == |t0| && t1[i + 1] == t0[i + 1].(stats := t1[i + 1].stats)
    requires OkRange(t1, i + 1, End(t0, i + 1), daily[day := st])
    requires forall k :: 0 <= k < |t1| && !(i + 1 <= k < End(t0, i + 1)) ==> t1[k] == t0[k]
    ensures ChildrenReady(t1, i, t0[i].startDay, t0[i].endDay, t0[i].rightChild, End(t0, i), daily[day := st])
    ensures t1[i] == t0[i] && forall k :: 0 <= k < |t1| && !(i < k < End(t0, i)) ==> t1[k] == t0[k]
  {
    var mid, r := ChildrenOk(t0, i, daily);
    UpdateUntouched(t0, t1, r, End(t0, i), daily, day, st, i + 1, r);
    assert t1[r] == t0[r];
  }

  /** After an update of day `day` below the right child `r` of node `i`, both child subtrees are ready over the updated days. */
  lemma RightUpdated(t0: seq<Node>, t1: seq<Node>, i: int, r: int, daily: seq<SegmentStats>, day: int, st: SegmentStats)
    requires 0 <= i < |t0| && NodeOk(t0, i, daily) && OkRange(t0, i, End(t0, i), daily) && r == t0[i].rightChild
    requires t0[i].startDay <= (t0[i].startDay + t0[i].endDay) / 2 < day <= t0[i].endDay
    requires i < r < |t0| == |t1| && t1[r] == t0[r].(stats := t1[r].stats)
    requires OkRange(t1, r, End(t0, r), daily[day := st])
    requires forall k :: 0 <= k < |t1| && !(r <= k < End(t0, r)) ==> t1[k] == t0[k]
    ensures ChildrenReady(t1, i, t0[i].startDay, t0[i].endDay, r, End(t0, i), daily[day := st])
    ensures t1[i] == t0[i] && forall k :: 0 <= k < |t1| && !(i < k < End(t0, i)) ==> t1[k] == t0[k]
  {
    var mid, r' := ChildrenOk(t0, i, daily);
    UpdateUntouched(t0, t1, i + 1, r, daily, day, st, r, End(t0, i));
    assert t1[i + 1] == t0[i + 1];
  }

  /** Giving node `i` its layout fields over two ready child subtrees lays out its whole subtree. */
  lemma Assembled(tree: seq<Node>, i: int, v: Node, r: int, end: int, daily: seq<SegmentStats>)
    requires ChildrenReady(tree, i, v.startDay, v.endDay, r, end, daily)
    requires v.leftChild == i + 1 && v.rightChild == r && v.stats == Merge(tree[i + 1].stats, tree[r].stats)
    ensures OkRange(tree[i := v], i, end, daily)
  {
    var t := tree[i := v];
    OkRangeSetBelow(tree, i, v, i + 1, r, daily);
    OkRangeSetBelow(tree, i, v, r, end, daily);
    assert NodeOk(t, i, daily);
    OkRangeJoin(t, i, i + 1, r, daily);
    OkRangeJoin(t, i, r, end, daily);
  }

  /**
   * The step of `update_recursive` at internal node `i` after the recursive
   * call on the left child: re-merging the children's statistics lays out the
   * whole subtree over the updated days, and nothing outside it changed.
   */
  lemma LeftDone(t0: seq<Node>, t1: seq<Node>, t2: seq<Node>, i: int, r: int, daily: seq<SegmentStats>, day: int, st: SegmentStats)
    requires 0 <= i < |t0| && NodeOk(t0, i, daily) && OkRange(t0, i, End(t0, i), daily) && r == t0[i].rightChild
    requires t0[i].startDay <= day <= (t0[i].startDay + t0[i].endDay) / 2 < t0[i].endDay
    requires |t1| == |t0| && t1[i + 1] == t0[i + 1].(stats := t1[i + 1].stats)
    requires OkRange(t1, i + 1, End(t0, i + 1), daily[day := st])
    requires forall k :: 0 <= k < |t1| && !(i + 1 <= k < End(t0, i + 1)) ==> t1[k] == t0[k]
    requires 0 <= r < |t1| && t2 == t1[i := t1[i].(stats := Merge(t1[i + 1].stats, t1[r].stats))]
    ensures |t2| == |t0| && t2[i] == t0[i].(stats := t2[i].stats)
    ensures OkRange(t2, i, End(t0, i), daily[day := st])
    ensures forall k :: 0 <= k < |t2| && !(i <= k < End(t0, i)) ==> t2[k] == t0[k]
  {
    LeftUpdated(t0, t1, i, daily, day, st);
    Assembled(t1, i, t2[i], r, End(t0, i), daily[day := st]);
  }

  /** The same step after the recursive call on the right child `r`. */
  lemma RightDone(t0: seq<Node>, t1: seq<Node>, t2: seq<Node>, i: int, r: int, daily: seq<SegmentStats>, day: int, st: SegmentStats)
    requires 0 <= i < |t0| && NodeOk(t0, i, daily) && OkRange(t0, i, End(t0, i), daily) && r == t0[i].rightChild
    requires t0[i].startDay <= (t0[i].startDay + t0[i].endDay) / 2 < day <= t0[i].endDay
    requires i < r < |t0| == |t1| && t1[r] == t0[r].(stats := t1[r].stats)
    requires OkRange(t1, r, End(t0, r), daily[day := st])
    requires forall k :: 0 <= k < |t1| && !(r <= k < End(t0, r)) ==> t1[k] == t0[k]
    requires i + 1 < |t1| && t2 == t1[i := t1[i].(stats := Merge(t1[i + 1].stats, t1[r].stats))]
    ensures |t2| == |t0| && t2[i] == t0[i].(stats := t2[i].stats)
    ensures OkRange(t2, i, End(t0, i), daily[day := st])
    ensures forall k :: 0 <= k < |t2| && !(i <= k < End(t0, i)) ==> t2[k] == t0[k]
  {
    RightUpdated(t0, t1, i, r, daily, day, st);
    Assembled(t1, i, t2[i], r, End(t0, i), daily[day := st]);
  }

  /** A tree laid out by `build` has only later children. */
  lemma OkWellFormed(tree: seq<Node>, daily: seq<SegmentStats>)
    requires OkRange(tree, 0, |tree|, daily)
    ensures WellFormed(tree)
  {
    forall k | 0 <= k < |tree|
      ensures ChildrenLater(tree, k)
    {
      assert NodeOk(tree, k, daily);
      if tree[k].startDay < tree[k].endDay {
        var mid, r := Children(tree, k, daily);
      }
    }
  }

  /** Every node of the subtree of `k` covers part of `k`'s range and ends within `k`'s subtree. */
  lemma {:induction false} BlockInside(tree: seq<Node>, k: int, j: int, daily: seq<SegmentStats>)
    requires 0 <= k < |tree| && NodeOk(tree, k, daily) && OkRange(tree, k, End(tree, k), daily) && k <= j < End(tree, k)
    ensures tree[k].startDay <= tree[j].startDay && tree[j].endDay <= tree[k].endDay && End(tree, j) <= End(tree, k)
    decreases tree[k].endDay - tree[k].startDay
  {
    assert NodeOk(tree, k, daily);
    if j > k {
      var mid, r := Children(tree, k, daily);
      if j < r {
        BlockInside(tree, k + 1, j, daily);
      } else {
        BlockInside(tree, r, j, daily);
      }
    }
  }

  /** A node's layout depends only on the nodes of its subtree, and a leaf's only on its own day. */
  lemma NodeOkTransfer(t1: seq<Node>, t2: seq<Node>, k: int, d1: seq<SegmentStats>, d2: seq<SegmentStats>)
    requires 0 <= k < |t1| && NodeOk(t1, k, d1) && End(t1, k) <= |t2| && |d1| == |d2|
    requires forall j :: k <= j < End(t1, k) ==> t2[j] == t1[j]
    requires t1[k].startDay == t1[k].endDay ==> d2[t1[k].startDay] == d1[t1[k].startDay]
    ensures NodeOk(t2, k, d2)
  {
    assert t2[k] == t1[k];
    if t1[k].startDay < t1[k].endDay {
      var mid, r := Children(t1, k, d1);
      assert t2[k + 1] == t1[k + 1] && t2[r] == t1[r];
    }
  }

  /** Changing an earlier node changes no layout of the nodes in `lo..hi-1`. */
  lemma OkRangeSetBelow(tree: seq<Node>, j: int, v: Node, lo: int, hi: int, daily: seq<SegmentStats>)
    requires 0 <= j < lo && j < |tree| && OkRange(tree, lo, hi, daily)
    ensures OkRange(tree[j := v], lo, hi, daily)
  {
    var t2 := tree[j := v];
    forall k | lo <= k < hi
      ensures NodeOk(t2, k, daily)
    {
      assert NodeOk(tree, k, daily);
      NodeOkTransfer(tree, t2, k, daily, daily);
    }
  }

  /** Appending nodes changes no layout of the nodes in `lo..hi-1` whose subtrees are already complete. */
  lemma OkRangeExtend(t1: seq<Node>, t2: seq<Node>, lo: int, hi: int, daily: seq<SegmentStats>)
    requires OkRange(t1, lo, hi, daily) && |t1| <= |t2| && t2[..|t1|] == t1
    ensures OkRange(t2, lo, hi, daily)
  {
    forall k | lo <= k < hi
      ensures NodeOk(t2, k, daily)
    {
      assert NodeOk(t1, k, daily);
      forall j | k <= j < End(t1, k)
        ensures t2[j] == t1[j]
      {
        assert t2[..|t1|][j] == t2[j];
      }
      NodeOkTransfer(t1, t2, k, daily, daily);
    }
  }

  /** A node holds the fold of the days it covers. */
  lemma {:induction false} NodeIsFold(tree: seq<Node>, k: int, daily: seq<SegmentStats>)
    requires 0 <= k < |tree| && NodeOk(tree, k, daily) && OkRange(tree, k, End(tree, k), daily)
    ensures tree[k].stats == FoldRange(daily, tree[k].startDay, tree[k].endDay)
    decreases tree[k].endDay - tree[k].startDay
  {
    assert NodeOk(tree, k, daily);
    if tree[k].startDay < tree[k].endDay {
      var mid, r := Children(tree, k, daily);
      NodeIsFold(tree, k + 1, daily);
      NodeIsFold(tree, r, daily);
      FoldSplit(daily, tree[k].startDay, mid, tree[k].endDay);
    }
  }

  /**
   * After an update below one child, the nodes of the other child's subtree
   * (`lo..hi-1`), which the update did not touch and whose days leave out
   * `day`, are laid out over the updated days too.
   */
  lemma UpdateUntouched(t0: seq<Node>, t1: seq<Node>, lo: int, hi: int, daily: seq<SegmentStats>, day: int, st: SegmentStats, cLo: int, cHi: int)
    requires 0 <= lo < hi <= |t0| == |t1| && NodeOk(t0, lo, daily) && hi == End(t0, lo) && OkRange(t0, lo, hi, daily) && 0 <= day < |daily|
    requires day < t0[lo].startDay || t0[lo].endDay < day
    requires forall k :: 0 <= k < |t1| && !(cLo <= k < cHi) ==> t1[k] == t0[k]
    requires hi <= cLo || cHi <= lo
    ensures OkRange(t1, lo, hi, daily[day := st])
  {
    var d2 := daily[day := st];
    forall k | lo <= k < hi
      ensures NodeOk(t1, k, d2)
    {
      BlockInside(t0, lo, k, daily);
      assert NodeOk(t0, k, daily);
      NodeOkTransfer(t0, t1, k, daily, d2);
    }
  }
}
