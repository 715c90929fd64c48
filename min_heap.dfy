/**
 * The binary min-heap behind the maintenance-alert queue. The heap is a
 * vector in level order (children of `i` at `2i+1` and `2i+2`). The
 * comparator is modelled as an integer rank: `Compare(a, b)` is
 * `key(a) < key(b)`, which is how `MaintenanceAlert::operator<` orders alerts.
 */
module MinHeap {
  import opened Wrappers

  /** `parent(i)`. */
  function Parent(i: int): int
  {
    (i - 1) / 2
  }

  /** `swap(heap_[i], heap_[j])`. */
  function Swap<T>(h: seq<T>, i: int, j: int): (r: seq<T>)
    requires 0 <= i < |h| && 0 <= j < |h|
    ensures |r| == |h| && multiset(r) == multiset(h)
  {
    h[i := h[j]][j := h[i]]
  }

  /** No element ranks below its parent. */
  ghost predicate IsHeap<T>(h: seq<T>, key: T -> int)
  {
    forall i :: 0 < i < |h| ==> key(h[Parent(i)]) <= key(h[i])
  }

  /**
   * The state while `heapify_up` works on position `j`, having started at `k0`:
   * every parent/child pair is in order except the one above `j`, and, while
   * nothing has moved yet, the pairs below `j`.
   */
  ghost predicate UpInv<T>(h: seq<T>, key: T -> int, j: int, k0: int)
  {
    forall i :: 0 < i < |h| && i != j && (Parent(i) != j || j != k0) ==> key(h[Parent(i)]) <= key(h[i])
  }

  /** The parent of `j` ranks no higher than any child of `j`, so it may move down over them. */
  ghost predicate ParentBound<T>(h: seq<T>, key: T -> int, j: int)
    requires 0 <= j < |h|
  {
    j > 0 ==> forall c :: 0 < c < |h| && Parent(c) == j ==> key(h[Parent(j)]) <= key(h[c])
  }

  /** Every pair is in order except those between `j` and its children. */
  ghost predicate AboveOk<T>(h: seq<T>, key: T -> int, j: int)
  {
    forall i :: 0 < i < |h| && Parent(i) != j ==> key(h[Parent(i)]) <= key(h[i])
  }

  /** No child of `j` ranks below `j`. */
  ghost predicate ChildrenOk<T>(h: seq<T>, key: T -> int, j: int)
    requires 0 <= j < |h|
  {
    forall c :: 0 < c < |h| && Parent(c) == j ==> key(h[j]) <= key(h[c])
  }

  /**
   * The state while `heapify_down` works on position `j` inside the subtree of
   * `lo`: every pair whose parent is at `lo` or later is in order, except the
   * pairs between `j` and its children.
   */
  ghost predicate DownInv<T>(h: seq<T>, key: T -> int, lo: int, j: int)
  {
    forall i :: 0 < i < |h| && lo <= Parent(i) && Parent(i) != j ==> key(h[Parent(i)]) <= key(h[i])
  }

  /** Every pair whose parent is at `lo` or later is in order: the subtrees rooted from `lo` on are heaps. */
  ghost predicate HeapFrom<T>(h: seq<T>, key: T -> int, lo: int)
  {
    forall i :: 0 < i < |h| && lo <= Parent(i) ==> key(h[Parent(i)]) <= key(h[i])
  }

  /** One step of `heapify_up`: swapping `j` with its larger parent moves the gap up one level. */
  lemma UpStep<T>(h: seq<T>, key: T -> int, j: int, k0: int)
    requires 0 < j <= k0 < |h|
    requires UpInv(h, key, j, k0) && ParentBound(h, key, j) && key(h[j]) < key(h[Parent(j)])
    ensures UpInv(Swap(h, j, Parent(j)), key, Parent(j), k0)
    ensures ParentBound(Swap(h, j, Parent(j)), key, Parent(j))
  {
    var p := Parent(j);
    var h' := Swap(h, j, p);
    forall i | 0 < i < |h'| && i != p && (Parent(i) != p || p != k0)
      ensures key(h'[Parent(i)]) <= key(h'[i])
    {
      if i == j {
      } else if Parent(i) == j {
      } else if Parent(i) == p {
        assert key(h[p]) <= key(h[i]);
      }
    }
    if p > 0 {
      forall c | 0 < c < |h'| && Parent(c) == p
        ensures key(h'[Parent(p)]) <= key(h'[c])
      {
        assert key(h[Parent(p)]) <= key(h[p]);
        if c != j {
          assert key(h[p]) <= key(h[c]);
        }
      }
    }
  }

  /** Where `heapify_up` stops, everything but the pairs below its starting point is in order. */
  lemma UpDone<T>(h: seq<T>, key: T -> int, j: int, k0: int)
    requires 0 <= j <= k0 < |h|
    requires UpInv(h, key, j, k0) && (j > 0 ==> key(h[Parent(j)]) <= key(h[j]))
    ensures AboveOk(h, key, k0)
    ensures j != k0 ==> IsHeap(h, key)
  {
  }

  /** One step of `heapify_down`: swapping `j` with its smallest child moves the gap down one level. */
  lemma DownStep<T>(h: seq<T>, key: T -> int, lo: int, j: int, s: int)
    requires 0 <= lo <= j < |h| && 0 < s < |h| && Parent(s) == j
    requires DownInv(h, key, lo, j) && (j != lo ==> lo <= Parent(j) && ParentBound(h, key, j))
    requires key(h[s]) < key(h[j])
    requires forall c :: 0 < c < |h| && Parent(c) == j ==> key(h[s]) <= key(h[c])
    ensures DownInv(Swap(h, j, s), key, lo, s)
    ensures lo <= Parent(s) && ParentBound(Swap(h, j, s), key, s)
  {
    var h' := Swap(h, j, s);
    forall i | 0 < i < |h'| && lo <= Parent(i) && Parent(i) != s
      ensures key(h'[Parent(i)]) <= key(h'[i])
    {
      if i == j {
        assert key(h[Parent(j)]) <= key(h[s]);
      } else if Parent(i) == j {
      } else {
      }
    }
  }

  /** With the pairs below `j` in order too, the subtrees from `lo` on are heaps. */
  lemma DownDone<T>(h: seq<T>, key: T -> int, lo: int, j: int)
    requires 0 <= j < |h|
    requires DownInv(h, key, lo, j) && ChildrenOk(h, key, j)
    ensures HeapFrom(h, key, lo)
  {
  }

  /** With the pairs below `j` in order too, the whole sequence is a heap. */
  lemma AboveChildren<T>(h: seq<T>, key: T -> int, j: int)
    requires 0 <= j < |h|
    requires AboveOk(h, key, j) && ChildrenOk(h, key, j)
    ensures IsHeap(h, key)
  {
  }

  /** `heapify_down` may start at `j` with `lo` = 0 once only the pairs below `j` are out of order. */
  lemma AboveIsDownInv<T>(h: seq<T>, key: T -> int, j: int)
    requires 0 <= j < |h|
    requires AboveOk(h, key, j) && ParentBound(h, key, j)
    ensures DownInv(h, key, 0, j) && (j != 0 ==> 0 <= Parent(j) && ParentBound(h, key, j))
  {
  }

  /** `insert`: a heap with one element appended is ready for `heapify_up` from the end. */
  lemma AppendPrepared<T>(h: seq<T>, key: T -> int, v: T)
    requires IsHeap(h, key)
    ensures UpInv(h + [v], key, |h|, |h|) && ParentBound(h + [v], key, |h|) && ChildrenOk(h + [v], key, |h|)
  {
    var h' := h + [v];
    forall i | 0 < i < |h'| && i != |h|
      ensures key(h'[Parent(i)]) <= key(h'[i])
    {
      assert h'[i] == h[i] && h'[Parent(i)] == h[Parent(i)];
    }
  }

  /** `extract_min`: with the last element moved to the root, only the pairs below the root are out of order. */
  lemma RootReplacedPrepared<T>(h: seq<T>, key: T -> int)
    requires IsHeap(h, key) && |h| > 1
    ensures DownInv(Fill(h, 0), key, 0, 0)
  {
  }

  /**
   * `update`: a lower rank at `index` leaves only the pair above it out of
   * order; an equal or higher one only the pairs below it.
   */
  lemma ReplacedPrepared<T>(h: seq<T>, key: T -> int, index: int, v: T)
    requires IsHeap(h, key) && 0 <= index < |h|
    ensures var h' := h[index := v];
      key(v) < key(h[index]) ==> UpInv(h', key, index, index) && ParentBound(h', key, index) && ChildrenOk(h', key, index)
    ensures var h' := h[index := v];
      !(key(v) < key(h[index])) ==> DownInv(h', key, 0, index) && (index != 0 ==> 0 <= Parent(index) && ParentBound(h', key, index))
  {
    var h' := h[index := v];
    if index > 0 {
      forall c | 0 < c < |h'| && Parent(c) == index
        ensures key(h'[Parent(index)]) <= key(h'[c])
      {
        assert key(h[Parent(index)]) <= key(h[index]);
      }
    }
  }

  /** The vector after `heap_[index] = heap_.back(); heap_.pop_back();`. */
  function Fill<T>(h: seq<T>, index: int): (r: seq<T>)
    requires 0 <= index < |h|
    ensures |r| == |h| - 1
  {
    h[index := h[|h| - 1]][..|h| - 1]
  }

  /** `remove` and `extract_min`: filling the hole at `index` removes one occurrence of `h[index]`. */
  lemma FillMultiset<T>(h: seq<T>, index: int)
    requires 0 <= index < |h|
    ensures multiset(Fill(h, index)) == multiset(h) - multiset{h[index]}
  {
    var last := h[|h| - 1];
    var front := h[..|h| - 1];
    assert h == front + [last];
    if index < |h| - 1 {
      assert Fill(h, index) == front[index := last];
    } else {
      assert Fill(h, index) == front;
    }
  }

  /**
   * `remove`: unless the hole was the last slot, only the pairs touching
   * `index` are out of order once it is filled, and the parent of `index`
   * still ranks no higher than its children.
   */
  lemma FillPrepared<T>(h: seq<T>, key: T -> int, index: int)
    requires IsHeap(h, key) && 0 <= index < |h| - 1
    ensures UpInv(Fill(h, index), key, index, index) && ParentBound(Fill(h, index), key, index)
  {
    var h' := Fill(h, index);
    if index > 0 {
      forall c | 0 < c < |h'| && Parent(c) == index
        ensures key(h'[Parent(index)]) <= key(h'[c])
      {
        assert key(h[Parent(index)]) <= key(h[index]);
      }
    }
  }

  /** Dropping the last slot of a heap leaves a heap. */
  lemma FillLast<T>(h: seq<T>, key: T -> int)
    requires IsHeap(h, key) && |h| > 0
    ensures IsHeap(Fill(h, |h| - 1), key)
  {
    assert Fill(h, |h| - 1) == h[..|h| - 1];
  }



  /** The root of a heap ranks no higher than any element. */
  lemma {:induction false} RootIsMin<T>(h: seq<T>, key: T -> int, i: int)
    requires IsHeap(h, key) && 0 <= i < |h|
    ensures key(h[0]) <= key(h[i])
    decreases i
  {
    if i > 0 {
      RootIsMin(h, key, Parent(i));
    }
  }

  /** The root of a heap ranks no higher than anything in it. */
  lemma RootIsMinAll<T>(h: seq<T>, key: T -> int)
    requires IsHeap(h, key) && h != []
    ensures Least(h[0], multiset(h), key)
  {
    forall y | y in multiset(h)
      ensures key(h[0]) <= key(y)
    {
      var i :| 0 <= i < |h| && h[i] == y;
      RootIsMin(h, key, i);
    }
  }

  /** Nothing in `ms` ranks below `m`. */
  ghost predicate Least<T>(m: T, ms: multiset<T>, key: T -> int)
  {
    forall y :: y in ms ==> key(m) <= key(y)
  }

  /** `s` is in nondecreasing rank order. */
  ghost predicate SortedBy<T>(s: seq<T>, key: T -> int)
  {
    forall a, b :: 0 <= a < b < |s| ==> key(s[a]) <= key(s[b])
  }

  /** Nothing in `s` ranks above anything in `rest`. */
  ghost predicate AllBelow<T>(s: seq<T>, rest: multiset<T>, key: T -> int)
  {
    forall a, y :: 0 <= a < |s| && y in rest ==> key(s[a]) <= key(y)
  }

  /**
   * One round of `get_top_k`: moving the least element `m` of what is left
   * onto the end of the result keeps the result sorted and no greater than
   * what remains.
   */
  lemma TopKStep<T>(key: T -> int, result: seq<T>, rest: multiset<T>, m: T, rest': multiset<T>)
    requires SortedBy(result, key) && AllBelow(result, rest, key)
    requires rest' + multiset{m} == rest
    requires Least(m, rest, key)
    ensures multiset(result + [m]) + rest' == multiset(result) + rest
    ensures SortedBy(result + [m], key) && AllBelow(result + [m], rest', key)
  {
    assert m in rest;
    var r := result + [m];
    forall a, y | 0 <= a < |r| && y in rest'
      ensures key(r[a]) <= key(y)
    {
      assert y in rest;
      if a < |result| {
        assert r[a] == result[a];
      }
    }
    forall a, b | 0 <= a < b < |r|
      ensures key(r[a]) <= key(r[b])
    {
      if b < |result| {
        assert r[a] == result[a] && r[b] == result[b];
      } else {
        assert r[a] == result[a];
      }
    }
  }

  /** When `get_top_k` stops, the result is part of the heap and no greater than the rest of it. */
  lemma TopKDone<T>(key: T -> int, result: seq<T>, rest: multiset<T>, all: multiset<T>)
    requires multiset(result) + rest == all && AllBelow(result, rest, key)
    ensures multiset(result) <= all && AllBelow(result, all - multiset(result), key)
  {
    assert all - multiset(result) == rest;
  }

  class MinHeap<T> {
    /** `heap_`, in level order. */
    var heap: seq<T>
    /** The rank the comparator orders by. */
    const key: T -> int

    ghost predicate Valid()
      reads this
    {
      IsHeap(heap, key)
    }

    /** `MinHeap()`. */
    constructor (key: T -> int)
      ensures Valid() && heap == [] && this.key == key
    {
      this.key := key;
      heap := [];
    }

    /** `MinHeap(data)`: a copy of `data`, made a heap bottom-up. */
    constructor FromSeq(data: seq<T>, key: T -> int)
      ensures Valid() && multiset(heap) == multiset(data) && this.key == key
    {
      this.key := key;
      heap := data;
      new;
      var i := |heap| / 2 - 1;
      while i >= 0
        invariant -1 <= i < |heap| || (i == -1 && heap == [])
        invariant |heap| == |data| && multiset(heap) == multiset(data)
        invariant HeapFrom(heap, key, i + 1)
        decreases i
      {
        HeapifyDown(i, i);
        i := i - 1;
      }
    }

    /** `heapify_up(index)`: moves the element at `index` up while it ranks below its parent. */
    method HeapifyUp(index: int)
      requires 0 <= index < |heap|
      requires UpInv(heap, key, index, index) && ParentBound(heap, key, index)
      modifies this
      ensures |heap| == |old(heap)| && multiset(heap) == multiset(old(heap))
      ensures AboveOk(heap, key, index) && ParentBound(heap, key, index)
      ensures ChildrenOk(old(heap), key, index) ==> IsHeap(heap, key)
    {
      var j := index;
      while j > 0 && key(heap[j]) < key(heap[Parent(j)])
        invariant 0 <= j <= index
        invariant |heap| == |old(heap)| && multiset(heap) == multiset(old(heap))
        invariant UpInv(heap, key, j, index) && ParentBound(heap, key, j)
        invariant j == index ==> heap == old(heap)
        decreases j
      {
        UpStep(heap, key, j, index);
        heap := Swap(heap, j, Parent(j));
        j := Parent(j);
      }
      UpDone(heap, key, j, index);
      if j == index && ChildrenOk(heap, key, index) {
        AboveChildren(heap, key, index);
      }
      if j != index && index > 0 {
        forall c | 0 < c < |heap| && Parent(c) == index
          ensures key(heap[Parent(index)]) <= key(heap[c])
        {
          assert key(heap[Parent(index)]) <= key(heap[index]);
        }
      }
    }

    /**
     * `heapify_down(index)`: moves the element at `index` down, swapping it with
     * its smaller child, until neither child ranks below it. `lo` is the root of
     * the subtree being repaired.
     */
    method HeapifyDown(index: int, ghost lo: int)
      requires 0 <= lo <= index < |heap|
      requires DownInv(heap, key, lo, index) && (index != lo ==> lo <= Parent(index) && ParentBound(heap, key, index))
      modifies this
      ensures |heap| == |old(heap)| && multiset(heap) == multiset(old(heap))
      ensures HeapFrom(heap, key, lo)
    {
      var size := |heap|;
      var j := index;
      while true
        invariant lo <= j < size == |heap|
        invariant multiset(heap) == multiset(old(heap))
        invariant DownInv(heap, key, lo, j) && (j != lo ==> lo <= Parent(j) && ParentBound(heap, key, j))
        decreases size - j
      {
        var smallest := j;
        var left := 2 * j + 1;
        var right := 2 * j + 2;
        if left < size && key(heap[left]) < key(heap[smallest]) {
          smallest := left;
        }
        if right < size && key(heap[right]) < key(heap[smallest]) {
          smallest := right;
        }
        if smallest == j {
          DownDone(heap, key, lo, j);
          return;
        }
        DownStep(heap, key, lo, j, smallest);
        heap := Swap(heap, j, smallest);
        j := smallest;
      }
    }

    /** `insert(value)`. */
    method Insert(value: T)
      requires Valid()
      modifies this
      ensures Valid()
      ensures multiset(heap) == multiset(old(heap)) + multiset{value} && |heap| == |old(heap)| + 1
    {
      AppendPrepared(heap, key, value);
      heap := heap + [value];
      HeapifyUp(|heap| - 1);
    }

    /** `peek()`: the root, a least-ranked element; `None` stands for `underflow_error`. */
    method Peek() returns (top: Option<T>)
      requires Valid()
      ensures top.None? <==> heap == []
      ensures top.Some? ==> top.value in multiset(heap) && Least(top.value, multiset(heap), key)
    {
      if heap == [] {
        return None;
      }
      RootIsMinAll(heap, key);
      top := Some(heap[0]);
    }

    /** `extract_min()`: removes and returns the root; `None` stands for `underflow_error`. */
    method ExtractMin() returns (min: Option<T>)
      requires Valid()
      modifies this
      ensures Valid()
      ensures min.None? <==> old(heap) == []
      ensures min.None? ==> heap == old(heap)
      ensures min.Some? ==> min.value == old(heap)[0] && Least(min.value, multiset(old(heap)), key)
      ensures min.Some? ==> multiset(heap) + multiset{min.value} == multiset(old(heap)) && |heap| == |old(heap)| - 1
    {
      if heap == [] {
        return None;
      }
      RootIsMinAll(heap, key);
      var minValue := heap[0];
      if |heap| > 1 {
        RootReplacedPrepared(heap, key);
      }
      FillMultiset(heap, 0);
      if |heap| == 1 {
        FillLast(heap, key);
      }
      heap := Fill(heap, 0);
      if heap != [] {
        HeapifyDown(0, 0);
      }
      min := Some(minValue);
    }

    /** `update(index, new_value)`: `false` stands for `out_of_range`. */
    method Update(index: int, newValue: T) returns (ok: bool)
      requires Valid()
      modifies this
      ensures Valid()
      ensures ok <==> 0 <= index < |old(heap)|
      ensures !ok ==> heap == old(heap)
      ensures ok ==> multiset(heap) == multiset(old(heap)) - multiset{old(heap)[index]} + multiset{newValue}
      ensures |heap| == |old(heap)|
    {
      if index < 0 || index >= |heap| {
        return false;
      }
      var oldValue := heap[index];
      ReplacedPrepared(heap, key, index, newValue);
      heap := heap[index := newValue];
      if key(newValue) < key(oldValue) {
        HeapifyUp(index);
      } else {
        HeapifyDown(index, 0);
      }
      return true;
    }

    /** The two repairs `remove` runs on the refilled hole: `heapify_up`, then `heapify_down`, at the same index. */
    method Resettle(index: int)
      requires 0 <= index < |heap|
      requires UpInv(heap, key, index, index) && ParentBound(heap, key, index)
      modifies this
      ensures Valid()
      ensures |heap| == |old(heap)| && multiset(heap) == multiset(old(heap))
    {
      HeapifyUp(index);
      AboveIsDownInv(heap, key, index);
      HeapifyDown(index, 0);
    }

    /** `remove(index)`: the last element fills the gap and is moved up or down; `false` stands for `out_of_range`. */
    method Remove(index: int) returns (ok: bool)
      requires Valid()
      modifies this
      ensures Valid()
      ensures ok <==> 0 <= index < |old(heap)|
      ensures !ok ==> heap == old(heap)
      ensures ok ==> multiset(heap) == multiset(old(heap)) - multiset{old(heap)[index]} && |heap| == |old(heap)| - 1
    {
      if index < 0 || index >= |heap| {
        return false;
      }
      FillMultiset(heap, index);
      if index < |heap| - 1 {
        FillPrepared(heap, key, index);
      } else {
        FillLast(heap, key);
      }
      heap := Fill(heap, index);
      if index < |heap| {
        Resettle(index);
      }
      return true;
    }

    /** `get_top_k(k)`: extracts from a copy, so the heap itself is unchanged. */
    method GetTopK(k: int) returns (result: seq<T>)
      requires Valid()
      ensures |result| == if k <= 0 then 0 else if k < |heap| then k else |heap|
      ensures SortedBy(result, key)
      ensures multiset(result) <= multiset(heap)
      ensures AllBelow(result, multiset(heap) - multiset(result), key)
    {
      var temp := new MinHeap(key);
      temp.heap := heap;
      result := [];
      var i := 0;
      while i < k && temp.heap != []
        invariant fresh(temp) && temp.key == key && temp.Valid()
        invariant 0 <= i && (i <= k || i == 0)
        invariant i == |result| && i + |temp.heap| == |heap|
        invariant multiset(result) + multiset(temp.heap) == multiset(heap)
        invariant SortedBy(result, key) && AllBelow(result, multiset(temp.heap), key)
        decreases |temp.heap|
      {
        ghost var rest := temp.heap;
        var m := temp.ExtractMin();
        TopKStep(key, result, multiset(rest), m.value, multiset(temp.heap));
        result := result + [m.value];
        i := i + 1;
      }
      TopKDone(key, result, multiset(temp.heap), multiset(heap));
    }

    /** `empty()`. */
    function Empty(): (b: bool)
      reads this
      ensures b <==> |heap| == 0
    {
      heap == []
    }

    /** `clear()`. */
    method Clear()
      modifies this
      ensures Valid() && heap == []
    {
      heap := [];
    }
  }

  /** A maintenance alert; only the fields the ordering and the queue see are kept. */
  datatype MaintenanceAlert = MaintenanceAlert(vehicleId: nat, alertId: nat, priority: nat, dueTimestamp: nat, severity: nat)

  /** `MaintenanceAlert::operator<`. */
  predicate AlertLess(a: MaintenanceAlert, b: MaintenanceAlert)
  {
    a.priority < b.priority
  }

  /** The rank the alert queue orders by. */
  function AlertKey(a: MaintenanceAlert): int
  {
    a.priority
  }

  /** Alerts are ordered by priority only: the rank induces exactly `operator<`, and alerts of equal priority are unordered. */
  lemma AlertOrderIsPriority(a: MaintenanceAlert, b: MaintenanceAlert)
    ensures AlertLess(a, b) <==> AlertKey(a) < AlertKey(b)
    ensures a.priority == b.priority ==> !AlertLess(a, b) && !AlertLess(b, a)
  {
  }
}
