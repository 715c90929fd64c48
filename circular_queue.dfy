/**
 * The bounded ring buffer the request server queues work in: a fixed buffer
 * of `capacity` slots with a head index, a tail index and a size. Only the
 * non-blocking operations are modelled.
 */
module CircularQueue {
  import opened Wrappers

  /** The slot after `i` in a ring of `capacity` slots. */
  lemma NextSlot(i: int, capacity: int)
    requires 0 <= i < capacity
    ensures (i + 1) % capacity == if i + 1 == capacity then 0 else i + 1
  {
  }

  /** The slot `k` places after `head`, written without `%`. */
  function Slot(head: int, k: int, capacity: int): int
  {
    if head + k < capacity then head + k else head + k - capacity
  }

  /** `Slot` is the C `%` the source advances its indices with. */
  lemma SlotIsMod(head: int, k: int, capacity: int)
    requires 0 <= head < capacity && 0 <= k <= capacity
    ensures Slot(head, k, capacity) == (head + k) % capacity
  {
    if head + k < capacity {
      ModSmall(head + k, capacity);
    } else {
      ModWrap(head + k, capacity);
    }
  }

  lemma ModSmall(x: int, c: int)
    requires 0 <= x < c
    ensures x % c == x
  {
  }

  lemma ModWrap(x: int, c: int)
    requires c <= x < 2 * c
    ensures x % c == x - c
  {
  }

  class CircularQueue<T(0)> {
    /** `buffer_`, resized to `capacity` default elements. */
    var buffer: array<T>
    var head: int
    var tail: int
    const capacity: int
    var size: int
    var shutdown: bool

    /** The shape the constructor establishes and every operation keeps. */
    ghost predicate Valid()
      reads this
    {
      buffer.Length == capacity && 0 <= size <= capacity
      && 0 <= head < capacity && 0 <= tail < capacity
      && tail == (head + size) % capacity
    }

    /** The queued items, oldest first: `size` slots starting at `head`, wrapping around. */
    function Contents(): (items: seq<T>)
      requires Valid()
      reads this, buffer
      ensures |items| == size
    {
      var b, h, n := buffer, head, size;
      seq(n, k requires 0 <= k < n reads b => b[Slot(h, k, capacity)])
    }

    /** `CircularQueue(capacity)`. A capacity of 0 is excluded: every index step would take `% 0`. */
    constructor (capacity: int)
      requires capacity > 0
      ensures Valid() && fresh(buffer)
      ensures this.capacity == capacity && head == 0 && tail == 0 && size == 0 && !shutdown
    {
      this.capacity := capacity;
      buffer := new T[capacity];
      head, tail, size := 0, 0, 0;
      shutdown := false;
    }

    /** `try_enqueue(item)`: refused when full or shut down; otherwise the item goes in at `tail`. */
    method TryEnqueue(item: T) returns (ok: bool)
      requires Valid()
      modifies this, buffer
      ensures Valid() && buffer == old(buffer) && shutdown == old(shutdown) && head == old(head)
      ensures ok <==> old(size) < capacity && !shutdown
      ensures ok ==> size == old(size) + 1 && Contents() == old(Contents()) + [item]
      ensures !ok ==> size == old(size) && tail == old(tail) && buffer[..] == old(buffer[..])
    {
      if size >= capacity || shutdown {
        return false;
      }
      ghost var before := Contents();
      SlotIsMod(head, size, capacity);
      buffer[tail] := item;
      NextSlot(tail, capacity);
      tail := (tail + 1) % capacity;
      size := size + 1;
      SlotIsMod(head, size, capacity);
      assert tail == (head + size) % capacity;
      forall k | 0 <= k < size
        ensures Contents()[k] == (before + [item])[k]
      {
        if k < size - 1 {
          assert Slot(head, k, capacity) != Slot(head, size - 1, capacity);
        }
      }
      return true;
    }

    /** `try_dequeue(item)`: refused when empty, shut down or not; otherwise the item at `head` comes out. */
    method TryDequeue() returns (item: Option<T>)
      requires Valid()
      modifies this
      ensures Valid() && buffer == old(buffer) && shutdown == old(shutdown) && tail == old(tail)
      ensures item.None? <==> old(size) == 0
      ensures item.Some? ==> item.value == old(Contents())[0] && size == old(size) - 1 && Contents() == old(Contents())[1..]
      ensures item.None? ==> head == old(head) && size == old(size)
    {
      if size == 0 {
        return None;
      }
      ghost var before := Contents();
      item := Some(buffer[head]);
      NextSlot(head, capacity);
      var h := head;
      head := (head + 1) % capacity;
      size := size - 1;
      SlotIsMod(h, size + 1, capacity);
      SlotIsMod(head, size, capacity);
      forall k | 0 <= k < size
        ensures Contents()[k] == before[k + 1]
      {
      }
    }

    /** `peek(item)`: the front item, with no change. */
    method Peek() returns (item: Option<T>)
      requires Valid()
      ensures item.None? <==> size == 0
      ensures item.Some? ==> item.value == Contents()[0]
    {
      if size == 0 {
        return None;
      }
      item := Some(buffer[head]);
    }

    /** `empty()`. */
    function Empty(): (b: bool)
      requires Valid()
      reads this, buffer
      ensures b <==> Contents() == []
    {
      size == 0
    }

    /** `full()`: no room is left for `try_enqueue`. */
    function Full(): (b: bool)
      requires Valid()
      reads this, buffer
      ensures b <==> |Contents()| == capacity
    {
      size >= capacity
    }

    /** `shutdown()`: later enqueues are refused; the contents stay. */
    method Shutdown()
      requires Valid()
      modifies this
      ensures Valid() && shutdown
      ensures buffer == old(buffer) && head == old(head) && tail == old(tail) && size == old(size)
    {
      shutdown := true;
    }

    /** `clear()`: the indices and size go back to 0; the slots keep their old items, and the shutdown flag stays. */
    method Clear()
      requires Valid()
      modifies this
      ensures Valid() && Contents() == []
      ensures head == 0 && tail == 0 && size == 0 && buffer == old(buffer) && shutdown == old(shutdown)
    {
      head, tail, size := 0, 0, 0;
    }
  }
}
