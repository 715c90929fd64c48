/**
 * The bounded stack behind the undo and navigation histories: a vector that
 * drops its bottom (oldest) element when a push finds it full.
 */
module Stack {
  import opened Wrappers

  /** The contents after `push(item)`: the bottom element is erased first when the stack is full. */
  function Pushed<T>(data: seq<T>, maxSize: nat, item: T): seq<T>
    requires 0 < maxSize
  {
    (if |data| >= maxSize then data[1..] else data) + [item]
  }

  /** The contents after pushing every element of `items` in turn. */
  function PushedAll<T>(data: seq<T>, maxSize: nat, items: seq<T>): seq<T>
    requires 0 < maxSize
    decreases |items|
  {
    if items == [] then data else PushedAll(Pushed(data, maxSize, items[0]), maxSize, items[1..])
  }

  /** The element `top` and `pop` return: the last one, or none on an empty stack. */
  function Last<T>(data: seq<T>): (r: Option<T>)
    ensures r.None? <==> data == []
  {
    if data == [] then None else Some(data[|data| - 1])
  }

  /** A push never takes the stack past its bound, keeps the other elements in order, and puts the item on top. */
  lemma PushBounded<T>(data: seq<T>, maxSize: nat, item: T)
    requires 0 < maxSize && |data| <= maxSize
    ensures |Pushed(data, maxSize, item)| <= maxSize
    ensures |Pushed(data, maxSize, item)| == if |data| == maxSize then maxSize else |data| + 1
    ensures Last(Pushed(data, maxSize, item)) == Some(item)
  {
  }

  /** Popping right after a push gives the item back and leaves what the push kept underneath. */
  lemma PushThenPop<T>(data: seq<T>, maxSize: nat, item: T)
    requires 0 < maxSize
    ensures var r := Pushed(data, maxSize, item);
      r[..|r| - 1] == if |data| >= maxSize then data[1..] else data
  {
  }

  /** A stack of bound `maxSize` holds the last `maxSize` elements ever pushed onto it, oldest at the bottom. */
  lemma {:induction false} PushedAllKeepsLatest<T>(data: seq<T>, maxSize: nat, items: seq<T>)
    requires 0 < maxSize && |data| <= maxSize
    ensures var all := data + items;
      PushedAll(data, maxSize, items) == all[(if |all| > maxSize then |all| - maxSize else 0)..]
    decreases |items|
  {
    var all := data + items;
    if items == [] {
      assert all == data;
    } else {
      var next := Pushed(data, maxSize, items[0]);
      PushBounded(data, maxSize, items[0]);
      PushedAllKeepsLatest(next, maxSize, items[1..]);
      var all' := next + items[1..];
      var drop := if |all| > maxSize then |all| - maxSize else 0;
      var drop' := if |all'| > maxSize then |all'| - maxSize else 0;
      if |data| >= maxSize {
        assert all' == all[1..];
        assert all'[drop'..] == all[drop..];
      } else {
        assert all' == all;
      }
    }
  }

  /** Up to its bound, a fresh stack lists the pushed elements bottom to top, which is what `get_all` returns. */
  lemma PushedAllFresh<T>(maxSize: nat, items: seq<T>)
    requires 0 < maxSize && |items| <= maxSize
    ensures PushedAll([], maxSize, items) == items
  {
    PushedAllKeepsLatest([], maxSize, items);
    assert [] + items == items;
  }

  class Stack<T> {
    /** The elements, bottom first (`data_`). */
    var data: seq<T>
    /** `max_size_`. */
    const maxSize: nat

    ghost predicate Valid()
      reads this
    {
      0 < maxSize && |data| <= maxSize
    }

    /** `Stack(max_size)`. A bound of 0 is excluded: the first push would erase from an empty vector. */
    constructor (maxSize: nat)
      requires 0 < maxSize
      ensures Valid() && this.maxSize == maxSize && data == []
    {
      this.maxSize := maxSize;
      data := [];
    }

    /** `push(item)`. */
    method Push(item: T)
      requires Valid()
      modifies this
      ensures Valid()
      ensures data == Pushed(old(data), maxSize, item)
    {
      if |data| >= maxSize {
        data := data[1..];
      }
      data := data + [item];
    }

    /** `pop()`: `None` stands for the `underflow_error` on an empty stack. */
    method Pop() returns (item: Option<T>)
      requires Valid()
      modifies this
      ensures Valid()
      ensures item == Last(old(data))
      ensures data == if old(data) == [] then old(data) else old(data)[..|old(data)| - 1]
    {
      if data == [] {
        return None;
      }
      item := Some(data[|data| - 1]);
      data := data[..|data| - 1];
    }

    /** `top()`: what `pop` would return, without removing it. */
    method Top() returns (item: Option<T>)
      ensures item == Last(data)
    {
      if data == [] {
        return None;
      }
      item := Some(data[|data| - 1]);
    }

    /** `empty()`. */
    function Empty(): (b: bool)
      reads this
      ensures b <==> |data| == 0
    {
      data == []
    }

    /** `clear()`. */
    method Clear()
      requires Valid()
      modifies this
      ensures Valid() && data == []
    {
      data := [];
    }

    /** `get_all()`: the elements bottom to top. */
    method GetAll() returns (all: seq<T>)
      ensures all == data
    {
      all := data;
    }
  }
}
