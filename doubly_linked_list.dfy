/**
 * The file-backed doubly linked list that keeps each owner's history of
 * record references. The file is a metadata block (magic tag, head, tail,
 * node count, owner) followed by the nodes, each written at the end-of-file
 * offset it was allocated at; nothing is ever reclaimed.
 *
 * The file is modelled as a map from byte offset to the node stored there and
 * the offset of its end. A list is a ghost sequence of node offsets, head to
 * tail, that the stored `prev`/`next` offsets and the metadata agree with.
 */
module DoublyLinkedList {
  import opened Wrappers

  /** 2^64: `uint64_t` arithmetic wraps modulo this. */
  const U64: nat := 0x1_0000_0000_0000_0000
  /** `sizeof(ListMetadata)`: the 8-byte magic, four 64-bit fields and 4064 reserved bytes. */
  const MetaSize: nat := 4104
  /** `sizeof(ListNode)`: four 64-bit fields, a 32-bit size, a type byte and 11 reserved bytes. */
  const NodeSize: nat := 48
  /** The tag `open` expects at the start of the file. */
  const Magic: string := "DLIST001"

  /** `ListNode`: neighbour offsets (0 for none) and the referenced record. */
  datatype ListNode = ListNode(prev: nat, next: nat, dataOffset: nat, timestamp: nat, dataSize: nat, nodeType: nat)

  /** A default-constructed `ListNode`: every field 0. */
  const DefaultNode := ListNode(0, 0, 0, 0, 0, 0)

  /** `ListMetadata`. */
  datatype ListMetadata = ListMetadata(magic: string, head: nat, tail: nat, nodeCount: nat, ownerId: nat)

  /** A default-constructed `ListMetadata`: the magic tag and every field 0. */
  const DefaultMetadata := ListMetadata(Magic, 0, 0, 0, 0)

  /** What a node stores apart from its links. */
  datatype Entry = Entry(dataOffset: nat, dataSize: nat, nodeType: nat, timestamp: nat)

  function EntryOf(n: ListNode): Entry
  {
    Entry(n.dataOffset, n.dataSize, n.nodeType, n.timestamp)
  }

  /** The node a successful read at `o` yields; a default node where nothing was written. */
  function Get(nodes: map<nat, ListNode>, o: nat): ListNode
  {
    if o in nodes then nodes[o] else DefaultNode
  }

  /** The file after re-writing the node at `at` with `prev` set to `v`. */
  function SetPrev(nodes: map<nat, ListNode>, at: nat, v: nat): map<nat, ListNode>
  {
    nodes[at := Get(nodes, at).(prev := v)]
  }

  /** The file after re-writing the node at `at` with `next` set to `v`. */
  function SetNext(nodes: map<nat, ListNode>, at: nat, v: nat): map<nat, ListNode>
  {
    nodes[at := Get(nodes, at).(next := v)]
  }

  /** The end of the file after writing a node at `o`. */
  function Extent(fileEnd: nat, o: nat): nat
  {
    if o + NodeSize > fileEnd then o + NodeSize else fileEnd
  }

  function NextIn(ord: seq<nat>, i: int): nat
    requires 0 <= i < |ord|
  {
    if i + 1 < |ord| then ord[i + 1] else 0
  }

  function PrevIn(ord: seq<nat>, i: int): nat
    requires 0 <= i < |ord|
  {
    if i > 0 then ord[i - 1] else 0
  }

  /** The `i`-th node of the list lies inside the file and links to its neighbours in `ord`. */
  ghost predicate LinkedAt(nodes: map<nat, ListNode>, ord: seq<nat>, i: int, fileEnd: nat)
    requires 0 <= i < |ord|
  {
    0 < ord[i] && ord[i] + NodeSize <= fileEnd && ord[i] in nodes
    && nodes[ord[i]].next == NextIn(ord, i) && nodes[ord[i]].prev == PrevIn(ord, i)
  }

  ghost predicate Distinct(ord: seq<nat>)
  {
    forall i, j :: 0 <= i < j < |ord| ==> ord[i] != ord[j]
  }

  /** `ord` is the list the file and the head and tail offsets describe, head to tail. */
  ghost predicate Links(nodes: map<nat, ListNode>, head: nat, tail: nat, ord: seq<nat>, fileEnd: nat)
  {
    MetaSize <= fileEnd && Distinct(ord)
    && (if ord == [] then head == 0 && tail == 0 else head == ord[0] && tail == ord[|ord| - 1])
    && forall i :: 0 <= i < |ord| ==> LinkedAt(nodes, ord, i, fileEnd)
  }

  /** The `i`-th node of `ord` can be read and its `next` offset leads to the `i + 1`-th (0 after the last). */
  ghost predicate ForwardAt(nodes: map<nat, ListNode>, ord: seq<nat>, i: int)
    requires 0 <= i < |ord|
  {
    0 < ord[i] && ord[i] in nodes && nodes[ord[i]].next == NextIn(ord, i)
  }

  /** Following `next` from `head` visits exactly the offsets of `ord` and then reaches 0. */
  ghost predicate ForwardChain(nodes: map<nat, ListNode>, head: nat, ord: seq<nat>)
  {
    (if ord == [] then head == 0 else head == ord[0])
    && forall i :: 0 <= i < |ord| ==> ForwardAt(nodes, ord, i)
  }

  /** The `i`-th node of `ord` can be read and its `prev` offset leads to the `i - 1`-th (0 before the first). */
  ghost predicate BackwardAt(nodes: map<nat, ListNode>, ord: seq<nat>, i: int)
    requires 0 <= i < |ord|
  {
    0 < ord[i] && ord[i] in nodes && nodes[ord[i]].prev == PrevIn(ord, i)
  }

  /** Following `prev` from `tail` visits the offsets of `ord` backwards and then reaches 0. */
  ghost predicate BackwardChain(nodes: map<nat, ListNode>, tail: nat, ord: seq<nat>)
  {
    (if ord == [] then tail == 0 else tail == ord[|ord| - 1])
    && forall i :: 0 <= i < |ord| ==> BackwardAt(nodes, ord, i)
  }

  /** A well-linked list can be walked both ways. */
  lemma LinksChains(nodes: map<nat, ListNode>, head: nat, tail: nat, ord: seq<nat>, fileEnd: nat)
    requires Links(nodes, head, tail, ord, fileEnd)
    ensures ForwardChain(nodes, head, ord) && BackwardChain(nodes, tail, ord)
  {
    forall i | 0 <= i < |ord|
      ensures ForwardAt(nodes, ord, i) && BackwardAt(nodes, ord, i)
    {
      assert LinkedAt(nodes, ord, i, fileEnd);
    }
  }

  /** The nodes of `ord`, head to tail. */
  function Nodes(nodes: map<nat, ListNode>, ord: seq<nat>): (r: seq<ListNode>)
    ensures |r| == |ord|
  {
    seq(|ord|, i requires 0 <= i < |ord| => Get(nodes, ord[i]))
  }

  /** The nodes of `ord`, tail to head. */
  function NodesBackward(nodes: map<nat, ListNode>, ord: seq<nat>): (r: seq<ListNode>)
    ensures |r| == |ord|
  {
    seq(|ord|, i requires 0 <= i < |ord| => Get(nodes, ord[|ord| - 1 - i]))
  }

  /** The entries of `ord`, head to tail. */
  function Contents(nodes: map<nat, ListNode>, ord: seq<nat>): (r: seq<Entry>)
    ensures |r| == |ord|
  {
    seq(|ord|, i requires 0 <= i < |ord| => EntryOf(Get(nodes, ord[i])))
  }

  /** Every node of a list lies below the end of the file, so a node allocated there is new. */
  lemma BelowEnd(nodes: map<nat, ListNode>, head: nat, tail: nat, ord: seq<nat>, fileEnd: nat)
    requires Links(nodes, head, tail, ord, fileEnd)
    ensures forall i :: 0 <= i < |ord| ==> ord[i] + NodeSize <= fileEnd
    ensures head != 0 ==> ord != [] && head + NodeSize <= fileEnd
    ensures tail != 0 ==> ord != [] && tail + NodeSize <= fileEnd
    ensures ord != [] ==> head == ord[0] != 0 && tail == ord[|ord| - 1] != 0
  {
    forall i | 0 <= i < |ord|
      ensures ord[i] + NodeSize <= fileEnd
    {
      assert LinkedAt(nodes, ord, i, fileEnd);
    }
    if ord != [] {
      assert LinkedAt(nodes, ord, 0, fileEnd);
      assert LinkedAt(nodes, ord, |ord| - 1, fileEnd);
    }
  }

  /** After a head insertion, the old `j - 1`-th node is the `j`-th, still linked, with its entry unchanged. */
  lemma HeadShift(nodes: map<nat, ListNode>, ord: seq<nat>, fileEnd: nat, node: ListNode, j: int)
    requires 1 <= j <= |ord| && LinkedAt(nodes, ord, j - 1, fileEnd) && LinkedAt(nodes, ord, 0, fileEnd)
    requires j > 1 ==> ord[j - 1] != ord[0]
    ensures var n2 := SetPrev(nodes, ord[0], fileEnd)[fileEnd := node];
      LinkedAt(n2, [fileEnd] + ord, j, fileEnd + NodeSize) && EntryOf(Get(n2, ord[j - 1])) == EntryOf(Get(nodes, ord[j - 1]))
  {
    var ord' := [fileEnd] + ord;
    assert ord'[j] == ord[j - 1];
    assert j + 1 < |ord'| ==> ord'[j + 1] == ord[j];
    assert ord'[j - 1] == if j == 1 then fileEnd else ord[j - 2];
  }

  /** After a tail insertion, each old node keeps its place and links, with its entry unchanged. */
  lemma TailShift(nodes: map<nat, ListNode>, ord: seq<nat>, fileEnd: nat, node: ListNode, j: int)
    requires 0 <= j < |ord| && LinkedAt(nodes, ord, j, fileEnd) && LinkedAt(nodes, ord, |ord| - 1, fileEnd)
    requires j < |ord| - 1 ==> ord[j] != ord[|ord| - 1]
    ensures var n2 := SetNext(nodes, ord[|ord| - 1], fileEnd)[fileEnd := node];
      LinkedAt(n2, ord + [fileEnd], j, fileEnd + NodeSize) && EntryOf(Get(n2, ord[j])) == EntryOf(Get(nodes, ord[j]))
  {
    var ord' := ord + [fileEnd];
    assert ord'[j] == ord[j];
    assert ord'[j + 1] == if j + 1 < |ord| then ord[j + 1] else fileEnd;
    assert j > 0 ==> ord'[j - 1] == ord[j - 1];
  }

  /**
   * Writing a new node at the end of the file, linked before the head, and
   * pointing the old head back at it, gives the list with the new node first.
   */
  lemma HeadInserted(nodes: map<nat, ListNode>, head: nat, tail: nat, ord: seq<nat>, fileEnd: nat, node: ListNode)
    requires Links(nodes, head, tail, ord, fileEnd) && node.prev == 0 && node.next == head
    ensures var n2 := (if head != 0 then SetPrev(nodes, head, fileEnd) else nodes)[fileEnd := node];
      && Links(n2, fileEnd, if head != 0 then tail else fileEnd, [fileEnd] + ord, fileEnd + NodeSize)
      && Contents(n2, [fileEnd] + ord) == [EntryOf(node)] + Contents(nodes, ord)
    ensures head != 0 ==> Extent(fileEnd, head) == fileEnd
  {
    var n2 := (if head != 0 then SetPrev(nodes, head, fileEnd) else nodes)[fileEnd := node];
    var ord' := [fileEnd] + ord;
    var e2 := fileEnd + NodeSize;
    BelowEnd(nodes, head, tail, ord, fileEnd);
    var c, c' := Contents(nodes, ord), Contents(n2, ord');
    forall j | 0 <= j < |ord'|
      ensures LinkedAt(n2, ord', j, e2) && c'[j] == ([EntryOf(node)] + c)[j]
    {
      if j == 0 {
        assert NextIn(ord', 0) == head;
      } else {
        assert LinkedAt(nodes, ord, j - 1, fileEnd) && LinkedAt(nodes, ord, 0, fileEnd);
        HeadShift(nodes, ord, fileEnd, node, j);
      }
    }
    forall a, b | 0 <= a < b < |ord'|
      ensures ord'[a] != ord'[b]
    {
      assert ord'[b] == ord[b - 1];
      if a > 0 {
        assert ord'[a] == ord[a - 1];
      }
    }
    assert Distinct(ord');
    if ord != [] {
      assert ord'[|ord'| - 1] == ord[|ord| - 1];
    }
    assert c' == [EntryOf(node)] + c;
  }

  /**
   * Writing a new node at the end of the file, linked after the tail, and
   * pointing the old tail forward at it, gives the list with the new node last.
   */
  lemma TailInserted(nodes: map<nat, ListNode>, head: nat, tail: nat, ord: seq<nat>, fileEnd: nat, node: ListNode)
    requires Links(nodes, head, tail, ord, fileEnd) && node.prev == tail && node.next == 0
    ensures var n2 := (if tail != 0 then SetNext(nodes, tail, fileEnd) else nodes)[fileEnd := node];
      && Links(n2, if tail != 0 then head else fileEnd, fileEnd, ord + [fileEnd], fileEnd + NodeSize)
      && Contents(n2, ord + [fileEnd]) == Contents(nodes, ord) + [EntryOf(node)]
    ensures tail != 0 ==> Extent(fileEnd, tail) == fileEnd
  {
    var n2 := (if tail != 0 then SetNext(nodes, tail, fileEnd) else nodes)[fileEnd := node];
    var ord' := ord + [fileEnd];
    var e2 := fileEnd + NodeSize;
    BelowEnd(nodes, head, tail, ord, fileEnd);
    var c, c' := Contents(nodes, ord), Contents(n2, ord');
    forall j | 0 <= j < |ord'|
      ensures LinkedAt(n2, ord', j, e2) && c'[j] == (c + [EntryOf(node)])[j]
    {
      if j == |ord| {
        assert PrevIn(ord', j) == tail;
      } else {
        assert LinkedAt(nodes, ord, j, fileEnd) && LinkedAt(nodes, ord, |ord| - 1, fileEnd);
        TailShift(nodes, ord, fileEnd, node, j);
      }
    }
    forall a, b | 0 <= a < b < |ord'|
      ensures ord'[a] != ord'[b]
    {
      assert ord'[a] == ord[a];
      if b < |ord| {
        assert ord'[b] == ord[b];
      }
    }
    assert Distinct(ord');
    if ord != [] {
      assert ord'[0] == ord[0];
    }
    assert c' == c + [EntryOf(node)];
  }

  /** The head, tail and file after unlinking the node at `o` the way `remove_node` does. */
  function Unlinked(nodes: map<nat, ListNode>, head: nat, tail: nat, o: nat): (map<nat, ListNode>, nat, nat)
  {
    var n := Get(nodes, o);
    var n1 := if n.prev != 0 then SetNext(nodes, n.prev, n.next) else nodes;
    var h := if n.prev != 0 then head else n.next;
    var n2 := if n.next != 0 then SetPrev(n1, n.next, n.prev) else n1;
    var t := if n.next != 0 then tail else n.prev;
    (n2, h, t)
  }

  /** After unlinking `ord[i]`, the node at position `k` of the old list (now at `j`) is linked to its new neighbours. */
  lemma RemovedAt(nodes: map<nat, ListNode>, head: nat, tail: nat, ord: seq<nat>, fileEnd: nat, i: int, j: int)
    requires Distinct(ord) && 0 <= i < |ord| && 0 <= j < |ord| - 1
    requires LinkedAt(nodes, ord, i, fileEnd)
    requires LinkedAt(nodes, ord, if j < i then j else j + 1, fileEnd)
    ensures var u := Unlinked(nodes, head, tail, ord[i]);
      LinkedAt(u.0, ord[..i] + ord[i + 1..], j, fileEnd)
      && EntryOf(Get(u.0, ord[if j < i then j else j + 1])) == EntryOf(Get(nodes, ord[if j < i then j else j + 1]))
  {
    var ord' := ord[..i] + ord[i + 1..];
    var k := if j < i then j else j + 1;
    assert ord'[j] == ord[k];
    assert ord[k] != ord[i];
    assert j > 0 ==> ord'[j - 1] == ord[if j - 1 < i then j - 1 else j];
    assert j + 1 < |ord'| ==> ord'[j + 1] == ord[if j + 1 < i then j + 1 else j + 2];
    assert i > 0 ==> (ord[k] == ord[i - 1] <==> k == i - 1);
    assert i + 1 < |ord| ==> (ord[k] == ord[i + 1] <==> k == i + 1);
  }

  /** Dropping one offset from a list of distinct offsets leaves them distinct. */
  lemma DistinctRemoved(ord: seq<nat>, i: int)
    requires Distinct(ord) && 0 <= i < |ord|
    ensures Distinct(ord[..i] + ord[i + 1..])
  {
    var ord' := ord[..i] + ord[i + 1..];
    forall a, b | 0 <= a < b < |ord'|
      ensures ord'[a] != ord'[b]
    {
      assert ord'[a] == ord[if a < i then a else a + 1] && ord'[b] == ord[if b < i then b else b + 1];
    }
  }

  /** Unlinking the `i`-th node of a list gives the list without it, every other entry kept in order. */
  lemma Removed(nodes: map<nat, ListNode>, head: nat, tail: nat, ord: seq<nat>, fileEnd: nat, i: int)
    requires Links(nodes, head, tail, ord, fileEnd) && 0 <= i < |ord|
    ensures var u := Unlinked(nodes, head, tail, ord[i]);
      && Links(u.0, u.1, u.2, ord[..i] + ord[i + 1..], fileEnd)
      && Contents(u.0, ord[..i] + ord[i + 1..]) == Contents(nodes, ord)[..i] + Contents(nodes, ord)[i + 1..]
  {
    var u := Unlinked(nodes, head, tail, ord[i]);
    var ord' := ord[..i] + ord[i + 1..];
    var c, c' := Contents(nodes, ord), Contents(u.0, ord');
    assert LinkedAt(nodes, ord, i, fileEnd);
    BelowEnd(nodes, head, tail, ord, fileEnd);
    if i > 0 {
      assert LinkedAt(nodes, ord, i - 1, fileEnd);
    }
    if i + 1 < |ord| {
      assert LinkedAt(nodes, ord, i + 1, fileEnd);
    }
    forall j | 0 <= j < |ord'|
      ensures LinkedAt(u.0, ord', j, fileEnd) && c'[j] == (c[..i] + c[i + 1..])[j]
    {
      assert LinkedAt(nodes, ord, if j < i then j else j + 1, fileEnd);
      RemovedAt(nodes, head, tail, ord, fileEnd, i, j);
    }
    DistinctRemoved(ord, i);
    if ord' != [] {
      assert ord'[0] == ord[if i == 0 then 1 else 0];
      assert ord'[|ord'| - 1] == ord[if i == |ord| - 1 then |ord| - 2 else |ord| - 1];
    }
    assert c' == c[..i] + c[i + 1..];
  }

  /** An empty list has node count 0 and no head, and a non-empty one a head. */
  lemma EmptyIffNoNodes(nodes: map<nat, ListNode>, m: ListMetadata, ord: seq<nat>, fileEnd: nat)
    requires Links(nodes, m.head, m.tail, ord, fileEnd) && m.nodeCount == |ord|
    ensures m.nodeCount == 0 <==> m.head == 0
    ensures m.nodeCount == 0 <==> ord == []
  {
    if ord != [] {
      assert LinkedAt(nodes, ord, 0, fileEnd);
    }
  }

  /** What `get_range(s, e)` collects from the nodes `ns`: the nodes in `[s, e]`, up to the first one older than `s`. */
  function RangeOf(ns: seq<ListNode>, s: nat, e: nat): seq<ListNode>
  {
    if ns == [] then []
    else
      (if s <= ns[0].timestamp <= e then [ns[0]] else [])
      + (if ns[0].timestamp < s then [] else RangeOf(ns[1..], s, e))
  }

  /** The nodes of `ns` with a timestamp in `[s, e]`, in order. */
  function InWindow(ns: seq<ListNode>, s: nat, e: nat): seq<ListNode>
  {
    if ns == [] then [] else (if s <= ns[0].timestamp <= e then [ns[0]] else []) + InWindow(ns[1..], s, e)
  }

  /** Timestamps do not increase from head to tail, as when every node is inserted at the head in time order. */
  ghost predicate NewestFirst(ns: seq<ListNode>)
  {
    forall i, j :: 0 <= i < j < |ns| ==> ns[j].timestamp <= ns[i].timestamp
  }

  /** Everything `get_range` returns lies in the window and is a node of the list. */
  lemma {:induction false} RangeInWindow(ns: seq<ListNode>, s: nat, e: nat)
    ensures forall n :: n in RangeOf(ns, s, e) ==> n in ns && s <= n.timestamp <= e
  {
    if ns != [] {
      RangeInWindow(ns[1..], s, e);
    }
  }

  /** On a list kept newest first, stopping at the first older node loses nothing: `get_range` is the window filter. */
  lemma {:induction false} RangeNewestFirst(ns: seq<ListNode>, s: nat, e: nat)
    requires NewestFirst(ns)
    ensures RangeOf(ns, s, e) == InWindow(ns, s, e)
  {
    if ns != [] {
      assert NewestFirst(ns[1..]) by {
        forall i, j | 0 <= i < j < |ns[1..]|
          ensures ns[1..][j].timestamp <= ns[1..][i].timestamp
        {
          assert ns[1..][i] == ns[i + 1] && ns[1..][j] == ns[j + 1];
        }
      }
      RangeNewestFirst(ns[1..], s, e);
      if ns[0].timestamp < s {
        NoneInWindow(ns[1..], s, e, ns[0].timestamp);
      }
    }
  }

  lemma {:induction false} NoneInWindow(ns: seq<ListNode>, s: nat, e: nat, bound: nat)
    requires bound < s && forall i :: 0 <= i < |ns| ==> ns[i].timestamp <= bound
    ensures InWindow(ns, s, e) == []
  {
    if ns != [] {
      assert forall i :: 0 <= i < |ns[1..]| ==> ns[1..][i].timestamp <= bound by {
        forall i | 0 <= i < |ns[1..]|
          ensures ns[1..][i].timestamp <= bound
        {
          assert ns[1..][i] == ns[i + 1];
        }
      }
      NoneInWindow(ns[1..], s, e, bound);
    }
  }

  /** A list whose head is older than the window start yields nothing, whatever follows it. */
  lemma RangeStopsAtOlder(ns: seq<ListNode>, s: nat, e: nat)
    requires ns != [] && ns[0].timestamp < s
    ensures RangeOf(ns, s, e) == []
  {
  }

  /** One step of `get_range`'s walk that has collected `results` before position `p`. */
  lemma RangeStep(ns: seq<ListNode>, p: int, s: nat, e: nat, results: seq<ListNode>, total: seq<ListNode>)
    requires 0 <= p < |ns| && results + RangeOf(ns[p..], s, e) == total
    ensures var r := results + (if s <= ns[p].timestamp <= e then [ns[p]] else []);
      && (ns[p].timestamp < s ==> r == total)
      && (ns[p].timestamp >= s ==> r + RangeOf(ns[p + 1..], s, e) == total)
  {
    var x := ns[p..];
    assert x[0] == ns[p] && x[1..] == ns[p + 1..];
    var piece := if s <= ns[p].timestamp <= e then [ns[p]] else [];
    var rest := if ns[p].timestamp < s then [] else RangeOf(ns[p + 1..], s, e);
    assert RangeOf(x, s, e) == piece + rest;
    assert (results + piece) + rest == results + (piece + rest);
  }

  /** The nodes a traversal hands to `callback`: each in turn, up to and including the first for which it returns false. */
  function Visits(ns: seq<ListNode>, callback: ListNode -> bool): seq<ListNode>
  {
    if ns == [] then [] else [ns[0]] + (if callback(ns[0]) then Visits(ns[1..], callback) else [])
  }

  /** One step of a traversal over the nodes from position `p`. */
  lemma VisitsStep(ns: seq<ListNode>, p: int, callback: ListNode -> bool)
    requires 0 <= p < |ns|
    ensures Visits(ns[p..], callback) == [ns[p]] + (if callback(ns[p]) then Visits(ns[p + 1..], callback) else [])
  {
    assert ns[p..][1..] == ns[p + 1..];
  }

  /** One step of a traversal that has visited `visited` before position `p`. */
  lemma WalkStep(ns: seq<ListNode>, p: int, callback: ListNode -> bool, visited: seq<ListNode>, total: seq<ListNode>)
    requires 0 <= p < |ns| && visited + Visits(ns[p..], callback) == total
    ensures callback(ns[p]) ==> (visited + [ns[p]]) + Visits(ns[p + 1..], callback) == total
    ensures !callback(ns[p]) ==> visited + [ns[p]] == total
  {
    VisitsStep(ns, p, callback);
  }

  /** A traversal visits a prefix of the list; it visits all of it when the callback never says stop, and otherwise stops right after the first refusal. */
  lemma {:induction false} VisitsPrefix(ns: seq<ListNode>, callback: ListNode -> bool)
    ensures var v := Visits(ns, callback); |v| <= |ns| && v == ns[..|v|]
    ensures (forall i :: 0 <= i < |ns| ==> callback(ns[i])) ==> Visits(ns, callback) == ns
    ensures var v := Visits(ns, callback); forall i :: 0 <= i < |v| - 1 ==> callback(v[i])
    ensures var v := Visits(ns, callback); |v| < |ns| ==> v != [] && !callback(v[|v| - 1])
  {
    if ns != [] {
      VisitsPrefix(ns[1..], callback);
      var v := Visits(ns, callback);
      if callback(ns[0]) {
        var w := Visits(ns[1..], callback);
        assert v == [ns[0]] + w;
        assert ns == [ns[0]] + ns[1..];
        forall i | 0 <= i < |v| - 1
          ensures callback(v[i])
        {
          if i > 0 {
            assert v[i] == w[i - 1];
          }
        }
        if forall i :: 0 <= i < |ns| ==> callback(ns[i]) {
          assert forall i :: 0 <= i < |ns[1..]| ==> callback(ns[1..][i]) by {
            forall i | 0 <= i < |ns[1..]|
              ensures callback(ns[1..][i])
            {
              assert ns[1..][i] == ns[i + 1];
            }
          }
        }
      } else {
        assert v == [ns[0]];
      }
    }
  }

  function Min(a: int, b: int): int
  {
    if a < b then a else b
  }

  /** `DoublyLinkedList` together with the file it works on. */
  class DoublyLinkedList {
    /** Whether the file exists. */
    var fileExists: bool
    /** The metadata block stored at the start of the file. */
    var diskMeta: ListMetadata
    /** The nodes stored in the file, by offset. */
    var nodes: map<nat, ListNode>
    /** The size of the file, the offset `allocate_node` returns. */
    var fileEnd: nat
    /** `file_.is_open()`. */
    var isOpen: bool
    /** `metadata_`. */
    var metadata: ListMetadata

    /** `DoublyLinkedList(filename)`, for a file in the given state; nothing is opened. */
    constructor (fileExists: bool, diskMeta: ListMetadata, nodes: map<nat, ListNode>, fileEnd: nat)
      ensures this.fileExists == fileExists && this.diskMeta == diskMeta && this.nodes == nodes && this.fileEnd == fileEnd
      ensures !isOpen && metadata == DefaultMetadata
    {
      this.fileExists := fileExists;
      this.diskMeta := diskMeta;
      this.nodes := nodes;
      this.fileEnd := fileEnd;
      isOpen := false;
      metadata := DefaultMetadata;
    }

    /** `read_node(offset, node)`: offset 0 fails; so does a closed file or an offset where no node was written. */
    method ReadNode(offset: nat) returns (ok: bool, node: ListNode)
      ensures ok <==> offset != 0 && isOpen && offset in nodes
      ensures node == if ok then nodes[offset] else DefaultNode
    {
      if offset == 0 || !isOpen || offset !in nodes {
        return false, DefaultNode;
      }
      return true, nodes[offset];
    }

    /** `write_node(offset, node)`: fails on a closed file; a write past the end grows the file. */
    method WriteNode(offset: nat, node: ListNode) returns (ok: bool)
      modifies this
      ensures ok == isOpen
      ensures nodes == if ok then old(nodes)[offset := node] else old(nodes)
      ensures fileEnd == if ok then Extent(old(fileEnd), offset) else old(fileEnd)
      ensures isOpen == old(isOpen) && fileExists == old(fileExists) && diskMeta == old(diskMeta) && metadata == old(metadata)
    {
      if !isOpen {
        return false;
      }
      nodes := nodes[offset := node];
      fileEnd := Extent(fileEnd, offset);
      return true;
    }

    /** `allocate_node`: the end of the file; `tellp` on a closed file reports -1, which is 2^64 - 1 as a `uint64_t`. */
    function Allocate(): nat
      reads this
    {
      if isOpen then fileEnd else U64 - 1
    }

    /** `create(owner_id)`: truncates the file to the in-memory metadata, stamped with the owner, and closes it. */
    method Create(ownerId: nat, canOpen: bool) returns (ok: bool)
      requires !isOpen
      modifies this
      ensures ok == canOpen && !isOpen
      ensures canOpen ==>
        metadata == old(metadata).(ownerId := ownerId) && fileExists && diskMeta == metadata && nodes == map[] && fileEnd == MetaSize
      ensures !canOpen ==>
        metadata == old(metadata) && fileExists == old(fileExists) && diskMeta == old(diskMeta) && nodes == old(nodes) && fileEnd == old(fileEnd)
    {
      if !canOpen {
        return false;
      }
      fileExists := true;
      nodes := map[];
      metadata := metadata.(ownerId := ownerId);
      diskMeta := metadata;
      fileEnd := MetaSize;
      return true;
    }

    /** `open()`: reads the metadata block; it succeeds only on the list's magic tag, but the file stays open either way. */
    method Open() returns (ok: bool)
      requires !isOpen
      modifies this
      ensures isOpen == fileExists && metadata == if fileExists then diskMeta else old(metadata)
      ensures ok <==> fileExists && diskMeta.magic == Magic
      ensures fileExists == old(fileExists) && diskMeta == old(diskMeta) && nodes == old(nodes) && fileEnd == old(fileEnd)
    {
      if !fileExists {
        return false;
      }
      isOpen := true;
      metadata := diskMeta;
      ok := metadata.magic == Magic;
    }

    /** `close()`: writes the metadata back to the start of an open file and closes it. */
    method Close()
      modifies this
      ensures !isOpen && diskMeta == if old(isOpen) then metadata else old(diskMeta)
      ensures metadata == old(metadata) && fileExists == old(fileExists) && nodes == old(nodes) && fileEnd == old(fileEnd)
    {
      if isOpen {
        diskMeta := metadata;
        isOpen := false;
      }
    }

    /**
     * `insert_at_head(data_offset, data_size, node_type, timestamp)`: the new
     * node goes at the end of the file and becomes the head. On a list the file
     * describes, the result is that list with the new entry first.
     */
    method InsertAtHead(dataOffset: nat, dataSize: nat, nodeType: nat, timestamp: nat, ghost ord: seq<nat>) returns (ok: bool)
      modifies this
      ensures ok == old(isOpen) && isOpen == old(isOpen)
      ensures metadata == old(metadata).(head := old(Allocate()), tail := if old(metadata.head) != 0 then old(metadata.tail) else old(Allocate()),
        nodeCount := (old(metadata.nodeCount) + 1) % U64)
      ensures var node := ListNode(0, old(metadata.head), dataOffset, timestamp, dataSize, nodeType);
        nodes == if old(isOpen) then (if old(metadata.head) != 0 then SetPrev(old(nodes), old(metadata.head), old(fileEnd)) else old(nodes))[old(fileEnd) := node]
          else old(nodes)
      ensures fileExists == old(fileExists) && diskMeta == old(diskMeta)
      ensures old(isOpen) && old(Links(nodes, metadata.head, metadata.tail, ord, fileEnd)) ==>
        && fileEnd == old(fileEnd) + NodeSize
        && Links(nodes, metadata.head, metadata.tail, [old(fileEnd)] + ord, fileEnd)
        && Contents(nodes, [old(fileEnd)] + ord) == [Entry(dataOffset, dataSize, nodeType, timestamp)] + old(Contents(nodes, ord))
    {
      ghost var linked := isOpen && Links(nodes, metadata.head, metadata.tail, ord, fileEnd);
      ghost var n0, e0, h0, t0 := nodes, fileEnd, metadata.head, metadata.tail;
      var newNodeOffset := Allocate();
      var newNode := ListNode(0, metadata.head, dataOffset, timestamp, dataSize, nodeType);
      if metadata.head != 0 {
        var _, oldHead := ReadNode(metadata.head);
        oldHead := oldHead.(prev := newNodeOffset);
        var _ := WriteNode(metadata.head, oldHead);
      } else {
        metadata := metadata.(tail := newNodeOffset);
      }
      metadata := metadata.(head := newNodeOffset, nodeCount := (metadata.nodeCount + 1) % U64);
      ok := WriteNode(newNodeOffset, newNode);
      if linked {
        HeadInserted(n0, h0, t0, ord, e0, newNode);
      }
    }

    /**
     * `insert_at_tail(data_offset, data_size, node_type, timestamp)`: the
     * mirror image of `insert_at_head`; the list gains the new entry last.
     */
    method InsertAtTail(dataOffset: nat, dataSize: nat, nodeType: nat, timestamp: nat, ghost ord: seq<nat>) returns (ok: bool)
      modifies this
      ensures ok == old(isOpen) && isOpen == old(isOpen)
      ensures metadata == old(metadata).(tail := old(Allocate()), head := if old(metadata.tail) != 0 then old(metadata.head) else old(Allocate()),
        nodeCount := (old(metadata.nodeCount) + 1) % U64)
      ensures var node := ListNode(old(metadata.tail), 0, dataOffset, timestamp, dataSize, nodeType);
        nodes == if old(isOpen) then (if old(metadata.tail) != 0 then SetNext(old(nodes), old(metadata.tail), old(fileEnd)) else old(nodes))[old(fileEnd) := node]
          else old(nodes)
      ensures fileExists == old(fileExists) && diskMeta == old(diskMeta)
      ensures old(isOpen) && old(Links(nodes, metadata.head, metadata.tail, ord, fileEnd)) ==>
        && fileEnd == old(fileEnd) + NodeSize
        && Links(nodes, metadata.head, metadata.tail, ord + [old(fileEnd)], fileEnd)
        && Contents(nodes, ord + [old(fileEnd)]) == old(Contents(nodes, ord)) + [Entry(dataOffset, dataSize, nodeType, timestamp)]
    {
      ghost var linked := isOpen && Links(nodes, metadata.head, metadata.tail, ord, fileEnd);
      ghost var n0, e0, h0, t0 := nodes, fileEnd, metadata.head, metadata.tail;
      var newNodeOffset := Allocate();
      var newNode := ListNode(metadata.tail, 0, dataOffset, timestamp, dataSize, nodeType);
      if metadata.tail != 0 {
        var _, oldTail := ReadNode(metadata.tail);
        oldTail := oldTail.(next := newNodeOffset);
        var _ := WriteNode(metadata.tail, oldTail);
      } else {
        metadata := metadata.(head := newNodeOffset);
      }
      metadata := metadata.(tail := newNodeOffset, nodeCount := (metadata.nodeCount + 1) % U64);
      ok := WriteNode(newNodeOffset, newNode);
      if linked {
        TailInserted(n0, h0, t0, ord, e0, newNode);
      }
    }

    /**
     * `remove_node(node_offset)`: fails when the node cannot be read (offset 0
     * among them); otherwise the neighbours, or head and tail, bypass it and the
     * count drops by one, wrapping below 0. The node itself stays in the file.
     * Removing the `i`-th node of a list gives the list without it.
     */
    method RemoveNode(nodeOffset: nat, ghost ord: seq<nat>, ghost i: int) returns (ok: bool)
      modifies this
      ensures ok <==> old(nodeOffset != 0 && isOpen && nodeOffset in nodes)
      ensures !ok ==> nodes == old(nodes) && metadata == old(metadata)
      ensures ok ==> var u := Unlinked(old(nodes), old(metadata.head), old(metadata.tail), nodeOffset);
        nodes == u.0 && metadata == old(metadata).(head := u.1, tail := u.2, nodeCount := (old(metadata.nodeCount) - 1) % U64)
      ensures isOpen == old(isOpen) && fileExists == old(fileExists) && diskMeta == old(diskMeta)
      ensures old(Links(nodes, metadata.head, metadata.tail, ord, fileEnd)) && 0 <= i < |ord| && ord[i] == nodeOffset && old(isOpen) ==>
        && ok && fileEnd == old(fileEnd)
        && Links(nodes, metadata.head, metadata.tail, ord[..i] + ord[i + 1..], fileEnd)
        && Contents(nodes, ord[..i] + ord[i + 1..]) == old(Contents(nodes, ord))[..i] + old(Contents(nodes, ord))[i + 1..]
    {
      ghost var linked := isOpen && Links(nodes, metadata.head, metadata.tail, ord, fileEnd) && 0 <= i < |ord| && ord[i] == nodeOffset;
      ghost var n0, e0, h0, t0 := nodes, fileEnd, metadata.head, metadata.tail;
      var found, node := ReadNode(nodeOffset);
      if !found {
        assert linked ==> LinkedAt(n0, ord, i, e0);
        return false;
      }
      if linked {
        Removed(n0, h0, t0, ord, e0, i);
        assert LinkedAt(n0, ord, i, e0);
        if i > 0 {
          assert LinkedAt(n0, ord, i - 1, e0);
        }
        if i + 1 < |ord| {
          assert LinkedAt(n0, ord, i + 1, e0);
        }
      }
      if node.prev != 0 {
        var _, prevNode := ReadNode(node.prev);
        prevNode := prevNode.(next := node.next);
        var _ := WriteNode(node.prev, prevNode);
      } else {
        metadata := metadata.(head := node.next);
      }
      if node.next != 0 {
        var _, nextNode := ReadNode(node.next);
        nextNode := nextNode.(prev := node.prev);
        var _ := WriteNode(node.next, nextNode);
      } else {
        metadata := metadata.(tail := node.prev);
      }
      metadata := metadata.(nodeCount := (metadata.nodeCount - 1) % U64);
      return true;
    }

    /**
     * `get_recent(count)`: the first `count` nodes from the head. A negative
     * count makes `reserve` throw `length_error` (None).
     */
    method GetRecent(count: int, ghost ord: seq<nat>) returns (r: Option<seq<ListNode>>)
      ensures r.None? <==> count < 0
      ensures count >= 0 && ForwardChain(nodes, metadata.head, ord) ==>
        r == Some(if isOpen then Nodes(nodes, ord)[..Min(count, |ord|)] else [])
    {
      if count < 0 {
        return None;
      }
      ghost var linked := ForwardChain(nodes, metadata.head, ord);
      var results := [];
      var current := metadata.head;
      var retrieved := 0;
      while current != 0 && retrieved < count
        invariant 0 <= retrieved <= count
        invariant linked && isOpen ==>
          retrieved <= |ord| && current == (if retrieved < |ord| then ord[retrieved] else 0) && results == Nodes(nodes, ord)[..retrieved]
        invariant linked && !isOpen ==> results == []
        decreases count - retrieved
      {
        if linked && isOpen {
          assert ForwardAt(nodes, ord, retrieved);
        }
        var ok, node := ReadNode(current);
        if ok {
          results := results + [node];
          current := node.next;
          retrieved := retrieved + 1;
        } else {
          break;
        }
      }
      assert linked && isOpen && retrieved < |ord| ==> ForwardAt(nodes, ord, retrieved);
      return Some(results);
    }

    /**
     * `get_range(start_time, end_time)`: walks from the head collecting the
     * nodes in the window and stops at the first node older than it. On a
     * cyclic chain the walk would not end, so the model asks for a list.
     */
    method GetRange(startTime: nat, endTime: nat, ghost ord: seq<nat>) returns (results: seq<ListNode>)
      requires ForwardChain(nodes, metadata.head, ord)
      ensures results == if isOpen then RangeOf(Nodes(nodes, ord), startTime, endTime) else []
    {
      ghost var ns := Nodes(nodes, ord);
      ghost var total := RangeOf(ns, startTime, endTime);
      results := [];
      var current := metadata.head;
      ghost var p := 0;
      while current != 0
        invariant 0 <= p <= |ord| && current == (if p < |ord| then ord[p] else 0)
        invariant isOpen ==> results + RangeOf(ns[p..], startTime, endTime) == total
        invariant !isOpen ==> results == []
        decreases |ord| - p
      {
        assert ForwardAt(nodes, ord, p);
        var ok, node := ReadNode(current);
        if !ok {
          break;
        }
        assert node == ns[p];
        RangeStep(ns, p, startTime, endTime, results, total);
        if node.timestamp >= startTime && node.timestamp <= endTime {
          results := results + [node];
        }
        if node.timestamp < startTime {
          break;
        }
        current := node.next;
        p := p + 1;
      }
      assert p < |ord| ==> ForwardAt(nodes, ord, p);
      assert p == |ord| ==> ns[p..] == [];
    }

    /** `traverse_forward(callback)`: hands each node from the head to `callback` until it returns false. */
    method TraverseForward(callback: ListNode -> bool, ghost ord: seq<nat>) returns (visited: seq<ListNode>)
      requires ForwardChain(nodes, metadata.head, ord)
      ensures visited == if isOpen then Visits(Nodes(nodes, ord), callback) else []
    {
      ghost var ns := Nodes(nodes, ord);
      ghost var total := Visits(ns, callback);
      visited := [];
      var current := metadata.head;
      ghost var p := 0;
      while current != 0
        invariant 0 <= p <= |ord| && current == (if p < |ord| then ord[p] else 0)
        invariant isOpen ==> visited + Visits(ns[p..], callback) == total
        invariant !isOpen ==> visited == []
        decreases |ord| - p
      {
        assert ForwardAt(nodes, ord, p);
        var ok, node := ReadNode(current);
        if !ok {
          break;
        }
        assert node == ns[p];
        WalkStep(ns, p, callback, visited, total);
        visited := visited + [node];
        if !callback(node) {
          break;
        }
        current := node.next;
        p := p + 1;
      }
      assert p < |ord| ==> ForwardAt(nodes, ord, p);
      assert p == |ord| ==> ns[p..] == [];
    }

    /** `traverse_backward(callback)`: the same walk from the tail along `prev`. */
    method TraverseBackward(callback: ListNode -> bool, ghost ord: seq<nat>) returns (visited: seq<ListNode>)
      requires BackwardChain(nodes, metadata.tail, ord)
      ensures visited == if isOpen then Visits(NodesBackward(nodes, ord), callback) else []
    {
      ghost var ns := NodesBackward(nodes, ord);
      ghost var total := Visits(ns, callback);
      visited := [];
      var current := metadata.tail;
      ghost var q := 0;
      while current != 0
        invariant 0 <= q <= |ord| && current == (if q < |ord| then ord[|ord| - 1 - q] else 0)
        invariant isOpen ==> visited + Visits(ns[q..], callback) == total
        invariant !isOpen ==> visited == []
        decreases |ord| - q
      {
        assert BackwardAt(nodes, ord, |ord| - 1 - q);
        var ok, node := ReadNode(current);
        if !ok {
          break;
        }
        assert node == ns[q];
        WalkStep(ns, q, callback, visited, total);
        visited := visited + [node];
        if !callback(node) {
          break;
        }
        current := node.prev;
        q := q + 1;
      }
      assert q < |ord| ==> BackwardAt(nodes, ord, |ord| - 1 - q);
      assert q == |ord| ==> ns[q..] == [];
    }

    /** `empty()`. */
    function Empty(): (b: bool)
      reads this
    {
      metadata.nodeCount == 0
    }
  }
}
