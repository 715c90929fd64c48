/**
 * The string-key B+-tree index files (BPlusTree.h): 4096-byte node pages
 * after a 4096-byte metadata page, at most 19 keys per node, preemptive
 * top-down splitting and a leaf chain walked by `scan_all`. Every node is
 * read from and written to the file directly; there is no cache.
 *
 * The file is a map from page offset to node, its length, and whether the
 * stream is open: reads and writes on a closed stream fail, and
 * `allocate_node` hands out the current length. The specification
 * functions below describe the algorithms on that file; the class
 * `BPlusTree` runs them and is proved to do what they say.
 */
module BPlusTree {
  import opened Wrappers
  import opened Ints
  import opened NodeArrays
  import opened Seqs
  import SdmTypes
  import opened Streams

  const MaxKeys: nat := 19
  const MinKeys: nat := 9
  const MaxChildren: nat := 20
  /** Size of a node page and of the metadata page; the root of a new file sits right after the metadata. */
  const PageSize: nat := 4096
  /** Size of the key buffer, and of the index name buffer of the metadata. */
  const KeyBytes: nat := 128
  const NameBytes: nat := 64
  const Magic: string := "BPLUS001"

  // Keys and their order.

  /**
   * `BPlusKey(s)`: the zeroed 128-byte buffer takes at most 127 bytes of
   * `s`, up to its first NUL. A key is modelled by that text, since every
   * comparison is `strcmp`, which stops at the first NUL.
   */
  function MakeKey(s: string): (k: string)
    ensures |k| < KeyBytes && |k| <= |s| && k == s[..|k|]
    ensures forall i :: 0 <= i < |k| ==> k[i] != '\0'
  {
    SdmTypes.CString(s, KeyBytes)
  }

  /** `operator<`, `strcmp(a, b) < 0`: the first differing byte decides, and a proper prefix comes first. */
  predicate Less(a: string, b: string)
    decreases |a|
  {
    if a == [] then b != []
    else if b == [] then false
    else if a[0] != b[0] then a[0] < b[0]
    else Less(a[1..], b[1..])
  }

  /** `operator<=`, `operator>` and `operator>=`: `strcmp` at most, above and at least zero. */
  predicate LessEq(a: string, b: string) { Less(a, b) || a == b }
  predicate Greater(a: string, b: string) { Less(b, a) }
  predicate GreaterEq(a: string, b: string) { LessEq(b, a) }

  /** `strcmp` orders the keys strictly and totally, and the derived operators agree with one another. */
  lemma {:induction false} KeyOrder(a: string, b: string, c: string)
    ensures !Less(a, a)
    ensures Less(a, b) ==> !Less(b, a)
    ensures Less(a, b) && Less(b, c) ==> Less(a, c)
    ensures Less(a, b) || a == b || Less(b, a)
    ensures Greater(a, b) <==> !LessEq(a, b)
    ensures GreaterEq(a, b) <==> !Less(a, b)
    decreases |a|
  {
    if a != [] && b != [] && c != [] {
      KeyOrder(a[1..], b[1..], c[1..]);
      if a[0] == b[0] && a[1..] == b[1..] {
        assert a == [a[0]] + a[1..] && b == [b[0]] + b[1..];
      }
    } else if a != [] && b != [] {
      KeyOrder(a[1..], b[1..], a[1..]);
      if a[0] == b[0] && a[1..] == b[1..] {
        assert a == [a[0]] + a[1..] && b == [b[0]] + b[1..];
      }
    } else if a != [] {
      KeyOrder(a[1..], a[1..], a[1..]);
    }
  }

  /** `BPlusValue`: the id the key refers to and its entity type. */
  datatype BPlusValue = BPlusValue(primaryId: u64, entityType: u8)

  const NoValue := BPlusValue(0, 0)

  // Nodes.

  /**
   * `BPlusNode`: the node type, `key_count`, the level, the fixed key,
   * value and child arrays (slots at and beyond key_count keep whatever
   * they held), and the leaf chain. The parent offset and the padding are
   * never read and are not modelled.
   */
  datatype Node = Node(leaf: bool, count: nat, level: u16, keys: seq<string>, values: seq<BPlusValue>,
                       children: seq<nat>, nextLeaf: nat, prevLeaf: nat)

  /** A node page: arrays of their declared sizes, and no more keys than MAX_KEYS. */
  type Page = n: Node | |n.keys| == MaxKeys && |n.values| == MaxKeys && |n.children| == MaxChildren && n.count <= MaxKeys
    witness Node(true, 0, 0, NoKeys, NoValues, NoChildren, 0, 0)

  /** The zeroed arrays of a new node. */
  const NoKeys: seq<string> := ["", "", "", "", "", "", "", "", "", "", "", "", "", "", "", "", "", "", ""]
  const NoValues: seq<BPlusValue> :=
    [NoValue, NoValue, NoValue, NoValue, NoValue, NoValue, NoValue, NoValue, NoValue, NoValue, NoValue, NoValue, NoValue, NoValue, NoValue, NoValue, NoValue, NoValue, NoValue]
  const NoChildren: seq<nat> := [0, 0, 0, 0, 0, 0, 0, 0, 0, 0, 0, 0, 0, 0, 0, 0, 0, 0, 0, 0]

  /** A default-constructed `BPlusNode`: an empty leaf. */
  const EmptyPage: Page := Node(true, 0, 0, NoKeys, NoValues, NoChildren, 0, 0)

  /** The pairs a node holds, in slot order. */
  function Entries(n: Page): (r: seq<(string, BPlusValue)>)
    ensures |r| == n.count
    ensures forall i :: 0 <= i < n.count ==> r[i] == (n.keys[i], n.values[i])
  {
    Zip(n.keys, n.values, n.count)
  }

  /** The keys a node holds are in non-decreasing order. */
  predicate Sorted(n: Page)
  {
    forall i, j :: 0 <= i < j < n.count ==> LessEq(n.keys[i], n.keys[j])
  }

  /** All keys of the node are strictly increasing. */
  predicate StrictlySorted(n: Page)
  {
    forall i, j :: 0 <= i < j < n.count ==> Less(n.keys[i], n.keys[j])
  }

  /** `find_key_position`: the first slot whose key is not below `key`, or key_count. */
  function KeyPosition(n: Page, key: string): (r: nat)
    ensures r <= n.count
    ensures forall i :: 0 <= i < r ==> Less(n.keys[i], key)
    ensures r < n.count ==> !Less(n.keys[r], key)
  {
    Scan(n, key, 0)
  }

  function Scan(n: Page, key: string, i: nat): (r: nat)
    requires i <= n.count
    requires forall j :: 0 <= j < i ==> Less(n.keys[j], key)
    ensures i <= r <= n.count
    ensures forall j :: 0 <= j < r ==> Less(n.keys[j], key)
    ensures r < n.count ==> !Less(n.keys[r], key)
    decreases n.count - i
  {
    if i < n.count && Less(n.keys[i], key) then Scan(n, key, i + 1) else i
  }

  /**
   * Where the right-to-left loops of `insert_non_full` stop: one past the
   * last of the first k keys that is not greater than `key`, or 0.
   */
  function InsertionPoint(keys: seq<string>, k: nat, key: string): (r: nat)
    requires k <= |keys|
    ensures r <= k
    ensures forall i :: r <= i < k ==> Greater(keys[i], key)
    ensures r > 0 ==> !Greater(keys[r - 1], key)
  {
    if k == 0 then 0
    else if Greater(keys[k - 1], key) then InsertionPoint(keys, k - 1, key)
    else k
  }

  /** The three facts of InsertionPoint determine it. */
  lemma InsertionPointUnique(keys: seq<string>, k: nat, key: string, p: nat)
    requires k <= |keys| && p <= k
    requires forall i :: p <= i < k ==> Greater(keys[i], key)
    requires p > 0 ==> !Greater(keys[p - 1], key)
    ensures p == InsertionPoint(keys, k, key)
  {
  }

  /** The leaf branch of `insert_non_full`: `key` and `value` go in at the insertion point. */
  function LeafWith(n: Page, key: string, value: BPlusValue): (r: Page)
    requires n.count < MaxKeys
    ensures r.count == n.count + 1 && r.leaf == n.leaf && r.level == n.level && r.nextLeaf == n.nextLeaf
  {
    var p := InsertionPoint(n.keys, n.count, key);
    n.(keys := Shifted(n.keys, n.count, p, key), values := Shifted(n.values, n.count, p, value), count := n.count + 1)
  }

  /** The pairs of the leaf afterwards are its pairs before with the new one at the insertion point. */
  lemma LeafWithEntries(n: Page, key: string, value: BPlusValue)
    requires n.count < MaxKeys
    ensures var p := InsertionPoint(n.keys, n.count, key);
      Entries(LeafWith(n, key, value)) == Entries(n)[..p] + [(key, value)] + Entries(n)[p..]
  {
    ZipShifted(n.keys, n.values, n.count, InsertionPoint(n.keys, n.count, key), key, value);
  }

  /** Inserting into a sorted leaf keeps it sorted. */
  lemma LeafWithSorted(n: Page, key: string, value: BPlusValue)
    requires n.count < MaxKeys && Sorted(n)
    ensures Sorted(LeafWith(n, key, value))
  {
    var p := InsertionPoint(n.keys, n.count, key);
    var r := LeafWith(n, key, value);
    forall i, j | 0 <= i < j < r.count
      ensures LessEq(r.keys[i], r.keys[j])
    {
      if i < p && j == p {
        assert LessEq(n.keys[i], n.keys[p - 1]);
        KeyOrder(n.keys[i], n.keys[p - 1], key);
        KeyOrder(n.keys[p - 1], key, key);
      } else if i == p && j > p {
        assert LessEq(n.keys[p], n.keys[j - 1]);
        KeyOrder(key, n.keys[p], n.keys[j - 1]);
      } else if i < p && j > p {
        assert LessEq(n.keys[i], n.keys[j - 1]);
      } else if i > p {
        assert r.keys[i] == n.keys[i - 1] && r.keys[j] == n.keys[j - 1];
      }
    }
  }

  /** In a sorted leaf without `key`, the scan of `search` stops exactly where the insertion put it. */
  lemma FoundWhereInserted(n: Page, key: string, value: BPlusValue)
    requires n.count < MaxKeys && Sorted(n)
    requires forall i :: 0 <= i < n.count ==> n.keys[i] != key
    ensures var r := LeafWith(n, key, value);
      var pos := KeyPosition(r, key);
      pos < r.count && r.keys[pos] == key && r.values[pos] == value
  {
    var p := InsertionPoint(n.keys, n.count, key);
    var r := LeafWith(n, key, value);
    forall i | 0 <= i < p
      ensures Less(r.keys[i], key)
    {
      assert r.keys[i] == n.keys[i];
      assert LessEq(n.keys[i], n.keys[p - 1]);
      KeyOrder(n.keys[p - 1], key, key);
      KeyOrder(n.keys[i], n.keys[p - 1], key);
    }
    assert r.keys[p] == key;
    KeyOrder(key, key, key);
    assert KeyPosition(r, key) == p;
  }

  // Splitting a full child.

  /** What the child of `split_child` keeps: its first MIN_KEYS keys, and for a leaf the link to the new node. */
  function LowerHalf(child: Page, newOff: nat): (r: Page)
    ensures r.count == MinKeys && r.keys == child.keys && r.values == child.values && r.leaf == child.leaf
    ensures r.nextLeaf == if child.leaf then newOff else child.nextLeaf
  {
    child.(count := MinKeys, nextLeaf := if child.leaf then newOff else child.nextLeaf)
  }

  /**
   * The new node of `split_child`: the last MIN_KEYS keys of the child,
   * with their values for a leaf (the median's value is not kept anywhere)
   * or the last ten children otherwise; a leaf goes between the child and
   * the child's old successor, whose back link is not updated.
   */
  function UpperHalf(child: Page, childOff: nat): (r: Page)
    ensures r.count == MinKeys && r.leaf == child.leaf && r.level == child.level
    ensures r.keys[..MinKeys] == child.keys[MinKeys + 1..]
  {
    var keys := child.keys[MinKeys + 1..] + EmptyPage.keys[MinKeys..];
    if child.leaf then
      EmptyPage.(count := MinKeys, level := child.level, keys := keys,
        values := child.values[MinKeys + 1..] + EmptyPage.values[MinKeys..],
        nextLeaf := child.nextLeaf, prevLeaf := childOff)
    else
      EmptyPage.(leaf := false, count := MinKeys, level := child.level, keys := keys,
        children := child.children[MinKeys + 1..] + EmptyPage.children[MinKeys + 1..])
  }

  /** The parent of `split_child`: the median at slot ci and the new node right after the child. */
  function WithSeparator(parent: Page, ci: nat, median: string, newOff: nat): (r: Page)
    requires ci <= parent.count < MaxKeys
    ensures r.count == parent.count + 1 && r.keys[ci] == median && r.children[ci + 1] == newOff
    ensures r.children[ci] == parent.children[ci] && r.leaf == parent.leaf
    ensures forall i :: 0 <= i < ci ==> r.keys[i] == parent.keys[i]
    ensures r.level == parent.level
  {
    parent.(keys := Shifted(parent.keys, parent.count, ci, median),
            children := Shifted(parent.children, parent.count + 1, ci + 1, newOff),
            count := parent.count + 1)
  }

  /**
   * A split of a full child keeps every key of the child (nine left, the
   * median in the parent, nine right), but a leaf keeps only the values of
   * the first nine and the last nine entries: the median's pair is gone
   * from the leaves.
   */
  lemma SplitKeepsKeys(child: Page, childOff: nat, newOff: nat)
    requires child.count == MaxKeys
    ensures LowerHalf(child, newOff).keys[..MinKeys] + [child.keys[MinKeys]] + UpperHalf(child, childOff).keys[..MinKeys]
            == child.keys[..child.count]
    ensures child.leaf ==>
      Entries(LowerHalf(child, newOff)) == Entries(child)[..MinKeys]
      && Entries(UpperHalf(child, childOff)) == Entries(child)[MinKeys + 1..]
  {
  }

  /** The leaf chain after splitting a leaf: child, then the new node, then the child's old successor. */
  lemma SplitLinksLeaves(child: Page, childOff: nat, newOff: nat)
    requires child.leaf && child.count == MaxKeys
    ensures LowerHalf(child, newOff).nextLeaf == newOff
    ensures UpperHalf(child, childOff).prevLeaf == childOff && UpperHalf(child, childOff).nextLeaf == child.nextLeaf
  {
  }

  // The file.

  /** The node pages of the file, by offset, its length, and whether the stream is open. */
  datatype File = File(open: bool, pages: map<nat, Page>, end: nat)

  /** Every page lies below the end of the file. */
  predicate Bounded(f: File)
  {
    forall o :: o in f.pages ==> o < f.end
  }

  /** `read_node(o, node)`: the page at o of an open file; otherwise the read fails and `node` keeps `prior`. */
  function Fetch(f: File, o: nat, prior: Page): Page
  {
    if f.open && o != 0 && o in f.pages then f.pages[o] else prior
  }

  /**
   * `write_node(o, node)`: a write to a closed stream fails; otherwise the
   * page is stored, offset 0 included, and a page past the end extends the
   * file.
   */
  function Store(f: File, o: nat, n: Page): (r: File)
    ensures Bounded(f) ==> Bounded(r)
    ensures r.open == f.open
    ensures f.open ==> o in r.pages && r.pages[o] == n && r.pages.Keys == f.pages.Keys + {o}
    ensures !f.open ==> r == f
    ensures forall p :: p != o && p in f.pages ==> p in r.pages && r.pages[p] == f.pages[p]
  {
    if !f.open then f else File(true, f.pages[o := n], if o + PageSize > f.end then o + PageSize else f.end)
  }

  /** `allocate_node`: the length of the open file; `tellp` on a closed stream gives -1, the largest offset. */
  function AllocOffset(f: File): nat
  {
    if f.open then f.end else Two64 - 1
  }

  /** `allocate_node`: an empty page at the end of the open file. */
  function Alloc(f: File): (r: File)
    ensures Bounded(f) ==> Bounded(r)
    ensures r.open == f.open
    ensures f.open ==> r.end == f.end + PageSize && f.end in r.pages && r.pages.Keys == f.pages.Keys + {f.end}
    ensures !f.open ==> r == f
    ensures Bounded(f) ==> forall p :: p in f.pages ==> p in r.pages && r.pages[p] == f.pages[p]
  {
    if f.open then File(true, f.pages[f.end := EmptyPage], f.end + PageSize) else f
  }

  /**
   * `split_child(parentOff, parent, ci)`: reads the child at slot ci
   * (without checking the read), splits it into itself and a new node at
   * the end of the file, inserts the median into the parent, and writes
   * child, new node and parent. The second component is the parent as the
   * caller holds it afterwards.
   */
  function SplitPages(f: File, parentOff: nat, parent: Page, ci: nat): (r: (File, Page))
    requires ci <= parent.count < MaxKeys
    ensures Bounded(f) ==> Bounded(r.0)
    ensures r.0.open == f.open
    ensures r.1.count == parent.count + 1
  {
    var childOff := parent.children[ci];
    var child := Fetch(f, childOff, EmptyPage);
    var newOff := AllocOffset(f);
    var p1 := WithSeparator(parent, ci, child.keys[MinKeys], newOff);
    (Store(Store(Store(Alloc(f), childOff, LowerHalf(child, newOff)), newOff, UpperHalf(child, childOff)), parentOff, p1), p1)
  }

  /** After `split_child`, the parent read back from its offset is the parent as the split left it. */
  lemma SplitParentReadBack(f: File, parentOff: nat, parent: Page, ci: nat)
    requires ci <= parent.count < MaxKeys
    ensures var sp := SplitPages(f, parentOff, parent, ci);
      Fetch(sp.0, parentOff, sp.1) == sp.1
  {
  }

  /** The child `insert_non_full` descends into from an internal node, before any split. */
  function DescentSlot(n: Page, key: string): (r: nat)
    ensures r <= n.count
  {
    InsertionPoint(n.keys, n.count, key)
  }

  /**
   * `insert_non_full(off, node, key, value)`: a leaf takes the key at its
   * insertion point; an internal node splits a full child first and then
   * descends. The descent goes at most `fuel` levels deep, and stops at a
   * child that is still full after the split, which only a node listing
   * itself as its own child can produce.
   */
  function InsertPages(f: File, off: nat, node: Page, key: string, value: BPlusValue, fuel: nat): (r: File)
    requires node.count < MaxKeys
    ensures Bounded(f) ==> Bounded(r)
    ensures r.open == f.open
    decreases fuel, 2
  {
    if node.leaf then Store(f, off, LeafWith(node, key, value))
    else
      var pos := DescentSlot(node, key);
      var child := Fetch(f, node.children[pos], EmptyPage);
      if child.count >= MaxKeys then SplitDescent(f, off, node, pos, child, key, value, fuel)
      else if fuel == 0 then f
      else InsertPages(f, node.children[pos], child, key, value, fuel - 1)
  }

  /** The split branch of `insert_non_full`: split, step right of the median when `key` is above it, descend. */
  function SplitDescent(f: File, off: nat, node: Page, pos: nat, child: Page, key: string, value: BPlusValue,
                        fuel: nat): (r: File)
    requires pos <= node.count < MaxKeys
    ensures Bounded(f) ==> Bounded(r)
    ensures r.open == f.open
    decreases fuel, 1
  {
    var sp := SplitPages(f, off, node, pos);
    var node1 := sp.1;
    var pos1 := if Less(node1.keys[pos], key) then pos + 1 else pos;
    Descend(sp.0, node1.children[pos1], child, key, value, fuel)
  }

  /** The descent after a split: re-read the child at `o` (the old one stays when the read fails) and insert into it. */
  function Descend(f: File, o: nat, child: Page, key: string, value: BPlusValue, fuel: nat): (r: File)
    ensures Bounded(f) ==> Bounded(r)
    ensures r.open == f.open
    decreases fuel, 0
  {
    var child1 := Fetch(f, o, child);
    if fuel == 0 || child1.count >= MaxKeys then f
    else InsertPages(f, o, child1, key, value, fuel - 1)
  }

  // Search.

  /** What `search_recursive` does at one node: report a hit or a miss, or go on to a child. */
  datatype Step = Hit(value: BPlusValue) | Miss | Go(child: nat)

  /**
   * One node of `search_recursive`: a leaf reports a hit when the key at
   * the scan position equals `key`; an internal node sends the search to
   * the child at the scan position, the first slot whose key is not below
   * `key`, even when that key equals `key`.
   */
  function SearchStep(n: Page, key: string): (r: Step)
    ensures r.Hit? <==> n.leaf && KeyPosition(n, key) < n.count && n.keys[KeyPosition(n, key)] == key
    ensures r.Hit? ==> r.value == n.values[KeyPosition(n, key)]
    ensures r.Go? <==> !n.leaf
    ensures r.Go? ==> r.child == n.children[KeyPosition(n, key)]
  {
    var pos := KeyPosition(n, key);
    if n.leaf then
      if pos < n.count && n.keys[pos] == key then Hit(n.values[pos]) else Miss
    else Go(n.children[pos])
  }

  /** `search_recursive(off, key)`: a failed read leaves an empty leaf, which misses. */
  function Find(f: File, off: nat, key: string, fuel: nat): Option<BPlusValue>
    decreases fuel
  {
    if off == 0 then None
    else match SearchStep(Fetch(f, off, EmptyPage), key)
      case Hit(v) => Some(v)
      case Miss => None
      case Go(c) => if fuel == 0 then None else Find(f, c, key, fuel - 1)
  }

  /** Some leaf page of the file holds `key` with value `v` among its key_count entries. */
  ghost predicate HeldInLeaf(f: File, key: string, v: BPlusValue)
  {
    exists o, i :: o in f.pages && f.pages[o].leaf && 0 <= i < f.pages[o].count && Entries(f.pages[o])[i] == (key, v)
  }

  /** Every hit of a search is an entry of a leaf. */
  lemma {:induction false} FoundInLeaf(f: File, off: nat, key: string, fuel: nat)
    ensures Find(f, off, key, fuel).Some? ==> HeldInLeaf(f, key, Find(f, off, key, fuel).value)
    decreases fuel
  {
    if off != 0 {
      var n := Fetch(f, off, EmptyPage);
      match SearchStep(n, key)
      case Hit(v) =>
        var pos := KeyPosition(n, key);
        assert n != EmptyPage;
        assert Entries(n)[pos] == (key, v);
      case Miss =>
      case Go(c) =>
        if fuel > 0 {
          FoundInLeaf(f, c, key, fuel - 1);
        }
    }
  }

  /**
   * The median of a split leaf is no longer found: it was a hit in the
   * full child, but after the split it sits only in the parent, and the
   * search for it goes to the child left of it, which ends before it.
   */
  lemma MedianLost(f: File, parentOff: nat, parent: Page, ci: nat, fuel: nat)
    requires f.open && Bounded(f) && parentOff != 0 && !parent.leaf && ci <= parent.count < MaxKeys
    requires parent.children[ci] != 0 && parent.children[ci] in f.pages && parent.children[ci] != parentOff
    requires var child := f.pages[parent.children[ci]];
      child.leaf && child.count == MaxKeys && StrictlySorted(child)
      && forall i :: 0 <= i < ci ==> Less(parent.keys[i], child.keys[MinKeys])
    requires fuel > 0
    ensures var child := f.pages[parent.children[ci]];
      Find(f, parent.children[ci], child.keys[MinKeys], fuel) == Some(child.values[MinKeys])
      && Find(SplitPages(f, parentOff, parent, ci).0, parentOff, child.keys[MinKeys], fuel) == None
  {
    var childOff := parent.children[ci];
    var child := f.pages[childOff];
    var median := child.keys[MinKeys];
    forall i | 0 <= i < MinKeys
      ensures Less(child.keys[i], median)
    {
    }
    KeyOrder(median, median, median);
    assert KeyPosition(child, median) == MinKeys;
    var sp := SplitPages(f, parentOff, parent, ci);
    var p1 := sp.1;
    assert Fetch(sp.0, parentOff, EmptyPage) == p1;
    assert KeyPosition(p1, median) == ci;
    var lower := LowerHalf(child, f.end);
    assert f.end != childOff;
    assert Fetch(sp.0, childOff, EmptyPage) == lower;
    assert KeyPosition(lower, median) == MinKeys;
  }

  // The leaf chain.

  /**
   * The loop of `scan_all` from leaf `current`: each node's key_count
   * pairs in slot order, then its successor, until a zero link (a failed
   * read gives an empty node, whose link is zero). At most `fuel` nodes
   * are visited.
   */
  function ScanFrom(f: File, current: nat, fuel: nat): seq<(string, BPlusValue)>
    decreases fuel
  {
    if current == 0 || fuel == 0 then []
    else
      var leaf := Fetch(f, current, EmptyPage);
      Entries(leaf) + ScanFrom(f, leaf.nextLeaf, fuel - 1)
  }

  // The metadata page and the whole insertion.

  /** `BPlusMetadata`; the reserved bytes are not modelled. */
  datatype Metadata = Metadata(magic: string, indexName: string, rootOffset: nat, leftmostLeaf: nat,
                               totalEntries: u64, treeHeight: u32)

  /** The metadata of `BPlusTree(filename, index_name)`: the default one, named (at most 63 bytes kept). */
  function NamedMetadata(name: string): (m: Metadata)
    ensures m.magic == Magic && |m.indexName| < NameBytes
    ensures m.rootOffset == 0 && m.leftmostLeaf == 0 && m.totalEntries == 0 && m.treeHeight == 0
  {
    Metadata(Magic, SdmTypes.CString(name, NameBytes), 0, 0, 0, 0)
  }

  /** The root `insert` puts above a full root: an internal node one level up whose only child is the old root. */
  function NewRoot(root: Page, rootOff: nat): (r: Page)
    ensures !r.leaf && r.count == 0 && r.children[0] == rootOff
    ensures r.level == Inc16(root.level)
  {
    EmptyPage.(leaf := false, level := Inc16(root.level), children := EmptyPage.children[0 := rootOff])
  }

  /**
   * The root split of `insert`: a new root at the end of the file over the
   * full root, split with `split_child`: the file afterwards, the new
   * root's offset, and the new root as read back, which is the parent as
   * the split left it.
   */
  function GrowRoot(f: File, rootOff: nat, root: Page): (r: (File, nat, Page))
    requires Bounded(f)
    ensures Bounded(r.0) && r.0.open == f.open && r.2.count == 1
    ensures r.1 == AllocOffset(f) && r.2.children[0] == rootOff && !r.2.leaf
  {
    var newOff := AllocOffset(f);
    var sp := SplitPages(Alloc(f), newOff, NewRoot(root, rootOff), 0);
    (sp.0, newOff, sp.1)
  }

  /**
   * `insert(key, value)`: a full root is split under a new root at the end
   * of the file, which adds a level; then `insert_non_full` runs from the
   * root, descending at most as many levels as there are pages. The new
   * root, read back after the split, is the parent as the split left it.
   * Every call counts one more entry; nothing is checked for duplicates.
   */
  function InsertTree(f: File, m: Metadata, key: string, value: BPlusValue): (r: (File, Metadata))
    requires Bounded(f)
    ensures Bounded(r.0) && r.0.open == f.open
    ensures r.1.totalEntries == Inc64(m.totalEntries)
    ensures r.1.leftmostLeaf == m.leftmostLeaf
  {
    var fuel := |f.pages|;
    var root := Fetch(f, m.rootOffset, EmptyPage);
    if root.count >= MaxKeys then
      var g := GrowRoot(f, m.rootOffset, root);
      (InsertPages(g.0, g.1, g.2, key, value, fuel),
       m.(rootOffset := g.1, treeHeight := Inc32(m.treeHeight), totalEntries := Inc64(m.totalEntries)))
    else
      (InsertPages(f, m.rootOffset, root, key, value, fuel), m.(totalEntries := Inc64(m.totalEntries)))
  }

  /** InsertTree by the two branches of `insert`: a full root is split first, and a root with room is not. */
  lemma InsertTreeUnfolds(f: File, m: Metadata, key: string, value: BPlusValue)
    requires Bounded(f)
    ensures var root := Fetch(f, m.rootOffset, EmptyPage);
      var fuel := |f.pages|;
      InsertTree(f, m, key, value) ==
        if root.count >= MaxKeys then
          var g := GrowRoot(f, m.rootOffset, root);
          (InsertPages(g.0, g.1, g.2, key, value, fuel),
           m.(rootOffset := g.1, treeHeight := Inc32(m.treeHeight), totalEntries := Inc64(m.totalEntries)))
        else (InsertPages(f, m.rootOffset, root, key, value, fuel), m.(totalEntries := Inc64(m.totalEntries)))
  {
  }

  /** The file right after `create` on a new tree: the metadata page and an empty root leaf, open. */
  const FreshFile := File(true, map[PageSize := EmptyPage], 2 * PageSize)

  /** The metadata `create` writes: the in-memory one, with the root and the leftmost leaf at the first page. */
  function CreatedMetadata(m: Metadata): Metadata
  {
    m.(rootOffset := PageSize, leftmostLeaf := PageSize)
  }

  /** Insertions one after the other, in the order given. */
  function InsertAll(f: File, m: Metadata, kvs: seq<(string, BPlusValue)>): (r: (File, Metadata))
    requires Bounded(f)
    ensures Bounded(r.0) && r.0.open == f.open && r.1.leftmostLeaf == m.leftmostLeaf
  {
    if kvs == [] then (f, m)
    else
      var prev := InsertAll(f, m, kvs[..|kvs| - 1]);
      InsertTree(prev.0, prev.1, kvs[|kvs| - 1].0, kvs[|kvs| - 1].1)
  }

  /** Every insertion counts one more entry, duplicates included. */
  lemma {:induction false} InsertAllCounts(f: File, m: Metadata, kvs: seq<(string, BPlusValue)>)
    requires Bounded(f)
    ensures InsertAll(f, m, kvs).1.totalEntries == Add64(m.totalEntries, |kvs|)
  {
    if kvs != [] {
      InsertAllCounts(f, m, kvs[..|kvs| - 1]);
      InsertAllCountsOneMore(f, m, kvs);
    }
  }

  /** The last insertion of a run counts one more entry. */
  lemma InsertAllCountsOneMore(f: File, m: Metadata, kvs: seq<(string, BPlusValue)>)
    requires Bounded(f) && kvs != []
    ensures InsertAll(f, m, kvs).1.totalEntries == Inc64(InsertAll(f, m, kvs[..|kvs| - 1]).1.totalEntries)
  {
  }

  /** The first i + 1 insertions are the first i and then the next one. */
  lemma InsertAllNext(f: File, m: Metadata, kvs: seq<(string, BPlusValue)>, i: nat)
    requires Bounded(f) && i < |kvs|
    ensures var prev := InsertAll(f, m, kvs[..i]);
      InsertAll(f, m, kvs[..i + 1]) == InsertTree(prev.0, prev.1, kvs[i].0, kvs[i].1)
  {
    assert kvs[..i + 1][..i] == kvs[..i];
  }

  /** An open file whose only node is a root leaf, at the first page. */
  ghost predicate RootLeafOnly(f: File)
  {
    f.open && f.pages.Keys == {PageSize} && f.end == 2 * PageSize
    && f.pages[PageSize].leaf && f.pages[PageSize].level == 0 && f.pages[PageSize].nextLeaf == 0
  }

  /** An insertion into a root leaf with room stores the leaf with the pair added and counts one more entry. */
  lemma RootLeafInsert(f: File, m: Metadata, key: string, value: BPlusValue)
    requires RootLeafOnly(f) && m.rootOffset == PageSize && f.pages[PageSize].count < MaxKeys
    ensures var r := InsertTree(f, m, key, value);
      r.0 == f.(pages := f.pages[PageSize := LeafWith(f.pages[PageSize], key, value)])
      && r.1 == m.(totalEntries := Inc64(m.totalEntries))
  {
    assert Fetch(f, PageSize, EmptyPage) == f.pages[PageSize];
  }

  /** The pairs of a leaf after an insertion are its pairs before and the new one. */
  lemma LeafWithMultiset(n: Page, key: string, value: BPlusValue)
    requires n.count < MaxKeys
    ensures multiset(Entries(LeafWith(n, key, value))) == multiset(Entries(n)) + multiset{(key, value)}
  {
    LeafWithEntries(n, key, value);
    InsertedAt(Entries(n), InsertionPoint(n.keys, n.count, key), (key, value));
  }

  /** `scan_all` on a file whose only node is the root leaf lists that leaf's pairs. */
  lemma ScanOneLeaf(f: File)
    requires RootLeafOnly(f)
    ensures ScanFrom(f, PageSize, |f.pages|) == Entries(f.pages[PageSize])
  {
    assert |f.pages| == 1 by {
      assert f.pages.Keys == {PageSize};
    }
    assert Fetch(f, PageSize, EmptyPage) == f.pages[PageSize];
    assert ScanFrom(f, PageSize, 1) == Entries(f.pages[PageSize]) + ScanFrom(f, 0, 0);
  }

  /**
   * Up to MAX_KEYS insertions into a new tree go into its root leaf and
   * nothing else, and only the entry count of the metadata changes.
   */
  lemma {:induction false} RootLeafShape(m: Metadata, kvs: seq<(string, BPlusValue)>)
    requires |kvs| <= MaxKeys && m.rootOffset == PageSize
    ensures var r := InsertAll(FreshFile, m, kvs);
      RootLeafOnly(r.0) && r.0.pages[PageSize].count == |kvs| && r.1 == m.(totalEntries := r.1.totalEntries)
  {
    if kvs != [] {
      var init := kvs[..|kvs| - 1];
      var kv := kvs[|kvs| - 1];
      RootLeafShape(m, init);
      var prev := InsertAll(FreshFile, m, init);
      var r := InsertAll(FreshFile, m, kvs);
      RootLeafInsert(prev.0, prev.1, kv.0, kv.1);
      assert r.0.pages == prev.0.pages[PageSize := LeafWith(prev.0.pages[PageSize], kv.0, kv.1)];
    }
  }

  /** An insertion into a sorted root leaf with room keeps it sorted and adds the pair to its pairs. */
  lemma RootLeafGrows(f: File, m: Metadata, key: string, value: BPlusValue)
    requires RootLeafOnly(f) && m.rootOffset == PageSize && f.pages[PageSize].count < MaxKeys && Sorted(f.pages[PageSize])
    ensures var r := InsertTree(f, m, key, value);
      RootLeafOnly(r.0) && Sorted(r.0.pages[PageSize])
      && multiset(Entries(r.0.pages[PageSize])) == multiset(Entries(f.pages[PageSize])) + multiset{(key, value)}
  {
    RootLeafInsert(f, m, key, value);
    LeafWithSorted(f.pages[PageSize], key, value);
    LeafWithMultiset(f.pages[PageSize], key, value);
  }

  /**
   * Up to MAX_KEYS insertions into a new tree fill its root leaf with
   * exactly the inserted pairs, its keys in order.
   */
  lemma {:induction false} RootLeafFills(m: Metadata, kvs: seq<(string, BPlusValue)>)
    requires |kvs| <= MaxKeys && m.rootOffset == PageSize
    ensures var r := InsertAll(FreshFile, m, kvs);
      RootLeafOnly(r.0)
      && var root := r.0.pages[PageSize];
      root.count == |kvs| && Sorted(root) && multiset(Entries(root)) == multiset(kvs)
  {
    RootLeafShape(m, kvs);
    if kvs == [] {
      assert Entries(EmptyPage) == [];
    } else {
      var init := kvs[..|kvs| - 1];
      var kv := kvs[|kvs| - 1];
      MultisetSnoc(kvs);
      RootLeafFills(m, init);
      RootLeafShape(m, init);
      var prev := InsertAll(FreshFile, m, init);
      RootLeafGrows(prev.0, prev.1, kv.0, kv.1);
    }
  }

  /** After up to MAX_KEYS insertions into a new tree, `scan_all` lists exactly the inserted pairs, ordered by key. */
  lemma ScanListsInserted(m: Metadata, kvs: seq<(string, BPlusValue)>)
    requires |kvs| <= MaxKeys && m.rootOffset == PageSize && m.leftmostLeaf == PageSize
    ensures var r := InsertAll(FreshFile, m, kvs);
      var s := ScanFrom(r.0, r.1.leftmostLeaf, |r.0.pages|);
      multiset(s) == multiset(kvs) && forall i, j :: 0 <= i < j < |s| ==> LessEq(s[i].0, s[j].0)
  {
    RootLeafFills(m, kvs);
    var r := InsertAll(FreshFile, m, kvs);
    ScanOneLeaf(r.0);
  }

  /**
   * The file one root split after a new tree: the root at the second page
   * with one key over two leaves at the first and third page, one level
   * up; the leaves hold MAX_KEYS entries together.
   */
  ghost predicate SplitOnce(f: File)
  {
    f.pages.Keys == {PageSize, 2 * PageSize, 3 * PageSize}
    && OverTwoLeaves(f.pages[2 * PageSize], f.pages[PageSize], f.pages[3 * PageSize])
  }

  /** An internal node one level up with one key, over the pages at the first and third offset, two leaves with MAX_KEYS entries together. */
  predicate OverTwoLeaves(root: Page, left: Page, right: Page)
  {
    !root.leaf && root.count == 1 && root.level == 1
    && root.children[0] == PageSize && root.children[1] == 3 * PageSize
    && left.leaf && right.leaf && left.count + right.count == MaxKeys
  }

  /**
   * The 20th insertion into a new tree splits the root: the root becomes
   * internal with one key and two leaf children, the height becomes 1, and
   * the leaves hold one entry fewer than were inserted, because the median
   * went up without its value. The leftmost leaf stays the first page.
   */
  lemma TwentiethInsertSplitsRoot(m: Metadata, kvs: seq<(string, BPlusValue)>)
    requires |kvs| == MaxKeys + 1 && m.rootOffset == PageSize && m.leftmostLeaf == PageSize && m.treeHeight == 0
    ensures var r := InsertAll(FreshFile, m, kvs);
      r.1 == m.(rootOffset := 2 * PageSize, treeHeight := 1, totalEntries := r.1.totalEntries) && SplitOnce(r.0)
  {
    var prefix := kvs[..MaxKeys];
    RootLeafShape(m, prefix);
    var prev := InsertAll(FreshFile, m, prefix);
    SplitRootInsert(prev.0, prev.1, kvs[MaxKeys].0, kvs[MaxKeys].1);
  }

  /** `insert` into an open file whose only node is a full root leaf. */
  lemma SplitRootInsert(f: File, m: Metadata, key: string, value: BPlusValue)
    requires RootLeafOnly(f) && m.rootOffset == PageSize && f.pages[PageSize].count == MaxKeys
    ensures var r := InsertTree(f, m, key, value);
      r.1 == m.(rootOffset := 2 * PageSize, treeHeight := Inc32(m.treeHeight), totalEntries := Inc64(m.totalEntries))
      && SplitOnce(r.0)
  {
    var full := f.pages[PageSize];
    assert Fetch(f, PageSize, EmptyPage) == full;
    var g := GrowRoot(f, PageSize, full);
    SplitFreshRoot(f, full);
    assert |f.pages| == 1 by {
      assert f.pages.Keys == {PageSize};
    }
    assert InsertTree(f, m, key, value).0 == InsertPages(g.0, g.1, g.2, key, value, 1);
    InsertUnderTwoLeaves(g.0, 2 * PageSize, key, value, 1);
  }

  /** The root split of `insert` on a one-page file whose root leaf is full. */
  lemma SplitFreshRoot(f: File, full: Page)
    requires f.open && f.pages.Keys == {PageSize} && f.end == 2 * PageSize && f.pages[PageSize] == full
    requires full.leaf && full.count == MaxKeys
    ensures var g := GrowRoot(f, PageSize, full);
      var top := g.2;
      g.1 == 2 * PageSize && g.0.open && g.0.pages.Keys == {PageSize, 2 * PageSize, 3 * PageSize}
      && g.0.pages[2 * PageSize] == top && !top.leaf && top.count == 1 && top.level == Inc16(full.level)
      && top.children[0] == PageSize && top.children[1] == 3 * PageSize
      && g.0.pages[PageSize].leaf && g.0.pages[3 * PageSize].leaf
      && g.0.pages[PageSize].count == MinKeys && g.0.pages[3 * PageSize].count == MinKeys
  {
    var f1 := Alloc(f);
    assert f1.pages.Keys == {PageSize, 2 * PageSize} && f1.end == 3 * PageSize;
    var parent := NewRoot(full, PageSize);
    assert Fetch(f1, PageSize, EmptyPage) == full;
    var f2 := Alloc(f1);
    assert f2.pages.Keys == {PageSize, 2 * PageSize, 3 * PageSize};
    var p1 := WithSeparator(parent, 0, full.keys[MinKeys], 3 * PageSize);
    var f3 := Store(f2, PageSize, LowerHalf(full, 3 * PageSize));
    var f4 := Store(f3, 3 * PageSize, UpperHalf(full, PageSize));
    var f5 := Store(f4, 2 * PageSize, p1);
    assert SplitPages(f1, 2 * PageSize, parent, 0) == (f5, p1);
    assert f5.pages[PageSize] == LowerHalf(full, 3 * PageSize);
    assert f5.pages[3 * PageSize] == UpperHalf(full, PageSize);
  }

  /** An insertion from a root with one key over two leaves with MIN_KEYS keys each goes into one of the leaves. */
  lemma InsertUnderTwoLeaves(f: File, off: nat, key: string, value: BPlusValue, fuel: nat)
    requires f.open && off in f.pages && fuel > 0
    requires var top := f.pages[off];
      !top.leaf && top.count == 1
      && var c0 := top.children[0];
      var c1 := top.children[1];
      c0 != 0 && c1 != 0 && c0 != off && c1 != off && c0 != c1 && c0 in f.pages && c1 in f.pages
      && f.pages[c0].leaf && f.pages[c1].leaf && f.pages[c0].count == MinKeys && f.pages[c1].count == MinKeys
    ensures var top := f.pages[off];
      var r := InsertPages(f, off, top, key, value, fuel);
      r.pages.Keys == f.pages.Keys && r.pages[off] == top
      && r.pages[top.children[0]].leaf && r.pages[top.children[1]].leaf
      && r.pages[top.children[0]].count + r.pages[top.children[1]].count == MaxKeys
  {
    var top := f.pages[off];
    var pos := DescentSlot(top, key);
    var c := top.children[pos];
    assert pos == 0 || pos == 1;
    var child := f.pages[c];
    assert Fetch(f, c, EmptyPage) == child && child.count < MaxKeys;
    assert InsertPages(f, off, top, key, value, fuel) == InsertPages(f, c, child, key, value, fuel - 1);
  }

  /** An insertion into a root leaf with room, that does not hold the key yet, is found by the search afterwards. */
  lemma InsertedIntoRootLeafIsFound(f: File, m: Metadata, key: string, value: BPlusValue, fuel: nat)
    requires f.open && Bounded(f) && m.rootOffset != 0 && m.rootOffset in f.pages
    requires var root := f.pages[m.rootOffset];
      root.leaf && root.count < MaxKeys && Sorted(root) && forall i :: 0 <= i < root.count ==> root.keys[i] != key
    ensures var r := InsertTree(f, m, key, value);
      r.1.rootOffset == m.rootOffset && Find(r.0, m.rootOffset, key, fuel) == Some(value)
      && Sorted(r.0.pages[m.rootOffset])
  {
    var root := f.pages[m.rootOffset];
    assert Fetch(f, m.rootOffset, EmptyPage) == root;
    FoundWhereInserted(root, key, value);
    LeafWithSorted(root, key, value);
    var r := InsertTree(f, m, key, value);
    assert Fetch(r.0, m.rootOffset, EmptyPage) == LeafWith(root, key, value);
  }

  // A failed stream.

  /** With reads and writes failing, `insert` leaves the file as it was: the root reads as an empty leaf, and its write is lost. */
  lemma FailedInsertKeepsFile(f: File, m: Metadata, key: string, value: BPlusValue)
    requires !f.open && Bounded(f)
    ensures InsertTree(f, m, key, value).0 == f
  {
    assert Fetch(f, m.rootOffset, EmptyPage) == EmptyPage;
  }

  /** With reads failing, every search misses. */
  lemma FailedFindMisses(f: File, off: nat, key: string, fuel: nat)
    requires !f.open
    ensures Find(f, off, key, fuel) == None
  {
    assert Fetch(f, off, EmptyPage) == EmptyPage;
  }

  /** With reads failing, `scan_all` lists nothing. */
  lemma FailedScanEmpty(f: File, current: nat, fuel: nat)
    requires !f.open
    ensures ScanFrom(f, current, fuel) == []
  {
    assert Fetch(f, current, EmptyPage) == EmptyPage;
  }

  // The loops of the node operations.

  /** `find_key_position`. */
  method FindKeyPosition(n: Page, key: string) returns (pos: nat)
    ensures pos == KeyPosition(n, key)
  {
    pos := 0;
    while pos < n.count && Less(n.keys[pos], key)
      invariant pos <= n.count
      invariant forall j :: 0 <= j < pos ==> Less(n.keys[j], key)
      invariant Scan(n, key, pos) == Scan(n, key, 0)
      decreases n.count - pos
    {
      pos := pos + 1;
    }
  }

  /** The right-to-left scan of `insert_non_full` over an internal node: the child to descend into. */
  method ChildSlot(n: Page, key: string) returns (pos: nat)
    ensures pos == DescentSlot(n, key)
  {
    var i: int := n.count - 1;
    while i >= 0 && Greater(n.keys[i], key)
      invariant -1 <= i < n.count
      invariant forall j :: i < j < n.count ==> Greater(n.keys[j], key)
      decreases i + 1
    {
      i := i - 1;
    }
    pos := i + 1;
    InsertionPointUnique(n.keys, n.count, key, pos);
  }

  /** The leaf branch of `insert_non_full`: shift the greater keys and their values right, then store the pair. */
  method LeafInsert(n: Page, key: string, value: BPlusValue) returns (r: Page)
    requires n.count < MaxKeys
    ensures r == LeafWith(n, key, value)
  {
    var keys := n.keys;
    var values := n.values;
    var i: int := n.count - 1;
    while i >= 0 && Greater(keys[i], key)
      invariant ShiftedDownTo(n.keys, keys, n.count, i) && ShiftedDownTo(n.values, values, n.count, i)
      invariant forall j :: i < j < n.count ==> Greater(n.keys[j], key)
      decreases i + 1
    {
      ShiftStep(n.keys, keys, n.count, i);
      ShiftStep(n.values, values, n.count, i);
      keys := keys[i + 1 := keys[i]];
      values := values[i + 1 := values[i]];
      i := i - 1;
    }
    var p := i + 1;
    InsertionPointUnique(n.keys, n.count, key, p);
    ShiftedAt(n.keys, keys, n.count, p, key);
    ShiftedAt(n.values, values, n.count, p, value);
    r := n.(keys := keys[p := key], values := values[p := value], count := n.count + 1);
  }

  /** `split_child` on the child: the child as it is written back, and the new node. */
  method SplitNode(child: Page, childOff: nat, newOff: nat) returns (lower: Page, upper: Page)
    ensures lower == LowerHalf(child, newOff) && upper == UpperHalf(child, childOff)
  {
    var keys := CopyInto(EmptyPage.keys, child.keys, MinKeys + 1, MinKeys);
    upper := EmptyPage.(leaf := child.leaf, level := child.level, count := MinKeys, keys := keys);
    lower := child;
    if child.leaf {
      var values := CopyInto(EmptyPage.values, child.values, MinKeys + 1, MinKeys);
      upper := upper.(values := values, nextLeaf := child.nextLeaf, prevLeaf := childOff);
      lower := lower.(nextLeaf := newOff);
    } else {
      var children := CopyInto(EmptyPage.children, child.children, MinKeys + 1, MinKeys + 1);
      upper := upper.(children := children);
    }
    lower := lower.(count := MinKeys);
  }

  /** The shift loop of `split_child` over the parent, then the median and the new child. */
  method AddSeparator(parent: Page, ci: nat, median: string, newOff: nat) returns (r: Page)
    requires ci <= parent.count < MaxKeys
    ensures r == WithSeparator(parent, ci, median, newOff)
  {
    var keys, children := ShiftAbove(parent, ci);
    ShiftedAt(parent.keys, keys, parent.count, ci, median);
    ShiftedAt(parent.children, children, parent.count + 1, ci + 1, newOff);
    r := parent.(keys := keys[ci := median], children := children[ci + 1 := newOff], count := parent.count + 1);
  }

  /** The loop of `split_child` that moves the parent's keys from ci and children from ci+1 one slot up. */
  method ShiftAbove(parent: Page, ci: nat) returns (keys: seq<string>, children: seq<nat>)
    requires ci <= parent.count < MaxKeys
    ensures ShiftedDownTo(parent.keys, keys, parent.count, ci as int - 1)
    ensures ShiftedDownTo(parent.children, children, parent.count + 1, ci)
  {
    keys := parent.keys;
    children := parent.children;
    var i: nat := parent.count;
    while i > ci
      invariant ci <= i <= parent.count
      invariant ShiftedDownTo(parent.keys, keys, parent.count, i - 1)
      invariant ShiftedDownTo(parent.children, children, parent.count + 1, i)
      decreases i
    {
      ShiftStep(parent.keys, keys, parent.count, i - 1);
      ShiftStep(parent.children, children, parent.count + 1, i);
      keys := keys[i := keys[i - 1]];
      children := children[i + 1 := children[i]];
      i := i - 1;
    }
  }

  /** The inner loop of `scan_all`: a node's key_count pairs, in slot order. */
  method LeafPairs(n: Page) returns (r: seq<(string, BPlusValue)>)
    ensures r == Entries(n)
  {
    r := [];
    for i := 0 to n.count
      invariant r == Entries(n)[..i]
    {
      r := r + [(n.keys[i], n.values[i])];
    }
  }

  /**
   * `BPlusTree`: the file (whether it exists, its metadata page, its node
   * pages and the state of the stream) and the metadata in memory.
   */
  class BPlusTree {
    var fileExists: bool
    /** The metadata page as the file holds it. */
    var diskMeta: Metadata
    /**
     * The node pages, the length of the file, and whether node reads and
     * writes succeed, which they do on a stream open for both that has not
     * failed.
     */
    var file: File
    /** The state of `file_`. */
    var stream: Stream
    /** `metadata_`. */
    var meta: Metadata

    /**
     * Node reads and writes succeed exactly on a stream open for both that
     * has not failed, and only a stream that is not closed needs a file.
     */
    ghost predicate Valid()
      reads this
    {
      Bounded(file) && (file.open <==> stream.ReadWrite?) && (!stream.Closed? ==> fileExists)
    }

    /**
     * `BPlusTree(filename, index_name)`: the name goes into the in-memory
     * metadata and nothing is opened. When `fileExists`, the file holds
     * `fileMeta` and the given pages.
     */
    constructor(indexName: string, fileExists: bool, fileMeta: Metadata, pages: map<nat, Page>, end: nat)
      requires Bounded(File(false, pages, end))
      ensures Valid() && meta == NamedMetadata(indexName) && stream == Closed
      ensures this.fileExists == fileExists && diskMeta == fileMeta && file == File(false, pages, end)
    {
      this.fileExists := fileExists;
      diskMeta := fileMeta;
      file := File(false, pages, end);
      stream := Closed;
      meta := NamedMetadata(indexName);
    }

    /**
     * `read_node(o, node)`: offset 0 and a closed or failed stream fail,
     * leaving `prior`. On a stream open for output only the read would also
     * fail the stream; `insert`, `search` and `scan_all` record that before
     * their first read.
     */
    method ReadNode(o: nat, prior: Page) returns (ok: bool, n: Page)
      requires !stream.WriteOnly?
      ensures ok == (file.open && o != 0 && o in file.pages) && n == Fetch(file, o, prior)
    {
      if o == 0 || !file.open || o !in file.pages {
        return false, prior;
      }
      return true, file.pages[o];
    }

    /** `write_node(o, node)`: succeeds when the stream is open and has not failed. */
    method WriteNode(o: nat, n: Page) returns (ok: bool)
      requires Valid() && !stream.WriteOnly?
      modifies this`file
      ensures Valid() && ok == file.open && file == Store(old(file), o, n)
    {
      file := Store(file, o, n);
      ok := file.open;
    }

    /** `allocate_node`. */
    method AllocateNode() returns (off: nat)
      requires Valid() && !stream.WriteOnly?
      modifies this`file
      ensures Valid() && off == AllocOffset(old(file)) && file == Alloc(old(file))
    {
      off := AllocOffset(file);
      file := Alloc(file);
    }

    /** `split_child(parentOff, parent, ci)`, as SplitPages says. */
    method SplitChild(parentOff: nat, parent: Page, ci: nat) returns (parent1: Page)
      requires Valid() && !stream.WriteOnly? && ci <= parent.count < MaxKeys
      modifies this`file
      ensures Valid() && (file, parent1) == SplitPages(old(file), parentOff, parent, ci)
    {
      var childOff := parent.children[ci];
      var _, child := ReadNode(childOff, EmptyPage);
      var newOff := AllocateNode();
      var lower, upper := SplitNode(child, childOff, newOff);
      parent1 := AddSeparator(parent, ci, child.keys[MinKeys], newOff);
      var _ := WriteNode(childOff, lower);
      var _ := WriteNode(newOff, upper);
      var _ := WriteNode(parentOff, parent1);
    }

    /** `insert_non_full(off, node, key, value)`, descending at most `fuel` levels, as InsertPages says. */
    method InsertNonFull(off: nat, node: Page, key: string, value: BPlusValue, fuel: nat)
      requires Valid() && !stream.WriteOnly? && node.count < MaxKeys
      modifies this`file
      ensures Valid() && file == InsertPages(old(file), off, node, key, value, fuel)
      decreases fuel, 2
    {
      if node.leaf {
        var r := LeafInsert(node, key, value);
        var _ := WriteNode(off, r);
        return;
      }
      var pos := ChildSlot(node, key);
      var _, child := ReadNode(node.children[pos], EmptyPage);
      if child.count >= MaxKeys {
        SplitAndDescend(off, node, pos, child, key, value, fuel);
      } else if fuel > 0 {
        InsertNonFull(node.children[pos], child, key, value, fuel - 1);
      }
    }

    /** The split branch of `insert_non_full`, as SplitDescent says. */
    method SplitAndDescend(off: nat, node: Page, pos: nat, child: Page, key: string, value: BPlusValue, fuel: nat)
      requires Valid() && !stream.WriteOnly? && pos <= node.count < MaxKeys
      modifies this`file
      ensures Valid() && file == SplitDescent(old(file), off, node, pos, child, key, value, fuel)
      decreases fuel, 1
    {
      var node1 := SplitChild(off, node, pos);
      var pos1 := pos;
      if Less(node1.keys[pos], key) {
        pos1 := pos + 1;
      }
      ReadAndDescend(node1.children[pos1], child, key, value, fuel);
    }

    /** The re-read of the child after the split and the descent into it, as Descend says. */
    method ReadAndDescend(o: nat, child: Page, key: string, value: BPlusValue, fuel: nat)
      requires Valid() && !stream.WriteOnly?
      modifies this`file
      ensures Valid()
      ensures file == Descend(old(file), o, child, key, value, fuel)
      decreases fuel, 0
    {
      ghost var f0 := file;
      var _, child1 := ReadNode(o, child);
      assert child1 == Fetch(f0, o, child);
      if fuel > 0 && child1.count < MaxKeys {
        InsertNonFull(o, child1, key, value, fuel - 1);
        assert file == InsertPages(f0, o, child1, key, value, fuel - 1);
      }
    }

    /**
     * `create()`: truncates the file (closing the stream first) and writes
     * the in-memory metadata, with the root and the leftmost leaf set to
     * the first page after it, and an empty root leaf there; fails when the
     * file cannot be created. The entry count and height in memory are
     * written as they are. The stream stays open for output only, so node
     * reads do not succeed on it.
     */
    method Create(canCreate: bool) returns (ok: bool)
      requires Valid()
      modifies this
      ensures Valid() && ok == canCreate && stream == if ok then WriteOnly else Closed
      ensures ok ==> fileExists && meta == CreatedMetadata(old(meta)) && diskMeta == meta && file == FreshFile.(open := false)
      ensures !ok ==> fileExists == old(fileExists) && diskMeta == old(diskMeta) && meta == old(meta)
                      && file == old(file).(open := false)
    {
      file, stream := file.(open := false), Closed;
      if !canCreate {
        return false;
      }
      meta := CreatedMetadata(meta);
      fileExists, diskMeta, file, stream := true, meta, FreshFile.(open := false), WriteOnly;
      ok := true;
    }

    /**
     * `open()`: a closed stream is opened for input and output and the
     * metadata page is read; an open one is re-read. Either succeeds only
     * on the tag "BPLUS001", and a bad tag closes the stream. On a stream
     * open for output only, or one that has failed, the read fails: the
     * metadata in memory is kept, its tag is the one checked, and the
     * stream is left failed.
     */
    method Open() returns (ok: bool)
      requires Valid()
      modifies this
      ensures Valid() && fileExists == old(fileExists) && diskMeta == old(diskMeta)
      ensures file.pages == old(file.pages) && file.end == old(file.end)
      ensures old(stream).Closed? ==>
        ok == (fileExists && diskMeta.magic == Magic) && meta == if fileExists then diskMeta else old(meta)
      ensures old(stream).ReadWrite? ==> ok == (diskMeta.magic == Magic) && meta == diskMeta
      ensures old(stream).WriteOnly? || old(stream).Failed? ==> ok == (old(meta).magic == Magic) && meta == old(meta)
      ensures stream == if !ok then Closed else if old(stream).Closed? then ReadWrite else AfterRead(old(stream))
    {
      if stream.Closed? {
        if !fileExists {
          return false;
        }
        meta, stream := diskMeta, ReadWrite;
      } else if stream.ReadWrite? {
        meta := diskMeta;
      } else {
        stream := Failed;
      }
      ok := meta.magic == Magic;
      if !ok {
        stream := Closed;
      }
      file := file.(open := stream.ReadWrite?);
    }

    /** `close()`: writes the metadata back when the stream takes writes, and closes it. */
    method Close()
      requires Valid()
      modifies this
      ensures Valid() && stream == Closed && file.pages == old(file.pages) && file.end == old(file.end)
      ensures diskMeta == if Writable(old(stream)) then meta else old(diskMeta)
      ensures fileExists == old(fileExists) && meta == old(meta)
    {
      if Writable(stream) {
        diskMeta := meta;
      }
      file, stream := file.(open := false), Closed;
    }

    /**
     * `insert(key, value)`, as InsertTree says; it always succeeds. Its
     * first read, of the root, fails a stream open for output only.
     */
    method Insert(key: string, value: BPlusValue) returns (ok: bool)
      requires Valid()
      modifies this`file, this`meta, this`stream
      ensures Valid() && ok && stream == AfterRead(old(stream))
      ensures (file, meta) == InsertTree(old(file), old(meta), key, value)
    {
      stream := AfterRead(stream);
      InsertFromRoot(key, value);
      ok := true;
    }

    /** The steps of `insert` from the read of the root on, on a stream that is not open for output only. */
    method InsertFromRoot(key: string, value: BPlusValue)
      requires Valid() && !stream.WriteOnly?
      modifies this`file, this`meta
      ensures Valid() && (file, meta) == InsertTree(old(file), old(meta), key, value)
    {
      var _, root := ReadNode(meta.rootOffset, EmptyPage);
      InsertTreeUnfolds(file, meta, key, value);
      if root.count >= MaxKeys {
        var newOff := InsertUnderNewRoot(root, key, value, |file.pages|);
        CountEntry(newOff, Inc32(meta.treeHeight));
      } else {
        InsertNonFull(meta.rootOffset, root, key, value, |file.pages|);
        CountEntry(meta.rootOffset, meta.treeHeight);
      }
    }

    /**
     * The branch of `insert` for a full root: the root split and
     * `insert_non_full` from the new root, whose offset is returned. A
     * full root was read, so the stream has not failed.
     */
    method InsertUnderNewRoot(root: Page, key: string, value: BPlusValue, fuel: nat) returns (newOff: nat)
      requires Valid() && !stream.WriteOnly? && file.open && root.count >= MaxKeys
      modifies this`file
      ensures Valid()
      ensures var g := GrowRoot(old(file), meta.rootOffset, root);
        newOff == g.1 && file == InsertPages(g.0, g.1, g.2, key, value, fuel)
    {
      var top;
      newOff, top := SplitRoot(root);
      InsertNonFull(newOff, top, key, value, fuel);
    }

    /** The end of `insert`: the root and the height it leaves, and one more entry. */
    method CountEntry(rootOffset: nat, treeHeight: u32)
      modifies this`meta
      ensures meta == old(meta).(rootOffset := rootOffset, treeHeight := treeHeight,
                                 totalEntries := Inc64(old(meta).totalEntries))
    {
      meta := meta.(rootOffset := rootOffset, treeHeight := treeHeight, totalEntries := Inc64(meta.totalEntries));
    }

    /**
     * The root split of `insert`, as GrowRoot says: a new root at the end
     * of the file over the old one, split with `split_child`, and read back.
     */
    method SplitRoot(root: Page) returns (newOff: nat, top: Page)
      requires Valid() && stream.ReadWrite? && root.count >= MaxKeys
      modifies this`file
      ensures Valid() && (file, newOff, top) == GrowRoot(old(file), meta.rootOffset, root)
    {
      ghost var f0 := file;
      newOff := AllocateNode();
      var newRoot := NewRoot(root, meta.rootOffset);
      var top1 := SplitChild(newOff, newRoot, 0);
      SplitParentReadBack(Alloc(f0), newOff, newRoot, 0);
      var _, top2 := ReadNode(newOff, top1);
      top := top2;
    }

    /** `search(key, result)`, as Find says from the root; on a miss `prior` is left as it was. */
    method Search(key: string, prior: BPlusValue) returns (found: bool, result: BPlusValue)
      requires Valid()
      modifies this`stream
      ensures Valid() && stream == AfterRead(old(stream))
      ensures var f := Find(file, meta.rootOffset, key, |file.pages|);
        found == f.Some? && result == if found then f.value else prior
    {
      stream := AfterRead(stream);
      found, result := SearchFrom(meta.rootOffset, key, prior, |file.pages|);
    }

    /** `search_recursive(off, key, result)`. */
    method SearchFrom(off: nat, key: string, prior: BPlusValue, fuel: nat) returns (found: bool, result: BPlusValue)
      requires !stream.WriteOnly?
      ensures var f := Find(file, off, key, fuel);
        found == f.Some? && result == if found then f.value else prior
      decreases fuel
    {
      found, result := false, prior;
      if off == 0 {
        return;
      }
      var _, n := ReadNode(off, EmptyPage);
      var pos := FindKeyPosition(n, key);
      if n.leaf {
        if pos < n.count && n.keys[pos] == key {
          found, result := true, n.values[pos];
        }
      } else if fuel > 0 {
        found, result := SearchFrom(n.children[pos], key, prior, fuel - 1);
      }
    }

    /**
     * `scan_all()`: the pairs of the leaf chain from the leftmost leaf. Its
     * first read fails a stream open for output only.
     */
    method ScanAll() returns (results: seq<(string, BPlusValue)>)
      requires Valid()
      modifies this`stream
      ensures Valid() && stream == AfterRead(old(stream))
      ensures results == ScanFrom(file, meta.leftmostLeaf, |file.pages|)
    {
      stream := AfterRead(stream);
      results := ScanLeaves();
    }

    /** The loop of `scan_all`, following at most one link per page. */
    method ScanLeaves() returns (results: seq<(string, BPlusValue)>)
      requires !stream.WriteOnly?
      ensures results == ScanFrom(file, meta.leftmostLeaf, |file.pages|)
    {
      results := [];
      var current := meta.leftmostLeaf;
      var fuel: nat := |file.pages|;
      while current != 0 && fuel > 0
        invariant results + ScanFrom(file, current, fuel) == ScanFrom(file, meta.leftmostLeaf, |file.pages|)
        decreases fuel
      {
        var _, leaf := ReadNode(current, EmptyPage);
        var pairs := LeafPairs(leaf);
        results := results + pairs;
        current := leaf.nextLeaf;
        fuel := fuel - 1;
      }
    }

    /** `get_total_entries()`. */
    function TotalEntries(): u64
      reads this
    {
      meta.totalEntries
    }
  }
}
