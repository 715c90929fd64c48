/**
 * The composite-key B-tree index file (BTree.h): 4096-byte node pages
 * after a 4096-byte metadata page, at most 9 keys per node, preemptive
 * top-down splitting, a leaf chain, and a 256-entry FIFO node cache that is
 * written through.
 *
 * The file is a map from page offset to node together with its length;
 * `allocate_node` hands out the current length. The specification
 * functions below describe the algorithms on that map; the class `BTree`
 * runs them through the node cache and is proved to agree with them
 * whenever the cache agrees with the file.
 */
module BTree {
  import opened Wrappers
  import opened Ints
  import opened Seqs
  import opened NodeArrays
  import opened Streams

  const MaxKeys: nat := 9
  const MinKeys: nat := 4
  const MaxChildren: nat := 10
  /** Size of a node page and of the metadata page; the root of a new file sits right after the metadata. */
  const PageSize: nat := 4096
  const Magic: string := "BTREE001"
  const CacheSize: nat := 256

  // Keys and their order.

  /** `CompositeKey`. */
  datatype CompositeKey = CompositeKey(entityType: u8, primaryId: u64, timestamp: u64, sequence: u32)

  const ZeroKey := CompositeKey(0, 0, 0, 0)

  /** `operator<`: lexicographic over type, id, timestamp and sequence. */
  predicate Less(a: CompositeKey, b: CompositeKey)
  {
    if a.entityType != b.entityType then a.entityType < b.entityType
    else if a.primaryId != b.primaryId then a.primaryId < b.primaryId
    else if a.timestamp != b.timestamp then a.timestamp < b.timestamp
    else a.sequence < b.sequence
  }

  /** `operator<=`, `operator>` and `operator>=`, derived from `<` and `==`. */
  predicate LessEq(a: CompositeKey, b: CompositeKey) { Less(a, b) || a == b }
  predicate Greater(a: CompositeKey, b: CompositeKey) { !LessEq(a, b) }
  predicate GreaterEq(a: CompositeKey, b: CompositeKey) { !Less(a, b) }

  /** `<` is a strict total order, and the derived operators are its converse and reflexive closures. */
  lemma KeyOrder(a: CompositeKey, b: CompositeKey, c: CompositeKey)
    ensures !Less(a, a)
    ensures Less(a, b) ==> !Less(b, a)
    ensures Less(a, b) && Less(b, c) ==> Less(a, c)
    ensures Less(a, b) || a == b || Less(b, a)
    ensures Greater(a, b) <==> Less(b, a)
    ensures GreaterEq(a, b) <==> LessEq(b, a)
  {
  }

  /** `BTreeValue`: where the record lives. */
  datatype BTreeValue = BTreeValue(recordOffset: u64, fileId: u8, recordSize: u16)

  const NoValue := BTreeValue(0, 0, 0)

  // Nodes.

  /**
   * `BTreeNode`: the node type, `key_count`, the level, the fixed key,
   * value and child arrays (slots at and beyond key_count keep whatever
   * they held), and the leaf chain. The page padding, parent offset,
   * dirty flag and checksum are never read and are not modelled.
   */
  datatype Node = Node(leaf: bool, count: nat, level: u16, keys: seq<CompositeKey>, values: seq<BTreeValue>,
                       children: seq<nat>, nextLeaf: nat, prevLeaf: nat)

  /** A node page: arrays of their declared sizes, and no more keys than MAX_KEYS. */
  type Page = n: Node | |n.keys| == MaxKeys && |n.values| == MaxChildren && |n.children| == MaxChildren && n.count <= MaxKeys
    witness Node(true, 0, 0, [ZeroKey, ZeroKey, ZeroKey, ZeroKey, ZeroKey, ZeroKey, ZeroKey, ZeroKey, ZeroKey],
    [NoValue, NoValue, NoValue, NoValue, NoValue, NoValue, NoValue, NoValue, NoValue, NoValue], [0, 0, 0, 0, 0, 0, 0, 0, 0, 0], 0, 0)

  /** A default-constructed `BTreeNode`: an empty leaf. */
  const EmptyPage: Page := Node(true, 0, 0, [ZeroKey, ZeroKey, ZeroKey, ZeroKey, ZeroKey, ZeroKey, ZeroKey, ZeroKey, ZeroKey],
    [NoValue, NoValue, NoValue, NoValue, NoValue, NoValue, NoValue, NoValue, NoValue, NoValue], [0, 0, 0, 0, 0, 0, 0, 0, 0, 0], 0, 0)

  /** The pairs a leaf holds, in slot order. */
  function Entries(n: Page): (r: seq<(CompositeKey, BTreeValue)>)
    ensures |r| == n.count
    ensures forall i :: 0 <= i < n.count ==> r[i] == (n.keys[i], n.values[i])
  {
    Zip(n.keys, n.values, n.count)
  }

  /** The keys a node holds are in non-decreasing order. */
  predicate Sorted(n: Page)
  {
    forall i, j :: 0 <= i < j < n.count ==> LessEq(n.keys[i], n.keys[j])
  }

  /** `find_key_position`: the first slot whose key is not below `key`, or key_count. */
  function KeyPosition(n: Page, key: CompositeKey): (r: nat)
    ensures r <= n.count
    ensures forall i :: 0 <= i < r ==> Less(n.keys[i], key)
    ensures r < n.count ==> !Less(n.keys[r], key)
  {
    Scan(n, key, 0)
  }

  function Scan(n: Page, key: CompositeKey, i: nat): (r: nat)
    requires i <= n.count
    requires forall j :: 0 <= j < i ==> Less(n.keys[j], key)
    ensures i <= r <= n.count
    ensures forall j :: 0 <= j < r ==> Less(n.keys[j], key)
    ensures r < n.count ==> !Less(n.keys[r], key)
    decreases n.count - i
  {
    if i < n.count && Less(n.keys[i], key) then Scan(n, key, i + 1) else i
  }

  /**
   * Where the right-to-left loops of `insert_non_full` stop: one past the
   * last of the first k keys that is not greater than `key`, or 0.
   */
  function InsertionPoint(keys: seq<CompositeKey>, k: nat, key: CompositeKey): (r: nat)
    requires k <= |keys|
    ensures r <= k
    ensures forall i :: r <= i < k ==> Greater(keys[i], key)
    ensures r > 0 ==> !Greater(keys[r - 1], key)
  {
    if k == 0 then 0
    else if Greater(keys[k - 1], key) then InsertionPoint(keys, k - 1, key)
    else k
  }

  /** The leaf branch of `insert_non_full`: `key` and `value` go in at the insertion point. */
  function LeafWith(n: Page, key: CompositeKey, value: BTreeValue): (r: Page)
    requires n.count < MaxKeys
    ensures r.count == n.count + 1 && r.leaf == n.leaf && r.level == n.level && r.nextLeaf == n.nextLeaf
  {
    var p := InsertionPoint(n.keys, n.count, key);
    n.(keys := Shifted(n.keys, n.count, p, key), values := Shifted(n.values, n.count, p, value), count := n.count + 1)
  }

  /** The pairs of the leaf afterwards are its pairs before with the new one at the insertion point. */
  lemma LeafWithEntries(n: Page, key: CompositeKey, value: BTreeValue)
    requires n.count < MaxKeys
    ensures var p := InsertionPoint(n.keys, n.count, key);
      Entries(LeafWith(n, key, value)) == Entries(n)[..p] + [(key, value)] + Entries(n)[p..]
  {
    ZipShifted(n.keys, n.values, n.count, InsertionPoint(n.keys, n.count, key), key, value);
  }

  /** Inserting into a sorted leaf keeps it sorted. */
  lemma LeafWithSorted(n: Page, key: CompositeKey, value: BTreeValue)
    requires n.count < MaxKeys && Sorted(n)
    ensures Sorted(LeafWith(n, key, value))
  {
    var p := InsertionPoint(n.keys, n.count, key);
    var r := LeafWith(n, key, value);
    forall i, j | 0 <= i < j < r.count
      ensures LessEq(r.keys[i], r.keys[j])
    {
      var ki := if i < p then n.keys[i] else if i == p then key else n.keys[i - 1];
      var kj := if j < p then n.keys[j] else if j == p then key else n.keys[j - 1];
      assert r.keys[i] == ki && r.keys[j] == kj;
      if i < p && j == p {
        assert LessEq(n.keys[i], n.keys[p - 1]);
        KeyOrder(n.keys[i], n.keys[p - 1], key);
      } else if i == p && j > p {
        assert LessEq(n.keys[p], n.keys[j - 1]);
        KeyOrder(key, n.keys[p], n.keys[j - 1]);
      } else if i < p && j > p {
        assert LessEq(n.keys[i], n.keys[j - 1]);
      }
    }
  }

  /** In a sorted leaf without `key`, the scan of `search` stops exactly where the insertion put it. */
  lemma FoundWhereInserted(n: Page, key: CompositeKey, value: BTreeValue)
    requires n.count < MaxKeys && Sorted(n)
    requires forall i :: 0 <= i < n.count ==> n.keys[i] != key
    ensures var r := LeafWith(n, key, value);
      var pos := KeyPosition(r, key);
      pos < r.count && r.keys[pos] == key && r.values[pos] == value
  {
    var p := InsertionPoint(n.keys, n.count, key);
    var r := LeafWith(n, key, value);
    forall i | 0 <= i < p
      ensures Less(r.keys[i], key)
    {
      assert r.keys[i] == n.keys[i];
      KeyOrder(n.keys[i], n.keys[p - 1], key);
      assert LessEq(n.keys[i], n.keys[p - 1]);
    }
    assert r.keys[p] == key;
    KeyOrder(key, key, key);
    assert KeyPosition(r, key) == p;
  }

  // Splitting a full child.

  /** What the child of `split_child` keeps: its first MIN_KEYS keys, and for a leaf the link to the new node. */
  function LowerHalf(child: Page, newOff: nat): (r: Page)
    ensures r.count == MinKeys && r.keys == child.keys && r.leaf == child.leaf
    ensures r.nextLeaf == if child.leaf then newOff else child.nextLeaf
  {
    child.(count := MinKeys, nextLeaf := if child.leaf then newOff else child.nextLeaf)
  }

  /**
   * The new node of `split_child`: the last MIN_KEYS keys of the child,
   * with their values for a leaf (the median's value is not kept anywhere)
   * or the last five children otherwise; a leaf goes between the child and
   * the child's old successor.
   */
  function UpperHalf(child: Page, childOff: nat): (r: Page)
    ensures r.count == MinKeys && r.leaf == child.leaf && r.level == child.level
    ensures r.keys[..MinKeys] == child.keys[MinKeys + 1..]
  {
    var keys := child.keys[MinKeys + 1..] + EmptyPage.keys[MinKeys..];
    if child.leaf then
      EmptyPage.(count := MinKeys, level := child.level, keys := keys,
        values := child.values[MinKeys + 1..MaxKeys] + EmptyPage.values[MinKeys..],
        nextLeaf := child.nextLeaf, prevLeaf := childOff)
    else
      EmptyPage.(leaf := false, count := MinKeys, level := child.level, keys := keys,
        children := child.children[MinKeys + 1..] + EmptyPage.children[MinKeys + 1..])
  }

  /** The parent of `split_child`: the median at slot ci and the new node right after the child. */
  function WithSeparator(parent: Page, ci: nat, median: CompositeKey, newOff: nat): (r: Page)
    requires ci <= parent.count < MaxKeys
    ensures r.count == parent.count + 1 && r.keys[ci] == median && r.children[ci + 1] == newOff
    ensures r.children[ci] == parent.children[ci]
    ensures r.leaf == parent.leaf
  {
    parent.(keys := Shifted(parent.keys, parent.count, ci, median),
            children := Shifted(parent.children, parent.count + 1, ci + 1, newOff),
            count := parent.count + 1)
  }

  /** A split of a full child keeps every key of the child: four left, the median in the parent, four right. */
  lemma SplitKeepsKeys(child: Page, childOff: nat, newOff: nat)
    requires child.count == MaxKeys
    ensures LowerHalf(child, newOff).keys[..MinKeys] + [child.keys[MinKeys]] + UpperHalf(child, childOff).keys[..MinKeys]
            == child.keys[..child.count]
  {
  }

  /** The leaf chain after splitting a leaf: child, then the new node, then the child's old successor. */
  lemma SplitLinksLeaves(child: Page, childOff: nat, newOff: nat)
    requires child.leaf && child.count == MaxKeys
    ensures LowerHalf(child, newOff).nextLeaf == newOff
    ensures UpperHalf(child, childOff).prevLeaf == childOff && UpperHalf(child, childOff).nextLeaf == child.nextLeaf
    ensures Entries(UpperHalf(child, childOff)) == Entries(child)[MinKeys + 1..MaxKeys]
  {
  }

  // The file.

  /** The node pages of the file, by offset, and its length. */
  datatype Disk = Disk(pages: map<nat, Page>, end: nat)

  /** Every page lies below the end of the file. */
  predicate Bounded(d: Disk)
  {
    forall o :: o in d.pages ==> o < d.end
  }

  /** `read_node` on a file the cache agrees with: the page at o, or `prior` when there is none. */
  function Fetch(d: Disk, o: nat, prior: Page): Page
  {
    if o != 0 && o in d.pages then d.pages[o] else prior
  }

  /** `write_node` on an open file: offset 0 is refused; a page past the end extends the file. */
  function Store(d: Disk, o: nat, n: Page): (r: Disk)
    ensures Bounded(d) ==> Bounded(r)
    ensures o != 0 ==> o in r.pages && r.pages[o] == n && r.pages.Keys == d.pages.Keys + {o}
    ensures o == 0 ==> r == d
    ensures forall p :: p != o && p in d.pages ==> p in r.pages && r.pages[p] == d.pages[p]
  {
    if o == 0 then d else Disk(d.pages[o := n], if o + PageSize > d.end then o + PageSize else d.end)
  }

  /** `allocate_node`: an empty page at the end of the file. */
  function Alloc(d: Disk): (r: Disk)
    ensures Bounded(d) ==> Bounded(r) && d.end !in d.pages
    ensures r.end == d.end + PageSize && d.end in r.pages
    ensures Bounded(d) ==> forall p :: p in d.pages ==> p in r.pages && r.pages[p] == d.pages[p]
  {
    Disk(d.pages[d.end := EmptyPage], d.end + PageSize)
  }

  /**
   * `split_child(parentOff, parent, ci)`: splits the child at slot ci into
   * itself and a new node at the end of the file, inserts the median into
   * the parent, and writes child, new node and parent; nothing happens when
   * the child cannot be read. The second component is the parent as the
   * caller holds it afterwards.
   */
  function SplitPages(d: Disk, parentOff: nat, parent: Page, ci: nat): (r: (Disk, Page))
    requires ci <= parent.count < MaxKeys
    ensures Bounded(d) ==> Bounded(r.0)
  {
    var childOff := parent.children[ci];
    if childOff == 0 || childOff !in d.pages then (d, parent)
    else
      var child := d.pages[childOff];
      var newOff := d.end;
      var p1 := WithSeparator(parent, ci, child.keys[MinKeys], newOff);
      (Store(Store(Store(Alloc(d), childOff, LowerHalf(child, newOff)), newOff, UpperHalf(child, childOff)), parentOff, p1), p1)
  }

  /** The child `insert_non_full` descends into from an internal node, after the split if there was one. */
  function DescentSlot(n: Page, key: CompositeKey): (r: nat)
    ensures r <= n.count
  {
    InsertionPoint(n.keys, n.count, key)
  }

  /**
   * `insert_non_full(off, node, key, value)`: a leaf takes the key at its
   * insertion point; an internal node splits a full child first and then
   * descends. The descent goes at most `fuel` levels deep, and stops at a
   * child that is still full after the split, which only a node listing
   * itself as its own child can produce.
   */
  function InsertPages(d: Disk, off: nat, node: Page, key: CompositeKey, value: BTreeValue, fuel: nat): (r: Disk)
    requires node.count < MaxKeys
    ensures Bounded(d) ==> Bounded(r)
    decreases fuel, 2
  {
    if node.leaf then Store(d, off, LeafWith(node, key, value))
    else
      var pos := DescentSlot(node, key);
      var child := Fetch(d, node.children[pos], EmptyPage);
      if child.count >= MaxKeys then SplitDescent(d, off, node, pos, child, key, value, fuel)
      else if fuel == 0 then d
      else InsertPages(d, node.children[pos], child, key, value, fuel - 1)
  }

  /**
   * The split branch of `insert_non_full`: split the full child at `pos`,
   * step right of the median when `key` is above it, and descend from
   * there.
   */
  function SplitDescent(d: Disk, off: nat, node: Page, pos: nat, child: Page, key: CompositeKey, value: BTreeValue,
                        fuel: nat): (r: Disk)
    requires pos <= node.count < MaxKeys
    ensures Bounded(d) ==> Bounded(r)
    decreases fuel, 1
  {
    var sp := SplitPages(d, off, node, pos);
    var node1 := sp.1;
    var pos1 := if Less(node1.keys[pos], key) then pos + 1 else pos;
    Descend(sp.0, node1.children[pos1], child, key, value, fuel)
  }

  /**
   * The descent after a split: re-read the child at `o` (the old one stays
   * when the read fails) and insert into it, unless it is still full.
   */
  function Descend(d: Disk, o: nat, child: Page, key: CompositeKey, value: BTreeValue, fuel: nat): (r: Disk)
    ensures Bounded(d) ==> Bounded(r)
    decreases fuel, 0
  {
    var child1 := Fetch(d, o, child);
    if fuel == 0 || child1.count >= MaxKeys then d
    else InsertPages(d, o, child1, key, value, fuel - 1)
  }

  /** After a split, both halves have MIN_KEYS keys, unless the parent is its own child. */
  lemma SplitHalvesNotFull(d: Disk, off: nat, node: Page, pos: nat, key: CompositeKey)
    requires Bounded(d) && off in d.pages
    requires pos <= node.count < MaxKeys
    requires Fetch(d, node.children[pos], EmptyPage).count >= MaxKeys
    requires node.children[pos] != off
    ensures var sp := SplitPages(d, off, node, pos);
      var d1 := sp.0;
      var node1 := sp.1;
      var pos1 := if Less(node1.keys[pos], key) then pos + 1 else pos;
      Fetch(d1, node1.children[pos1], EmptyPage).count == MinKeys
  {
  }

  // Search and range queries.

  /** What `search_recursive` does at one node: report a hit or a miss, or go on to a child. */
  datatype Step = Hit(value: BTreeValue) | Miss | Go(child: nat)

  /**
   * One node of `search_recursive`: a hit only in a leaf; an internal node
   * whose key at the scan position equals `key` sends the search to the
   * child right of it, any other internal node to the child at the scan
   * position.
   */
  function SearchStep(n: Page, key: CompositeKey): (r: Step)
    ensures r.Hit? ==> n.leaf && KeyPosition(n, key) < n.count && n.keys[KeyPosition(n, key)] == key
                       && r.value == n.values[KeyPosition(n, key)]
    ensures n.leaf ==> !r.Go?
  {
    var pos := KeyPosition(n, key);
    if pos < n.count && n.keys[pos] == key then
      if n.leaf then Hit(n.values[pos]) else Go(n.children[pos + 1])
    else if n.leaf then Miss
    else Go(n.children[pos])
  }

  /** `search_recursive(off, key)`, descending at most `fuel` levels. */
  function Find(d: Disk, off: nat, key: CompositeKey, fuel: nat): Option<BTreeValue>
    decreases fuel
  {
    if off == 0 || off !in d.pages then None
    else match SearchStep(d.pages[off], key)
      case Hit(v) => Some(v)
      case Miss => None
      case Go(c) => if fuel == 0 then None else Find(d, c, key, fuel - 1)
  }

  /** Some leaf page of the file holds `key` with value `v` among its key_count entries. */
  ghost predicate HeldInLeaf(d: Disk, key: CompositeKey, v: BTreeValue)
  {
    exists o, i :: o in d.pages && d.pages[o].leaf && 0 <= i < d.pages[o].count && Entries(d.pages[o])[i] == (key, v)
  }

  /** Every hit of a search is an entry of a leaf. */
  lemma {:induction false} FoundInLeaf(d: Disk, off: nat, key: CompositeKey, fuel: nat)
    ensures Find(d, off, key, fuel).Some? ==> HeldInLeaf(d, key, Find(d, off, key, fuel).value)
    decreases fuel
  {
    if off != 0 && off in d.pages {
      var n := d.pages[off];
      var pos := KeyPosition(n, key);
      match SearchStep(n, key)
      case Hit(v) =>
        assert Entries(n)[pos] == (key, v);
      case Miss =>
      case Go(c) =>
        if fuel > 0 {
          FoundInLeaf(d, c, key, fuel - 1);
        }
    }
  }

  /** All keys of the node are strictly increasing. */
  predicate StrictlySorted(n: Page)
  {
    forall i, j :: 0 <= i < j < n.count ==> Less(n.keys[i], n.keys[j])
  }

  /**
   * The median of a split leaf is no longer found: it was a hit in the
   * full child, but after the split it sits only in the parent, and the
   * search for it goes to the new node, which starts after it.
   */
  lemma MedianLost(d: Disk, parentOff: nat, parent: Page, ci: nat, fuel: nat)
    requires Bounded(d) && parentOff != 0 && parentOff in d.pages && !parent.leaf && ci <= parent.count < MaxKeys
    requires parent.children[ci] != 0 && parent.children[ci] in d.pages && parent.children[ci] != parentOff
    requires var child := d.pages[parent.children[ci]];
      child.leaf && child.count == MaxKeys && StrictlySorted(child)
      && forall i :: 0 <= i < ci ==> Less(parent.keys[i], child.keys[MinKeys])
    requires fuel > 0
    ensures var child := d.pages[parent.children[ci]];
      Find(d, parent.children[ci], child.keys[MinKeys], fuel) == Some(child.values[MinKeys])
      && Find(SplitPages(d, parentOff, parent, ci).0, parentOff, child.keys[MinKeys], fuel) == None
  {
    var childOff := parent.children[ci];
    var child := d.pages[childOff];
    var median := child.keys[MinKeys];
    forall i | 0 <= i < MinKeys
      ensures Less(child.keys[i], median)
    {
    }
    assert KeyPosition(child, median) == MinKeys;
    var sp := SplitPages(d, parentOff, parent, ci);
    var p1 := sp.1;
    assert sp.0.pages[parentOff] == p1;
    forall i | 0 <= i < ci
      ensures Less(p1.keys[i], median)
    {
    }
    KeyOrder(median, median, median);
    assert KeyPosition(p1, median) == ci;
    var upper := UpperHalf(child, childOff);
    assert sp.0.pages[d.end] == upper;
    assert Less(median, upper.keys[0]);
    KeyOrder(upper.keys[0], median, median);
    assert KeyPosition(upper, median) == 0;
  }

  /** A leaf entry is reported when it lies between `lo` and `hi`. */
  function InRange(lo: CompositeKey, hi: CompositeKey): ((CompositeKey, BTreeValue)) -> bool
  {
    (e: (CompositeKey, BTreeValue)) => GreaterEq(e.0, lo) && LessEq(e.0, hi)
  }

  /**
   * `range_query_recursive(off, lo, hi)`: a leaf reports its entries in
   * range and continues with its successor while its last key is below
   * `hi`; an internal node visits its children from the scan position of
   * `lo`, stopping after the child left of the first separator above `hi`.
   */
  function Range(d: Disk, off: nat, lo: CompositeKey, hi: CompositeKey, fuel: nat): seq<(CompositeKey, BTreeValue)>
    decreases fuel, 0, 0
  {
    if off == 0 || off !in d.pages then []
    else
      var n := d.pages[off];
      if n.leaf then
        Filter(Entries(n), InRange(lo, hi))
        + (if n.count > 0 && Less(n.keys[n.count - 1], hi) && n.nextLeaf != 0 && fuel > 0
           then Range(d, n.nextLeaf, lo, hi, fuel - 1) else [])
      else if fuel == 0 then []
      else RangeChildren(d, n, KeyPosition(n, lo), lo, hi, fuel - 1)
  }

  /** The loop over the children of an internal node, from child i on. */
  function RangeChildren(d: Disk, n: Page, i: nat, lo: CompositeKey, hi: CompositeKey, fuel: nat): seq<(CompositeKey, BTreeValue)>
    decreases fuel, 1, n.count + 1 - i
  {
    if i > n.count then []
    else
      Range(d, n.children[i], lo, hi, fuel)
      + (if i < n.count && Greater(n.keys[i], hi) then [] else RangeChildren(d, n, i + 1, lo, hi, fuel))
  }

  /** Every pair is a leaf entry of the file between `lo` and `hi`. */
  ghost predicate HeldInRange(d: Disk, lo: CompositeKey, hi: CompositeKey, s: seq<(CompositeKey, BTreeValue)>)
    decreases |s|
  {
    s == [] || (InRange(lo, hi)(s[0]) && HeldInLeaf(d, s[0].0, s[0].1) && HeldInRange(d, lo, hi, s[1..]))
  }

  /** HeldInRange says of every member what its name says. */
  lemma {:induction false} HeldInRangeMeans(d: Disk, lo: CompositeKey, hi: CompositeKey, s: seq<(CompositeKey, BTreeValue)>)
    ensures HeldInRange(d, lo, hi, s) <==> forall e :: e in s ==> InRange(lo, hi)(e) && HeldInLeaf(d, e.0, e.1)
    decreases |s|
  {
    if s != [] {
      HeldInRangeMeans(d, lo, hi, s[1..]);
      assert forall e :: e in s <==> e == s[0] || e in s[1..];
    }
  }

  /** The entries a leaf page reports. */
  lemma LeafReportsHeld(d: Disk, off: nat, lo: CompositeKey, hi: CompositeKey)
    requires off in d.pages && d.pages[off].leaf
    ensures HeldInRange(d, lo, hi, Filter(Entries(d.pages[off]), InRange(lo, hi)))
  {
    var n := d.pages[off];
    forall e | e in Filter(Entries(n), InRange(lo, hi))
      ensures InRange(lo, hi)(e) && HeldInLeaf(d, e.0, e.1)
    {
      FilterMembers(Entries(n), InRange(lo, hi), e);
      var i :| 0 <= i < |Entries(n)| && Entries(n)[i] == e;
    }
    HeldInRangeMeans(d, lo, hi, Filter(Entries(n), InRange(lo, hi)));
  }

  lemma {:induction false} HeldInRangeAppend(d: Disk, lo: CompositeKey, hi: CompositeKey, a: seq<(CompositeKey, BTreeValue)>, b: seq<(CompositeKey, BTreeValue)>)
    requires HeldInRange(d, lo, hi, a) && HeldInRange(d, lo, hi, b)
    ensures HeldInRange(d, lo, hi, a + b)
    decreases |a|
  {
    if a == [] {
      assert a + b == b;
    } else {
      HeldInRangeAppend(d, lo, hi, a[1..], b);
      assert (a + b)[1..] == a[1..] + b;
    }
  }

  /** Every pair a range query reports is a leaf entry between `lo` and `hi`. */
  lemma {:induction false} RangeSound(d: Disk, off: nat, lo: CompositeKey, hi: CompositeKey, fuel: nat)
    ensures HeldInRange(d, lo, hi, Range(d, off, lo, hi, fuel))
    decreases fuel, 1, 0
  {
    if off != 0 && off in d.pages {
      var n := d.pages[off];
      if n.leaf {
        LeafRangeSound(d, off, lo, hi, fuel);
      } else if fuel > 0 {
        RangeChildrenSound(d, n, KeyPosition(n, lo), lo, hi, fuel - 1);
        assert Range(d, off, lo, hi, fuel) == RangeChildren(d, n, KeyPosition(n, lo), lo, hi, fuel - 1);
      } else {
        assert Range(d, off, lo, hi, fuel) == [];
      }
    } else {
      assert Range(d, off, lo, hi, fuel) == [];
    }
  }

  /** The pairs a range query reports lie between `lo` and `hi` and are entries of leaf pages. */
  lemma RangeReportsLeafEntries(d: Disk, off: nat, lo: CompositeKey, hi: CompositeKey, fuel: nat)
    ensures forall e :: e in Range(d, off, lo, hi, fuel) ==> GreaterEq(e.0, lo) && LessEq(e.0, hi) && HeldInLeaf(d, e.0, e.1)
  {
    RangeSound(d, off, lo, hi, fuel);
    HeldInRangeMeans(d, lo, hi, Range(d, off, lo, hi, fuel));
  }

  /** The leaf case: the leaf's own pairs in range, then those of its successor. */
  lemma {:induction false} LeafRangeSound(d: Disk, off: nat, lo: CompositeKey, hi: CompositeKey, fuel: nat)
    requires off != 0 && off in d.pages && d.pages[off].leaf
    ensures HeldInRange(d, lo, hi, Range(d, off, lo, hi, fuel))
    decreases fuel, 0, 0
  {
    var n := d.pages[off];
    LeafReportsHeld(d, off, lo, hi);
    var more := n.count > 0 && Less(n.keys[n.count - 1], hi) && n.nextLeaf != 0 && fuel > 0;
    var rest := if more then Range(d, n.nextLeaf, lo, hi, fuel - 1) else [];
    if more {
      RangeSound(d, n.nextLeaf, lo, hi, fuel - 1);
    }
    assert Range(d, off, lo, hi, fuel) == Filter(Entries(n), InRange(lo, hi)) + rest;
    HeldInRangeAppend(d, lo, hi, Filter(Entries(n), InRange(lo, hi)), rest);
  }

  lemma {:induction false} RangeChildrenSound(d: Disk, n: Page, i: nat, lo: CompositeKey, hi: CompositeKey, fuel: nat)
    ensures HeldInRange(d, lo, hi, RangeChildren(d, n, i, lo, hi, fuel))
    decreases fuel, 2, n.count + 1 - i
  {
    if i <= n.count {
      RangeSound(d, n.children[i], lo, hi, fuel);
      var stop := i < n.count && Greater(n.keys[i], hi);
      var rest := if stop then [] else RangeChildren(d, n, i + 1, lo, hi, fuel);
      if !stop {
        RangeChildrenSound(d, n, i + 1, lo, hi, fuel);
      }
      assert RangeChildren(d, n, i, lo, hi, fuel) == Range(d, n.children[i], lo, hi, fuel) + rest;
      HeldInRangeAppend(d, lo, hi, Range(d, n.children[i], lo, hi, fuel), rest);
    }
  }


  // The metadata page and the whole insertion.

  /** `BTreeMetadata`; the reserved bytes are not modelled. */
  datatype Metadata = Metadata(magic: string, version: u32, rootOffset: nat, totalRecords: u64, treeHeight: u32,
                               freeListHead: nat, lastCompaction: nat)

  /** A default-constructed `BTreeMetadata`. */
  const DefaultMetadata := Metadata(Magic, 1, 0, 0, 0, 0, 0)

  /** The root `insert` puts above a full root: an internal node one level up whose only child is the old root. */
  function NewRoot(root: Page, rootOff: nat): (r: Page)
    ensures !r.leaf && r.count == 0 && r.children[0] == rootOff
    ensures r.level == Inc16(root.level)
  {
    EmptyPage.(leaf := false, level := Inc16(root.level), children := EmptyPage.children[0 := rootOff])
  }

  /**
   * `insert(key, value)` on a file the cache agrees with, once the root
   * offset is known to be set: a full root is split under a new root at
   * the end of the file, which adds a level; then `insert_non_full` runs
   * from the root, descending at most as many levels as there are pages.
   */
  function InsertTree(d: Disk, m: Metadata, key: CompositeKey, value: BTreeValue): (r: (Disk, Metadata))
    requires m.rootOffset != 0 && Bounded(d)
    ensures r.1.rootOffset != 0 && Bounded(r.0)
    ensures r.1.totalRecords == Inc64(m.totalRecords)
    ensures r.1 == m.(rootOffset := r.1.rootOffset, treeHeight := r.1.treeHeight, totalRecords := r.1.totalRecords)
  {
    var fuel := |d.pages|;
    var root := Fetch(d, m.rootOffset, EmptyPage);
    if root.count >= MaxKeys then
      var newOff := d.end;
      var sp := SplitPages(Alloc(d), newOff, NewRoot(root, m.rootOffset), 0);
      assert sp.0.pages[newOff] == sp.1;
      var top := Fetch(sp.0, newOff, sp.1);
      (InsertPages(sp.0, newOff, top, key, value, fuel),
       m.(rootOffset := newOff, treeHeight := Inc32(m.treeHeight), totalRecords := Inc64(m.totalRecords)))
    else
      (InsertPages(d, m.rootOffset, root, key, value, fuel), m.(totalRecords := Inc64(m.totalRecords)))
  }

  /** The file right after `create`: the metadata page and an empty root leaf. */
  const FreshDisk := Disk(map[PageSize := EmptyPage], 2 * PageSize)
  const FreshMetadata := DefaultMetadata.(rootOffset := PageSize)

  /** Insertions one after the other, in the order given. */
  function InsertAll(d: Disk, m: Metadata, kvs: seq<(CompositeKey, BTreeValue)>): (r: (Disk, Metadata))
    requires m.rootOffset != 0 && Bounded(d)
    ensures r.1.rootOffset != 0 && Bounded(r.0)
  {
    if kvs == [] then (d, m)
    else
      var prev := InsertAll(d, m, kvs[..|kvs| - 1]);
      InsertTree(prev.0, prev.1, kvs[|kvs| - 1].0, kvs[|kvs| - 1].1)
  }

  /** Up to MAX_KEYS insertions into a new file fill its root leaf and nothing else. */
  lemma {:induction false} RootLeafFills(kvs: seq<(CompositeKey, BTreeValue)>)
    requires |kvs| <= MaxKeys
    ensures var r := InsertAll(FreshDisk, FreshMetadata, kvs);
      r.0.pages.Keys == {PageSize} && r.0.end == 2 * PageSize
      && r.0.pages[PageSize].leaf && r.0.pages[PageSize].count == |kvs| && r.0.pages[PageSize].level == 0
      && r.1 == FreshMetadata.(totalRecords := |kvs|)
  {
    if kvs != [] {
      RootLeafFills(kvs[..|kvs| - 1]);
    }
  }

  /**
   * The file one root split after a new file: a root at the second page
   * with one key over the leaves at the first and third page, one level
   * up, and those leaves hold MAX_KEYS entries together.
   */
  ghost predicate SplitOnce(d: Disk)
  {
    d.pages.Keys == {PageSize, 2 * PageSize, 3 * PageSize}
    && var root := d.pages[2 * PageSize];
    !root.leaf && root.count == 1 && root.level == 1
    && root.children[0] == PageSize && root.children[1] == 3 * PageSize
    && d.pages[PageSize].leaf && d.pages[3 * PageSize].leaf
    && d.pages[PageSize].count + d.pages[3 * PageSize].count == MaxKeys
  }

  /**
   * The insertion after that splits the root: one level more, and the
   * leaves hold one entry fewer than were inserted, because the median
   * went up without its value.
   */
  lemma TenthInsertSplitsRoot(kvs: seq<(CompositeKey, BTreeValue)>)
    requires |kvs| == MaxKeys + 1
    ensures var r := InsertAll(FreshDisk, FreshMetadata, kvs);
      r.1 == FreshMetadata.(rootOffset := 2 * PageSize, treeHeight := 1, totalRecords := MaxKeys + 1)
      && SplitOnce(r.0)
  {
    var prefix := kvs[..MaxKeys];
    assert kvs[..|kvs| - 1] == prefix;
    RootLeafFills(prefix);
    var prev := InsertAll(FreshDisk, FreshMetadata, prefix);
    assert InsertAll(FreshDisk, FreshMetadata, kvs) == InsertTree(prev.0, prev.1, kvs[MaxKeys].0, kvs[MaxKeys].1);
    SplitRootInsert(prev.0, prev.1, kvs[MaxKeys].0, kvs[MaxKeys].1);
  }

  /** `insert` into a file whose only node is a full root leaf. */
  lemma SplitRootInsert(d: Disk, m: Metadata, key: CompositeKey, value: BTreeValue)
    requires d.pages.Keys == {PageSize} && d.end == 2 * PageSize && m.rootOffset == PageSize
    requires d.pages[PageSize].leaf && d.pages[PageSize].count == MaxKeys && d.pages[PageSize].level == 0
    ensures var r := InsertTree(d, m, key, value);
      r.1 == m.(rootOffset := 2 * PageSize, treeHeight := Inc32(m.treeHeight), totalRecords := Inc64(m.totalRecords))
      && SplitOnce(r.0)
  {
    var full := d.pages[PageSize];
    assert Fetch(d, PageSize, EmptyPage) == full;
    var sp := SplitPages(Alloc(d), 2 * PageSize, NewRoot(full, PageSize), 0);
    SplitFreshRoot(d, full, key);
    assert Fetch(sp.0, 2 * PageSize, sp.1) == sp.1;
    assert |d.pages| == 1 by {
      assert d.pages.Keys == {PageSize};
    }
    var m1 := m.(rootOffset := 2 * PageSize, treeHeight := Inc32(m.treeHeight), totalRecords := Inc64(m.totalRecords));
    assert InsertTree(d, m, key, value) == (InsertPages(sp.0, 2 * PageSize, sp.1, key, value, 1), m1);
    InsertUnderTwoLeaves(sp.0, 2 * PageSize, key, value, 1);
  }

  /** An insertion from a root with one key over two leaves with MIN_KEYS keys each goes into one of the leaves. */
  lemma InsertUnderTwoLeaves(d: Disk, off: nat, key: CompositeKey, value: BTreeValue, fuel: nat)
    requires off in d.pages && fuel > 0
    requires var top := d.pages[off];
      !top.leaf && top.count == 1
      && var c0 := top.children[0];
      var c1 := top.children[1];
      c0 != 0 && c1 != 0 && c0 != off && c1 != off && c0 != c1 && c0 in d.pages && c1 in d.pages
      && d.pages[c0].leaf && d.pages[c1].leaf && d.pages[c0].count == MinKeys && d.pages[c1].count == MinKeys
    ensures var top := d.pages[off];
      var r := InsertPages(d, off, top, key, value, fuel);
      r.pages.Keys == d.pages.Keys && r.pages[off] == top
      && r.pages[top.children[0]].leaf && r.pages[top.children[1]].leaf
      && r.pages[top.children[0]].count + r.pages[top.children[1]].count == MaxKeys
  {
    var top := d.pages[off];
    var pos := DescentSlot(top, key);
    var c := top.children[pos];
    assert pos == 0 || pos == 1;
    var child := d.pages[c];
    assert Fetch(d, c, EmptyPage) == child && child.count < MaxKeys;
    assert InsertPages(d, off, top, key, value, fuel) == InsertPages(d, c, child, key, value, fuel - 1);
    var r := Store(d, c, LeafWith(child, key, value));
    assert InsertPages(d, c, child, key, value, fuel - 1) == r;
    assert r.pages.Keys == d.pages.Keys;
  }

  /** The split of a full root leaf in a one-page file, as `insert` performs it. */
  lemma SplitFreshRoot(d: Disk, full: Page, key: CompositeKey)
    requires d.pages.Keys == {PageSize} && d.end == 2 * PageSize && d.pages[PageSize] == full
    requires full.leaf && full.count == MaxKeys
    ensures var sp := SplitPages(Alloc(d), 2 * PageSize, NewRoot(full, PageSize), 0);
      var top := sp.1;
      var pos := DescentSlot(top, key);
      sp.0.pages.Keys == {PageSize, 2 * PageSize, 3 * PageSize} && sp.0.end == 4 * PageSize
      && sp.0.pages[2 * PageSize] == top && !top.leaf && top.count == 1 && top.level == Inc16(full.level)
      && top.children[0] == PageSize && top.children[1] == 3 * PageSize
      && pos <= 1 && sp.0.pages[PageSize].leaf && sp.0.pages[3 * PageSize].leaf
      && sp.0.pages[PageSize].count == MinKeys && sp.0.pages[3 * PageSize].count == MinKeys
  {
    var d1 := Alloc(d);
    assert d1.pages.Keys == {PageSize, 2 * PageSize} && d1.end == 3 * PageSize;
  }

  /** An insertion into a root leaf with room, that does not hold the key yet, is found by the search afterwards. */
  lemma InsertedIntoRootLeafIsFound(d: Disk, m: Metadata, key: CompositeKey, value: BTreeValue, fuel: nat)
    requires m.rootOffset != 0 && Bounded(d) && m.rootOffset in d.pages
    requires var root := d.pages[m.rootOffset];
      root.leaf && root.count < MaxKeys && Sorted(root) && forall i :: 0 <= i < root.count ==> root.keys[i] != key
    ensures var r := InsertTree(d, m, key, value);
      r.1.rootOffset == m.rootOffset && Find(r.0, m.rootOffset, key, fuel) == Some(value)
      && Sorted(r.0.pages[m.rootOffset])
  {
    var root := d.pages[m.rootOffset];
    FoundWhereInserted(root, key, value);
    LeafWithSorted(root, key, value);
  }

  // The loops of the node operations.

  /** `find_key_position`. */
  method FindKeyPosition(n: Page, key: CompositeKey) returns (pos: nat)
    ensures pos == KeyPosition(n, key)
  {
    pos := 0;
    while pos < n.count && Less(n.keys[pos], key)
      invariant pos <= n.count
      invariant forall j :: 0 <= j < pos ==> Less(n.keys[j], key)
      invariant Scan(n, key, pos) == Scan(n, key, 0)
      decreases n.count - pos
    {
      pos := pos + 1;
    }
  }

  /** The three facts of InsertionPoint determine it. */
  lemma InsertionPointUnique(keys: seq<CompositeKey>, k: nat, key: CompositeKey, p: nat)
    requires k <= |keys| && p <= k
    requires forall i :: p <= i < k ==> Greater(keys[i], key)
    requires p > 0 ==> !Greater(keys[p - 1], key)
    ensures p == InsertionPoint(keys, k, key)
  {
  }

  /** The right-to-left scan of `insert_non_full` over an internal node: the child to descend into. */
  method ChildSlot(n: Page, key: CompositeKey) returns (pos: nat)
    ensures pos == DescentSlot(n, key)
  {
    var i: int := n.count - 1;
    while i >= 0 && Greater(n.keys[i], key)
      invariant -1 <= i < n.count
      invariant forall j :: i < j < n.count ==> Greater(n.keys[j], key)
      decreases i + 1
    {
      i := i - 1;
    }
    pos := i + 1;
    InsertionPointUnique(n.keys, n.count, key, pos);
  }

  /** The leaf branch of `insert_non_full`: shift the greater keys and their values right, then store the pair. */
  method LeafInsert(n: Page, key: CompositeKey, value: BTreeValue) returns (r: Page)
    requires n.count < MaxKeys
    ensures r == LeafWith(n, key, value)
  {
    var keys := n.keys;
    var values := n.values;
    var i: int := n.count - 1;
    while i >= 0 && Greater(keys[i], key)
      invariant ShiftedDownTo(n.keys, keys, n.count, i) && ShiftedDownTo(n.values, values, n.count, i)
      invariant forall j :: i < j < n.count ==> Greater(n.keys[j], key)
      decreases i + 1
    {
      ShiftStep(n.keys, keys, n.count, i);
      ShiftStep(n.values, values, n.count, i);
      keys := keys[i + 1 := keys[i]];
      values := values[i + 1 := values[i]];
      i := i - 1;
    }
    var p := i + 1;
    InsertionPointUnique(n.keys, n.count, key, p);
    ShiftedAt(n.keys, keys, n.count, p, key);
    ShiftedAt(n.values, values, n.count, p, value);
    r := n.(keys := keys[p := key], values := values[p := value], count := n.count + 1);
  }


  /** `split_child` on the child: the child as it is written back, and the new node. */
  method SplitNode(child: Page, childOff: nat, newOff: nat) returns (lower: Page, upper: Page)
    ensures lower == LowerHalf(child, newOff) && upper == UpperHalf(child, childOff)
  {
    var keys := CopyInto(EmptyPage.keys, child.keys, MinKeys + 1, MinKeys);
    upper := EmptyPage.(leaf := child.leaf, level := child.level, count := MinKeys, keys := keys);
    lower := child;
    if child.leaf {
      var values := CopyInto(EmptyPage.values, child.values, MinKeys + 1, MinKeys);
      upper := upper.(values := values, nextLeaf := child.nextLeaf, prevLeaf := childOff);
      lower := lower.(nextLeaf := newOff);
    } else {
      var children := CopyInto(EmptyPage.children, child.children, MinKeys + 1, MinKeys + 1);
      upper := upper.(children := children);
    }
    lower := lower.(count := MinKeys);
  }

  /** The shift loop of `split_child` over the parent, then the median and the new child. */
  method AddSeparator(parent: Page, ci: nat, median: CompositeKey, newOff: nat) returns (r: Page)
    requires ci <= parent.count < MaxKeys
    ensures r == WithSeparator(parent, ci, median, newOff)
  {
    var keys := parent.keys;
    var children := parent.children;
    var i: nat := parent.count;
    while i > ci
      invariant ci <= i <= parent.count
      invariant ShiftedDownTo(parent.keys, keys, parent.count, i - 1)
      invariant ShiftedDownTo(parent.children, children, parent.count + 1, i)
      decreases i
    {
      ShiftStep(parent.keys, keys, parent.count, i - 1);
      ShiftStep(parent.children, children, parent.count + 1, i);
      keys := keys[i := keys[i - 1]];
      children := children[i + 1 := children[i]];
      i := i - 1;
    }
    ShiftedAt(parent.keys, keys, parent.count, ci, median);
    ShiftedAt(parent.children, children, parent.count + 1, ci + 1, newOff);
    r := parent.(keys := keys[ci := median], children := children[ci + 1 := newOff], count := parent.count + 1);
  }

  /** The leaf loop of `range_query_recursive`: the pairs between `lo` and `hi`, in slot order. */
  method LeafMatches(n: Page, lo: CompositeKey, hi: CompositeKey) returns (r: seq<(CompositeKey, BTreeValue)>)
    ensures r == Filter(Entries(n), InRange(lo, hi))
  {
    r := [];
    for i := 0 to n.count
      invariant r == Filter(Entries(n)[..i], InRange(lo, hi))
    {
      assert Entries(n)[..i + 1] == Entries(n)[..i] + [(n.keys[i], n.values[i])];
      FilterSnoc(Entries(n)[..i], (n.keys[i], n.values[i]), InRange(lo, hi));
      if GreaterEq(n.keys[i], lo) && LessEq(n.keys[i], hi) {
        r := r + [(n.keys[i], n.values[i])];
      }
    }
    assert Entries(n)[..n.count] == Entries(n);
  }

  // The node cache.

  /** An entry of `cache_`. Every entry is added clean, so the dirty flag is not modelled. */
  datatype CacheEntry = CacheEntry(offset: nat, node: Page)

  function AtOffset(o: nat): CacheEntry -> bool
  {
    (e: CacheEntry) => e.offset == o
  }

  /** `add_to_cache`: the entry goes last; a full cache first drops its oldest entry. */
  function Added(cache: seq<CacheEntry>, e: CacheEntry): (r: seq<CacheEntry>)
    ensures |cache| <= CacheSize ==> |r| <= CacheSize
    ensures |r| > 0 && r[|r| - 1] == e
  {
    if |cache| >= CacheSize then cache[1..] + [e] else cache + [e]
  }

  /** `update_cache`: the entry for the offset takes the node, or a new entry is added. */
  function Updated(cache: seq<CacheEntry>, o: nat, n: Page): (r: seq<CacheEntry>)
    ensures |cache| <= CacheSize ==> |r| <= CacheSize
  {
    match FirstIndex(cache, AtOffset(o))
    case Some(i) => cache[i := CacheEntry(o, n)]
    case None => Added(cache, CacheEntry(o, n))
  }

  /** No two entries for one offset, and none for offset 0. */
  predicate Distinct(cache: seq<CacheEntry>)
  {
    (forall i, j :: 0 <= i < j < |cache| ==> cache[i].offset != cache[j].offset)
    && forall i :: 0 <= i < |cache| ==> cache[i].offset != 0
  }

  /** Every cached node is the page of the file at its offset. */
  ghost predicate Agrees(cache: seq<CacheEntry>, d: Disk)
  {
    forall i :: 0 <= i < |cache| ==> cache[i].offset in d.pages && d.pages[cache[i].offset] == cache[i].node
  }

  /** Adding an offset not yet cached keeps the offsets distinct, and keeps agreement when the node is the page there. */
  lemma AddedKeeps(cache: seq<CacheEntry>, d: Disk, o: nat, n: Page)
    requires Distinct(cache) && o != 0 && FirstIndex(cache, AtOffset(o)).None?
    ensures Distinct(Added(cache, CacheEntry(o, n)))
    ensures Agrees(cache, d) && o in d.pages && d.pages[o] == n ==> Agrees(Added(cache, CacheEntry(o, n)), d)
  {
    var shift := if |cache| >= CacheSize then 1 else 0;
    AddedShifts(cache, CacheEntry(o, n), shift);
    var r := Added(cache, CacheEntry(o, n));
    forall i, j | 0 <= i < j < |r|
      ensures r[i].offset != r[j].offset
    {
      assert !AtOffset(o)(cache[i + shift]);
    }
    if Agrees(cache, d) && o in d.pages && d.pages[o] == n {
      forall i | 0 <= i < |r|
        ensures r[i].offset in d.pages && d.pages[r[i].offset] == r[i].node
      {
        if i < |r| - 1 {
          assert r[i] == cache[i + shift];
        }
      }
    }
  }

  /** The entries an addition keeps are the old ones from `shift` on. */
  lemma AddedShifts(cache: seq<CacheEntry>, e: CacheEntry, shift: nat)
    requires shift == if |cache| >= CacheSize then 1 else 0
    ensures var r := Added(cache, e);
      |r| == |cache| - shift + 1 && forall i :: 0 <= i < |r| - 1 ==> r[i] == cache[i + shift]
  {
  }

  /** After an update, the first entry for the offset holds the new node. */
  lemma UpdatedFinds(cache: seq<CacheEntry>, o: nat, n: Page)
    requires Distinct(cache)
    ensures var r := Updated(cache, o, n);
      FirstIndex(r, AtOffset(o)).Some? && r[FirstIndex(r, AtOffset(o)).value].node == n
  {
    var r := Updated(cache, o, n);
    match FirstIndex(cache, AtOffset(o))
    case Some(i) =>
      FirstIndexAt(r, AtOffset(o), i);
    case None =>
      var kept := if |cache| >= CacheSize then cache[1..] else cache;
      assert r == kept + [CacheEntry(o, n)];
      assert forall j :: 0 <= j < |kept| ==> kept[j] in cache;
      FirstIndexAt(r, AtOffset(o), |kept|);
  }

  /** Updating the cache and the file with the same node keeps them in agreement. */
  lemma UpdatedKeeps(cache: seq<CacheEntry>, d: Disk, o: nat, n: Page)
    requires Distinct(cache) && o != 0
    ensures Distinct(Updated(cache, o, n))
    ensures Agrees(cache, d) ==> Agrees(Updated(cache, o, n), Store(d, o, n))
  {
    match FirstIndex(cache, AtOffset(o))
    case Some(i) =>
    case None => AddedKeeps(cache, Store(d, o, n), o, n);
  }

  /** Pages that the file keeps are still cached correctly. */
  lemma AgreesOnKept(cache: seq<CacheEntry>, d: Disk, d1: Disk)
    requires forall p :: p in d.pages ==> p in d1.pages && d1.pages[p] == d.pages[p]
    ensures Agrees(cache, d) ==> Agrees(cache, d1)
  {
  }

  /** The page the cache or the file gives for an offset (read_node's result when it succeeds). */
  function Lookup(cache: seq<CacheEntry>, readable: bool, d: Disk, o: nat): Option<Page>
  {
    if o == 0 then None
    else match FirstIndex(cache, AtOffset(o))
      case Some(i) => Some(cache[i].node)
      case None => if readable && o in d.pages then Some(d.pages[o]) else None
  }

  /** With a cache that agrees with an open file, a lookup is a read of the file. */
  lemma LookupReadsFile(cache: seq<CacheEntry>, d: Disk, o: nat)
    requires Agrees(cache, d)
    ensures Lookup(cache, true, d, o) == if o != 0 && o in d.pages then Some(d.pages[o]) else None
  {
  }

  /**
   * `BTree`: the file (its metadata page, its node pages and whether the
   * stream is open), the metadata in memory, and the node cache.
   */
  class BTree {
    /** Whether the file exists. */
    var fileExists: bool
    /** The metadata page as the file holds it. */
    var diskMeta: Metadata
    /** The node pages of the file. */
    var disk: Disk
    /** The state of `file_`. */
    var stream: Stream
    /** `metadata_`. */
    var meta: Metadata
    /** `cache_`. */
    var cache: seq<CacheEntry>

    ghost predicate Valid()
      reads this
    {
      |cache| <= CacheSize && Distinct(cache) && Bounded(disk) && (!stream.Closed? ==> fileExists)
    }

    /** The stream takes reads and writes, and every cached node is its page on the file. */
    ghost predicate Coherent()
      reads this
    {
      stream.ReadWrite? && Agrees(cache, disk)
    }

    /**
     * `BTree(filename)`: nothing is opened. When `fileExists`, the file
     * holds `fileMeta` and `fileDisk`.
     */
    constructor(fileExists: bool, fileMeta: Metadata, fileDisk: Disk)
      requires Bounded(fileDisk)
      ensures Valid() && stream == Closed && cache == [] && meta == DefaultMetadata
      ensures this.fileExists == fileExists && diskMeta == fileMeta && disk == fileDisk
    {
      this.fileExists := fileExists;
      diskMeta := fileMeta;
      disk := fileDisk;
      stream := Closed;
      meta := DefaultMetadata;
      cache := [];
    }

    /** `add_to_cache`. */
    method AddToCache(o: nat, n: Page)
      modifies this
      ensures cache == Added(old(cache), CacheEntry(o, n))
      ensures diskMeta == old(diskMeta) && disk == old(disk) && stream == old(stream) && meta == old(meta)
      ensures fileExists == old(fileExists)
    {
      if |cache| >= CacheSize {
        cache := cache[1..];
      }
      cache := cache + [CacheEntry(o, n)];
    }

    /** `update_cache`. */
    method UpdateCache(o: nat, n: Page)
      modifies this
      ensures cache == Updated(old(cache), o, n)
      ensures diskMeta == old(diskMeta) && disk == old(disk) && stream == old(stream) && meta == old(meta) && fileExists == old(fileExists)
    {
      var k := Locate(cache, AtOffset(o));
      if k.Some? {
        cache := cache[k.value := CacheEntry(o, n)];
      } else {
        AddToCache(o, n);
      }
    }

    /**
     * `read_node(o, node)`: offset 0 fails; a cached node is returned; else
     * the page is read from the open file and cached. On failure the
     * caller's node `prior` is left as it was.
     */
    method ReadNode(o: nat, prior: Page) returns (ok: bool, n: Page)
      requires Valid() && !stream.WriteOnly?
      modifies this
      ensures Valid()
      ensures var l := Lookup(old(cache), old(stream).ReadWrite?, old(disk), o);
        ok == l.Some? && n == if ok then l.value else prior
      ensures cache == if ok && FirstIndex(old(cache), AtOffset(o)).None? then Added(old(cache), CacheEntry(o, n)) else old(cache)
      ensures diskMeta == old(diskMeta) && disk == old(disk) && stream == old(stream) && meta == old(meta) && fileExists == old(fileExists)
      ensures old(Coherent()) ==> Coherent()
    {
      if o == 0 {
        return false, prior;
      }
      var k := Locate(cache, AtOffset(o));
      if k.Some? {
        return true, cache[k.value].node;
      }
      if !stream.ReadWrite? || o !in disk.pages {
        return false, prior;
      }
      n := disk.pages[o];
      AddedKeeps(cache, disk, o, n);
      AddToCache(o, n);
      ok := true;
    }

    /** `read_node` as the algorithms use it: with a cache that agrees with the open file, the page at `o` or `prior`. */
    method Load(o: nat, prior: Page) returns (ok: bool, n: Page)
      requires Valid() && !stream.WriteOnly?
      modifies this
      ensures Valid() && KeepsMetadata() && disk == old(disk)
      ensures !ok ==> n == prior
      ensures old(Coherent()) ==> Coherent() && ok == (o != 0 && o in disk.pages) && n == Fetch(disk, o, prior)
    {
      if Coherent() {
        LookupReadsFile(cache, disk, o);
      }
      ok, n := ReadNode(o, prior);
    }

    /**
     * `write_node(o, node)`: offset 0 is refused; otherwise the page is
     * written when the file is open and the cache takes the node either
     * way. The result is whether the write reached the file.
     */
    method WriteNode(o: nat, n: Page) returns (ok: bool)
      requires Valid() && !stream.WriteOnly?
      modifies this
      ensures Valid()
      ensures ok == (o != 0 && stream.ReadWrite?)
      ensures disk == if ok then Store(old(disk), o, n) else old(disk)
      ensures cache == if o == 0 then old(cache) else Updated(old(cache), o, n)
      ensures o != 0 ==> Lookup(cache, stream.ReadWrite?, disk, o) == Some(n)
      ensures diskMeta == old(diskMeta) && stream == old(stream) && meta == old(meta) && fileExists == old(fileExists)
      ensures old(Coherent()) ==> Coherent()
    {
      if o == 0 {
        return false;
      }
      UpdatedKeeps(cache, disk, o, n);
      UpdatedFinds(cache, o, n);
      if stream.ReadWrite? {
        disk := Store(disk, o, n);
      }
      UpdateCache(o, n);
      ok := stream.ReadWrite?;
    }

    /**
     * `allocate_node`: an empty page at the end of the open file, at the
     * offset the file had as its length; on a closed stream `tellp` gives
     * -1, which is the largest 64-bit offset.
     */
    method AllocateNode() returns (off: nat)
      requires Valid() && !stream.WriteOnly?
      modifies this
      ensures Valid()
      ensures off == if old(stream).ReadWrite? then old(disk.end) else Two64 - 1
      ensures disk == if old(stream).ReadWrite? then Alloc(old(disk)) else old(disk)
      ensures diskMeta == old(diskMeta) && stream == old(stream) && meta == old(meta) && cache == old(cache) && fileExists == old(fileExists)
      ensures old(Coherent()) ==> Coherent()
    {
      if stream.ReadWrite? {
        off := disk.end;
        AgreesOnKept(cache, disk, Alloc(disk));
        disk := Alloc(disk);
      } else {
        off := Two64 - 1;
      }
    }

    /**
     * `split_child(parentOff, parent, ci)`. With a cache that agrees with
     * the open file it does what SplitPages says; `parent` afterwards is
     * the second component.
     */
    method SplitChild(parentOff: nat, parent: Page, ci: nat) returns (parent1: Page)
      requires Valid() && !stream.WriteOnly? && ci <= parent.count < MaxKeys
      modifies this
      ensures Valid() && KeepsMetadata()
      ensures old(Coherent()) ==> Coherent() && (disk, parent1) == SplitPages(old(disk), parentOff, parent, ci)
      ensures parent1 == parent || (parent1.count == parent.count + 1 && parent1.leaf == parent.leaf
                                    && (parentOff != 0 ==> Lookup(cache, stream.ReadWrite?, disk, parentOff) == Some(parent1)))
    {
      ghost var coherent := Coherent();
      ghost var d0 := disk;
      var childOff := parent.children[ci];
      if coherent {
        LookupReadsFile(cache, disk, childOff);
      }
      var ok, child := ReadNode(childOff, EmptyPage);
      if !ok {
        return parent;
      }
      assert coherent ==> childOff != 0 && childOff in d0.pages && child == d0.pages[childOff];
      var newOff := AllocateNode();
      var lower, upper := SplitNode(child, childOff, newOff);
      parent1 := AddSeparator(parent, ci, child.keys[MinKeys], newOff);
      var _ := WriteNode(childOff, lower);
      var _ := WriteNode(newOff, upper);
      var _ := WriteNode(parentOff, parent1);
      assert coherent ==> disk == Store(Store(Store(Alloc(d0), childOff, lower), newOff, upper), parentOff, parent1);
    }

    /**
     * `insert_non_full(off, node, key, value)`, descending at most `fuel`
     * levels. With a cache that agrees with the open file it does what
     * InsertPages says.
     */
    method InsertNonFull(off: nat, node: Page, key: CompositeKey, value: BTreeValue, fuel: nat)
      requires Valid() && !stream.WriteOnly? && node.count < MaxKeys
      modifies this
      ensures Valid() && KeepsMetadata()
      ensures old(Coherent()) ==> Coherent() && disk == InsertPages(old(disk), off, node, key, value, fuel)
      decreases fuel, 3
    {
      if node.leaf {
        var r := LeafInsert(node, key, value);
        var _ := WriteNode(off, r);
        return;
      }
      var pos := ChildSlot(node, key);
      var read, child := Load(node.children[pos], EmptyPage);
      if child.count >= MaxKeys {
        SplitAndDescend(off, node, pos, child, key, value, fuel);
      } else if fuel > 0 {
        InsertNonFull(node.children[pos], child, key, value, fuel - 1);
      }
    }

    /** The split branch of `insert_non_full`, as SplitDescent says. */
    method SplitAndDescend(off: nat, node: Page, pos: nat, child: Page, key: CompositeKey, value: BTreeValue, fuel: nat)
      requires Valid() && !stream.WriteOnly? && pos <= node.count < MaxKeys
      modifies this
      ensures Valid() && KeepsMetadata()
      ensures old(Coherent()) ==> Coherent() && disk == SplitDescent(old(disk), off, node, pos, child, key, value, fuel)
      decreases fuel, 2
    {
      ghost var coherent := Coherent();
      ghost var sp := SplitPages(disk, off, node, pos);
      var node1 := SplitChild(off, node, pos);
      assert coherent ==> disk == sp.0 && node1 == sp.1;
      StepAndDescend(node1, pos, child, key, value, fuel);
    }

    /** After the split, the step right of the median when `key` is above it, and the descent. */
    method StepAndDescend(node1: Page, pos: nat, child: Page, key: CompositeKey, value: BTreeValue, fuel: nat)
      requires Valid() && !stream.WriteOnly? && pos < MaxKeys
      modifies this
      ensures Valid() && KeepsMetadata()
      ensures old(Coherent()) ==>
        Coherent() && disk == Descend(old(disk), node1.children[if Less(node1.keys[pos], key) then pos + 1 else pos], child, key, value, fuel)
      decreases fuel, 1
    {
      var pos1 := pos;
      if Less(node1.keys[pos], key) {
        pos1 := pos + 1;
      }
      ReadAndDescend(node1.children[pos1], child, key, value, fuel);
    }

    /** The re-read of the child after the split and the descent into it, as Descend says. */
    method ReadAndDescend(o: nat, child: Page, key: CompositeKey, value: BTreeValue, fuel: nat)
      requires Valid() && !stream.WriteOnly?
      modifies this
      ensures Valid() && KeepsMetadata()
      ensures old(Coherent()) ==> Coherent() && disk == Descend(old(disk), o, child, key, value, fuel)
      decreases fuel, 0
    {
      var read, child1 := Load(o, child);
      if fuel == 0 || child1.count >= MaxKeys {
        return;
      }
      InsertNonFull(o, child1, key, value, fuel - 1);
    }

    /**
     * `create()`: truncates the file (closing the stream first) and writes
     * the default metadata with the root at the first page after it and an
     * empty root leaf there; fails when the file cannot be created. The
     * stream stays open for output only, and the node cache is left as it
     * was.
     */
    method Create(canCreate: bool) returns (ok: bool)
      requires Valid()
      modifies this
      ensures Valid() && ok == canCreate && stream == (if ok then WriteOnly else Closed) && cache == old(cache)
      ensures ok ==> fileExists && diskMeta == FreshMetadata && meta == FreshMetadata && disk == FreshDisk
      ensures !ok ==> fileExists == old(fileExists) && diskMeta == old(diskMeta) && meta == old(meta) && disk == old(disk)
    {
      stream := Closed;
      if !canCreate {
        return false;
      }
      fileExists, stream, meta, diskMeta, disk := true, WriteOnly, FreshMetadata, FreshMetadata, FreshDisk;
      ok := true;
    }

    /**
     * `open()`: a closed stream is opened for input and output and the
     * metadata page is read; an open one is re-read. Either succeeds only
     * on the tag "BTREE001", and a bad tag closes the stream. On a stream
     * open for output only, or one that has failed, the read fails: the
     * metadata in memory is kept, its tag is the one checked, and the
     * stream is left failed, so the tree lives in its node cache alone.
     */
    method Open() returns (ok: bool)
      requires Valid()
      modifies this
      ensures Valid() && fileExists == old(fileExists) && diskMeta == old(diskMeta) && disk == old(disk) && cache == old(cache)
      ensures old(stream).Closed? ==>
        ok == (fileExists && diskMeta.magic == Magic) && meta == if fileExists then diskMeta else old(meta)
      ensures old(stream).ReadWrite? ==> ok == (diskMeta.magic == Magic) && meta == diskMeta
      ensures old(stream).WriteOnly? || old(stream).Failed? ==> ok == (old(meta).magic == Magic) && meta == old(meta)
      ensures stream == if !ok then Closed else if old(stream).Closed? then ReadWrite else AfterRead(old(stream))
    {
      if stream.Closed? {
        if !fileExists {
          return false;
        }
        meta, stream := diskMeta, ReadWrite;
      } else if stream.ReadWrite? {
        meta := diskMeta;
      } else {
        stream := Failed;
      }
      ok := meta.magic == Magic;
      if !ok {
        stream := Closed;
      }
    }

    /**
     * `close()`: empties the cache (no entry is ever marked dirty), writes
     * the metadata back when the stream takes writes, and closes it.
     */
    method Close()
      requires Valid()
      modifies this
      ensures Valid() && stream == Closed && cache == []
      ensures diskMeta == if Writable(old(stream)) then meta else old(diskMeta)
      ensures fileExists == old(fileExists) && meta == old(meta) && disk == old(disk)
    {
      cache := [];
      if Writable(stream) {
        diskMeta := meta;
      }
      stream := Closed;
    }

    /**
     * `insert(key, value)`: fails only when no root is known. With a cache
     * that agrees with the open file it does what InsertTree says; in any
     * case it counts one more record and a root split adds a level. The
     * descent is bounded by the number of pages in the file.
     */
    method Insert(key: CompositeKey, value: BTreeValue) returns (ok: bool)
      requires Valid() && !stream.WriteOnly?
      modifies this
      ensures Valid() && ok == (old(meta).rootOffset != 0)
      ensures ok && old(Coherent()) ==> Coherent() && (disk, meta) == InsertTree(old(disk), old(meta), key, value)
      ensures ok ==> meta.totalRecords == Inc64(old(meta).totalRecords)
      ensures ok ==> meta.treeHeight == old(meta).treeHeight || meta.treeHeight == Inc32(old(meta).treeHeight)
      ensures !ok ==> disk == old(disk) && meta == old(meta) && cache == old(cache)
      ensures diskMeta == old(diskMeta) && stream == old(stream) && fileExists == old(fileExists)
    {
      if meta.rootOffset == 0 {
        return false;
      }
      var fuel := |disk.pages|;
      var read, root := Load(meta.rootOffset, EmptyPage);
      if root.count >= MaxKeys {
        var newOff := AllocateNode();
        var top := SplitRoot(newOff, root);
        meta := meta.(rootOffset := newOff, treeHeight := Inc32(meta.treeHeight));
        if top.count < MaxKeys {
          InsertNonFull(newOff, top, key, value, fuel);
        }
      } else {
        InsertNonFull(meta.rootOffset, root, key, value, fuel);
      }
      meta := meta.(totalRecords := Inc64(meta.totalRecords));
      ok := true;
    }

    /**
     * The root split of `insert`: a new root at `newOff` over the old one,
     * split with `split_child`, and read back.
     */
    method SplitRoot(newOff: nat, root: Page) returns (top: Page)
      requires Valid() && !stream.WriteOnly?
      modifies this
      ensures Valid() && KeepsMetadata()
      ensures old(Coherent()) && newOff == old(disk).end - PageSize && newOff in old(disk.pages) ==>
        var sp := SplitPages(old(disk), newOff, NewRoot(root, meta.rootOffset), 0);
        Coherent() && disk == sp.0 && top == Fetch(sp.0, newOff, sp.1)
    {
      var newRoot := NewRoot(root, meta.rootOffset);
      var top1 := SplitChild(newOff, newRoot, 0);
      var read;
      read, top := Load(newOff, top1);
    }

    /**
     * `search(key, result)`: a hit only in a leaf, as Find says from the
     * root when the cache agrees with the open file; on a miss the
     * caller's `prior` result is left as it was.
     */
    method Search(key: CompositeKey, prior: BTreeValue) returns (found: bool, result: BTreeValue)
      requires Valid() && !stream.WriteOnly?
      modifies this
      ensures Valid() && KeepsMetadata() && disk == old(disk)
      ensures old(Coherent()) ==>
                var f := Find(old(disk), meta.rootOffset, key, |old(disk).pages|);
                Coherent() && found == f.Some? && result == if found then f.value else prior
    {
      found, result := SearchFrom(meta.rootOffset, key, prior, |disk.pages|);
    }

    /** `search_recursive(off, key, result)`. */
    method SearchFrom(off: nat, key: CompositeKey, prior: BTreeValue, fuel: nat) returns (found: bool, result: BTreeValue)
      requires Valid() && !stream.WriteOnly?
      modifies this
      ensures Valid() && KeepsMetadata() && disk == old(disk)
      ensures old(Coherent()) ==>
                var f := Find(old(disk), off, key, fuel);
                Coherent() && found == f.Some? && result == if found then f.value else prior
      decreases fuel
    {
      found, result := false, prior;
      if off == 0 {
        return;
      }
      var ok, n := Load(off, EmptyPage);
      if ok {
        match SearchStep(n, key)
        case Hit(v) =>
          found, result := true, v;
        case Miss =>
        case Go(c) =>
          if fuel > 0 {
            found, result := SearchFrom(c, key, prior, fuel - 1);
          }
      }
    }

    /**
     * `range_query(start_key, end_key)`: the pairs Range collects from the
     * root when the cache agrees with the open file.
     */
    method RangeQuery(lo: CompositeKey, hi: CompositeKey) returns (results: seq<(CompositeKey, BTreeValue)>)
      requires Valid() && !stream.WriteOnly?
      modifies this
      ensures Valid() && KeepsMetadata() && disk == old(disk)
      ensures old(Coherent()) ==> Coherent() && results == Range(old(disk), meta.rootOffset, lo, hi, |old(disk).pages|)
    {
      results := RangeFrom(meta.rootOffset, lo, hi, |disk.pages|);
    }

    /** `range_query_recursive(off, start_key, end_key, results)`: the pairs it appends. */
    method RangeFrom(off: nat, lo: CompositeKey, hi: CompositeKey, fuel: nat) returns (r: seq<(CompositeKey, BTreeValue)>)
      requires Valid() && !stream.WriteOnly?
      modifies this
      ensures Valid() && KeepsMetadata() && disk == old(disk)
      ensures old(Coherent()) ==> Coherent() && r == Range(old(disk), off, lo, hi, fuel)
      decreases fuel, 0
    {
      ghost var coherent := Coherent();
      ghost var d := disk;
      r := [];
      if off != 0 {
        var ok, n := Load(off, EmptyPage);
        assert coherent ==> Coherent() && ok == (off in d.pages) && (ok ==> n == d.pages[off]);
        if ok && n.leaf {
          r := LeafMatches(n, lo, hi);
          if n.count > 0 && Less(n.keys[n.count - 1], hi) && n.nextLeaf != 0 && fuel > 0 {
            var rest := RangeFrom(n.nextLeaf, lo, hi, fuel - 1);
            assert coherent ==> Range(d, off, lo, hi, fuel) == r + Range(d, n.nextLeaf, lo, hi, fuel - 1);
            r := r + rest;
          } else {
            assert coherent ==> Range(d, off, lo, hi, fuel) == r + [];
            assert r + [] == r;
          }
        } else if ok && fuel > 0 {
          var pos := FindKeyPosition(n, lo);
          r := RangeOverChildren(n, pos, lo, hi, fuel - 1);
        }
      }
    }

    /** The loop of `range_query_recursive` over the children of an internal node, from slot `pos`. */
    method RangeOverChildren(n: Page, pos: nat, lo: CompositeKey, hi: CompositeKey, fuel: nat)
      returns (r: seq<(CompositeKey, BTreeValue)>)
      requires Valid() && !stream.WriteOnly?
      modifies this
      ensures Valid() && KeepsMetadata() && disk == old(disk)
      ensures old(Coherent()) ==> Coherent() && r == RangeChildren(old(disk), n, pos, lo, hi, fuel)
      decreases fuel, 1
    {
      ghost var coherent := Coherent();
      ghost var d := disk;
      r := [];
      var i := pos;
      while i <= n.count
        invariant Valid() && KeepsMetadata() && disk == d
        invariant coherent ==> Coherent() && r + RangeChildren(d, n, i, lo, hi, fuel) == RangeChildren(d, n, pos, lo, hi, fuel)
        decreases n.count + 1 - i
      {
        var sub := RangeFrom(n.children[i], lo, hi, fuel);
        ghost var before := r;
        r := r + sub;
        if i < n.count && Greater(n.keys[i], hi) {
          assert coherent ==> RangeChildren(d, n, i, lo, hi, fuel) == sub;
          break;
        }
        assert coherent ==> RangeChildren(d, n, i, lo, hi, fuel) == sub + RangeChildren(d, n, i + 1, lo, hi, fuel);
        ConcatAssoc(before, sub, RangeChildren(d, n, i + 1, lo, hi, fuel));
        i := i + 1;
      }
      if i > n.count {
        assert coherent ==> RangeChildren(d, n, i, lo, hi, fuel) == [];
      }
    }

    /** The metadata, on the file and in memory, and the state of the stream are as they were. */
    twostate predicate KeepsMetadata()
      reads this
    {
      diskMeta == old(diskMeta) && stream == old(stream) && meta == old(meta) && fileExists == old(fileExists)
    }
  }
}
