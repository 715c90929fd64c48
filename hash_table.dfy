/**
 * The chained hash table and the LRU cache built on it (HashTable.h).
 *
 * A HashTable keeps its buckets as a sequence of chains (see Chains) and
 * the ghost mapping `contents` they represent. The hash function is a
 * parameter; the float load factor is the exact fraction lfNum / lfDen.
 */
module HashTable {
  import opened Wrappers
  import opened Chains

  class HashTable<K(==), V> {
    var buckets: seq<Chain<K, V>>
    var capacity: nat
    var size: nat
    const lfNum: nat
    const lfDen: nat
    const hash: K -> nat
    ghost var contents: map<K, V>

    /** The buckets store `contents`, and `size` counts its keys. */
    ghost predicate Stored()
      reads this
    {
      capacity == |buckets| && Represents(buckets, hash, contents) && size == |contents|
    }

    /**
     * Stored, and the load factor is respected: size / capacity never
     * exceeds it once an insert has returned. The table may hold at least
     * one entry before it grows (load factor × capacity ≥ 1).
     */
    ghost predicate Valid()
      reads this
    {
      Stored() && 0 < lfDen <= capacity * lfNum && size * lfDen <= capacity * lfNum
    }

    /** HashTable(initial_capacity, load_factor): every bucket empty. */
    constructor (hash: K -> nat, initialCapacity: nat, lfNum: nat, lfDen: nat)
      requires 0 < lfDen <= initialCapacity * lfNum
      ensures Valid() && contents == map[]
      ensures capacity == initialCapacity && size == 0 && buckets == EmptyBuckets(initialCapacity)
      ensures this.hash == hash && this.lfNum == lfNum && this.lfDen == lfDen
    {
      this.hash := hash;
      this.lfNum := lfNum;
      this.lfDen := lfDen;
      capacity := initialCapacity;
      size := 0;
      buckets := EmptyBuckets(initialCapacity);
      contents := map[];
      new;
      EmptyRepresents<K, V>(initialCapacity, hash);
    }

    /** The default table: 1024 buckets, load factor 0.75. */
    constructor Default(hash: K -> nat)
      ensures Valid() && contents == map[]
      ensures capacity == 1024 && size == 0 && lfNum == 3 && lfDen == 4 && this.hash == hash
    {
      this.hash := hash;
      lfNum := 3;
      lfDen := 4;
      capacity := 1024;
      size := 0;
      buckets := EmptyBuckets(1024);
      contents := map[];
      new;
      EmptyRepresents<K, V>(1024, hash);
    }

    /**
     * The walk and link update of insert, before its load check:
     * overwrite the node holding k, or prepend a new node to k's bucket.
     */
    method Place(k: K, v: V) returns (added: bool)
      requires Stored()
      modifies this
      ensures Stored()
      ensures added <==> k !in old(contents)
      ensures contents == old(contents)[k := v]
      ensures size == old(size) + if added then 1 else 0
      ensures capacity == old(capacity)
    {
      var b;
      b, added := PlaceIn(buckets, hash, contents, k, v);
      buckets, contents, size := b, contents[k := v], if added then size + 1 else size;
    }

    /**
     * insert: binds k to v. A new key adds a node and may push the load
     * over the factor, which doubles the capacity by rehashing.
     */
    method Insert(k: K, v: V)
      requires Valid()
      modifies this
      ensures Valid()
      ensures contents == old(contents)[k := v]
      ensures size == old(size) + if k in old(contents) then 0 else 1
      ensures capacity == if k !in old(contents) && (old(size) + 1) * lfDen > old(capacity) * lfNum
                          then 2 * old(capacity) else old(capacity)
    {
      var added := Place(k, v);
      if added && size * lfDen > capacity * lfNum {
        Rehash();
      }
    }

    /**
     * rehash: doubles the capacity and re-inserts every node, bucket by
     * bucket and each chain from its head, into the empty larger table.
     */
    method Rehash()
      requires Stored() && 0 < lfDen <= capacity * lfNum && size * lfDen <= capacity * lfNum + lfDen
      modifies this
      ensures Valid()
      ensures contents == old(contents) && size == old(size)
      ensures capacity == 2 * old(capacity)
    {
      var prior := buckets;
      var oldCapacity := capacity;
      ghost var all := contents;
      Traversal(prior, hash, all);
      GrowthFits(size, capacity, lfNum, lfDen);
      capacity := capacity * 2;
      buckets := EmptyBuckets(capacity);
      size := 0;
      contents := map[];
      EmptyRepresents<K, V>(capacity, hash);
      var i := 0;
      while i < oldCapacity
        invariant 0 <= i <= oldCapacity == |prior|
        invariant Stored() && capacity == 2 * oldCapacity
        invariant contents == MapOf(Entries(prior[..i]))
      {
        EntriesStep(prior, i);
        EntriesGrow(prior, i + 1);
        MapOfSize(Entries(prior[..i]));
        Reinsert(contents, prior[i], |Entries(prior)|);
        InsertAllIsMapOf(Entries(prior[..i]), prior[i], |prior[i]|);
        assert prior[i][..|prior[i]|] == prior[i];
        i := i + 1;
      }
      assert prior[..i] == prior;
    }

    /**
     * The inner loop of rehash: inserts the nodes of one old chain from its
     * head. The table never holds more than `bound` entries, which fit
     * under the load factor, so the nested insert's own load check never
     * fires and no second rehash starts.
     */
    method Reinsert(ghost start: map<K, V>, node: Chain<K, V>, ghost bound: nat)
      requires Stored() && contents == start
      requires |start| + |node| <= bound && bound * lfDen <= capacity * lfNum
      modifies this
      ensures Stored() && contents == InsertAll(start, node, |node|)
      ensures capacity == old(capacity)
      ensures size * lfDen <= capacity * lfNum
    {
      LoadStaysBelow(start, node, 0, bound, capacity, lfNum, lfDen);
      var j := 0;
      while j < |node|
        invariant 0 <= j <= |node|
        invariant Stored() && capacity == old(capacity)
        invariant contents == InsertAll(start, node, j)
        invariant size * lfDen <= capacity * lfNum
      {
        var _ := Place(node[j].0, node[j].1);
        // The nested insert's own load check cannot fire.
        LoadStaysBelow(start, node, j + 1, bound, capacity, lfNum, lfDen);
        j := j + 1;
      }
    }

    /** get: the value bound to k, if any. */
    method Get(k: K) returns (r: Option<V>)
      requires Stored()
      ensures r.Some? <==> k in contents
      ensures r.Some? ==> r.value == contents[k]
    {
      r := Find(buckets, hash, contents, k);
    }

    /** contains: get succeeds. */
    method Contains(k: K) returns (b: bool)
      requires Stored()
      ensures b <==> k in contents
    {
      var r := Get(k);
      return r.Some?;
    }

    /** remove: unlinks the node holding k, reporting whether there was one. */
    method Remove(k: K) returns (removed: bool)
      requires Valid()
      modifies this
      ensures Valid()
      ensures removed <==> k in old(contents)
      ensures forall x :: x in contents <==> x in old(contents) && x != k
      ensures forall x :: x in contents ==> contents[x] == old(contents)[x]
      ensures contents == old(contents) - {k}
      ensures size == old(size) - if removed then 1 else 0
      ensures capacity == old(capacity)
    {
      var b;
      ghost var m;
      b, m, removed := UnlinkIn(buckets, hash, contents, k);
      if removed {
        MulLe(size - 1, size, lfDen);
      }
      MinusOne(contents, m, k);
      buckets, contents, size := b, m, if removed then size - 1 else size;
    }

    /** clear: empties every bucket and keeps the capacity. */
    method Clear()
      requires Valid()
      modifies this
      ensures Valid()
      ensures contents == map[] && size == 0
      ensures capacity == old(capacity) && buckets == EmptyBuckets(capacity)
    {
      var b := buckets;
      var i := 0;
      while i < |b|
        invariant 0 <= i <= |b| == capacity
        invariant forall n :: 0 <= n < i ==> b[n] == []
      {
        b := b[i := []];
        i := i + 1;
      }
      assert b == EmptyBuckets(capacity);
      buckets := b;
      size := 0;
      contents := map[];
      EmptyRepresents<K, V>(capacity, hash);
    }

    /** keys: every stored key exactly once, in bucket order and each chain from its head. */
    method Keys() returns (ks: seq<K>)
      requires Stored()
      ensures ks == Firsts(Entries(buckets))
      ensures |ks| == size
      ensures forall k :: k in ks <==> k in contents
      ensures forall p, q :: 0 <= p < q < |ks| ==> ks[p] != ks[q]
    {
      ks := KeysOf(buckets);
      TraversalKeys(buckets, hash, contents);
    }

    /** empty: no key is stored. */
    method Empty() returns (b: bool)
      requires Stored()
      ensures b <==> contents == map[]
    {
      if size != 0 {
        assert |contents| != 0;
      }
      return size == 0;
    }
  }

  /** While one chain is re-inserted the table stays within its load factor. */
  lemma LoadStaysBelow<K, V>(start: map<K, V>, c: Chain<K, V>, n: nat, bound: nat, cap: nat, num: nat, den: nat)
    requires n <= |c| && |start| + |c| <= bound && bound * den <= cap * num
    ensures !(|InsertAll(start, c, n)| * den > cap * num)
  {
    InsertAllSize(start, c, n);
    MulLe(|InsertAll(start, c, n)|, bound, den);
  }

  /** After doubling, the entries of a table that was at most one entry over its load still fit. */
  lemma GrowthFits(n: nat, cap: nat, num: nat, den: nat)
    requires 0 < den <= cap * num && n * den <= cap * num + den
    ensures n * den <= (2 * cap) * num && den <= (2 * cap) * num
  {
    assert (2 * cap) * num == cap * num + cap * num;
  }

  /** A map that lost k and kept every other binding is the map minus k. */
  lemma MinusOne<K, V>(before: map<K, V>, after: map<K, V>, k: K)
    requires forall x :: x in after <==> x in before && x != k
    requires forall x :: x in after ==> after[x] == before[x]
    ensures after == before - {k}
  {
  }

  lemma MulLe(a: nat, b: nat, c: nat)
    requires a <= b
    ensures a * c <= b * c
  {
  }

  /** The keys of s other than k, in order. */
  function Drop<K(==)>(s: seq<K>, k: K): (r: seq<K>)
    ensures forall x :: x in r ==> x in s && x != k
    ensures forall x :: x in s && x != k ==> x in r
    ensures k !in s ==> r == s
    ensures NoDup(s) ==> NoDup(r) && (k in s ==> |r| == |s| - 1)
  {
    if s == [] then []
    else if s[0] == k then Drop(s[1..], k)
    else
      var rest := Drop(s[1..], k);
      assert NoDup(s) ==> s[0] !in s[1..];
      [s[0]] + rest
  }

  ghost predicate NoDup<K>(s: seq<K>)
  {
    forall p, q :: 0 <= p < q < |s| ==> s[p] != s[q]
  }

  lemma LastIsNew<K>(s: seq<K>, last: K)
    requires NoDup(s) && |s| > 0 && last == s[|s| - 1]
    ensures NoDup(s[..|s| - 1]) && forall x :: x in s[..|s| - 1] <==> x in s && x != last
  {
    assert s == s[..|s| - 1] + [last];
  }

  /** The recency list after touching k: k first, then every other key in its old order. */
  function Touch<K(==)>(order: seq<K>, k: K): (r: seq<K>)
    ensures |r| > 0 && r[0] == k
    ensures forall x :: x in r ==> x in order || x == k
    ensures forall x :: x in order ==> x in r
    ensures NoDup(order) ==> NoDup(r) && |r| == if k in order then |order| else |order| + 1
  {
    [k] + Drop(order, k)
  }

  /** Touching the key already at the front changes nothing: a hit followed by a put of the same key. */
  lemma TouchTwice<K>(order: seq<K>, k: K)
    ensures Touch(Touch(order, k), k) == Touch(order, k)
  {
    var t := Drop(order, k);
    assert ([k] + t)[1..] == t;
    assert Drop([k] + t, k) == Drop(t, k);
  }

  /** Dropping a key just touched to the front leaves the list without it, as dropping it from the list before. */
  lemma DropTouched<K>(order: seq<K>, k: K)
    ensures Drop(Touch(order, k), k) == Drop(order, k)
  {
    var t := Drop(order, k);
    assert ([k] + t)[1..] == t;
  }

  /** The recency list after a put of k: k touched to the front, and the tail dropped once the list is over capacity. */
  function PutOrder<K(==)>(order: seq<K>, k: K, capacity: nat): (r: seq<K>)
    ensures capacity > 0 ==> |r| > 0 && r[0] == k
    ensures forall x :: x in r ==> x in order || x == k
  {
    var t := Touch(order, k);
    if |t| > capacity then t[..|t| - 1] else t
  }

  /**
   * The entries after a put of v under k: v bound to k, and the key at the
   * tail of the touched list dropped once that list is over capacity.
   */
  function PutContents<K(==), V>(order: seq<K>, contents: map<K, V>, k: K, v: V, capacity: nat): (r: map<K, V>)
    ensures forall x :: x in r ==> x in PutOrder(order, k, capacity) || (x in contents && x !in order)
    ensures k in r ==> r[k] == v
    ensures forall x :: x in r && x != k ==> x in contents && r[x] == contents[x]
  {
    var t := Touch(order, k);
    if |t| > capacity then contents[k := v] - {t[|t| - 1]} else contents[k := v]
  }

  /** A put into a cache with room for one entry keeps the key it puts: the tail it may drop is another key. */
  lemma PutKeepsKey<K, V>(order: seq<K>, contents: map<K, V>, k: K, v: V, capacity: nat)
    ensures capacity > 0 ==> k in PutContents(order, contents, k, v, capacity)
  {
    var t := Touch(order, k);
    if 0 < capacity < |t| {
      assert t[|t| - 1] == Drop(order, k)[|t| - 2];
    }
  }

  /**
   * LRUCache: a hash table from key to entry and a recency list between the
   * sentinels head_ and tail_, most recently used first. The list is the
   * key sequence `order`; the value of each node is the one its table entry
   * holds.
   */
  class LRUCache<K(==), V> {
    const table: HashTable<K, V>
    var order: seq<K>
    const capacity: nat
    var size: nat

    /** The list and the table hold the same keys, one list entry per key. */
    ghost predicate Linked()
      reads this, table
    {
      table.Valid() && NoDup(order) && size == |order| == table.size
      && (forall k :: k in table.contents ==> k in order)
      && (forall k :: k in order ==> k in table.contents)
    }

    ghost predicate Valid()
      reads this, table
    {
      Linked() && size <= capacity
    }

    /** The value the cache holds for k. */
    ghost function Value(k: K): V
      reads this, table
      requires k in table.contents
    {
      table.contents[k]
    }

    /** LRUCache(capacity): an empty list and a default table. */
    constructor (hash: K -> nat, capacity: nat)
      ensures Valid() && fresh(table)
      ensures order == [] && table.contents == map[] && this.capacity == capacity
    {
      table := new HashTable.Default(hash);
      order := [];
      this.capacity := capacity;
      size := 0;
    }

    /** get: a hit returns the value and moves k to the front; a miss changes nothing. */
    method Get(k: K) returns (r: Option<V>)
      requires Valid()
      modifies this
      ensures Valid() && table.contents == old(table.contents)
      ensures r.Some? <==> k in old(order)
      ensures r.Some? ==> r.value == table.contents[k]
      ensures order == if k in old(order) then Touch(old(order), k) else old(order)
    {
      r := table.Get(k);
      if r.Some? {
        order := Touch(order, k);
      }
    }

    /**
     * put: an existing key takes the new value and moves to the front; a
     * new key is added at the front and, once the list is longer than the
     * capacity, the tail (the least recently used key) is evicted.
     */
    method Put(k: K, v: V)
      requires Valid()
      modifies this, table
      ensures Valid()
      ensures var t := Touch(old(order), k); order == if |t| > capacity then t[..|t| - 1] else t
      ensures k in old(order) ==> order == Touch(old(order), k) && k in table.contents
      ensures k in table.contents ==> table.contents[k] == v
      ensures forall x :: x in table.contents && x != k ==> x in old(table.contents) && table.contents[x] == old(table.contents)[x]
      ensures order == PutOrder(old(order), k, capacity) && table.contents == PutContents(old(order), old(table.contents), k, v, capacity)
    {
      var present := table.Contains(k);
      table.Insert(k, v);
      order, size := Touch(order, k), if present then size else size + 1;
      if size > capacity {
        EvictTail();
      }
    }

    /** remove_tail and the removal of its key from the table, once the list is one over capacity. */
    method EvictTail()
      requires Linked() && size == capacity + 1
      modifies this, table
      ensures Valid()
      ensures order == old(order)[..|old(order)| - 1]
      ensures table.contents == old(table.contents) - {old(order)[|old(order)| - 1]}
      ensures forall x :: x in table.contents ==> x in old(table.contents) && table.contents[x] == old(table.contents)[x]
    {
      var last, rest := order[|order| - 1], order[..|order| - 1];
      LastIsNew(order, last);
      var _ := table.Remove(last);
      order, size := rest, size - 1;
    }

    /** remove: drops k from the list and the table if it is cached. */
    method Remove(k: K)
      requires Valid()
      modifies this, table
      ensures Valid()
      ensures order == Drop(old(order), k)
      ensures table.contents == old(table.contents) - {k}
      ensures forall x :: x in table.contents ==> x in old(table.contents) && table.contents[x] == old(table.contents)[x]
    {
      var present := table.Contains(k);
      if present {
        order := Drop(order, k);
        var _ := table.Remove(k);
        size := size - 1;
      } else {
        MinusOne(table.contents, table.contents, k);
      }
    }

    /** clear: empties the list and the table. */
    method Clear()
      requires Valid()
      modifies this, table
      ensures Valid() && order == [] && table.contents == map[]
    {
      order := [];
      table.Clear();
      size := 0;
    }

    /** size: the number of cached keys. */
    method Size() returns (n: nat)
      requires Valid()
      ensures n == |order| <= capacity
    {
      return size;
    }
  }

  /** A table that did not change is still valid. */
  twostate lemma TableFramed<K, V>(t: HashTable<K, V>)
    requires old(t.Valid()) && unchanged(t)
    ensures t.Valid()
  {
  }

  /** A cache none of whose objects changed is still valid. */
  twostate lemma CacheFramed<K, V>(c: LRUCache<K, V>)
    requires old(c.Valid()) && unchanged(c, c.table)
    ensures c.Valid()
  {
  }
}
