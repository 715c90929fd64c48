/**
 * The second chained hash map and the multimap built on it (Map.h).
 *
 * Map has the same bucket layout, load check and rehash as HashTable and
 * adds `operator[]`, `find`, `erase` and `values`. The buckets are a
 * sequence of chains (see Chains) standing for the ghost mapping
 * `contents`; the hash function is a parameter and the float load factor
 * is the exact fraction lfNum / lfDen.
 */
module Map {
  import opened Wrappers
  import opened Chains
  import HashTable

  class Map<K(==), V> {
    var buckets: seq<Chain<K, V>>
    var capacity: nat
    var size: nat
    const lfNum: nat
    const lfDen: nat
    const hash: K -> nat
    ghost var contents: map<K, V>

    /** The buckets store `contents`, and `size` counts its keys. */
    ghost predicate Stored()
      reads this
    {
      capacity == |buckets| && Represents(buckets, hash, contents) && size == |contents|
    }

    /** Stored, and size / capacity does not exceed the load factor once an insert has returned. */
    ghost predicate Valid()
      reads this
    {
      Stored() && 0 < lfDen <= capacity * lfNum && size * lfDen <= capacity * lfNum
    }

    /** Map(initial_capacity, load_factor): every bucket empty. */
    constructor (hash: K -> nat, initialCapacity: nat, lfNum: nat, lfDen: nat)
      requires 0 < lfDen <= initialCapacity * lfNum
      ensures Valid() && contents == map[]
      ensures capacity == initialCapacity && size == 0 && buckets == EmptyBuckets(initialCapacity)
      ensures this.hash == hash && this.lfNum == lfNum && this.lfDen == lfDen
    {
      this.hash := hash;
      this.lfNum := lfNum;
      this.lfDen := lfDen;
      capacity := initialCapacity;
      size := 0;
      buckets := EmptyBuckets(initialCapacity);
      contents := map[];
      new;
      EmptyRepresents<K, V>(initialCapacity, hash);
    }

    /** The default map: 1024 buckets, load factor 0.75. */
    constructor Default(hash: K -> nat)
      ensures Valid() && contents == map[]
      ensures capacity == 1024 && size == 0 && lfNum == 3 && lfDen == 4 && this.hash == hash
    {
      this.hash := hash;
      lfNum := 3;
      lfDen := 4;
      capacity := 1024;
      size := 0;
      buckets := EmptyBuckets(1024);
      contents := map[];
      new;
      EmptyRepresents<K, V>(1024, hash);
    }

    /**
     * The walk and link update of insert, before its load check:
     * overwrite the node holding k, or prepend a new node to k's bucket.
     * On a key that is present it is also a write through the address
     * that find returns.
     */
    method Place(k: K, v: V) returns (added: bool)
      requires Stored()
      modifies this
      ensures Stored()
      ensures added <==> k !in old(contents)
      ensures contents == old(contents)[k := v]
      ensures size == old(size) + if added then 1 else 0
      ensures capacity == old(capacity)
    {
      var b;
      b, added := PlaceIn(buckets, hash, contents, k, v);
      buckets, contents, size := b, contents[k := v], if added then size + 1 else size;
    }

    /**
     * insert: binds k to v. A new key adds a node and may push the load
     * over the factor, which doubles the capacity by rehashing.
     */
    method Insert(k: K, v: V)
      requires Valid()
      modifies this
      ensures Valid()
      ensures contents == old(contents)[k := v]
      ensures size == old(size) + if k in old(contents) then 0 else 1
      ensures capacity == if k !in old(contents) && (old(size) + 1) * lfDen > old(capacity) * lfNum
                          then 2 * old(capacity) else old(capacity)
    {
      var added := Place(k, v);
      if added && size * lfDen > capacity * lfNum {
        Rehash();
      }
    }

    /**
     * rehash: doubles the capacity and re-inserts every node, bucket by
     * bucket and each chain from its head, into the empty larger map.
     */
    method Rehash()
      requires Stored() && 0 < lfDen <= capacity * lfNum && size * lfDen <= capacity * lfNum + lfDen
      modifies this
      ensures Valid()
      ensures contents == old(contents) && size == old(size)
      ensures capacity == 2 * old(capacity)
    {
      var prior := buckets;
      var oldCapacity := capacity;
      ghost var all := contents;
      Traversal(prior, hash, all);
      HashTable.GrowthFits(size, capacity, lfNum, lfDen);
      capacity := capacity * 2;
      buckets := EmptyBuckets(capacity);
      size := 0;
      contents := map[];
      EmptyRepresents<K, V>(capacity, hash);
      var i := 0;
      while i < oldCapacity
        invariant 0 <= i <= oldCapacity == |prior|
        invariant Stored() && capacity == 2 * oldCapacity
        invariant contents == MapOf(Entries(prior[..i]))
      {
        EntriesStep(prior, i);
        EntriesGrow(prior, i + 1);
        MapOfSize(Entries(prior[..i]));
        Reinsert(contents, prior[i], |Entries(prior)|);
        InsertAllIsMapOf(Entries(prior[..i]), prior[i], |prior[i]|);
        assert prior[i][..|prior[i]|] == prior[i];
        i := i + 1;
      }
      assert prior[..i] == prior;
    }

    /**
     * The inner loop of rehash: inserts the nodes of one old chain from its
     * head. The map never holds more than `bound` entries, which fit under
     * the load factor, so the nested insert's own load check never fires.
     */
    method Reinsert(ghost start: map<K, V>, node: Chain<K, V>, ghost bound: nat)
      requires Stored() && contents == start
      requires |start| + |node| <= bound && bound * lfDen <= capacity * lfNum
      modifies this
      ensures Stored() && contents == InsertAll(start, node, |node|)
      ensures capacity == old(capacity)
      ensures size * lfDen <= capacity * lfNum
    {
      HashTable.LoadStaysBelow(start, node, 0, bound, capacity, lfNum, lfDen);
      var j := 0;
      while j < |node|
        invariant 0 <= j <= |node|
        invariant Stored() && capacity == old(capacity)
        invariant contents == InsertAll(start, node, j)
        invariant size * lfDen <= capacity * lfNum
      {
        var _ := Place(node[j].0, node[j].1);
        HashTable.LoadStaysBelow(start, node, j + 1, bound, capacity, lfNum, lfDen);
        j := j + 1;
      }
    }

    /**
     * operator[]: the value of k's node; a missing key is first inserted
     * with the default value `blank` (V() in the source), which is returned.
     */
    method At(k: K, blank: V) returns (v: V)
      requires Valid()
      modifies this
      ensures Valid()
      ensures k in old(contents) ==> contents == old(contents) && v == old(contents)[k]
      ensures k !in old(contents) ==> contents == old(contents)[k := blank] && v == blank
      ensures contents[k] == v
    {
      var found := Find(k);
      if found.Some? {
        return found.value;
      }
      Insert(k, blank);
      v := blank;
    }

    /** get: the value bound to k, if any. */
    method Get(k: K) returns (r: Option<V>)
      requires Stored()
      ensures r.Some? <==> k in contents
      ensures r.Some? ==> r.value == contents[k]
    {
      r := Chains.Find(buckets, hash, contents, k);
    }

    /** contains: get succeeds. */
    method Contains(k: K) returns (b: bool)
      requires Stored()
      ensures b <==> k in contents
    {
      var r := Get(k);
      return r.Some?;
    }

    /** find: the value of k's node (where `find` points), or none (where it returns null). */
    method Find(k: K) returns (r: Option<V>)
      requires Stored()
      ensures r.Some? <==> k in contents
      ensures r.Some? ==> r.value == contents[k]
    {
      var index := Slot(hash, |buckets|, k);
      var found := Walk(buckets[index], k);
      Lookup(buckets, hash, contents, k, found);
      if found.Some? {
        return Some(buckets[index][found.value].1);
      }
      return None;
    }

    /** erase: unlinks the node holding k, reporting whether there was one. */
    method Erase(k: K) returns (removed: bool)
      requires Valid()
      modifies this
      ensures Valid()
      ensures removed <==> k in old(contents)
      ensures forall x :: x in contents <==> x in old(contents) && x != k
      ensures forall x :: x in contents ==> contents[x] == old(contents)[x]
      ensures size == old(size) - if removed then 1 else 0
      ensures capacity == old(capacity)
    {
      var b;
      ghost var m;
      b, m, removed := UnlinkIn(buckets, hash, contents, k);
      if removed {
        HashTable.MulLe(size - 1, size, lfDen);
      }
      buckets, contents, size := b, m, if removed then size - 1 else size;
    }

    /** clear: empties every bucket and keeps the capacity. */
    method Clear()
      requires Valid()
      modifies this
      ensures Valid()
      ensures contents == map[] && size == 0
      ensures capacity == old(capacity) && buckets == EmptyBuckets(capacity)
    {
      var b := buckets;
      var i := 0;
      while i < |b|
        invariant 0 <= i <= |b| == capacity
        invariant forall n :: 0 <= n < i ==> b[n] == []
      {
        b := b[i := []];
        i := i + 1;
      }
      assert b == EmptyBuckets(capacity);
      buckets, size := b, 0;
      contents := map[];
      EmptyRepresents<K, V>(capacity, hash);
    }

    /** size: the number of stored keys. */
    method Size() returns (n: nat)
      requires Stored()
      ensures n == |contents|
    {
      return size;
    }

    /** empty: no key is stored. */
    method Empty() returns (b: bool)
      requires Stored()
      ensures b <==> contents == map[]
    {
      if size != 0 {
        assert |contents| != 0;
      }
      return size == 0;
    }

    /** keys: every stored key exactly once, in bucket order and each chain from its head. */
    method Keys() returns (ks: seq<K>)
      requires Stored()
      ensures ks == Firsts(Entries(buckets))
      ensures |ks| == size
      ensures forall k :: k in ks <==> k in contents
      ensures forall p, q :: 0 <= p < q < |ks| ==> ks[p] != ks[q]
    {
      ks := KeysOf(buckets);
      TraversalKeys(buckets, hash, contents);
    }

    /**
     * values: the stored values in the same traversal order as keys, so
     * position p holds the value of the p-th key.
     */
    method Values() returns (vs: seq<V>)
      requires Stored()
      ensures vs == Seconds(Entries(buckets))
      ensures |vs| == size
      ensures forall p :: 0 <= p < |vs| ==> Firsts(Entries(buckets))[p] in contents && contents[Firsts(Entries(buckets))[p]] == vs[p]
    {
      vs := ValuesOf(buckets);
      TraversalKeys(buckets, hash, contents);
    }
  }

  /** total_elements_'s meaning: the number of values over all of a multimap's lists. */
  ghost function Total<K, V>(m: map<K, seq<V>>): nat
    decreases |m|
  {
    if m == map[] then 0
    else
      var k :| k in m;
      |m[k]| + Total(m - {k})
  }

  /** The total may split off any key's list, not only the one it picks first. */
  lemma {:induction false} TotalRemove<K, V>(m: map<K, seq<V>>, k: K)
    requires k in m
    ensures Total(m) == |m[k]| + Total(m - {k})
    decreases |m|
  {
    var j :| j in m && Total(m) == |m[j]| + Total(m - {j});
    if j != k {
      var mj := m - {j};
      var mk := m - {k};
      TotalRemove(mj, k);
      TotalRemove(mk, j);
      assert mj - {k} == mk - {j};
    }
  }

  /** `total` counts the values of m, none of whose lists is empty. */
  ghost predicate Accounted<K, V>(m: map<K, seq<V>>, total: nat)
  {
    total == Total(m) && forall k :: k in m ==> m[k] != []
  }

  /** Binding k to a non-empty list l changes the count by the difference in k's list length. */
  lemma Rebind<K, V>(m: map<K, seq<V>>, total: nat, k: K, l: seq<V>)
    requires Accounted(m, total) && l != []
    ensures (if k in m then |m[k]| else 0) <= total
    ensures Accounted(m[k := l], total - (if k in m then |m[k]| else 0) + |l|)
  {
    TotalRemove(m[k := l], k);
    assert m[k := l] - {k} == m - {k};
    if k in m {
      TotalRemove(m, k);
    } else {
      assert m - {k} == m;
    }
  }

  /** Dropping k, whose list is m[k], lowers the count by that list's length. */
  lemma Unbind<K, V>(m: map<K, seq<V>>, m': map<K, seq<V>>, total: nat, k: K)
    requires Accounted(m, total) && k in m
    requires forall x :: x in m' <==> x in m && x != k
    requires forall x :: x in m' ==> m'[x] == m[x]
    ensures |m[k]| <= total && Accounted(m', total - |m[k]|)
  {
    assert m' == m - {k};
    TotalRemove(m, k);
  }

  /** With no empty list stored, the count is zero exactly when no key is stored. */
  lemma AccountedZero<K, V>(m: map<K, seq<V>>, total: nat)
    requires Accounted(m, total)
    ensures total == 0 <==> m == map[]
  {
    if m != map[] {
      var k :| k in m;
      TotalRemove(m, k);
    }
  }

  /** The position std::find reports: the first element equal to v. */
  function FirstPos<V(==)>(s: seq<V>, v: V): (i: nat)
    requires v in s
    ensures i < |s| && s[i] == v && v !in s[..i]
  {
    if s[0] == v then 0 else FirstPos(s[1..], v) + 1
  }

  /** s without its first occurrence of v, if it has one. */
  function RemoveFirst<V(==)>(s: seq<V>, v: V): (r: seq<V>)
    ensures |r| == if v in s then |s| - 1 else |s|
    ensures v !in s ==> r == s
  {
    if s == [] then []
    else if s[0] == v then s[1..]
    else [s[0]] + RemoveFirst(s[1..], v)
  }

  /** vector::erase at std::find's position removes exactly the first occurrence. */
  lemma {:induction false} RemoveFirstIsErase<V>(s: seq<V>, v: V)
    requires v in s
    ensures RemoveFirst(s, v) == s[..FirstPos(s, v)] + s[FirstPos(s, v) + 1..]
  {
    if s[0] != v {
      assert v in s[1..] by {
        var p :| 0 <= p < |s| && s[p] == v;
        assert s[1..][p - 1] == v;
      }
      RemoveFirstIsErase(s[1..], v);
      var i := FirstPos(s[1..], v);
      assert s[..i + 1] == [s[0]] + s[1..][..i];
      assert s[i + 2..] == s[1..][i + 1..];
    }
  }

  /**
   * A multimap: a Map from each key to the non-empty list of its values,
   * in insertion order, and the running count of all values.
   */
  class MultiMap<K(==), V(==)> {
    const inner: Map<K, seq<V>>
    var total: nat

    ghost predicate Valid()
      reads this, inner
    {
      inner.Valid() && Accounted(inner.contents, total)
    }

    /** MultiMap(): an empty default map and a zero count. */
    constructor (hash: K -> nat)
      ensures Valid() && fresh(inner) && inner.contents == map[] && total == 0
    {
      inner := new Map.Default(hash);
      total := 0;
    }

    /** insert: appends v to k's list, starting the list if k is new; one more value in all. */
    method Insert(k: K, v: V)
      requires Valid()
      modifies this, inner
      ensures Valid()
      ensures inner.contents == old(inner.contents)[k := (if k in old(inner.contents) then old(inner.contents)[k] else []) + [v]]
      ensures total == old(total) + 1
    {
      ghost var before := inner.contents;
      var values := inner.Find(k);
      var l := if values.Some? then values.value + [v] else [v];
      assert l == (if k in before then before[k] else []) + [v];
      Rebind(before, total, k, l);
      if values.Some? {
        var _ := inner.Place(k, l);
      } else {
        inner.Insert(k, l);
      }
      total := total + 1;
    }

    /** get: k's list, or the empty list when k is absent. */
    method Get(k: K) returns (r: seq<V>)
      requires Valid()
      ensures r == if k in inner.contents then inner.contents[k] else []
    {
      var found := inner.Get(k);
      r := if found.Some? then found.value else [];
    }

    /** contains: k has a list. */
    method Contains(k: K) returns (b: bool)
      requires Valid()
      ensures b <==> k in inner.contents
    {
      b := inner.Contains(k);
    }

    /** count: the length of k's list, zero when k is absent; non-zero exactly for stored keys. */
    method Count(k: K) returns (n: nat)
      requires Valid()
      ensures n == if k in inner.contents then |inner.contents[k]| else 0
      ensures n > 0 <==> k in inner.contents
    {
      var found := inner.Get(k);
      n := if found.Some? then |found.value| else 0;
    }

    /** erase_key: drops k and its whole list; the count falls by that list's length. */
    method EraseKey(k: K) returns (removed: bool)
      requires Valid()
      modifies this, inner
      ensures Valid()
      ensures removed <==> k in old(inner.contents)
      ensures forall x :: x in inner.contents <==> x in old(inner.contents) && x != k
      ensures forall x :: x in inner.contents ==> inner.contents[x] == old(inner.contents)[x]
      ensures total == old(total) - if removed then |old(inner.contents)[k]| else 0
    {
      ghost var before := inner.contents;
      var n := Count(k);
      removed := inner.Erase(k);
      if removed {
        Unbind(before, inner.contents, total, k);
        total := total - n;
      } else {
        assert inner.contents == before;
      }
    }

    /**
     * erase_value: removes the first occurrence of v from k's list and
     * drops k once its list is empty; false when k or v is absent.
     */
    method EraseValue(k: K, v: V) returns (erased: bool)
      requires Valid()
      modifies this, inner
      ensures Valid()
      ensures erased <==> k in old(inner.contents) && v in old(inner.contents)[k]
      ensures !erased ==> inner.contents == old(inner.contents) && total == old(total)
      ensures erased ==> total == old(total) - 1
      ensures erased && RemoveFirst(old(inner.contents)[k], v) != [] ==>
        inner.contents == old(inner.contents)[k := RemoveFirst(old(inner.contents)[k], v)]
      ensures erased && RemoveFirst(old(inner.contents)[k], v) == [] ==>
        forall x :: x in inner.contents <==> x in old(inner.contents) && x != k
      ensures forall x :: x in inner.contents && x != k ==> inner.contents[x] == old(inner.contents)[x]
    {
      var values := inner.Find(k);
      if values.None? || v !in values.value {
        return false;
      }
      var i := FirstPos(values.value, v);
      RemoveFirstIsErase(values.value, v);
      Shrink(k, values.value[..i] + values.value[i + 1..]);
      erased := true;
    }

    /** The tail of erase_value: k's list loses one value and becomes rest; an empty rest drops k. */
    method Shrink(k: K, rest: seq<V>)
      requires Valid() && k in inner.contents && |inner.contents[k]| == |rest| + 1
      modifies this, inner
      ensures Valid() && total == old(total) - 1
      ensures rest != [] ==> inner.contents == old(inner.contents)[k := rest]
      ensures rest == [] ==> forall x :: x in inner.contents <==> x in old(inner.contents) && x != k
      ensures forall x :: x in inner.contents && x != k ==> inner.contents[x] == old(inner.contents)[x]
    {
      ghost var before := inner.contents;
      if rest == [] {
        var _ := inner.Erase(k);
        Unbind(before, inner.contents, total, k);
      } else {
        var _ := inner.Place(k, rest);
        Rebind(before, total, k, rest);
      }
      total := total - 1;
    }

    /** clear: no keys and a zero count. */
    method Clear()
      requires Valid()
      modifies this, inner
      ensures Valid() && inner.contents == map[] && total == 0
    {
      inner.Clear();
      total := 0;
    }

    /** size: the number of values over all keys. */
    method Size() returns (n: nat)
      requires Valid()
      ensures n == Total(inner.contents)
    {
      return total;
    }

    /** key_count: the number of keys. */
    method KeyCount() returns (n: nat)
      requires Valid()
      ensures n == |inner.contents|
    {
      n := inner.Size();
    }

    /** empty: no values, which with no empty lists stored means no keys. */
    method Empty() returns (b: bool)
      requires Valid()
      ensures b <==> Total(inner.contents) == 0
      ensures b <==> inner.contents == map[]
    {
      AccountedZero(inner.contents, total);
      return total == 0;
    }

    /** keys: every key once, in the inner map's traversal order. */
    method Keys() returns (ks: seq<K>)
      requires Valid()
      ensures |ks| == |inner.contents|
      ensures forall k :: k in ks <==> k in inner.contents
      ensures forall p, q :: 0 <= p < q < |ks| ==> ks[p] != ks[q]
    {
      ks := inner.Keys();
    }
  }
}
