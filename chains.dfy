/**
 * Separate-chaining buckets, shared by HashTable and Map. A table is a
 * sequence of buckets; a bucket is the chain of (key, value) nodes listed
 * from its head. A node for key k lives in bucket `hash(k) % capacity`.
 *
 * `Represents(b, hash, m)` ties a bucket sequence to the abstract mapping m
 * it stores; the lemmas below show how each link update of the source
 * (prepend a node, overwrite a node's value, unlink a node) changes m, and
 * what the bucket-order traversal used by rehash, keys() and values() sees.
 */
module Chains {
  import opened Wrappers

  type Chain<K, V> = seq<(K, V)>

  /** The bucket of key k in a table of `cap` buckets: `hasher(key) % capacity`. */
  function Slot<K>(hash: K -> nat, cap: nat, k: K): (i: nat)
    requires cap > 0
    ensures i < cap
  {
    hash(k) % cap
  }

  /** A table of `cap` empty buckets. */
  function EmptyBuckets<K, V>(cap: nat): (b: seq<Chain<K, V>>)
    ensures |b| == cap && forall i :: 0 <= i < cap ==> b[i] == []
  {
    seq(cap, _ => [])
  }

  /** Every node sits in the bucket its key hashes to. */
  ghost predicate Placed<K, V>(b: seq<Chain<K, V>>, hash: K -> nat, cap: nat)
    requires cap > 0
  {
    forall i, j :: 0 <= i < |b| && 0 <= j < |b[i]| ==> Slot(hash, cap, b[i][j].0) == i
  }

  /** No key occurs twice in one chain. */
  ghost predicate Unique<K, V>(b: seq<Chain<K, V>>)
  {
    forall i, j, j' :: 0 <= i < |b| && 0 <= j < j' < |b[i]| ==> b[i][j].0 != b[i][j'].0
  }

  /** Every node holds the value that m records for its key. */
  ghost predicate Holds<K, V>(b: seq<Chain<K, V>>, m: map<K, V>)
  {
    forall i, j :: 0 <= i < |b| && 0 <= j < |b[i]| ==> b[i][j].0 in m && m[b[i][j].0] == b[i][j].1
  }

  /** Every mapping of m has a node in its key's bucket. */
  ghost predicate Covers<K, V>(b: seq<Chain<K, V>>, hash: K -> nat, m: map<K, V>)
    requires |b| > 0
  {
    forall k :: k in m ==> (k, m[k]) in b[Slot(hash, |b|, k)]
  }

  /** The buckets b store exactly the mapping m. */
  ghost predicate Represents<K, V>(b: seq<Chain<K, V>>, hash: K -> nat, m: map<K, V>)
  {
    |b| > 0 && Placed(b, hash, |b|) && Unique(b) && Holds(b, m) && Covers(b, hash, m)
  }

  /** Follows a chain from its head to the first node holding k, as the `while (node)` loops do. */
  method Walk<K(==), V>(c: Chain<K, V>, k: K) returns (r: Option<nat>)
    ensures r.Some? ==> r.value < |c| && c[r.value].0 == k
    ensures r.Some? ==> forall n :: 0 <= n < r.value ==> c[n].0 != k
    ensures r.None? ==> forall n :: 0 <= n < |c| ==> c[n].0 != k
  {
    var j := 0;
    while j < |c|
      invariant 0 <= j <= |c|
      invariant forall n :: 0 <= n < j ==> c[n].0 != k
    {
      if c[j].0 == k {
        return Some(j);
      }
      j := j + 1;
    }
    return None;
  }

  /** A key is found in its bucket exactly when it is mapped, and its node holds its value. */
  lemma Lookup<K, V>(b: seq<Chain<K, V>>, hash: K -> nat, m: map<K, V>, k: K, r: Option<nat>)
    requires Represents(b, hash, m)
    requires r.Some? ==> r.value < |b[Slot(hash, |b|, k)]| && b[Slot(hash, |b|, k)][r.value].0 == k
    requires r.None? ==> forall n :: 0 <= n < |b[Slot(hash, |b|, k)]| ==> b[Slot(hash, |b|, k)][n].0 != k
    ensures r.Some? <==> k in m
    ensures r.Some? ==> b[Slot(hash, |b|, k)][r.value].1 == m[k]
  {
    var s := Slot(hash, |b|, k);
    if k in m {
      assert (k, m[k]) in b[s];
    }
  }

  /** The empty table stores the empty mapping. */
  lemma EmptyRepresents<K, V>(cap: nat, hash: K -> nat)
    requires cap > 0
    ensures Represents(EmptyBuckets<K, V>(cap), hash, map[])
  {
  }

  /** The table after a new node (k, v) becomes the head of k's bucket. */
  function Prepended<K, V>(b: seq<Chain<K, V>>, hash: K -> nat, k: K, v: V): (r: seq<Chain<K, V>>)
    requires |b| > 0
    ensures |r| == |b| && r[Slot(hash, |b|, k)] == [(k, v)] + b[Slot(hash, |b|, k)]
    ensures forall i :: 0 <= i < |b| && i != Slot(hash, |b|, k) ==> r[i] == b[i]
  {
    b[Slot(hash, |b|, k) := [(k, v)] + b[Slot(hash, |b|, k)]]
  }

  /** The table after node j of k's bucket takes the value v. */
  function Overwritten<K, V>(b: seq<Chain<K, V>>, hash: K -> nat, k: K, v: V, j: nat): (r: seq<Chain<K, V>>)
    requires |b| > 0 && j < |b[Slot(hash, |b|, k)]|
    ensures |r| == |b| && r[Slot(hash, |b|, k)] == b[Slot(hash, |b|, k)][j := (k, v)]
    ensures forall i :: 0 <= i < |b| && i != Slot(hash, |b|, k) ==> r[i] == b[i]
  {
    b[Slot(hash, |b|, k) := b[Slot(hash, |b|, k)][j := (k, v)]]
  }

  /** The table after node j of k's bucket is unlinked. */
  function Unlinked<K, V>(b: seq<Chain<K, V>>, hash: K -> nat, k: K, j: nat): (r: seq<Chain<K, V>>)
    requires |b| > 0 && j < |b[Slot(hash, |b|, k)]|
    ensures |r| == |b| && r[Slot(hash, |b|, k)] == Without(b[Slot(hash, |b|, k)], j)
    ensures forall i :: 0 <= i < |b| && i != Slot(hash, |b|, k) ==> r[i] == b[i]
  {
    b[Slot(hash, |b|, k) := Without(b[Slot(hash, |b|, k)], j)]
  }

  /** Prepending a node for an absent key adds that mapping. */
  lemma Prepend<K, V>(b: seq<Chain<K, V>>, hash: K -> nat, m: map<K, V>, k: K, v: V)
    requires Represents(b, hash, m) && k !in m
    ensures Represents(Prepended(b, hash, k, v), hash, m[k := v])
    ensures |m[k := v]| == |m| + 1
  {
    var s := Slot(hash, |b|, k);
    PrependPlaced(b, hash, k, v);
    PrependHolds(b, m, s, k, v);
    PrependCovers(b, hash, m, k, v);
  }

  lemma PrependPlaced<K, V>(b: seq<Chain<K, V>>, hash: K -> nat, k: K, v: V)
    requires |b| > 0 && Placed(b, hash, |b|)
    ensures Placed(b[Slot(hash, |b|, k) := [(k, v)] + b[Slot(hash, |b|, k)]], hash, |b|)
  {
    var s := Slot(hash, |b|, k);
    var b': seq<Chain<K, V>> := b[s := [(k, v)] + b[s]];
    forall i: int, j: int | 0 <= i < |b'| && 0 <= j < |b'[i]|
      ensures Slot(hash, |b|, b'[i][j].0) == i
    {
      if i == s && j > 0 {
        assert b'[i][j] == b[i][j - 1];
      }
    }
  }

  lemma PrependHolds<K, V>(b: seq<Chain<K, V>>, m: map<K, V>, s: nat, k: K, v: V)
    requires Holds(b, m) && Unique(b) && s < |b| && k !in m
    ensures Holds(b[s := [(k, v)] + b[s]], m[k := v])
    ensures Unique(b[s := [(k, v)] + b[s]])
  {
    var b': seq<Chain<K, V>> := b[s := [(k, v)] + b[s]];
    var m' := m[k := v];
    forall i: int, j: int | 0 <= i < |b'| && 0 <= j < |b'[i]|
      ensures b'[i][j].0 in m' && m'[b'[i][j].0] == b'[i][j].1
    {
      if i == s && j > 0 {
        assert b'[i][j] == b[i][j - 1];
      }
    }
    forall i: int, j: int, j': int | 0 <= i < |b'| && 0 <= j < j' < |b'[i]|
      ensures b'[i][j].0 != b'[i][j'].0
    {
      if i == s {
        assert b'[i][j'] == b[i][j' - 1];
        if j > 0 {
          assert b'[i][j] == b[i][j - 1];
        }
      }
    }
  }

  lemma PrependCovers<K, V>(b: seq<Chain<K, V>>, hash: K -> nat, m: map<K, V>, k: K, v: V)
    requires |b| > 0 && Covers(b, hash, m)
    ensures Covers(Prepended(b, hash, k, v), hash, m[k := v])
  {
    var b' := Prepended(b, hash, k, v);
    var m' := m[k := v];
    forall x | x in m'
      ensures (x, m'[x]) in b'[Slot(hash, |b'|, x)]
    {
      if x != k {
        assert (x, m[x]) in b[Slot(hash, |b|, x)];
      }
    }
  }

  /** Overwriting the value of the node that holds k rebinds k. */
  lemma Overwrite<K, V>(b: seq<Chain<K, V>>, hash: K -> nat, m: map<K, V>, k: K, v: V, j: nat)
    requires Represents(b, hash, m)
    requires j < |b[Slot(hash, |b|, k)]| && b[Slot(hash, |b|, k)][j].0 == k
    ensures k in m
    ensures Represents(Overwritten(b, hash, k, v, j), hash, m[k := v])
    ensures |m[k := v]| == |m|
  {
    var s := Slot(hash, |b|, k);
    assert b[s][j].0 in m;
    OverwriteKeeps(b, hash, m, s, j, v);
    OverwriteCovers(b, hash, m, k, v, j);
  }

  lemma OverwriteKeeps<K, V>(b: seq<Chain<K, V>>, hash: K -> nat, m: map<K, V>, s: nat, j: nat, v: V)
    requires |b| > 0 && Placed(b, hash, |b|) && Unique(b) && Holds(b, m)
    requires s < |b| && j < |b[s]|
    ensures Placed(b[s := b[s][j := (b[s][j].0, v)]], hash, |b|)
    ensures Unique(b[s := b[s][j := (b[s][j].0, v)]])
    ensures Holds(b[s := b[s][j := (b[s][j].0, v)]], m[b[s][j].0 := v])
  {
  }

  lemma OverwriteCovers<K, V>(b: seq<Chain<K, V>>, hash: K -> nat, m: map<K, V>, k: K, v: V, j: nat)
    requires |b| > 0 && Covers(b, hash, m)
    requires j < |b[Slot(hash, |b|, k)]| && b[Slot(hash, |b|, k)][j].0 == k
    ensures Covers(Overwritten(b, hash, k, v, j), hash, m[k := v])
  {
    var s := Slot(hash, |b|, k);
    var b' := Overwritten(b, hash, k, v, j);
    var m' := m[k := v];
    forall x | x in m'
      ensures (x, m'[x]) in b'[Slot(hash, |b'|, x)]
    {
      if x != k {
        var t := Slot(hash, |b|, x);
        assert (x, m[x]) in b[t];
        var n :| 0 <= n < |b[t]| && b[t][n] == (x, m[x]);
        assert b'[t][n] == (x, m[x]);
      } else {
        assert b'[s][j] == (k, v);
      }
    }
  }

  /** Chain c without its node at position j. */
  function Without<K, V>(c: Chain<K, V>, j: nat): (r: Chain<K, V>)
    requires j < |c|
    ensures |r| == |c| - 1
    ensures forall n :: 0 <= n < |r| ==> r[n] == c[if n < j then n else n + 1]
  {
    c[..j] + c[j + 1..]
  }

  /** Unlinking the node that holds k removes k's mapping. */
  lemma Unlink<K, V>(b: seq<Chain<K, V>>, hash: K -> nat, m: map<K, V>, k: K, j: nat)
    requires Represents(b, hash, m)
    requires j < |b[Slot(hash, |b|, k)]| && b[Slot(hash, |b|, k)][j].0 == k
    ensures k in m
    ensures Represents(Unlinked(b, hash, k, j), hash, m - {k})
    ensures |m - {k}| == |m| - 1
  {
    var s := Slot(hash, |b|, k);
    var b': seq<Chain<K, V>> := b[s := Without(b[s], j)];
    assert b[s][j].0 in m;
    UnlinkPlaced(b, hash, s, j);
    UnlinkHolds(b, hash, m, s, j);
    UnlinkCovers(b, hash, m, k, j);
    assert (m - {k}).Keys == m.Keys - {k};
  }

  lemma UnlinkPlaced<K, V>(b: seq<Chain<K, V>>, hash: K -> nat, s: nat, j: nat)
    requires |b| > 0 && Placed(b, hash, |b|) && Unique(b)
    requires s < |b| && j < |b[s]|
    ensures Placed(b[s := Without(b[s], j)], hash, |b|)
    ensures Unique(b[s := Without(b[s], j)])
  {
  }

  lemma UnlinkHolds<K, V>(b: seq<Chain<K, V>>, hash: K -> nat, m: map<K, V>, s: nat, j: nat)
    requires |b| > 0 && Placed(b, hash, |b|) && Holds(b, m) && Unique(b)
    requires s < |b| && j < |b[s]|
    ensures Holds(b[s := Without(b[s], j)], m - {b[s][j].0})
  {
    var b': seq<Chain<K, V>> := b[s := Without(b[s], j)];
    forall i: int, n: int | 0 <= i < |b'| && 0 <= n < |b'[i]|
      ensures b'[i][n].0 in m - {b[s][j].0}
    {
      if i == s {
        assert b'[i][n] == b[s][if n < j then n else n + 1];
      }
    }
  }

  lemma UnlinkCovers<K, V>(b: seq<Chain<K, V>>, hash: K -> nat, m: map<K, V>, k: K, j: nat)
    requires Represents(b, hash, m)
    requires j < |b[Slot(hash, |b|, k)]| && b[Slot(hash, |b|, k)][j].0 == k
    ensures Covers(Unlinked(b, hash, k, j), hash, m - {k})
  {
    var s := Slot(hash, |b|, k);
    var c': Chain<K, V> := Without(b[s], j);
    var b': seq<Chain<K, V>> := b[s := c'];
    forall x | x in m - {k}
      ensures (x, m[x]) in b'[Slot(hash, |b'|, x)]
    {
      var t := Slot(hash, |b|, x);
      assert (x, m[x]) in b[t];
      var n :| 0 <= n < |b[t]| && b[t][n] == (x, m[x]);
      if t == s {
        assert n != j;
        assert c'[if n < j then n else n - 1] == (x, m[x]);
      }
    }
  }

  /** get's walk: the value of k's node, if k's bucket has one. */
  method Find<K(==), V>(b: seq<Chain<K, V>>, hash: K -> nat, ghost m: map<K, V>, k: K) returns (r: Option<V>)
    requires Represents(b, hash, m)
    ensures r.Some? <==> k in m
    ensures r.Some? ==> r.value == m[k]
  {
    var index := Slot(hash, |b|, k);
    var found := Walk(b[index], k);
    Lookup(b, hash, m, k, found);
    if found.Some? {
      return Some(b[index][found.value].1);
    }
    return None;
  }

  /** insert's walk and link update: overwrite the value of k's node, or prepend a new node. */
  method PlaceIn<K(==), V>(b: seq<Chain<K, V>>, hash: K -> nat, ghost m: map<K, V>, k: K, v: V)
    returns (b': seq<Chain<K, V>>, added: bool)
    requires Represents(b, hash, m)
    ensures Represents(b', hash, m[k := v]) && |b'| == |b|
    ensures added <==> k !in m
    ensures |m[k := v]| == |m| + if added then 1 else 0
    ensures added ==> b' == Prepended(b, hash, k, v)
  {
    var index := Slot(hash, |b|, k);
    var found := Walk(b[index], k);
    Lookup(b, hash, m, k, found);
    if found.Some? {
      Overwrite(b, hash, m, k, v, found.value);
      return Overwritten(b, hash, k, v, found.value), false;
    }
    Prepend(b, hash, m, k, v);
    return Prepended(b, hash, k, v), true;
  }

  /** remove's walk and unlink: drop k's node if its bucket has one; m' is m without k. */
  method UnlinkIn<K(==), V>(b: seq<Chain<K, V>>, hash: K -> nat, ghost m: map<K, V>, k: K)
    returns (b': seq<Chain<K, V>>, ghost m': map<K, V>, removed: bool)
    requires Represents(b, hash, m)
    ensures Represents(b', hash, m') && |b'| == |b|
    ensures forall x :: x in m' <==> x in m && x != k
    ensures forall x :: x in m' ==> m'[x] == m[x]
    ensures removed <==> k in m
    ensures |m'| == |m| - if removed then 1 else 0
  {
    var index := Slot(hash, |b|, k);
    var found := Walk(b[index], k);
    Lookup(b, hash, m, k, found);
    if found.None? {
      return b, m, false;
    }
    Unlink(b, hash, m, k, found.value);
    return Unlinked(b, hash, k, found.value), m - {k}, true;
  }

  /** The nodes of all buckets in traversal order: bucket by bucket, each chain from its head. */
  ghost function Entries<K, V>(b: seq<Chain<K, V>>): seq<(K, V)>
  {
    if b == [] then [] else Entries(b[..|b| - 1]) + b[|b| - 1]
  }

  /** The keys of a node sequence, in order. */
  function Firsts<K, V>(s: seq<(K, V)>): (r: seq<K>)
    ensures |r| == |s| && forall n :: 0 <= n < |s| ==> r[n] == s[n].0
  {
    seq(|s|, n requires 0 <= n < |s| => s[n].0)
  }

  /** The values of a node sequence, in order. */
  function Seconds<K, V>(s: seq<(K, V)>): (r: seq<V>)
    ensures |r| == |s| && forall n :: 0 <= n < |s| ==> r[n] == s[n].1
  {
    seq(|s|, n requires 0 <= n < |s| => s[n].1)
  }

  /** The mapping obtained by inserting the nodes of s one after the other. */
  ghost function MapOf<K, V>(s: seq<(K, V)>): map<K, V>
  {
    if s == [] then map[] else MapOf(s[..|s| - 1])[s[|s| - 1].0 := s[|s| - 1].1]
  }

  /** m after inserting the first n nodes of c one after the other. */
  ghost function InsertAll<K, V>(m: map<K, V>, c: Chain<K, V>, n: nat): map<K, V>
    requires n <= |c|
  {
    if n == 0 then m else InsertAll(m, c, n - 1)[c[n - 1].0 := c[n - 1].1]
  }

  /** Taking one more node of a chain appends that node. */
  lemma ExtendDone<K, V>(done: seq<(K, V)>, c: Chain<K, V>, j: nat)
    requires j < |c|
    ensures done + c[..j + 1] == (done + c[..j]) + [c[j]]
  {
    assert c[..j + 1] == c[..j] + [c[j]];
  }

  /** Inserting a chain's nodes into MapOf(s) is MapOf of the longer node sequence. */
  lemma {:induction false} InsertAllIsMapOf<K, V>(s: seq<(K, V)>, c: Chain<K, V>, n: nat)
    requires n <= |c|
    ensures InsertAll(MapOf(s), c, n) == MapOf(s + c[..n])
  {
    if n == 0 {
      assert s + c[..0] == s;
    } else {
      InsertAllIsMapOf(s, c, n - 1);
      ExtendDone(s, c, n - 1);
      MapOfStep(s + c[..n - 1], c[n - 1]);
    }
  }

  /** Inserting n nodes adds at most n keys. */
  lemma {:induction false} InsertAllSize<K, V>(m: map<K, V>, c: Chain<K, V>, n: nat)
    requires n <= |c|
    ensures |InsertAll(m, c, n)| <= |m| + n
  {
    if n > 0 {
      InsertAllSize(m, c, n - 1);
    }
  }

  ghost predicate DistinctKeys<K, V>(s: seq<(K, V)>)
  {
    forall p, q :: 0 <= p < q < |s| ==> s[p].0 != s[q].0
  }

  lemma EntriesStep<K, V>(b: seq<Chain<K, V>>, i: nat)
    requires i < |b|
    ensures Entries(b[..i + 1]) == Entries(b[..i]) + b[i]
  {
    assert b[..i + 1][..i] == b[..i];
  }

  lemma MapOfStep<K, V>(s: seq<(K, V)>, x: (K, V))
    ensures MapOf(s + [x]) == MapOf(s)[x.0 := x.1]
  {
    assert (s + [x])[..|s|] == s;
  }

  /** A node is traversed before bucket n exactly when it lies in one of the first n buckets. */
  lemma {:induction false} EntriesIn<K, V>(b: seq<Chain<K, V>>, n: nat, e: (K, V))
    requires n <= |b|
    ensures e in Entries(b[..n]) <==> exists i :: 0 <= i < n && e in b[i]
  {
    if n > 0 {
      EntriesIn(b, n - 1, e);
      EntriesStep(b, n - 1);
    }
  }

  /** Only the first n buckets are traversed before bucket n, so the traversal only grows. */
  lemma {:induction false} EntriesGrow<K, V>(b: seq<Chain<K, V>>, n: nat)
    requires n <= |b|
    ensures |Entries(b[..n])| <= |Entries(b)|
    decreases |b| - n
  {
    if n < |b| {
      EntriesStep(b, n);
      EntriesGrow(b, n + 1);
    } else {
      assert b[..n] == b;
    }
  }

  /** In a well-placed table the traversal meets every key once. */
  lemma {:induction false} EntriesDistinct<K, V>(b: seq<Chain<K, V>>, hash: K -> nat, cap: nat, n: nat)
    requires cap > 0 && Placed(b, hash, cap) && Unique(b) && n <= |b|
    ensures DistinctKeys(Entries(b[..n]))
    ensures forall p :: 0 <= p < |Entries(b[..n])| ==> Slot(hash, cap, Entries(b[..n])[p].0) < n
  {
    if n > 0 {
      EntriesDistinct(b, hash, cap, n - 1);
      EntriesStep(b, n - 1);
      var e: seq<(K, V)> := Entries(b[..n - 1]);
      var c: Chain<K, V> := b[n - 1];
      assert Entries(b[..n]) == e + c;
      forall p: int, q: int | 0 <= p < q < |e + c|
        ensures (e + c)[p].0 != (e + c)[q].0
      {
        if q >= |e| && p < |e| {
          assert (e + c)[q] == c[q - |e|];
          assert Slot(hash, cap, c[q - |e|].0) == n - 1;
        } else if p >= |e| {
          assert (e + c)[p] == c[p - |e|];
          assert (e + c)[q] == c[q - |e|];
        }
      }
      forall p: int | 0 <= p < |e + c|
        ensures Slot(hash, cap, (e + c)[p].0) < n
      {
        if p >= |e| {
          assert (e + c)[p] == c[p - |e|];
        }
      }
    }
  }

  /** Every key that MapOf(s) maps is the key of some node of s. */
  lemma {:induction false} MapOfOnly<K, V>(s: seq<(K, V)>, k: K)
    requires k in MapOf(s)
    ensures exists p :: 0 <= p < |s| && s[p].0 == k
  {
    var s0 := s[..|s| - 1];
    if k != s[|s| - 1].0 {
      MapOfOnly(s0, k);
      var p :| 0 <= p < |s0| && s0[p].0 == k;
      assert s[p] == s0[p];
    }
  }

  /** With distinct keys, each node's key is mapped to that node's value. */
  lemma {:induction false} MapOfHas<K, V>(s: seq<(K, V)>, n: nat)
    requires DistinctKeys(s) && n < |s|
    ensures s[n].0 in MapOf(s) && MapOf(s)[s[n].0] == s[n].1
  {
    var s0 := s[..|s| - 1];
    if n < |s| - 1 {
      assert DistinctKeys(s0) by {
        forall p: int, q: int | 0 <= p < q < |s0|
          ensures s0[p].0 != s0[q].0
        {
          assert s0[p] == s[p] && s0[q] == s[q];
        }
      }
      MapOfHas(s0, n);
      assert s0[n] == s[n];
    }
  }

  /** Inserting distinct keys one by one maps each key to its own value. */
  lemma {:induction false} MapOfDistinct<K, V>(s: seq<(K, V)>)
    requires DistinctKeys(s)
    ensures |MapOf(s)| == |s|
    ensures forall n :: 0 <= n < |s| ==> s[n].0 in MapOf(s) && MapOf(s)[s[n].0] == s[n].1
    ensures forall k :: k in MapOf(s) ==> k in Firsts(s)
  {
    MapOfDistinctSize(s);
    forall n: int | 0 <= n < |s|
      ensures s[n].0 in MapOf(s) && MapOf(s)[s[n].0] == s[n].1
    {
      MapOfHas(s, n);
    }
    forall k | k in MapOf(s)
      ensures k in Firsts(s)
    {
      MapOfOnly(s, k);
      var p :| 0 <= p < |s| && s[p].0 == k;
      assert Firsts(s)[p] == k;
    }
  }

  /** Inserting distinct keys one by one maps as many keys as there are nodes. */
  lemma {:induction false} MapOfDistinctSize<K, V>(s: seq<(K, V)>)
    requires DistinctKeys(s)
    ensures |MapOf(s)| == |s|
  {
    if s != [] {
      var s0 := s[..|s| - 1];
      var x := s[|s| - 1];
      assert DistinctKeys(s0) by {
        forall p: int, q: int | 0 <= p < q < |s0|
          ensures s0[p].0 != s0[q].0
        {
          assert s0[p] == s[p] && s0[q] == s[q];
        }
      }
      MapOfDistinctSize(s0);
      forall p: int | 0 <= p < |s0|
        ensures s0[p].0 != x.0
      {
        assert s0[p] == s[p];
      }
      MapOfOutside(s0, x.0);
    }
  }

  /** A key no node of s carries is not mapped by MapOf(s). */
  lemma {:induction false} MapOfOutside<K, V>(s: seq<(K, V)>, k: K)
    requires forall p :: 0 <= p < |s| ==> s[p].0 != k
    ensures k !in MapOf(s)
  {
    if s != [] {
      var s0 := s[..|s| - 1];
      forall p: int | 0 <= p < |s0|
        ensures s0[p].0 != k
      {
        assert s0[p] == s[p];
      }
      MapOfOutside(s0, k);
    }
  }

  /** Inserting the nodes of s one by one maps at most |s| keys. */
  lemma {:induction false} MapOfSize<K, V>(s: seq<(K, V)>)
    ensures |MapOf(s)| <= |s|
  {
    if s != [] {
      MapOfSize(s[..|s| - 1]);
    }
  }

  /**
   * The traversal of a table visits every stored mapping exactly once:
   * re-inserting its nodes in order rebuilds the mapping.
   */
  lemma Traversal<K, V>(b: seq<Chain<K, V>>, hash: K -> nat, m: map<K, V>)
    requires Represents(b, hash, m)
    ensures DistinctKeys(Entries(b))
    ensures MapOf(Entries(b)) == m
    ensures |Entries(b)| == |m|
  {
    EntriesDistinct(b, hash, |b|, |b|);
    assert b[..|b|] == b;
    var e := Entries(b);
    MapOfDistinct(e);
    forall k | k in MapOf(e)
      ensures k in m && m[k] == MapOf(e)[k]
    {
      TraversedIsStored(b, hash, m, k);
    }
    forall k | k in m
      ensures k in MapOf(e)
    {
      StoredIsTraversed(b, hash, m, k);
    }
  }

  lemma TraversedIsStored<K, V>(b: seq<Chain<K, V>>, hash: K -> nat, m: map<K, V>, k: K)
    requires |b| > 0 && Holds(b, m) && DistinctKeys(Entries(b)) && k in MapOf(Entries(b))
    ensures k in m && m[k] == MapOf(Entries(b))[k]
  {
    var e := Entries(b);
    MapOfOnly(e, k);
    var p :| 0 <= p < |e| && e[p].0 == k;
    MapOfHas(e, p);
    assert b[..|b|] == b;
    EntriesIn(b, |b|, e[p]);
    var i :| 0 <= i < |b| && e[p] in b[i];
    var j :| 0 <= j < |b[i]| && b[i][j] == e[p];
  }

  lemma StoredIsTraversed<K, V>(b: seq<Chain<K, V>>, hash: K -> nat, m: map<K, V>, k: K)
    requires |b| > 0 && Covers(b, hash, m) && DistinctKeys(Entries(b)) && k in m
    ensures k in MapOf(Entries(b))
  {
    var e := Entries(b);
    var x := (k, m[k]);
    var i := Slot(hash, |b|, k);
    assert x in b[i];
    assert b[..|b|] == b;
    EntriesIn(b, |b|, x);
    assert x in e;
    var p :| 0 <= p < |e| && e[p] == x;
    MapOfHas(e, p);
  }

  /** The keys of a traversal list each stored key once; the values line up with them. */
  lemma TraversalKeys<K, V>(b: seq<Chain<K, V>>, hash: K -> nat, m: map<K, V>)
    requires Represents(b, hash, m)
    ensures |Firsts(Entries(b))| == |m|
    ensures forall p, q :: 0 <= p < q < |Entries(b)| ==> Firsts(Entries(b))[p] != Firsts(Entries(b))[q]
    ensures forall k :: k in Firsts(Entries(b)) <==> k in m
    ensures forall p :: 0 <= p < |Entries(b)| ==> Firsts(Entries(b))[p] in m && m[Firsts(Entries(b))[p]] == Seconds(Entries(b))[p]
  {
    Traversal(b, hash, m);
    MapOfDistinct(Entries(b));
  }

  /** keys()' double loop: the key of every node, bucket by bucket and each chain from its head. */
  method KeysOf<K, V>(b: seq<Chain<K, V>>) returns (ks: seq<K>)
    ensures ks == Firsts(Entries(b))
  {
    ks := [];
    var i := 0;
    while i < |b|
      invariant 0 <= i <= |b|
      invariant ks == Firsts(Entries(b[..i]))
    {
      var node := b[i];
      var j := 0;
      while j < |node|
        invariant 0 <= j <= |node|
        invariant ks == Firsts(Entries(b[..i]) + node[..j])
      {
        ks := ks + [node[j].0];
        ExtendDone(Entries(b[..i]), node, j);
        j := j + 1;
      }
      assert node[..j] == node;
      EntriesStep(b, i);
      i := i + 1;
    }
    assert b[..i] == b;
  }

  /** values()' double loop: the value of every node, in the same order as KeysOf. */
  method ValuesOf<K, V>(b: seq<Chain<K, V>>) returns (vs: seq<V>)
    ensures vs == Seconds(Entries(b))
  {
    vs := [];
    var i := 0;
    while i < |b|
      invariant 0 <= i <= |b|
      invariant vs == Seconds(Entries(b[..i]))
    {
      var node := b[i];
      var j := 0;
      while j < |node|
        invariant 0 <= j <= |node|
        invariant vs == Seconds(Entries(b[..i]) + node[..j])
      {
        vs := vs + [node[j].1];
        ExtendDone(Entries(b[..i]), node, j);
        j := j + 1;
      }
      assert node[..j] == node;
      EntriesStep(b, i);
      i := i + 1;
    }
    assert b[..i] == b;
  }
}
