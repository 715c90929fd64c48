/**
 * The fixed-size key, value and child arrays of the on-disk tree nodes
 * (BTree.h, BPlusTree.h) and the two loops both trees run over them: the
 * right shift that opens a slot, and the copy of one half into a new node.
 */
module NodeArrays {
  /** An array after shifting slots p..count-1 one to the right and storing x at p. */
  function Shifted<T>(s: seq<T>, count: nat, p: nat, x: T): (r: seq<T>)
    requires p <= count < |s|
    ensures |r| == |s|
    ensures forall i :: 0 <= i < p ==> r[i] == s[i]
    ensures r[p] == x
    ensures forall i :: p < i <= count ==> r[i] == s[i - 1]
    ensures forall i :: count < i < |s| ==> r[i] == s[i]
  {
    s[..p] + [x] + s[p..count] + s[count + 1..]
  }

  /** An array whose slots after p hold the slots before them, once x is stored at p, is the shifted array. */
  lemma ShiftedAt<T>(s: seq<T>, t: seq<T>, count: nat, p: nat, x: T)
    requires p <= count && ShiftedDownTo(s, t, count, p as int - 1)
    ensures t[p := x] == Shifted(s, count, p, x)
  {
  }

  /**
   * The state of a right shift that has moved slots i+1..count-1 of `s`
   * one place up: t agrees with s up to slot i+1 and above count, and holds
   * the slot below in between.
   */
  ghost predicate ShiftedDownTo<T>(s: seq<T>, t: seq<T>, count: nat, i: int)
  {
    count < |s| == |t| && -1 <= i < count
    && (forall j :: 0 <= j <= i + 1 ==> t[j] == s[j])
    && (forall j :: i + 2 <= j <= count ==> t[j] == s[j - 1])
    && (forall j :: count < j < |s| ==> t[j] == s[j])
  }

  /** One more step of the shift. */
  lemma ShiftStep<T>(s: seq<T>, t: seq<T>, count: nat, i: int)
    requires ShiftedDownTo(s, t, count, i) && i >= 0
    ensures ShiftedDownTo(s, t[i + 1 := t[i]], count, i - 1)
  {
  }

  /** One copy loop of `split_child`: slots 0..k-1 of `base` take slots from..from+k-1 of `src`. */
  method CopyInto<T>(base: seq<T>, src: seq<T>, from: nat, k: nat) returns (t: seq<T>)
    requires k <= |base| && from + k <= |src|
    ensures t == src[from..from + k] + base[k..]
  {
    t := base;
    for i := 0 to k
      invariant |t| == |base|
      invariant forall j :: 0 <= j < i ==> t[j] == src[from + j]
      invariant forall j :: i <= j < |t| ==> t[j] == base[j]
    {
      t := t[i := src[from + i]];
    }
    assert t == src[from..from + k] + base[k..];
  }

  /** The first n slots of a key array and a value array, as pairs. */
  function Zip<K, V>(ks: seq<K>, vs: seq<V>, n: nat): (r: seq<(K, V)>)
    requires n <= |ks| && n <= |vs|
    ensures |r| == n
    ensures forall i :: 0 <= i < n ==> r[i] == (ks[i], vs[i])
  {
    seq(n, i requires 0 <= i < n => (ks[i], vs[i]))
  }

  /** Shifting keys and values together inserts the pair into their zip. */
  lemma ZipShifted<K, V>(ks: seq<K>, vs: seq<V>, count: nat, p: nat, k: K, v: V)
    requires p <= count < |ks| && count < |vs|
    ensures Zip(Shifted(ks, count, p, k), Shifted(vs, count, p, v), count + 1)
            == Zip(ks, vs, count)[..p] + [(k, v)] + Zip(ks, vs, count)[p..]
  {
    var z := Zip(ks, vs, count);
    var e := z[..p] + [(k, v)] + z[p..];
    forall i | 0 <= i < count + 1
      ensures Zip(Shifted(ks, count, p, k), Shifted(vs, count, p, v), count + 1)[i] == e[i]
    {
      if i < p {
        assert e[i] == z[i];
      } else if i > p {
        assert e[i] == z[i - 1];
      }
    }
  }
}
