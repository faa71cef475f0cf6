/** Python `dict`s keep their keys in first-insertion order, and the system
    depends on that order: the scheduler drains hosts in key order, host
    strings are rendered in allocation order, and agent iteration follows
    enumeration order. An `OMap` is a finite map together with that order. */
module OrderedMaps {
  import opened Wrappers
  import Seqs

  datatype OMap<K(==, !new), V> = OMap(keys: seq<K>, vals: map<K, V>) {
    /** The key sequence lists every key of the map exactly once. */
    ghost predicate Valid() {
      && (forall i, j :: 0 <= i < j < |keys| ==> keys[i] != keys[j])
      && (forall k :: k in vals <==> k in keys)
    }

    function Size(): nat { |keys| }

    function Get(k: K): Option<V> {
      if k in vals then Some(vals[k]) else None
    }

    /** `d[k] = v`: a new key goes last, an existing key keeps its place. */
    function Put(k: K, v: V): (m: OMap<K, V>)
      requires Valid()
      ensures m.Valid()
      ensures m.Get(k) == Some(v)
      ensures forall k' :: k' != k ==> m.Get(k') == Get(k')
      ensures k in vals ==> m.keys == keys
      ensures k !in vals ==> m.keys == keys + [k]
    {
      if k in vals then OMap(keys, vals[k := v]) else OMap(keys + [k], vals[k := v])
    }

    /** `del d[k]` for a present key; a no-op for a missing one. */
    function Remove(k: K): (m: OMap<K, V>)
      requires Valid()
      ensures m.Valid()
      ensures m.Get(k) == None
      ensures forall k' :: k' != k ==> m.Get(k') == Get(k')
      ensures forall i :: 0 <= i < |m.keys| ==> m.keys[i] in keys
      ensures k in vals ==> m.Size() == Size() - 1
      ensures k !in vals ==> m == this
    {
      if k !in vals then this
      else
        var i := IndexOf(keys, k);
        RemoveAtValid(this, i);
        OMap(keys[..i] + keys[i + 1..], vals - {k})
    }
  }

  /** Dropping the `i`-th key and its entry keeps a map valid, and the
      other keys keep their entries. */
  lemma RemoveAtValid<K(!new), V>(m: OMap<K, V>, i: nat)
    requires m.Valid() && i < |m.keys|
    ensures var r := OMap(m.keys[..i] + m.keys[i + 1..], m.vals - {m.keys[i]});
            && r.Valid() && |r.keys| == |m.keys| - 1
            && (forall j :: 0 <= j < |r.keys| ==> r.keys[j] in m.keys)
  {
    var k := m.keys[i];
    var ks := m.keys[..i] + m.keys[i + 1..];
    assert forall j :: 0 <= j < |ks| ==> ks[j] == (if j < i then m.keys[j] else m.keys[j + 1]);
  }

  /** The map holding `vs[i]` under `ks[i]`, for distinct keys. */
  function Zip<K(==, !new), V>(ks: seq<K>, vs: seq<V>): (m: OMap<K, V>)
    requires |ks| == |vs| && forall i, j :: 0 <= i < j < |ks| ==> ks[i] != ks[j]
    ensures m.Valid() && m.keys == ks
    ensures forall i :: 0 <= i < |ks| ==> m.Get(ks[i]) == Some(vs[i])
  {
    OMap(ks, map i | 0 <= i < |ks| :: ks[i] := vs[i])
  }

  function Empty<K(==, !new), V>(): (m: OMap<K, V>)
    ensures m.Valid() && m.Size() == 0
    ensures forall k :: m.Get(k) == None
  {
    OMap([], map[])
  }

  function IndexOf<K(==, !new)>(s: seq<K>, k: K): (i: nat)
    requires k in s
    ensures i < |s| && s[i] == k
    ensures forall j :: 0 <= j < i ==> s[j] != k
  {
    if s[0] == k then 0 else 1 + IndexOf(s[1..], k)
  }

  /** The first `k` of `a + [k] + b` is the one after `a` when `a` has none. */
  lemma IndexAfter<K(!new)>(a: seq<K>, k: K, b: seq<K>)
    requires k !in a
    ensures k in a + [k] + b && IndexOf(a + [k] + b, k) == |a|
  {
    var s := a + [k] + b;
    assert s[|a|] == k;
    assert forall j :: 0 <= j < |a| ==> s[j] == a[j];
  }

  /** The dict literal built from pairs in order, a later pair overwriting an
      earlier one with the same key. */
  function FromPairs<K(==, !new), V>(ps: seq<(K, V)>): (m: OMap<K, V>)
    ensures m.Valid()
    decreases |ps|
  {
    if |ps| == 0 then Empty() else FromPairs(ps[..|ps| - 1]).Put(ps[|ps| - 1].0, ps[|ps| - 1].1)
  }

  /** The number of keys of a valid map is the number of its entries. */
  lemma {:induction false} SizeIsCardinality<K(!new), V>(m: OMap<K, V>)
    requires m.Valid()
    ensures m.Size() == |m.vals.Keys|
    decreases |m.keys|
  {
    if |m.keys| > 0 {
      var k := m.keys[|m.keys| - 1];
      var rest := OMap(m.keys[..|m.keys| - 1], m.vals - {k});
      DropLastValid(m);
      SizeIsCardinality(rest);
      assert m.vals.Keys == rest.vals.Keys + {k};
    } else {
      assert m.vals.Keys == {};
    }
  }

  /** Without its last key, a valid map is still valid. */
  lemma DropLastValid<K(!new), V>(m: OMap<K, V>)
    requires m.Valid() && |m.keys| > 0
    ensures var k := m.keys[|m.keys| - 1];
            OMap(m.keys[..|m.keys| - 1], m.vals - {k}).Valid()
  {
    var k := m.keys[|m.keys| - 1];
    var rest := OMap(m.keys[..|m.keys| - 1], m.vals - {k});
    forall k' ensures k' in rest.vals <==> k' in rest.keys {
      if k' in rest.keys {
        var j :| 0 <= j < |rest.keys| && rest.keys[j] == k';
        assert m.keys[j] == k';
      }
      if k' in m.keys && k' != k {
        var j :| 0 <= j < |m.keys| && m.keys[j] == k';
        assert j < |m.keys| - 1;
        assert rest.keys[j] == k';
      }
    }
  }

  /** Every key given to `FromPairs` is present, holding the value of its
      last pair. */
  lemma {:induction false} FromPairsLast<K(!new), V>(ps: seq<(K, V)>, i: nat)
    requires i < |ps|
    requires forall j :: i < j < |ps| ==> ps[j].0 != ps[i].0
    ensures FromPairs(ps).Get(ps[i].0) == Some(ps[i].1)
    decreases |ps|
  {
    if i < |ps| - 1 {
      FromPairsLast(ps[..|ps| - 1], i);
    }
  }

  /** `FromPairs` has no key that no pair supplied. */
  lemma {:induction false} FromPairsKeys<K(!new), V>(ps: seq<(K, V)>, k: K)
    requires FromPairs(ps).Get(k).Some?
    ensures exists j :: 0 <= j < |ps| && ps[j].0 == k
    decreases |ps|
  {
    if ps[|ps| - 1].0 != k {
      FromPairsKeys(ps[..|ps| - 1], k);
      var j :| 0 <= j < |ps| - 1 && ps[..|ps| - 1][j].0 == k;
      assert ps[j].0 == k;
    }
  }

  /** Putting the keys `ks` in turn, each with its value in `vals`. */
  function PutAll<K(==, !new), V>(acc: OMap<K, V>, ks: seq<K>, vals: map<K, V>): (m: OMap<K, V>)
    requires acc.Valid() && forall i :: 0 <= i < |ks| ==> ks[i] in vals
    ensures m.Valid()
    decreases |ks|
  {
    if |ks| == 0 then acc else PutAll(acc.Put(ks[0], vals[ks[0]]), ks[1..], vals)
  }

  /** The entries of `vals` for the keys listed in `ks`. */
  function Restrict<K(==, !new), V>(vals: map<K, V>, ks: seq<K>): map<K, V> {
    map k | k in ks && k in vals :: vals[k]
  }

  /** Putting distinct new keys appends them, in order, with their values. */
  lemma {:induction false} PutAllFresh<K(!new), V>(acc: OMap<K, V>, ks: seq<K>, vals: map<K, V>)
    requires acc.Valid()
    requires forall i :: 0 <= i < |ks| ==> ks[i] in vals && ks[i] !in acc.vals
    requires forall i, j :: 0 <= i < j < |ks| ==> ks[i] != ks[j]
    ensures PutAll(acc, ks, vals) == OMap(acc.keys + ks, acc.vals + Restrict(vals, ks))
    decreases |ks|
  {
    if |ks| == 0 {
      assert acc.keys + ks == acc.keys;
      assert acc.vals + Restrict(vals, ks) == acc.vals;
    } else {
      var k := ks[0];
      var next := acc.Put(k, vals[k]);
      assert next.keys == acc.keys + [k];
      assert next.vals == acc.vals[k := vals[k]];
      forall i | 0 <= i < |ks[1..]| ensures ks[1..][i] !in next.vals {
        assert ks[1..][i] == ks[i + 1] != k;
      }
      PutAllFresh(next, ks[1..], vals);
      Seqs.AppendCons(acc.keys, ks);
      PutThenRest(acc.vals, ks, vals);
    }
  }

  /** Setting the first key and then the rest is setting them all. */
  lemma PutThenRest<K(!new), V>(a: map<K, V>, ks: seq<K>, vals: map<K, V>)
    requires |ks| > 0 && forall i :: 0 <= i < |ks| ==> ks[i] in vals
    ensures a[ks[0] := vals[ks[0]]] + Restrict(vals, ks[1..]) == a + Restrict(vals, ks)
  {
    var l := a[ks[0] := vals[ks[0]]] + Restrict(vals, ks[1..]);
    var r := a + Restrict(vals, ks);
    forall x ensures x in l <==> x in r {
      if x in ks && x !in ks[1..] {
        assert x == ks[0];
      }
      if x in ks[1..] {
        assert x in ks;
      }
    }
    forall x | x in l ensures l[x] == r[x] {
      if x in ks[1..] {
        assert x in ks;
      }
    }
  }

  /** Putting a map's keys in order into an empty map rebuilds it. */
  lemma PutAllWhole<K(!new), V>(m: OMap<K, V>)
    requires m.Valid()
    ensures PutAll(Empty(), m.keys, m.vals) == m
  {
    PutAllFresh(Empty(), m.keys, m.vals);
    assert Empty<K, V>().keys + m.keys == m.keys;
    RestrictWhole(m);
  }

  lemma RestrictWhole<K(!new), V>(m: OMap<K, V>)
    requires m.Valid()
    ensures Empty<K, V>().vals + Restrict(m.vals, m.keys) == m.vals
  {
    var r := Restrict(m.vals, m.keys);
    assert r.Keys == m.vals.Keys;
    assert Empty<K, V>().vals + r == r;
  }

  // ---------------------------------------------------------------------
  // sums of integer values
  // ---------------------------------------------------------------------

  /** The sum of `vals` over the keys `ks`, in order. */
  function SumOf<K(!new)>(ks: seq<K>, vals: map<K, int>): int
    requires forall i :: 0 <= i < |ks| ==> ks[i] in vals
    decreases |ks|
  {
    if |ks| == 0 then 0 else vals[ks[0]] + SumOf(ks[1..], vals)
  }

  function Sum<K(==, !new)>(m: OMap<K, int>): int
    requires m.Valid()
  {
    SumOf(m.keys, m.vals)
  }

  lemma {:induction false} SumOfAppend<K(!new)>(ks: seq<K>, k: K, vals: map<K, int>)
    requires forall i :: 0 <= i < |ks| ==> ks[i] in vals
    requires k in vals
    ensures SumOf(ks + [k], vals) == SumOf(ks, vals) + vals[k]
    decreases |ks|
  {
    if |ks| > 0 {
      assert (ks + [k])[1..] == ks[1..] + [k];
      SumOfAppend(ks[1..], k, vals);
    } else {
      assert ks + [k] == [k];
    }
  }

  /** Changing the value of a key outside `ks` does not change the sum. */
  lemma {:induction false} SumOfOutside<K(!new)>(ks: seq<K>, vals: map<K, int>, k: K, v: int)
    requires forall i :: 0 <= i < |ks| ==> ks[i] in vals && ks[i] != k
    ensures SumOf(ks, vals[k := v]) == SumOf(ks, vals)
    decreases |ks|
  {
    if |ks| > 0 {
      SumOfOutside(ks[1..], vals, k, v);
    }
  }

  /** Changing the value of a key that `ks` lists once shifts the sum by the
      difference. */
  lemma {:induction false} SumOfInside<K(!new)>(ks: seq<K>, vals: map<K, int>, k: K, v: int)
    requires forall i :: 0 <= i < |ks| ==> ks[i] in vals
    requires forall i, j :: 0 <= i < j < |ks| ==> ks[i] != ks[j]
    requires k in ks
    ensures SumOf(ks, vals[k := v]) == SumOf(ks, vals) - vals[k] + v
    decreases |ks|
  {
    if ks[0] == k {
      SumOfOutside(ks[1..], vals, k, v);
    } else {
      SumOfInside(ks[1..], vals, k, v);
    }
  }

  lemma {:induction false} SumOfNonNegative<K(!new)>(ks: seq<K>, vals: map<K, int>)
    requires forall i :: 0 <= i < |ks| ==> ks[i] in vals && vals[ks[i]] >= 0
    ensures SumOf(ks, vals) >= 0
    decreases |ks|
  {
    if |ks| > 0 {
      SumOfNonNegative(ks[1..], vals);
    }
  }

  /** Putting a value into a valid map changes its sum as expected. */
  lemma SumPut<K(!new)>(m: OMap<K, int>, k: K, v: int)
    requires m.Valid()
    ensures k in m.vals ==> Sum(m.Put(k, v)) == Sum(m) - m.vals[k] + v
    ensures k !in m.vals ==> Sum(m.Put(k, v)) == Sum(m) + v
  {
    if k in m.vals {
      SumOfInside(m.keys, m.vals, k, v);
    } else {
      SumOfOutside(m.keys, m.vals, k, v);
      SumOfAppend(m.keys, k, m.vals[k := v]);
    }
  }
}
