/** Small facts about sequences, proved once, away from the large
    contexts of the modules that use them. */
module Seqs {
  /** Concatenation is associative. */
  lemma ConcatAssoc<T>(a: seq<T>, b: seq<T>, c: seq<T>)
    ensures a + (b + c) == (a + b) + c
  {
  }

  /** Putting the head back in front of the tail rebuilds the sequence. */
  lemma AppendCons<T>(a: seq<T>, s: seq<T>)
    requires |s| > 0
    ensures a + [s[0]] + s[1..] == a + s
  {
    assert [s[0]] + s[1..] == s;
  }

  /** The part of `a + [x] + b + [y]` strictly between `x` and `y` is `b`. */
  lemma Middle<T>(a: seq<T>, x: T, b: seq<T>, y: T)
    ensures (a + [x] + b + [y])[|a| + 1..|a| + 1 + |b|] == b
  {
    var s := a + [x] + b + [y];
    assert forall i :: 0 <= i < |b| ==> s[|a| + 1 + i] == b[i];
  }

  /** The parts on either side of `x` in `a + [x] + b`. */
  lemma Pieces<T>(a: seq<T>, x: T, b: seq<T>)
    ensures (a + [x] + b)[..|a|] == a && (a + [x] + b)[|a|] == x
    ensures (a + [x] + b)[|a| + 1..] == b
  {
    var s := a + [x] + b;
    assert forall i :: 0 <= i < |b| ==> s[|a| + 1 + i] == b[i];
  }

  /** A slice inside the first part of a concatenation is a slice of it. */
  lemma SliceOfPrefix<T>(a: seq<T>, b: seq<T>, i: nat, j: nat)
    requires i <= j <= |a|
    ensures (a + b)[i..j] == a[i..j]
  {
  }

  /** The last `|t|` elements of `a + t` are `t`. */
  lemma EndsWith<T>(a: seq<T>, t: seq<T>)
    ensures |t| <= |a + t| && (a + t)[|a + t| - |t|..] == t
  {
  }
}
