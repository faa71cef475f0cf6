/** Generic list operations: filtering by flags, Python's `list.remove`,
    and how they relate on lists with and without repeats. */
module Lists {
  /** The elements of `s` whose flag is set, in order. */
  function Select<T>(s: seq<T>, keep: seq<bool>): (r: seq<T>)
    requires |keep| == |s|
    ensures |r| <= |s|
    ensures forall x :: x in r ==> x in s
    decreases |s|
  {
    if |s| == 0 then [] else (if keep[0] then [s[0]] else []) + Select(s[1..], keep[1..])
  }

  /** Every flag flipped. */
  function Negate(f: seq<bool>): (g: seq<bool>)
    ensures |g| == |f| && forall i :: 0 <= i < |f| ==> g[i] == !f[i]
    decreases |f|
  {
    if |f| == 0 then [] else [!f[0]] + Negate(f[1..])
  }

  /** `list.remove(x)`: the first element equal to `x` goes. */
  function RemoveFirst<T(==)>(s: seq<T>, x: T): (r: seq<T>)
    decreases |s|
  {
    if |s| == 0 then [] else if s[0] == x then s[1..] else [s[0]] + RemoveFirst(s[1..], x)
  }

  /** Removing each element of `c` in turn. */
  function RemoveAll<T(==)>(s: seq<T>, c: seq<T>): seq<T>
    decreases |c|
  {
    if |c| == 0 then s else RemoveAll(RemoveFirst(s, c[0]), c[1..])
  }

  /** No element occurs twice. */
  predicate Distinct<T(==)>(s: seq<T>) {
    forall i, j :: 0 <= i < j < |s| ==> s[i] != s[j]
  }

  /** The elements of `s` not in `c`, in order. */
  function Drop<T(==, !new)>(s: seq<T>, c: set<T>): (r: seq<T>)
    ensures forall x :: x in r <==> x in s && x !in c
    decreases |s|
  {
    if |s| == 0 then [] else (if s[0] in c then [] else [s[0]]) + Drop(s[1..], c)
  }

  lemma {:induction false} DropDistinct<T(!new)>(s: seq<T>, c: set<T>)
    requires Distinct(s)
    ensures Distinct(Drop(s, c))
    decreases |s|
  {
    if |s| > 0 {
      DropDistinct(s[1..], c);
      assert forall x :: x in Drop(s[1..], c) ==> x in s[1..];
    }
  }

  /** Only the members of `s` matter to `Drop(s, ·)`. */
  lemma {:induction false} DropCongruent<T(!new)>(s: seq<T>, a: set<T>, b: set<T>)
    requires forall i :: 0 <= i < |s| ==> (s[i] in a <==> s[i] in b)
    ensures Drop(s, a) == Drop(s, b)
    decreases |s|
  {
    if |s| > 0 {
      DropCongruent(s[1..], a, b);
    }
  }

  lemma {:induction false} DropDrop<T(!new)>(s: seq<T>, a: set<T>, b: set<T>)
    ensures Drop(Drop(s, a), b) == Drop(s, a + b)
    decreases |s|
  {
    if |s| > 0 {
      DropDrop(s[1..], a, b);
      var t := Drop(s[1..], a);
      if s[0] in a {
        assert Drop(s, a) == t;
      } else {
        var d := Drop(s, a);
        assert d == [s[0]] + t;
        assert d[0] == s[0] && d[1..] == t;
        assert Drop(d, b) == (if s[0] in b then [] else [s[0]]) + Drop(t, b);
      }
    }
  }

  /** In a list without repeats, `remove(x)` takes out exactly `x`. */
  lemma {:induction false} RemoveFirstDistinct<T(!new)>(s: seq<T>, x: T)
    requires Distinct(s)
    ensures RemoveFirst(s, x) == Drop(s, {x})
    decreases |s|
  {
    if |s| > 0 {
      if s[0] == x {
        DropCongruent(s[1..], {x}, {});
        DropNothing(s[1..]);
      } else {
        RemoveFirstDistinct(s[1..], x);
      }
    }
  }

  lemma {:induction false} DropNothing<T(!new)>(s: seq<T>)
    ensures Drop(s, {}) == s
    decreases |s|
  {
    if |s| > 0 {
      DropNothing(s[1..]);
    }
  }

  /** In a list without repeats, removing each element of `c` leaves what
      is not in `c`. */
  lemma {:induction false} RemoveAllDistinct<T(!new)>(s: seq<T>, c: seq<T>)
    requires Distinct(s)
    ensures RemoveAll(s, c) == Drop(s, set x | x in c)
    decreases |c|
  {
    if |c| == 0 {
      DropCongruent(s, {}, set x | x in c);
      DropNothing(s);
    } else {
      RemoveFirstDistinct(s, c[0]);
      DropDistinct(s, {c[0]});
      RemoveAllDistinct(Drop(s, {c[0]}), c[1..]);
      DropDrop(s, {c[0]}, set x | x in c[1..]);
      assert {c[0]} + (set x | x in c[1..]) == set x | x in c by {
        assert c == [c[0]] + c[1..];
      }
    }
  }

  /** In a list without repeats, dropping the selected elements leaves the
      unselected ones. */
  lemma {:induction false} DropSelected<T(!new)>(s: seq<T>, f: seq<bool>)
    requires Distinct(s) && |f| == |s|
    ensures Drop(s, set x | x in Select(s, f)) == Select(s, Negate(f))
    decreases |s|
  {
    if |s| > 0 {
      var tail := s[1..];
      assert Distinct(tail);
      DropSelected(tail, f[1..]);
      assert Negate(f)[1..] == Negate(f[1..]);
      var all := set x | x in Select(s, f);
      var rest := set x | x in Select(tail, f[1..]);
      assert Select(s, f) == (if f[0] then [s[0]] else []) + Select(tail, f[1..]);
      assert s[0] !in tail;
      assert s[0] !in Select(tail, f[1..]);
      assert s[0] in all <==> f[0];
      forall i | 0 <= i < |tail| ensures tail[i] in all <==> tail[i] in rest {
        assert tail[i] != s[0] by {
          assert tail[i] == s[i + 1];
        }
      }
      DropCongruent(tail, all, rest);
    }
  }

  /** Removing an element that is there takes one copy of it out. */
  lemma {:induction false} RemoveFirstMultiset<T>(s: seq<T>, x: T)
    requires x in s
    ensures multiset(RemoveFirst(s, x)) == multiset(s) - multiset{x}
    decreases |s|
  {
    assert s == [s[0]] + s[1..];
    if s[0] != x {
      RemoveFirstMultiset(s[1..], x);
    }
  }

  /** Removing a sub-multiset never misses, and takes exactly it out. */
  lemma {:induction false} RemoveAllMultiset<T>(s: seq<T>, c: seq<T>)
    requires multiset(c) <= multiset(s)
    ensures multiset(RemoveAll(s, c)) == multiset(s) - multiset(c)
    decreases |c|
  {
    if |c| > 0 {
      assert c == [c[0]] + c[1..];
      assert c[0] in multiset(s);
      RemoveFirstMultiset(s, c[0]);
      RemoveAllMultiset(RemoveFirst(s, c[0]), c[1..]);
    }
  }

  lemma {:induction false} SelectMultiset<T>(s: seq<T>, f: seq<bool>)
    requires |f| == |s|
    ensures multiset(Select(s, f)) + multiset(Select(s, Negate(f))) == multiset(s)
    decreases |s|
  {
    if |s| > 0 {
      SelectMultiset(s[1..], f[1..]);
      var g := Negate(f);
      assert g == [!f[0]] + Negate(f[1..]);
      SelectCons(s, f);
      SelectCons(s, g);
      SplitHead(s);
    }
  }

  /** The first element counts towards a selection exactly when flagged. */
  lemma SelectCons<T>(s: seq<T>, f: seq<bool>)
    requires |f| == |s| > 0
    ensures multiset(Select(s, f))
            == (if f[0] then multiset{s[0]} else multiset{}) + multiset(Select(s[1..], f[1..]))
  {
    assert Select(s, f) == (if f[0] then [s[0]] else []) + Select(s[1..], f[1..]);
  }

  lemma SplitHead<T>(s: seq<T>)
    requires |s| > 0
    ensures multiset(s) == multiset{s[0]} + multiset(s[1..])
  {
    assert s == [s[0]] + s[1..];
  }

  /** Removing the selected elements one by one leaves, as a multiset, the
      unselected ones, whatever repeats the list holds. */
  lemma RemoveSelectedMultiset<T>(s: seq<T>, f: seq<bool>)
    requires |f| == |s|
    ensures multiset(RemoveAll(s, Select(s, f))) == multiset(Select(s, Negate(f)))
  {
    SelectMultiset(s, f);
    RemoveAllMultiset(s, Select(s, f));
  }

  /** In a list without repeats, removing the selected elements one by one
      leaves the unselected ones in order. */
  lemma RemoveSelectedDistinct<T(!new)>(s: seq<T>, f: seq<bool>)
    requires Distinct(s) && |f| == |s|
    ensures RemoveAll(s, Select(s, f)) == Select(s, Negate(f))
  {
    RemoveAllDistinct(s, Select(s, f));
    DropSelected(s, f);
  }
}
