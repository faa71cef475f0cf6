/** The host pool of a QPM service (python/services/util/qpm/util_qpm.py):
    how many free process slots each assigned host has, how a circuit's
    `np` slots are drained from it greedily and all-or-nothing, and how
    they are handed back. */
module Capacity {
  import opened Wrappers
  import opened OrderedMaps
  import opened Exceptions

  /** Host name to free slots, in the order the hosts were assigned. */
  type Pool = OMap<string, int>

  /** What a map of per-host amounts gives `k`, 0 for a host it lacks. */
  function Taken(m: map<string, int>, k: string): int {
    if k in m then m[k] else 0
  }

  /** `int(np / MAX_PPN)`: true division, truncated toward zero. */
  function TruncDiv(a: int, b: int): (q: int)
    requires b > 0
    ensures a >= 0 ==> q >= 0 && q * b <= a < (q + 1) * b
    ensures a < 0 ==> q <= 0 && q * b >= a > (q - 1) * b
  {
    if a >= 0 then DivBounds(a, b); a / b
    else DivBounds(-a, b); -((-a) / b)
  }

  /** Euclidean division of a non-negative number, and the same products
      with the quotient negated. */
  lemma DivBounds(a: int, b: int)
    requires a >= 0 && b > 0
    ensures a / b >= 0 && (a / b) * b <= a < (a / b) * b + b
    ensures (a / b + 1) * b == (a / b) * b + b
    ensures (-(a / b)) * b == -((a / b) * b) && (-(a / b) - 1) * b == -((a / b) * b) - b
  {
    var q := a / b;
    assert a == q * b + a % b;
    assert (q + 1) * b == q * b + b;
    assert (-q) * b == -(q * b);
    assert (-q - 1) * b == -(q * b) - b;
  }

  /** The number of hosts a request for `np` slots needs: the truncated
      quotient, or 1 when that is 0. */
  function HostsNeeded(np: int, maxPpn: int): (n: int)
    requires maxPpn > 0
    ensures n != 0
    ensures -maxPpn < np < 2 * maxPpn ==> n == 1
    ensures np >= maxPpn ==> n * maxPpn <= np < (n + 1) * maxPpn
  {
    var n := TruncDiv(np, maxPpn);
    QuotientBounds(np, maxPpn);
    if n == 0 then 1 else n
  }

  /** The truncated quotient is 0 strictly between `-b` and `b`, 1 from `b`
      up to `2 * b`, and at least 1 from `b` on. */
  lemma QuotientBounds(a: int, b: int)
    requires b > 0
    ensures -b < a < b ==> TruncDiv(a, b) == 0
    ensures b <= a < 2 * b ==> TruncDiv(a, b) == 1
    ensures a >= b ==> TruncDiv(a, b) >= 1
  {
    var q := TruncDiv(a, b);
    if a >= b {
      MulBelow(1, q + 1, b);
    }
    if b <= a < 2 * b {
      MulBelow(q, 2, b);
    }
    if 0 <= a < b {
      MulBelow(q, 1, b);
    }
    if -b < a < 0 {
      MulBelow(-1, q, b);
    }
  }

  /** Multiplication by a positive number keeps strict order. */
  lemma MulBelow(p: int, c: int, b: int)
    requires b > 0 && p * b < c * b
    ensures p < c
  {
    assert c * b - p * b == (c - p) * b;
  }

  // ---------------------------------------------------------------------
  // consume_resources
  // ---------------------------------------------------------------------

  /** The state of the draining loop: the free counts, the hosts taken from
      (in order) and what each gave, the pre-call free count of each visited
      host, and what is still needed. */
  datatype Walk = Walk(free: map<string, int>, order: seq<string>, taken: map<string, int>,
                       saved: map<string, int>, left: int)

  /** One iteration for host `h`: save its count; take everything needed if
      it has enough; drain it if it has some but not enough; otherwise pass
      over it. */
  function Step(h: string, w: Walk): (r: Walk)
    requires h in w.free
    ensures r.free.Keys == w.free.Keys
  {
    var f := w.free[h];
    var saved := w.saved[h := f];
    if f >= w.left then Walk(w.free[h := f - w.left], w.order + [h], w.taken[h := w.left], saved, 0)
    else if f != 0 then Walk(w.free[h := 0], w.order + [h], w.taken[h := f], saved, w.left - f)
    else w.(saved := saved)
  }

  /** The loop over the hosts in key order, left as soon as nothing is
      needed. */
  function Drain(keys: seq<string>, w: Walk): (r: Walk)
    requires forall i :: 0 <= i < |keys| ==> keys[i] in w.free
    ensures r.free.Keys == w.free.Keys
    decreases |keys|
  {
    if |keys| == 0 || w.left == 0 then w else Drain(keys[1..], Step(keys[0], w))
  }

  /** The pool after the call and either the result or the error. */
  datatype Outcome<T> = Outcome(pool: Pool, result: Result<T, Error>)

  /** `consume_resources` for a circuit asking for `np` slots: the pool
      afterwards and the slots taken from each host, in the order taken. On
      failure every visited host gets back its saved count. */
  function Consume(pool: Pool, np: int, maxPpn: int): (r: Outcome<Pool>)
    requires pool.Valid() && maxPpn > 0
    ensures r.pool.Valid() && r.pool.keys == pool.keys
    ensures r.result.Err? ==> r.pool == pool && r.result.error.kind == OutOfResources
    ensures r.result.Ok? ==> r.result.value.Valid()
    ensures r.result.Ok? ==> Sum(r.result.value) == np
    ensures r.result.Ok? ==> forall k :: k in pool.vals ==>
              k in r.pool.vals && r.pool.vals[k] == pool.vals[k] - Taken(r.result.value.vals, k)
    ensures r.result.Ok? ==> forall k :: k in r.result.value.vals ==> k in pool.vals
  {
    var oom := Error(OutOfResources, "Not enough nodes to run simulation");
    if HostsNeeded(np, maxPpn) > pool.Size() then Outcome(pool, Err(oom))
    else
      var w := Walked(pool, np);
      if w.left != 0 then
        RestoreAll(pool.vals, np, w);
        Outcome(OMap(pool.keys, w.free + w.saved), Err(oom))
      else
        Outcome(OMap(pool.keys, w.free), Ok(OMap(w.order, w.taken)))
  }

  /** The walk over the whole pool for a request of `np` slots. */
  function Walked(pool: Pool, np: int): (w: Walk)
    requires pool.Valid()
    ensures Invariant(pool.vals, np, [], w)
  {
    var start := Walk(pool.vals, [], map[], map[], np);
    DrainFacts(pool.vals, np, pool.keys, start);
    Drain(pool.keys, start)
  }

  /** Putting the saved counts back restores the pre-call pool. */
  lemma RestoreAll(orig: map<string, int>, np: int, w: Walk)
    requires Invariant(orig, np, [], w)
    ensures w.free + w.saved == orig
  {
  }

  /** The loop invariant of `Drain` for a walk that started from the counts
      `orig` asking for `np` slots, with `keys` the hosts still to visit:
      the saved counts are the pre-call counts, every host's free count plus
      what it gave is its pre-call count, the hosts taken from are listed
      once each, and what was given plus what is still needed is `np`. */
  ghost predicate Invariant(orig: map<string, int>, np: int, keys: seq<string>, w: Walk) {
    && Ahead(keys, w)
    && Counts(orig, w)
    && Ledger(np, w)
  }

  /** The hosts still to visit are distinct, tracked and not yet visited. */
  ghost predicate Ahead(keys: seq<string>, w: Walk) {
    && (forall i, j :: 0 <= i < j < |keys| ==> keys[i] != keys[j])
    && (forall i :: 0 <= i < |keys| ==> keys[i] in w.free && keys[i] !in w.saved)
  }

  /** Saved counts are pre-call counts and no slot is lost or made. */
  ghost predicate Counts(orig: map<string, int>, w: Walk) {
    && w.free.Keys == orig.Keys
    && w.taken.Keys <= w.saved.Keys
    && (forall k :: k in w.saved ==> k in orig && w.saved[k] == orig[k])
    && (forall k :: k in orig && k !in w.saved ==> w.free[k] == orig[k])
    && (forall k :: k in orig ==> w.free[k] + Taken(w.taken, k) == orig[k])
  }

  /** The hosts taken from are listed once each, and what they gave plus
      what is still needed is `np`. */
  ghost predicate Ledger(np: int, w: Walk) {
    && (forall i, j :: 0 <= i < j < |w.order| ==> w.order[i] != w.order[j])
    && (forall i :: 0 <= i < |w.order| ==> w.order[i] in w.taken)
    && (forall k :: k in w.taken ==> k in w.order)
    && SumOf(w.order, w.taken) + w.left == np
  }

  /** One step keeps the invariant for the hosts after `keys[0]`. */
  lemma StepKeeps(orig: map<string, int>, np: int, keys: seq<string>, w: Walk)
    requires Invariant(orig, np, keys, w) && |keys| > 0
    ensures Invariant(orig, np, keys[1..], Step(keys[0], w))
  {
    var h := keys[0];
    var r := Step(h, w);
    forall i | 0 <= i < |keys[1..]| ensures keys[1..][i] != h {
      assert keys[1..][i] == keys[i + 1];
    }
    StepCounts(orig, h, w);
    StepLedger(np, h, w);
  }

  lemma StepCounts(orig: map<string, int>, h: string, w: Walk)
    requires Counts(orig, w) && h in w.free && h !in w.saved
    ensures Counts(orig, Step(h, w))
  {
  }

  lemma StepLedger(np: int, h: string, w: Walk)
    requires Ledger(np, w) && h in w.free && h !in w.taken
    ensures Ledger(np, Step(h, w))
  {
    var r := Step(h, w);
    if r.order != w.order {
      assert r.order == w.order + [h];
      assert forall i :: 0 <= i < |w.order| ==> w.order[i] != h;
      SumOfOutside(w.order, w.taken, h, r.taken[h]);
      SumOfAppend(w.order, h, r.taken);
    }
  }

  /** `Drain` keeps the invariant to the end. */
  lemma {:induction false} DrainFacts(orig: map<string, int>, np: int, keys: seq<string>, w: Walk)
    requires Invariant(orig, np, keys, w)
    ensures Invariant(orig, np, [], Drain(keys, w))
    decreases |keys|
  {
    if |keys| == 0 || w.left == 0 {
    } else {
      StepKeeps(orig, np, keys, w);
      DrainFacts(orig, np, keys[1..], Step(keys[0], w));
    }
  }

  // ---------------------------------------------------------------------
  // consumption on a well-formed pool
  // ---------------------------------------------------------------------

  /** No host has a negative free count. */
  ghost predicate NonNegative(free: map<string, int>) {
    forall k :: k in free ==> free[k] >= 0
  }

  /** The greedy share of a host with `f` free slots when `need` slots are
      still wanted after the hosts before it: all of `need` if it fits,
      otherwise all `f`. */
  function Share(f: int, need: int): int {
    if need <= 0 then 0 else if f >= need then need else f
  }

  /** `Drain` leaves alone every host it is not asked to visit. */
  lemma {:induction false} DrainFrame(keys: seq<string>, w: Walk, k: string)
    requires forall i :: 0 <= i < |keys| ==> keys[i] in w.free
    requires k !in keys
    ensures k in w.free ==> Drain(keys, w).free[k] == w.free[k]
    ensures Taken(Drain(keys, w).taken, k) == Taken(w.taken, k)
    decreases |keys|
  {
    if |keys| > 0 && w.left != 0 {
      DrainFrame(keys[1..], Step(keys[0], w), k);
    }
  }

  /** A step on a pool without negative counts keeps it so. */
  lemma StepNonNegative(h: string, w: Walk)
    requires h in w.free && NonNegative(w.free) && w.left > 0
    ensures NonNegative(Step(h, w).free) && Step(h, w).left >= 0
    ensures Step(h, w).free == w.free[h := w.free[h] - Share(w.free[h], w.left)]
    ensures Step(h, w).taken == if Share(w.free[h], w.left) > 0
                                then w.taken[h := Share(w.free[h], w.left)] else w.taken
    ensures Step(h, w).left == w.left - Share(w.free[h], w.left)
  {
  }

  /** On a pool without negative counts, host `keys[j]` gives exactly its
      greedy share of what the hosts before it left over. */
  lemma {:induction false} DrainShares(keys: seq<string>, w: Walk, j: int)
    requires forall i, j :: 0 <= i < j < |keys| ==> keys[i] != keys[j]
    requires forall i :: 0 <= i < |keys| ==> keys[i] in w.free
    requires NonNegative(w.free) && w.left >= 0
    requires 0 <= j < |keys| && keys[j] !in w.taken
    ensures Taken(Drain(keys, w).taken, keys[j]) == Share(w.free[keys[j]], w.left - SumOf(keys[..j], w.free))
    decreases |keys|
  {
    var h := keys[0];
    if w.left == 0 {
      SumOfNonNegative(keys[..j], w.free);
    } else if j == 0 {
      var w' := Step(h, w);
      DrainTail(keys, w);
      DrainFrame(keys[1..], w', h);
    } else {
      var w' := Step(h, w);
      DrainTail(keys, w);
      assert keys[1..][j - 1] == keys[j];
      DrainShares(keys[1..], w', j - 1);
      NeedAfterFirst(keys, w, j);
    }
  }

  /** One step of the loop: the rest of the hosts, still all different
      and all in the pool, meet the pool the first host's step left. */
  lemma DrainTail(keys: seq<string>, w: Walk)
    requires forall i, j :: 0 <= i < j < |keys| ==> keys[i] != keys[j]
    requires forall i :: 0 <= i < |keys| ==> keys[i] in w.free
    requires NonNegative(w.free) && w.left > 0 && |keys| > 0
    ensures var w' := Step(keys[0], w);
            && Drain(keys, w) == Drain(keys[1..], w')
            && NonNegative(w'.free) && w'.left >= 0
            && (forall i :: 0 <= i < |keys[1..]| ==> keys[1..][i] != keys[0] && keys[1..][i] in w'.free)
            && (forall i, j :: 0 <= i < j < |keys[1..]| ==> keys[1..][i] != keys[1..][j])
  {
    var h := keys[0];
    StepNonNegative(h, w);
    forall i | 0 <= i < |keys[1..]| ensures keys[1..][i] != h {
      assert keys[1..][i] == keys[i + 1];
    }
  }

  /** After the first host's step, what the hosts before `keys[j]` leave
      over is the same as before it. */
  lemma NeedAfterFirst(keys: seq<string>, w: Walk, j: int)
    requires forall i, j :: 0 <= i < j < |keys| ==> keys[i] != keys[j]
    requires forall i :: 0 <= i < |keys| ==> keys[i] in w.free
    requires NonNegative(w.free) && w.left > 0 && 0 < j < |keys|
    ensures var w' := Step(keys[0], w);
            && w'.free[keys[j]] == w.free[keys[j]]
            && Share(w'.free[keys[j]], w'.left - SumOf(keys[1..][..j - 1], w'.free))
               == Share(w.free[keys[j]], w.left - SumOf(keys[..j], w.free))
  {
    var h := keys[0];
    var w' := Step(h, w);
    StepNonNegative(h, w);
    var mid := keys[1..][..j - 1];
    assert keys[..j] == [h] + mid;
    assert forall i :: 0 <= i < |mid| ==> mid[i] in w.free && mid[i] != h by {
      forall i | 0 <= i < |mid| ensures mid[i] in w.free && mid[i] != h {
        assert mid[i] == keys[i + 1];
      }
    }
    SumOfOutside(mid, w.free, h, w'.free[h]);
    SumOfNonNegative(mid, w.free);
  }

  /** On a pool without negative counts, the walk leaves unmet exactly what
      the visited hosts could not cover. */
  lemma {:induction false} DrainLeft(keys: seq<string>, w: Walk)
    requires forall i, j :: 0 <= i < j < |keys| ==> keys[i] != keys[j]
    requires forall i :: 0 <= i < |keys| ==> keys[i] in w.free
    requires NonNegative(w.free) && w.left >= 0
    ensures var need := w.left - SumOf(keys, w.free);
            Drain(keys, w).left == if need > 0 then need else 0
    ensures NonNegative(Drain(keys, w).free)
    decreases |keys|
  {
    if |keys| == 0 || w.left == 0 {
      SumOfNonNegative(keys, w.free);
    } else {
      var h := keys[0];
      var w' := Step(h, w);
      StepNonNegative(h, w);
      forall i | 0 <= i < |keys[1..]| ensures keys[1..][i] in w.free && keys[1..][i] != h {
        assert keys[1..][i] == keys[i + 1];
      }
      DrainLeft(keys[1..], w');
      SumOfOutside(keys[1..], w.free, h, w'.free[h]);
      SumOfNonNegative(keys[1..], w.free);
    }
  }

  /** On a pool without negative counts and for a non-negative request, the
      allocation succeeds exactly when there are enough hosts and enough
      free slots in all, and no count goes negative. */
  lemma ConsumeWellFormed(pool: Pool, np: int, maxPpn: int)
    requires pool.Valid() && maxPpn > 0 && NonNegative(pool.vals) && np >= 0
    ensures var r := Consume(pool, np, maxPpn);
            && (r.result.Ok? <==> HostsNeeded(np, maxPpn) <= pool.Size() && np <= Sum(pool))
            && NonNegative(r.pool.vals)
  {
    if HostsNeeded(np, maxPpn) <= pool.Size() {
      var start := Walk(pool.vals, [], map[], map[], np);
      assert Walked(pool, np) == Drain(pool.keys, start);
      DrainLeft(pool.keys, start);
    }
  }

  /** On a pool without negative counts, a successful allocation takes from
      each host its greedy share, in key order, of what the hosts before it
      could not cover. */
  lemma ConsumeShares(pool: Pool, np: int, maxPpn: int)
    requires pool.Valid() && maxPpn > 0 && NonNegative(pool.vals) && np >= 0
    requires Consume(pool, np, maxPpn).result.Ok?
    ensures forall j :: 0 <= j < |pool.keys| ==>
              Taken(Consume(pool, np, maxPpn).result.value.vals, pool.keys[j])
              == Share(pool.vals[pool.keys[j]], np - SumOf(pool.keys[..j], pool.vals))
  {
    ConsumeOk(pool, np, maxPpn);
    var held := Consume(pool, np, maxPpn).result.value;
    forall j | 0 <= j < |pool.keys|
      ensures Taken(held.vals, pool.keys[j])
              == Share(pool.vals[pool.keys[j]], np - SumOf(pool.keys[..j], pool.vals))
    {
      WalkedShare(pool, np, j);
    }
  }

  /** A successful allocation is the walk over the whole pool. */
  lemma ConsumeOk(pool: Pool, np: int, maxPpn: int)
    requires pool.Valid() && maxPpn > 0
    requires Consume(pool, np, maxPpn).result.Ok?
    ensures Consume(pool, np, maxPpn).result.value.vals == Walked(pool, np).taken
  {
  }

  lemma WalkedShare(pool: Pool, np: int, j: int)
    requires pool.Valid() && NonNegative(pool.vals) && np >= 0 && 0 <= j < |pool.keys|
    ensures Taken(Walked(pool, np).taken, pool.keys[j])
            == Share(pool.vals[pool.keys[j]], np - SumOf(pool.keys[..j], pool.vals))
  {
    DrainShares(pool.keys, Walk(pool.vals, [], map[], map[], np), j);
  }

  // ---------------------------------------------------------------------
  // free_resources
  // ---------------------------------------------------------------------

  /** Handing back `vals[k]` slots for each `k` of `ks` in order: a host the
      pool does not track, or a return that would exceed `MAX_PPN`, stops
      the loop with the hosts handled so far already credited. */
  function ReleaseKeys(free: map<string, int>, ks: seq<string>, vals: map<string, int>, maxPpn: int)
    : (r: (map<string, int>, Option<Error>))
    requires forall i :: 0 <= i < |ks| ==> ks[i] in vals
    ensures r.0.Keys == free.Keys
    ensures r.1.Some? ==> r.1.value.kind == Base
    decreases |ks|
  {
    if |ks| == 0 then (free, None)
    else
      var h := ks[0];
      if h !in free then (free, Some(Error(Base, "Circuit has untracked host: " + h)))
      else if vals[h] + free[h] > maxPpn then
        (free, Some(Error(Base, "Returning more resources than originally had")))
      else ReleaseKeys(free[h := free[h] + vals[h]], ks[1..], vals, maxPpn)
  }

  /** `free_resources` for the per-host amounts a circuit holds. */
  function Release(pool: Pool, held: Pool, maxPpn: int): (r: Outcome<()>)
    requires pool.Valid() && held.Valid()
    ensures r.pool.Valid() && r.pool.keys == pool.keys
  {
    var (free, err) := ReleaseKeys(pool.vals, held.keys, held.vals, maxPpn);
    Outcome(OMap(pool.keys, free), if err.Some? then Err(err.value) else Ok(()))
  }

  /** When every host is tracked and no return overflows, every listed host
      is credited and nothing else changes. */
  lemma {:induction false} ReleaseKeysCredits(free: map<string, int>, ks: seq<string>,
                                               vals: map<string, int>, maxPpn: int)
    requires forall i, j :: 0 <= i < j < |ks| ==> ks[i] != ks[j]
    requires forall i :: 0 <= i < |ks| ==> ks[i] in vals && ks[i] in free
    requires forall i :: 0 <= i < |ks| ==> vals[ks[i]] + free[ks[i]] <= maxPpn
    ensures var r := ReleaseKeys(free, ks, vals, maxPpn);
            && r.1.None?
            && (forall k :: k in ks ==> r.0[k] == free[k] + vals[k])
            && (forall k :: k in free && k !in ks ==> r.0[k] == free[k])
    decreases |ks|
  {
    if |ks| > 0 {
      var h := ks[0];
      var f' := free[h := free[h] + vals[h]];
      forall i | 0 <= i < |ks[1..]| ensures ks[1..][i] != h {
        assert ks[1..][i] == ks[i + 1];
      }
      ReleaseKeysCredits(f', ks[1..], vals, maxPpn);
    }
  }

  /** Where the loop stops with an error: the position of the first host
      that is untracked or would overflow. */
  function StopAt(free: map<string, int>, ks: seq<string>, vals: map<string, int>, maxPpn: int): (i: nat)
    requires forall i :: 0 <= i < |ks| ==> ks[i] in vals
    requires ReleaseKeys(free, ks, vals, maxPpn).1.Some?
    ensures i < |ks|
    decreases |ks|
  {
    var h := ks[0];
    if h !in free || vals[h] + free[h] > maxPpn then 0
    else 1 + StopAt(free[h := free[h] + vals[h]], ks[1..], vals, maxPpn)
  }

  /** When the loop stops with an error it stopped at some host `ks[i]`:
      the hosts before it were credited as if the list had ended there, and
      `ks[i]` is untracked or would overflow. */
  lemma {:induction false} ReleaseKeysPartial(free: map<string, int>, ks: seq<string>,
                                              vals: map<string, int>, maxPpn: int)
    requires forall i :: 0 <= i < |ks| ==> ks[i] in vals
    requires ReleaseKeys(free, ks, vals, maxPpn).1.Some?
    ensures ReleaseFailsAt(free, ks, vals, maxPpn, StopAt(free, ks, vals, maxPpn))
    decreases |ks|
  {
    var h := ks[0];
    if h !in free || vals[h] + free[h] > maxPpn {
      ReleaseFailsFirst(free, ks, vals, maxPpn);
    } else {
      var f' := free[h := free[h] + vals[h]];
      ReleaseKeysPartial(f', ks[1..], vals, maxPpn);
      ReleaseFailsLater(free, ks, vals, maxPpn);
    }
  }

  /** An untracked or overflowing first host is where the loop stops. */
  lemma ReleaseFailsFirst(free: map<string, int>, ks: seq<string>, vals: map<string, int>, maxPpn: int)
    requires forall i :: 0 <= i < |ks| ==> ks[i] in vals
    requires |ks| > 0 && (ks[0] !in free || vals[ks[0]] + free[ks[0]] > maxPpn)
    ensures ReleaseKeys(free, ks, vals, maxPpn).1.Some?
    ensures ReleaseFailsAt(free, ks, vals, maxPpn, StopAt(free, ks, vals, maxPpn))
  {
    assert StopAt(free, ks, vals, maxPpn) == 0;
  }

  /** A stop in the tail after a credited first host is the stop of the
      whole list, one position further on. */
  lemma ReleaseFailsLater(free: map<string, int>, ks: seq<string>, vals: map<string, int>, maxPpn: int)
    requires forall i :: 0 <= i < |ks| ==> ks[i] in vals
    requires ReleaseKeys(free, ks, vals, maxPpn).1.Some?
    requires ks[0] in free && vals[ks[0]] + free[ks[0]] <= maxPpn
    requires var f' := free[ks[0] := free[ks[0]] + vals[ks[0]]];
             ReleaseFailsAt(f', ks[1..], vals, maxPpn, StopAt(f', ks[1..], vals, maxPpn))
    ensures ReleaseFailsAt(free, ks, vals, maxPpn, StopAt(free, ks, vals, maxPpn))
  {
    var i := StopAt(free[ks[0] := free[ks[0]] + vals[ks[0]]], ks[1..], vals, maxPpn);
    assert StopAt(free, ks, vals, maxPpn) == i + 1;
    assert ks[..i + 1][1..] == ks[1..][..i];
    assert ks[..i + 1][0] == ks[0];
  }

  ghost predicate ReleaseFailsAt(free: map<string, int>, ks: seq<string>, vals: map<string, int>,
                                 maxPpn: int, i: int)
    requires forall i :: 0 <= i < |ks| ==> ks[i] in vals
    requires 0 <= i < |ks|
  {
    var before := ReleaseKeys(free, ks[..i], vals, maxPpn);
    var h := ks[i];
    && before.1.None?
    && ReleaseKeys(free, ks, vals, maxPpn).0 == before.0
    && (h !in before.0 || vals[h] + before.0[h] > maxPpn)
  }

  /** Consume-then-free restores the pool, provided no host started above
      `MAX_PPN`. */
  lemma ConsumeThenRelease(pool: Pool, np: int, maxPpn: int)
    requires pool.Valid() && maxPpn > 0
    requires forall k :: k in pool.vals ==> pool.vals[k] <= maxPpn
    requires Consume(pool, np, maxPpn).result.Ok?
    ensures var c := Consume(pool, np, maxPpn);
            Release(c.pool, c.result.value, maxPpn) == Outcome(pool, Ok(()))
  {
    var c := Consume(pool, np, maxPpn);
    var held := c.result.value;
    HeldFits(pool, np, maxPpn);
    ReleaseKeysCredits(c.pool.vals, held.keys, held.vals, maxPpn);
    var r := ReleaseKeys(c.pool.vals, held.keys, held.vals, maxPpn);
    SameKeys(pool, c.pool);
    Restored(pool.vals, c.pool.vals, held, r.0);
    assert Release(c.pool, held, maxPpn) == Outcome(OMap(pool.keys, pool.vals), Ok(()));
  }

  /** Every host an allocation took from is tracked and can take its
      slots back without passing `MAX_PPN`. */
  lemma HeldFits(pool: Pool, np: int, maxPpn: int)
    requires pool.Valid() && maxPpn > 0
    requires forall k :: k in pool.vals ==> pool.vals[k] <= maxPpn
    requires Consume(pool, np, maxPpn).result.Ok?
    ensures var c := Consume(pool, np, maxPpn);
            forall i :: 0 <= i < |c.result.value.keys| ==>
              c.result.value.keys[i] in c.result.value.vals && c.result.value.keys[i] in c.pool.vals
              && c.result.value.vals[c.result.value.keys[i]] + c.pool.vals[c.result.value.keys[i]] <= maxPpn
  {
    var c := Consume(pool, np, maxPpn);
    var held := c.result.value;
    forall i | 0 <= i < |held.keys|
      ensures held.keys[i] in held.vals && held.keys[i] in c.pool.vals
      ensures held.vals[held.keys[i]] + c.pool.vals[held.keys[i]] <= maxPpn
    {
      var k := held.keys[i];
      assert k in held.vals;
      assert c.pool.vals[k] == pool.vals[k] - Taken(held.vals, k);
    }
  }

  /** Two pools over the same host list track the same hosts. */
  lemma SameKeys(a: Pool, b: Pool)
    requires a.Valid() && b.Valid() && a.keys == b.keys
    ensures a.vals.Keys == b.vals.Keys
  {
  }

  /** Crediting back what was taken gives the counts taken from. */
  lemma Restored(before: map<string, int>, after: map<string, int>, held: Pool, back: map<string, int>)
    requires held.Valid()
    requires forall k :: k in before ==> k in after && after[k] == before[k] - Taken(held.vals, k)
    requires back.Keys == after.Keys && after.Keys == before.Keys
    requires forall k :: k in held.keys && k in after ==> back[k] == after[k] + held.vals[k]
    requires forall k :: k in after && k !in held.keys ==> back[k] == after[k]
    ensures back == before
  {
    forall k | k in before ensures back[k] == before[k] {
      if k in held.keys { assert k in held.vals; } else { assert k !in held.vals; }
    }
  }
}
