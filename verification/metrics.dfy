/** RPC timing statistics (`RPCMetrics` in python/infra/defw_common_def.py):
    for requests, responses and each method, a bounded window of recent
    round-trip times with their mean, and the running extrema and count over
    every sample ever added. Times are exact reals here. */
module Metrics {
  /** `sys.maxsize` on a 64-bit interpreter, the initial minimum. */
  const MaxSize: int := 0x7FFF_FFFF_FFFF_FFFF

  /** One timing database. `window` is oldest first. */
  datatype Timing = Timing(window: seq<real>, avg: real, min: real, max: real, total: nat)

  /** A database as created: empty window, mean and maximum 0, minimum
      `sys.maxsize`. */
  function NewTiming(): Timing {
    Timing([], 0.0, MaxSize as real, 0.0, 0)
  }

  function MinNat(a: nat, b: nat): nat {
    if a <= b then a else b
  }

  /** `deque(maxlen=cap).append(x)`: the newest `cap` of the old contents
      followed by `x`. */
  function Push(window: seq<real>, cap: nat, x: real): (w: seq<real>)
    requires |window| <= cap
    ensures |w| == MinNat(|window| + 1, cap)
    ensures |w| > 0 ==> w[|w| - 1] == x
  {
    if cap == 0 then []
    else if |window| == cap then window[1..] + [x]
    else window + [x]
  }

  function SumR(s: seq<real>): real
    decreases |s|
  {
    if |s| == 0 then 0.0 else SumR(s[..|s| - 1]) + s[|s| - 1]
  }

  /** The arithmetic mean of a non-empty window. */
  function Mean(s: seq<real>): real
    requires |s| > 0
  {
    SumR(s) / (|s| as real)
  }

  /** `add_timing_locked` for a sample whose round-trip time `rtt` is the
      receive time minus the send time. */
  function AddRtt(t: Timing, cap: nat, rtt: real): (r: Timing)
    requires |t.window| <= cap
    ensures r.total == t.total + 1
    ensures |r.window| <= cap
    ensures r.window == Push(t.window, cap, rtt)
    ensures |r.window| > 0 ==> r.avg == Mean(r.window)
    ensures |r.window| == 0 ==> r.avg == t.avg
    ensures r.max >= rtt && r.max >= t.max && (r.max == rtt || r.max == t.max)
    ensures r.min <= rtt && r.min <= t.min && (r.min == rtt || r.min == t.min)
  {
    var w := Push(t.window, cap, rtt);
    Timing(w,
           if |w| > 0 then Mean(w) else t.avg,
           if rtt < t.min then rtt else t.min,
           if rtt > t.max then rtt else t.max,
           t.total + 1)
  }

  /** A fresh database after the samples `rtts`, in arrival order. */
  function Replay(cap: nat, rtts: seq<real>): (t: Timing)
    ensures |t.window| <= cap
    decreases |rtts|
  {
    if |rtts| == 0 then NewTiming()
    else AddRtt(Replay(cap, rtts[..|rtts| - 1]), cap, rtts[|rtts| - 1])
  }

  /** The count is the number of samples. */
  lemma {:induction false} ReplayTotal(cap: nat, rtts: seq<real>)
    ensures Replay(cap, rtts).total == |rtts|
    decreases |rtts|
  {
    if |rtts| > 0 {
      ReplayTotal(cap, rtts[..|rtts| - 1]);
    }
  }

  /** The window holds the last `min(total, cap)` samples in arrival
      order. */
  lemma {:induction false} ReplayWindow(cap: nat, rtts: seq<real>)
    ensures Replay(cap, rtts).window == rtts[|rtts| - MinNat(|rtts|, cap)..]
    decreases |rtts|
  {
    if |rtts| > 0 {
      var init := rtts[..|rtts| - 1];
      ReplayWindow(cap, init);
      ReplayWindowStep(cap, init, rtts[|rtts| - 1]);
      LastSplit(rtts);
    }
  }

  lemma ReplayWindowStep(cap: nat, init: seq<real>, x: real)
    requires Replay(cap, init).window == init[|init| - MinNat(|init|, cap)..]
    ensures Replay(cap, init + [x]).window == (init + [x])[|init| + 1 - MinNat(|init| + 1, cap)..]
  {
    var t := Replay(cap, init);
    assert (init + [x])[..|init|] == init;
    assert Replay(cap, init + [x]).window == Push(t.window, cap, x);
    WindowStep(init, x, cap, t.window);
  }

  /** Pushing onto the newest samples of `s` gives the newest samples of
      `s + [x]`. */
  lemma WindowStep(s: seq<real>, x: real, cap: nat, w: seq<real>)
    requires w == s[|s| - MinNat(|s|, cap)..]
    ensures Push(w, cap, x) == (s + [x])[|s| + 1 - MinNat(|s| + 1, cap)..]
  {
    var k := MinNat(|s| + 1, cap);
    if cap == 0 {
    } else if |w| == cap {
      assert w[1..] + [x] == (s + [x])[|s| + 1 - k..];
    } else {
      assert w + [x] == (s + [x])[|s| + 1 - k..];
    }
  }

  lemma LastSplit(s: seq<real>)
    requires |s| > 0
    ensures s[..|s| - 1] + [s[|s| - 1]] == s
  {
  }

  /** The maximum is at least 0 and every sample, the minimum at most
      `sys.maxsize` and every sample. */
  lemma {:induction false} ReplayBounds(cap: nat, rtts: seq<real>)
    ensures Replay(cap, rtts).max >= 0.0 && Replay(cap, rtts).min <= MaxSize as real
    ensures forall i :: 0 <= i < |rtts| ==> Replay(cap, rtts).min <= rtts[i] <= Replay(cap, rtts).max
    decreases |rtts|
  {
    if |rtts| > 0 {
      var n := |rtts|;
      var init := rtts[..n - 1];
      ReplayBounds(cap, init);
      var t := Replay(cap, init);
      var r := Replay(cap, rtts);
      assert r == AddRtt(t, cap, rtts[n - 1]);
      forall i | 0 <= i < n ensures r.min <= rtts[i] <= r.max {
        if i < n - 1 {
          assert rtts[i] == init[i];
        }
      }
    }
  }

  /** The maximum is 0 or some sample, the minimum `sys.maxsize` or some
      sample. */
  lemma {:induction false} ReplayAttained(cap: nat, rtts: seq<real>)
    ensures Replay(cap, rtts).max == 0.0 || exists i :: 0 <= i < |rtts| && Replay(cap, rtts).max == rtts[i]
    ensures Replay(cap, rtts).min == MaxSize as real || exists i :: 0 <= i < |rtts| && Replay(cap, rtts).min == rtts[i]
    decreases |rtts|
  {
    if |rtts| > 0 {
      var n := |rtts|;
      var init := rtts[..n - 1];
      ReplayAttained(cap, init);
      var t := Replay(cap, init);
      var r := Replay(cap, rtts);
      assert r == AddRtt(t, cap, rtts[n - 1]);
      if r.max != rtts[n - 1] && t.max != 0.0 {
        var i :| 0 <= i < n - 1 && t.max == init[i];
        assert rtts[i] == r.max;
      }
      if r.min != rtts[n - 1] && t.min != MaxSize as real {
        var i :| 0 <= i < n - 1 && t.min == init[i];
        assert rtts[i] == r.min;
      }
    }
  }

  // ---------------------------------------------------------------------
  // the three kinds of database
  // ---------------------------------------------------------------------

  /** The metrics object: its window size, the request and response
      databases, and one database per method name. */
  datatype RpcMetrics = RpcMetrics(cap: nat, req: Timing, rsp: Timing, methods: map<string, Timing>)
  {
    ghost predicate Valid() {
      && |req.window| <= cap && |rsp.window| <= cap
      && forall m :: m in methods ==> |methods[m].window| <= cap
    }
  }

  function NewMetrics(cap: nat): (r: RpcMetrics)
    ensures r.Valid()
  {
    RpcMetrics(cap, NewTiming(), NewTiming(), map[])
  }

  function AddReqTime(m: RpcMetrics, send: real, recv: real): (r: RpcMetrics)
    requires m.Valid()
    ensures r.Valid()
    ensures r.req == AddRtt(m.req, m.cap, recv - send)
    ensures r.rsp == m.rsp && r.methods == m.methods && r.cap == m.cap
  {
    m.(req := AddRtt(m.req, m.cap, recv - send))
  }

  function AddRspTime(m: RpcMetrics, send: real, recv: real): (r: RpcMetrics)
    requires m.Valid()
    ensures r.Valid()
    ensures r.rsp == AddRtt(m.rsp, m.cap, recv - send)
    ensures r.req == m.req && r.methods == m.methods && r.cap == m.cap
  {
    m.(rsp := AddRtt(m.rsp, m.cap, recv - send))
  }

  /** `add_method_time`: the method's database is created on first use and
      is the only one updated. */
  function AddMethodTime(m: RpcMetrics, start: real, end: real, name: string): (r: RpcMetrics)
    requires m.Valid()
    ensures r.Valid()
    ensures r.methods.Keys == m.methods.Keys + {name}
    ensures name !in m.methods ==> r.methods[name] == AddRtt(NewTiming(), m.cap, end - start)
    ensures name in m.methods ==> r.methods[name] == AddRtt(m.methods[name], m.cap, end - start)
    ensures forall k :: k in m.methods && k != name ==> r.methods[k] == m.methods[k]
    ensures r.req == m.req && r.rsp == m.rsp && r.cap == m.cap
  {
    var db := if name in m.methods then m.methods[name] else NewTiming();
    m.(methods := m.methods[name := AddRtt(db, m.cap, end - start)])
  }

  /** Timing method `a` does not disturb what is recorded for method `b`. */
  lemma MethodsIndependent(m: RpcMetrics, start: real, end: real, a: string, b: string)
    requires m.Valid() && a != b && b in m.methods
    ensures AddMethodTime(m, start, end, a).methods[b] == m.methods[b]
    ensures AddMethodTime(AddMethodTime(m, start, end, a), start, end, b).methods[a]
            == AddMethodTime(m, start, end, a).methods[a]
  {
  }
}
