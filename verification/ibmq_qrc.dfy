/** The IBM Quantum executor's pure helpers and its asynchronous poll pass
    (python/services/svc_ibmq_qpm/svc_qrc.py). HTTP replies are inputs:
    a reply is either the exception the request helper raised or a status
    code, a body text and the body's JSON reading. */
module IbmqQrc {
  import opened Wrappers
  import opened OrderedMaps
  import opened Values
  import opened Exceptions
  import opened Strings
  import opened Numerals
  import opened Render
  import opened Lists
  import Seqs

  // ---------------------------------------------------------------------
  // proxy configuration
  // ---------------------------------------------------------------------

  /** `os.getenv(name, "").strip()`. */
  function EnvText(v: Option<string>): string {
    Strip(v.GetOr(""), Whitespace)
  }

  /** The proxy map for the stripped values, `http` before `https`, each
      only when set. */
  function ProxyMap(https: string, http: string): (m: OMap<string, string>)
    ensures m.Valid()
    ensures m.keys == (if http != "" then ["http"] else []) + (if https != "" then ["https"] else [])
    ensures http != "" ==> m.vals["http"] == http
    ensures https != "" ==> m.vals["https"] == https
  {
    if http != "" && https != "" then OMap(["http", "https"], map["http" := http, "https" := https])
    else if http != "" then OMap(["http"], map["http" := http])
    else if https != "" then OMap(["https"], map["https" := https])
    else OMap([], map[])
  }

  /** `_build_proxy_cfg` from the `HTTPS_PROXY` and `HTTP_PROXY` variables:
      no configuration when both are blank, otherwise `http` then `https`
      for each one set, holding its stripped value. */
  function BuildProxyCfg(httpsProxy: Option<string>, httpProxy: Option<string>): (r: Option<OMap<string, string>>)
    ensures r.None? <==> EnvText(httpsProxy) == "" && EnvText(httpProxy) == ""
    ensures r.Some? ==> r.value == ProxyMap(EnvText(httpsProxy), EnvText(httpProxy))
  {
    var https := EnvText(httpsProxy);
    var http := EnvText(httpProxy);
    if https == "" && http == "" then None else Some(ProxyMap(https, http))
  }

  // ---------------------------------------------------------------------
  // job states
  // ---------------------------------------------------------------------

  /** `_normalize_state`: `""` for `None`, otherwise the upper-cased text
      after its last dot: it ends the upper-cased text, holds no dot, and
      is either all of it or preceded by a dot. */
  function NormalizeState(state: Value): (r: string)
    ensures state.VNone? ==> r == ""
    ensures !state.VNone? ==> var s := Upper(Str(state));
              && |r| <= |s| && s[|s| - |r|..] == r
              && !Contains(r, ".")
              && (|r| < |s| ==> s[|s| - |r| - 1] == '.')
  {
    if state.VNone? then ""
    else
      AfterLastDotSuffix(Upper(Str(state)));
      NormalizeText(Str(state))
  }

  /** `str(state).upper().split(".")[-1]`. */
  function NormalizeText(s: string): string {
    AfterLastDot(Upper(s))
  }

  /** `s.split(".")[-1]`, which is all of `s` when it has no dot. */
  function AfterLastDot(s: string): string {
    if Contains(s, ".") then LastPiece(s, ".") else s
  }

  /** The text after the last dot ends `s`, holds no dot, and is either all
      of `s` or preceded by a dot. */
  lemma AfterLastDotSuffix(s: string)
    ensures var r := AfterLastDot(s);
            && |r| <= |s| && s[|s| - |r|..] == r
            && !Contains(r, ".")
            && (|r| < |s| ==> s[|s| - |r| - 1] == '.')
  {
    if Contains(s, ".") {
      SplitOnLastPiece(s, ".");
      LastPieceAfterDot(s);
    }
  }

  /** Normalising normalised text changes nothing: it is upper case already
      and has no dot left. */
  lemma NormalizeTextIdempotent(t: string)
    ensures NormalizeText(NormalizeText(t)) == NormalizeText(t)
  {
    var s := Upper(t);
    var r := AfterLastDot(s);
    AfterLastDotSuffix(s);
    assert Upper(r) == r by {
      forall i | 0 <= i < |r| ensures UpperChar(r[i]) == r[i] {
        assert r[i] == s[|s| - |r| + i];
      }
    }
  }

  /** When `s` has a dot, its last piece is preceded by one. */
  lemma {:induction false} LastPieceAfterDot(s: string)
    requires Contains(s, ".")
    ensures |LastPiece(s, ".")| < |s| && s[|s| - |LastPiece(s, ".")| - 1] == '.'
    decreases |s|
  {
    var i := FindFrom(s, ".", 0);
    var t := s[i + 1..];
    assert SplitOn(s, ".") == [s[..i]] + SplitOn(t, ".");
    assert LastPiece(s, ".") == LastPiece(t, ".");
    SplitOnLastPiece(t, ".");
    var last := LastPiece(t, ".");
    assert s[|s| - |last|..] == t[|t| - |last|..];
    if Contains(t, ".") {
      LastPieceAfterDot(t);
      assert s[|s| - |last| - 1] == t[|t| - |last| - 1];
    } else {
      assert SplitOn(t, ".") == [t];
      assert s[i..i + 1] == ".";
    }
  }

  /** Normalising a normalised state changes nothing. */
  lemma NormalizeIdempotent(state: Value)
    ensures NormalizeState(VStr(NormalizeState(state))) == NormalizeState(state)
  {
    if !state.VNone? {
      var r := NormalizeState(state);
      assert Str(VStr(r)) == r;
      NormalizeTextIdempotent(Str(state));
    }
  }

  /** How a poll reads a job state. */
  datatype Verdict = Finished | Failed | Pending

  function Classify(state: string): (v: Verdict)
    ensures v == Finished <==> state == "DONE" || state == "COMPLETED"
    ensures v == Failed <==> state in ["ERROR", "FAILED", "CANCELLED", "CANCELED"]
  {
    if state in ["ERROR", "FAILED", "CANCELLED", "CANCELED"] then Failed
    else if state == "DONE" || state == "COMPLETED" then Finished
    else Pending
  }

  // ---------------------------------------------------------------------
  // dictionary access on JSON values
  // ---------------------------------------------------------------------

  /** `m.get(key)` on a dict's entries. */
  function Lookup(m: OMap<string, Value>, key: string, default: Value): Value {
    if key in m.vals then m.vals[key] else default
  }

  /** Calling `.get` on anything but a dict. */
  function NoGet(v: Value): Error {
    Error(AttributeError, "'" + TypeName(v) + "' object has no attribute 'get'")
  }

  /** `v.get(key, default)`: only a dict has `get`. */
  function GetKey(v: Value, key: string, default: Value): (r: Result<Value, Error>)
    ensures r.Ok? <==> v.VDict?
    ensures r.Ok? ==> r.value == Lookup(v.entries, key, default)
  {
    if v.VDict? then Ok(Lookup(v.entries, key, default)) else Err(NoGet(v))
  }

  /** `x or default`. */
  function OrElse(x: Value, default: Value): Value {
    if Truthy(x) then x else default
  }

  function EmptyDict(): Value { VDict(Empty()) }

  // ---------------------------------------------------------------------
  // error text of a failed reply
  // ---------------------------------------------------------------------

  /** `s` when the field is true, nothing otherwise. */
  function Piece(present: bool, s: string): string {
    if present then s else ""
  }

  /** `_format_ibm_error` for a reply with status `status`, body `text` and
      the JSON reading of the body (its decoding error otherwise). The
      first entry of a non-empty `errors` list supplies code, message,
      solution and more-info; a first entry that is not a dict raises. */
  function FormatIbmError(status: Value, text: string, body: Result<Value, string>): (r: Result<string, Error>)
    ensures body.Err? ==> r == Ok("HTTP " + Str(status) + ": " + text)
    ensures r.Ok? ==> |r.value| >= 5 + |Str(status)| && r.value[..5 + |Str(status)|] == "HTTP " + Str(status)
    ensures body.Ok? && body.value.VDict? && !Truthy(Lookup(body.value.entries, "errors", VNone)) ==>
              r == Ok("HTTP " + Str(status) + ": " + Str(body.value))
  {
    if body.Err? then Ok("HTTP " + Str(status) + ": " + text)
    else if !body.value.VDict? then Err(NoGet(body.value))
    else
      var j := body.value.entries;
      var errors := Lookup(j, "errors", VNone);
      var trace := Lookup(j, "trace", VNone);
      if !Truthy(errors) then Ok("HTTP " + Str(status) + ": " + Str(body.value))
      else
        var e0 := if errors.VList? && |errors.items| > 0 then errors.items[0] else EmptyDict();
        if !e0.VDict? then Err(NoGet(e0))
        else
          var code := Lookup(e0.entries, "code", VNone);
          var msg := Lookup(e0.entries, "message", VNone);
          var solution := Lookup(e0.entries, "solution", VNone);
          var moreInfo := Lookup(e0.entries, "more_info", VNone);
          var out := "HTTP " + Str(status);
          var out := out + Piece(!code.VNone?, " (code " + Str(code) + ")");
          var out := out + Piece(Truthy(msg), ": " + Str(msg));
          var out := out + Piece(Truthy(solution), " | solution: " + Str(solution));
          var out := out + Piece(Truthy(moreInfo), " | more_info: " + Str(moreInfo));
          Ok(out + Piece(Truthy(trace), " | trace: " + Str(trace)))
  }

  /** With an error list whose first entry is a dict, the text is the
      status followed by code, message, solution, more-info and trace, in
      that order, each only when present. */
  lemma FormatIbmErrorFields(status: Value, text: string, j: OMap<string, Value>, e: OMap<string, Value>,
                             rest: seq<Value>)
    requires j.Valid() && "errors" in j.vals && j.vals["errors"] == VList([VDict(e)] + rest)
    ensures var code := if "code" in e.vals then e.vals["code"] else VNone;
            var msg := if "message" in e.vals then e.vals["message"] else VNone;
            var sol := if "solution" in e.vals then e.vals["solution"] else VNone;
            var info := if "more_info" in e.vals then e.vals["more_info"] else VNone;
            var trace := if "trace" in j.vals then j.vals["trace"] else VNone;
            FormatIbmError(status, text, Ok(VDict(j))) == Ok(
              "HTTP " + Str(status)
              + (if code.VNone? then "" else " (code " + Str(code) + ")")
              + (if Truthy(msg) then ": " + Str(msg) else "")
              + (if Truthy(sol) then " | solution: " + Str(sol) else "")
              + (if Truthy(info) then " | more_info: " + Str(info) else "")
              + (if Truthy(trace) then " | trace: " + Str(trace) else ""))
  {
  }

  /** An error list whose first entry is not a dict makes the formatting
      itself raise. */
  lemma FormatIbmErrorRaises(status: Value, text: string, j: OMap<string, Value>, first: Value, rest: seq<Value>)
    requires j.Valid() && "errors" in j.vals && j.vals["errors"] == VList([first] + rest) && !first.VDict?
    ensures FormatIbmError(status, text, Ok(VDict(j))).Err?
    ensures FormatIbmError(status, text, Ok(VDict(j))).error.kind == AttributeError
  {
  }

  // ---------------------------------------------------------------------
  // samples to bitstrings
  // ---------------------------------------------------------------------

  /** `int(s, 16)` for a `0x`/`0X`-prefixed text, `int(s)` otherwise. */
  function ParseSample(s: string): Option<int> {
    if |s| >= 2 && s[0] == '0' && (s[1] == 'x' || s[1] == 'X') then ParseInt(s, 16) else ParseInt(s, 10)
  }

  /** `s.zfill(w)[-w:]`. */
  function Fit(s: string, w: int): string {
    PySliceFrom(ZFill(s, w), -w)
  }

  /** `_hex_to_bitstring`: a text of only 0 and 1 passes through; otherwise
      the text is read as a hex or decimal integer and rendered in binary;
      a text that is neither is returned unchanged. With a width, a
      converted result is zero-filled and cut to its last `width`
      characters. */
  function HexToBitstring(x: Value, width: Option<int>): (r: string)
    ensures IsBits(Str(x)) && width.None? ==> r == Str(x)
    ensures !IsBits(Str(x)) && ParseSample(Str(x)).None? ==> r == Str(x)
    ensures !IsBits(Str(x)) && ParseSample(Str(x)).Some? && width.None? ==> r == FormatBin(ParseSample(Str(x)).value)
  {
    Bitstring(Str(x), width)
  }

  /** `_hex_to_bitstring` on the text of the sample. */
  function Bitstring(s: string, width: Option<int>): string {
    if IsBits(s) then (if width.None? then s else Fit(s, width.value))
    else
      match ParseSample(s)
      case None => s
      case Some(v) => var b := FormatBin(v); if width.None? then b else Fit(b, width.value)
  }

  /** A converted sample given a positive width is exactly that wide. */
  lemma FitWidth(s: string, w: int)
    requires w >= 1
    ensures |Fit(s, w)| == w
  {
  }

  /** Zero-filling a binary text to `w` and keeping its last `w` digits
      keeps its value modulo `2^w`. */
  lemma FitLowBits(b: string, w: nat)
    requires w >= 1 && AllDigits(b, 2) && |b| >= 1 && b[0] != '+' && b[0] != '-'
    ensures |Fit(b, w)| == w && AllDigits(Fit(b, w), 2)
    ensures Numerals.Value(Fit(b, w), 2) == Numerals.Value(b, 2) % Pow(2, w)
  {
    var z := ZFill(b, w);
    if |b| < w {
      assert z == Zeros(w - |b|) + b;
      ZeroPrefixValue(w - |b|, b, 2);
    }
    assert AllDigits(z, 2) && Numerals.Value(z, 2) == Numerals.Value(b, 2);
    SuffixValue(z, w, 2);
    assert Fit(b, w) == z[|z| - w..];
  }

  /** For a non-negative sample, the width-`w` result is the sample's value
      modulo `2^w` written in `w` binary digits. */
  lemma HexToBitstringLowBits(x: Value, w: nat)
    requires w >= 1 && !IsBits(Str(x)) && ParseSample(Str(x)).Some? && ParseSample(Str(x)).value >= 0
    ensures var r := HexToBitstring(x, Some(w));
            |r| == w && AllDigits(r, 2) && Numerals.Value(r, 2) == ParseSample(Str(x)).value % Pow(2, w)
  {
    BitstringLowBits(Str(x), w);
    assert HexToBitstring(x, Some(w)) == Bitstring(Str(x), Some(w));
  }

  /** The low-bits property on the sample's text. */
  lemma BitstringLowBits(s: string, w: nat)
    requires w >= 1 && !IsBits(s) && ParseSample(s).Some? && ParseSample(s).value >= 0
    ensures var r := Bitstring(s, Some(w));
            |r| == w && AllDigits(r, 2) && Numerals.Value(r, 2) == ParseSample(s).value % Pow(2, w)
  {
    var v := ParseSample(s).value;
    var f := Fit(FormatBin(v), w);
    BinaryLowBits(v, w);
    assert Bitstring(s, Some(w)) == f;
  }

  /** A non-negative value in binary, fitted to `w` digits, is that value
      modulo `2^w`. */
  lemma BinaryLowBits(v: int, w: nat)
    requires v >= 0 && w >= 1
    ensures var r := Fit(FormatBin(v), w);
            |r| == w && AllDigits(r, 2) && Numerals.Value(r, 2) == v % Pow(2, w)
  {
    var d := Digits(v, 2);
    assert SignOf(v) == "";
    assert FormatBin(v) == d;
    assert d[0] != '+' && d[0] != '-' by {
      assert DigitVal(d[0]) < 2;
    }
    FitLowBits(d, w);
  }

  /** A bit text already `w` long passes through unchanged. */
  lemma BitsOfWidth(x: Value, w: int)
    requires IsBits(Str(x)) && |Str(x)| == w
    ensures HexToBitstring(x, Some(w)) == Str(x)
  {
  }

  // ---------------------------------------------------------------------
  // counts
  // ---------------------------------------------------------------------

  /** What `parse_counts_from_sampler_results` returns: the reply itself
      under `raw`, or a histogram of bitstrings. */
  datatype Parsed = Raw(json: Value) | Hist(counts: OMap<string, int>)

  /** `counts[k] = counts.get(k, 0) + 1` for each key in turn. */
  function Histogram(acc: OMap<string, int>, ks: seq<string>): (r: OMap<string, int>)
    requires acc.Valid()
    ensures r.Valid()
    ensures Sum(r) == Sum(acc) + |ks|
    ensures forall k :: k in r.vals <==> k in acc.vals || k in ks
    ensures forall k :: k in r.vals ==> r.vals[k] == (if k in acc.vals then acc.vals[k] else 0) + multiset(ks)[k]
    decreases |ks|
  {
    if |ks| == 0 then acc
    else
      var k := ks[0];
      var n := if k in acc.vals then acc.vals[k] else 0;
      SumPut(acc, k, n + 1);
      assert multiset(ks) == multiset{k} + multiset(ks[1..]) by {
        assert ks == [k] + ks[1..];
      }
      Histogram(acc.Put(k, n + 1), ks[1..])
  }

  /** Iterating over a JSON value: a list gives its items, a string its
      characters, a dict its keys; other values raise. */
  function Iterate(v: Value): Result<seq<Value>, Error> {
    match v
    case VList(items) => Ok(items)
    case VStr(s) => Ok(seq(|s|, i requires 0 <= i < |s| => VStr([s[i]])))
    case VDict(m) => Ok(seq(|m.keys|, i requires 0 <= i < |m.keys| => VStr(m.keys[i])))
    case _ => Err(Error(TypeError, "'" + TypeName(v) + "' object is not iterable"))
  }

  /** `results[0]` for a true `results`. Errors in this module carry the
      text `str()` gives them; for the KeyError of a dict indexed by the
      integer `0` that text is `0`, unquoted. */
  function FirstOf(v: Value): Result<Value, Error> {
    match v
    case VList(items) => if |items| > 0 then Ok(items[0]) else Err(Error(IndexError, "list index out of range"))
    case VStr(s) => if |s| > 0 then Ok(VStr([s[0]])) else Err(Error(IndexError, "string index out of range"))
    case VDict(_) => Err(Error(KeyError, "0"))
    case _ => Err(Error(TypeError, "'" + TypeName(v) + "' object is not subscriptable"))
  }

  /** The bitstrings of `samples`, in order. */
  function Bitstrings(samples: seq<Value>, width: Option<int>): (ks: seq<string>)
    ensures |ks| == |samples|
    ensures forall i :: 0 <= i < |samples| ==> ks[i] == HexToBitstring(samples[i], width)
  {
    seq(|samples|, i requires 0 <= i < |samples| => HexToBitstring(samples[i], width))
  }

  /** `parse_counts_from_sampler_results`: the debug line listing the
      reply's keys fails first on anything but a dict; a reply without
      true `results`, or without samples under `results[0].data.c`, is
      returned whole as `raw`; otherwise the samples are counted. */
  function ParseCounts(res: Value, width: Option<int>): (r: Result<Parsed, Error>)
    ensures !res.VDict? ==> r == Err(Error(AttributeError, "'" + TypeName(res) + "' object has no attribute 'keys'"))
    ensures res.VDict? && !Truthy(Lookup(res.entries, "results", VList([]))) ==> r == Ok(Raw(res))
    ensures r.Ok? && r.value.Raw? ==> r.value.json == res
    ensures r.Ok? && r.value.Hist? ==> Truthy(Lookup(res.entries, "results", VList([])))
  {
    if !res.VDict? then Err(Error(AttributeError, "'" + TypeName(res) + "' object has no attribute 'keys'"))
    else
      var results := Lookup(res.entries, "results", VList([]));
      if !Truthy(results) then Ok(Raw(res))
      else
        var first :- FirstOf(results);
        var data0 :- GetKey(first, "data", EmptyDict());
        var data := OrElse(data0, EmptyDict());
        var c0 :- GetKey(data, "c", EmptyDict());
        var c := OrElse(c0, EmptyDict());
        var samples :- GetKey(c, "samples", VNone);
        if samples.VNone? then Ok(Raw(res))
        else
          var items :- Iterate(samples);
          Ok(Hist(Histogram(Empty(), Bitstrings(items, width))))
  }

  /** A one-entry dict. */
  function Single(k: string, v: Value): (d: Value)
    ensures d.VDict? && d.entries.Valid() && Lookup(d.entries, k, VNone) == v
  {
    VDict(OMap([k], map[k := v]))
  }

  /** The shape `parse_counts_from_sampler_results` expects: results whose
      first entry holds `data.c.samples`. */
  function SamplerReply(samples: seq<Value>): Value {
    Single("results", VList([Single("data", Single("c", Single("samples", VList(samples))))]))
  }

  /** A sampler reply is counted sample by sample. */
  lemma ParseCountsSampler(samples: seq<Value>, width: Option<int>)
    ensures ParseCounts(SamplerReply(samples), width) == Ok(Hist(Histogram(Empty(), Bitstrings(samples, width))))
  {
    var sv := VList(samples);
    var c := Single("samples", sv);
    var data := Single("c", c);
    var first := Single("data", data);
    var res := SamplerReply(samples);
    var results := VList([first]);
    assert GetKey(res, "results", VList([])).value == results;
    assert Truthy(results);
    assert FirstOf(results).value == first;
    assert GetKey(first, "data", EmptyDict()).value == data;
    assert Truthy(data) && OrElse(data, EmptyDict()) == data;
    assert GetKey(data, "c", EmptyDict()).value == c;
    assert Truthy(c) && OrElse(c, EmptyDict()) == c;
    assert GetKey(c, "samples", VNone).value == sv;
    assert Iterate(sv).value == samples;
  }

  /** Counting a sampler reply gives a histogram with one bucket per
      distinct bitstring whose counts add up to the number of samples. */
  lemma ParseCountsHistogram(samples: seq<Value>, width: Option<int>)
    ensures var r := ParseCounts(SamplerReply(samples), width);
            && r.Ok? && r.value.Hist?
            && Sum(r.value.counts) == |samples|
            && (forall k :: k in r.value.counts.vals ==> r.value.counts.vals[k] >= 1)
            && (forall i :: 0 <= i < |samples| ==> HexToBitstring(samples[i], width) in r.value.counts.vals)
            && forall k :: k in r.value.counts.vals ==>
                 r.value.counts.vals[k] == multiset(Bitstrings(samples, width))[k]
  {
    ParseCountsSampler(samples, width);
    var ks := Bitstrings(samples, width);
    HistogramOfEmpty(ks);
  }

  /** Counting from nothing: one bucket per distinct key, holding how often
      it occurs, and the buckets add up to the number of keys. */
  lemma HistogramOfEmpty(ks: seq<string>)
    ensures var h := Histogram(Empty(), ks);
            && Sum(h) == |ks|
            && (forall k :: k in h.vals ==> h.vals[k] == multiset(ks)[k] >= 1)
            && (forall i :: 0 <= i < |ks| ==> ks[i] in h.vals)
  {
    var h := Histogram(Empty(), ks);
    assert Sum(Empty<string, int>()) == 0;
    forall k | k in h.vals ensures h.vals[k] >= 1 {
      assert k in ks;
    }
    forall i | 0 <= i < |ks| ensures ks[i] in h.vals {
      assert ks[i] in ks;
    }
  }

  /** A reply without results, or without samples in its first result, is
      returned whole under `raw`. */
  lemma ParseCountsRaw(res: OMap<string, Value>, width: Option<int>)
    requires res.Valid() && ("results" !in res.vals || !Truthy(res.vals["results"]))
    ensures ParseCounts(VDict(res), width) == Ok(Raw(VDict(res)))
  {
  }

  /** The count histogram or raw reply as the value a result carries. */
  function ParsedValue(p: Parsed): Value {
    match p
    case Raw(json) => Single("raw", json)
    case Hist(counts) => VDict(OMap(counts.keys, map k | k in counts.vals :: VInt(counts.vals[k])))
  }

  // ---------------------------------------------------------------------
  // finalising a task
  // ---------------------------------------------------------------------

  /** `_fail_msg`: the prefix, then the formatted error of the reply. */
  function FailMsg(prefix: string, code: int, text: string, body: Result<Value, string>): (r: Result<string, Error>)
    ensures r.Ok? ==> |r.value| > |prefix| + 2 && r.value[..|prefix| + 2] == prefix + ": "
  {
    var f :- FormatIbmError(VInt(code), text, body);
    Ok(prefix + ": " + f)
  }

  /** A circuit being polled: its id, its job id and its register width. */
  datatype Task = Task(cid: int, jobId: Value, width: Option<int>)

  /** The record a finished task leaves: circuit id, result and return code
      (the timestamps are left out). */
  datatype Final = Final(cid: int, result: Value, rc: int)

  /** Where finished records go: no push target, or an event queue that
      accepts or refuses the event. */
  datatype Sink = NoSink | Queue(accepts: bool)

  /** What the executor holds: the tasks still being polled, the results
      list and the events pushed so far. */
  datatype Qrc = Qrc(active: seq<Task>, results: seq<Final>, events: seq<Final>)

  /** The `result` field: the result object itself, or the error text with
      the object under `raw`. */
  function FinalResult(resultObj: Value, errMsg: Option<string>): (r: Value)
    ensures errMsg.None? ==> r == resultObj
    ensures errMsg.Some? ==> r.VDict? && r.entries.keys == ["error", "raw"]
                             && r.entries.Valid() && r.entries.vals["error"] == VStr(errMsg.value) && r.entries.vals["raw"] == resultObj
  {
    if errMsg.None? then resultObj
    else VDict(OMap(["error", "raw"], map["error" := VStr(errMsg.value), "raw" := resultObj]))
  }

  /** `_finalize_task`: the record is pushed as an event when there is a
      push target that accepts it, and appended to the results otherwise,
      so that it always lands in exactly one of the two lists. */
  function FinalizeTask(q: Qrc, t: Task, resultObj: Value, rc: int, errMsg: Option<string>, sink: Sink): (r: Qrc)
    ensures r.active == q.active
    ensures var f := Final(t.cid, FinalResult(resultObj, errMsg), rc);
            if sink.Queue? && sink.accepts then r.events == q.events + [f] && r.results == q.results
            else r.results == q.results + [f] && r.events == q.events
  {
    var f := Final(t.cid, FinalResult(resultObj, errMsg), rc);
    if sink.Queue? && sink.accepts then q.(events := q.events + [f]) else q.(results := q.results + [f])
  }

  // ---------------------------------------------------------------------
  // one poll
  // ---------------------------------------------------------------------

  /** A reply of the request helper: the `str()` of the error it raised,
      or a status code, the body text and the body read as JSON (or the
      decoding error's text). */
  datatype Reply = Raised(msg: string) | Http(code: int, text: string, body: Result<Value, string>)

  /** The replies one task's poll meets: the job status, then, for a done
      job, its results. */
  datatype Poll = Poll(status: Reply, results: Reply)

  /** What a poll decides: keep polling, or finish with a result object, a
      return code and an optional error text. */
  datatype Outcome = Wait | Done(result: Value, rc: int, err: Option<string>)

  /** The results request of a done job; `Err` is the text of what was
      raised. */
  function ResultsStep(t: Task, r: Reply): (o: Result<Outcome, string>)
    ensures r.Raised? ==> o == Err(r.msg)
    ensures o.Ok? ==> o.value.Done? && (o.value.rc == 0 <==> o.value.err.None?)
    ensures o.Ok? && o.value.rc == 0 <==>
              r.Http? && r.code == 200 && r.body.Ok? && ParseCounts(r.body.value, t.width).Ok?
    ensures o.Ok? && o.value.rc == 0 ==> o.value.result == ParsedValue(ParseCounts(r.body.value, t.width).value)
    ensures o.Ok? && o.value.rc != 0 ==>
              o.value.rc == -1 && r.Http? && r.code != 200
              && o.value.result == Single("results_resp", VStr(r.text))
              && FailMsg("IBMQ_QRC async results failed", r.code, r.text, r.body).Ok?
              && o.value.err == Some(FailMsg("IBMQ_QRC async results failed", r.code, r.text, r.body).value)
  {
    match r
    case Raised(m) => Err(m)
    case Http(code, text, body) =>
      if code != 200 then
        match FailMsg("IBMQ_QRC async results failed", code, text, body)
        case Err(e) => Err(e.msg)
        case Ok(msg) => Ok(Done(Single("results_resp", VStr(text)), -1, Some(msg)))
      else
        match body
        case Err(m) => Err(m)
        case Ok(j) =>
          match ParseCounts(j, t.width)
          case Err(e) => Err(e.msg)
          case Ok(p) => Ok(Done(ParsedValue(p), 0, None))
  }

  /** The status request and what follows from it. */
  function StatusStep(t: Task, p: Poll): (o: Result<Outcome, string>)
    ensures p.status.Raised? ==> o == Err(p.status.msg)
    ensures o == Ok(Wait) <==> ReportedState(p).Some? && Classify(ReportedState(p).value) == Pending
    ensures ReportedState(p).Some? && Classify(ReportedState(p).value) == Finished ==> o == ResultsStep(t, p.results)
    ensures ReportedState(p).Some? && Classify(ReportedState(p).value) == Failed ==>
              o == Ok(Done(Single("state", VStr(ReportedState(p).value)), -1,
                           Some("IBMQ_QRC: job ended with state=" + ReportedState(p).value)))
  {
    match p.status
    case Raised(m) => Err(m)
    case Http(code, text, body) =>
      if code != 200 then
        match FailMsg("IBMQ_QRC async status failed", code, text, body)
        case Err(e) => Err(e.msg)
        case Ok(msg) => Ok(Done(Single("status_resp", VStr(text)), -1, Some(msg)))
      else
        match body
        case Err(m) => Err(m)
        case Ok(j) =>
          match GetKey(j, "state", VNone)
          case Err(e) => Err(e.msg)
          case Ok(sv) =>
            var state := NormalizeState(sv);
            match Classify(state)
            case Failed => Ok(Done(Single("state", VStr(state)), -1, Some("IBMQ_QRC: job ended with state=" + state)))
            case Pending => Ok(Wait)
            case Finished => ResultsStep(t, p.results)
  }

  /** One task's turn in `check_active_tasks`: anything raised on the way
      finishes the task with the exception's text. */
  function ProcessTask(t: Task, p: Poll): (o: Outcome)
    ensures o.Done? ==> (o.rc == 0 <==> o.err.None?) && (o.rc == 0 || o.rc == -1)
  {
    match StatusStep(t, p)
    case Ok(o) => o
    case Err(m) => Done(Single("exception", VStr(m)), -1,
                        Some("IBMQ_QRC: async poll exception job_id=" + Str(t.jobId) + ": " + m))
  }

  /** The state a successful status reply reports. */
  function ReportedState(p: Poll): Option<string> {
    if p.status.Http? && p.status.code == 200 && p.status.body.Ok? && p.status.body.value.VDict? then
      Some(NormalizeState(Lookup(p.status.body.value.entries, "state", VNone)))
    else None
  }

  /** A task stays active exactly when its status request answered 200
      with a state that is neither finished nor failed. */
  lemma WaitExactlyWhenPending(t: Task, p: Poll)
    ensures ProcessTask(t, p).Wait? <==> ReportedState(p).Some? && Classify(ReportedState(p).value) == Pending
  {
  }

  /** A task succeeds exactly when both requests answered 200, the state
      is finished and the results parse; its result is then the parsed
      counts. */
  lemma SuccessExactly(t: Task, p: Poll)
    ensures var o := ProcessTask(t, p);
            o.Done? && o.rc == 0 <==>
              && ReportedState(p).Some? && Classify(ReportedState(p).value) == Finished
              && p.results.Http? && p.results.code == 200 && p.results.body.Ok?
              && ParseCounts(p.results.body.value, t.width).Ok?
    ensures var o := ProcessTask(t, p);
            o.Done? && o.rc == 0 ==> o.result == ParsedValue(ParseCounts(p.results.body.value, t.width).value)
  {
  }

  /** A job the service reports failed finishes with its state as the
      error. */
  lemma FailedJob(t: Task, p: Poll)
    requires ReportedState(p).Some? && Classify(ReportedState(p).value) == Failed
    ensures ProcessTask(t, p) == Done(Single("state", VStr(ReportedState(p).value)), -1,
                                      Some("IBMQ_QRC: job ended with state=" + ReportedState(p).value))
  {
  }

  // ---------------------------------------------------------------------
  // the poll pass
  // ---------------------------------------------------------------------

  /** What polling each task decides. */
  function Outcomes(ts: seq<Task>, polls: seq<Poll>): (os: seq<Outcome>)
    requires |polls| == |ts|
    ensures |os| == |ts|
    ensures forall i :: 0 <= i < |ts| ==> os[i] == ProcessTask(ts[i], polls[i])
    decreases |ts|
  {
    if |ts| == 0 then [] else [ProcessTask(ts[0], polls[0])] + Outcomes(ts[1..], polls[1..])
  }

  /** Which outcomes finish their task. */
  function DoneOf(os: seq<Outcome>): (f: seq<bool>)
    ensures |f| == |os|
    ensures forall i :: 0 <= i < |os| ==> f[i] == os[i].Done?
    decreases |os|
  {
    if |os| == 0 then [] else [os[0].Done?] + DoneOf(os[1..])
  }

  /** Which tasks a pass finishes. */
  function DoneFlags(ts: seq<Task>, polls: seq<Poll>): (f: seq<bool>)
    requires |polls| == |ts|
    ensures |f| == |ts|
    ensures forall i :: 0 <= i < |ts| ==> f[i] == ProcessTask(ts[i], polls[i]).Done?
  {
    DoneOf(Outcomes(ts, polls))
  }

  /** The records the finished tasks leave, in task order: each task's
      own circuit id, its outcome's result (with the error text when there
      is one) and its outcome's return code. */
  function Records(ts: seq<Task>, os: seq<Outcome>): (fs: seq<Final>)
    requires |os| == |ts|
    decreases |ts|
  {
    if |ts| == 0 then []
    else
      (if os[0].Done? then [Final(ts[0].cid, FinalResult(os[0].result, os[0].err), os[0].rc)] else [])
      + Records(ts[1..], os[1..])
  }

  /** The loop over the active tasks, given what each one's poll decides: a
      finished task is finalised with its own record and noted as
      complete; every record goes to the one place the sink decides. */
  function Scan(q: Qrc, ts: seq<Task>, os: seq<Outcome>, sink: Sink): (r: (Qrc, seq<Task>))
    requires |os| == |ts|
    ensures r.0.active == q.active
    ensures r.1 == Select(ts, DoneOf(os))
    ensures sink.Queue? && sink.accepts ==> r.0.events == q.events + Records(ts, os) && r.0.results == q.results
    ensures !(sink.Queue? && sink.accepts) ==> r.0.results == q.results + Records(ts, os) && r.0.events == q.events
    decreases |ts|
  {
    if |ts| == 0 then (q, [])
    else
      var o := os[0];
      var here := if o.Done? then [Final(ts[0].cid, FinalResult(o.result, o.err), o.rc)] else [];
      var q' := if o.Done? then FinalizeTask(q, ts[0], o.result, o.rc, o.err, sink) else q;
      var rest := Scan(q', ts[1..], os[1..], sink);
      assert Records(ts, os) == here + Records(ts[1..], os[1..]);
      assert DoneOf(os)[1..] == DoneOf(os[1..]);
      assert sink.Queue? && sink.accepts ==> q'.events == q.events + here && q'.results == q.results;
      assert !(sink.Queue? && sink.accepts) ==> q'.results == q.results + here && q'.events == q.events;
      Seqs.ConcatAssoc(q.events, here, Records(ts[1..], os[1..]));
      Seqs.ConcatAssoc(q.results, here, Records(ts[1..], os[1..]));
      (rest.0, (if o.Done? then [ts[0]] else []) + rest.1)
  }

  /** `check_active_tasks`: when the jobs URL or headers cannot be built
      nothing happens; otherwise every active task is polled once, each
      finished one leaves its record where the sink decides, and the
      finished ones are taken off the active list. */
  function CheckActiveTasks(q: Qrc, polls: seq<Poll>, envOk: bool, sink: Sink): (r: Qrc)
    requires |polls| == |q.active|
    ensures !envOk ==> r == q
    ensures envOk && sink.Queue? && sink.accepts ==>
              r.events == q.events + Records(q.active, Outcomes(q.active, polls)) && r.results == q.results
    ensures envOk && !(sink.Queue? && sink.accepts) ==>
              r.results == q.results + Records(q.active, Outcomes(q.active, polls)) && r.events == q.events
  {
    if !envOk then q
    else
      var (q', complete) := Scan(q, q.active, Outcomes(q.active, polls), sink);
      q'.(active := RemoveAll(q.active, complete))
  }

  /** The records a pass leaves and the tasks it takes off the active list
      correspond one to one, in order: the `k`-th record carries the
      `k`-th completed task's circuit id. */
  lemma {:induction false} RecordsOfComplete(ts: seq<Task>, os: seq<Outcome>)
    requires |os| == |ts|
    ensures |Records(ts, os)| == |Select(ts, DoneOf(os))|
    ensures forall k :: 0 <= k < |Records(ts, os)| ==> Records(ts, os)[k].cid == Select(ts, DoneOf(os))[k].cid
    decreases |ts|
  {
    if |ts| > 0 {
      RecordsOfComplete(ts[1..], os[1..]);
      assert DoneOf(os)[1..] == DoneOf(os[1..]);
      var rs, sel := Records(ts[1..], os[1..]), Select(ts[1..], DoneOf(os[1..]));
      if os[0].Done? {
        assert Records(ts, os) == [Final(ts[0].cid, FinalResult(os[0].result, os[0].err), os[0].rc)] + rs;
        assert Select(ts, DoneOf(os)) == [ts[0]] + sel;
      } else {
        assert Records(ts, os) == rs;
        assert Select(ts, DoneOf(os)) == sel;
      }
    }
  }

  /** A pass removes from the active list, one `remove` at a time, the
      tasks its poll finished. */
  lemma PassActive(q: Qrc, polls: seq<Poll>, sink: Sink)
    requires |polls| == |q.active|
    ensures CheckActiveTasks(q, polls, true, sink).active
            == RemoveAll(q.active, Select(q.active, DoneFlags(q.active, polls)))
  {
  }

  /** When the active tasks are all different, a pass leaves exactly the
      tasks still pending, in their original order. */
  lemma PassKeepsPending(q: Qrc, polls: seq<Poll>, sink: Sink)
    requires |polls| == |q.active| && Distinct(q.active)
    ensures CheckActiveTasks(q, polls, true, sink).active == Select(q.active, Negate(DoneFlags(q.active, polls)))
  {
    PassActive(q, polls, sink);
    RemoveSelectedDistinct(q.active, DoneFlags(q.active, polls));
  }

  /** Whatever the tasks, a pass takes off the active list exactly one copy
      of each finished task and keeps the pending ones: no `remove` can
      fail. */
  lemma PassMultiset(q: Qrc, polls: seq<Poll>, sink: Sink)
    requires |polls| == |q.active|
    ensures multiset(CheckActiveTasks(q, polls, true, sink).active)
            == multiset(Select(q.active, Negate(DoneFlags(q.active, polls))))
  {
    PassActive(q, polls, sink);
    RemoveSelectedMultiset(q.active, DoneFlags(q.active, polls));
  }
}
