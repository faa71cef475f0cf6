/** RPC envelopes (`populate_rpc_req`, `populate_rpc_rsp` in
    python/infra/defw_common_def.py). The `rpc` dict of an envelope is a
    record here; `P` is whatever the caller passes as source and
    destination, an endpoint in practice. */
module Envelopes {
  import opened Wrappers
  import opened OrderedMaps
  import opened Values
  import opened Exceptions

  /** A request envelope. `script` and `function` stay at their base value
      `None`; `sendTime` is the clock reading at construction. */
  datatype Request<P> = Request(
    src: P, dst: P, reqType: Value, script: Value, modName: Value, cname: Value, mname: Value,
    funcName: Value, classId: Value, args: seq<Value>, kwargs: OMap<string, Value>,
    sendTime: Value, recvTime: Value)

  /** What travels in the `exception` field: a message or a raised error. */
  datatype Exc = ExcStr(s: string) | ExcObj(e: Error)

  /** Python truth of an exception argument: an empty message is false. */
  predicate ExcTruthy(x: Exc) {
    x.ExcObj? || |x.s| > 0
  }

  /** A response envelope. `exception` is `None` when the dict has no
      `exception` key. */
  datatype Response<P> = Response(src: P, dst: P, rtype: string, rc: Value,
                                  exception: Option<Exc>, sendTime: Value, recvTime: Value)

  /** `populate_rpc_req`: every argument lands in its field, positional
      arguments as a tuple; `script` and `function` keep the base `None` and
      the receive time starts at 0. */
  function PopulateRpcReq<P>(src: P, dst: P, reqType: Value, modName: Value, cname: Value,
                             mname: Value, classId: Value, args: seq<Value>,
                             kwargs: OMap<string, Value>, now: Value): (r: Request<P>)
    ensures r.script == VNone && r.funcName == VNone
    ensures r.recvTime == VInt(0) && r.sendTime == now
  {
    Request(src, dst, reqType, VNone, modName, cname, mname, VNone, classId, args, kwargs, now, VInt(0))
  }

  /** `populate_rpc_rsp`: a true exception argument makes an `exception`
      envelope carrying it; otherwise the envelope is a plain `response`
      without an `exception` key. */
  function PopulateRpcRsp<P>(src: P, dst: P, rc: Value, exception: Option<Exc>, now: Value): (r: Response<P>)
    ensures r.rtype == "exception" <==> exception.Some? && ExcTruthy(exception.value)
    ensures r.rtype == "response" <==> !(exception.Some? && ExcTruthy(exception.value))
    ensures r.exception.Some? <==> r.rtype == "exception"
    ensures r.exception.Some? ==> r.exception == exception
    ensures r.src == src && r.dst == dst && r.rc == rc
    ensures r.recvTime == VInt(0) && r.sendTime == now
  {
    if exception.Some? && ExcTruthy(exception.value) then Response(src, dst, "exception", rc, exception, now, VInt(0))
    else Response(src, dst, "response", rc, None, now, VInt(0))
  }

  /** The fields a receiver reads back from a request. */
  function RequestCall<P>(r: Request<P>): (Value, Value, Value, Value, seq<Value>, OMap<string, Value>) {
    (r.modName, r.cname, r.mname, r.classId, r.args, r.kwargs)
  }

  /** A request carries the call exactly as the caller described it. */
  lemma RequestRoundTrip<P>(src: P, dst: P, reqType: Value, modName: Value, cname: Value,
                            mname: Value, classId: Value, args: seq<Value>,
                            kwargs: OMap<string, Value>, now: Value)
    ensures var r := PopulateRpcReq(src, dst, reqType, modName, cname, mname, classId, args, kwargs, now);
            && RequestCall(r) == (modName, cname, mname, classId, args, kwargs)
            && r.src == src && r.dst == dst && r.reqType == reqType
  {
  }
}

/** The process-wide registry of live class instances by class id
    (`global_class_db` in python/infra/defw_common_def.py). */
module ClassDb {
  import opened Wrappers
  import opened Exceptions

  type Db<T> = map<string, T>

  /** `add_to_class_db`: a taken id is refused. */
  function Add<T>(db: Db<T>, instance: T, classId: string): (r: Result<Db<T>, Error>)
    ensures r.Err? <==> classId in db
    ensures r.Err? ==> r.error == Error(Base, "Duplicate class_id. Contention in timing")
    ensures r.Ok? ==> r.value.Keys == db.Keys + {classId} && r.value[classId] == instance
    ensures r.Ok? ==> forall k :: k in db ==> r.value[k] == db[k]
  {
    if classId in db then Err(Error(Base, "Duplicate class_id. Contention in timing"))
    else Ok(db[classId := instance])
  }

  /** `get_class_from_db`: a missing id raises NotFound. */
  function Get<T>(db: Db<T>, classId: string): (r: Result<T, Error>)
    ensures r.Ok? <==> classId in db
    ensures r.Ok? ==> r.value == db[classId]
    ensures r.Err? ==> r.error == Error(NotFound, "no " + classId + " in database")
  {
    if classId in db then Ok(db[classId]) else Err(Error(NotFound, "no " + classId + " in database"))
  }

  /** `del_entry_from_class_db`: a missing id is ignored. */
  function Delete<T>(db: Db<T>, classId: string): (r: Db<T>)
    ensures classId !in r
    ensures r.Keys == db.Keys - {classId}
    ensures forall k :: k in r ==> r[k] == db[k]
  {
    if classId in db then db - {classId} else db
  }

  /** What was added is found again under its id. */
  lemma AddThenGet<T>(db: Db<T>, instance: T, classId: string)
    requires classId !in db
    ensures Add(db, instance, classId).Ok?
    ensures Get(Add(db, instance, classId).value, classId) == Ok(instance)
  {
  }

  /** Deleting what was just added gives back the registry, and the id is
      then unknown again. */
  lemma AddThenDelete<T>(db: Db<T>, instance: T, classId: string)
    requires classId !in db
    ensures Delete(Add(db, instance, classId).value, classId) == db
    ensures Get(Delete(Add(db, instance, classId).value, classId), classId).Err?
  {
    assert Delete(Add(db, instance, classId).value, classId) == db;
  }

  /** Deleting twice is deleting once. */
  lemma DeleteIdempotent<T>(db: Db<T>, classId: string)
    ensures Delete(Delete(db, classId), classId) == Delete(db, classId)
  {
  }
}

/** The preference defaults and the merge `load_pref` applies to a loaded
    preference file (python/infra/defw_common_def.py). */
module Prefs {
  import opened Wrappers
  import opened OrderedMaps
  import opened Values

  /** `MIN_IFS_NUM_DEFAULT`. */
  const MinIfsNumDefault := 3

  /** `GLOBAL_PREF_DEF`; `editor` is where `vim` was found on the path, if
      anywhere. */
  function Defaults(editor: Option<string>): (d: OMap<string, Value>)
    ensures d.Valid()
    ensures d.keys == ["editor", "loglevel", "halt_on_exception", "remote copy", "RPC timeout",
                       "num_intfs", "cmd verbosity"]
  {
    var e := if editor.Some? then VStr(editor.value) else VNone;
    var d := OMap(["editor", "loglevel", "halt_on_exception", "remote copy", "RPC timeout",
                   "num_intfs", "cmd verbosity"],
                  map["editor" := e, "loglevel" := VStr("critical"), "halt_on_exception" := VBool(false),
                      "remote copy" := VBool(false), "RPC timeout" := VInt(300),
                      "num_intfs" := VInt(MinIfsNumDefault), "cmd verbosity" := VBool(true)]);
    d
  }

  /** Filling in the default keys `ks` the loaded map lacks, in default
      order; the loaded keys keep their places at the front. */
  function FillFrom(loaded: OMap<string, Value>, defaults: OMap<string, Value>, ks: seq<string>)
    : (r: OMap<string, Value>)
    requires loaded.Valid() && defaults.Valid()
    requires forall i :: 0 <= i < |ks| ==> ks[i] in defaults.vals
    ensures r.Valid()
    ensures |r.keys| >= |loaded.keys| && r.keys[..|loaded.keys|] == loaded.keys
    decreases |ks|
  {
    if |ks| == 0 then loaded
    else FillFrom(FillOne(loaded, defaults, ks[0]), defaults, ks[1..])
  }

  /** One default key: added with its default value unless already set. */
  function FillOne(loaded: OMap<string, Value>, defaults: OMap<string, Value>, k: string)
    : (r: OMap<string, Value>)
    requires loaded.Valid() && k in defaults.vals
    ensures r.Valid()
    ensures forall k' :: k' in loaded.vals ==> r.Get(k') == loaded.Get(k')
    ensures r.Get(k) == if k in loaded.vals then loaded.Get(k) else defaults.Get(k)
    ensures forall k' :: k' != k ==> r.Get(k') == loaded.Get(k')
    ensures |r.keys| >= |loaded.keys| && r.keys[..|loaded.keys|] == loaded.keys
  {
    if k in loaded.vals then loaded else loaded.Put(k, defaults.vals[k])
  }

  /** What `FillFrom` holds for each key: a loaded value is kept, a listed
      default fills a gap, and nothing else appears. */
  lemma {:induction false} FillFromGet(loaded: OMap<string, Value>, defaults: OMap<string, Value>,
                                       ks: seq<string>, k: string)
    requires loaded.Valid() && defaults.Valid()
    requires forall i :: 0 <= i < |ks| ==> ks[i] in defaults.vals
    ensures k in loaded.vals ==> FillFrom(loaded, defaults, ks).Get(k) == loaded.Get(k)
    ensures k in ks && k !in loaded.vals ==> FillFrom(loaded, defaults, ks).Get(k) == defaults.Get(k)
    ensures k !in loaded.vals && k !in ks ==> FillFrom(loaded, defaults, ks).Get(k) == None
    decreases |ks|
  {
    if |ks| > 0 {
      var next := FillOne(loaded, defaults, ks[0]);
      var r := FillFrom(loaded, defaults, ks);
      assert r == FillFrom(next, defaults, ks[1..]);
      FillFromGet(next, defaults, ks[1..], k);
      if k in loaded.vals {
        assert next.Get(k) == loaded.Get(k);
      } else if k == ks[0] {
        assert k in next.vals;
        assert next.Get(k) == defaults.Get(k);
      } else {
        assert next.Get(k) == loaded.Get(k);
        assert k in ks ==> k in ks[1..];
      }
    }
  }

  /** `FillFrom` over every default key, for all keys at once. */
  lemma FillFromAll(loaded: OMap<string, Value>, defaults: OMap<string, Value>)
    requires loaded.Valid() && defaults.Valid()
    ensures forall k :: k in defaults.vals ==> k in FillFrom(loaded, defaults, defaults.keys).vals
    ensures forall k :: k in loaded.vals ==>
              FillFrom(loaded, defaults, defaults.keys).Get(k) == loaded.Get(k)
    ensures forall k :: k !in loaded.vals ==>
              FillFrom(loaded, defaults, defaults.keys).Get(k) == defaults.Get(k)
  {
    var r := FillFrom(loaded, defaults, defaults.keys);
    forall k ensures k in defaults.vals ==> k in r.vals
             ensures k in loaded.vals ==> r.Get(k) == loaded.Get(k)
             ensures k !in loaded.vals ==> r.Get(k) == defaults.Get(k) {
      FillFromGet(loaded, defaults, defaults.keys, k);
      if k !in loaded.vals && k !in defaults.keys { assert k !in defaults.vals; }
    }
  }

  /** `load_pref` on an existing file whose YAML loaded as `loaded`
      (`None` for an empty file): an empty result means the defaults;
      otherwise every default key missing from the file is added with its
      default value, and keys the user set are kept as they are. */
  function MergePrefs(loaded: Option<OMap<string, Value>>, defaults: OMap<string, Value>)
    : (r: OMap<string, Value>)
    requires defaults.Valid()
    requires loaded.Some? ==> loaded.value.Valid()
    ensures r.Valid()
    ensures loaded.None? || loaded.value.Size() == 0 ==> r == defaults
    ensures forall k :: k in defaults.vals ==> k in r.vals
    ensures loaded.Some? ==> forall k :: k in loaded.value.vals ==> r.Get(k) == loaded.value.Get(k)
    ensures loaded.Some? && loaded.value.Size() > 0 ==>
              forall k :: k !in loaded.value.vals ==> r.Get(k) == defaults.Get(k)
    ensures loaded.Some? && loaded.value.Size() > 0 ==>
              |r.keys| >= |loaded.value.keys| && r.keys[..|loaded.value.keys|] == loaded.value.keys
  {
    if loaded.None? || loaded.value.Size() == 0 then defaults
    else
      FillFromAll(loaded.value, defaults);
      FillFrom(loaded.value, defaults, defaults.keys)
  }

  /** Two maps that answer every lookup alike hold the same entries. */
  lemma SameEntries(a: OMap<string, Value>, b: OMap<string, Value>)
    requires forall k :: a.Get(k) == b.Get(k)
    ensures a.vals == b.vals
  {
    assert forall k :: k in a.vals <==> a.Get(k).Some?;
    assert a.vals.Keys == b.vals.Keys;
  }

  /** Merging is idempotent: a merged map already has every default. */
  lemma MergeIdempotent(loaded: OMap<string, Value>, defaults: OMap<string, Value>)
    requires defaults.Valid() && loaded.Valid()
    ensures MergePrefs(Some(MergePrefs(Some(loaded), defaults)), defaults).vals
            == MergePrefs(Some(loaded), defaults).vals
  {
    var m := MergePrefs(Some(loaded), defaults);
    var m2 := MergePrefs(Some(m), defaults);
    if m.Size() > 0 {
      forall k ensures m2.Get(k) == m.Get(k) {
        if k !in m.vals { assert m2.Get(k) == defaults.Get(k); }
      }
      SameEntries(m2, m);
    }
  }
}
