/** The per-service job scheduler of python/services/util/qpm/util_qpm.py:
    a table of circuits, the host pool they draw process slots from, and the
    run operations that take slots before handing a circuit to the executor
    and give them back afterwards. The IBMQ service
    (python/services/svc_ibmq_qpm/svc_qpm.py) overrides circuit creation and
    resource consumption; `Backend` says which of the two a scheduler is. */
module Scheduler {
  import opened Wrappers
  import opened OrderedMaps
  import opened Values
  import opened Exceptions
  import opened Capacity
  import Strings
  import HostList
  import Numerals

  /** What the unseen circuit class tracks about a circuit's life. */
  datatype Status = Ready | Done

  /** The `info` dict of a circuit: `np` and `hosts` as the scheduler reads
      and writes them, every other key in `fields`. */
  datatype Info = Info(np: Option<int>, hosts: Option<Pool>, fields: OMap<string, Value>)
  {
    /** Both dicts list each of their keys once, as every Python dict does,
        and `np` and `hosts` are kept only in their own fields. */
    ghost predicate WellFormed() {
      fields.Valid() && (hosts.Some? ==> hosts.value.Valid())
      && "np" !in fields.vals && "hosts" !in fields.vals
    }
  }

  datatype Circuit = Circuit(cid: string, info: Info, status: Status, deletionPending: bool,
                             resourcesConsumed: bool)

  /** The generic scheduler, or the IBMQ one whose overrides take no slots. */
  datatype Backend = Generic | Ibmq

  /** The scheduler: whether the service finished initialising, the circuit
      table, the host pool and `MAX_PPN`, the slot count of an unqualified
      host. */
  datatype Qpm = Qpm(initialized: bool, circuits: OMap<string, Circuit>, pool: Pool, maxPpn: int,
                     backend: Backend)
  {
    ghost predicate Valid() {
      && circuits.Valid()
      && pool.Valid()
      && maxPpn > 0
      && (forall k :: k in circuits.vals ==> circuits.vals[k].cid == k)
      && (forall k :: k in circuits.vals ==> circuits.vals[k].info.WellFormed())
    }
  }

  /** The scheduler after an operation and what the operation returned or
      raised. */
  datatype After<T> = After(qpm: Qpm, result: Result<T, Error>)

  const NotReadyError := Error(NotReady, "QPM has not initialized properly")

  // ---------------------------------------------------------------------
  // setup_host_resources
  // ---------------------------------------------------------------------

  /** The host an entry `h` or `h:n` names. */
  function EntryHost(entry: string): string {
    Strings.Split(entry, ':')[0]
  }

  /** One entry of the expanded host list: `h` gets `MAX_PPN` slots, `h:n`
      gets `n`, an entry with more colons is ignored. */
  function AddEntry(pool: Pool, entry: string, maxPpn: int): (r: Result<Pool, Error>)
    requires pool.Valid()
    ensures r.Ok? ==> r.value.Valid()
    ensures r.Err? ==> r.error.kind == ValueError && |Strings.Split(entry, ':')| == 2
    ensures |Strings.Split(entry, ':')| > 2 ==> r == Ok(pool)
    ensures r.Ok? && |Strings.Split(entry, ':')| <= 2 ==> forall k :: k != EntryHost(entry) ==> r.value.Get(k) == pool.Get(k)
  {
    var comp := Strings.Split(entry, ':');
    if |comp| == 1 then Ok(pool.Put(comp[0], maxPpn))
    else if |comp| == 2 then
      var n :- HostList.IntOf(comp[1]);
      Ok(pool.Put(comp[0], n))
    else Ok(pool)
  }

  /** The entries in order; the first unparsable count stops the setup. */
  function AddEntries(pool: Pool, entries: seq<string>, maxPpn: int): (r: Result<Pool, Error>)
    requires pool.Valid()
    ensures r.Ok? ==> r.value.Valid()
    decreases |entries|
  {
    if |entries| == 0 then Ok(pool)
    else
      var p :- AddEntry(pool, entries[0], maxPpn);
      AddEntries(p, entries[1..], maxPpn)
  }

  /** `setup_host_resources`: the pool built from the host-list expression
      in the environment, or KeyError when the variable is not set. */
  function SetupHostResources(hostExpr: Option<string>, maxPpn: int): (r: Result<Pool, Error>)
    ensures r.Ok? ==> r.value.Valid()
    ensures hostExpr.None? ==> r == Err(Error(KeyError, "QFW_QPM_ASSIGNED_HOSTS"))
  {
    if hostExpr.None? then Err(Error(KeyError, "QFW_QPM_ASSIGNED_HOSTS"))
    else
      var hosts :- HostList.ExpandHostList(hostExpr.value);
      AddEntries(Empty(), hosts, maxPpn)
  }

  /** The slot count an entry that is not ignored gives its host. */
  function EntryCount(entry: string, maxPpn: int): Option<int> {
    var comp := Strings.Split(entry, ':');
    if |comp| == 1 then Some(maxPpn)
    else if |comp| == 2 then Numerals.ParseInt(comp[1], 10)
    else None
  }

  /** An entry of the form `h` or `h:n`: one the setup does not ignore. */
  predicate Counted(entry: string) {
    |Strings.Split(entry, ':')| <= 2
  }

  /** A successful entry gives its host the entry's count. */
  lemma AddEntryGives(pool: Pool, entry: string, maxPpn: int)
    requires pool.Valid() && Counted(entry) && AddEntry(pool, entry, maxPpn).Ok?
    ensures EntryCount(entry, maxPpn).Some?
    ensures AddEntry(pool, entry, maxPpn).value.Get(EntryHost(entry)) == EntryCount(entry, maxPpn)
  {
  }

  /** Entries that are ignored or name other hosts leave a host's count
      alone. */
  lemma {:induction false} AddEntriesFrame(pool: Pool, entries: seq<string>, maxPpn: int, k: string)
    requires pool.Valid() && AddEntries(pool, entries, maxPpn).Ok?
    requires forall i :: 0 <= i < |entries| && Counted(entries[i]) ==> EntryHost(entries[i]) != k
    ensures AddEntries(pool, entries, maxPpn).value.Get(k) == pool.Get(k)
    decreases |entries|
  {
    if |entries| > 0 {
      var p := AddEntry(pool, entries[0], maxPpn).value;
      AddEntriesFrame(p, entries[1..], maxPpn, k);
    }
  }

  /** A host's count is the one its last counted entry gives it. */
  lemma {:induction false} LastEntryWins(pool: Pool, entries: seq<string>, maxPpn: int, j: int)
    requires pool.Valid() && AddEntries(pool, entries, maxPpn).Ok?
    requires 0 <= j < |entries| && Counted(entries[j])
    requires forall i :: j < i < |entries| && Counted(entries[i]) ==> EntryHost(entries[i]) != EntryHost(entries[j])
    ensures AddEntries(pool, entries, maxPpn).value.Get(EntryHost(entries[j])) == EntryCount(entries[j], maxPpn)
    decreases |entries|
  {
    var p := AddEntry(pool, entries[0], maxPpn).value;
    if j == 0 {
      AddEntryGives(pool, entries[0], maxPpn);
      forall i | 0 <= i < |entries[1..]| && Counted(entries[1..][i])
        ensures EntryHost(entries[1..][i]) != EntryHost(entries[0])
      {
        assert entries[1..][i] == entries[i + 1];
      }
      AddEntriesFrame(p, entries[1..], maxPpn, EntryHost(entries[0]));
    } else {
      assert entries[1..][j - 1] == entries[j];
      forall i | j - 1 < i < |entries[1..]| && Counted(entries[1..][i])
        ensures EntryHost(entries[1..][i]) != EntryHost(entries[j])
      {
        assert entries[1..][i] == entries[i + 1];
      }
      LastEntryWins(p, entries[1..], maxPpn, j - 1);
    }
  }

  /** A host in no counted entry is not in the pool. */
  lemma NoEntryNoHost(entries: seq<string>, maxPpn: int, k: string)
    requires AddEntries(Empty(), entries, maxPpn).Ok?
    requires forall i :: 0 <= i < |entries| && Counted(entries[i]) ==> EntryHost(entries[i]) != k
    ensures AddEntries(Empty(), entries, maxPpn).value.Get(k) == None
  {
    AddEntriesFrame(Empty(), entries, maxPpn, k);
  }

  // ---------------------------------------------------------------------
  // the circuit table
  // ---------------------------------------------------------------------

  /** A circuit as `create_circuit` stores it. */
  function NewCircuit(cid: string, info: Info): (c: Circuit)
    ensures c.cid == cid && c.info == info && c.status == Ready
    ensures !c.deletionPending && !c.resourcesConsumed
  {
    Circuit(cid, info, Ready, false, false)
  }

  /** `create_circuit` with `cid` the freshly generated id. */
  function CreateCircuit(q: Qpm, info: Info, cid: string): (r: After<string>)
    requires q.Valid() && info.WellFormed()
    ensures r.qpm.Valid()
    ensures !q.initialized ==> r == After(q, Err(NotReadyError))
    ensures q.initialized ==> r.result == Ok(cid)
    ensures q.initialized ==> r.qpm.circuits.Get(cid) == Some(NewCircuit(cid, info))
    ensures forall k :: k != cid ==> r.qpm.circuits.Get(k) == q.circuits.Get(k)
    ensures r.qpm.pool == q.pool
  {
    if !q.initialized then After(q, Err(NotReadyError))
    else After(q.(circuits := q.circuits.Put(cid, NewCircuit(cid, info))), Ok(cid))
  }

  /** `delete_circuit`; whether the circuit may go now is the unseen
      circuit class's answer, `canDelete`. */
  function DeleteCircuit(q: Qpm, cid: string, canDelete: bool): (r: After<()>)
    requires q.Valid()
    ensures r.qpm.Valid()
    ensures !q.initialized ==> r == After(q, Err(NotReadyError))
    ensures q.initialized && cid !in q.circuits.vals ==> r == After(q, Ok(()))
    ensures q.initialized ==> r.result == Ok(())
    ensures q.initialized && cid in q.circuits.vals && canDelete ==> r.qpm.circuits.Get(cid) == None
    ensures q.initialized && cid in q.circuits.vals && !canDelete ==>
              r.qpm.circuits.Get(cid) == Some(q.circuits.vals[cid].(deletionPending := true))
    ensures forall k :: k != cid ==> r.qpm.circuits.Get(k) == q.circuits.Get(k)
    ensures r.qpm.pool == q.pool
  {
    if !q.initialized then After(q, Err(NotReadyError))
    else if cid !in q.circuits.vals then After(q, Ok(()))
    else if canDelete then After(q.(circuits := q.circuits.Remove(cid)), Ok(()))
    else
      var c := q.circuits.vals[cid];
      After(q.(circuits := q.circuits.Put(cid, c.(deletionPending := true))), Ok(()))
  }

  /** The IBMQ `create_circuit`: the backend is forced to the provider, no
      process slots are asked for, and there is no executable and no
      modules; then the generic creation runs. */
  function IbmqCreateCircuit(q: Qpm, info: Info, cid: string): (r: After<string>)
    requires q.Valid() && info.WellFormed()
    ensures r.qpm.Valid()
    ensures !q.initialized ==> r == After(q, Err(NotReadyError))
    ensures q.initialized ==> r.result == Ok(cid) && r.qpm.circuits.Get(cid).Some?
    ensures q.initialized ==> var c := r.qpm.circuits.Get(cid).value;
              && c.info.np == Some(0)
              && c.info.hosts == info.hosts
              && c.info.fields.Get("qfw_backend") == Some(VStr(IbmqProvider))
              && c.info.fields.Get("exec") == Some(VNone)
              && c.info.fields.Get("modules") == Some(VDict(Empty()))
              && forall k :: k !in IbmqForced ==> c.info.fields.Get(k) == info.fields.Get(k)
    ensures forall k :: k != cid ==> r.qpm.circuits.Get(k) == q.circuits.Get(k)
    ensures r.qpm.pool == q.pool
  {
    CreateCircuit(q, IbmqInfo(info), cid)
  }

  /** The info the IBMQ creation passes on: no slots, and the backend,
      executable and modules overwritten; every other key is kept. */
  function IbmqInfo(info: Info): (i: Info)
    requires info.WellFormed()
    ensures i.WellFormed()
    ensures i.np == Some(0) && i.hosts == info.hosts
    ensures i.fields.Get("qfw_backend") == Some(VStr(IbmqProvider))
    ensures i.fields.Get("exec") == Some(VNone)
    ensures i.fields.Get("modules") == Some(VDict(Empty()))
    ensures forall k :: k !in IbmqForced ==> i.fields.Get(k) == info.fields.Get(k)
  {
    var f1 := info.fields.Put("qfw_backend", VStr(IbmqProvider));
    var f2 := f1.Put("exec", VNone);
    var f3 := f2.Put("modules", VDict(Empty()));
    assert f3.Get("np") == None && f3.Get("hosts") == None;
    info.(np := Some(0), fields := f3)
  }

  /** The provider name the IBMQ scheduler sets at construction. */
  const IbmqProvider := "IBMQ"

  /** The keys the IBMQ creation overwrites. */
  const IbmqForced: seq<string> := ["qfw_backend", "exec", "modules"]

  // ---------------------------------------------------------------------
  // running a circuit
  // ---------------------------------------------------------------------

  /** The scheduler with circuit `circ` stored under its id and the pool
      replaced; every other circuit is as it was. */
  function Record(q: Qpm, circ: Circuit, pool: Pool): (r: Qpm)
    requires q.Valid() && pool.Valid() && circ.info.WellFormed()
    ensures r.Valid()
    ensures r.initialized == q.initialized && r.maxPpn == q.maxPpn && r.backend == q.backend
    ensures r.pool == pool
    ensures r.circuits.Get(circ.cid) == Some(circ)
    ensures forall k :: k != circ.cid ==> r.circuits.Get(k) == q.circuits.Get(k)
  {
    q.(circuits := q.circuits.Put(circ.cid, circ), pool := pool)
  }

  /** `common_run` followed by `consume_resources`: the circuit's slots are
      taken from the pool and recorded as its `hosts`. The IBMQ scheduler
      takes none and only marks the circuit. */
  function CommonRun(q: Qpm, cid: string): (r: After<Circuit>)
    requires q.Valid()
    ensures r.qpm.Valid()
    ensures r.qpm.initialized == q.initialized && r.qpm.maxPpn == q.maxPpn && r.qpm.backend == q.backend
    ensures r.qpm.pool.keys == q.pool.keys
    ensures cid !in q.circuits.vals ==> r == After(q, Err(Error(KeyError, cid)))
    ensures r.result.Err? ==> r.qpm == q
    ensures r.result.Ok? ==> cid in q.circuits.vals && r.qpm.circuits.Get(cid) == Some(r.result.value)
    ensures r.result.Ok? ==> r.result.value.cid == cid && r.result.value.info.WellFormed()
    ensures forall k :: k != cid ==> r.qpm.circuits.Get(k) == q.circuits.Get(k)
  {
    if cid !in q.circuits.vals then After(q, Err(Error(KeyError, cid)))
    else
      var circ := q.circuits.vals[cid];
      if q.backend == Ibmq then
        var marked := circ.(resourcesConsumed := true);
        After(Record(q, marked, q.pool), Ok(marked))
      else if circ.info.np.None? then After(q, Err(Error(KeyError, "np")))
      else
        var c := Consume(q.pool, circ.info.np.value, q.maxPpn);
        if c.result.Err? then After(q, Err(c.result.error))
        else
          var placed := circ.(info := circ.info.(hosts := Some(c.result.value)));
          After(Record(q, placed, c.pool), Ok(placed))
  }

  /** On the generic scheduler a successful run start took the circuit's
      `np` slots from the pool, recorded them as its `hosts`, and changed
      nothing else about it; a failed start changed nothing at all. */
  lemma CommonRunGeneric(q: Qpm, cid: string)
    requires q.Valid() && q.backend == Generic && cid in q.circuits.vals
    ensures var circ := q.circuits.vals[cid];
            var r := CommonRun(q, cid);
            && (circ.info.np.None? ==> r == After(q, Err(Error(KeyError, "np"))))
            && (circ.info.np.Some? ==>
                  var c := Consume(q.pool, circ.info.np.value, q.maxPpn);
                  && (c.result.Err? ==> r == After(q, Err(c.result.error)))
                  && (c.result.Ok? ==> r.qpm.pool == c.pool)
                  && (c.result.Ok? ==> r.result == Ok(circ.(info := circ.info.(hosts := Some(c.result.value))))))
  {
  }

  /** The IBMQ scheduler takes no slots: it only marks the circuit. */
  lemma CommonRunIbmq(q: Qpm, cid: string)
    requires q.Valid() && q.backend == Ibmq && cid in q.circuits.vals
    ensures var marked := q.circuits.vals[cid].(resourcesConsumed := true);
            CommonRun(q, cid) == After(q.(circuits := q.circuits.Put(cid, marked)), Ok(marked))
  {
  }

  /** `free_resources` for circuit `circ`: its slots go back to the pool; on
      success the circuit is marked done and deleted, `canDelete` being the
      circuit class's answer. A circuit without `hosts` raises KeyError. */
  function FreeResources(q: Qpm, circ: Circuit, canDelete: bool): (r: After<()>)
    requires q.Valid() && circ.info.WellFormed()
    ensures r.qpm.Valid()
    ensures r.qpm.initialized == q.initialized && r.qpm.maxPpn == q.maxPpn && r.qpm.backend == q.backend
    ensures r.qpm.pool.keys == q.pool.keys
    ensures circ.info.hosts.None? ==> r == After(q, Err(Error(KeyError, "hosts")))
    ensures circ.info.hosts.Some? ==>
              r.qpm.pool == Release(q.pool, circ.info.hosts.value, q.maxPpn).pool
    ensures circ.info.hosts.Some? && Release(q.pool, circ.info.hosts.value, q.maxPpn).result.Err? ==>
              r.qpm.circuits == q.circuits && r.result == Release(q.pool, circ.info.hosts.value, q.maxPpn).result
    ensures forall k :: k != circ.cid ==> r.qpm.circuits.Get(k) == q.circuits.Get(k)
    ensures r.result.Ok? && q.initialized && canDelete ==> r.qpm.circuits.Get(circ.cid) == None
  {
    if circ.info.hosts.None? then After(q, Err(Error(KeyError, "hosts")))
    else
      var rel := Release(q.pool, circ.info.hosts.value, q.maxPpn);
      var q1 := q.(pool := rel.pool);
      if rel.result.Err? then After(q1, Err(rel.result.error))
      else
        var q2 := if circ.cid in q1.circuits.vals
                  then q1.(circuits := q1.circuits.Put(circ.cid, q1.circuits.vals[circ.cid].(status := Done)))
                  else q1;
        DeleteCircuit(q2, circ.cid, canDelete)
  }

  /** `sync_run`: the executor's outcome `run` (its return value or what it
      raised) is an input. Slots are handed back whether the executor
      returned or raised; an error from handing them back replaces the
      executor's outcome. */
  function SyncRun<T>(q: Qpm, cid: string, run: Result<T, Error>, canDelete: bool): (r: After<T>)
    requires q.Valid()
    ensures r.qpm.Valid()
    ensures !q.initialized ==> r == After(q, Err(NotReadyError))
    ensures q.initialized && CommonRun(q, cid).result.Err? ==> r == After(q, Err(CommonRun(q, cid).result.error))
    ensures q.initialized && CommonRun(q, cid).result.Ok? ==>
              var started := CommonRun(q, cid);
              var freed := FreeResources(started.qpm, started.result.value, canDelete);
              && r.qpm == freed.qpm
              && (freed.result.Err? ==> r.result == Err(freed.result.error))
              && (freed.result.Ok? ==> r.result == run)
  {
    if !q.initialized then After(q, Err(NotReadyError))
    else
      var started := CommonRun(q, cid);
      if started.result.Err? then After(q, Err(started.result.error))
      else
        var freed := FreeResources(started.qpm, started.result.value, canDelete);
        if freed.result.Err? then After(freed.qpm, Err(freed.result.error))
        else After(freed.qpm, run)
  }

  /** `async_run`: `submitted` is what submitting to the executor raised, if
      anything. Only a failed submission hands the slots back; a successful
      one leaves them with the circuit. */
  function AsyncRun(q: Qpm, cid: string, submitted: Option<Error>, canDelete: bool): (r: After<()>)
    requires q.Valid()
    ensures r.qpm.Valid()
    ensures !q.initialized ==> r == After(q, Err(NotReadyError))
    ensures q.initialized && CommonRun(q, cid).result.Err? ==> r == After(q, Err(CommonRun(q, cid).result.error))
    ensures q.initialized && CommonRun(q, cid).result.Ok? && submitted.None? ==>
              r == After(CommonRun(q, cid).qpm, Ok(()))
    ensures q.initialized && CommonRun(q, cid).result.Ok? && submitted.Some? ==>
              var started := CommonRun(q, cid);
              var freed := FreeResources(started.qpm, started.result.value, canDelete);
              && r.qpm == freed.qpm
              && r.result == Err(if freed.result.Err? then freed.result.error else submitted.value)
  {
    if !q.initialized then After(q, Err(NotReadyError))
    else
      var started := CommonRun(q, cid);
      if started.result.Err? then After(q, Err(started.result.error))
      else if submitted.None? then After(started.qpm, Ok(()))
      else
        var freed := FreeResources(started.qpm, started.result.value, canDelete);
        if freed.result.Err? then After(freed.qpm, Err(freed.result.error))
        else After(freed.qpm, Err(submitted.value))
  }

  // ---------------------------------------------------------------------
  // properties of runs
  // ---------------------------------------------------------------------

  /** No host holds more than `MAX_PPN` free slots. */
  ghost predicate Bounded(q: Qpm) {
    forall k :: k in q.pool.vals ==> q.pool.vals[k] <= q.maxPpn
  }

  /** A run the generic scheduler can start: its slots fit in the pool. */
  ghost predicate Startable(q: Qpm, cid: string)
    requires q.Valid()
  {
    && q.initialized && q.backend == Generic && cid in q.circuits.vals
    && q.circuits.vals[cid].info.np.Some?
    && Consume(q.pool, q.circuits.vals[cid].info.np.value, q.maxPpn).result.Ok?
  }

  /** Freeing what a run start took gives the pool back exactly and then
      deletes the circuit (or marks it for deletion). */
  lemma StartThenFree(q: Qpm, cid: string, canDelete: bool)
    requires q.Valid() && Bounded(q) && Startable(q, cid)
    ensures var started := CommonRun(q, cid);
            var freed := FreeResources(started.qpm, started.result.value, canDelete);
            && started.result.Ok?
            && freed.result == Ok(())
            && freed.qpm.pool == q.pool
            && (canDelete ==> freed.qpm.circuits.Get(cid) == None)
            && (!canDelete ==> freed.qpm.circuits.Get(cid).Some? && freed.qpm.circuits.Get(cid).value.deletionPending)
  {
    CommonRunGeneric(q, cid);
    var circ := q.circuits.vals[cid];
    ConsumeThenRelease(q.pool, circ.info.np.value, q.maxPpn);
  }

  /** A synchronous run hands every slot back whether the executor returned
      or raised, and its outcome is the executor's. */
  lemma SyncRunRestoresPool<T>(q: Qpm, cid: string, run: Result<T, Error>, canDelete: bool)
    requires q.Valid() && Bounded(q) && Startable(q, cid)
    ensures SyncRun(q, cid, run, canDelete).qpm.pool == q.pool
    ensures SyncRun(q, cid, run, canDelete).result == run
  {
    StartThenFree(q, cid, canDelete);
  }

  /** A synchronous run that cannot get its slots leaves the scheduler as it
      was and raises OutOfResources. */
  lemma SyncRunOutOfResources<T>(q: Qpm, cid: string, run: Result<T, Error>, canDelete: bool)
    requires q.Valid() && q.initialized && q.backend == Generic && cid in q.circuits.vals
    requires q.circuits.vals[cid].info.np.Some?
    requires Consume(q.pool, q.circuits.vals[cid].info.np.value, q.maxPpn).result.Err?
    ensures SyncRun(q, cid, run, canDelete).qpm == q
    ensures SyncRun(q, cid, run, canDelete).result.Err?
    ensures SyncRun(q, cid, run, canDelete).result.error.kind == OutOfResources
  {
    CommonRunGeneric(q, cid);
  }

  /** A successfully submitted asynchronous run keeps its slots: the pool
      is the pool after consumption and the circuit records what it holds,
      so that freeing it later gives the pool back. */
  lemma AsyncRunHolds(q: Qpm, cid: string, canDelete: bool)
    requires q.Valid() && Bounded(q) && Startable(q, cid)
    ensures var r := AsyncRun(q, cid, None, canDelete);
            var c := Consume(q.pool, q.circuits.vals[cid].info.np.value, q.maxPpn);
            && r.result == Ok(())
            && r.qpm.pool == c.pool
            && r.qpm.circuits.Get(cid).Some?
            && r.qpm.circuits.Get(cid).value.info.hosts == Some(c.result.value)
            && FreeResources(r.qpm, r.qpm.circuits.Get(cid).value, canDelete).qpm.pool == q.pool
  {
    CommonRunGeneric(q, cid);
    StartThenFree(q, cid, canDelete);
  }

  /** A failed submission hands the slots back and re-raises what the
      executor raised. */
  lemma AsyncRunFailureRestores(q: Qpm, cid: string, e: Error, canDelete: bool)
    requires q.Valid() && Bounded(q) && Startable(q, cid)
    ensures AsyncRun(q, cid, Some(e), canDelete).qpm.pool == q.pool
    ensures AsyncRun(q, cid, Some(e), canDelete).result == Err(e)
  {
    StartThenFree(q, cid, canDelete);
  }

  // ---------------------------------------------------------------------
  // the completion queue
  // ---------------------------------------------------------------------

  /** `read_cq` and `peek_cq` share this: `ready` is what the executor's
      queue gave back, and a false value means nothing is finished yet. */
  function Poll(initialized: bool, cid: Option<string>, ready: Value): (r: Result<Value, Error>)
    ensures r.Ok? <==> initialized && Truthy(ready)
    ensures r.Ok? ==> r.value == ready
    ensures !initialized ==> r == Err(NotReadyError)
    ensures initialized && !Truthy(ready) ==> r.error.kind == InProgress
    ensures initialized && !Truthy(ready) && cid.Some? && cid.value != "" ==>
              r.error.msg == cid.value + " still in progress"
    ensures initialized && !Truthy(ready) && (cid.None? || cid.value == "") ==>
              r.error.msg == "No ready QTs"
  {
    if !initialized then Err(NotReadyError)
    else if !Truthy(ready) then
      if cid.Some? && cid.value != "" then Err(Error(InProgress, cid.value + " still in progress"))
      else Err(Error(InProgress, "No ready QTs"))
    else Ok(ready)
  }

  /** `read_cq`, and `peek_cq` alike (its body is the same, over the
      executor's `peak_cq`): `ready` is what the executor returned. */
  function ReadCq(q: Qpm, cid: Option<string>, ready: Value): (r: Result<Value, Error>)
    ensures r.Ok? <==> q.initialized && Truthy(ready)
    ensures r.Ok? ==> r.value == ready
    ensures !q.initialized ==> r == Err(NotReadyError)
    ensures r.Err? && q.initialized ==> r.error.kind == InProgress
    ensures q.initialized && !Truthy(ready) && cid.Some? && cid.value != "" ==>
              r.error.msg == cid.value + " still in progress"
    ensures q.initialized && !Truthy(ready) && (cid.None? || cid.value == "") ==>
              r.error.msg == "No ready QTs"
  {
    Poll(q.initialized, cid, ready)
  }

  /** The IBMQ `test`: it answers only once the provider is set. */
  function IbmqTest(provider: Option<string>): (r: Result<string, Error>)
    ensures r.Ok? <==> provider.Some?
    ensures r.Err? ==> r.error.kind == Base
  {
    if provider.None? then Err(Error(Base, "IBMQ QPM not ready: missing provider"))
    else Ok("****IBMQ QPM Test Successful****")
  }
}
