/** The Resource Manager (python/services/svc_resmgr/svc_resmgr.py): four
    registries of agent records keyed by agent id, a bit-flag state per
    record, the merge `get_services` performs, and the reserve and release
    protocol. Remote calls are inputs: `query` gives what an agent answers,
    and the reserve, release and unregister calls are given as the error
    text they raise, if any. What the manager asks of agents and services is
    recorded as a sequence of events. */
module ResMgr {
  import opened Wrappers
  import opened OrderedMaps
  import opened Values
  import opened Exceptions
  import opened Agents

  // ---------------------------------------------------------------------
  // agent states
  // ---------------------------------------------------------------------

  type State = bv8

  const Connected: State := 1
  const Registered: State := 2
  const Unregistered: State := 4
  const Errored: State := 8

  predicate SingleBit(s: State) {
    s != 0 && s & (s - 1) == 0
  }

  /** The four states are distinct single bits, so any combination of them
      can be taken apart again. */
  lemma StatesAreBits()
    ensures SingleBit(Connected) && SingleBit(Registered) && SingleBit(Unregistered) && SingleBit(Errored)
    ensures Connected & Registered == 0 && Connected & Unregistered == 0 && Connected & Errored == 0
    ensures Registered & Unregistered == 0 && Registered & Errored == 0 && Unregistered & Errored == 0
  {
  }

  /** `state | flag`: the flag is set and every flag already set stays. */
  function AddFlag(s: State, flag: State): (r: State)
    ensures r & flag == flag && r & s == s
    ensures forall b: State :: SingleBit(b) && b & s == 0 && b & flag == 0 ==> r & b == 0
  {
    s | flag
  }

  /** `state & AGENT_STATE_REGISTERED` is true. */
  predicate IsRegistered(s: State) {
    s & Registered != 0
  }

  // ---------------------------------------------------------------------
  // registries
  // ---------------------------------------------------------------------

  /** A service an agent offers; consuming and releasing its capacity
      happen on the service object and are recorded as events. */
  datatype Svc = Svc(name: string)

  /** What `query` returns: nothing, or the agent's description. Which of
      its services pass a filter is decided by the `select` argument of
      `GetServices`. */
  datatype Info = NoInfo | Info(name: Value, residence: Value)

  /** One registry record; the RPC handle is built from the agent's
      endpoint and is not kept separately. */
  datatype Entry = Entry(agent: Agent, info: Info, state: State)

  type Registry = OMap<string, Entry>

  datatype ResMgr = ResMgr(services: Registry, activeServices: Registry, clients: Registry,
                           activeClients: Registry, me: Endpoint)
  {
    ghost predicate Valid() {
      services.Valid() && activeServices.Valid() && clients.Valid() && activeClients.Valid()
    }

    /** No service registry holds the manager's own endpoint. */
    ghost predicate NoSelf() {
      && (forall k :: k in services.vals ==> !EndpointEq(services.vals[k].agent.ep, AnEndpoint(me)))
      && (forall k :: k in activeServices.vals ==> !EndpointEq(activeServices.vals[k].agent.ep, AnEndpoint(me)))
    }
  }

  /** The four registries, as `self.__dbs` names them. */
  datatype Loc = Svcs | ActiveSvcs | Clts | ActiveClts

  const SvcLoc := "services"
  const ActiveSvcLoc := "active services"
  const CltLoc := "clients"
  const ActiveCltLoc := "active clients"

  function LocName(l: Loc): string {
    match l
    case Svcs => SvcLoc
    case ActiveSvcs => ActiveSvcLoc
    case Clts => CltLoc
    case ActiveClts => ActiveCltLoc
  }

  /** The four registries in the order `self.__dbs` lists them. */
  const AllLocs := [Svcs, ActiveSvcs, Clts, ActiveClts]

  /** The key of `self.__dbs` a location string names, if any. */
  function LocOf(s: string): (r: Option<Loc>)
    ensures r.Some? ==> LocName(r.value) == s
  {
    FindLoc(s, AllLocs)
  }

  /** The first of `ls` named `s`. */
  function FindLoc(s: string, ls: seq<Loc>): (r: Option<Loc>)
    ensures r.Some? ==> LocName(r.value) == s
    decreases |ls|
  {
    if |ls| == 0 then None else if LocName(ls[0]) == s then Some(ls[0]) else FindLoc(s, ls[1..])
  }

  /** Each registry is found again under its own name. */
  lemma LocNames(l: Loc)
    ensures LocOf(LocName(l)) == Some(l)
  {
  }

  function DbAt(rm: ResMgr, l: Loc): Registry {
    match l
    case Svcs => rm.services
    case ActiveSvcs => rm.activeServices
    case Clts => rm.clients
    case ActiveClts => rm.activeClients
  }

  function SetDb(rm: ResMgr, l: Loc, db: Registry): (r: ResMgr)
    ensures DbAt(r, l) == db && r.me == rm.me
  {
    match l
    case Svcs => rm.(services := db)
    case ActiveSvcs => rm.(activeServices := db)
    case Clts => rm.(clients := db)
    case ActiveClts => rm.(activeClients := db)
  }

  /** The remote side as the manager sees it: the records each native agent
      list enumerates, what an agent answers to `query`, and the agent id
      of an endpoint (`get_id`, which is not part of this model). */
  datatype World = World(clients: seq<Record>, activeClients: seq<Record>, services: seq<Record>,
                         activeServices: seq<Record>, query: Endpoint -> Result<Info, Error>,
                         idOf: Endpoint -> string)

  /** The agents of a freshly reloaded agent list, in its order. */
  function Listed(recs: seq<Record>): (items: seq<Agent>)
  {
    var a := Reload(View(Empty(), 0, 0), recs).agents;
    seq(|a.keys|, i requires 0 <= i < |a.keys| => a.vals[a.keys[i]])
  }

  /** An agent skipped by a refresh with `skipSelf`. */
  predicate Skipped(a: Agent, skipSelf: bool, me: Endpoint) {
    skipSelf && EndpointEq(a.ep, AnEndpoint(me))
  }

  /** A record a refresh of `items` wrote. */
  predicate Fresh(e: Entry, items: seq<Agent>, skipSelf: bool, me: Endpoint) {
    e.state == Connected && e.agent in items && !Skipped(e.agent, skipSelf, me)
  }

  /** `__grab_agent_info` over the agents `items`: each agent not skipped is
      queried and stored under its id as a new record in CONNECTED state
      (the new record never has a state, so the old one is lost). Records of
      agents no longer listed stay. A raising query ends the refresh with
      the records written so far. */
  function Grab(db: Registry, items: seq<Agent>, skipSelf: bool, me: Endpoint, w: World)
    : (r: (Registry, Option<Error>))
    requires db.Valid()
    ensures r.0.Valid()
    ensures forall k :: k in db.vals ==> k in r.0.vals
    ensures forall k :: k in r.0.vals ==>
              (k in db.vals && r.0.vals[k] == db.vals[k]) || Fresh(r.0.vals[k], items, skipSelf, me)
    ensures r.1.None? ==> forall i :: 0 <= i < |items| && !Skipped(items[i], skipSelf, me) ==>
              w.idOf(items[i].ep) in r.0.vals && r.0.vals[w.idOf(items[i].ep)].state == Connected
    decreases |items|
  {
    if |items| == 0 then (db, None)
    else
      var a := items[0];
      assert forall i :: 1 <= i < |items| ==> items[i] == items[1..][i - 1];
      assert forall x :: x in items[1..] ==> x in items;
      if Skipped(a, skipSelf, me) then Grab(db, items[1..], skipSelf, me, w)
      else
        match w.query(a.ep)
        case Err(e) => (db, Some(e))
        case Ok(info) => Grab(Store(db, w.idOf(a.ep), Entry(a, info, Connected)), items[1..], skipSelf, me, w)
  }

  /** The registry with one record written. */
  function Store(db: Registry, k: string, e: Entry): (r: Registry)
    requires db.Valid()
    ensures r.Valid() && r.vals == db.vals[k := e]
  {
    db.Put(k, e)
  }

  /** `__reload_resources`: clients, active clients, then the two service
      registries skipping the manager itself. An error stops the refresh;
      registries not reached are untouched. */
  function ReloadResources(rm: ResMgr, w: World): (r: (ResMgr, Option<Error>))
    requires rm.Valid()
    ensures r.0.Valid() && r.0.me == rm.me
    ensures rm.NoSelf() ==> r.0.NoSelf()
  {
    var (c, e1) := Grab(rm.clients, Listed(w.clients), false, rm.me, w);
    if e1.Some? then (rm.(clients := c), e1)
    else
      var (ac, e2) := Grab(rm.activeClients, Listed(w.activeClients), false, rm.me, w);
      if e2.Some? then (rm.(clients := c, activeClients := ac), e2)
      else
        var (s, e3) := Grab(rm.services, Listed(w.services), true, rm.me, w);
        if e3.Some? then (rm.(clients := c, activeClients := ac, services := s), e3)
        else
          var (act, e4) := Grab(rm.activeServices, Listed(w.activeServices), true, rm.me, w);
          (rm.(clients := c, activeClients := ac, services := s, activeServices := act), e4)
  }

  // ---------------------------------------------------------------------
  // events
  // ---------------------------------------------------------------------

  /** What the manager asks of services and agents, in order. */
  datatype Event =
    | ConsumeCap(agent: string, svc: Svc)
    | ReserveRpc(agent: string)
    | ReleaseCap(agent: string, svc: Svc)
    | ReleaseRpc(agent: string)
    | UnregisterRpc(agent: string)

  /** A result together with the manager afterwards and the events on the
      way. */
  datatype Run<T> = Run(rm: ResMgr, events: seq<Event>, result: Result<T, Error>)

  // ---------------------------------------------------------------------
  // deregister
  // ---------------------------------------------------------------------

  /** `deregister` as evidently intended: an agent in neither the clients
      nor the services registry raises AgentNotFound; otherwise its
      `unregister` call is made and the record is dropped from services if
      it is there, else from clients. A raising `unregister` leaves the
      registries alone. */
  function Deregister(rm: ResMgr, name: string, unregister: Option<Error>): (r: Run<()>)
    requires rm.Valid()
    ensures r.rm.Valid() && r.rm.me == rm.me
    ensures name !in rm.clients.vals && name !in rm.services.vals ==>
              r == Run(rm, [], Err(Error(AgentNotFound, "agent " + name + " not found")))
    ensures name in rm.clients.vals || name in rm.services.vals ==> r.events == [UnregisterRpc(name)]
    ensures r.result.Ok? ==> name !in r.rm.services.vals
    ensures r.result.Ok? && name !in rm.services.vals ==> name !in r.rm.clients.vals
    ensures r.result.Ok? && name in rm.services.vals ==> r.rm.clients == rm.clients
    ensures r.result.Ok? ==> r.rm.activeServices == rm.activeServices && r.rm.activeClients == rm.activeClients
    ensures forall k :: k != name ==> r.rm.services.Get(k) == rm.services.Get(k) && r.rm.clients.Get(k) == rm.clients.Get(k)
    ensures unregister.Some? && (name in rm.clients.vals || name in rm.services.vals) ==>
              r.result == Err(unregister.value) && r.rm == rm
  {
    if name !in rm.clients.vals && name !in rm.services.vals then
      Run(rm, [], Err(Error(AgentNotFound, "agent " + name + " not found")))
    else if unregister.Some? then Run(rm, [UnregisterRpc(name)], Err(unregister.value))
    else if name in rm.services.vals then Run(rm.(services := rm.services.Remove(name)), [UnregisterRpc(name)], Ok(()))
    else Run(rm.(clients := rm.clients.Remove(name)), [UnregisterRpc(name)], Ok(()))
  }

  /** `deregister` as written: the second test names `self__services_db`,
      which does not exist, so every known agent raises NameError before
      anything is unregistered. */
  function DeregisterAsWritten(rm: ResMgr, name: string, unregister: Option<Error>): (r: Run<()>)
    requires rm.Valid()
    ensures r.rm == rm && r.events == [] && r.result.Err?
  {
    if name !in rm.clients.vals && name !in rm.services.vals then
      Run(rm, [], Err(Error(AgentNotFound, "agent " + name + " not found")))
    else Run(rm, [], Err(Error(NameError, "name 'self__services_db' is not defined")))
  }

  /** A registered service can never be deregistered as written, while the
      intended code removes it. */
  lemma DeregisterDiscrepancy(rm: ResMgr, name: string)
    requires rm.Valid() && name in rm.services.vals
    ensures DeregisterAsWritten(rm, name, None).result == Err(Error(NameError, "name 'self__services_db' is not defined"))
    ensures Deregister(rm, name, None).result == Ok(())
    ensures name !in Deregister(rm, name, None).rm.services.vals
  {
  }

  // ---------------------------------------------------------------------
  // get_services
  // ---------------------------------------------------------------------

  /** What `get_services` reports for one agent. */
  datatype Offer = Offer(loc: string, services: seq<Svc>, api: Value, residence: Value)

  /** A record `get_services` reports: it has an info and at least one
      service passes the filter. */
  predicate Offers(e: Entry, select: Info -> seq<Svc>) {
    e.info.Info? && |select(e.info)| > 0
  }

  function OfferOf(e: Entry, loc: string, select: Info -> seq<Svc>): Offer
    requires e.info.Info?
  {
    Offer(loc, select(e.info), e.info.name, e.info.residence)
  }

  /** One pass of `get_services` over the records of `db` under the keys
      `ks`. */
  function Collect(acc: OMap<string, Offer>, db: Registry, ks: seq<string>, loc: string,
                   select: Info -> seq<Svc>): (r: OMap<string, Offer>)
    requires acc.Valid() && db.Valid()
    requires forall i :: 0 <= i < |ks| ==> ks[i] in db.vals
    ensures r.Valid()
    ensures forall k :: k in r.vals <==> k in acc.vals || (k in ks && Offers(db.vals[k], select))
    ensures forall k :: k in ks && Offers(db.vals[k], select) ==> r.vals[k] == OfferOf(db.vals[k], loc, select)
    ensures forall k :: k in acc.vals && !(k in ks && Offers(db.vals[k], select)) ==> r.vals[k] == acc.vals[k]
    decreases |ks|
  {
    if |ks| == 0 then acc
    else
      var e := db.vals[ks[0]];
      var acc' := if Offers(e, select) then acc.Put(ks[0], OfferOf(e, loc, select)) else acc;
      Collect(acc', db, ks[1..], loc, select)
  }

  /** `get_services`: refresh, then report the active services and then the
      services registry, so an agent reported by both ends with the
      services entry. A failing refresh raises. */
  function GetServices(rm: ResMgr, w: World, select: Info -> seq<Svc>): (r: (ResMgr, Result<OMap<string, Offer>, Error>))
    requires rm.Valid()
    ensures r.0 == ReloadResources(rm, w).0
    ensures r.1.Err? <==> ReloadResources(rm, w).1.Some?
    ensures r.1.Ok? ==> r.1.value.Valid()
    ensures r.1.Ok? ==> forall k :: k in r.1.value.vals <==>
              (k in r.0.activeServices.vals && Offers(r.0.activeServices.vals[k], select))
              || (k in r.0.services.vals && Offers(r.0.services.vals[k], select))
    ensures r.1.Ok? ==> forall k :: k in r.0.services.vals && Offers(r.0.services.vals[k], select) ==>
              r.1.value.vals[k] == OfferOf(r.0.services.vals[k], SvcLoc, select)
    ensures r.1.Ok? ==> forall k ::
              (k in r.0.activeServices.vals && Offers(r.0.activeServices.vals[k], select)
               && !(k in r.0.services.vals && Offers(r.0.services.vals[k], select))) ==>
              r.1.value.vals[k] == OfferOf(r.0.activeServices.vals[k], ActiveSvcLoc, select)
  {
    var (rm', err) := ReloadResources(rm, w);
    if err.Some? then (rm', Err(err.value))
    else
      var s := rm'.services;
      var a := rm'.activeServices;
      var acc := Collect(Empty(), a, a.keys, ActiveSvcLoc, select);
      (rm', Ok(Collect(acc, s, s.keys, SvcLoc, select)))
  }

  // ---------------------------------------------------------------------
  // reserve and release
  // ---------------------------------------------------------------------

  /** How the not-registered test of `reserve` and `release` behaves. */
  datatype Guard =
    | Ignored    // the ReserveError is built and dropped (`reserve` as written)
    | Undefined  // the message names the undefined variable `f` (`release` as written)
    | Enforced   // a ReserveError naming the agent is raised (the evident intent)

  function GuardError(g: Guard, k: string): (r: Option<Error>)
    ensures r.None? <==> g == Ignored
  {
    match g
    case Ignored => None
    case Undefined => Some(Error(NameError, "name 'f' is not defined"))
    case Enforced => Some(Error(ReserveError, "Agent " + k + " is not registered"))
  }

  /** One requested agent: the registry it was found in and the services to
      reserve or release there. */
  datatype Want = Want(loc: string, services: seq<Svc>)

  type Request = OMap<string, Want>

  function Consumes(k: string, svcs: seq<Svc>): (evs: seq<Event>)
    ensures |evs| == |svcs|
    ensures forall i :: 0 <= i < |svcs| ==> evs[i] == ConsumeCap(k, svcs[i])
  {
    seq(|svcs|, i requires 0 <= i < |svcs| => ConsumeCap(k, svcs[i]))
  }

  function Releases(k: string, svcs: seq<Svc>): (evs: seq<Event>)
    ensures |evs| == |svcs|
    ensures forall i :: 0 <= i < |svcs| ==> evs[i] == ReleaseCap(k, svcs[i])
  {
    seq(|svcs|, i requires 0 <= i < |svcs| => ReleaseCap(k, svcs[i]))
  }

  /** A remote endpoint's block uuid means nothing here and is zeroed. */
  function Zeroed(ep: Endpoint, myUuid: string): (r: Endpoint)
    ensures r.remoteUuid == ep.remoteUuid && r == ep.(blkUuid := r.blkUuid)
    ensures r.blkUuid == (if ep.remoteUuid != myUuid then ZeroUuid else ep.blkUuid)
  {
    if ep.remoteUuid != myUuid then ep.(blkUuid := ZeroUuid) else ep
  }

  /** The record the `j`-th requested agent names, if its registry and key
      exist. */
  function Target(rm: ResMgr, req: Request, j: int): Option<Entry>
    requires req.Valid() && 0 <= j < |req.keys|
  {
    match LocOf(req.vals[req.keys[j]].loc)
    case None => None
    case Some(l) => DbAt(rm, l).Get(req.keys[j])
  }

  /** `b` is `a` with at most the block uuids of endpoints changed. */
  ghost predicate OnlyBlk(a: Registry, b: Registry) {
    && a.keys == b.keys && a.vals.Keys == b.vals.Keys
    && forall k :: k in a.vals ==>
         b.vals[k] == a.vals[k].(agent := Agent(a.vals[k].agent.ep.(blkUuid := b.vals[k].agent.ep.blkUuid)))
  }

  ghost predicate OnlyBlkEverywhere(a: ResMgr, b: ResMgr) {
    && a.me == b.me
    && OnlyBlk(a.services, b.services) && OnlyBlk(a.activeServices, b.activeServices)
    && OnlyBlk(a.clients, b.clients) && OnlyBlk(a.activeClients, b.activeClients)
  }

  /** The registry and record of the `i`-th requested agent: a missing
      registry or key raises KeyError, and the not-registered test applies
      to the record found. */
  function Look(rm: ResMgr, req: Request, i: nat, g: Guard): (r: Result<(Loc, Entry), Error>)
    requires req.Valid() && i < |req.keys|
    ensures r.Ok? ==> LocOf(req.vals[req.keys[i]].loc) == Some(r.value.0)
                      && req.keys[i] in DbAt(rm, r.value.0).vals
                      && DbAt(rm, r.value.0).vals[req.keys[i]] == r.value.1
                      && Target(rm, req, i) == Some(r.value.1)
    ensures r.Ok? && g == Enforced ==> IsRegistered(r.value.1.state)
    ensures r.Err? ==> r.error.kind == KeyError
                       || (Target(rm, req, i).Some? && !IsRegistered(Target(rm, req, i).value.state)
                           && Some(r.error) == GuardError(g, req.keys[i]))
  {
    var k := req.keys[i];
    var want := req.vals[k];
    match LocOf(want.loc)
    case None => Err(Error(KeyError, want.loc))
    case Some(l) =>
      if k !in DbAt(rm, l).vals then Err(Error(KeyError, k))
      else
        var e := DbAt(rm, l).vals[k];
        if !IsRegistered(e.state) && GuardError(g, k).Some? then Err(GuardError(g, k).value) else Ok((l, e))
  }

  /** `reserve` from the `i`-th requested agent on: look up its record,
      consume the capacity of each requested service, then make the
      reserve call; a raising call becomes a ReserveError with its text and
      nothing done before is undone. A reserved endpoint is reported with
      its block uuid zeroed when it is remote, and the zeroing sticks to the
      record. When the not-registered test raises nothing of its own, a
      ReserveError carries the text a reserve call raised. */
  function ReserveFrom(rm: ResMgr, req: Request, i: nat, myUuid: string, rpc: map<string, string>,
                       g: Guard): (r: Run<seq<Endpoint>>)
    requires rm.Valid() && req.Valid() && i <= |req.keys|
    ensures r.rm.Valid() && OnlyBlkEverywhere(rm, r.rm)
    ensures r.result.Ok? ==> Reports(rm, req, i, r.result.value, myUuid)
    ensures r.result.Ok? && g == Enforced ==> AllRegistered(rm, req, i)
    ensures r.result.Ok? ==> NoneRaise(req, i, rpc)
    ensures r.result.Err? && r.result.error.kind == ReserveError && g != Enforced ==>
              RpcRaised(req, i, rpc, r.result.error.msg)
    decreases |req.keys| - i
  {
    if i == |req.keys| then Run(rm, [], Ok([]))
    else
      match Look(rm, req, i, g)
      case Err(err) => Run(rm, [], Err(err))
      case Ok((l, e)) =>
        var k := req.keys[i];
        var evs := Consumes(k, req.vals[k].services) + [ReserveRpc(k)];
        if k in rpc then Run(rm, evs, Err(Error(ReserveError, rpc[k])))
        else
          var e' := e.(agent := Agent(Zeroed(e.agent.ep, myUuid)));
          var rm1 := SetDb(rm, l, DbAt(rm, l).Put(k, e'));
          ReserveStepFrame(rm, req, i, l, e');
          var rest := ReserveFrom(rm1, req, i + 1, myUuid, rpc, g);
          OnlyBlkTrans(rm, rm1, rest.rm);
          if rest.result.Ok? then
            ReportsCons(rm, rm1, req, i, myUuid, rest.result.value);
            RegisteredCons(rm, rm1, req, i);
            NoneRaiseCons(req, i, rpc);
            Run(rest.rm, evs + rest.events, Ok([e'.agent.ep] + rest.result.value))
          else
            Run(rest.rm, evs + rest.events, rest.result)
  }

  /** `eps` are the endpoints of the records the agents from the `i`-th on
      name, zeroed where remote. */
  ghost predicate Reports(rm: ResMgr, req: Request, i: nat, eps: seq<Endpoint>, myUuid: string)
    requires req.Valid() && i <= |req.keys|
  {
    && |eps| == |req.keys| - i
    && forall j {:trigger Target(rm, req, j)} :: i <= j < |req.keys| ==>
         Target(rm, req, j).Some? && eps[j - i] == Zeroed(Target(rm, req, j).value.agent.ep, myUuid)
  }

  /** Every agent from the `i`-th on has a registered record. */
  ghost predicate AllRegistered(rm: ResMgr, req: Request, i: nat)
    requires req.Valid() && i <= |req.keys|
  {
    forall j :: i <= j < |req.keys| ==> Target(rm, req, j).Some? && IsRegistered(Target(rm, req, j).value.state)
  }

  /** No reserve call of an agent from the `i`-th on raises. */
  ghost predicate NoneRaise(req: Request, i: nat, rpc: map<string, string>)
    requires req.Valid() && i <= |req.keys|
  {
    forall j :: i <= j < |req.keys| ==> req.keys[j] !in rpc
  }

  lemma NoneRaiseCons(req: Request, i: nat, rpc: map<string, string>)
    requires req.Valid() && i < |req.keys|
    ensures req.keys[i] !in rpc && NoneRaise(req, i + 1, rpc) ==> NoneRaise(req, i, rpc)
  {
  }

  /** The first agent's record, in front of what the later ones report. */
  lemma ReportsCons(rm: ResMgr, rm1: ResMgr, req: Request, i: nat, myUuid: string, rest: seq<Endpoint>)
    requires req.Valid() && i < |req.keys| && Target(rm, req, i).Some?
    requires forall j :: i < j < |req.keys| ==> Target(rm1, req, j) == Target(rm, req, j)
    requires Reports(rm1, req, i + 1, rest, myUuid)
    ensures Reports(rm, req, i, [Zeroed(Target(rm, req, i).value.agent.ep, myUuid)] + rest, myUuid)
  {
    var eps := [Zeroed(Target(rm, req, i).value.agent.ep, myUuid)] + rest;
    forall j | i <= j < |req.keys|
      ensures Target(rm, req, j).Some? && eps[j - i] == Zeroed(Target(rm, req, j).value.agent.ep, myUuid)
    {
      if j > i {
        assert eps[j - i] == rest[j - (i + 1)];
        assert Target(rm1, req, j).Some? && rest[j - (i + 1)] == Zeroed(Target(rm1, req, j).value.agent.ep, myUuid);
        assert Target(rm1, req, j) == Target(rm, req, j);
      }
    }
  }

  lemma RegisteredCons(rm: ResMgr, rm1: ResMgr, req: Request, i: nat)
    requires req.Valid() && i < |req.keys| && Target(rm, req, i).Some?
    requires forall j :: i < j < |req.keys| ==> Target(rm1, req, j) == Target(rm, req, j)
    ensures AllRegistered(rm1, req, i + 1) && IsRegistered(Target(rm, req, i).value.state) ==>
              AllRegistered(rm, req, i)
  {
  }

  lemma OnlyBlkTrans(a: ResMgr, b: ResMgr, c: ResMgr)
    requires OnlyBlkEverywhere(a, b) && OnlyBlkEverywhere(b, c)
    ensures OnlyBlkEverywhere(a, c)
  {
  }

  /** Overwriting a record with a copy whose endpoint differs at most in
      its block uuid. */
  lemma PutOnlyBlk(db: Registry, k: string, e': Entry)
    requires db.Valid() && k in db.vals
    requires e' == db.vals[k].(agent := Agent(db.vals[k].agent.ep.(blkUuid := e'.agent.ep.blkUuid)))
    ensures OnlyBlk(db, db.Put(k, e'))
  {
  }

  /** Writing one record changes only block uuids and leaves the records of
      the later requested agents as they were. */
  lemma ReserveStepFrame(rm: ResMgr, req: Request, i: nat, l: Loc, e': Entry)
    requires rm.Valid() && req.Valid() && i < |req.keys|
    requires req.keys[i] in DbAt(rm, l).vals
    requires var e := DbAt(rm, l).vals[req.keys[i]];
             e' == e.(agent := Agent(e.agent.ep.(blkUuid := e'.agent.ep.blkUuid)))
    ensures var rm1 := SetDb(rm, l, DbAt(rm, l).Put(req.keys[i], e'));
            rm1.Valid() && OnlyBlkEverywhere(rm, rm1)
            && forall j :: i < j < |req.keys| ==> Target(rm1, req, j) == Target(rm, req, j)
  {
    var k := req.keys[i];
    PutOnlyBlk(DbAt(rm, l), k, e');
    SetDbOnlyBlk(rm, l, DbAt(rm, l).Put(k, e'));
    var rm1 := SetDb(rm, l, DbAt(rm, l).Put(k, e'));
    forall j | i < j < |req.keys| ensures Target(rm1, req, j) == Target(rm, req, j) {
      assert req.keys[j] != k;
      SetDbElsewhere(rm, l, k, e', req, j);
    }
  }

  /** Replacing one registry by a copy that differs in block uuids only. */
  lemma SetDbOnlyBlk(rm: ResMgr, l: Loc, db: Registry)
    requires rm.Valid() && db.Valid() && OnlyBlk(DbAt(rm, l), db)
    ensures SetDb(rm, l, db).Valid() && OnlyBlkEverywhere(rm, SetDb(rm, l, db))
  {
  }

  /** Writing one key leaves what the other requested agents resolve to. */
  lemma SetDbElsewhere(rm: ResMgr, l: Loc, k: string, e': Entry, req: Request, j: nat)
    requires rm.Valid() && req.Valid() && j < |req.keys| && req.keys[j] != k
    ensures Target(SetDb(rm, l, DbAt(rm, l).Put(k, e')), req, j) == Target(rm, req, j)
  {
  }

  /** `reserve` with the intended not-registered test. */
  function Reserve(rm: ResMgr, req: Request, myUuid: string, rpc: map<string, string>): (r: Run<seq<Endpoint>>)
    requires rm.Valid() && req.Valid()
    ensures r.rm.Valid() && OnlyBlkEverywhere(rm, r.rm)
    ensures r.result.Ok? ==> |r.result.value| == |req.keys|
    ensures r.result.Ok? ==> forall j :: 0 <= j < |req.keys| ==>
              Target(rm, req, j).Some? && IsRegistered(Target(rm, req, j).value.state)
              && r.result.value[j] == Zeroed(Target(rm, req, j).value.agent.ep, myUuid)
    ensures r.result.Ok? ==> forall j :: 0 <= j < |req.keys| ==> req.keys[j] !in rpc
  {
    var r := ReserveFrom(rm, req, 0, myUuid, rpc, Enforced);
    assert r.result.Ok? ==> forall j :: 0 <= j < |req.keys| ==> r.result.value[j] == r.result.value[j - 0];
    r
  }

  /** `reserve` as written: the not-registered test has no effect. */
  function ReserveAsWritten(rm: ResMgr, req: Request, myUuid: string, rpc: map<string, string>)
    : (r: Run<seq<Endpoint>>)
    requires rm.Valid() && req.Valid()
    ensures r.rm.Valid() && OnlyBlkEverywhere(rm, r.rm)
    ensures r.result.Ok? ==> |r.result.value| == |req.keys|
    ensures r.result.Ok? ==> forall j :: 0 <= j < |req.keys| ==>
              Target(rm, req, j).Some? && r.result.value[j] == Zeroed(Target(rm, req, j).value.agent.ep, myUuid)
    ensures r.result.Ok? ==> forall j :: 0 <= j < |req.keys| ==> req.keys[j] !in rpc
  {
    var r := ReserveFrom(rm, req, 0, myUuid, rpc, Ignored);
    assert r.result.Ok? ==> forall j :: 0 <= j < |req.keys| ==> r.result.value[j] == r.result.value[j - 0];
    r
  }

  /** An agent that never registered is reserved as written; the intended
      test refuses it. */
  lemma ReserveDiscrepancy(rm: ResMgr, k: string, svcs: seq<Svc>, myUuid: string, rpc: map<string, string>)
    requires rm.Valid() && k in rm.services.vals && !IsRegistered(rm.services.vals[k].state)
    requires k !in rpc
    ensures ReserveAsWritten(rm, OMap([k], map[k := Want(SvcLoc, svcs)]), myUuid, rpc).result.Ok?
    ensures Reserve(rm, OMap([k], map[k := Want(SvcLoc, svcs)]), myUuid, rpc).result
            == Err(Error(ReserveError, "Agent " + k + " is not registered"))
  {
    var req := OMap([k], map[k := Want(SvcLoc, svcs)]);
    assert LocOf(SvcLoc) == Some(Svcs);
    ReserveUnregisteredIgnored(rm, req, myUuid, rpc);
    ReserveUnregisteredRefused(rm, req, myUuid, rpc);
  }

  /** With the intended test, the first requested agent, found but never
      registered, is refused by name. */
  lemma ReserveUnregisteredRefused(rm: ResMgr, req: Request, myUuid: string, rpc: map<string, string>)
    requires rm.Valid() && req.Valid() && |req.keys| > 0
    requires LocOf(req.vals[req.keys[0]].loc) == Some(Svcs)
    requires req.keys[0] in rm.services.vals && !IsRegistered(rm.services.vals[req.keys[0]].state)
    ensures Reserve(rm, req, myUuid, rpc).result == Err(Error(ReserveError, "Agent " + req.keys[0] + " is not registered"))
  {
    assert Look(rm, req, 0, Enforced) == Err(Error(ReserveError, "Agent " + req.keys[0] + " is not registered"));
  }

  /** As written, the only requested agent is reserved whatever its state. */
  lemma ReserveUnregisteredIgnored(rm: ResMgr, req: Request, myUuid: string, rpc: map<string, string>)
    requires rm.Valid() && req.Valid() && |req.keys| == 1
    requires LocOf(req.vals[req.keys[0]].loc) == Some(Svcs)
    requires req.keys[0] in rm.services.vals && req.keys[0] !in rpc
    ensures ReserveFrom(rm, req, 0, myUuid, rpc, Ignored).result.Ok?
  {
    assert Look(rm, req, 0, Ignored).Ok?;
    ReserveStep(rm, req, 0, myUuid, rpc, Ignored);
    assert ReserveFrom(Reserved(rm, req, 0, myUuid, Ignored), req, 1, myUuid, rpc, Ignored).result == Ok([]);
  }

  /** The record of an agent reserved without error, and the manager that
      goes on to the next agent. */
  function Reserved(rm: ResMgr, req: Request, i: nat, myUuid: string, g: Guard): ResMgr
    requires rm.Valid() && req.Valid() && i < |req.keys| && Look(rm, req, i, g).Ok?
  {
    var (l, e) := Look(rm, req, i, g).value;
    SetDb(rm, l, DbAt(rm, l).Put(req.keys[i], e.(agent := Agent(Zeroed(e.agent.ep, myUuid)))))
  }

  /** One agent reserved without error: its consumption and reserve call
      come first, and a later error is the answer. */
  lemma ReserveStep(rm: ResMgr, req: Request, i: nat, myUuid: string, rpc: map<string, string>, g: Guard)
    requires rm.Valid() && req.Valid() && i < |req.keys| && Look(rm, req, i, g).Ok? && req.keys[i] !in rpc
    ensures Reserved(rm, req, i, myUuid, g).Valid()
    ensures var k := req.keys[i];
            var r := ReserveFrom(rm, req, i, myUuid, rpc, g);
            var rest := ReserveFrom(Reserved(rm, req, i, myUuid, g), req, i + 1, myUuid, rpc, g);
            r.events == Consumes(k, req.vals[k].services) + [ReserveRpc(k)] + rest.events
            && (rest.result.Err? ==> r.result == rest.result)
            && (rest.result.Ok? ==> r.result.Ok?)
  {
    var k := req.keys[i];
    var (l, e) := Look(rm, req, i, g).value;
    var e2 := e.(agent := Agent(Zeroed(e.agent.ep, myUuid)));
    ReserveStepFrame(rm, req, i, l, e2);
    assert Reserved(rm, req, i, myUuid, g) == SetDb(rm, l, DbAt(rm, l).Put(k, e2));
  }

  /** The reserve call of some agent from the `i`-th on raised `msg`. */
  predicate RpcRaised(req: Request, i: nat, rpc: map<string, string>, msg: string)
    requires req.Valid()
    decreases |req.keys| - i
  {
    i < |req.keys| && ((req.keys[i] in rpc && rpc[req.keys[i]] == msg) || RpcRaised(req, i + 1, rpc, msg))
  }

  /** That is, some agent from the `i`-th on raised it. */
  lemma {:induction false} RpcRaisedSome(req: Request, i: nat, rpc: map<string, string>, msg: string)
    requires req.Valid()
    ensures RpcRaised(req, i, rpc, msg) <==> exists j :: i <= j < |req.keys| && req.keys[j] in rpc && rpc[req.keys[j]] == msg
    decreases |req.keys| - i
  {
    if i < |req.keys| {
      RpcRaisedSome(req, i + 1, rpc, msg);
      if RpcRaised(req, i + 1, rpc, msg) {
        var j :| i + 1 <= j < |req.keys| && req.keys[j] in rpc && rpc[req.keys[j]] == msg;
        assert i <= j;
      }
    }
  }

  /** The lookup of a later agent is the same in a manager where it
      resolves to the same record. */
  lemma LookFrame(rm: ResMgr, rm1: ResMgr, req: Request, j: nat, g: Guard)
    requires req.Valid() && j < |req.keys| && Target(rm1, req, j) == Target(rm, req, j)
    ensures Look(rm1, req, j, g) == Look(rm, req, j, g)
  {
  }

  /** The first agent whose reserve call raises decides the answer: when
      every agent before it, and it, is looked up and let through, and no
      earlier call raises, `reserve` fails with a ReserveError carrying
      the text that call raised. */
  lemma {:induction false} ReserveFirstRaise(rm: ResMgr, req: Request, i: nat, n: nat, myUuid: string,
                                             rpc: map<string, string>, g: Guard)
    requires rm.Valid() && req.Valid() && i <= n < |req.keys|
    requires forall j :: i <= j <= n ==> Look(rm, req, j, g).Ok?
    requires forall j :: i <= j < n ==> req.keys[j] !in rpc
    requires req.keys[n] in rpc
    ensures ReserveFrom(rm, req, i, myUuid, rpc, g).result == Err(Error(ReserveError, rpc[req.keys[n]]))
    decreases n - i, 1
  {
    assert Look(rm, req, i, g).Ok?;
    if i == n {
      ReserveRaisesHere(rm, req, i, myUuid, rpc, g);
    } else {
      var rm1 := Reserved(rm, req, i, myUuid, g);
      assert rm1.Valid() && forall j :: i + 1 <= j <= n ==> Look(rm1, req, j, g).Ok? by {
        ReservedLooks(rm, req, i, myUuid, g);
      }
      ReserveFirstRaiseLater(rm, req, i, n, myUuid, rpc, g);
    }
  }

  /** The step of `ReserveFirstRaise` when the raising agent comes later:
      the `i`-th agent is reserved and the answer is that of the rest. */
  lemma {:induction false} ReserveFirstRaiseLater(rm: ResMgr, req: Request, i: nat, n: nat, myUuid: string,
                                                  rpc: map<string, string>, g: Guard)
    requires rm.Valid() && req.Valid() && i < n < |req.keys| && Look(rm, req, i, g).Ok?
    requires Reserved(rm, req, i, myUuid, g).Valid()
    requires forall j :: i + 1 <= j <= n ==> Look(Reserved(rm, req, i, myUuid, g), req, j, g).Ok?
    requires forall j :: i <= j < n ==> req.keys[j] !in rpc
    requires req.keys[n] in rpc
    ensures ReserveFrom(rm, req, i, myUuid, rpc, g).result == Err(Error(ReserveError, rpc[req.keys[n]]))
    decreases n - i, 0
  {
    ReserveFirstRaise(Reserved(rm, req, i, myUuid, g), req, i + 1, n, myUuid, rpc, g);
    ReservePassesErr(rm, req, i, myUuid, rpc, g, Error(ReserveError, rpc[req.keys[n]]));
  }

  /** An agent let through whose reserve call raises ends `reserve` with
      that call's text. */
  lemma ReserveRaisesHere(rm: ResMgr, req: Request, i: nat, myUuid: string, rpc: map<string, string>, g: Guard)
    requires rm.Valid() && req.Valid() && i < |req.keys| && Look(rm, req, i, g).Ok? && req.keys[i] in rpc
    ensures ReserveFrom(rm, req, i, myUuid, rpc, g).result == Err(Error(ReserveError, rpc[req.keys[i]]))
  {
  }

  /** An agent reserved without error passes a later error on unchanged. */
  lemma ReservePassesErr(rm: ResMgr, req: Request, i: nat, myUuid: string, rpc: map<string, string>, g: Guard,
                         err: Error)
    requires rm.Valid() && req.Valid() && i < |req.keys| && Look(rm, req, i, g).Ok? && req.keys[i] !in rpc
    requires Reserved(rm, req, i, myUuid, g).Valid()
    requires ReserveFrom(Reserved(rm, req, i, myUuid, g), req, i + 1, myUuid, rpc, g).result == Err(err)
    ensures ReserveFrom(rm, req, i, myUuid, rpc, g).result == Err(err)
  {
    ReserveStep(rm, req, i, myUuid, rpc, g);
  }

  /** Reserving one agent leaves the lookups of the later ones as they
      were. */
  lemma ReservedLooks(rm: ResMgr, req: Request, i: nat, myUuid: string, g: Guard)
    requires rm.Valid() && req.Valid() && i < |req.keys| && Look(rm, req, i, g).Ok?
    ensures Reserved(rm, req, i, myUuid, g).Valid()
    ensures forall j :: i < j < |req.keys| ==> Look(Reserved(rm, req, i, myUuid, g), req, j, g) == Look(rm, req, j, g)
  {
    var (l, e) := Look(rm, req, i, g).value;
    var e2 := e.(agent := Agent(Zeroed(e.agent.ep, myUuid)));
    ReserveStepFrame(rm, req, i, l, e2);
    var rm1 := Reserved(rm, req, i, myUuid, g);
    assert rm1 == SetDb(rm, l, DbAt(rm, l).Put(req.keys[i], e2));
    forall j | i < j < |req.keys| ensures Look(rm1, req, j, g) == Look(rm, req, j, g) {
      LookFrame(rm, rm1, req, j, g);
    }
  }

  /** Every reserve call in `evs` is immediately preceded by the capacity
      consumption of each service requested from that agent, and nothing
      but consumption and reserve calls happens. */
  ghost predicate ReservesPreceded(evs: seq<Event>, req: Request) {
    && (forall a :: 0 <= a < |evs| ==> evs[a].ConsumeCap? || evs[a].ReserveRpc?)
    && forall a :: 0 <= a < |evs| && evs[a].ReserveRpc? ==>
         evs[a].agent in req.vals && |req.vals[evs[a].agent].services| <= a
         && evs[a - |req.vals[evs[a].agent].services|..a] == Consumes(evs[a].agent, req.vals[evs[a].agent].services)
  }

  /** One agent's consumption and reserve call in front of a well-ordered
      tail keeps the order. */
  lemma PrependBlock(k: string, req: Request, tail: seq<Event>)
    requires k in req.vals && ReservesPreceded(tail, req)
    ensures ReservesPreceded(Consumes(k, req.vals[k].services) + [ReserveRpc(k)] + tail, req)
  {
    var svcs := req.vals[k].services;
    var head := Consumes(k, svcs) + [ReserveRpc(k)];
    var evs := head + tail;
    forall a | 0 <= a < |evs| && evs[a].ReserveRpc?
      ensures evs[a].agent in req.vals && |req.vals[evs[a].agent].services| <= a
              && evs[a - |req.vals[evs[a].agent].services|..a] == Consumes(evs[a].agent, req.vals[evs[a].agent].services)
    {
      if a < |head| {
        assert evs[a - |svcs|..a] == Consumes(k, svcs);
      } else {
        var b := a - |head|;
        assert tail[b] == evs[a];
        var n := |req.vals[evs[a].agent].services|;
        SliceOfAppend(head, tail, b - n, b);
      }
    }
  }

  /** The events of `reserve`: every reserve call is immediately preceded by
      the capacity consumption of each service requested from that agent,
      and nothing is released or undone. */
  lemma {:induction false} ReserveEventsOrdered(rm: ResMgr, req: Request, i: nat, myUuid: string,
                                                rpc: map<string, string>, g: Guard)
    requires rm.Valid() && req.Valid() && i <= |req.keys|
    ensures ReservesPreceded(ReserveFrom(rm, req, i, myUuid, rpc, g).events, req)
    decreases |req.keys| - i
  {
    if i < |req.keys| && Look(rm, req, i, g).Ok? {
      var k := req.keys[i];
      if k in rpc {
        ReserveRaisedOrdered(rm, req, i, myUuid, rpc, g);
      } else {
        var rm1 := Reserved(rm, req, i, myUuid, g);
        ReserveStep(rm, req, i, myUuid, rpc, g);
        ReserveEventsOrdered(rm1, req, i + 1, myUuid, rpc, g);
        PrependBlock(k, req, ReserveFrom(rm1, req, i + 1, myUuid, rpc, g).events);
      }
    } else {
      ReserveStopsQuiet(rm, req, i, myUuid, rpc, g);
    }
  }

  /** A reserve call that raises ends the events with that agent's block. */
  lemma ReserveRaisedOrdered(rm: ResMgr, req: Request, i: nat, myUuid: string, rpc: map<string, string>, g: Guard)
    requires rm.Valid() && req.Valid() && i < |req.keys| && Look(rm, req, i, g).Ok? && req.keys[i] in rpc
    ensures ReservesPreceded(ReserveFrom(rm, req, i, myUuid, rpc, g).events, req)
  {
    var k := req.keys[i];
    PrependBlock(k, req, []);
    assert Consumes(k, req.vals[k].services) + [ReserveRpc(k)] + [] == ReserveFrom(rm, req, i, myUuid, rpc, g).events;
  }

  /** Past the last agent, or at one the lookup refuses, nothing happens. */
  lemma ReserveStopsQuiet(rm: ResMgr, req: Request, i: nat, myUuid: string, rpc: map<string, string>, g: Guard)
    requires rm.Valid() && req.Valid() && i <= |req.keys|
    requires !(i < |req.keys| && Look(rm, req, i, g).Ok?)
    ensures ReserveFrom(rm, req, i, myUuid, rpc, g).events == []
  {
  }

  lemma SliceOfAppend<T>(x: seq<T>, y: seq<T>, p: int, q: int)
    requires 0 <= p <= q <= |y|
    ensures (x + y)[|x| + p..|x| + q] == y[p..q]
  {
  }

  /** `release` from the `i`-th requested agent on: every agent is looked
      up in the services registry whatever registry the request names, the
      not-registered test applies, each service's capacity is released and
      then the agent's release call is made; a raising call becomes a
      ReserveError with its text. The registries do not change. */
  function ReleaseFrom(rm: ResMgr, req: Request, i: nat, rpc: map<string, string>, g: Guard): (r: Run<()>)
    requires rm.Valid() && req.Valid() && i <= |req.keys|
    ensures r.rm == rm
    ensures forall a :: 0 <= a < |r.events| ==> r.events[a].ReleaseCap? || r.events[a].ReleaseRpc?
    ensures r.result.Ok? ==> forall j :: i <= j < |req.keys| ==> req.keys[j] in rm.services.vals && req.keys[j] !in rpc
    ensures r.result.Ok? && g == Enforced ==> forall j :: i <= j < |req.keys| ==>
              IsRegistered(rm.services.vals[req.keys[j]].state)
    ensures r.result.Ok? ==> |r.events| == |req.keys| - i + SvcCount(req, i)
    ensures r.result.Err? && r.result.error.kind == ReserveError && g != Enforced ==>
              RpcRaised(req, i, rpc, r.result.error.msg)
    decreases |req.keys| - i
  {
    if i == |req.keys| then Run(rm, [], Ok(()))
    else
      var k := req.keys[i];
      if k !in rm.services.vals then Run(rm, [], Err(Error(KeyError, k)))
      else
        var e := rm.services.vals[k];
        if !IsRegistered(e.state) && GuardError(g, k).Some? then Run(rm, [], Err(GuardError(g, k).value))
        else
          var evs := Releases(k, req.vals[k].services) + [ReleaseRpc(k)];
          if k in rpc then Run(rm, evs, Err(Error(ReserveError, rpc[k])))
          else
            var rest := ReleaseFrom(rm, req, i + 1, rpc, g);
            Run(rm, evs + rest.events, rest.result)
  }

  /** The `j`-th requested agent is in the services registry and the
      not-registered test lets it through. */
  predicate ReleasePasses(rm: ResMgr, req: Request, j: nat, g: Guard)
    requires req.Valid() && j < |req.keys|
  {
    req.keys[j] in rm.services.vals
    && (IsRegistered(rm.services.vals[req.keys[j]].state) || GuardError(g, req.keys[j]).None?)
  }

  /** The first agent whose release call raises decides the answer: when
      every agent before it, and it, passes the lookup and the test, and no
      earlier call raises, `release` fails with a ReserveError carrying the
      text that call raised. */
  lemma {:induction false} ReleaseFirstRaise(rm: ResMgr, req: Request, i: nat, n: nat,
                                             rpc: map<string, string>, g: Guard)
    requires rm.Valid() && req.Valid() && i <= n < |req.keys|
    requires forall j :: i <= j <= n ==> ReleasePasses(rm, req, j, g)
    requires forall j :: i <= j < n ==> req.keys[j] !in rpc
    requires req.keys[n] in rpc
    ensures ReleaseFrom(rm, req, i, rpc, g).result == Err(Error(ReserveError, rpc[req.keys[n]]))
    decreases n - i
  {
    assert ReleasePasses(rm, req, i, g);
    if i < n {
      ReleaseFirstRaise(rm, req, i + 1, n, rpc, g);
    }
  }

  /** Every release call in `evs` is immediately preceded by the capacity
      release of each service requested from that agent, and nothing but
      capacity releases and release calls happens. */
  ghost predicate ReleasesPreceded(evs: seq<Event>, req: Request) {
    && (forall a :: 0 <= a < |evs| ==> evs[a].ReleaseCap? || evs[a].ReleaseRpc?)
    && forall a :: 0 <= a < |evs| && evs[a].ReleaseRpc? ==>
         evs[a].agent in req.vals && |req.vals[evs[a].agent].services| <= a
         && evs[a - |req.vals[evs[a].agent].services|..a] == Releases(evs[a].agent, req.vals[evs[a].agent].services)
  }

  /** One agent's capacity releases and release call in front of a
      well-ordered tail keeps the order. */
  lemma PrependRelease(k: string, req: Request, tail: seq<Event>)
    requires k in req.vals && ReleasesPreceded(tail, req)
    ensures ReleasesPreceded(Releases(k, req.vals[k].services) + [ReleaseRpc(k)] + tail, req)
  {
    var svcs := req.vals[k].services;
    var head := Releases(k, svcs) + [ReleaseRpc(k)];
    var evs := head + tail;
    forall a | 0 <= a < |evs| && evs[a].ReleaseRpc?
      ensures evs[a].agent in req.vals && |req.vals[evs[a].agent].services| <= a
              && evs[a - |req.vals[evs[a].agent].services|..a] == Releases(evs[a].agent, req.vals[evs[a].agent].services)
    {
      if a < |head| {
        assert evs[a - |svcs|..a] == Releases(k, svcs);
      } else {
        var b := a - |head|;
        assert tail[b] == evs[a];
        var n := |req.vals[evs[a].agent].services|;
        SliceOfAppend(head, tail, b - n, b);
      }
    }
  }

  /** The events of `release`: every release call is immediately preceded
      by the capacity release of each service requested from that agent,
      and nothing is consumed or reserved. */
  lemma {:induction false} ReleaseEventsOrdered(rm: ResMgr, req: Request, i: nat, rpc: map<string, string>, g: Guard)
    requires rm.Valid() && req.Valid() && i <= |req.keys|
    ensures ReleasesPreceded(ReleaseFrom(rm, req, i, rpc, g).events, req)
    decreases |req.keys| - i
  {
    if i < |req.keys| && ReleasePasses(rm, req, i, g) {
      var k := req.keys[i];
      if k in rpc {
        PrependRelease(k, req, []);
        assert Releases(k, req.vals[k].services) + [ReleaseRpc(k)] + [] == ReleaseFrom(rm, req, i, rpc, g).events;
      } else {
        ReleaseEventsOrdered(rm, req, i + 1, rpc, g);
        PrependRelease(k, req, ReleaseFrom(rm, req, i + 1, rpc, g).events);
      }
    }
  }

  /** How many services the agents from the `i`-th on ask for. */
  function SvcCount(req: Request, i: nat): nat
    requires req.Valid() && i <= |req.keys|
    decreases |req.keys| - i
  {
    if i == |req.keys| then 0 else |req.vals[req.keys[i]].services| + SvcCount(req, i + 1)
  }

  /** `release` with the intended not-registered test. */
  function Release(rm: ResMgr, req: Request, rpc: map<string, string>): (r: Run<()>)
    requires rm.Valid() && req.Valid()
    ensures r.rm == rm
    ensures r.result.Ok? ==> forall j :: 0 <= j < |req.keys| ==>
              req.keys[j] in rm.services.vals && IsRegistered(rm.services.vals[req.keys[j]].state)
              && req.keys[j] !in rpc
    ensures r.result.Ok? ==> |r.events| == |req.keys| + SvcCount(req, 0)
  {
    ReleaseFrom(rm, req, 0, rpc, Enforced)
  }

  /** `release` as written: releasing an agent that is not registered
      raises NameError while building the message. */
  function ReleaseAsWritten(rm: ResMgr, req: Request, rpc: map<string, string>): (r: Run<()>)
    requires rm.Valid() && req.Valid()
    ensures r.rm == rm
    ensures r.result.Ok? ==> forall j :: 0 <= j < |req.keys| ==> req.keys[j] in rm.services.vals && req.keys[j] !in rpc
  {
    ReleaseFrom(rm, req, 0, rpc, Undefined)
  }

  /** Releasing an agent that never registered fails as written with a
      NameError instead of the ReserveError the test means to raise. */
  lemma ReleaseDiscrepancy(rm: ResMgr, k: string, w: Want, rpc: map<string, string>)
    requires rm.Valid() && k in rm.services.vals && !IsRegistered(rm.services.vals[k].state)
    ensures ReleaseAsWritten(rm, OMap([k], map[k := w]), rpc).result == Err(Error(NameError, "name 'f' is not defined"))
    ensures Release(rm, OMap([k], map[k := w]), rpc).result == Err(Error(ReserveError, "Agent " + k + " is not registered"))
  {
  }
}
