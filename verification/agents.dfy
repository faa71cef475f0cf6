/** Endpoints, the reply checks of a request to an agent, and the view of
    all connected agents (python/infra/defw_agent.py). The native agent
    list is given as the sequence of records its enumeration produced. */
module Agents {
  import opened Wrappers
  import opened OrderedMaps
  import opened Values
  import opened Exceptions
  import opened Envelopes

  /** The node type of an endpoint; `Unknown` is any other code. */
  datatype NodeType = Resmgr | Service | AgentNode | Unknown(code: int)

  predicate KnownType(t: NodeType) {
    !t.Unknown?
  }

  datatype Endpoint = Endpoint(
    addr: string, port: int, listenPort: int, pid: int, name: string, hostname: string,
    nodeType: NodeType, remoteUuid: string, blkUuid: string)

  /** `str(uuid.UUID(int=0))`, the default block uuid. */
  const ZeroUuid := "00000000-0000-0000-0000-000000000000"

  /** The `Endpoint` constructor: an unknown node type raises. */
  function NewEndpoint(addr: string, port: int, listenPort: int, pid: int, name: string,
                       hostname: string, nodeType: NodeType, remoteUuid: string,
                       blkUuid: string): (r: Result<Endpoint, Error>)
    ensures r.Ok? <==> KnownType(nodeType)
    ensures r.Err? ==> r.error == Error(Base, "Unknown node type provided: ")
    ensures r.Ok? ==> r.value.nodeType == nodeType && r.value.remoteUuid == remoteUuid
                      && r.value.name == name && r.value.blkUuid == blkUuid
  {
    if !KnownType(nodeType) then Err(Error(Base, "Unknown node type provided: "))
    else Ok(Endpoint(addr, port, listenPort, pid, name, hostname, nodeType, remoteUuid, blkUuid))
  }

  /** `node_type2str`. */
  function NodeTypeToStr(t: NodeType): (r: Result<string, Error>)
    ensures r.Ok? <==> KnownType(t)
  {
    match t
    case Resmgr => Ok("RESMGR")
    case AgentNode => Ok("AGENT")
    case Service => Ok("SERVICE")
    case Unknown(_) => Err(Error(Base, "Unknown node type provided: "))
  }

  /** The inverse reading of a node-type name. */
  function StrToNodeType(s: string): Option<NodeType> {
    if s == "RESMGR" then Some(Resmgr)
    else if s == "AGENT" then Some(AgentNode)
    else if s == "SERVICE" then Some(Service)
    else None
  }

  /** The three known types and their names correspond one to one. */
  lemma NodeTypeNames(t: NodeType, s: string)
    ensures NodeTypeToStr(t) == Ok(s) <==> StrToNodeType(s) == Some(t)
  {
  }

  /** Anything an endpoint can be compared with: an endpoint or some other
      value. */
  datatype Obj = AnEndpoint(ep: Endpoint) | NotEndpoint(v: Value)

  /** `Endpoint.__eq__`: another endpoint with the same remote uuid; never a
      value of another type. The native uuid comparison is equality of the
      uuid strings. */
  function EndpointEq(self: Endpoint, other: Obj): (b: bool)
    ensures other.NotEndpoint? ==> !b
    ensures other == AnEndpoint(self) ==> b
  {
    other.AnEndpoint? && self.remoteUuid == other.ep.remoteUuid
  }

  /** Endpoint equality looks only at remote uuids. */
  lemma EqualityByUuid(a: Endpoint, b: Endpoint, x: Obj)
    requires a.remoteUuid == b.remoteUuid
    ensures EndpointEq(a, x) == EndpointEq(b, x)
    ensures EndpointEq(a, AnEndpoint(b)) && EndpointEq(b, AnEndpoint(a))
  {
  }

  /** Python's `x == ep` for the caller's endpoint `ep`: a reflected
      comparison when `x` is not an endpoint, which is false. */
  predicate ObjEq(x: Obj, ep: Endpoint) {
    match x
    case AnEndpoint(e) => EndpointEq(e, AnEndpoint(ep))
    case NotEndpoint(_) => false
  }

  // ---------------------------------------------------------------------
  // Agent.send_req
  // ---------------------------------------------------------------------

  /** `%s` of an object: for an endpoint, `str()` falls back to its
      `__repr__`, the YAML dump of its `get()` mapping; the rendering is
      taken as given. */
  type Show = Obj -> string

  /** The message of a reply addressed to another node. */
  function Misaddressed(dst: Obj, caller: Endpoint, show: Show): string {
    "MSG intended to " + show(dst) + " but I am " + show(AnEndpoint(caller))
  }

  /** The message of a reply from another node than the target. */
  function Misrouted(src: Obj, target: Endpoint, show: Show): string {
    "MSG originated from " + show(src) + " but expected from " + target.name
  }

  /** What `send_req` does with the reply `reply` to a request from `caller`
      to `target`; building and transporting the request is not modelled,
      the reply is an input. The reply's destination must equal the caller
      and its source the target, in that order of checking; then the reply
      type decides. */
  function SendReq(mname: Value, caller: Endpoint, target: Endpoint, blocking: bool,
                   reply: Response<Obj>, show: Show): (r: Result<Value, Error>)
    ensures !Truthy(mname) ==> r == Err(Error(Base, "A method or a function name need to be specified"))
    ensures Truthy(mname) && !blocking ==> r == Ok(VInt(0))
    ensures Truthy(mname) && blocking && !ObjEq(reply.dst, caller) ==>
              r == Err(Error(Base, Misaddressed(reply.dst, caller, show)))
    ensures Truthy(mname) && blocking && ObjEq(reply.dst, caller) && !ObjEq(reply.src, target) ==>
              r == Err(Error(Base, Misrouted(reply.src, target, show)))
    ensures Truthy(mname) && blocking && ObjEq(reply.dst, caller) && ObjEq(reply.src, target) && reply.rtype == "failure"
            ==> r == Err(Error(RemoteError, "RPC failure"))
    ensures r.Ok? && blocking ==> r.value == reply.rc && reply.rtype != "failure" && reply.rtype != "exception"
  {
    if !Truthy(mname) then Err(Error(Base, "A method or a function name need to be specified"))
    else if !blocking then Ok(VInt(0))
    else if !ObjEq(reply.dst, caller) then Err(Error(Base, Misaddressed(reply.dst, caller, show)))
    else if !ObjEq(reply.src, target) then Err(Error(Base, Misrouted(reply.src, target, show)))
    else if reply.rtype == "failure" then Err(Error(RemoteError, "RPC failure"))
    else if reply.rtype == "exception" then
      match reply.exception
      case None => Err(Error(KeyError, "exception"))
      case Some(ExcStr(s)) => Err(Error(RemoteError, s))
      case Some(ExcObj(e)) => Err(e)
    else Ok(reply.rc)
  }
  /** A correctly addressed reply built by `populate_rpc_rsp` gives the
      remote return code when no exception was sent, a RemoteError with the
      text of a message, and the remote error itself otherwise. */
  lemma SendReqRoundTrip(mname: Value, caller: Endpoint, target: Endpoint, from: Endpoint, to: Endpoint,
                         rc: Value, exception: Option<Exc>, now: Value, show: Show)
    requires Truthy(mname)
    requires from.remoteUuid == target.remoteUuid && to.remoteUuid == caller.remoteUuid
    ensures var reply := PopulateRpcRsp(AnEndpoint(from), AnEndpoint(to), rc, exception, now);
            var r := SendReq(mname, caller, target, true, reply, show);
            && (!(exception.Some? && ExcTruthy(exception.value)) ==> r == Ok(rc))
            && (exception.Some? && exception.value.ExcStr? && ExcTruthy(exception.value) ==>
                  r == Err(Error(RemoteError, exception.value.s)))
            && (exception.Some? && exception.value.ExcObj? ==> r == Err(exception.value.e))
  {
  }

  /** A reply addressed to another node is refused whatever it carries,
      naming where it was sent and who received it. */
  lemma SendReqMisaddressed(mname: Value, caller: Endpoint, target: Endpoint, to: Endpoint,
                            reply: Response<Obj>, show: Show)
    requires Truthy(mname) && reply.dst == AnEndpoint(to) && to.remoteUuid != caller.remoteUuid
    ensures SendReq(mname, caller, target, true, reply, show)
            == Err(Error(Base, "MSG intended to " + show(AnEndpoint(to)) + " but I am " + show(AnEndpoint(caller))))
  {
  }

  /** A reply to the caller from another node than the target is refused,
      naming its source and the target's name. */
  lemma SendReqMisrouted(mname: Value, caller: Endpoint, target: Endpoint, from: Endpoint,
                         reply: Response<Obj>, show: Show)
    requires Truthy(mname) && reply.dst == AnEndpoint(caller)
    requires reply.src == AnEndpoint(from) && from.remoteUuid != target.remoteUuid
    ensures SendReq(mname, caller, target, true, reply, show)
            == Err(Error(Base, "MSG originated from " + show(AnEndpoint(from)) + " but expected from " + target.name))
  {
  }

  // ---------------------------------------------------------------------
  // IfwAgents
  // ---------------------------------------------------------------------

  /** What the native enumeration hands over for one agent. */
  datatype Record = Record(addr: string, port: int, listenPort: int, pid: int, name: string,
                           hostname: string, nodeType: NodeType, remoteUuid: string, blkUuid: string)

  datatype Agent = Agent(ep: Endpoint)

  /** The agent view: name to agent in enumeration order, the number of
      entries `max`, and the iteration cursor `n`. */
  datatype View = View(agents: OMap<string, Agent>, max: nat, n: nat)
  {
    ghost predicate Valid() {
      agents.Valid() && max == |agents.keys|
    }
  }

  function RecordEndpoint(rec: Record): Result<Endpoint, Error> {
    NewEndpoint(rec.addr, rec.port, rec.listenPort, rec.pid, rec.name, rec.hostname,
                rec.nodeType, rec.remoteUuid, rec.blkUuid)
  }

  /** The enumeration loop of `reload` from view `v`: each record becomes an
      agent under its name, a new name counting once. A record the
      `Endpoint` constructor refuses ends the loop like any other raised
      exception, and what was built so far is kept. */
  function ReloadFrom(v: View, recs: seq<Record>): (r: View)
    requires v.Valid()
    ensures r.Valid() && r.n == v.n
    decreases |recs|
  {
    if |recs| == 0 then v
    else
      match RecordEndpoint(recs[0])
      case Err(_) => v
      case Ok(ep) =>
        var name := recs[0].name;
        var grown := if name in v.agents.vals then v.max else v.max + 1;
        ReloadFrom(View(v.agents.Put(name, Agent(ep)), grown, v.n), recs[1..])
  }

  /** `reload`: the view is rebuilt from empty. The enumeration either ends
      or raises after `recs`; both keep what was built. */
  function Reload(v: View, recs: seq<Record>): (r: View)
    ensures r.Valid()
  {
    ReloadFrom(View(Empty(), 0, v.n), recs)
  }

  /** Records up to the first refused one. */
  function Accepted(recs: seq<Record>): (k: nat)
    ensures k <= |recs|
    ensures forall i :: 0 <= i < k ==> KnownType(recs[i].nodeType)
    ensures k < |recs| ==> !KnownType(recs[k].nodeType)
  {
    if |recs| == 0 || !KnownType(recs[0].nodeType) then 0 else 1 + Accepted(recs[1..])
  }

  /** Everything after a refused record is ignored. */
  lemma {:induction false} ReloadStopsAtRefused(v: View, recs: seq<Record>)
    requires v.Valid()
    ensures ReloadFrom(v, recs) == ReloadFrom(v, recs[..Accepted(recs)])
    decreases |recs|
  {
    if |recs| > 0 && KnownType(recs[0].nodeType) {
      var ep := RecordEndpoint(recs[0]).value;
      var name := recs[0].name;
      var v' := View(v.agents.Put(name, Agent(ep)), if name in v.agents.vals then v.max else v.max + 1, v.n);
      ReloadStopsAtRefused(v', recs[1..]);
      assert recs[..Accepted(recs)][1..] == recs[1..][..Accepted(recs[1..])];
    }
  }

  /** The name of each accepted record maps to the agent of the last
      accepted record with that name. */
  lemma {:induction false} ReloadLastWins(v: View, recs: seq<Record>, j: int)
    requires v.Valid()
    requires 0 <= j < Accepted(recs)
    requires forall i :: j < i < Accepted(recs) ==> recs[i].name != recs[j].name
    ensures ReloadFrom(v, recs).agents.Get(recs[j].name) == Some(Agent(RecordEndpoint(recs[j]).value))
    decreases |recs|
  {
    var ep := RecordEndpoint(recs[0]).value;
    var name := recs[0].name;
    var v' := View(v.agents.Put(name, Agent(ep)), if name in v.agents.vals then v.max else v.max + 1, v.n);
    if j == 0 {
      ReloadFrame(v', recs[1..], name);
    } else {
      assert recs[1..][j - 1] == recs[j];
      ReloadLastWins(v', recs[1..], j - 1);
    }
  }

  /** Records for other names leave a name's entry alone. */
  lemma {:induction false} ReloadFrame(v: View, recs: seq<Record>, name: string)
    requires v.Valid()
    requires forall i :: 0 <= i < Accepted(recs) ==> recs[i].name != name
    ensures ReloadFrom(v, recs).agents.Get(name) == v.agents.Get(name)
    decreases |recs|
  {
    if |recs| > 0 && KnownType(recs[0].nodeType) {
      var ep := RecordEndpoint(recs[0]).value;
      var n0 := recs[0].name;
      var v' := View(v.agents.Put(n0, Agent(ep)), if n0 in v.agents.vals then v.max else v.max + 1, v.n);
      forall i | 0 <= i < Accepted(recs[1..]) ensures recs[1..][i].name != name {
        assert recs[1..][i] == recs[i + 1];
      }
      ReloadFrame(v', recs[1..], name);
    }
  }

  /** `__getitem__`: a missing name raises. */
  function GetItem(v: View, key: string): (r: Result<Agent, Error>)
    ensures r.Ok? <==> key in v.agents.vals
    ensures r.Ok? ==> v.agents.Get(key) == Some(r.value)
    ensures r.Err? ==> r.error == Error(Base, "no entry for")
  {
    if key in v.agents.vals then Ok(v.agents.vals[key]) else Err(Error(Base, "no entry for"))
  }

  /** `__next__`: the entry at the cursor, or StopIteration after `max`
      entries. */
  function Next(v: View): (r: (View, Result<(string, Agent), Error>))
    requires v.Valid()
    ensures r.0.Valid() && r.0.agents == v.agents
    ensures r.1.Ok? <==> v.n < v.max
    ensures r.1.Ok? ==> r.0.n == v.n + 1 && r.1.value.0 == v.agents.keys[v.n]
    ensures r.1.Err? ==> r.1.error.kind == StopIteration && r.0 == v
  {
    if v.n < v.max then
      var key := v.agents.keys[v.n];
      (v.(n := v.n + 1), Ok((key, v.agents.vals[key])))
    else (v, Err(Error(StopIteration, "")))
  }

  /** Everything `__next__` yields from the cursor on, until StopIteration. */
  function Drain(v: View): (items: seq<(string, Agent)>)
    requires v.Valid()
    ensures |items| == if v.n < v.max then v.max - v.n else 0
    decreases v.max - v.n
  {
    var (v', r) := Next(v);
    if r.Err? then [] else [r.value] + Drain(v')
  }

  /** Iterating from `__iter__` yields every entry once, in insertion
      order: exactly `max` of them. */
  lemma {:induction false} IterateAll(v: View)
    requires v.Valid() && v.n <= v.max
    ensures |Drain(v)| == v.max - v.n
    ensures forall i :: 0 <= i < |Drain(v)| ==>
              Drain(v)[i] == (v.agents.keys[v.n + i], v.agents.vals[v.agents.keys[v.n + i]])
    decreases v.max - v.n
  {
    if v.n < v.max {
      var v' := v.(n := v.n + 1);
      IterateAll(v');
      forall i | 0 <= i < |Drain(v)|
        ensures Drain(v)[i] == (v.agents.keys[v.n + i], v.agents.vals[v.agents.keys[v.n + i]])
      {
        if i > 0 {
          assert Drain(v)[i] == Drain(v')[i - 1];
        }
      }
    }
  }

  /** `get_resmgr` after the reload: the endpoint of the first agent in
      order that is a resource manager, or nothing. */
  function FirstResmgr(agents: OMap<string, Agent>, i: nat): (r: Option<Endpoint>)
    requires agents.Valid() && i <= |agents.keys|
    ensures r.Some? ==> r.value.nodeType == Resmgr
    ensures r.None? ==> forall j :: i <= j < |agents.keys| ==> agents.vals[agents.keys[j]].ep.nodeType != Resmgr
    ensures r.Some? ==> exists j :: i <= j < |agents.keys| && agents.vals[agents.keys[j]].ep == r.value
                          && forall l :: i <= l < j ==> agents.vals[agents.keys[l]].ep.nodeType != Resmgr
    decreases |agents.keys| - i
  {
    if i == |agents.keys| then None
    else
      var ep := agents.vals[agents.keys[i]].ep;
      if ep.nodeType == Resmgr then Some(ep) else FirstResmgr(agents, i + 1)
  }

  /** `get_resmgr`: reload, then the first resource manager in order. */
  function GetResmgr(v: View, recs: seq<Record>): (r: Option<Endpoint>)
    ensures var a := Reload(v, recs).agents;
            && (r.Some? ==> r.value.nodeType == Resmgr && exists k :: k in a.vals && a.vals[k].ep == r.value)
            && (r.None? ==> forall k :: k in a.vals ==> a.vals[k].ep.nodeType != Resmgr)
  {
    var a := Reload(v, recs).agents;
    FirstResmgrIsAgent(a);
    FirstResmgr(a, 0)
  }

  lemma FirstResmgrIsAgent(a: OMap<string, Agent>)
    requires a.Valid()
    ensures var r := FirstResmgr(a, 0);
            && (r.Some? ==> exists k :: k in a.vals && a.vals[k].ep == r.value)
            && (r.None? ==> forall k :: k in a.vals ==> a.vals[k].ep.nodeType != Resmgr)
  {
    var r := FirstResmgr(a, 0);
    if r.Some? {
      var j :| 0 <= j < |a.keys| && a.vals[a.keys[j]].ep == r.value
               && forall l :: 0 <= l < j ==> a.vals[a.keys[l]].ep.nodeType != Resmgr;
      assert a.keys[j] in a.vals;
    } else {
      forall k | k in a.vals ensures a.vals[k].ep.nodeType != Resmgr {
        var j :| 0 <= j < |a.keys| && a.keys[j] == k;
      }
    }
  }

}
