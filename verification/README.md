# DEFw quantum-platform core, modelled in Dafny

DEFw is a distributed execution framework. Its quantum side runs
Quantum Platform Manager (QPM) services, and each one fronts one simulator
or one cloud provider. A client creates a circuit through a QPM, and the
QPM's scheduler gives that circuit process slots from the service's host
pool. An executor (QRC) then launches the simulator with a composed command
line, or submits the circuit over HTTP, and reads the result histogram out
of the output. A Resource Manager keeps the registries of agents and their
services, and it brokers reservations.

This project models that core as pure functions over immutable data. The
same Dafny files state and prove what the code promises.

| file | module | what it models |
|---|---|---|
| `capacity.dfy` | `Capacity` | the host pool: `consume_resources` (greedy draining in key order, restore on failure) and `free_resources` |
| `scheduler.dfy` | `Scheduler` | `UTIL_QPM`: pool setup from the host list, circuit table, `common_run`, `sync_run`, `async_run`, `read_cq`/`peek_cq`, and the IBMQ overrides |
| `host_list.dfy` | `HostList` | `expand_host_list` (`node[01-03,7]`) |
| `ibmq_qpm.dfy` | `IbmqQpm` | `load_ibmq_env_yaml` |
| `ibmq_qrc.dfy` | `IbmqQrc` | IBM Quantum executor: proxy configuration, job-state normalisation, error formatting, hexadecimal samples to bitstrings, histograms, the finalisation of a job and the poll pass over the active jobs |
| `resmgr.dfy` | `ResMgr` | Resource Manager: registries and state flags, `deregister`, `get_services`, `reserve`, `release` |
| `agents.dfy` | `Agents` | endpoints, node types, request reply checks, the agent iterator, `get_resmgr` |
| `common_def.dfy` | `Envelopes` | RPC envelopes, the global class table, preference loading |
| `metrics.dfy` | `Metrics` | `RPCMetrics` windows and extrema |
| `exceptions.dfy` | `Exceptions` | the error family and the ten-field error record that crosses nodes |
| `launcher.dfy` | `Launcher` | what the simulator executors share when composing a command line |
| `nwqsim.dfy`, `tnqvm.dfy`, `qiskitaer.dfy`, `qtensor.dfy`, `ionq.dfy`, `qaoarunner.dfy` | one per backend | each backend's `parse_result` and `form_cmd` |
| `counts_line.dfy` | `CountsLine` | the `parse_result` that Qiskit Aer, QTensor and IonQ share character for character |
| `strings.dfy`, `numerals.dfy`, `render.dfy`, `values.dfy`, `ordered_maps.dfy`, `lists.dfy`, `seqs.dfy`, `wrappers.dfy` | support | Python `str` methods, `int()`/`str()`/`format()`, `repr`, dynamic values, insertion-ordered dicts, list filtering, `Result`/`Option` |

Modelling choices:
- Every Python exception becomes an `Error(kind, message)` in a `Result`.
- A Python `dict` whose order matters becomes an `OMap`: a map plus its key
  order.
- Every call into code that is not modelled is an input. This covers the
  environment, files, subprocess output, HTTP replies, the circuit class,
  UUIDs and the native agent API.
- `MAX_PPN` is a parameter (`maxPpn`), because `util_circuit` is not part of
  this model.

## Model

| member | source | states |
|---|---|---|
| Capacity.TruncDiv | python/services/util/qpm/util_qpm.py:59 | `int(np / MAX_PPN)` truncates toward zero: for non-negative `np` the quotient is the largest `q` with `q*MAX_PPN <= np`, and for negative `np` it is the smallest `q` with `q*MAX_PPN >= np` |
| Capacity.HostsNeeded | python/services/util/qpm/util_qpm.py:58-62 | the number of hosts asked for is never 0; it is 1 for every request below two full hosts; at or above `MAX_PPN` it is the number of whole hosts the request fills |
| Capacity.QuotientBounds | python/services/util/qpm/util_qpm.py:59-61 | the truncated quotient is 0 strictly between `-MAX_PPN` and `MAX_PPN`, 1 from one up to two full hosts, and at least 1 from one full host on |
| Capacity.Consume | python/services/util/qpm/util_qpm.py:56-93 | `consume_resources` keeps the pool's host list. On failure it raises OutOfResources and leaves the pool exactly as it was. On success the amounts taken sum to `np`, come only from tracked hosts, and each host's free count drops by exactly what was taken from it |
| Capacity.Walked | python/services/util/qpm/util_qpm.py:70-86 | the draining loop keeps its invariant: every visited host has its pre-call count saved, no slot is lost or created, and the hosts taken from are listed once each |
| Capacity.Drain | python/services/util/qpm/util_qpm.py:70-86 | the host loop never adds or drops a tracked host |
| Capacity.RestoreAll | python/services/util/qpm/util_qpm.py:87-90 | writing the saved counts back over the drained counts gives the pool from before the call |
| Capacity.DrainFacts | python/services/util/qpm/util_qpm.py:73-86 | the loop invariant holds from the first host through the last |
| Capacity.StepKeeps | python/services/util/qpm/util_qpm.py:74-86 | one iteration keeps the invariant for the hosts still to visit |
| Capacity.DrainFrame | python/services/util/qpm/util_qpm.py:73-86 | the loop neither changes nor takes from a host it does not visit |
| Capacity.DrainLeft | python/services/util/qpm/util_qpm.py:73-87 | on a pool with no negative counts, what the loop leaves unmet is the request minus all free slots, floored at 0; no count goes negative |
| Capacity.DrainShares | python/services/util/qpm/util_qpm.py:77-86 | host `j` gives `min(free, need)`, where `need` is what the hosts before it in key order did not cover (0 once the need is met) |
| Capacity.ConsumeWellFormed | python/services/util/qpm/util_qpm.py:56-93 | on a pool with no negative counts, a request succeeds exactly when there are enough hosts and enough free slots in total, and it never drives a count negative |
| Capacity.ConsumeShares | python/services/util/qpm/util_qpm.py:73-86 | a successful allocation takes from each host its greedy share, in key order |
| Capacity.ConsumeOk | python/services/util/qpm/util_qpm.py:87-93 | a successful allocation records as the circuit's `hosts` exactly what the walk took |
| Capacity.WalkedShare | python/services/util/qpm/util_qpm.py:73-86 | the walk over the whole pool takes each host's greedy share |
| Capacity.ReleaseKeys | python/services/util/qpm/util_qpm.py:98-103 | handing slots back keeps the set of tracked hosts; an untracked host or an overflow past `MAX_PPN` stops the loop with a DEFwError |
| Capacity.Release | python/services/util/qpm/util_qpm.py:96-103 | `free_resources` keeps the pool's host list |
| Capacity.ReleaseKeysCredits | python/services/util/qpm/util_qpm.py:98-103 | when every host is tracked and nothing overflows, each listed host gets back its amount and no other host changes |
| Capacity.StopAt | python/services/util/qpm/util_qpm.py:98-102 | a loop that stops with an error stops at one of the listed hosts |
| Capacity.ReleaseKeysPartial | python/services/util/qpm/util_qpm.py:98-103 | on an error, the hosts before the stop point have already been credited (they are not rolled back), and the stop host is untracked or would overflow |
| Capacity.ReleaseFailsFirst | python/services/util/qpm/util_qpm.py:99-102 | an untracked or overflowing first host stops the loop there, and nothing is credited |
| Capacity.ReleaseFailsLater | python/services/util/qpm/util_qpm.py:98-103 | a stop after a credited first host is the tail's stop, with the first host's credit kept |
| Capacity.ConsumeThenRelease | python/services/util/qpm/util_qpm.py:56-103 | taking slots and then handing them back restores the pool exactly, provided no host started above `MAX_PPN` |
| Capacity.HeldFits | python/services/util/qpm/util_qpm.py:99-102 | every host an allocation took from is tracked, and it can take its slots back without passing `MAX_PPN` |
| Capacity.Restored | python/services/util/qpm/util_qpm.py:78-103 | crediting back what was taken gives the counts from before the allocation |
| Scheduler.AddEntry | python/services/util/qpm/util_qpm.py:24-28 | `h` gets `MAX_PPN` slots and `h:n` gets `n`; an entry with more colons is ignored; a bad count raises ValueError; no other host changes |
| Scheduler.AddEntries | python/services/util/qpm/util_qpm.py:23-28 | the entries are applied in order, and the result is a well-formed pool |
| Scheduler.SetupHostResources | python/services/util/qpm/util_qpm.py:21-28 | without `QFW_QPM_ASSIGNED_HOSTS` it raises KeyError; otherwise the pool comes from the expanded host list |
| Scheduler.AddEntryGives | python/services/util/qpm/util_qpm.py:25-28 | a counted entry sets its host to the entry's count |
| Scheduler.AddEntriesFrame | python/services/util/qpm/util_qpm.py:23-28 | entries that are ignored or name other hosts leave a host's count alone |
| Scheduler.LastEntryWins | python/services/util/qpm/util_qpm.py:23-28 | a host listed several times keeps the count of its last counted entry |
| Scheduler.NoEntryNoHost | python/services/util/qpm/util_qpm.py:23-28 | a host named by no counted entry is not in the pool |
| Scheduler.CreateCircuit | python/services/util/qpm/util_qpm.py:30-40 | before initialisation it raises NotReady and changes nothing; after, it returns the new id, stores the circuit under it, and leaves every other circuit and the pool alone |
| Scheduler.NewCircuit | python/services/util/qpm/util_qpm.py:36-38 | a created circuit carries its id and info, is marked ready, holds no resources and is not pending deletion |
| Scheduler.DeleteCircuit | python/services/util/qpm/util_qpm.py:42-54 | before initialisation it raises NotReady; an unknown id is a no-op; a deletable circuit is removed; any other circuit is only marked for deletion; other circuits and the pool are untouched |
| Scheduler.IbmqCreateCircuit | python/services/svc_ibmq_qpm/svc_qpm.py:104-112 | the IBMQ creation stores the circuit with the backend forced to the provider, `np` set to 0, no executable and no modules; otherwise it behaves like the generic creation |
| Scheduler.Record | python/services/util/qpm/util_qpm.py:93 | storing a circuit updates that circuit and the pool, and nothing else |
| Scheduler.CommonRun | python/services/util/qpm/util_qpm.py:109-113 | an unknown id raises KeyError; a failed run start changes nothing; a successful one stores the circuit it returns, and leaves the other circuits and the host list alone |
| Scheduler.CommonRunGeneric | python/services/util/qpm/util_qpm.py:56-93 | on the generic scheduler, starting a run is `consume_resources`: the pool becomes the drained pool and the circuit records its hosts; a failure changes nothing |
| Scheduler.CommonRunIbmq | python/services/svc_ibmq_qpm/svc_qpm.py:114-120 | the IBMQ scheduler takes no slots and only marks the circuit as holding its resources |
| Scheduler.FreeResources | python/services/util/qpm/util_qpm.py:96-107 | a circuit without `hosts` raises KeyError; a failed release keeps the partially credited pool and raises; a success deletes the circuit, or only marks it |
| Scheduler.SyncRun | python/services/util/qpm/util_qpm.py:115-129 | before initialisation it raises NotReady; a failed start is re-raised with nothing changed; after a start the slots are freed whether the executor returned or raised, and a release error replaces the executor's outcome |
| Scheduler.AsyncRun | python/services/util/qpm/util_qpm.py:131-143 | before initialisation it raises NotReady; a successful submission keeps the slots with the circuit; a failed one frees them and re-raises |
| Scheduler.StartThenFree | python/services/util/qpm/util_qpm.py:96-113 | freeing what a run start took gives back the pool exactly, then deletes the circuit or marks it |
| Scheduler.SyncRunRestoresPool | python/services/util/qpm/util_qpm.py:115-129 | a synchronous run that can start hands back every slot, and its outcome is the executor's, whether the executor returned or raised |
| Scheduler.SyncRunOutOfResources | python/services/util/qpm/util_qpm.py:121 | a synchronous run that cannot get its slots leaves the scheduler as it was and raises OutOfResources |
| Scheduler.AsyncRunHolds | python/services/util/qpm/util_qpm.py:137-140 | a submitted asynchronous run keeps its slots out of the pool, and freeing the circuit later gives the pool back |
| Scheduler.AsyncRunFailureRestores | python/services/util/qpm/util_qpm.py:139-143 | a failed submission hands every slot back and re-raises what the executor raised |
| Scheduler.Poll | python/services/util/qpm/util_qpm.py:145-175 | the queue's answer is returned exactly when the service is initialised and the answer is truthy; otherwise NotReady, or InProgress naming the circuit when a non-empty id was given |
| Scheduler.ReadCq | python/services/util/qpm/util_qpm.py:145-175 | `read_cq` (and `peek_cq`, whose body is the same) answers with the executor's value exactly when initialised and something is ready; before initialisation it raises NotReady "QPM has not initialized properly"; otherwise InProgress with `<cid> still in progress` or `No ready QTs` |
| Scheduler.IbmqTest | python/services/svc_ibmq_qpm/svc_qpm.py:122-126 | the IBMQ self-test succeeds exactly when the provider is set, and otherwise raises DEFwError |
| IbmqQpm.SetAll | python/services/svc_ibmq_qpm/svc_qpm.py:82-87 | setting the configuration entries keeps the environment a well-formed ordered map |
| IbmqQpm.SetAllEffect | python/services/svc_ibmq_qpm/svc_qpm.py:82-87 | a key with a non-`None` value is set to its value's `str()`; every other variable keeps what it had |
| IbmqQpm.LoadIbmqEnvYaml | python/services/svc_ibmq_qpm/svc_qpm.py:60-88 | a missing file raises FileNotFoundError with the path; a document that is not a mapping raises AttributeError |
| IbmqQpm.LoadSetsConfig | python/services/svc_ibmq_qpm/svc_qpm.py:79-87 | with a readable `CONFIG` section, exactly its keys with a value are set to their `str()`, and everything else is left alone |
| IbmqQpm.LoadWithoutConfig | python/services/svc_ibmq_qpm/svc_qpm.py:79 | a document without `CONFIG` leaves the environment unchanged |
| HostList.IntOf | python/infra/defw_util.py:117 | `int(text)` succeeds exactly on integer text, with that text's value; otherwise it raises ValueError |
| HostList.ExpandItem | python/infra/defw_util.py:114-121 | an item with more than one `-` contributes no hosts |
| HostList.ExpandHostList | python/infra/defw_util.py:96-123 | a plain expression is its own single host, brackets the search cannot pair give no host, and the only error is a ValueError from an item of a bracketed range |
| HostList.Numbered | python/infra/defw_util.py:117-118 | the range loop yields one host per number, in ascending order, each the node prefix followed by the zero-padded number |
| HostList.NoBracket | python/infra/defw_util.py:99-105 | without `[` the expression is one host, except that a trailing `]` is found and then nothing is produced |
| HostList.UnclosedBracket | python/infra/defw_util.py:99-105 | a `[` with no `]` after it yields no hosts |
| HostList.Structure | python/infra/defw_util.py:99-113 | the text before `[` prefixes every host, the text between the brackets is split on `,` into items, and anything after `]` is ignored |
| HostList.ItemsConcat | python/infra/defw_util.py:113-123 | items are expanded left to right and their hosts are concatenated |
| HostList.RangeItem | python/infra/defw_util.py:115-118 | `a-b` gives one host per number from `a` to `b` inclusive, padded to the width of `a`; `a > b` gives none |
| HostList.HostNameParts | python/infra/defw_util.py:116-118 | every host name is the node prefix plus a suffix at least the pad width long, and that suffix reads back as the host's number |
| HostList.SingleItem | python/infra/defw_util.py:119-121 | a single item `a` gives one host, padded to the width of `a` |
| HostList.BadItem | python/infra/defw_util.py:121 | an item whose number does not parse stops the whole expansion with ValueError |
| HostList.ExpandBracketed | python/infra/defw_util.py:107-123 | text with a bracketed range expands as its comma-separated items, with the text before `[` as node |
| HostList.ShapeBracketed | python/infra/defw_util.py:99-109 | a `[` and the first `]` after it delimit the node and the range text |
| HostList.BracketsFound | python/infra/defw_util.py:99-123 | once the brackets are found around a body, the hosts are the expansion of the body's comma-separated pieces, and text after `]` plays no part |
| HostList.RangeHosts | python/infra/defw_util.py:115-118 | a range of two integers gives `hi - lo + 1` hosts (none when `lo > hi`), the `k`-th being the node with `lo + k` padded to the width of `a` |
| ResMgr.StatesAreBits | python/services/svc_resmgr/svc_resmgr.py:16-22 | the four agent states are distinct single bits, so any combination of them can be taken apart again |
| ResMgr.AddFlag | python/services/svc_resmgr/svc_resmgr.py:71-72 | `state \| flag` sets the flag, keeps every flag already set, and sets no other bit |
| ResMgr.LocOf | python/services/svc_resmgr/svc_resmgr.py:34-37 | a location string finds the registry `self.__dbs` files under that name |
| ResMgr.LocNames | python/services/svc_resmgr/svc_resmgr.py:25-37 | each of the four registries is found again under its own name |
| ResMgr.SetDb | python/services/svc_resmgr/svc_resmgr.py:34-37 | replacing one registry changes that registry and nothing else |
| ResMgr.Grab | python/services/svc_resmgr/svc_resmgr.py:41-55 | a refresh stores every listed, non-skipped agent under its id as a new CONNECTED record (any old state is lost); records of agents no longer listed stay; a raising `query` ends the refresh with the records written so far |
| ResMgr.Store | python/services/svc_resmgr/svc_resmgr.py:50-53 | writing one record changes only that key |
| ResMgr.ReloadResources | python/services/svc_resmgr/svc_resmgr.py:57-64 | the four refreshes keep the registries well formed, and the service registries never gain the manager's own endpoint |
| ResMgr.Deregister | python/services/svc_resmgr/svc_resmgr.py:123-133 | as intended: an agent in neither registry raises AgentNotFound; otherwise `unregister` is called once and the record leaves services if it is there, else clients; a raising `unregister` changes nothing; no other record moves |
| ResMgr.DeregisterAsWritten | python/services/svc_resmgr/svc_resmgr.py:123-133 | as written: no call ever succeeds, and no call changes anything or reaches an agent |
| ResMgr.DeregisterDiscrepancy | python/services/svc_resmgr/svc_resmgr.py:127 | a registered service fails with NameError as written, and the intended code removes it |
| ResMgr.Collect | python/services/svc_resmgr/svc_resmgr.py:150-165 | one pass of `get_services` reports exactly the records that have an info and a service passing the filter, each under its own key and its registry's name; earlier reports for other keys stay |
| ResMgr.GetServices | python/services/svc_resmgr/svc_resmgr.py:147-166 | the refresh comes first and its error is raised; the result holds exactly the offering agents of the two service registries, and an agent in both is reported with its services entry |
| ResMgr.GuardError | python/services/svc_resmgr/svc_resmgr.py:185-186 | the not-registered test raises nothing exactly when its error is built and dropped |
| ResMgr.Consumes | python/services/svc_resmgr/svc_resmgr.py:187-188 | one capacity-consumption event per requested service, in order |
| ResMgr.Releases | python/services/svc_resmgr/svc_resmgr.py:221-222 | one capacity-release event per requested service, in order |
| ResMgr.Zeroed | python/services/svc_resmgr/svc_resmgr.py:195-199 | a remote endpoint has its block uuid zeroed, and nothing else about an endpoint changes |
| ResMgr.Look | python/services/svc_resmgr/svc_resmgr.py:184-186 | a registry name or agent key that is not there raises KeyError; the record found is the one the request names; with the intended test a found record is registered |
| ResMgr.ReserveFrom | python/services/svc_resmgr/svc_resmgr.py:183-201 | reserving changes nothing but block uuids; on success it reports, for each agent, its record's endpoint zeroed when remote, and no reserve call raised; a ReserveError not raised by the test carries the text some reserve call raised |
| ResMgr.Reserve | python/services/svc_resmgr/svc_resmgr.py:181-201 | with the intended test: success reports one endpoint per requested agent, each agent registered, in request order, and no reserve call raised |
| ResMgr.ReserveAsWritten | python/services/svc_resmgr/svc_resmgr.py:181-201 | as written: success reports one endpoint per requested agent, whatever their state, and no reserve call raised |
| ResMgr.ReserveDiscrepancy | python/services/svc_resmgr/svc_resmgr.py:185-186 | an agent that never registered is reserved as written, while the intended test refuses it by name |
| ResMgr.ReserveUnregisteredRefused | python/services/svc_resmgr/svc_resmgr.py:185-186 | with the intended test, a first agent that is found but not registered is refused with a ReserveError naming it |
| ResMgr.ReserveUnregisteredIgnored | python/services/svc_resmgr/svc_resmgr.py:185-186 | as written, the only requested agent is reserved whatever its state |
| ResMgr.ReserveStep | python/services/svc_resmgr/svc_resmgr.py:187-200 | an agent reserved without error contributes its consumptions and then its reserve call ahead of the later agents' events, and a later error is the answer |
| ResMgr.ReserveFirstRaise | python/services/svc_resmgr/svc_resmgr.py:183-194 | when every agent up to the `n`-th is found and let through, none before it raises and its reserve call raises, `reserve` fails with a ReserveError carrying exactly the text that call raised |
| ResMgr.ReserveFirstRaiseLater | python/services/svc_resmgr/svc_resmgr.py:187-194 | the same when the raising agent comes after the `i`-th: the `i`-th is reserved and the answer is that of the rest |
| ResMgr.ReservePassesErr | python/services/svc_resmgr/svc_resmgr.py:187-200 | an agent reserved without error passes a later error on unchanged |
| ResMgr.ReservedLooks | python/services/svc_resmgr/svc_resmgr.py:195-199 | reserving one agent zeroes only its own record's block uuid, so the lookups of the later agents are unchanged |
| ResMgr.RpcRaisedSome | python/services/svc_resmgr/svc_resmgr.py:191-194 | "some reserve call from agent `i` on raised `msg`" means exactly that such an agent exists |
| ResMgr.ReserveEventsOrdered | python/services/svc_resmgr/svc_resmgr.py:187-192 | every reserve call is immediately preceded by the capacity consumptions of that agent's services, and nothing is released or undone |
| ResMgr.ReserveRaisedOrdered | python/services/svc_resmgr/svc_resmgr.py:191-194 | a reserve call that raises ends the events with that agent's block |
| ResMgr.ReserveStopsQuiet | python/services/svc_resmgr/svc_resmgr.py:183-186 | past the last agent, or at one the lookup refuses, no event happens |
| ResMgr.ReleaseFrom | python/services/svc_resmgr/svc_resmgr.py:217-228 | releasing never changes the registries and produces only release events; on success every agent is in the services registry and none raised, and there is one event per service plus one call per agent; a ReserveError not raised by the test carries the text some release call raised |
| ResMgr.ReleaseFirstRaise | python/services/svc_resmgr/svc_resmgr.py:218-228 | when every agent up to the `n`-th is in the services registry and let through, none before it raises and its release call raises, `release` fails with a ReserveError carrying exactly the text that call raised |
| ResMgr.ReleaseEventsOrdered | python/services/svc_resmgr/svc_resmgr.py:221-226 | every release call is immediately preceded by the capacity releases of that agent's services, and nothing is consumed or reserved |
| ResMgr.Release | python/services/svc_resmgr/svc_resmgr.py:217-228 | with the intended test: success means every agent was a registered service and nothing raised |
| ResMgr.ReleaseAsWritten | python/services/svc_resmgr/svc_resmgr.py:217-228 | as written: release never changes the registries, and success means every agent was in the services registry and nothing raised |
| ResMgr.ReleaseDiscrepancy | python/services/svc_resmgr/svc_resmgr.py:219-220 | an agent that never registered fails with NameError as written, instead of the intended ReserveError |
| Agents.NewEndpoint | python/infra/defw_agent.py:9-23 | an endpoint is built exactly for the three known node types, with the given type and uuid; any other type raises the node-type error |
| Agents.NodeTypeToStr | python/infra/defw_agent.py:51-61 | a node type has a name exactly when it is one of the three known types |
| Agents.NodeTypeNames | python/infra/defw_agent.py:51-61 | the known types and their names `RESMGR`, `AGENT`, `SERVICE` correspond one to one |
| Agents.EqualityByUuid | python/infra/defw_agent.py:28-31 | endpoint equality looks only at remote uuids: endpoints with the same uuid compare alike with everything, and equal to each other |
| Agents.EndpointEq | python/infra/defw_agent.py:28-31 | an endpoint equals itself and never equals a value that is not an endpoint |
| Agents.SendReq | python/infra/defw_agent.py:112-149 | a missing method name raises IFWError with its text; a non-blocking send returns 0; a reply addressed to another node raises "MSG intended to <dst> but I am <caller>" and one from another node "MSG originated from <src> but expected from <name>", with endpoints rendered by `%s`; a failure reply raises IFWRemoteError "RPC failure"; a success returns the reply's `rc` and was neither a failure nor an exception |
| Agents.SendReqRoundTrip | python/infra/defw_agent.py:131-149 | for a correctly addressed reply built by `populate_rpc_rsp`, the caller gets back the remote return code, a RemoteError with the text the remote sent, or the remote error itself |
| Agents.SendReqMisaddressed | python/infra/defw_agent.py:131-133 | a reply addressed to another node is refused with "MSG intended to <dst> but I am <caller>", whatever it carries |
| Agents.SendReqMisrouted | python/infra/defw_agent.py:135-138 | a reply addressed to the caller but coming from another node than the target is refused with "MSG originated from <src> but expected from <target name>" |
| Agents.ReloadFrom | python/infra/defw_agent.py:214-235 | the enumeration loop keeps the view well formed and the cursor where it was |
| Agents.Reload | python/infra/defw_agent.py:209-236 | `reload` rebuilds the view from empty and keeps it well formed |
| Agents.Accepted | python/infra/defw_agent.py:215-235 | the enumeration proceeds up to the first record whose node type the Endpoint constructor refuses |
| Agents.ReloadStopsAtRefused | python/infra/defw_agent.py:214-235 | a refused record ends the reload, because the exception is swallowed; everything after it is ignored |
| Agents.ReloadLastWins | python/infra/defw_agent.py:230-232 | a name maps to the agent of its last accepted record |
| Agents.ReloadFrame | python/infra/defw_agent.py:230-232 | records for other names leave a name's entry alone |
| Agents.GetItem | python/infra/defw_agent.py:179-184 | lookup succeeds exactly for a name in the view, with its agent; otherwise it raises `no entry for` |
| Agents.Next | python/infra/defw_agent.py:170-177 | `__next__` yields the entry at the cursor and advances, exactly while the cursor is below `max`; afterwards it raises StopIteration and changes nothing |
| Agents.IterateAll | python/infra/defw_agent.py:162-177 | iterating from the cursor yields every remaining entry once, in insertion order |
| Agents.Drain | python/infra/defw_agent.py:162-177 | iterating from the cursor yields exactly `max` minus the cursor items, or none once the cursor has reached `max` |
| Agents.FirstResmgr | python/infra/defw_agent.py:240-242 | the answer is an agent's endpoint whose type is resource manager, or there is no such agent |
| Agents.GetResmgr | python/infra/defw_agent.py:238-242 | after the reload, `get_resmgr` returns the endpoint of a resource-manager agent, and returns nothing exactly when no agent is one |
| Agents.FirstResmgrIsAgent | python/infra/defw_agent.py:240-242 | the first resource manager found is one of the view's agents, and none is found only when there is none |
| Envelopes.PopulateRpcReq | python/infra/defw_common_def.py:156-170 | every argument lands in its own field; the send time is the clock reading and the receive time starts at 0 |
| Envelopes.RequestRoundTrip | python/infra/defw_common_def.py:156-170 | a receiver reads back exactly the call the caller described: module, class, method, class id, positional and keyword arguments, and the addressing |
| Envelopes.PopulateRpcRsp | python/infra/defw_common_def.py:172-184 | the reply is of type `exception` exactly when a truthy exception was given, and then it carries that exception; otherwise it is a `response` without one; addressing and `rc` are kept |
| ClassDb.Add | python/infra/defw_common_def.py:132-137 | an id already taken is refused with DEFwError; otherwise the instance is stored under the id and every other entry stays |
| ClassDb.Get | python/infra/defw_common_def.py:139-143 | lookup succeeds exactly for a stored id, with its instance, and otherwise raises NotFound naming the id |
| ClassDb.Delete | python/infra/defw_common_def.py:145-150 | the id is gone afterwards, a missing id is ignored, and every other entry stays |
| ClassDb.AddThenGet | python/infra/defw_common_def.py:132-143 | what was added is found again under its id |
| ClassDb.AddThenDelete | python/infra/defw_common_def.py:132-150 | deleting what was just added gives back the table, and the id is unknown again |
| ClassDb.DeleteIdempotent | python/infra/defw_common_def.py:145-150 | deleting twice is deleting once |
| Prefs.Defaults | python/infra/defw_common_def.py:186-189 | the defaults hold exactly the seven keys, in their order and with their values |
| Prefs.FillOne | python/infra/defw_common_def.py:372-374 | one default key is added with its default value unless it is already set; nothing else changes, and the loaded keys keep their places |
| Prefs.FillFrom | python/infra/defw_common_def.py:372-374 | filling in defaults keeps the loaded keys at the front, in their order |
| Prefs.FillFromGet | python/infra/defw_common_def.py:372-374 | a loaded value is kept, a missing default key gets its default value, and nothing else appears |
| Prefs.FillFromAll | python/infra/defw_common_def.py:372-374 | after the loop, every default key is present, every loaded value is kept, and every other key has its default value or is absent |
| Prefs.MergePrefs | python/infra/defw_common_def.py:364-374 | an empty or missing document gives the defaults; otherwise every key the user set keeps its value and place, and every default key the user did not set gets its default value |
| Prefs.MergeIdempotent | python/infra/defw_common_def.py:364-374 | merging an already merged preference map changes nothing |
| Metrics.Push | python/infra/defw_common_def.py:63 | a bounded deque keeps its newest `maxlen` entries, with the new sample last |
| Metrics.AddRtt | python/infra/defw_common_def.py:60-70 | one sample adds 1 to the count, pushes the round-trip time, sets the mean to the window's mean, and moves the maximum up or the minimum down to the sample when it passes them |
| Metrics.Replay | python/infra/defw_common_def.py:60-70 | a database never holds more than `window_size` samples |
| Metrics.ReplayTotal | python/infra/defw_common_def.py:62 | the count is the number of samples ever added |
| Metrics.ReplayWindow | python/infra/defw_common_def.py:63 | the window holds the last `min(total, window_size)` samples, in arrival order |
| Metrics.ReplayBounds | python/infra/defw_common_def.py:53-70 | every sample lies between the minimum and the maximum; the maximum is at least 0.0, and the minimum is at most `sys.maxsize` |
| Metrics.ReplayAttained | python/infra/defw_common_def.py:53-70 | the maximum is 0.0 or some sample, and the minimum is `sys.maxsize` or some sample |
| Metrics.NewMetrics | python/infra/defw_common_def.py:49-58 | a new metrics object has empty request and response databases and no method databases |
| Metrics.AddReqTime | python/infra/defw_common_def.py:72-74 | a request sample updates the request database only |
| Metrics.AddRspTime | python/infra/defw_common_def.py:76-78 | a response sample updates the response database only |
| Metrics.AddMethodTime | python/infra/defw_common_def.py:80-86 | a method's database is created on first use, and it is the only database updated |
| Metrics.MethodsIndependent | python/infra/defw_common_def.py:80-86 | timing one method never disturbs what is recorded for another |
| Exceptions.NewError | python/infra/defw_exception.py:11-86 | the fields are as given; a truthy node name is kept, and a falsy one becomes the current node name; the default node name is empty for the base class, `None` for three subclasses, and the import-time name for RemoteError, ReserveError and OutOfResources |
| Exceptions.Rewrap | python/services/svc_nwqsim_qpm/svc_qrc.py:40-42 | re-raising a caught error as DEFwError gives a base-class error whose text is the caught error's dumped record for this system's errors and its message for a built-in one |
| Exceptions.Populate | python/infra/defw_exception.py:43-53 | `populate` overwrites exactly the ten recorded fields, in order, and keeps the class |
| Exceptions.GetArgOfNew | python/infra/defw_exception.py:61-62 | `get_arg` returns the constructor's `arg` |
| Exceptions.GetArg | python/infra/defw_exception.py:61-62 | `get_arg` returns the arg the error carries, which is what its record ships under `arg` |
| Exceptions.Represent | python/infra/defw_exception.py:88-92 | the representer writes the ten fields under their ten keys, in order, and the class is not written |
| Exceptions.RecordKeysDistinct | python/infra/defw_exception.py:89-91 | the ten keys are pairwise distinct, so no field shadows another |
| Exceptions.Construct | python/infra/defw_exception.py:94-99 | the constructor succeeds exactly when all ten keys are present, and it then yields a base-class error holding those values; otherwise it raises KeyError naming a missing key |
| Exceptions.FirstMissing | python/infra/defw_exception.py:97-98 | the first of the ten keys the mapping lacks, when any is missing; none exactly when all are present |
| Exceptions.FieldsDetermine | python/infra/defw_exception.py:43-53 | an error is determined by its class and its ten fields |
| Exceptions.ConstructRepresent | python/infra/defw_exception.py:88-99 | reading back what the representer wrote gives every field back; only the class becomes the base class |
| Exceptions.RepresentConstruct | python/infra/defw_exception.py:88-99 | an error built from a mapping represents back to that mapping's values under the ten keys |
| IbmqQrc.ProxyMap | python/services/svc_ibmq_qpm/svc_qrc.py:40-44 | the proxy map lists `http` before `https`, each present exactly when its variable is non-empty and mapped to that variable's stripped value |
| IbmqQrc.BuildProxyCfg | python/services/svc_ibmq_qpm/svc_qrc.py:32-47 | no proxy configuration exactly when both stripped variables are empty; otherwise the map of the set ones |
| IbmqQrc.AfterLastDotSuffix | python/services/svc_ibmq_qpm/svc_qrc.py:85-86 | the piece after the last dot is a suffix of the text, holds no dot, and is the whole text or preceded by a dot |
| IbmqQrc.NormalizeState | python/services/svc_ibmq_qpm/svc_qrc.py:81-87 | `None` normalises to the empty text; any other state to the upper-cased state text from just after its last dot to the end, holding no dot |
| IbmqQrc.NormalizeTextIdempotent | python/services/svc_ibmq_qpm/svc_qrc.py:84-87 | normalising already-normalised text changes nothing |
| IbmqQrc.LastPieceAfterDot | python/services/svc_ibmq_qpm/svc_qrc.py:85-86 | in a text with a dot, the last piece is strictly shorter than the text and immediately preceded by a dot |
| IbmqQrc.NormalizeIdempotent | python/services/svc_ibmq_qpm/svc_qrc.py:81-87 | normalising a normalised state changes nothing |
| IbmqQrc.Classify | python/services/svc_ibmq_qpm/svc_qrc.py:487-507 | a state counts as finished exactly when it is DONE or COMPLETED, and as failed exactly when it is ERROR, FAILED, CANCELLED or CANCELED; every other state is pending |
| IbmqQrc.GetKey | python/services/svc_ibmq_qpm/svc_qrc.py:484 | reading a key succeeds exactly on a dict and gives its value or the default; anything else raises |
| IbmqQrc.FormatIbmError | python/services/svc_ibmq_qpm/svc_qrc.py:89-126 | a body that is not JSON gives the status and raw text; a body without errors gives the status and the body; every successful message starts with "HTTP" and the status |
| IbmqQrc.FormatIbmErrorFields | python/services/svc_ibmq_qpm/svc_qrc.py:108-126 | with a dict as first error, the message is the status followed by code, message, solution, more-info and trace in that order, each only when present (code when not None, the rest when truthy) |
| IbmqQrc.FormatIbmErrorRaises | python/services/svc_ibmq_qpm/svc_qrc.py:108-109 | a first error entry that is not a dict makes the formatting raise AttributeError |
| IbmqQrc.HexToBitstring | python/services/svc_ibmq_qpm/svc_qrc.py:182-200 | a 0/1 text without width passes through, an unparsable text is returned unchanged, and a parsed integer without width is its binary rendering |
| IbmqQrc.FitWidth | python/services/svc_ibmq_qpm/svc_qrc.py:185-196 | with a positive width the converted sample is exactly that wide |
| IbmqQrc.FitLowBits | python/services/svc_ibmq_qpm/svc_qrc.py:196 | zero-filling a binary text and keeping its last `w` digits keeps its value modulo 2^w |
| IbmqQrc.HexToBitstringLowBits | python/services/svc_ibmq_qpm/svc_qrc.py:190-196 | a non-negative hex or decimal sample with width `w` becomes `w` binary digits whose value is the sample modulo 2^w |
| IbmqQrc.BitstringLowBits | python/services/svc_ibmq_qpm/svc_qrc.py:190-196 | the same low-bits property stated on the sample's text |
| IbmqQrc.BinaryLowBits | python/services/svc_ibmq_qpm/svc_qrc.py:194-196 | a non-negative integer in binary fitted to `w` digits is its value modulo 2^w |
| IbmqQrc.BitsOfWidth | python/services/svc_ibmq_qpm/svc_qrc.py:185-188 | a 0/1 sample already as wide as the register is returned unchanged |
| IbmqQrc.Histogram | python/services/svc_ibmq_qpm/svc_qrc.py:222-224 | counting keys into a histogram adds one per key to the total, adds exactly the keys seen, and raises each bucket by how often its key occurs |
| IbmqQrc.Bitstrings | python/services/svc_ibmq_qpm/svc_qrc.py:222-223 | one bitstring per sample, each the sample converted |
| IbmqQrc.ParseCountsSampler | python/services/svc_ibmq_qpm/svc_qrc.py:202-227 | a reply holding samples under results[0].data.c is parsed into the histogram of its converted samples |
| IbmqQrc.ParseCounts | python/services/svc_ibmq_qpm/svc_qrc.py:202-227 | a reply that is not a dict fails at the key listing with AttributeError; a reply without true `results` is returned whole as `raw`; a raw answer is always the whole reply, and a histogram needs true `results` |
| IbmqQrc.ParseCountsHistogram | python/services/svc_ibmq_qpm/svc_qrc.py:221-227 | the histogram has one bucket per distinct bitstring, every sample's bitstring is a key, each bucket holds that bitstring's multiplicity, and the buckets add up to the number of samples |
| IbmqQrc.HistogramOfEmpty | python/services/svc_ibmq_qpm/svc_qrc.py:221-224 | counting from an empty map: keys are the distinct inputs, each bucket is the key's multiplicity and at least one, and the total is the number of inputs |
| IbmqQrc.ParseCountsRaw | python/services/svc_ibmq_qpm/svc_qrc.py:205-208 | a reply without (truthy) results is returned whole under `raw` |
| IbmqQrc.FailMsg | python/services/svc_ibmq_qpm/svc_qrc.py:128-129 | a failure message, when the formatting does not raise, starts with the prefix followed by ": " |
| IbmqQrc.FinalResult | python/services/svc_ibmq_qpm/svc_qrc.py:270 | with no error the result is the result object; with an error it is a dict of exactly `error` (the text) and `raw` (the object), in that order |
| IbmqQrc.FinalizeTask | python/services/svc_ibmq_qpm/svc_qrc.py:264-296 | the record lands in exactly one of the event list (when a push target accepts it) and the results list; the active tasks are untouched |
| IbmqQrc.ProcessTask | python/services/svc_ibmq_qpm/svc_qrc.py:473-532 | a finished task has return code 0 exactly when it carries no error text, and otherwise -1 |
| IbmqQrc.StatusStep | python/services/svc_ibmq_qpm/svc_qrc.py:481-507 | a raised request gives its text; the task waits exactly when the reported state is pending; a failed state finishes it with "job ended with state="; a finished state goes on to the results request |
| IbmqQrc.ResultsStep | python/services/svc_ibmq_qpm/svc_qrc.py:509-525 | a results request always finishes the task; it succeeds, with the parsed counts and code 0, exactly when it answered 200 with JSON that parses; a non-200 answer gives code -1, the reply text and the `_fail_msg` text |
| IbmqQrc.WaitExactlyWhenPending | python/services/svc_ibmq_qpm/svc_qrc.py:484-507 | a task stays active exactly when its status request answered 200 with a state neither finished nor failed |
| IbmqQrc.SuccessExactly | python/services/svc_ibmq_qpm/svc_qrc.py:484-525 | a task succeeds exactly when the status answers 200 with a finished state, the results answer 200 with JSON and the counts parse; the result is then the parsed counts |
| IbmqQrc.FailedJob | python/services/svc_ibmq_qpm/svc_qrc.py:495-503 | a job the service reports failed finishes with code -1, its state as result, and "job ended with state=" as error |
| IbmqQrc.Outcomes | python/services/svc_ibmq_qpm/svc_qrc.py:473-532 | the pass decides each task's outcome from its own poll only |
| IbmqQrc.DoneOf | python/services/svc_ibmq_qpm/svc_qrc.py:473-532 | a task is marked complete exactly when its outcome finishes it |
| IbmqQrc.DoneFlags | python/services/svc_ibmq_qpm/svc_qrc.py:473-532 | a task is marked complete exactly when its own poll finishes it |
| IbmqQrc.Scan | python/services/svc_ibmq_qpm/svc_qrc.py:473-532 | the loop collects exactly the finished tasks in order, and appends, to events when the push target accepts them and to results otherwise, each finished task's own record (its circuit id, its result or error and raw result, its return code) in task order; the other list and the active list are untouched |
| IbmqQrc.CheckActiveTasks | python/services/svc_ibmq_qpm/svc_qrc.py:461-535 | when the URL or headers cannot be built nothing changes; otherwise the records of the tasks its poll finished, each built from that task's own poll, are appended in task order to events or to results, as the push target decides |
| IbmqQrc.RecordsOfComplete | python/services/svc_ibmq_qpm/svc_qrc.py:488-535 | the records a pass appends and the tasks it takes off the active list correspond one to one, in order, by circuit id |
| IbmqQrc.PassActive | python/services/svc_ibmq_qpm/svc_qrc.py:534-535 | the active list loses the completed tasks one `remove` at a time, in completion order |
| IbmqQrc.PassKeepsPending | python/services/svc_ibmq_qpm/svc_qrc.py:534-535 | with distinct tasks, the active list afterwards is exactly the still-pending tasks in their original order |
| IbmqQrc.PassMultiset | python/services/svc_ibmq_qpm/svc_qrc.py:534-535 | whatever the tasks, the active list afterwards holds, as a multiset, exactly the pending tasks: every `remove` finds its task |
| Launcher.Field | python/services/svc_nwqsim_qpm/svc_qrc.py:47-68 | reading an `info` key succeeds exactly when the key is present and gives its value; otherwise KeyError names the key |
| Launcher.Which | python/services/svc_nwqsim_qpm/svc_qrc.py:49 | looking a program up succeeds exactly on a string and gives the path lookup's answer for it |
| Launcher.DvmFile | python/services/svc_nwqsim_qpm/svc_qrc.py:55 | the DVM file is the text between the first and any second `file:` of a string URI; a URI without `file:` or not a string raises |
| Launcher.DvmFileOfUri | python/services/svc_nwqsim_qpm/svc_qrc.py:55 | a `file:` URI names exactly the path after the scheme |
| Launcher.HostEntry | python/services/svc_nwqsim_qpm/svc_qrc.py:62 | a host entry is never empty |
| Launcher.HostEntries | python/services/svc_nwqsim_qpm/svc_qrc.py:59-62 | one `host:slots` entry per host, in the dict's order |
| Launcher.HostString | python/services/svc_nwqsim_qpm/svc_qrc.py:57-62 | the host string exists exactly for a dict, and is its `host:slots` entries joined by commas in the dict's order; anything else raises AttributeError |
| Launcher.HostLoopJoins | python/services/svc_nwqsim_qpm/svc_qrc.py:58-62 | the host loop writes the entries joined by commas, after the accumulated text and a comma when that is non-empty |
| Launcher.HostStringRoundTrip | python/services/svc_nwqsim_qpm/svc_qrc.py:58-62 | splitting the host string at commas gives back one `host:slots` entry per host, in order, when no entry holds a comma |
| Launcher.FirstHost | python/services/svc_ionq_qpm/svc_qrc.py:50 | the single-host string exists exactly for a non-empty host dict and is its first host with one slot |
| Launcher.Prepare | python/services/svc_nwqsim_qpm/svc_qrc.py:45-68 | the preparation fails whenever the simulator or wrapper is missing or the DVM file does not exist; a missing simulator or wrapper gives the "Couldn't find" ExecutionError; on success it carries the simulator's and wrapper's paths and the DVM URI |
| Launcher.PrepareSucceeds | python/services/svc_nwqsim_qpm/svc_qrc.py:45-68 | when the pre-flight checks pass and `hosts` and `exec` are a dict and a string, the preparation succeeds and carries the joined host string |
| Launcher.ArgvCons | python/services/svc_nwqsim_qpm/svc_qrc.py:141-145 | a command's first word is followed by a space and the rest |
| Launcher.ArgvAppend | python/services/svc_nwqsim_qpm/svc_qrc.py:141-153 | appending two runs of words appends their commands |
| Launcher.ArgvThen | python/services/svc_nwqsim_qpm/svc_qrc.py:141-153 | words each followed by a space, then a last piece, are those words and the piece joined by spaces |
| Launcher.ArgvWords | python/services/svc_nwqsim_qpm/svc_qrc.py:141-153 | splitting a command at spaces gives back its words and last piece when none holds a space |
| Launcher.MpiPrefix | python/services/svc_nwqsim_qpm/svc_qrc.py:141-145 | the launcher prefix is composed exactly when `info` has `provider`, `mapping` and `np` |
| Launcher.Options | python/services/svc_nwqsim_qpm/svc_qrc.py:123 | the options read succeeds exactly when `qpm_options` is absent or a dict, and gives that dict or nothing |
| Launcher.Choose | python/services/svc_nwqsim_qpm/svc_qrc.py:121-131 | without options the no-options backend; with options the requested backend when it is allowed, otherwise the fallback; the choice is always allowed or the fallback |
| Launcher.OptionOr | python/services/svc_nwqsim_qpm/svc_qrc.py:123-125 | an option's value when the options and key exist, the default otherwise |
| Launcher.ShotWords | python/services/svc_nwqsim_qpm/svc_qrc.py:149-150 | the shots flag and count appear exactly when `info` has `num_shots` |
| Nwqsim.Catch | python/services/svc_nwqsim_qpm/svc_qrc.py:23-26 | the scan ends at the last line holding the Measurement banner, or -1 when none does |
| Nwqsim.Between | python/services/svc_nwqsim_qpm/svc_qrc.py:31 | `lines[a:-1]`: the lines from `a` up to but not including the last, or nothing |
| Nwqsim.ParseLine | python/services/svc_nwqsim_qpm/svc_qrc.py:34-37 | a counts line that does not read fails only with ValueError, as unpacking and `int()` raise |
| Nwqsim.ParseLines | python/services/svc_nwqsim_qpm/svc_qrc.py:32-37 | the counts loop yields a well-formed dict |
| Nwqsim.ParseEach | python/services/svc_nwqsim_qpm/svc_qrc.py:32-37 | the counts loop, for any line reader, yields a well-formed dict |
| Nwqsim.ParseLinesFails | python/services/svc_nwqsim_qpm/svc_qrc.py:33-37 | the counts loop succeeds exactly when every line is a count line |
| Nwqsim.EachFails | python/services/svc_nwqsim_qpm/svc_qrc.py:33-37 | the loop stops with an error exactly when some line does not read |
| Nwqsim.ParseResult | python/services/svc_nwqsim_qpm/svc_qrc.py:13-43 | every failure reaches the caller as a DEFwError carrying `str()` of what the `try` raised: the dumped record of the inner "Empty output!" or "Could not parse result!" error, or the ValueError text of a bad counts line; it succeeds exactly when the `try` body does, with its counts |
| Nwqsim.Read | python/services/svc_nwqsim_qpm/svc_qrc.py:15-39 | inside the `try`, empty output raises "Empty output!", output with no banner raises "Could not parse result!", and the counts are a well-formed dict |
| Nwqsim.NoMarker | python/services/svc_nwqsim_qpm/svc_qrc.py:25 | text without `=` holds no banner |
| Nwqsim.CountLines | python/services/svc_nwqsim_qpm/svc_qrc.py:33-37 | one `key:count` line per key, in order |
| Nwqsim.ParseCountLine | python/services/svc_nwqsim_qpm/svc_qrc.py:34-37 | a printed `bits:count` line reads back as that key and count |
| Nwqsim.BitKeyBare | python/services/svc_nwqsim_qpm/svc_qrc.py:35 | stripping quotes, spaces and white space leaves a bit string unchanged |
| Nwqsim.ParseLinesCons | python/services/svc_nwqsim_qpm/svc_qrc.py:33-37 | the loop reads a good first line, then the rest |
| Nwqsim.CountLinesCons | python/services/svc_nwqsim_qpm/svc_qrc.py:33-37 | the loop over printed lines reads the first one, then the rest |
| Nwqsim.ParseCountLines | python/services/svc_nwqsim_qpm/svc_qrc.py:33-37 | the loop over printed lines puts their keys and counts in order |
| Nwqsim.CountLinesPlain | python/services/svc_nwqsim_qpm/svc_qrc.py:33-37 | printed counts lines hold no line break and no `=` |
| Nwqsim.PrintedLines | python/services/svc_nwqsim_qpm/svc_qrc.py:21 | the printed output splits back into its lines and is non-empty |
| Nwqsim.CatchPrinted | python/services/svc_nwqsim_qpm/svc_qrc.py:23-31 | in printed output the banner is the last line holding it, and the lines after it up to the final one are the counts |
| Nwqsim.ParseCountTable | python/services/svc_nwqsim_qpm/svc_qrc.py:32-37 | the counts loop over the printed table of a dict gives back that dict |
| Nwqsim.ParseResultRoundTrip | python/services/svc_nwqsim_qpm/svc_qrc.py:13-39 | whatever the simulator prints before its banner, parsing its counts table gives back the counts it printed |
| Nwqsim.FormCmd | python/services/svc_nwqsim_qpm/svc_qrc.py:45-157 | the command is refused whenever the pre-flight checks fail |
| Nwqsim.FormCmdText | python/services/svc_nwqsim_qpm/svc_qrc.py:141-153 | a composed command is the launcher words and the simulator words, each followed by a space, then the `--sim` part |
| Nwqsim.FormCmdBackend | python/services/svc_nwqsim_qpm/svc_qrc.py:121-131 | the backend is one of CPU, OpenMP, MPI, AMDGPU and AMDGPU_MPI, and the requested one when that is accepted |
| Nwqsim.FormCmdWords | python/services/svc_nwqsim_qpm/svc_qrc.py:141-153 | split at spaces, the command gives back its words, `--shots` only with a shot count and `--sim` only with a method |
| Nwqsim.SimTail | python/services/svc_nwqsim_qpm/svc_qrc.py:152-153 | words followed by `--sim m` split back into those words, `--sim` and `m` |
| CountsLine.FirstCounts | python/services/svc_qiskitaer_qpm/svc_qrc.py:24-25 | the scan finds the first line mentioning `counts`, or -1 when none does |
| CountsLine.ParseResult | python/services/svc_qiskitaer_qpm/svc_qrc.py:14-35 | every failure is a DEFwError "Failed to decode output: " followed by the dumped record of the inner error; for empty output that inner error is "Empty output!"; it succeeds exactly when the `try` body does, with its answer |
| CountsLine.Read | python/services/svc_qiskitaer_qpm/svc_qrc.py:16-33 | inside the outer `try`, empty output raises "Empty output!", and every other error is a DEFwError starting "Failed to parse output: " |
| CountsLine.NoneExactly | python/services/svc_qiskitaer_qpm/svc_qrc.py:22-31 | non-empty output answers None exactly when no line mentions `counts` |
| CountsLine.SplitField | python/services/svc_qiskitaer_qpm/svc_qrc.py:26 | the text between the first and second `=` of `key=text…` is `text` |
| CountsLine.ParsePrinted | python/services/svc_qiskitaer_qpm/svc_qrc.py:14-35 | output whose first `counts` line is `key=text…` reads as the YAML reader's answer on `text`; a YAML error reaches the caller as "Failed to decode output: " and the dumped record of the "Failed to parse output: " error carrying it |
| CountsLine.PrintedLines | python/services/svc_qiskitaer_qpm/svc_qrc.py:24-25 | joined lines split back, and the scan finds the first line mentioning `counts` |
| CountsLine.FirstCountsAfter | python/services/svc_qiskitaer_qpm/svc_qrc.py:24-25 | behind lines without `counts`, the scan finds the given line |
| CountsLine.CountsInLine | python/services/svc_qiskitaer_qpm/svc_qrc.py:25 | a line whose key mentions `counts` mentions it |
| CountsLine.FirstCountsAt | python/services/svc_qiskitaer_qpm/svc_qrc.py:24-25 | the scan stops at the first line mentioning `counts` |
| Tnqvm.Scan | python/services/svc_tnqvm_qpm/svc_qrc.py:51-70 | the brace scan only ever extends what it has kept so far |
| Tnqvm.ScanOutside | python/services/svc_tnqvm_qpm/svc_qrc.py:56-70 | before the first brace nothing is kept |
| Tnqvm.ScanInside | python/services/svc_tnqvm_qpm/svc_qrc.py:56-70 | inside the block, brace-free text is kept as it is |
| Tnqvm.ScanOpen | python/services/svc_tnqvm_qpm/svc_qrc.py:58-60 | the first brace opens the block at depth one and is kept |
| Tnqvm.ScanClose | python/services/svc_tnqvm_qpm/svc_qrc.py:61-68 | the brace that brings the depth back to zero is kept and ends the scan |
| Tnqvm.TagBeforeBrace | python/services/svc_tnqvm_qpm/svc_qrc.py:47 | the tag `"Measurements": {` is seventeen characters and only its last is a brace |
| Tnqvm.ExtractOpens | python/services/svc_tnqvm_qpm/svc_qrc.py:47-73 | wherever the tag matches, the cut-out block is non-empty and starts with a brace |
| Tnqvm.ExtractAt | python/services/svc_tnqvm_qpm/svc_qrc.py:51-70 | with the tag, a brace-free body and a closing brace, the block is exactly the braces around the body |
| Tnqvm.AtOffsets | python/services/svc_tnqvm_qpm/svc_qrc.py:47 | where the tag, the body and the closing brace sit in the output |
| Tnqvm.Entry | python/services/svc_tnqvm_qpm/svc_qrc.py:78-87 | a line reads as an entry only when, cleaned, it starts with a quote and holds a colon |
| Tnqvm.Collect | python/services/svc_tnqvm_qpm/svc_qrc.py:75-87 | the entry loop yields a well-formed dict |
| Tnqvm.Take | python/services/svc_tnqvm_qpm/svc_qrc.py:77-87 | one turn of the entry loop keeps the dict well-formed |
| Tnqvm.ParseResult | python/services/svc_tnqvm_qpm/svc_qrc.py:38-97 | every failure is a DEFwError carrying the dumped record of the error the `try` raised; output without the tag gives that of "Measurements section not found!"; it succeeds exactly when the `try` body does, with a well-formed, non-empty dict |
| Tnqvm.Read | python/services/svc_tnqvm_qpm/svc_qrc.py:41-94 | inside the `try`, output without the tag raises "Measurements section not found!", every error is a DEFwError, and a result is a well-formed, non-empty dict |
| Tnqvm.NeverEmptyBlock | python/services/svc_tnqvm_qpm/svc_qrc.py:72-73 | the "Failed to extract measurements content!" branch can never be taken, since the tag's own brace is always kept |
| Tnqvm.EntryShape | python/services/svc_tnqvm_qpm/svc_qrc.py:80-82 | a JSON entry is the quoted key, a colon and the space-padded count |
| Tnqvm.BitEnds | python/services/svc_tnqvm_qpm/svc_qrc.py:81 | binary digits are neither white space, quotes nor colons |
| Tnqvm.KeyBack | python/services/svc_tnqvm_qpm/svc_qrc.py:81 | stripping white space and quotes from a quoted bit string gives the bit string |
| Tnqvm.CountBack | python/services/svc_tnqvm_qpm/svc_qrc.py:82-84 | stripping and removing commas and quotes from a padded count gives its digits |
| Tnqvm.CleanPrinted | python/services/svc_tnqvm_qpm/svc_qrc.py:78 | cleaning an indented entry line, with or without its trailing comma, leaves the entry |
| Tnqvm.CleanComma | python/services/svc_tnqvm_qpm/svc_qrc.py:78 | cleaning an indented entry line with its trailing comma leaves the entry |
| Tnqvm.EntryEnds | python/services/svc_tnqvm_qpm/svc_qrc.py:78-79 | an entry starts with its quote and ends with its last digit |
| Tnqvm.EntryOfClean | python/services/svc_tnqvm_qpm/svc_qrc.py:79-85 | a line that cleans to an entry reads as its key and count |
| Tnqvm.EntryRoundTrip | python/services/svc_tnqvm_qpm/svc_qrc.py:77-85 | an indented entry line as JSON prints it, with or without comma, reads back as its key and count |
| Tnqvm.OpenBraceLine | python/services/svc_tnqvm_qpm/svc_qrc.py:79 | the block's opening brace line is not an entry |
| Tnqvm.CloseBraceLine | python/services/svc_tnqvm_qpm/svc_qrc.py:79 | its indented closing brace line is not an entry |
| Tnqvm.EntryLines | python/services/svc_tnqvm_qpm/svc_qrc.py:76-79 | exactly one printed entry line per key of the histogram |
| Tnqvm.CollectEntries | python/services/svc_tnqvm_qpm/svc_qrc.py:77-85 | the entry loop over printed entry lines puts their keys and counts in order |
| Tnqvm.CollectStep | python/services/svc_tnqvm_qpm/svc_qrc.py:77-85 | a first line that is an entry is put first |
| Tnqvm.CollectSkipLast | python/services/svc_tnqvm_qpm/svc_qrc.py:79 | a last line that is not an entry changes nothing |
| Tnqvm.BlockLines | python/services/svc_tnqvm_qpm/svc_qrc.py:76 | the cut-out block is the join of its lines |
| Tnqvm.BlockPlain | python/services/svc_tnqvm_qpm/svc_qrc.py:56-76 | a printed block's lines hold no line break and its body holds no brace |
| Tnqvm.BlockSplits | python/services/svc_tnqvm_qpm/svc_qrc.py:76 | the printed block's text splits back into its lines |
| Tnqvm.FramedLines | python/services/svc_tnqvm_qpm/svc_qrc.py:76 | plain lines framed by braces split back into those lines |
| Tnqvm.BlockCollect | python/services/svc_tnqvm_qpm/svc_qrc.py:75-87 | the entry loop over a printed block's lines gives the histogram's keys and counts in order |
| Tnqvm.FindTag | python/services/svc_tnqvm_qpm/svc_qrc.py:47 | the search finds the tag's first occurrence, whatever follows |
| Tnqvm.ParsePrinted | python/services/svc_tnqvm_qpm/svc_qrc.py:38-94 | a histogram printed as a JSON `Measurements` block, after any text without the tag and before anything at all, reads back as that histogram |
| Tnqvm.ParseFound | python/services/svc_tnqvm_qpm/svc_qrc.py:47-94 | once the tag, the block and its entries are found, the reader answers the collected dict |
| Tnqvm.ParseEmptyBlock | python/services/svc_tnqvm_qpm/svc_qrc.py:89-97 | an empty `Measurements` block raises "No measurements parsed!", which reaches the caller as the dumped record of that error |
| Tnqvm.ParseNothing | python/services/svc_tnqvm_qpm/svc_qrc.py:89-97 | a block holding no entry raises "No measurements parsed!", which reaches the caller as the dumped record of that error |
| Tnqvm.EmptyBlockLines | python/services/svc_tnqvm_qpm/svc_qrc.py:76-87 | a pair of braces is one line and no entry |
| Tnqvm.BlockAt | python/services/svc_tnqvm_qpm/svc_qrc.py:47-70 | behind the tag's first occurrence, a brace-free body and its closing brace are what the scan cuts out |
| Tnqvm.LineEndAll | python/services/svc_tnqvm_qpm/svc_qrc.py:76 | a text without line breaks is one line |
| Tnqvm.FormCmd | python/services/svc_tnqvm_qpm/svc_qrc.py:100-159 | a bad options value fails first with its own error; a missing runner or wrapper reads `PATH` and `LD_LIBRARY_PATH` from the environment before raising, so an unset one raises KeyError naming it; a failed pre-flight check fails; success needs the checks passed and both `num_qubits` and `num_shots`; a missing one raises KeyError naming it |
| Tnqvm.UnfoundAfterLog | python/services/svc_tnqvm_qpm/svc_qrc.py:125-128 | the missing-program error is raised exactly when both variables are set; otherwise the first unset one, `PATH` before `LD_LIBRARY_PATH`, raises KeyError |
| Tnqvm.FormCmdWords | python/services/svc_tnqvm_qpm/svc_qrc.py:147-155 | a composed command is the launcher words and the runner's words, each followed by a space, and splits back into them |
| Tnqvm.DefaultTail | python/services/svc_tnqvm_qpm/svc_qrc.py:107-115 | without options the runner's words end `--compiler staq --visitor exatn-mps` |
| Tnqvm.FormCmdDefaults | python/services/svc_tnqvm_qpm/svc_qrc.py:107-115 | without options the command ends `--compiler staq --visitor exatn-mps ` |
| QiskitAer.FormCmd | python/services/svc_qiskitaer_qpm/svc_qrc.py:37-98 | the command is refused whenever the pre-flight checks fail, with the pre-flight error itself; success needs `provider`, `mapping` and `np` and a readable options value |
| QiskitAer.FormCmdWords | python/services/svc_qiskitaer_qpm/svc_qrc.py:85-94 | a composed command is the launcher words and the simulator's words, each followed by a space, and splits back into them |
| QiskitAer.BackendChoice | python/services/svc_qiskitaer_qpm/svc_qrc.py:63-73 | the method passed on is empty exactly when there are no options, one of the nine accepted methods otherwise, and the requested one when it is accepted |
| QTensor.FormCmdAsWritten | python/services/svc_qtensor_qpm/svc_qrc.py:38-101 | as written, a launchable circuit without `qpm_options` fails with UnboundLocalError before any command is composed |
| QTensor.FormCmd | python/services/svc_qtensor_qpm/svc_qrc.py:38-101 | with the device check guarded, the unbound-options error never occurs; a failed pre-flight check still refuses the command |
| QTensor.WithoutOptions | python/services/svc_qtensor_qpm/svc_qrc.py:64-86 | a launchable circuit without options and with the launcher settings fails as written and is composed once the check is guarded |
| QTensor.WithOptionsAgree | python/services/svc_qtensor_qpm/svc_qrc.py:64-86 | with options present, the source as written and the guarded version agree on every circuit |
| QTensor.FormCmdWords | python/services/svc_qtensor_qpm/svc_qrc.py:88-97 | a composed command is the launcher words and the simulator's words, each followed by a space, and splits back into them |
| IonQ.FormCmd | python/services/svc_ionq_qpm/svc_qrc.py:37-80 | the command is refused whenever the pre-flight checks fail, with that error; success needs a readable options value |
| IonQ.FormCmdWords | python/services/svc_ionq_qpm/svc_qrc.py:73-76 | split at spaces the command gives back the client's words alone: the launcher settings play no part |
| IonQ.NoHostsFails | python/services/svc_ionq_qpm/svc_qrc.py:50 | an empty host dict makes the command fail with IndexError, though the host string is never used |
| IonQ.BackendChoice | python/services/svc_ionq_qpm/svc_qrc.py:61-71 | the target passed on is empty exactly when there are no options, `simulator` or `qpu` otherwise, and the requested one when it is one of those |
| QaoaRunner.FirstSolution | python/services/svc_qaoarunner_qpm/svc_qrc.py:21 | the scan finds the first line starting `solution:`, or -1 when none does |
| QaoaRunner.ParseResult | python/services/svc_qaoarunner_qpm/svc_qrc.py:13-30 | every failure is a DEFwError carrying the dumped record of the error the `try` raised; for empty output that of "Empty output!"; it succeeds exactly when the `try` body does, with a dict whose single key is `solution` |
| QaoaRunner.Read | python/services/svc_qaoarunner_qpm/svc_qrc.py:15-27 | inside the `try`, empty output raises "Empty output!", every error is a DEFwError, and an answer is a dict with the single key `solution` |
| QaoaRunner.NoSolutionExactly | python/services/svc_qaoarunner_qpm/svc_qrc.py:20-30 | non-empty output fails with the dumped record of "Could not parse solution!" exactly when no line starts with `solution:` |
| QaoaRunner.SolutionStripped | python/services/svc_qaoarunner_qpm/svc_qrc.py:25 | a found solution has no white space at either end |
| QaoaRunner.NoTag | python/services/svc_qaoarunner_qpm/svc_qrc.py:25 | text without a colon holds no `solution:` |
| QaoaRunner.SolutionOfLine | python/services/svc_qaoarunner_qpm/svc_qrc.py:21-25 | `solution:`, padding and a stripped solution without colons is a solution line that reads back as that solution |
| QaoaRunner.FirstSolutionAfter | python/services/svc_qaoarunner_qpm/svc_qrc.py:21 | behind lines that do not start with `solution:`, the scan finds the given line |
| QaoaRunner.FirstSolutionAt | python/services/svc_qaoarunner_qpm/svc_qrc.py:21 | the scan stops at the first solution line |
| QaoaRunner.ParsePrinted | python/services/svc_qaoarunner_qpm/svc_qrc.py:13-27 | output whose first solution line is `solution:`, padding and a solution reads back as that solution, whatever the other lines say |
| QaoaRunner.OneLine | python/services/svc_qaoarunner_qpm/svc_qrc.py:20 | a solution line holds no line break |
| QaoaRunner.PrintedLines | python/services/svc_qaoarunner_qpm/svc_qrc.py:20-21 | joined lines split back, and the scan finds the first solution line |
| QaoaRunner.GetOr | python/services/svc_qaoarunner_qpm/svc_qrc.py:43-47 | `info.get`: the value when the key is present, the default otherwise |
| QaoaRunner.FormCmd | python/services/svc_qaoarunner_qpm/svc_qrc.py:32-52 | a command needs the runner on the path and the QUBO file present; a missing runner gives its ExecutionError; with the runner found, the command succeeds exactly when the file exists |
| QaoaRunner.FormCmdWords | python/services/svc_qaoarunner_qpm/svc_qrc.py:43-49 | split at spaces the command gives back the runner, the five settings and the file |
| QaoaRunner.DefaultSettings | python/services/svc_qaoarunner_qpm/svc_qrc.py:43-47 | without settings the runner uses nwqsim, AMDGPU, GPU, sync and 1 repetition |
| Numerals.ZeroPadReads | python/infra/defw_util.py:117-118 | a zero-padded host number reads back with `int()` as that number |
| Numerals.ParseZeroPadded | python/infra/defw_util.py:117-118 | the sign, any zeros and the digits of an integer read back as that integer |
| Numerals.SuffixValue | python/services/svc_ibmq_qpm/svc_qrc.py:196 | the value of the last `w` digits is the value modulo base^w |
| Render.StrIntRoundTrip | python/services/svc_nwqsim_qpm/svc_qrc.py:36 | `int(str(i))` is `i` |
| Strings.SplitJoin | python/services/svc_nwqsim_qpm/svc_qrc.py:21 | splitting a join of separator-free pieces gives the pieces back |
| Strings.JoinSplit | python/services/svc_nwqsim_qpm/svc_qrc.py:21 | joining the pieces of a split with the separator gives the text back |
| Strings.SplitLinesJoin | python/services/svc_tnqvm_qpm/svc_qrc.py:76 | lines without line breaks, the last one non-empty, joined by newlines split back into those lines |
| Lists.RemoveFirstMultiset | python/services/svc_ibmq_qpm/svc_qrc.py:535 | `list.remove(x)` on a list holding `x` takes exactly one copy of it out |
| Lists.RemoveAllMultiset | python/services/svc_ibmq_qpm/svc_qrc.py:534-535 | removing, one by one, elements that are all present takes exactly them out, so no `remove` raises |
| Lists.RemoveFirstDistinct | python/services/svc_ibmq_qpm/svc_qrc.py:535 | in a list without repeats, `remove(x)` takes out exactly `x` |
| Lists.RemoveAllDistinct | python/services/svc_ibmq_qpm/svc_qrc.py:534-535 | in a list without repeats, removing each element of a list leaves the elements not in it, in order |
| Lists.SelectMultiset | python/services/svc_ibmq_qpm/svc_qrc.py:473-535 | the selected and the unselected elements together are the whole list |
| Lists.RemoveSelectedMultiset | python/services/svc_ibmq_qpm/svc_qrc.py:534-535 | removing the selected elements one by one leaves, as a multiset, the unselected ones |
| Lists.RemoveSelectedDistinct | python/services/svc_ibmq_qpm/svc_qrc.py:534-535 | in a list without repeats, removing the selected elements leaves the unselected ones in order |
| OrderedMaps.PutAllFresh | python/services/svc_nwqsim_qpm/svc_qrc.py:37 | assigning distinct new keys to a dict appends them, in order, with their values |
| OrderedMaps.PutAllWhole | python/services/svc_nwqsim_qpm/svc_qrc.py:32-37 | assigning a dict's keys in order into an empty dict rebuilds it, order included |
| OrderedMaps.FromPairsLast | python/services/svc_nwqsim_qpm/svc_qrc.py:37 | every assigned key ends up holding the value of its last assignment |
| OrderedMaps.FromPairsKeys | python/services/svc_nwqsim_qpm/svc_qrc.py:37 | a dict built by assignment has no key that no assignment supplied |
| OrderedMaps.SumPut | python/services/svc_ibmq_qpm/svc_qrc.py:224 | assigning a value to a key shifts the sum of the values by the difference, or by the value for a new key |

## Left out

- The IBM Quantum submission paths `run_circuit` and `run_circuit_async` (`svc_ibmq_qpm/svc_qrc.py:301-459`) are left out. They are HTTP submit-and-poll loops with `time.sleep`. Their replies reach the model only as the poll inputs of `IbmqQrc.CheckActiveTasks`.
- `_request`, `_get_env`, `_jobs_url` and `_headers` are reduced to one input: whether the jobs URL and headers could be built (`envOk`). The HTTP session is not modelled.
- The IBMQ executor's `form_cmd` only raises DEFwError, and it is never called on that path, so it is not modelled.
- The IBMQ QPM constructor, with its token request over the network, is not modelled. Neither is its `query`, which only wraps `query_helper`.
- `status`, `is_ready`, `query_helper`, `reserve`, `release`, `shutdown`, `schedule_shutdown` and `test` of `UTIL_QPM` are not modelled. They delegate to the executor, build a description object, or start a thread, and they hold no logic of their own beyond the readiness flag that the model already gates on.
- The Resource Manager's `register_client`, `register_service` and `__register` are not modelled. As written they cannot run: one line builds an exception without raising it, one passes an unknown keyword argument, and one uses an undefined name.
- The Resource Manager's `query` and the agent RPCs (`query`, `reserve`, `release`, `unregister`) are not modelled. Their outcomes are inputs.
- The native agent API, the enumeration, list locks and `send_req` transport are inputs. The native `defw_agent_uuid_compare` behind endpoint `==` is taken to be equality of the two uuid strings. So are `shutil.which`, `os.path.exists`, `yaml.safe_load`, the environment, files, subprocess output and HTTP replies.
- The circuit class and `MAX_PPN` belong to `util_circuit`, which is not part of this model. The circuit's fields and `can_delete` are inputs, and `MAX_PPN` is the parameter `maxPpn`.
- Concurrency is not modelled. Locks, worker threads and the shutdown thread are out, and each operation is one atomic step.
- Logging, timestamps and wall-clock times are not modelled. The IBMQ finalisation record omits its five timestamps. RPC times are exact reals rather than floats.
- `RPCMetrics.dump`, the `set_*`/`get_*` preference helpers, `save_pref`, `dump_pref` and the log-level setup are not modelled. They are I/O or logging. `load_pref` is modelled from the point where the file's mapping has been read; a missing file is not modelled.
- Output bytes are taken as already decoded UTF-8 text. Tnqvm's `str(out)` branch for a non-bytes value is not modelled.
- The options' `device`, which qiskitaer, qtensor and tnqvm read but never put in the command, is not modelled. The same holds for qtensor's backend choice.
- Launcher.Options: a `qpm_options` value that is not a dict raises TypeError in the model. Python would still answer `in` on a list or string.
- Render.Repr: a string is always quoted with single quotes, without the escaping and the quote switching that `repr` applies.
- Strings.Upper: only ASCII letters are upper-cased.
- Numerals.ParseInt: `int()` is modelled for ASCII digits with an optional sign (and a `0x` prefix in base 16). Underscores between digits and non-ASCII digits are not accepted.
- IbmqQrc.CheckActiveTasks: the replies each task meets are given up front, one status reply and one results reply per task, rather than requested during the pass.
- Launcher.HostLoopJoins: stated for a non-empty list of non-empty entries, which is every host dict the pool produces.
- Nwqsim.ParseResultRoundTrip, Tnqvm.ParsePrinted, CountsLine.ParsePrinted and QaoaRunner.ParsePrinted: the round trips are stated for bit-string keys and for lines as the simulators print them (no line breaks inside a line, no `=` or braces in the payload). Other inputs are covered by the parsers' own contracts.
- ResMgr.Grab: agents are stored under `get_id()` of their endpoint, taken as the input `idOf`. The endpoint class of `infra/defw_agent.py:8-63` defines no `get_id`, so as written that call raises AttributeError; the model takes an endpoint class that has it.
- None of the `DEFw*` names the callers import is defined in `infra/defw_exception.py`, which defines only `IFWError` and its six `IFW*` subclasses. The model takes `DEFwError`, `DEFwCommError`, `DEFwAgentNotFound`, `DEFwInternalError`, `DEFwRemoteError`, `DEFwReserveError` and `DEFwOutOfResources` to be the `IFW*` classes with the same suffix (the kinds `Base` through `OutOfResources`). The reserve and release findings below rest on this identification, since their intended behaviour raises `DEFwReserveError`. `DEFwNotReady`, `DEFwInProgress`, `DEFwNotFound` and `DEFwExecutionError` have no `IFW*` counterpart. They are taken to be subclasses of the base class, so `str()` of one is its dumped record like that of any class there. `util_qpm.py:68,91` raises `DEFwOutOfResources` without importing it from the exception file. That relies on it arriving through `from defw_agent_info import *` (line 1), a module that is not part of this model.
- Exceptions.Rewrap: the dumped record of an error (`__str__`, a YAML rendering holding the frame and stack trace) is the parameter `dump`, not computed. A re-wrapped error's text is therefore stated as `dump` of the caught error, not as its plain message.
- Capacity.TruncDiv: divides exactly and truncates toward zero. Python's `np / MAX_PPN` is a float division and can round differently once `np` exceeds 2^53.
- ResMgr.ReserveFrom: `consume_capacity()` of each service (outside the `try`, in code that is not part of this model) is taken never to raise. A raise there would escape unwrapped and skip that agent's reserve call.
- ResMgr.ReleaseFrom: `release_capacity()` of each service is likewise taken never to raise. A raise there would escape unwrapped and skip that agent's release call.
- Agents.SendReq: the `%s` rendering of an endpoint (its `__repr__`, a YAML dump of `get()`) is the parameter `show`, not computed.
- Agents: the `timeout` attribute (set from the `RPC timeout` preference and by `set_rpc_timeout`) is not modelled. No modelled logic reads it; it only bounds the transport's wait.
- Scheduler.CreateCircuit: the `uuid.uuid4()` id is the input `cid`. Its freshness is not modelled, so a reused id overwrites the earlier circuit.
- Nwqsim.ParseLine: its contract only fixes the error kind. Which lines read is stated by `ParseLinesFails` and `ParseCountLine`.

## Findings

| source | as written | input that shows it | evidently intended | confidence | as-written member | corrected member |
|---|---|---|---|---|---|---|
| python/services/svc_resmgr/svc_resmgr.py:127 | the test reads `self__services_db`, a global name that does not exist, so `deregister` raises NameError for every known agent | `deregister` of an endpoint whose name is in the services registry | `self.__services_db`: the agent is unregistered and removed from its registry | high (not executed) | ResMgr.DeregisterAsWritten (lemma ResMgr.DeregisterDiscrepancy) | ResMgr.Deregister |
| python/services/svc_resmgr/svc_resmgr.py:185-186 | the ReserveError for an unregistered agent is built but not raised, so the agent is reserved anyway | `reserve` of an agent in the services registry whose state lacks the REGISTERED bit | `raise DEFwReserveError(...)`: the reservation is refused | high (not executed) | ResMgr.ReserveAsWritten (lemma ResMgr.ReserveDiscrepancy) | ResMgr.Reserve |
| python/services/svc_resmgr/svc_resmgr.py:219-220 | the message names `{f}`, which is undefined, so building it raises NameError, and the error would not have been raised anyway | `release` of an agent whose state lacks the REGISTERED bit | `raise DEFwReserveError(f"Agent {k} is not registered")` | high (not executed) | ResMgr.ReleaseAsWritten (lemma ResMgr.ReleaseDiscrepancy) | ResMgr.Release |
| python/services/svc_qtensor_qpm/svc_qrc.py:78 | the device check reads `qpm_options` outside the block that binds it, so `form_cmd` raises UnboundLocalError | a launchable circuit whose `info` has no `qpm_options` | the device check inside the `if "qpm_options" in info` block | high (not executed) | QTensor.FormCmdAsWritten (lemma QTensor.WithoutOptions) | QTensor.FormCmd |
