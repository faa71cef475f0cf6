/** What the simulator executors (the `svc_qrc.py` files of the nwqsim,
    tnqvm, qiskitaer, qtensor and ionq services) share when composing a
    command line: reading the circuit's `info` dict, the pre-flight checks
    on the simulator, the GPU wrapper and the DVM URI, the host string, and
    the `prun`-style launcher prefix. `shutil.which` and `os.path.exists`
    are inputs. A command is a run of words each followed by one space, as
    the source's f-strings write them. */
module Launcher {
  import opened Wrappers
  import opened OrderedMaps
  import opened Values
  import opened Exceptions
  import opened Strings
  import opened Render

  /** A circuit's `info` dict. */
  type Info = OMap<string, Value>

  /** The two questions the executors ask of the machine. */
  datatype Tools = Tools(which: string -> Option<string>, pathExists: string -> bool)

  /** `info[key]`. */
  function Field(info: Info, key: string): (r: Result<Value, Error>)
    ensures r.Ok? <==> key in info.vals
    ensures r.Ok? ==> r.value == info.vals[key]
    ensures r.Err? ==> r.error == Error(KeyError, key)
  {
    if key in info.vals then Ok(info.vals[key]) else Err(Error(KeyError, key))
  }

  /** `shutil.which(v)`: only a string names a program. */
  function Which(tools: Tools, v: Value): (r: Result<Option<string>, Error>)
    ensures r.Ok? <==> v.VStr?
    ensures r.Ok? ==> r.value == tools.which(v.s)
  {
    if v.VStr? then Ok(tools.which(v.s))
    else Err(Error(TypeError, "expected str, bytes or os.PathLike object, not " + TypeName(v)))
  }

  /** A lookup result Python treats as true. */
  predicate Found(p: Option<string>) {
    p.Some? && p.value != ""
  }

  /** A lookup result as an f-string shows it. */
  function PathText(p: Option<string>): string {
    if p.Some? then p.value else "None"
  }

  /** `uri.split('file:')[1]`: the text after the first `file:`, up to
      any second one. */
  function DvmFile(uri: Value): (r: Result<string, Error>)
    ensures r.Ok? <==> uri.VStr? && |SplitOn(uri.s, "file:")| >= 2
    ensures r.Ok? ==> r.value == SplitOn(uri.s, "file:")[1]
  {
    if !uri.VStr? then Err(Error(AttributeError, "'" + TypeName(uri) + "' object has no attribute 'split'"))
    else
      var parts := SplitOn(uri.s, "file:");
      if |parts| < 2 then Err(Error(IndexError, "list index out of range")) else Ok(parts[1])
  }

  /** A `file:` URI names the path after the scheme. */
  lemma DvmFileOfUri(path: string)
    requires FindFrom(path, "file:", 0) == -1
    ensures DvmFile(VStr("file:" + path)) == Ok(path)
  {
    var s := "file:" + path;
    assert s[0..5] == "file:";
    assert FindFrom(s, "file:", 0) == 0;
    assert s[5..] == path;
    assert SplitOn(path, "file:") == [path];
  }

  // ---------------------------------------------------------------------
  // host strings
  // ---------------------------------------------------------------------

  /** `f"{k}:{v}"` for a host entry. */
  function HostEntry(k: string, vals: map<string, Value>): (e: string)
    ensures e != ""
  {
    k + ":" + Str(if k in vals then vals[k] else VNone)
  }

  /** The host loop: a comma before every entry but the first. */
  function HostLoop(acc: string, es: seq<string>): string
    decreases |es|
  {
    if |es| == 0 then acc
    else HostLoop((if acc != "" then acc + "," else acc) + es[0], es[1..])
  }

  /** The entries of a host map, in allocation order. */
  function HostEntries(ks: seq<string>, vals: map<string, Value>): (es: seq<string>)
    ensures |es| == |ks|
    ensures forall i :: 0 <= i < |ks| ==> es[i] == HostEntry(ks[i], vals)
  {
    seq(|ks|, i requires 0 <= i < |ks| => HostEntry(ks[i], vals))
  }

  /** `hosts` built from `info["hosts"]`, a dict from host to slots: its
      `host:slots` entries joined by commas, in the dict's order; anything
      but a dict has no `items`. */
  function HostString(hosts: Value): (r: Result<string, Error>)
    ensures r.Ok? <==> hosts.VDict?
    ensures r.Err? ==> r.error.kind == AttributeError
    ensures r.Ok? ==> r.value == Join(HostEntries(hosts.entries.keys, hosts.entries.vals), ',')
  {
    if hosts.VDict? then
      var es := HostEntries(hosts.entries.keys, hosts.entries.vals);
      if |es| > 0 then HostLoopJoins("", es); Ok(HostLoop("", es))
      else Ok(HostLoop("", es))
    else Err(Error(AttributeError, "'" + TypeName(hosts) + "' object has no attribute 'items'"))
  }

  /** The host loop writes the entries joined by commas. */
  lemma {:induction false} HostLoopJoins(acc: string, es: seq<string>)
    requires |es| > 0 && forall i :: 0 <= i < |es| ==> es[i] != ""
    ensures HostLoop(acc, es) == (if acc != "" then acc + "," else "") + Join(es, ',')
    decreases |es|
  {
    var pre := if acc != "" then acc + "," else "";
    var next := pre + es[0];
    assert HostLoop(acc, es) == HostLoop(next, es[1..]);
    if |es| > 1 {
      HostLoopJoins(next, es[1..]);
      JoinCons(es[0], es[1..], ',');
      assert es == [es[0]] + es[1..];
      assert next != "";
      assert HostLoop(next, es[1..]) == pre + (es[0] + [','] + Join(es[1..], ','));
    }
  }

  /** Splitting the host string at commas gives back one `host:slots`
      entry per host, in order, when no host or count holds a comma. */
  lemma HostStringRoundTrip(hosts: OMap<string, Value>)
    requires |hosts.keys| > 0
    requires forall i :: 0 <= i < |hosts.keys| ==> ',' !in HostEntry(hosts.keys[i], hosts.vals)
    ensures HostString(VDict(hosts)).Ok?
    ensures Split(HostString(VDict(hosts)).value, ',') == HostEntries(hosts.keys, hosts.vals)
  {
    HostLoopJoins("", HostEntries(hosts.keys, hosts.vals));
    assert HostString(VDict(hosts)).value == Join(HostEntries(hosts.keys, hosts.vals), ',');
    SplitJoin(HostEntries(hosts.keys, hosts.vals), ',');
  }

  /** ionq's host string: the first host with one slot. */
  function FirstHost(hosts: Value): (r: Result<string, Error>)
    ensures r.Ok? <==> hosts.VDict? && |hosts.entries.keys| > 0
    ensures r.Ok? ==> r.value == hosts.entries.keys[0] + ":1"
  {
    if !hosts.VDict? then Err(Error(AttributeError, "'" + TypeName(hosts) + "' object has no attribute 'keys'"))
    else if |hosts.entries.keys| == 0 then Err(Error(IndexError, "list index out of range"))
    else Ok(hosts.entries.keys[0] + ":1")
  }

  // ---------------------------------------------------------------------
  // pre-flight
  // ---------------------------------------------------------------------

  /** What the checks found: the simulator and the wrapper on the path,
      the DVM URI, the host string and the launcher on the path (if it
      was found). */
  datatype Ready = Ready(exe: string, wrapper: string, dvm: Value, hosts: string, exec: Option<string>)

  /** The conditions under which the pre-flight checks pass. */
  predicate Launchable(info: Info, tools: Tools) {
    && "qfw_backend" in info.vals && info.vals["qfw_backend"].VStr?
    && Found(tools.which(info.vals["qfw_backend"].s)) && Found(tools.which("gpuwrapper.sh"))
    && "qfw_dvm_uri_path" in info.vals && DvmFile(info.vals["qfw_dvm_uri_path"]).Ok?
    && tools.pathExists(DvmFile(info.vals["qfw_dvm_uri_path"]).value)
  }

  /** The checks and lookups every executor makes, in source order: the
      simulator named by `qfw_backend` and `gpuwrapper.sh` must be on the
      path (`what` names the simulator in the error), the DVM URI's file
      must exist, then the host string (the first host only for ionq) and
      the launcher named by `exec` are looked up. */
  function Prepare(info: Info, tools: Tools, what: string, firstHostOnly: bool): (r: Result<Ready, Error>)
    ensures !Launchable(info, tools) ==> r.Err?
    ensures r.Err? && r.error.kind == ExecutionError ==> !Launchable(info, tools)
    ensures "qfw_backend" in info.vals && info.vals["qfw_backend"].VStr?
            && !(Found(tools.which(info.vals["qfw_backend"].s)) && Found(tools.which("gpuwrapper.sh"))) ==>
              r == Err(Error(ExecutionError, "Couldn't find " + what + " or gpuwrapper. Check paths"))
    ensures r.Ok? ==> r.value.exe == tools.which(info.vals["qfw_backend"].s).value
                      && r.value.wrapper == tools.which("gpuwrapper.sh").value
                      && r.value.dvm == info.vals["qfw_dvm_uri_path"]
  {
    var backend :- Field(info, "qfw_backend");
    var exe :- Which(tools, backend);
    var wrapper := tools.which("gpuwrapper.sh");
    if !Found(exe) || !Found(wrapper) then Err(Error(ExecutionError, "Couldn't find " + what + " or gpuwrapper. Check paths"))
    else
      var dvm :- Field(info, "qfw_dvm_uri_path");
      var file :- DvmFile(dvm);
      if !tools.pathExists(file) then Err(Error(ExecutionError, "dvm-uri " + Str(dvm) + " doesn't exist"))
      else
        var hv :- Field(info, "hosts");
        var hosts :- if firstHostOnly then FirstHost(hv) else HostString(hv);
        var execName :- Field(info, "exec");
        var exec :- Which(tools, execName);
        Ok(Ready(exe.value, wrapper.value, dvm, hosts, exec))
  }

  /** With the checks passed and the remaining fields in place, the
      preparation succeeds. */
  lemma PrepareSucceeds(info: Info, tools: Tools, what: string)
    requires Launchable(info, tools)
    requires "hosts" in info.vals && info.vals["hosts"].VDict?
    requires "exec" in info.vals && info.vals["exec"].VStr?
    ensures Prepare(info, tools, what, false).Ok?
    ensures Prepare(info, tools, what, false).value.hosts == HostString(info.vals["hosts"]).value
  {
  }

  // ---------------------------------------------------------------------
  // commands
  // ---------------------------------------------------------------------

  /** Words each followed by a space. */
  function Argv(ws: seq<string>): string
    decreases |ws|
  {
    if |ws| == 0 then "" else ws[0] + " " + Argv(ws[1..])
  }

  /** The words after a first one. */
  lemma ArgvCons(w: string, ws: seq<string>)
    ensures Argv([w] + ws) == w + " " + Argv(ws)
  {
    assert ([w] + ws)[1..] == ws;
  }

  lemma {:induction false} ArgvAppend(a: seq<string>, b: seq<string>)
    ensures Argv(a + b) == Argv(a) + Argv(b)
    decreases |a|
  {
    if |a| > 0 {
      assert (a + b)[1..] == a[1..] + b;
      ArgvAppend(a[1..], b);
    } else {
      assert a + b == b;
    }
  }

  /** Words each followed by a space, then a last piece: the words and
      the piece joined by spaces. */
  lemma {:induction false} ArgvThen(ws: seq<string>, x: string)
    ensures Argv(ws) + x == Join(ws + [x], ' ')
    decreases |ws|
  {
    if |ws| > 0 {
      ArgvThen(ws[1..], x);
      assert (ws + [x])[1..] == ws[1..] + [x];
    }
  }

  predicate NoSpace(ws: seq<string>) {
    forall i :: 0 <= i < |ws| ==> ' ' !in ws[i]
  }

  /** Splitting a command at spaces gives back its words and its last
      piece (empty after a final space), when none of them holds a space. */
  lemma ArgvWords(ws: seq<string>, x: string)
    requires NoSpace(ws) && ' ' !in x
    ensures Split(Argv(ws) + x, ' ') == ws + [x]
  {
    ArgvThen(ws, x);
    SplitJoin(ws + [x], ' ');
  }

  /** The launcher prefix's words. */
  function MpiWords(exec: Option<string>, dvm: Value, provider: Value, mapping: Value, np: Value,
                    hosts: string, wrapper: string): seq<string>
  {
    [PathText(exec), "--dvm", Str(dvm), "-x", "LD_LIBRARY_PATH",
     "--mca", "btl", "^tcp,ofi,vader,openib",
     "--mca", "pml", "^ucx", "--mca", "mtl", "ofi", "--mca", "opal_common_ofi_provider_include",
     Str(provider), "--map-by", Str(mapping), "--bind-to", "core",
     "--np", Str(np), "--host", hosts, wrapper]
  }

  /** The launcher prefix shared by the MPI-launched simulators: launcher,
      DVM, transport settings, then `provider`, `mapping` and `np` from
      `info`, the hosts and the GPU wrapper. */
  function MpiPrefix(info: Info, r: Ready): (cmd: Result<string, Error>)
    ensures cmd.Ok? <==> "provider" in info.vals && "mapping" in info.vals && "np" in info.vals
  {
    var provider :- Field(info, "provider");
    var mapping :- Field(info, "mapping");
    var np :- Field(info, "np");
    Ok(Argv(MpiWords(r.exec, r.dvm, provider, mapping, np, r.hosts, r.wrapper)))
  }

  // ---------------------------------------------------------------------
  // options
  // ---------------------------------------------------------------------

  /** `info["qpm_options"]` when present. Only a dict is modelled as an
      options value; anything else raises TypeError. */
  function Options(info: Info): (r: Result<Option<OMap<string, Value>>, Error>)
    ensures r.Ok? <==> "qpm_options" !in info.vals || info.vals["qpm_options"].VDict?
    ensures r.Ok? && r.value.Some? ==> "qpm_options" in info.vals && info.vals["qpm_options"] == VDict(r.value.value)
    ensures r.Ok? && r.value.None? ==> "qpm_options" !in info.vals
  {
    if "qpm_options" !in info.vals then Ok(None)
    else if info.vals["qpm_options"].VDict? then Ok(Some(info.vals["qpm_options"].entries))
    else Err(Error(TypeError, "argument of type '" + TypeName(info.vals["qpm_options"]) + "' is not a mapping"))
  }

  /** The options name a backend among `allowed`. */
  predicate Requested(opts: OMap<string, Value>, allowed: seq<string>) {
    "backend" in opts.vals && opts.vals["backend"].VStr? && opts.vals["backend"].s in allowed
  }

  /** The backend an executor settles on: `none` without options,
      `fallback` when the options name no backend or one outside
      `allowed`, the requested one otherwise. */
  function Choose(opts: Option<OMap<string, Value>>, allowed: seq<string>, fallback: string, none: string): (b: string)
    ensures opts.None? ==> b == none
    ensures opts.Some? ==> b in allowed || b == fallback
    ensures opts.Some? && Requested(opts.value, allowed) ==> b == opts.value.vals["backend"].s
    ensures opts.Some? && !Requested(opts.value, allowed) ==> b == fallback
  {
    if opts.None? then none
    else if Requested(opts.value, allowed) then opts.value.vals["backend"].s
    else fallback
  }

  /** An option's value, or a default when the options or the key are
      missing. */
  function OptionOr(opts: Option<OMap<string, Value>>, key: string, default: Value): (v: Value)
    ensures opts.Some? && key in opts.value.vals ==> v == opts.value.vals[key]
    ensures !(opts.Some? && key in opts.value.vals) ==> v == default
  {
    if opts.Some? && key in opts.value.vals then opts.value.vals[key] else default
  }

  /** The `-s shots` / `--shots shots` words, present only when `info`
      has `num_shots`. */
  function ShotWords(info: Info, flag: string): (ws: seq<string>)
    ensures "num_shots" in info.vals ==> ws == [flag, Str(info.vals["num_shots"])]
    ensures "num_shots" !in info.vals ==> ws == []
  {
    if "num_shots" in info.vals then [flag, Str(info.vals["num_shots"])] else []
  }
}
