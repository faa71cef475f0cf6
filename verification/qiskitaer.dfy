/** The Qiskit Aer executor's command (`form_cmd` in
    python/services/svc_qiskitaer_qpm/svc_qrc.py). Its output reader is
    `CountsLine.ParseResult`. */
module QiskitAer {
  import opened Wrappers
  import opened OrderedMaps
  import opened Values
  import opened Exceptions
  import opened Strings
  import opened Launcher

  /** The simulation methods the executor passes on. */
  const Backends := ["automatic", "statevector", "density_matrix", "stabilizer", "matrix_product_state",
                     "extended_stabilizer", "unitary", "superop", "tensor_network"]

  /** The method chosen: none at all without options, `statevector` for a
      missing or unknown one. */
  function Backend(opts: Option<OMap<string, Value>>): string {
    Choose(opts, Backends, "statevector", "")
  }

  /** The simulator's own words: program, QASM file and method, then the
      shot count when given. */
  function SimWords(info: Info, exe: string, qasmFile: string, backend: string): seq<string> {
    ["-v", exe, "-q", qasmFile, "-b", backend] + ShotWords(info, "-s")
  }

  /** `form_cmd`: the pre-flight checks, the options, then the launcher
      prefix and the simulator's words. The options' `device` is checked
      against CPU and GPU but never used, so it is not read here. */
  function FormCmd(info: Info, tools: Tools, qasmFile: string): (r: Result<string, Error>)
    ensures !Launchable(info, tools) ==> r.Err?
    ensures r.Ok? ==> Options(info).Ok? && "provider" in info.vals && "mapping" in info.vals && "np" in info.vals
    ensures Prepare(info, tools, "qiskitaer_executable", false).Err? ==>
              r == Err(Prepare(info, tools, "qiskitaer_executable", false).error)
  {
    var ready :- Prepare(info, tools, "qiskitaer_executable", false);
    var opts :- Options(info);
    var prefix :- MpiPrefix(info, ready);
    Ok(prefix + Argv(SimWords(info, ready.exe, qasmFile, Backend(opts))))
  }

  /** All the words of a composed command: the launcher prefix, then the
      simulator's. */
  function Words(info: Info, ready: Ready, qasmFile: string): seq<string>
    requires "provider" in info.vals && "mapping" in info.vals && "np" in info.vals && Options(info).Ok?
  {
    MpiWords(ready.exec, ready.dvm, info.vals["provider"], info.vals["mapping"], info.vals["np"],
             ready.hosts, ready.wrapper)
    + SimWords(info, ready.exe, qasmFile, Backend(Options(info).value))
  }

  /** A composed command is its words, each followed by a space; split at
      spaces it gives them back, when none holds a space. */
  lemma FormCmdWords(info: Info, tools: Tools, qasmFile: string)
    requires FormCmd(info, tools, qasmFile).Ok?
    ensures Prepare(info, tools, "qiskitaer_executable", false).Ok?
    ensures var ws := Words(info, Prepare(info, tools, "qiskitaer_executable", false).value, qasmFile);
            FormCmd(info, tools, qasmFile).value == Argv(ws)
            && (NoSpace(ws) ==> Split(FormCmd(info, tools, qasmFile).value, ' ') == ws + [""])
  {
    var ready := Prepare(info, tools, "qiskitaer_executable", false).value;
    var ms := MpiWords(ready.exec, ready.dvm, info.vals["provider"], info.vals["mapping"], info.vals["np"],
                       ready.hosts, ready.wrapper);
    var ss := SimWords(info, ready.exe, qasmFile, Backend(Options(info).value));
    ArgvAppend(ms, ss);
    if NoSpace(ms + ss) {
      ArgvWords(ms + ss, "");
      assert Argv(ms + ss) + "" == Argv(ms + ss);
    }
  }

  /** The method passed on is empty exactly when there are no options, one
      of the nine otherwise, and the requested one when it is among them. */
  lemma BackendChoice(opts: Option<OMap<string, Value>>)
    ensures Backend(opts) == "" <==> opts.None?
    ensures opts.Some? ==> Backend(opts) in Backends
    ensures opts.Some? && Requested(opts.value, Backends) ==> Backend(opts) == opts.value.vals["backend"].s
  {
    if opts.Some? {
      assert "" !in Backends;
    }
  }
}
