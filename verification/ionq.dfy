/** The IonQ executor's command (`form_cmd` in
    python/services/svc_ionq_qpm/svc_qrc.py). The client runs directly,
    without the MPI launcher; its output reader is `CountsLine.ParseResult`. */
module IonQ {
  import opened Wrappers
  import opened OrderedMaps
  import opened Values
  import opened Exceptions
  import opened Strings
  import opened Launcher

  const Backends := ["simulator", "qpu"]

  /** The target chosen: none at all without options, `simulator` for a
      missing or unknown one. */
  function Backend(opts: Option<OMap<string, Value>>): string {
    Choose(opts, Backends, "simulator", "")
  }

  /** The client's words: program, QASM file and target, then the shot
      count when given. */
  function ClientWords(info: Info, exe: string, qasmFile: string, backend: string): seq<string> {
    [exe, "-q", qasmFile, "-b", backend] + ShotWords(info, "-s")
  }

  /** `form_cmd`: the same pre-flight checks as the simulators, the first
      host looked up (and unused), then the client's words alone. */
  function FormCmd(info: Info, tools: Tools, qasmFile: string): (r: Result<string, Error>)
    ensures !Launchable(info, tools) ==> r.Err?
    ensures Prepare(info, tools, "ionq_executable", true).Err? ==>
              r == Err(Prepare(info, tools, "ionq_executable", true).error)
    ensures r.Ok? ==> Options(info).Ok?
  {
    var ready :- Prepare(info, tools, "ionq_executable", true);
    var opts :- Options(info);
    Ok(Argv(ClientWords(info, ready.exe, qasmFile, Backend(opts))))
  }

  /** Split at spaces, the command gives back the client's words, when
      none holds a space; the launcher settings play no part. */
  lemma FormCmdWords(info: Info, tools: Tools, qasmFile: string)
    requires FormCmd(info, tools, qasmFile).Ok?
    ensures Prepare(info, tools, "ionq_executable", true).Ok?
    ensures var ws := ClientWords(info, Prepare(info, tools, "ionq_executable", true).value.exe, qasmFile,
                                  Backend(Options(info).value));
            NoSpace(ws) ==> Split(FormCmd(info, tools, qasmFile).value, ' ') == ws + [""]
  {
    var ws := ClientWords(info, Prepare(info, tools, "ionq_executable", true).value.exe, qasmFile,
                          Backend(Options(info).value));
    if NoSpace(ws) {
      ArgvWords(ws, "");
      assert Argv(ws) + "" == Argv(ws);
    }
  }

  /** A host list without hosts stops the command, though only the first
      host is ever looked at. */
  lemma NoHostsFails(info: Info, tools: Tools, qasmFile: string)
    requires Launchable(info, tools) && "hosts" in info.vals && info.vals["hosts"] == VDict(OMap([], map[]))
    ensures FormCmd(info, tools, qasmFile) == Err(Error(IndexError, "list index out of range"))
  {
  }

  /** The target passed on is empty exactly when there are no options, one
      of the two otherwise, and the requested one when it is among them. */
  lemma BackendChoice(opts: Option<OMap<string, Value>>)
    ensures Backend(opts) == "" <==> opts.None?
    ensures opts.Some? ==> Backend(opts) in Backends
    ensures opts.Some? && Requested(opts.value, Backends) ==> Backend(opts) == opts.value.vals["backend"].s
  {
    if opts.Some? {
      assert "" !in Backends;
    }
  }
}
