/** The QTensor executor's command (`form_cmd` in
    python/services/svc_qtensor_qpm/svc_qrc.py), as written and as
    evidently intended. Its output reader is `CountsLine.ParseResult`. */
module QTensor {
  import opened Wrappers
  import opened Values
  import opened Exceptions
  import opened Strings
  import opened Launcher

  /** What reading `qpm_options` raises when it was never bound. */
  const Unbound := Error(UnboundLocalError,
                         "cannot access local variable 'qpm_options' where it is not associated with a value")

  /** The simulator's own words: program and QASM file, then the shot
      count when given. The backend and device the source selects from the
      options never reach the command. */
  function SimWords(info: Info, exe: string, qasmFile: string): seq<string> {
    ["-v", exe, "-q", qasmFile] + ShotWords(info, "-s")
  }

  /** `form_cmd` as written: the device check reads `qpm_options` outside
      the `if "qpm_options" in info` block that binds it, so a circuit
      without options fails before the command is composed. */
  function FormCmdAsWritten(info: Info, tools: Tools, qasmFile: string): (r: Result<string, Error>)
    ensures !Launchable(info, tools) ==> r.Err?
    ensures Prepare(info, tools, "qtensor_executable", false).Ok? && "qpm_options" !in info.vals ==> r == Err(Unbound)
  {
    var ready :- Prepare(info, tools, "qtensor_executable", false);
    var opts :- Options(info);
    if opts.None? then Err(Unbound)
    else
      var prefix :- MpiPrefix(info, ready);
      Ok(prefix + Argv(SimWords(info, ready.exe, qasmFile)))
  }

  /** `form_cmd` with the device check inside the options block: without
      options the command is composed like the other simulators'. */
  function FormCmd(info: Info, tools: Tools, qasmFile: string): (r: Result<string, Error>)
    ensures !Launchable(info, tools) ==> r.Err?
    ensures r != Err(Unbound)
    ensures r.Ok? ==> Options(info).Ok? && "provider" in info.vals && "mapping" in info.vals && "np" in info.vals
  {
    var ready :- Prepare(info, tools, "qtensor_executable", false);
    var opts :- Options(info);
    var prefix :- MpiPrefix(info, ready);
    Ok(prefix + Argv(SimWords(info, ready.exe, qasmFile)))
  }

  /** The discrepancy: a launchable circuit without options and with the
      launcher settings fails as written, and is composed once the check
      is guarded. */
  lemma WithoutOptions(info: Info, tools: Tools, qasmFile: string)
    requires Prepare(info, tools, "qtensor_executable", false).Ok? && "qpm_options" !in info.vals
    requires "provider" in info.vals && "mapping" in info.vals && "np" in info.vals
    ensures FormCmdAsWritten(info, tools, qasmFile) == Err(Unbound)
    ensures FormCmd(info, tools, qasmFile).Ok?
  {
  }

  /** With options present the two agree on every circuit. */
  lemma WithOptionsAgree(info: Info, tools: Tools, qasmFile: string)
    requires "qpm_options" in info.vals
    ensures FormCmdAsWritten(info, tools, qasmFile) == FormCmd(info, tools, qasmFile)
  {
  }

  /** All the words of a composed command: the launcher prefix, then the
      simulator's. */
  function Words(info: Info, ready: Ready, qasmFile: string): seq<string>
    requires "provider" in info.vals && "mapping" in info.vals && "np" in info.vals
  {
    MpiWords(ready.exec, ready.dvm, info.vals["provider"], info.vals["mapping"], info.vals["np"],
             ready.hosts, ready.wrapper)
    + SimWords(info, ready.exe, qasmFile)
  }

  /** A composed command is its words, each followed by a space; split at
      spaces it gives them back, when none holds a space. */
  lemma FormCmdWords(info: Info, tools: Tools, qasmFile: string)
    requires FormCmd(info, tools, qasmFile).Ok?
    ensures Prepare(info, tools, "qtensor_executable", false).Ok?
    ensures var ws := Words(info, Prepare(info, tools, "qtensor_executable", false).value, qasmFile);
            FormCmd(info, tools, qasmFile).value == Argv(ws)
            && (NoSpace(ws) ==> Split(FormCmd(info, tools, qasmFile).value, ' ') == ws + [""])
  {
    var ready := Prepare(info, tools, "qtensor_executable", false).value;
    var ms := MpiWords(ready.exec, ready.dvm, info.vals["provider"], info.vals["mapping"], info.vals["np"],
                       ready.hosts, ready.wrapper);
    var ss := SimWords(info, ready.exe, qasmFile);
    ArgvAppend(ms, ss);
    if NoSpace(ms + ss) {
      ArgvWords(ms + ss, "");
      assert Argv(ms + ss) + "" == Argv(ms + ss);
    }
  }
}
