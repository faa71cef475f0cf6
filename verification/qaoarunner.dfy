/** The QAOA runner executor (python/services/svc_qaoarunner_qpm/svc_qrc.py):
    reading the solution the runner prints, and composing the runner's
    command line from the circuit info. */
module QaoaRunner {
  import opened Wrappers
  import opened OrderedMaps
  import opened Values
  import opened Exceptions
  import opened Strings
  import opened Render
  import opened Launcher

  const Tag := "solution:"

  /** A line that starts with `solution:`. */
  predicate IsSolutionLine(line: string) {
    MatchAt(line, Tag, 0)
  }

  /** The index of the first solution line at or after `i`, or -1. */
  function FirstSolution(lines: seq<string>, i: nat): (r: int)
    requires i <= |lines|
    ensures r == -1 || (i <= r < |lines| && IsSolutionLine(lines[r]))
    ensures forall j :: i <= j < |lines| && (r == -1 || j < r) ==> !IsSolutionLine(lines[j])
    decreases |lines| - i
  {
    if i == |lines| then -1
    else if IsSolutionLine(lines[i]) then i
    else FirstSolution(lines, i + 1)
  }

  /** The dict `{"solution": sol}`. */
  function Answer(sol: string): Value {
    VDict(OMap(["solution"], map["solution" := VStr(sol)]))
  }

  /** The body of `parse_result`'s `try`: empty output and output without
      a solution line raise; otherwise the text after the last `solution:`
      of the first solution line, stripped, is the solution. */
  function Read(out: string): (r: Result<Value, Error>)
    ensures out == "" ==> r == Err(Error(Base, "Empty output!"))
    ensures r.Err? ==> r.error.kind == Base
    ensures r.Ok? ==> r.value.VDict? && r.value.entries.keys == ["solution"] && r.value.entries.Valid()
                      && r.value.entries.vals["solution"].VStr?
  {
    if out == "" then Err(Error(Base, "Empty output!"))
    else
      var lines := Split(out, '\n');
      var i := FirstSolution(lines, 0);
      if i < 0 then Err(Error(Base, "Could not parse solution!"))
      else Ok(Answer(Strip(LastPiece(lines[i], Tag), Whitespace)))
  }

  /** `parse_result`: what the `try` raises is caught and raised again as
      a DEFwError carrying the inner error's `str()`, its dumped record. */
  function ParseResult(out: string, dump: Dump): (r: Result<Value, Error>)
    ensures r.Err? ==> Read(out).Err? && r.error == Error(Base, dump(Read(out).error))
    ensures out == "" ==> r == Err(Error(Base, dump(Error(Base, "Empty output!"))))
    ensures r.Ok? <==> Read(out).Ok?
    ensures r.Ok? ==> r == Read(out) && r.value.VDict? && r.value.entries.keys == ["solution"]
                      && r.value.entries.Valid() && r.value.entries.vals["solution"].VStr?
  {
    match Read(out)
    case Ok(v) => Ok(v)
    case Err(e) => Err(Rewrap(e, dump))
  }

  /** Non-empty output lacks a solution exactly when no line starts with
      `solution:`; the caller then sees the dumped record of the error
      "Could not parse solution!". */
  lemma NoSolutionExactly(out: string, dump: Dump)
    requires out != ""
    ensures ParseResult(out, dump) == Err(Error(Base, dump(Error(Base, "Could not parse solution!"))))
            <==> forall j :: 0 <= j < |Split(out, '\n')| ==> !IsSolutionLine(Split(out, '\n')[j])
  {
    var lines := Split(out, '\n');
    var i := FirstSolution(lines, 0);
    if i >= 0 {
      assert IsSolutionLine(lines[i]);
      assert Read(out) == Ok(Answer(Strip(LastPiece(lines[i], Tag), Whitespace)));
      assert ParseResult(out, dump) != Err(Error(Base, dump(Error(Base, "Could not parse solution!"))));
      assert 0 <= i < |Split(out, '\n')| && IsSolutionLine(Split(out, '\n')[i]);
    } else {
      assert Read(out) == Err(Error(Base, "Could not parse solution!"));
      assert ParseResult(out, dump) == Err(Error(Base, dump(Error(Base, "Could not parse solution!"))));
      assert forall j :: 0 <= j < |lines| ==> !IsSolutionLine(lines[j]);
    }
  }

  /** A found solution is stripped of white space. */
  lemma SolutionStripped(out: string)
    requires Read(out).Ok?
    ensures var sol := Read(out).value.entries.vals["solution"].s;
            |sol| > 0 ==> sol[0] !in Whitespace && sol[|sol| - 1] !in Whitespace
  {
    var lines := Split(out, '\n');
    var p := LastPiece(lines[FirstSolution(lines, 0)], Tag);
    var l := LStrip(p, Whitespace);
    var sol := RStrip(l, Whitespace);
    if |sol| > 0 {
      assert sol[0] == l[0];
    }
  }

  // ---------------------------------------------------------------------
  // the line the runner prints
  // ---------------------------------------------------------------------

  /** Text without a colon holds no `solution:`. */
  lemma NoTag(x: string)
    requires ':' !in x
    ensures FindFrom(x, Tag, 0) == -1
  {
    forall i | 0 <= i
      ensures !MatchAt(x, Tag, i)
    {
      if i + 9 <= |x| {
        assert x[i..i + 9][8] == x[i + 8];
      }
    }
  }

  /** A solution line reads back as its solution. */
  lemma SolutionOfLine(pad: string, sol: string)
    requires forall j :: 0 <= j < |pad| ==> pad[j] == ' '
    requires |sol| > 0 && sol[0] !in Whitespace && sol[|sol| - 1] !in Whitespace && ':' !in sol
    ensures IsSolutionLine(Tag + pad + sol)
    ensures Strip(LastPiece(Tag + pad + sol, Tag), Whitespace) == sol
  {
    var line := Tag + pad + sol;
    var x := pad + sol;
    assert line == Tag + x;
    assert line[0..9] == Tag;
    assert FindFrom(line, Tag, 0) == 0;
    LastPieceStep(line, Tag);
    assert line[9..] == x;
    assert ':' !in x;
    NoTag(x);
    assert SplitOn(x, Tag) == [x];
    StripPadded(pad, sol, "", Whitespace);
    assert pad + sol + "" == x;
  }

  /** Behind lines that do not start with `solution:`, the scan finds
      `line`. */
  lemma FirstSolutionAfter(pre: seq<string>, line: string, post: seq<string>)
    requires forall j :: 0 <= j < |pre| ==> !IsSolutionLine(pre[j])
    requires IsSolutionLine(line)
    ensures FirstSolution(pre + [line] + post, 0) == |pre|
  {
    var lines := pre + [line] + post;
    assert lines[|pre|] == line;
    assert forall j :: 0 <= j < |pre| ==> lines[j] == pre[j];
    FirstSolutionAt(lines, |pre|);
  }

  /** The scan stops at the first solution line. */
  lemma FirstSolutionAt(lines: seq<string>, k: nat)
    requires k < |lines| && IsSolutionLine(lines[k])
    requires forall j :: 0 <= j < k ==> !IsSolutionLine(lines[j])
    ensures FirstSolution(lines, 0) == k
  {
  }

  /** Output whose first solution line is `solution:`, padding and a
      stripped solution without colons reads back as that solution,
      whatever the other lines say. */
  lemma ParsePrinted(pre: seq<string>, pad: string, sol: string, post: seq<string>, dump: Dump)
    requires forall j :: 0 <= j < |pre| ==> '\n' !in pre[j] && !IsSolutionLine(pre[j])
    requires forall j :: 0 <= j < |post| ==> '\n' !in post[j]
    requires forall j :: 0 <= j < |pad| ==> pad[j] == ' '
    requires |sol| > 0 && sol[0] !in Whitespace && sol[|sol| - 1] !in Whitespace && ':' !in sol && '\n' !in sol
    ensures ParseResult(Join(pre + [Tag + pad + sol] + post, '\n'), dump) == Ok(Answer(sol))
  {
    var line := Tag + pad + sol;
    OneLine(pad, sol);
    SolutionOfLine(pad, sol);
    PrintedLines(pre, line, post);
    assert (pre + [line] + post)[|pre|] == line;
  }

  /** A solution line is one line. */
  lemma OneLine(pad: string, sol: string)
    requires forall j :: 0 <= j < |pad| ==> pad[j] == ' '
    requires '\n' !in sol
    ensures '\n' !in Tag + pad + sol
  {
    var line := Tag + pad + sol;
    assert forall j :: 0 <= j < |line| ==> line[j] == (if j < 9 then Tag[j] else if j < 9 + |pad| then pad[j - 9] else sol[j - 9 - |pad|]);
  }

  /** Joined lines split back, and the scan finds the first solution
      line. */
  lemma PrintedLines(pre: seq<string>, line: string, post: seq<string>)
    requires forall j :: 0 <= j < |pre| ==> '\n' !in pre[j] && !IsSolutionLine(pre[j])
    requires forall j :: 0 <= j < |post| ==> '\n' !in post[j]
    requires '\n' !in line && IsSolutionLine(line)
    ensures Join(pre + [line] + post, '\n') != ""
    ensures Split(Join(pre + [line] + post, '\n'), '\n') == pre + [line] + post
    ensures FirstSolution(pre + [line] + post, 0) == |pre|
  {
    SplitJoinAround(pre, line, post, '\n');
    FirstSolutionAfter(pre, line, post);
  }

  // ---------------------------------------------------------------------
  // the command
  // ---------------------------------------------------------------------

  /** `info.get(key, default)`. */
  function GetOr(info: Info, key: string, default: Value): (v: Value)
    ensures key in info.vals ==> v == info.vals[key]
    ensures key !in info.vals ==> v == default
  {
    if key in info.vals then info.vals[key] else default
  }

  /** The runner's settings, in order: simulator, sub-backend, device, run
      mode and repetitions, each with its default. */
  function Settings(info: Info): seq<string> {
    [Str(GetOr(info, "sim_type", VStr("nwqsim"))), Str(GetOr(info, "sub_backend", VStr("AMDGPU"))),
     Str(GetOr(info, "device", VStr("GPU"))), Str(GetOr(info, "run_mode", VStr("sync"))),
     Str(GetOr(info, "reps", VInt(1)))]
  }

  /** `form_cmd`: the runner named by `qfw_backend` must be on the path and
      the QUBO file must exist; the command is the runner, its settings
      and the file, separated by single spaces. */
  function FormCmd(info: Info, tools: Tools, qfile: string): (r: Result<string, Error>)
    ensures r.Ok? ==> "qfw_backend" in info.vals && info.vals["qfw_backend"].VStr?
                      && Found(tools.which(info.vals["qfw_backend"].s)) && tools.pathExists(qfile)
    ensures "qfw_backend" in info.vals && info.vals["qfw_backend"].VStr? && !Found(tools.which(info.vals["qfw_backend"].s))
            ==> r == Err(Error(ExecutionError, "Couldn't find qaoa_runner.qfw executable. Check paths."))
    ensures "qfw_backend" in info.vals && info.vals["qfw_backend"].VStr? && Found(tools.which(info.vals["qfw_backend"].s))
            ==> (r.Ok? <==> tools.pathExists(qfile))
  {
    var backend :- Field(info, "qfw_backend");
    var exe :- Which(tools, backend);
    if !Found(exe) then Err(Error(ExecutionError, "Couldn't find qaoa_runner.qfw executable. Check paths."))
    else if !tools.pathExists(qfile) then Err(Error(ExecutionError, "QUBO numpy file " + qfile + " does not exist."))
    else Ok(Join([exe.value] + Settings(info) + [qfile], ' '))
  }

  /** Split at spaces, the command gives back the runner, the five settings
      and the file, when none holds a space. */
  lemma FormCmdWords(info: Info, tools: Tools, qfile: string)
    requires FormCmd(info, tools, qfile).Ok?
    ensures var ws := [tools.which(info.vals["qfw_backend"].s).value] + Settings(info) + [qfile];
            (forall i :: 0 <= i < |ws| ==> ' ' !in ws[i]) ==> Split(FormCmd(info, tools, qfile).value, ' ') == ws
  {
    var ws := [tools.which(info.vals["qfw_backend"].s).value] + Settings(info) + [qfile];
    if forall i :: 0 <= i < |ws| ==> ' ' !in ws[i] {
      SplitJoin(ws, ' ');
    }
  }

  /** Without settings in the info the runner simulates with NWQ-Sim on
      AMD GPUs, synchronously, once. */
  lemma DefaultSettings(info: Info)
    requires forall k :: k in ["sim_type", "sub_backend", "device", "run_mode", "reps"] ==> k !in info.vals
    ensures Settings(info) == ["nwqsim", "AMDGPU", "GPU", "sync", "1"]
  {
    assert Str(VInt(1)) == "1";
  }
}
