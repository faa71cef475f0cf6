/** The NWQ-Sim executor (python/services/svc_nwqsim_qpm/svc_qrc.py): reading
    the counts table the simulator prints after its Measurement banner, and
    composing the simulator's command line. The output is taken as already
    decoded text. */
module Nwqsim {
  import opened Wrappers
  import opened OrderedMaps
  import opened Values
  import opened Exceptions
  import opened Strings
  import opened Numerals
  import opened Render
  import opened Launcher
  import Seqs

  /** The banner line that precedes the counts. */
  const Marker := "===============  Measurement"

  /** The source's scan for the banner: the index of the last line holding
      it, or -1. `c` is the last banner line before `i`. */
  function Catch(lines: seq<string>, i: nat, c: int): (r: int)
    requires i <= |lines| && -1 <= c < i
    requires c >= 0 ==> Contains(lines[c], Marker)
    requires forall j :: c < j < i ==> !Contains(lines[j], Marker)
    ensures -1 <= r < |lines| && r >= c
    ensures r >= 0 ==> Contains(lines[r], Marker)
    ensures forall j :: r < j < |lines| ==> !Contains(lines[j], Marker)
    decreases |lines| - i
  {
    if i == |lines| then c
    else Catch(lines, i + 1, if Contains(lines[i], Marker) then i else c)
  }

  /** `lines[a:-1]`. */
  function Between(lines: seq<string>, a: nat): (r: seq<string>)
    ensures a <= |lines| - 1 ==> r == lines[a..|lines| - 1]
    ensures a > |lines| - 1 ==> r == []
  {
    if a <= |lines| - 1 then lines[a..|lines| - 1] else []
  }

  /** The characters stripped from a key before white space. */
  const KeyJunk: set<char> := {'"', ' '}

  /** One counts line `key:count`: exactly one colon, a key with quotes
      and white space stripped, and an integer count. */
  function ParseLine(line: string): (r: Result<(string, int), Error>)
    ensures r.Err? ==> r.error.kind == ValueError
  {
    var parts := Split(line, ':');
    if |parts| < 2 then Err(Error(ValueError, "not enough values to unpack (expected 2, got 1)"))
    else if |parts| > 2 then Err(Error(ValueError, "too many values to unpack (expected 2)"))
    else
      var k := Strip(Strip(parts[0], KeyJunk), Whitespace);
      match ParseInt(parts[1], 10)
      case None => Err(Error(ValueError, "invalid literal for int() with base 10: " + Quote(parts[1])))
      case Some(v) => Ok((k, v))
  }

  /** The counts loop: each line in turn, a later key overwriting an
      earlier one; the first bad line stops it. */
  function ParseLines(acc: OMap<string, int>, lines: seq<string>): (r: Result<OMap<string, int>, Error>)
    requires acc.Valid()
    ensures r.Ok? ==> r.value.Valid()
  {
    ParseEach(ParseLine, acc, lines)
  }

  /** The loop of `ParseLines` for any reading of one line. */
  function ParseEach(parse: string -> Result<(string, int), Error>, acc: OMap<string, int>, lines: seq<string>)
    : (r: Result<OMap<string, int>, Error>)
    requires acc.Valid()
    ensures r.Ok? ==> r.value.Valid()
    decreases |lines|
  {
    if |lines| == 0 then Ok(acc)
    else
      match parse(lines[0])
      case Err(e) => Err(e)
      case Ok(kv) => ParseEach(parse, acc.Put(kv.0, kv.1), lines[1..])
  }

  /** The counts loop succeeds exactly when every line is a count. */
  lemma ParseLinesFails(acc: OMap<string, int>, lines: seq<string>)
    requires acc.Valid()
    ensures ParseLines(acc, lines).Ok? <==> forall i :: 0 <= i < |lines| ==> ParseLine(lines[i]).Ok?
  {
    EachFails(ParseLine, acc, lines);
  }

  /** The loop stops early exactly when some line does not read. */
  lemma {:induction false} EachFails(parse: string -> Result<(string, int), Error>,
                                     acc: OMap<string, int>, lines: seq<string>)
    requires acc.Valid()
    ensures ParseEach(parse, acc, lines).Ok? <==> forall i :: 0 <= i < |lines| ==> parse(lines[i]).Ok?
    decreases |lines|
  {
    if |lines| > 0 && parse(lines[0]).Ok? {
      var kv := parse(lines[0]).value;
      var rest := lines[1..];
      EachFails(parse, acc.Put(kv.0, kv.1), rest);
      assert forall i :: 0 <= i < |rest| ==> rest[i] == lines[i + 1];
      assert (forall i :: 0 <= i < |lines| ==> parse(lines[i]).Ok?)
         <==> (forall i :: 0 <= i < |rest| ==> parse(rest[i]).Ok?) by {
        if forall i :: 0 <= i < |rest| ==> parse(rest[i]).Ok? {
          forall i | 0 <= i < |lines| ensures parse(lines[i]).Ok? {
            if i > 0 {
              assert lines[i] == rest[i - 1];
            }
          }
        }
      }
    }
  }

  /** The body of `parse_result`'s `try`: empty output, output without
      the banner and a bad counts line all raise; otherwise the counts are
      read from the lines strictly between the last banner and the final
      line. */
  function Read(out: string): (r: Result<OMap<string, int>, Error>)
    ensures out == "" ==> r == Err(Error(Base, "Empty output!"))
    ensures out != "" && (forall i :: 0 <= i < |Split(out, '\n')| ==> !Contains(Split(out, '\n')[i], Marker)) ==>
              r == Err(Error(Base, "Could not parse result!"))
    ensures r.Ok? ==> r.value.Valid()
  {
    if out == "" then Err(Error(Base, "Empty output!"))
    else
      var lines := Split(out, '\n');
      var c := Catch(lines, 0, -1);
      if c == -1 then Err(Error(Base, "Could not parse result!"))
      else ParseLines(Empty(), Between(lines, c + 1))
  }

  /** `parse_result`: whatever the `try` raises is caught and raised again
      as a DEFwError carrying its `str()`, so the caller sees the dumped
      record of the inner DEFwError, or a bad line's ValueError message. */
  function ParseResult(out: string, dump: Dump): (r: Result<OMap<string, int>, Error>)
    ensures r.Err? ==> r.error.kind == Base
    ensures out == "" ==> r == Err(Error(Base, dump(Error(Base, "Empty output!"))))
    ensures out != "" && (forall i :: 0 <= i < |Split(out, '\n')| ==> !Contains(Split(out, '\n')[i], Marker)) ==>
              r == Err(Error(Base, dump(Error(Base, "Could not parse result!"))))
    ensures Read(out).Err? && Read(out).error.kind == ValueError ==> r == Err(Error(Base, Read(out).error.msg))
    ensures r.Ok? <==> Read(out).Ok?
    ensures r.Ok? ==> r == Read(out) && r.value.Valid()
  {
    match Read(out)
    case Ok(m) => Ok(m)
    case Err(e) => Err(Rewrap(e, dump))
  }

  // ---------------------------------------------------------------------
  // the counts table the simulator prints
  // ---------------------------------------------------------------------

  /** `key:count` lines for the keys `ks`. */
  function CountLines(ks: seq<string>, vals: map<string, int>): (ls: seq<string>)
    requires forall i :: 0 <= i < |ks| ==> ks[i] in vals
    ensures |ls| == |ks|
    ensures forall i :: 0 <= i < |ks| ==> ls[i] == ks[i] + ":" + Decimal(vals[ks[i]])
  {
    seq(|ks|, i requires 0 <= i < |ks| => ks[i] + ":" + Decimal(vals[ks[i]]))
  }

  /** Output with some lines, the banner, one line per count and a final
      newline. */
  function Printed(pre: seq<string>, m: OMap<string, int>): string
    requires m.Valid()
  {
    Join(pre + [Marker] + CountLines(m.keys, m.vals) + [""], '\n')
  }

  /** Text without `=` holds no banner. */
  lemma NoMarker(s: string)
    requires forall i :: 0 <= i < |s| ==> s[i] != '='
    ensures !Contains(s, Marker)
  {
    forall i | 0 <= i ensures !MatchAt(s, Marker, i) {
      if i + |Marker| <= |s| {
        assert s[i..i + |Marker|][0] == s[i] != Marker[0];
      }
    }
  }

  /** One printed counts line reads back as its key and count. */
  lemma ParseCountLine(k: string, v: int)
    requires IsBits(k)
    ensures ParseLine(k + ":" + Decimal(v)) == Ok((k, v))
  {
    DecimalChars(v);
    var d := Decimal(v);
    assert Join([k, d], ':') == k + ":" + d;
    SplitJoin([k, d], ':');
    ParseDecimal(v);
    BitKeyBare(k);
  }

  /** A bit string has nothing to strip. */
  lemma BitKeyBare(k: string)
    requires IsBits(k)
    ensures Strip(Strip(k, KeyJunk), Whitespace) == k
  {
    var a, b := k[0], k[|k| - 1];
    assert a == '0' || a == '1';
    assert b == '0' || b == '1';
    assert a !in KeyJunk && b !in KeyJunk;
    assert a !in Whitespace && b !in Whitespace;
    StripNoop(k, KeyJunk);
    StripNoop(k, Whitespace);
  }

  /** One good line, then the rest. */
  lemma ParseLinesCons(acc: OMap<string, int>, line: string, rest: seq<string>, k: string, v: int)
    requires acc.Valid() && ParseLine(line) == Ok((k, v))
    ensures ParseLines(acc, [line] + rest) == ParseLines(acc.Put(k, v), rest)
  {
    assert ([line] + rest)[1..] == rest;
  }

  /** The counts loop reads the first printed line, then the rest. */
  lemma CountLinesCons(acc: OMap<string, int>, ks: seq<string>, vals: map<string, int>)
    requires acc.Valid() && |ks| > 0
    requires forall i :: 0 <= i < |ks| ==> ks[i] in vals
    requires IsBits(ks[0])
    ensures ParseLines(acc, CountLines(ks, vals)) == ParseLines(acc.Put(ks[0], vals[ks[0]]), CountLines(ks[1..], vals))
  {
    var lines := CountLines(ks, vals);
    assert lines == [lines[0]] + CountLines(ks[1..], vals);
    ParseCountLine(ks[0], vals[ks[0]]);
    ParseLinesCons(acc, lines[0], CountLines(ks[1..], vals), ks[0], vals[ks[0]]);
  }

  /** The counts loop over printed lines puts their keys in order. */
  lemma {:induction false} ParseCountLines(acc: OMap<string, int>, ks: seq<string>, vals: map<string, int>)
    requires acc.Valid()
    requires forall i :: 0 <= i < |ks| ==> ks[i] in vals && IsBits(ks[i])
    ensures ParseLines(acc, CountLines(ks, vals)) == Ok(PutAll(acc, ks, vals))
    decreases |ks|
  {
    if |ks| > 0 {
      CountLinesCons(acc, ks, vals);
      ParseCountLines(acc.Put(ks[0], vals[ks[0]]), ks[1..], vals);
    }
  }

  /** The printed counts lines hold neither a line break nor `=`. */
  lemma CountLinesPlain(ks: seq<string>, vals: map<string, int>)
    requires forall i :: 0 <= i < |ks| ==> ks[i] in vals && IsBits(ks[i])
    ensures forall i :: 0 <= i < |ks| ==> '\n' !in CountLines(ks, vals)[i]
    ensures forall i :: 0 <= i < |ks| ==> forall j :: 0 <= j < |CountLines(ks, vals)[i]| ==> CountLines(ks, vals)[i][j] != '='
  {
    forall i | 0 <= i < |ks|
      ensures forall j :: 0 <= j < |CountLines(ks, vals)[i]| ==> CountLines(ks, vals)[i][j] != '='
      ensures '\n' !in CountLines(ks, vals)[i]
    {
      var k := ks[i];
      DecimalChars(vals[k]);
      assert CountLines(ks, vals)[i] == k + ":" + Decimal(vals[k]);
    }
  }

  /** The printed output splits back into its lines. */
  lemma PrintedLines(pre: seq<string>, m: OMap<string, int>)
    requires m.Valid()
    requires forall i :: 0 <= i < |pre| ==> '\n' !in pre[i]
    requires forall i :: 0 <= i < |m.keys| ==> IsBits(m.keys[i])
    ensures Split(Printed(pre, m), '\n') == pre + [Marker] + CountLines(m.keys, m.vals) + [""]
    ensures Printed(pre, m) != ""
  {
    var cl := CountLines(m.keys, m.vals);
    var lines := pre + [Marker] + cl + [""];
    CountLinesPlain(m.keys, m.vals);
    assert forall i :: 0 <= i < |lines| ==> '\n' !in lines[i];
    SplitJoin(lines, '\n');
  }

  /** In the printed lines the banner is the last line holding it, and the
      lines after it up to the final one are the counts. */
  lemma CatchPrinted(pre: seq<string>, cl: seq<string>)
    requires forall i :: 0 <= i < |cl| ==> forall j :: 0 <= j < |cl[i]| ==> cl[i][j] != '='
    ensures var lines := pre + [Marker] + cl + [""];
            Catch(lines, 0, -1) == |pre| && Between(lines, |pre| + 1) == cl
  {
    var lines := pre + [Marker] + cl + [""];
    assert lines[|pre|] == Marker;
    assert MatchAt(lines[|pre|], Marker, 0);
    forall j | |pre| < j < |lines| ensures !Contains(lines[j], Marker) {
      if j < |lines| - 1 {
        assert lines[j] == cl[j - |pre| - 1];
      }
      NoMarker(lines[j]);
    }
    assert Contains(lines[|pre|], Marker);
    var c := Catch(lines, 0, -1);
    Seqs.Middle(pre, Marker, cl, "");
  }

  /** The counts loop over the printed table of `m` gives back `m`. */
  lemma ParseCountTable(m: OMap<string, int>)
    requires m.Valid()
    requires forall i :: 0 <= i < |m.keys| ==> IsBits(m.keys[i])
    ensures ParseLines(Empty(), CountLines(m.keys, m.vals)) == Ok(m)
  {
    ParseCountLines(Empty(), m.keys, m.vals);
    PutAllWhole(m);
  }

  /** What the simulator prints reads back as the counts it printed, and
      lines before the banner do not matter. */
  lemma ParseResultRoundTrip(pre: seq<string>, m: OMap<string, int>, dump: Dump)
    requires m.Valid()
    requires forall i :: 0 <= i < |pre| ==> '\n' !in pre[i]
    requires forall i :: 0 <= i < |m.keys| ==> IsBits(m.keys[i])
    ensures ParseResult(Printed(pre, m), dump) == Ok(m)
  {
    var cl := CountLines(m.keys, m.vals);
    PrintedLines(pre, m);
    CountLinesPlain(m.keys, m.vals);
    CatchPrinted(pre, cl);
    ParseCountTable(m);
  }

  // ---------------------------------------------------------------------
  // the command
  // ---------------------------------------------------------------------

  /** The backends the simulator accepts. */
  const Backends := ["CPU", "OpenMP", "MPI", "AMDGPU", "AMDGPU_MPI"]

  /** The simulator's own words: program, QASM file and backend, then the
      shot count when given. */
  function SimWords(info: Info, exe: string, qasmFile: string, backend: string): seq<string> {
    ["-v", exe, "--qasm_file", qasmFile, "--backend", backend] + ShotWords(info, "--shots")
  }

  /** `--sim method` when `info` has a method, with no space after it. */
  function SimMethod(info: Info): string {
    if "method" in info.vals then "--sim " + Str(info.vals["method"]) else ""
  }

  /** `form_cmd`: the pre-flight checks, then the launcher prefix and the
      simulator's words; an unknown or missing backend becomes `MPI`. */
  function FormCmd(info: Info, tools: Tools, qasmFile: string): (r: Result<string, Error>)
    ensures !Launchable(info, tools) ==> r.Err?
  {
    var ready :- Prepare(info, tools, "nwqsim_executable", false);
    var opts :- Options(info);
    var backend := Choose(opts, Backends, "MPI", "MPI");
    var prefix :- MpiPrefix(info, ready);
    Ok(prefix + Argv(SimWords(info, ready.exe, qasmFile, backend)) + SimMethod(info))
  }

  /** The words before `--sim`: the launcher prefix, then the simulator's
      own. */
  function Words(info: Info, ready: Ready, qasmFile: string): seq<string>
    requires "provider" in info.vals && "mapping" in info.vals && "np" in info.vals && Options(info).Ok?
  {
    MpiWords(ready.exec, ready.dvm, info.vals["provider"], info.vals["mapping"], info.vals["np"],
             ready.hosts, ready.wrapper)
    + SimWords(info, ready.exe, qasmFile, Choose(Options(info).value, Backends, "MPI", "MPI"))
  }

  /** A composed command is those words, each followed by a space, then
      the `--sim` part. */
  lemma FormCmdText(info: Info, tools: Tools, qasmFile: string)
    requires FormCmd(info, tools, qasmFile).Ok?
    ensures Prepare(info, tools, "nwqsim_executable", false).Ok? && Options(info).Ok?
    ensures "provider" in info.vals && "mapping" in info.vals && "np" in info.vals
    ensures FormCmd(info, tools, qasmFile).value
            == Argv(Words(info, Prepare(info, tools, "nwqsim_executable", false).value, qasmFile)) + SimMethod(info)
  {
    var ready := Prepare(info, tools, "nwqsim_executable", false).value;
    var backend := Choose(Options(info).value, Backends, "MPI", "MPI");
    ArgvAppend(MpiWords(ready.exec, ready.dvm, info.vals["provider"], info.vals["mapping"], info.vals["np"],
                        ready.hosts, ready.wrapper),
               SimWords(info, ready.exe, qasmFile, backend));
  }

  /** The backend is one of the five accepted ones, and the requested one
      when it is accepted. */
  lemma FormCmdBackend(info: Info, tools: Tools, qasmFile: string)
    requires FormCmd(info, tools, qasmFile).Ok?
    ensures Options(info).Ok?
    ensures Choose(Options(info).value, Backends, "MPI", "MPI") in Backends
    ensures Options(info).value.Some? && Requested(Options(info).value.value, Backends) ==>
              Choose(Options(info).value, Backends, "MPI", "MPI") == Options(info).value.value.vals["backend"].s
  {
  }

  /** Split at spaces, the command gives back the launcher's words, then
      the simulator, the QASM file and the backend, `--shots` only with a
      shot count and `--sim` only with a method, when no word holds a
      space. */
  lemma FormCmdWords(info: Info, tools: Tools, qasmFile: string)
    requires FormCmd(info, tools, qasmFile).Ok?
    ensures Prepare(info, tools, "nwqsim_executable", false).Ok? && Options(info).Ok?
    ensures "provider" in info.vals && "mapping" in info.vals && "np" in info.vals
    ensures var ws := Words(info, Prepare(info, tools, "nwqsim_executable", false).value, qasmFile);
            && (NoSpace(ws) && "method" !in info.vals ==> Split(FormCmd(info, tools, qasmFile).value, ' ') == ws + [""])
            && (NoSpace(ws) && "method" in info.vals && ' ' !in Str(info.vals["method"]) ==>
                 Split(FormCmd(info, tools, qasmFile).value, ' ') == ws + ["--sim", Str(info.vals["method"])])
  {
    FormCmdText(info, tools, qasmFile);
    var ws := Words(info, Prepare(info, tools, "nwqsim_executable", false).value, qasmFile);
    var cmd := FormCmd(info, tools, qasmFile).value;
    if "method" !in info.vals {
      assert cmd == Argv(ws) + "";
      if NoSpace(ws) {
        ArgvWords(ws, "");
      }
    } else {
      SimTail(ws, Str(info.vals["method"]));
    }
  }

  /** Words, then `--sim m`, split back at spaces. */
  lemma SimTail(ws: seq<string>, m: string)
    ensures NoSpace(ws) && ' ' !in m ==> Split(Argv(ws) + ("--sim " + m), ' ') == ws + ["--sim", m]
  {
    ArgvAppend(ws, ["--sim"]);
    assert Argv(["--sim"]) == "--sim " + Argv([]);
    assert Argv(ws) + ("--sim " + m) == Argv(ws + ["--sim"]) + m;
    if NoSpace(ws) && ' ' !in m {
      assert NoSpace(ws + ["--sim"]);
      ArgvWords(ws + ["--sim"], m);
      assert ws + ["--sim"] + [m] == ws + ["--sim", m];
    }
  }
}
