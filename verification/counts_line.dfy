/** The output reader shared, character for character, by the Qiskit Aer,
    QTensor and IonQ executors (`parse_result` in their svc_qrc.py): the
    first output line that mentions `counts` carries, after its first `=`,
    a YAML document with the histogram. The YAML reader is a parameter. */
module CountsLine {
  import opened Wrappers
  import opened Values
  import opened Exceptions
  import opened Strings

  /** `yaml.safe_load`: the document read, or the text of the error it
      raised. */
  type Loader = string -> Result<Value, string>

  const Tag := "counts"
  const DecodePrefix := "Failed to decode output: "
  const ParsePrefix := "Failed to parse output: "

  /** The index of the first line at or after `i` that mentions `counts`,
      or -1. */
  function FirstCounts(lines: seq<string>, i: nat): (r: int)
    requires i <= |lines|
    ensures r == -1 || (i <= r < |lines| && Contains(lines[r], Tag))
    ensures forall j :: i <= j < |lines| && (r == -1 || j < r) ==> !Contains(lines[j], Tag)
    decreases |lines| - i
  {
    if i == |lines| then -1
    else if Contains(lines[i], Tag) then i
    else FirstCounts(lines, i + 1)
  }

  /** The body of `parse_result`'s outer `try`: empty output raises; the
      first `counts` line's text after its first `=` goes to the YAML
      reader and its document is the answer; with no such line the method
      falls off its end and answers `None`. The inner `except` turns a
      missing `=` (IndexError) or a YAML error into a DEFwError "Failed to
      parse output: " followed by that error's text. */
  function Read(out: string, load: Loader): (r: Result<Option<Value>, Error>)
    ensures out == "" ==> r == Err(Error(Base, "Empty output!"))
    ensures r.Err? ==> r.error.kind == Base
    ensures r.Err? && out != "" ==> |ParsePrefix| <= |r.error.msg| && r.error.msg[..|ParsePrefix|] == ParsePrefix
  {
    if out == "" then Err(Error(Base, "Empty output!"))
    else
      var lines := Split(out, '\n');
      var i := FirstCounts(lines, 0);
      if i < 0 then Ok(None)
      else
        var parts := Split(lines[i], '=');
        if |parts| < 2 then Err(Error(Base, ParsePrefix + "list index out of range"))
        else
          match load(parts[1])
          case Ok(v) => Ok(Some(v))
          case Err(m) => Err(Error(Base, ParsePrefix + m))
  }

  /** `parse_result`: the outer `except` raises a DEFwError "Failed to
      decode output: " followed by `str()` of what the body raised, which
      is that DEFwError's dumped record. */
  function ParseResult(out: string, load: Loader, dump: Dump): (r: Result<Option<Value>, Error>)
    ensures r.Err? ==> Read(out, load).Err?
                       && r.error == Error(Base, DecodePrefix + dump(Read(out, load).error))
    ensures out == "" ==> r == Err(Error(Base, DecodePrefix + dump(Error(Base, "Empty output!"))))
    ensures r.Ok? <==> Read(out, load).Ok?
    ensures r.Ok? ==> r == Read(out, load)
  {
    match Read(out, load)
    case Ok(v) => Ok(v)
    case Err(e) => Err(Error(Base, DecodePrefix + Shown(e, dump)))
  }

  /** No line mentions `counts`. */
  predicate NoCounts(lines: seq<string>) {
    forall j :: 0 <= j < |lines| ==> !Contains(lines[j], Tag)
  }

  /** Non-empty output answers `None` exactly when no line mentions
      `counts`. */
  lemma NoneExactly(out: string, load: Loader, dump: Dump)
    requires out != ""
    ensures ParseResult(out, load, dump) == Ok(None) <==> NoCounts(Split(out, '\n'))
  {
    var lines := Split(out, '\n');
    var i := FirstCounts(lines, 0);
    if i >= 0 {
      assert Contains(lines[i], Tag);
      var parts := Split(lines[i], '=');
      if |parts| >= 2 {
        var r := Read(out, load);
        assert r.Err? || r.value.Some?;
      }
    }
  }

  // ---------------------------------------------------------------------
  // the line the simulators print
  // ---------------------------------------------------------------------

  /** The pieces of `key=text` followed by `rest`, where `rest` is empty
      or starts a further `=` field. */
  lemma SplitField(key: string, text: string, rest: string)
    requires '=' !in key && '=' !in text
    requires rest == "" || rest[0] == '='
    ensures |Split(key + "=" + text + rest, '=')| >= 2
    ensures Split(key + "=" + text + rest, '=')[1] == text
  {
    assert key + "=" + text + rest == key + ("=" + (text + rest));
    SplitFreePrefix(key, "=" + (text + rest), '=');
    assert ("=" + (text + rest))[1..] == text + rest;
    SplitFreePrefix(text, rest, '=');
    if rest != "" {
      assert Split(rest, '=')[0] == "";
    }
  }

  /** Output lines with one line `key=text…` that mentions `counts`,
      behind lines that do not, reads as the YAML reader's answer on
      `text`, whatever follows that line; a YAML error reaches the caller
      inside the dumped record of the "Failed to parse output" error. */
  lemma ParsePrinted(pre: seq<string>, key: string, text: string, rest: string, post: seq<string>,
                     load: Loader, dump: Dump)
    requires forall j :: 0 <= j < |pre| ==> '\n' !in pre[j] && !Contains(pre[j], Tag)
    requires forall j :: 0 <= j < |post| ==> '\n' !in post[j]
    requires '\n' !in key + "=" + text + rest
    requires Contains(key, Tag) && '=' !in key && '=' !in text
    requires rest == "" || rest[0] == '='
    ensures ParseResult(Join(pre + [key + "=" + text + rest] + post, '\n'), load, dump)
            == match load(text)
               case Ok(v) => Ok(Some(v))
               case Err(m) => Err(Error(Base, DecodePrefix + dump(Error(Base, ParsePrefix + m))))
  {
    var line := key + "=" + text + rest;
    CountsInLine(key, text, rest);
    PrintedLines(pre, line, post);
    SplitField(key, text, rest);
  }

  /** Joined lines split back, and the scan finds the first line that
      mentions `counts`. */
  lemma PrintedLines(pre: seq<string>, line: string, post: seq<string>)
    requires forall j :: 0 <= j < |pre| ==> '\n' !in pre[j] && !Contains(pre[j], Tag)
    requires forall j :: 0 <= j < |post| ==> '\n' !in post[j]
    requires '\n' !in line && Contains(line, Tag)
    ensures Join(pre + [line] + post, '\n') != ""
    ensures Split(Join(pre + [line] + post, '\n'), '\n') == pre + [line] + post
    ensures FirstCounts(pre + [line] + post, 0) == |pre|
  {
    SplitJoinAround(pre, line, post, '\n');
    FirstCountsAfter(pre, line, post);
  }

  /** Behind lines that do not mention `counts`, the scan finds `line`. */
  lemma FirstCountsAfter(pre: seq<string>, line: string, post: seq<string>)
    requires forall j :: 0 <= j < |pre| ==> !Contains(pre[j], Tag)
    requires Contains(line, Tag)
    ensures FirstCounts(pre + [line] + post, 0) == |pre|
  {
    var lines := pre + [line] + post;
    assert lines[|pre|] == line;
    assert forall j :: 0 <= j < |pre| ==> lines[j] == pre[j];
    FirstCountsAt(lines, |pre|);
  }

  /** A line whose key mentions `counts` mentions it. */
  lemma CountsInLine(key: string, text: string, rest: string)
    requires Contains(key, Tag)
    ensures Contains(key + "=" + text + rest, Tag)
  {
    var k := FindFrom(key, Tag, 0);
    var line := key + "=" + text + rest;
    assert line[k..k + |Tag|] == key[k..k + |Tag|];
    ContainsAt(line, Tag, k);
  }

  /** The scan stops at the first line that mentions `counts`. */
  lemma FirstCountsAt(lines: seq<string>, k: nat)
    requires k < |lines| && Contains(lines[k], Tag)
    requires forall j :: 0 <= j < k ==> !Contains(lines[j], Tag)
    ensures FirstCounts(lines, 0) == k
  {
  }
}
