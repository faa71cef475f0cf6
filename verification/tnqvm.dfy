/** The TNQVM executor (python/services/svc_tnqvm_qpm/svc_qrc.py): cutting the
    `"Measurements": {…}` block out of the runner's JSON-like output by
    counting braces, reading one `"bits": count` entry per line of it, and
    composing the circuit runner's command line. The output is taken as
    already decoded text. */
module Tnqvm {
  import opened Wrappers
  import opened OrderedMaps
  import opened Values
  import opened Exceptions
  import opened Strings
  import opened Numerals
  import opened Render
  import opened Launcher
  import opened Seqs

  /** The text that opens the block; its last character is the block's
      opening brace. */
  const MeasTag := "\"Measurements\": {"

  const Braces: set<char> := {'{', '}'}

  // ---------------------------------------------------------------------
  // the brace loop
  // ---------------------------------------------------------------------

  /** The source's loop from index `i` with brace depth `depth`: once the
      first `{` is seen every character is kept, and the loop stops after
      the character that brings the depth back to zero. */
  function Scan(s: string, i: nat, depth: int, inside: bool, acc: string): (r: string)
    requires i <= |s|
    ensures |acc| <= |r| && r[..|acc|] == acc
    decreases |s| - i
  {
    if i == |s| then acc
    else
      var c := s[i];
      var depth' := if c == '{' then depth + 1 else if c == '}' then depth - 1 else depth;
      var inside' := inside || c == '{';
      var acc' := if inside' then acc + [c] else acc;
      if inside' && depth' == 0 then acc' else Scan(s, i + 1, depth', inside', acc')
  }

  /** The block cut out from the match at `k`. */
  function Extract(s: string, k: nat): string
    requires k <= |s|
  {
    Scan(s, k, 0, false, "")
  }

  /** Before the first brace nothing is kept. */
  lemma {:induction false} ScanOutside(s: string, i: nat, j: nat)
    requires i <= j <= |s|
    requires forall x :: i <= x < j ==> s[x] !in Braces
    ensures Scan(s, i, 0, false, "") == Scan(s, j, 0, false, "")
    decreases j - i
  {
    if i < j {
      ScanOutside(s, i + 1, j);
    }
  }

  /** Inside the block, text without braces is kept as it is. */
  lemma {:induction false} ScanInside(s: string, i: nat, j: nat, depth: int, acc: string)
    requires i <= j <= |s| && depth != 0
    requires forall x :: i <= x < j ==> s[x] !in Braces
    ensures Scan(s, i, depth, true, acc) == Scan(s, j, depth, true, acc + s[i..j])
    decreases j - i
  {
    if i < j {
      ScanInside(s, i + 1, j, depth, acc + [s[i]]);
      assert acc + [s[i]] + s[i + 1..j] == acc + s[i..j];
    } else {
      assert acc + s[i..j] == acc;
    }
  }

  /** The first brace opens the block. */
  lemma ScanOpen(s: string, i: nat)
    requires i < |s| && s[i] == '{'
    ensures Scan(s, i, 0, false, "") == Scan(s, i + 1, 1, true, "{")
  {
    assert "" + [s[i]] == "{";
  }

  /** The brace that brings the depth back to zero closes it. */
  lemma ScanClose(s: string, i: nat, acc: string)
    requires i < |s| && s[i] == '}'
    ensures Scan(s, i, 1, true, acc) == acc + "}"
  {
    assert acc + [s[i]] == acc + "}";
  }

  /** The characters of `MeasTag` before its brace are no braces. */
  lemma TagBeforeBrace()
    ensures |MeasTag| == 17 && MeasTag[16] == '{'
    ensures forall x :: 0 <= x < 16 ==> MeasTag[x] !in Braces
  {
  }

  /** Wherever the tag matches, the cut-out block is non-empty and starts
      with the tag's brace, so the "Failed to extract" error never fires. */
  lemma ExtractOpens(s: string, k: nat)
    requires MatchAt(s, MeasTag, k)
    ensures Extract(s, k) != "" && Extract(s, k)[0] == '{'
  {
    TagBeforeBrace();
    var t := s[k..k + 17];
    assert forall x :: 0 <= x < 17 ==> s[k + x] == t[x];
    ScanOutside(s, k, k + 16);
    ScanOpen(s, k + 16);
    var r := Scan(s, k + 17, 1, true, "{");
    assert r[..1] == "{";
  }

  /** With the tag at `k`, a brace-free body and a closing brace, the block
      is exactly the braces and the body. */
  lemma ExtractAt(s: string, k: nat, body: string, post: string)
    requires k <= |s| && s[k..] == MeasTag + body + "}" + post
    requires Avoids(body, Braces)
    ensures Extract(s, k) == "{" + body + "}"
  {
    TagBeforeBrace();
    var e := k + 17 + |body|;
    AtOffsets(s, k, body, post);
    ScanOutside(s, k, k + 16);
    ScanOpen(s, k + 16);
    ScanInside(s, k + 17, e, 1, "{");
    ScanClose(s, e, "{" + body);
  }

  /** Where the tag, the body and the closing brace sit in `s`. */
  lemma AtOffsets(s: string, k: nat, body: string, post: string)
    requires k <= |s| && s[k..] == MeasTag + body + "}" + post
    ensures |s| >= k + 18 + |body|
    ensures forall x :: 0 <= x < 17 ==> s[k + x] == MeasTag[x]
    ensures s[k + 17..k + 17 + |body|] == body
    ensures forall x :: k + 17 <= x < k + 17 + |body| ==> s[x] == body[x - k - 17]
    ensures s[k + 17 + |body|] == '}'
  {
    var t := s[k..];
    assert forall x :: 0 <= x < |t| ==> s[k + x] == t[x];
    assert forall x :: 0 <= x < 17 ==> t[x] == MeasTag[x];
    assert forall x :: 0 <= x < |body| ==> t[17 + x] == body[x];
    assert t[17 + |body|] == '}';
  }

  // ---------------------------------------------------------------------
  // entries
  // ---------------------------------------------------------------------

  /** A line stripped of white space and then of trailing commas. */
  function Clean(raw: string): string {
    RStrip(Strip(raw, Whitespace), {','})
  }

  /** The key before the colon at `i`: white space and quotes stripped. */
  function KeyText(line: string, i: nat): string
    requires i <= |line|
  {
    Strip(Strip(line[..i], Whitespace), {'"'})
  }

  /** The count after the colon at `i`: white space stripped, commas and
      quotes removed. */
  function CountText(line: string, i: nat): string
    requires i < |line|
  {
    Without(Without(Strip(line[i + 1..], Whitespace), ','), '"')
  }

  /** One line of the block: a cleaned line that starts with a quote and
      holds a colon is split at its first colon into a key and a count; a
      count `int()` rejects skips the line, as does any other line. */
  function Entry(raw: string): (r: Option<(string, int)>)
    ensures r.Some? ==> |Clean(raw)| > 0 && Clean(raw)[0] == '"' && ':' in Clean(raw)
  {
    var line := Clean(raw);
    if |line| > 0 && line[0] == '"' && ':' in line then
      var i := IndexOf(line, ':');
      match ParseInt(CountText(line, i), 10)
      case Some(n) => Some((KeyText(line, i), n))
      case None => None
    else None
  }

  /** The entry loop: every entry in turn, a later key overwriting an
      earlier one, other lines skipped. */
  function Collect(acc: OMap<string, int>, lines: seq<string>): (m: OMap<string, int>)
    requires acc.Valid()
    ensures m.Valid()
    decreases |lines|
  {
    if |lines| == 0 then acc else Collect(Take(acc, lines[0]), lines[1..])
  }

  /** One turn of the entry loop: an entry is put, another line skipped. */
  function Take(acc: OMap<string, int>, line: string): (m: OMap<string, int>)
    requires acc.Valid()
    ensures m.Valid()
  {
    match Entry(line)
    case None => acc
    case Some(kv) => acc.Put(kv.0, kv.1)
  }

  /** The body of `parse_result`'s `try`: the tag must occur; the block
      after its first occurrence is read line by line; no entry at all
      raises. A count that does not read is skipped, so only the three
      DEFwErrors are raised. */
  function Read(out: string): (r: Result<OMap<string, int>, Error>)
    ensures !Contains(out, MeasTag) ==> r == Err(Error(Base, "Measurements section not found!"))
    ensures r.Err? ==> r.error.kind == Base
    ensures r.Ok? ==> r.value.Valid() && |r.value.keys| > 0
  {
    var k := FindFrom(out, MeasTag, 0);
    if k < 0 then Err(Error(Base, "Measurements section not found!"))
    else
      var block := Extract(out, k);
      if block == "" then Err(Error(Base, "Failed to extract measurements content!"))
      else
        var counts := Collect(Empty(), SplitLines(block));
        if |counts.keys| == 0 then Err(Error(Base, "No measurements parsed!")) else Ok(counts)
  }

  /** `parse_result`: what the `try` raises is caught and raised again as
      a DEFwError carrying the inner error's `str()`, its dumped record. */
  function ParseResult(out: string, dump: Dump): (r: Result<OMap<string, int>, Error>)
    ensures r.Err? ==> Read(out).Err? && r.error == Error(Base, dump(Read(out).error))
    ensures !Contains(out, MeasTag) ==> r == Err(Error(Base, dump(Error(Base, "Measurements section not found!"))))
    ensures r.Ok? <==> Read(out).Ok?
    ensures r.Ok? ==> r == Read(out) && r.value.Valid() && |r.value.keys| > 0
  {
    match Read(out)
    case Ok(m) => Ok(m)
    case Err(e) => Err(Rewrap(e, dump))
  }

  /** The block is never empty once the tag is found. */
  lemma NeverEmptyBlock(out: string)
    ensures Read(out) != Err(Error(Base, "Failed to extract measurements content!"))
  {
    var k := FindFrom(out, MeasTag, 0);
    if k >= 0 {
      ExtractOpens(out, k);
    }
  }

  // ---------------------------------------------------------------------
  // the block the runner prints
  // ---------------------------------------------------------------------

  /** `"bits": count`. */
  function EntryText(k: string, v: int): string {
    "\"" + k + "\": " + Decimal(v)
  }

  /** The quoted key, the colon and the padded count of an entry. */
  lemma EntryShape(k: string, v: int)
    ensures EntryText(k, v) == ("\"" + k + "\"") + [':'] + (" " + Decimal(v))
  {
  }

  /** Binary digits are neither white space nor quotes nor commas. */
  lemma BitEnds(k: string)
    requires IsBits(k)
    ensures k[0] !in Whitespace && k[|k| - 1] !in Whitespace
    ensures k[0] != '"' && k[|k| - 1] != '"' && ':' !in k
  {
    assert forall j :: 0 <= j < |k| ==> k[j] != ':';
  }

  /** The quoted key reads back as the key. */
  lemma KeyBack(k: string)
    requires IsBits(k)
    ensures Strip(Strip("\"" + k + "\"", Whitespace), {'"'}) == k
  {
    BitEnds(k);
    StripNoop("\"" + k + "\"", Whitespace);
    StripPadded("\"", k, "\"", {'"'});
  }

  /** The padded count reads back as the count's digits. */
  lemma CountBack(v: int)
    ensures Without(Without(Strip(" " + Decimal(v), Whitespace), ','), '"') == Decimal(v)
  {
    var d := Decimal(v);
    DecimalEnds(v);
    StripPadded(" ", d, "", Whitespace);
    assert " " + d + "" == " " + d;
    WithoutAbsent(d, ',');
    WithoutAbsent(d, '"');
  }

  /** Cleaning an indented entry line, with or without its comma, leaves
      the entry. */
  lemma CleanPrinted(indent: string, t: string, comma: bool)
    requires forall j :: 0 <= j < |indent| ==> indent[j] in Whitespace
    requires |t| > 0 && t[0] !in Whitespace && t[|t| - 1] !in Whitespace && t[|t| - 1] != ','
    ensures Clean(indent + t + (if comma then "," else "")) == t
  {
    if comma {
      CleanComma(indent, t);
    } else {
      assert indent + t + "" == indent + t;
      StripIndented(indent, t, Whitespace);
      RStripSuffix(t, "", {','});
    }
  }

  /** The comma-terminated case. */
  lemma CleanComma(indent: string, t: string)
    requires forall j :: 0 <= j < |indent| ==> indent[j] in Whitespace
    requires |t| > 0 && t[0] !in Whitespace && t[|t| - 1] !in Whitespace && t[|t| - 1] != ','
    ensures Clean(indent + t + ",") == t
  {
    var u := t + ",";
    assert u[0] == t[0] && u[|u| - 1] == ',';
    assert indent + t + "," == indent + u;
    StripIndented(indent, u, Whitespace);
    RStripSuffix(t, ",", {','});
  }

  /** An entry starts with its quote and ends with its last digit. */
  lemma EntryEnds(k: string, v: int)
    ensures var t := EntryText(k, v);
            |t| > 0 && t[0] == '"' && t[0] !in Whitespace
            && t[|t| - 1] !in Whitespace && t[|t| - 1] != ','
  {
    var t := EntryText(k, v);
    DecimalEnds(v);
    assert t[|t| - 1] == Decimal(v)[|Decimal(v)| - 1];
  }

  /** A line that cleans to an entry reads as its key and count. */
  lemma EntryOfClean(raw: string, k: string, v: int)
    requires IsBits(k) && Clean(raw) == EntryText(k, v)
    ensures Entry(raw) == Some((k, v))
  {
    var q := "\"" + k + "\"";
    var d := " " + Decimal(v);
    EntryShape(k, v);
    BitEnds(k);
    IndexAfter(q, ':', d);
    Pieces(q, ':', d);
    KeyBack(k);
    CountBack(v);
    ParseDecimal(v);
  }

  /** An indented entry line, with or without its trailing comma, reads
      back as its key and count. */
  lemma EntryRoundTrip(indent: string, k: string, v: int, comma: bool)
    requires forall j :: 0 <= j < |indent| ==> indent[j] in Whitespace
    requires IsBits(k)
    ensures Entry(indent + EntryText(k, v) + (if comma then "," else "")) == Some((k, v))
  {
    EntryEnds(k, v);
    CleanPrinted(indent, EntryText(k, v), comma);
    EntryOfClean(indent + EntryText(k, v) + (if comma then "," else ""), k, v);
  }

  /** The block's opening brace is not an entry. */
  lemma OpenBraceLine()
    ensures Entry("{") == None
  {
    CleanPrinted("", "{", false);
    assert "" + "{" + "" == "{";
  }

  /** Nor is its indented closing brace. */
  lemma CloseBraceLine(indent: string)
    requires forall j :: 0 <= j < |indent| ==> indent[j] in Whitespace
    ensures Entry(indent + "}") == None
  {
    CleanPrinted(indent, "}", false);
    assert indent + "}" + "" == indent + "}";
  }

  /** The entry lines of a histogram, as JSON prints them: each indented,
      each but the last followed by a comma. */
  function EntryLines(indent: string, ks: seq<string>, vals: map<string, int>): (ls: seq<string>)
    requires forall i :: 0 <= i < |ks| ==> ks[i] in vals
    ensures |ls| == |ks|
  {
    seq(|ks|, i requires 0 <= i < |ks| => indent + EntryText(ks[i], vals[ks[i]]) + (if i < |ks| - 1 then "," else ""))
  }

  /** The entry loop over printed entry lines puts their keys in order. */
  lemma {:induction false} CollectEntries(acc: OMap<string, int>, indent: string, ks: seq<string>,
                                          vals: map<string, int>, n: nat)
    requires acc.Valid() && n <= |ks|
    requires forall j :: 0 <= j < |indent| ==> indent[j] in Whitespace
    requires forall i :: 0 <= i < |ks| ==> ks[i] in vals && IsBits(ks[i])
    ensures Collect(acc, EntryLines(indent, ks, vals)[n..]) == PutAll(acc, ks[n..], vals)
    decreases |ks| - n
  {
    var ls := EntryLines(indent, ks, vals);
    if n < |ks| {
      EntryRoundTrip(indent, ks[n], vals[ks[n]], n < |ks| - 1);
      CollectStep(acc, ls[n..], ks[n], vals[ks[n]]);
      assert ls[n..][1..] == ls[n + 1..];
      assert ks[n..][0] == ks[n] && ks[n..][1..] == ks[n + 1..];
      CollectEntries(acc.Put(ks[n], vals[ks[n]]), indent, ks, vals, n + 1);
    } else {
      assert ls[n..] == [] && ks[n..] == [];
    }
  }

  /** Collecting over lines whose first is an entry puts that entry first. */
  lemma CollectStep(acc: OMap<string, int>, ls: seq<string>, k: string, v: int)
    requires acc.Valid() && |ls| > 0 && Entry(ls[0]) == Some((k, v))
    ensures Collect(acc, ls) == Collect(acc.Put(k, v), ls[1..])
  {
  }

  /** Collecting over a line that is not an entry changes nothing. */
  lemma {:induction false} CollectSkipLast(acc: OMap<string, int>, ls: seq<string>, x: string)
    requires acc.Valid() && Entry(x) == None
    ensures Collect(acc, ls + [x]) == Collect(acc, ls)
    decreases |ls|
  {
    if |ls| == 0 {
      assert ls + [x] == [x];
    } else {
      var a := Take(acc, ls[0]);
      assert (ls + [x])[0] == ls[0] && (ls + [x])[1..] == ls[1..] + [x];
      assert Collect(acc, ls + [x]) == Collect(a, ls[1..] + [x]);
      CollectSkipLast(a, ls[1..], x);
    }
  }

  /** Neither a line break nor a brace. */
  predicate Plain(s: string) {
    Avoids(s, LineBreaks) && Avoids(s, Braces)
  }

  lemma PlainConcat(a: string, b: string)
    requires Plain(a) && Plain(b)
    ensures Plain(a + b)
  {
    AvoidsConcat(a, b, LineBreaks);
    AvoidsConcat(a, b, Braces);
  }

  /** Indentation is plain. */
  lemma SpacesPlain(s: string)
    requires forall j :: 0 <= j < |s| ==> s[j] == ' '
    ensures Plain(s)
  {
  }

  /** The quotes, colon and comma of an entry are plain. */
  lemma PunctuationPlain()
    ensures Plain("\"") && Plain("\": ") && Plain(",") && Plain("")
  {
  }

  /** So are binary digits. */
  lemma BitsPlain(k: string)
    requires IsBits(k)
    ensures Plain(k)
  {
  }

  /** And a number's rendering. */
  lemma DecimalPlain(v: int)
    ensures Plain(Decimal(v))
  {
    var d := Decimal(v);
    DecimalChars(v);
    forall i | 0 <= i < |d|
      ensures d[i] !in LineBreaks && d[i] !in Braces
    {
      SignOrDigit(d[i]);
    }
  }

  /** An entry line is plain. */
  lemma EntryPlain(indent: string, k: string, v: int, comma: bool)
    requires forall j :: 0 <= j < |indent| ==> indent[j] == ' '
    requires IsBits(k)
    ensures Plain(indent + EntryText(k, v) + (if comma then "," else ""))
  {
    PunctuationPlain();
    BitsPlain(k);
    DecimalPlain(v);
    SpacesPlain(indent);
    PlainConcat("\"", k);
    PlainConcat("\"" + k, "\": ");
    PlainConcat("\"" + k + "\": ", Decimal(v));
    PlainConcat(indent, EntryText(k, v));
    PlainConcat(indent + EntryText(k, v), if comma then "," else "");
  }

  /** What follows the tag's brace up to the closing brace: the entries one
      per line, then `close`, the closing brace's indentation. */
  function Body(indent: string, ks: seq<string>, vals: map<string, int>, close: string): string
    requires forall i :: 0 <= i < |ks| ==> ks[i] in vals
  {
    "\n" + Join(EntryLines(indent, ks, vals) + [close], '\n')
  }

  /** The cut-out block is the join of its lines. */
  lemma BlockLines(indent: string, ks: seq<string>, vals: map<string, int>, close: string)
    requires forall i :: 0 <= i < |ks| ==> ks[i] in vals
    ensures "{" + Body(indent, ks, vals, close) + "}"
            == Join(["{"] + EntryLines(indent, ks, vals) + [close + "}"], '\n')
  {
    var ls := EntryLines(indent, ks, vals);
    var rest := ls + [close + "}"];
    assert ["{"] + ls + [close + "}"] == ["{"] + rest;
    JoinCons("{", rest, '\n');
    JoinExtendLast(ls, close, "}", '\n');
  }

  /** The block's lines are free of line breaks, and all but the braces'
      lines are free of braces. */
  lemma BlockPlain(indent: string, ks: seq<string>, vals: map<string, int>, close: string)
    requires forall j :: 0 <= j < |indent| ==> indent[j] == ' '
    requires forall j :: 0 <= j < |close| ==> close[j] == ' '
    requires forall i :: 0 <= i < |ks| ==> ks[i] in vals && IsBits(ks[i])
    ensures forall i :: 0 <= i < |EntryLines(indent, ks, vals) + [close]| ==> Plain((EntryLines(indent, ks, vals) + [close])[i])
    ensures Avoids(Body(indent, ks, vals, close), Braces)
  {
    var ls := EntryLines(indent, ks, vals) + [close];
    forall i | 0 <= i < |ls|
      ensures Plain(ls[i])
    {
      if i < |ks| {
        EntryPlain(indent, ks[i], vals[ks[i]], i < |ks| - 1);
      } else {
        SpacesPlain(close);
      }
    }
    JoinAvoids(ls, '\n', Braces);
    AvoidsConcat("\n", Join(ls, '\n'), Braces);
  }

  /** The block's text splits into its lines. */
  lemma BlockSplits(indent: string, ks: seq<string>, vals: map<string, int>, close: string)
    requires forall j :: 0 <= j < |indent| ==> indent[j] == ' '
    requires forall j :: 0 <= j < |close| ==> close[j] == ' '
    requires forall i :: 0 <= i < |ks| ==> ks[i] in vals && IsBits(ks[i])
    ensures SplitLines("{" + Body(indent, ks, vals, close) + "}")
            == ["{"] + EntryLines(indent, ks, vals) + [close + "}"]
  {
    BlockPlain(indent, ks, vals, close);
    FramedLines(EntryLines(indent, ks, vals), close);
    BlockLines(indent, ks, vals, close);
    SplitLinesJoin(["{"] + EntryLines(indent, ks, vals) + [close + "}"]);
  }

  /** Plain lines between an opening brace and a closing one are free of
      line breaks, the braces' lines included. */
  lemma FramedLines(ls: seq<string>, close: string)
    requires forall i :: 0 <= i < |ls + [close]| ==> Plain((ls + [close])[i])
    ensures var lines := ["{"] + ls + [close + "}"];
            |lines[|lines| - 1]| > 0 && forall i :: 0 <= i < |lines| ==> Avoids(lines[i], LineBreaks)
  {
    var lines := ["{"] + ls + [close + "}"];
    assert Plain((ls + [close])[|ls|]);
    AvoidsConcat(close, "}", LineBreaks);
    forall i | 0 <= i < |lines|
      ensures Avoids(lines[i], LineBreaks)
    {
      if 0 < i <= |ls| {
        assert lines[i] == (ls + [close])[i - 1];
      }
    }
  }

  /** The entry loop over the block's lines puts the histogram's keys in
      order and skips the braces. */
  lemma BlockCollect(indent: string, ks: seq<string>, vals: map<string, int>, close: string)
    requires forall j :: 0 <= j < |indent| ==> indent[j] == ' '
    requires forall j :: 0 <= j < |close| ==> close[j] == ' '
    requires forall i :: 0 <= i < |ks| ==> ks[i] in vals && IsBits(ks[i])
    ensures Collect(Empty(), ["{"] + EntryLines(indent, ks, vals) + [close + "}"]) == PutAll(Empty(), ks, vals)
  {
    var ls := EntryLines(indent, ks, vals);
    CloseBraceLine(close);
    CollectSkipLast(Empty(), ["{"] + ls, close + "}");
    OpenBraceLine();
    assert (["{"] + ls)[1..] == ls;
    CollectEntries(Empty(), indent, ks, vals, 0);
    assert ls[0..] == ls && ks[0..] == ks;
  }

  /** The tag first occurs right after `pre`. */
  predicate TagFirstAfter(pre: string) {
    forall i :: 0 <= i < |pre| ==> !MatchAt(pre + MeasTag, MeasTag, i)
  }

  /** Then the search finds it there, whatever follows. */
  lemma FindTag(pre: string, rest: string)
    requires TagFirstAfter(pre)
    ensures FindFrom(pre + MeasTag + rest, MeasTag, 0) == |pre|
    ensures (pre + MeasTag + rest)[|pre|..] == MeasTag + rest
  {
    var s := pre + MeasTag + rest;
    var n := |MeasTag|;
    forall i | 0 <= i < |pre|
      ensures !MatchAt(s, MeasTag, i)
    {
      assert !MatchAt(pre + MeasTag, MeasTag, i);
      SliceOfPrefix(pre + MeasTag, rest, i, i + n);
    }
    assert s == pre + (MeasTag + rest);
    assert s[|pre|..] == MeasTag + rest;
    SliceOfPrefix(MeasTag, rest, 0, n);
    assert s[|pre|..|pre| + n] == (MeasTag + rest)[0..n];
    assert MatchAt(s, MeasTag, |pre|);
  }

  /** A histogram as the runner prints it, one entry per line inside the
      `"Measurements"` block, reads back as that histogram, in its order,
      whatever precedes the tag's first occurrence and follows the block. */
  lemma ParsePrinted(pre: string, indent: string, m: OMap<string, int>, close: string, post: string, dump: Dump)
    requires TagFirstAfter(pre)
    requires forall j :: 0 <= j < |indent| ==> indent[j] == ' '
    requires forall j :: 0 <= j < |close| ==> close[j] == ' '
    requires m.Valid() && |m.keys| > 0
    requires forall i :: 0 <= i < |m.keys| ==> IsBits(m.keys[i])
    ensures ParseResult(pre + MeasTag + Body(indent, m.keys, m.vals, close) + "}" + post, dump) == Ok(m)
  {
    var body := Body(indent, m.keys, m.vals, close);
    BlockPlain(indent, m.keys, m.vals, close);
    BlockAt(pre, body, post);
    BlockSplits(indent, m.keys, m.vals, close);
    BlockCollect(indent, m.keys, m.vals, close);
    PutAllWhole(m);
    ParseFound(pre + MeasTag + body + "}" + post, |pre|, "{" + body + "}", m, dump);
  }

  /** The reader's answer once the tag, the block and the entries are
      known. */
  lemma ParseFound(out: string, k: nat, block: string, m: OMap<string, int>, dump: Dump)
    requires FindFrom(out, MeasTag, 0) == k && k <= |out| && Extract(out, k) == block && block != ""
    requires Collect(Empty(), SplitLines(block)) == m && |m.keys| > 0
    ensures ParseResult(out, dump) == Ok(m)
  {
  }

  /** An empty block parses nothing, which raises; the caller sees that
      error's dumped record. */
  lemma ParseEmptyBlock(pre: string, post: string, dump: Dump)
    requires TagFirstAfter(pre)
    ensures ParseResult(pre + MeasTag + "}" + post, dump)
            == Err(Error(Base, dump(Error(Base, "No measurements parsed!"))))
  {
    var out := pre + MeasTag + "}" + post;
    BlockAt(pre, "", post);
    assert pre + MeasTag + "" + "}" + post == out && "{" + "" + "}" == "{}";
    EmptyBlockLines();
    ParseNothing(out, |pre|, "{}", dump);
  }

  /** The reader's answer when the block holds no entry: the rewrapped
      "No measurements parsed!". */
  lemma ParseNothing(out: string, k: nat, block: string, dump: Dump)
    requires FindFrom(out, MeasTag, 0) == k && k <= |out| && Extract(out, k) == block && block != ""
    requires Collect(Empty(), SplitLines(block)) == Empty()
    ensures ParseResult(out, dump) == Err(Error(Base, dump(Error(Base, "No measurements parsed!"))))
  {
  }

  /** A pair of braces is one line and no entry. */
  lemma EmptyBlockLines()
    ensures Collect(Empty(), SplitLines("{}")) == Empty()
  {
    LineEndAll("{}");
    CleanPrinted("", "{}", false);
    assert "" + "{}" + "" == "{}";
    assert Entry("{}") == None;
    assert Collect(Empty(), ["{}"]) == Collect(Take(Empty(), "{}"), []);
  }

  /** Behind the tag's first occurrence, a brace-free body and its closing
      brace are cut out as the block. */
  lemma BlockAt(pre: string, body: string, post: string)
    requires TagFirstAfter(pre) && Avoids(body, Braces)
    ensures FindFrom(pre + MeasTag + body + "}" + post, MeasTag, 0) == |pre|
    ensures Extract(pre + MeasTag + body + "}" + post, |pre|) == "{" + body + "}"
  {
    var out := pre + MeasTag + body + "}" + post;
    assert out == pre + MeasTag + (body + "}" + post);
    FindTag(pre, body + "}" + post);
    ExtractAt(out, |pre|, body, post);
  }

  /** A line without line breaks is one line. */
  lemma LineEndAll(s: string)
    requires |s| > 0 && Avoids(s, LineBreaks)
    ensures SplitLines(s) == [s]
  {
    SplitLinesJoin([s]);
  }

  // ---------------------------------------------------------------------
  // the command
  // ---------------------------------------------------------------------

  /** The circuit runner's own words: program, QASM file, qubit and shot
      counts, compiler and visitor. */
  function RunnerWords(exe: string, qasmFile: string, qubits: Value, shots: Value,
                       compiler: Value, visitor: Value): seq<string>
  {
    ["-v", exe, "--qasm", qasmFile, "--qubits", Str(qubits), "--shots", Str(shots),
     "--compiler", Str(compiler), "--visitor", Str(visitor)]
  }

  /** The compiler: the options' `compiler`, else `staq`. */
  function Compiler(opts: Option<OMap<string, Value>>): Value {
    OptionOr(opts, "compiler", VStr("staq"))
  }

  /** The visitor: the options' `backend`, else `exatn-mps`. */
  function Visitor(opts: Option<OMap<string, Value>>): Value {
    OptionOr(opts, "backend", VStr("exatn-mps"))
  }

  /** The error the pre-flight checks raise when the runner or the wrapper
      is not on the path. */
  const Unfound := Error(ExecutionError, "Couldn't find " + "circuit_runner" + " or gpuwrapper. Check paths")

  /** The two debug lines ahead of that error format `os.environ['PATH']`
      and `os.environ['LD_LIBRARY_PATH']`; f-strings are evaluated before
      `logging.debug` looks at the level, so an unset variable raises
      KeyError instead. */
  function UnfoundAfterLog(env: map<string, string>): (e: Error)
    ensures "PATH" in env && "LD_LIBRARY_PATH" in env <==> e == Unfound
    ensures e != Unfound ==> e.kind == KeyError && e.msg in {"PATH", "LD_LIBRARY_PATH"} && e.msg !in env
    ensures "PATH" !in env ==> e == Error(KeyError, "PATH")
  {
    if "PATH" !in env then Error(KeyError, "PATH")
    else if "LD_LIBRARY_PATH" !in env then Error(KeyError, "LD_LIBRARY_PATH")
    else Unfound
  }

  /** `form_cmd`: the options are read first, then the pre-flight checks
      (with the environment read when a program is missing) and the
      launcher prefix, then the qubit and the shot counts, both required.
      The options' `device` is read but never used. */
  function FormCmd(info: Info, tools: Tools, env: map<string, string>, qasmFile: string): (r: Result<string, Error>)
    ensures Options(info).Err? ==> r == Err(Options(info).error)
    ensures Options(info).Ok? && !Launchable(info, tools) ==> r.Err?
    ensures r.Ok? ==> Launchable(info, tools) && "num_qubits" in info.vals && "num_shots" in info.vals
    ensures Options(info).Ok? && "qfw_backend" in info.vals && info.vals["qfw_backend"].VStr?
            && !(Found(tools.which(info.vals["qfw_backend"].s)) && Found(tools.which("gpuwrapper.sh"))) ==>
              r == Err(UnfoundAfterLog(env))
    ensures Options(info).Ok? && Prepare(info, tools, "circuit_runner", false).Ok?
            && MpiPrefix(info, Prepare(info, tools, "circuit_runner", false).value).Ok? ==>
              ("num_qubits" !in info.vals ==> r == Err(Error(KeyError, "num_qubits")))
              && ("num_qubits" in info.vals && "num_shots" !in info.vals ==> r == Err(Error(KeyError, "num_shots")))
  {
    var opts :- Options(info);
    var compiler := Compiler(opts);
    var visitor := Visitor(opts);
    var checked := Prepare(info, tools, "circuit_runner", false);
    var ready :- if checked == Err(Unfound) then Err(UnfoundAfterLog(env)) else checked;
    var prefix :- MpiPrefix(info, ready);
    var qubits :- Field(info, "num_qubits");
    var shots :- Field(info, "num_shots");
    Ok(prefix + Argv(RunnerWords(ready.exe, qasmFile, qubits, shots, compiler, visitor)))
  }

  /** All the words of a composed command: the launcher prefix, then the
      runner's. */
  function Words(info: Info, ready: Ready, qasmFile: string): seq<string>
    requires "provider" in info.vals && "mapping" in info.vals && "np" in info.vals
    requires "num_qubits" in info.vals && "num_shots" in info.vals && Options(info).Ok?
  {
    MpiWords(ready.exec, ready.dvm, info.vals["provider"], info.vals["mapping"], info.vals["np"],
             ready.hosts, ready.wrapper)
    + RunnerWords(ready.exe, qasmFile, info.vals["num_qubits"], info.vals["num_shots"],
                  Compiler(Options(info).value), Visitor(Options(info).value))
  }

  /** A composed command is its words, each followed by a space; split at
      spaces it gives them back, when none holds a space. */
  lemma FormCmdWords(info: Info, tools: Tools, env: map<string, string>, qasmFile: string)
    requires FormCmd(info, tools, env, qasmFile).Ok?
    ensures Prepare(info, tools, "circuit_runner", false).Ok? && Options(info).Ok?
    ensures "provider" in info.vals && "mapping" in info.vals && "np" in info.vals
    ensures var ws := Words(info, Prepare(info, tools, "circuit_runner", false).value, qasmFile);
            FormCmd(info, tools, env, qasmFile).value == Argv(ws)
            && (NoSpace(ws) ==> Split(FormCmd(info, tools, env, qasmFile).value, ' ') == ws + [""])
  {
    var ready := Prepare(info, tools, "circuit_runner", false).value;
    var opts := Options(info).value;
    var ms := MpiWords(ready.exec, ready.dvm, info.vals["provider"], info.vals["mapping"], info.vals["np"],
                       ready.hosts, ready.wrapper);
    var rs := RunnerWords(ready.exe, qasmFile, info.vals["num_qubits"], info.vals["num_shots"],
                          Compiler(opts), Visitor(opts));
    ArgvAppend(ms, rs);
    var ws := ms + rs;
    if NoSpace(ws) {
      ArgvWords(ws, "");
      assert Argv(ws) + "" == Argv(ws);
    }
  }

  /** The runner's last words without options. */
  const DefaultWords := ["--compiler", "staq", "--visitor", "exatn-mps"]

  lemma DefaultTail(exe: string, qasmFile: string, qubits: Value, shots: Value)
    ensures var rs := RunnerWords(exe, qasmFile, qubits, shots, VStr("staq"), VStr("exatn-mps"));
            Argv(rs) == Argv(rs[..8]) + Argv(DefaultWords)
  {
    var rs := RunnerWords(exe, qasmFile, qubits, shots, VStr("staq"), VStr("exatn-mps"));
    assert Str(VStr("staq")) == "staq" && Str(VStr("exatn-mps")) == "exatn-mps";
    assert rs == rs[..8] + DefaultWords;
    ArgvAppend(rs[..8], DefaultWords);
  }

  /** Without options the command ends with the words `--compiler staq
      --visitor exatn-mps`. */
  lemma FormCmdDefaults(info: Info, tools: Tools, env: map<string, string>, qasmFile: string)
    requires FormCmd(info, tools, env, qasmFile).Ok? && "qpm_options" !in info.vals
    ensures var cmd := FormCmd(info, tools, env, qasmFile).value;
            var tail := Argv(DefaultWords);
            |tail| <= |cmd| && cmd[|cmd| - |tail|..] == tail
  {
    var ready := Prepare(info, tools, "circuit_runner", false).value;
    var prefix := MpiPrefix(info, ready).value;
    var rs := RunnerWords(ready.exe, qasmFile, info.vals["num_qubits"], info.vals["num_shots"],
                          VStr("staq"), VStr("exatn-mps"));
    assert FormCmd(info, tools, env, qasmFile).value == prefix + Argv(rs);
    DefaultTail(ready.exe, qasmFile, info.vals["num_qubits"], info.vals["num_shots"]);
    assert prefix + Argv(rs) == (prefix + Argv(rs[..8])) + Argv(DefaultWords);
    EndsWith(prefix + Argv(rs[..8]), Argv(DefaultWords));
  }
}
