/** The handful of Python `str` methods the system relies on, stated over
    `seq<char>`: `split` on one character and on a substring, `find`,
    `strip`, `upper`, `splitlines` and the `in` test for substrings. */
module Strings {

  /** The characters Python's argument-less `str.strip()` and `int()`
      treat as white space. */
  const Whitespace: set<char> :=
    {' ', '\t', '\n', '\r', '\U{000B}', '\U{000C}', '\U{001C}', '\U{001D}', '\U{001E}',
     '\U{001F}', '\U{0085}', '\U{00A0}', '\U{1680}', '\U{2000}', '\U{2001}', '\U{2002}',
     '\U{2003}', '\U{2004}', '\U{2005}', '\U{2006}', '\U{2007}', '\U{2008}', '\U{2009}',
     '\U{200A}', '\U{2028}', '\U{2029}', '\U{202F}', '\U{205F}', '\U{3000}'}

  // ---------------------------------------------------------------------
  // split / join on a single character
  // ---------------------------------------------------------------------

  /** `s.split(c)`: the maximal pieces of `s` between occurrences of `c`. */
  function Split(s: string, c: char): (parts: seq<string>)
    ensures |parts| >= 1
    decreases |s|
  {
    if |s| == 0 then [""]
    else if s[0] == c then [""] + Split(s[1..], c)
    else
      var rest := Split(s[1..], c);
      [[s[0]] + rest[0]] + rest[1..]
  }

  /** `c.join(parts)`. */
  function Join(parts: seq<string>, c: char): string
    decreases |parts|
  {
    if |parts| == 0 then ""
    else if |parts| == 1 then parts[0]
    else parts[0] + [c] + Join(parts[1..], c)
  }

  lemma {:induction false} SplitPieceFree(s: string, c: char)
    ensures forall i :: 0 <= i < |Split(s, c)| ==> c !in Split(s, c)[i]
    decreases |s|
  {
    if |s| > 0 {
      SplitPieceFree(s[1..], c);
      var rest := Split(s[1..], c);
      if s[0] != c {
        assert Split(s, c) == [[s[0]] + rest[0]] + rest[1..];
        forall i | 0 <= i < |Split(s, c)|
          ensures c !in Split(s, c)[i]
        {
          if i > 0 {
            assert Split(s, c)[i] == rest[i];
          }
        }
      }
    }
  }

  /** Splitting after a separator-free prefix only extends the first piece. */
  lemma {:induction false} SplitFreePrefix(p: string, r: string, c: char)
    requires c !in p
    ensures Split(p + r, c) == [p + Split(r, c)[0]] + Split(r, c)[1..]
    decreases |p|
  {
    if |p| > 0 {
      assert (p + r)[1..] == p[1..] + r;
      SplitFreePrefix(p[1..], r, c);
      assert [p[0]] + (p[1..] + Split(r, c)[0]) == p + Split(r, c)[0];
    } else {
      assert p + r == r;
      var sr := Split(r, c);
      assert p + sr[0] == sr[0];
      assert [sr[0]] + sr[1..] == sr;
    }
  }

  /** Joining the pieces of a split gives the string back. */
  lemma {:induction false} JoinSplit(s: string, c: char)
    ensures Join(Split(s, c), c) == s
    decreases |s|
  {
    if |s| > 0 {
      JoinSplit(s[1..], c);
      var rest := Split(s[1..], c);
      if s[0] == c {
        assert Split(s, c) == [""] + rest;
        assert Join([""] + rest, c) == "" + [c] + Join(rest, c);
        assert s == [s[0]] + s[1..];
      } else {
        var parts := Split(s, c);
        assert parts == [[s[0]] + rest[0]] + rest[1..];
        if |rest| == 1 {
          assert Join(parts, c) == [s[0]] + rest[0];
          assert s == [s[0]] + s[1..];
        } else {
          assert parts[1..] == rest[1..];
          assert Join(rest, c) == rest[0] + [c] + Join(rest[1..], c);
          assert Join(parts, c) == [s[0]] + rest[0] + [c] + Join(rest[1..], c);
          assert s == [s[0]] + s[1..];
        }
      }
    }
  }

  /** Pieces around a piece, none holding `c`, hold no `c` together. */
  lemma FreeAround(pre: seq<string>, x: string, post: seq<string>, c: char)
    requires forall j :: 0 <= j < |pre| ==> c !in pre[j]
    requires forall j :: 0 <= j < |post| ==> c !in post[j]
    requires c !in x
    ensures forall j :: 0 <= j < |pre + [x] + post| ==> c !in (pre + [x] + post)[j]
  {
    var parts := pre + [x] + post;
    forall j | 0 <= j < |parts| ensures c !in parts[j] {
      if j < |pre| {
        assert parts[j] == pre[j];
      } else if j > |pre| {
        assert parts[j] == post[j - |pre| - 1];
      }
    }
  }

  /** Splitting the join of separator-free pieces around one piece gives
      them back, and the join is non-empty when that piece is. */
  lemma SplitJoinAround(pre: seq<string>, x: string, post: seq<string>, c: char)
    requires forall j :: 0 <= j < |pre| ==> c !in pre[j]
    requires forall j :: 0 <= j < |post| ==> c !in post[j]
    requires c !in x
    ensures Split(Join(pre + [x] + post, c), c) == pre + [x] + post
    ensures |Join(pre + [x] + post, c)| >= |x|
  {
    FreeAround(pre, x, post, c);
    SplitJoin(pre + [x] + post, c);
    assert (pre + [x] + post)[|pre|] == x;
    JoinCovers(pre + [x] + post, c, |pre|);
  }

  /** A join is at least as long as each of its pieces. */
  lemma {:induction false} JoinCovers(parts: seq<string>, c: char, k: nat)
    requires k < |parts|
    ensures |Join(parts, c)| >= |parts[k]|
    decreases |parts|
  {
    if |parts| > 1 && k > 0 {
      JoinCovers(parts[1..], c, k - 1);
    }
  }

  /** Splitting a join of separator-free pieces gives the pieces back. */
  lemma {:induction false} SplitJoin(parts: seq<string>, c: char)
    requires |parts| >= 1
    requires forall i :: 0 <= i < |parts| ==> c !in parts[i]
    ensures Split(Join(parts, c), c) == parts
    decreases |parts|
  {
    if |parts| == 1 {
      SplitFreePrefix(parts[0], "", c);
      assert parts[0] + "" == parts[0];
    } else {
      var tail := Join(parts[1..], c);
      SplitJoin(parts[1..], c);
      assert Join(parts, c) == parts[0] + ([c] + tail);
      SplitFreePrefix(parts[0], [c] + tail, c);
      assert ([c] + tail)[1..] == tail;
      assert Split([c] + tail, c) == [""] + parts[1..];
      assert parts[0] + "" == parts[0];
    }
  }

  /** No character of `s` is in `bad`. */
  predicate Avoids(s: string, bad: set<char>) {
    forall j :: 0 <= j < |s| ==> s[j] !in bad
  }

  lemma AvoidsConcat(a: string, b: string, bad: set<char>)
    requires Avoids(a, bad) && Avoids(b, bad)
    ensures Avoids(a + b, bad)
  {
    var s := a + b;
    assert forall j :: |a| <= j < |s| ==> s[j] == b[j - |a|];
  }

  /** Joining pieces that avoid `bad` with a separator outside `bad`
      avoids it too. */
  lemma {:induction false} JoinAvoids(parts: seq<string>, c: char, bad: set<char>)
    requires c !in bad
    requires forall i :: 0 <= i < |parts| ==> Avoids(parts[i], bad)
    ensures Avoids(Join(parts, c), bad)
    decreases |parts|
  {
    if |parts| > 1 {
      JoinAvoids(parts[1..], c, bad);
      AvoidsConcat(parts[0], [c], bad);
      AvoidsConcat(parts[0] + [c], Join(parts[1..], c), bad);
    }
  }

  /** Joining a first part to a non-empty rest. */
  lemma JoinCons(x: string, rest: seq<string>, c: char)
    requires |rest| > 0
    ensures Join([x] + rest, c) == x + [c] + Join(rest, c)
  {
    assert ([x] + rest)[1..] == rest;
  }

  lemma {:induction false} JoinExtendLast(parts: seq<string>, x: string, s: string, c: char)
    ensures Join(parts + [x + s], c) == Join(parts + [x], c) + s
    decreases |parts|
  {
    if |parts| == 0 {
      assert parts + [x + s] == [x + s] && parts + [x] == [x];
    } else {
      JoinExtendLast(parts[1..], x, s, c);
      assert (parts + [x + s])[1..] == parts[1..] + [x + s];
      assert (parts + [x])[1..] == parts[1..] + [x];
    }
  }

  // ---------------------------------------------------------------------
  // find / in / split on a substring
  // ---------------------------------------------------------------------

  /** `sub` occurs in `s` at index `i`. */
  predicate MatchAt(s: string, sub: string, i: int) {
    0 <= i && i + |sub| <= |s| && s[i..i + |sub|] == sub
  }

  /** `s.find(sub, start)` for a non-negative `start`: the first match at or
      after `start`, or -1. */
  function FindFrom(s: string, sub: string, start: nat): (r: int)
    ensures r == -1 || (start <= r && MatchAt(s, sub, r))
    ensures r >= 0 ==> forall i :: start <= i < r ==> !MatchAt(s, sub, i)
    ensures r == -1 ==> forall i :: start <= i ==> !MatchAt(s, sub, i)
    decreases |s| - start
  {
    if start + |sub| > |s| then -1
    else if s[start..start + |sub|] == sub then start
    else FindFrom(s, sub, start + 1)
  }

  /** `s.find(sub, start)` for any `start`: a negative start counts from the
      end, clamped to 0. */
  function PyFind(s: string, sub: string, start: int): (r: int)
    ensures r == -1 || (r >= 0 && MatchAt(s, sub, r))
  {
    FindFrom(s, sub, if start >= 0 then start else if |s| + start >= 0 then |s| + start else 0)
  }

  /** The first occurrence of a one-character string is the first index
      holding that character. */
  lemma FindChar(s: string, c: char, start: nat, i: int)
    requires start <= i <= |s|
    requires i < |s| ==> s[i] == c
    requires forall j :: start <= j < i ==> s[j] != c
    ensures FindFrom(s, [c], start) == if i < |s| then i else -1
  {
    var r := FindFrom(s, [c], start);
    if r >= 0 {
      assert s[r..r + 1] == [c];
      assert s[r] == c;
    }
    if i < |s| {
      assert s[i..i + 1] == [c];
      assert MatchAt(s, [c], i);
    }
  }

  /** `sub in s`. */
  predicate Contains(s: string, sub: string) {
    FindFrom(s, sub, 0) >= 0
  }

  lemma ContainsAt(s: string, sub: string, i: int)
    requires MatchAt(s, sub, i)
    ensures Contains(s, sub)
  {
  }

  /** `s.split(sep)` for a non-empty separator string. */
  function SplitOn(s: string, sep: string): (parts: seq<string>)
    requires |sep| > 0
    ensures |parts| >= 1
    decreases |s|
  {
    var i := FindFrom(s, sep, 0);
    if i < 0 then [s] else [s[..i]] + SplitOn(s[i + |sep|..], sep)
  }

  /** The last piece of `s.split(sep)`. */
  function LastPiece(s: string, sep: string): string
    requires |sep| > 0
  {
    Last(SplitOn(s, sep))
  }

  function Last<T>(xs: seq<T>): T
    requires |xs| > 0
  {
    xs[|xs| - 1]
  }

  lemma LastOfCons<T>(x: T, xs: seq<T>)
    requires |xs| > 0
    ensures Last([x] + xs) == Last(xs)
  {
  }

  /** The last piece of `s.split(sep)` ends `s` and holds no separator. */
  lemma {:induction false} SplitOnLastPiece(s: string, sep: string)
    requires |sep| > 0
    ensures |LastPiece(s, sep)| <= |s|
    ensures s[|s| - |LastPiece(s, sep)|..] == LastPiece(s, sep)
    ensures FindFrom(LastPiece(s, sep), sep, 0) == -1
    decreases |s|
  {
    var i := FindFrom(s, sep, 0);
    if i >= 0 {
      var t := s[i + |sep|..];
      SplitOnLastPiece(t, sep);
      LastPieceStep(s, sep);
      var last := LastPiece(t, sep);
      assert LastPiece(s, sep) == last;
      assert t == s[|s| - |t|..];
      SuffixOfSuffix(s, t, |last|);
    } else {
      assert SplitOn(s, sep) == [s];
      assert LastPiece(s, sep) == s;
    }
  }

  /** After a separator, the last piece is the last piece of the rest. */
  lemma LastPieceStep(s: string, sep: string)
    requires |sep| > 0 && FindFrom(s, sep, 0) >= 0
    ensures LastPiece(s, sep) == LastPiece(s[FindFrom(s, sep, 0) + |sep|..], sep)
  {
    var i := FindFrom(s, sep, 0);
    var pt := SplitOn(s[i + |sep|..], sep);
    assert SplitOn(s, sep) == [s[..i]] + pt;
    LastOfCons(s[..i], pt);
  }

  /** A suffix of a suffix is a suffix. */
  lemma SuffixOfSuffix(s: string, t: string, k: nat)
    requires |t| <= |s| && t == s[|s| - |t|..] && k <= |t|
    ensures s[|s| - k..] == t[|t| - k..]
  {
  }

  // ---------------------------------------------------------------------
  // strip
  // ---------------------------------------------------------------------

  function LStrip(s: string, cs: set<char>): (r: string)
    ensures |r| <= |s| && r == s[|s| - |r|..]
    ensures |r| > 0 ==> r[0] !in cs
    ensures forall i :: 0 <= i < |s| - |r| ==> s[i] in cs
    decreases |s|
  {
    if |s| > 0 && s[0] in cs then LStrip(s[1..], cs) else s
  }

  function RStrip(s: string, cs: set<char>): (r: string)
    ensures |r| <= |s| && r == s[..|r|]
    ensures |r| > 0 ==> r[|r| - 1] !in cs
    ensures forall i :: |r| <= i < |s| ==> s[i] in cs
    decreases |s|
  {
    if |s| > 0 && s[|s| - 1] in cs then RStrip(s[..|s| - 1], cs) else s
  }

  /** `s.strip(chars)`: the longest infix of `s` that neither starts nor ends
      with a character of `cs`, obtained by removing only such characters. */
  function Strip(s: string, cs: set<char>): string {
    RStrip(LStrip(s, cs), cs)
  }

  lemma StripNoop(s: string, cs: set<char>)
    requires |s| > 0 ==> s[0] !in cs && s[|s| - 1] !in cs
    ensures Strip(s, cs) == s
  {
  }

  /** Leading characters of the set go, and an end outside it stays. */
  lemma StripIndented(pre: string, s: string, cs: set<char>)
    requires forall i :: 0 <= i < |pre| ==> pre[i] in cs
    requires |s| > 0 && s[0] !in cs && s[|s| - 1] !in cs
    ensures Strip(pre + s, cs) == s
  {
    StripPadded(pre, s, "", cs);
    assert pre + s + "" == pre + s;
  }

  lemma StripPadded(pre: string, s: string, post: string, cs: set<char>)
    requires forall i :: 0 <= i < |pre| ==> pre[i] in cs
    requires forall i :: 0 <= i < |post| ==> post[i] in cs
    requires |s| > 0 && s[0] !in cs && s[|s| - 1] !in cs
    ensures Strip(pre + s + post, cs) == s
  {
    LStripPrefix(pre, s + post, cs);
    assert pre + s + post == pre + (s + post);
    RStripSuffix(s, post, cs);
  }

  lemma {:induction false} LStripPrefix(pre: string, s: string, cs: set<char>)
    requires forall i :: 0 <= i < |pre| ==> pre[i] in cs
    requires |s| > 0 && s[0] !in cs
    ensures LStrip(pre + s, cs) == s
    decreases |pre|
  {
    if |pre| == 0 {
      assert pre + s == s;
    } else {
      assert (pre + s)[1..] == pre[1..] + s;
      LStripPrefix(pre[1..], s, cs);
    }
  }

  lemma {:induction false} RStripSuffix(s: string, post: string, cs: set<char>)
    requires forall i :: 0 <= i < |post| ==> post[i] in cs
    requires |s| > 0 && s[|s| - 1] !in cs
    ensures RStrip(s + post, cs) == s
    decreases |post|
  {
    if |post| == 0 {
      assert s + post == s;
    } else {
      assert (s + post)[..|s + post| - 1] == s + post[..|post| - 1];
      RStripSuffix(s, post[..|post| - 1], cs);
    }
  }

  // ---------------------------------------------------------------------
  // upper
  // ---------------------------------------------------------------------

  function UpperChar(c: char): char {
    if 'a' <= c <= 'z' then (c as int - 'a' as int + 'A' as int) as char else c
  }

  /** `s.upper()` restricted to ASCII letters. */
  function Upper(s: string): (r: string)
    ensures |r| == |s|
    ensures forall i :: 0 <= i < |s| ==> r[i] == UpperChar(s[i])
  {
    seq(|s|, i requires 0 <= i < |s| => UpperChar(s[i]))
  }

  // ---------------------------------------------------------------------
  // splitlines
  // ---------------------------------------------------------------------

  /** The characters that end a line for `str.splitlines()`. */
  const LineBreaks: set<char> :=
    {'\n', '\r', '\U{000B}', '\U{000C}', '\U{001C}', '\U{001D}', '\U{001E}', '\U{0085}',
     '\U{2028}', '\U{2029}'}

  /** `s.splitlines()`: lines without their terminators; `\r\n` ends one line;
      no empty piece is produced after a final terminator. */
  function SplitLines(s: string): (lines: seq<string>)
    ensures forall i :: 0 <= i < |lines| ==> forall j :: 0 <= j < |lines[i]| ==> lines[i][j] !in LineBreaks
    decreases |s|
  {
    if |s| == 0 then []
    else
      var n := LineEnd(s, 0);
      var skip := if n < |s| && s[n] == '\r' && n + 1 < |s| && s[n + 1] == '\n' then 2 else 1;
      if n == |s| then [s] else [s[..n]] + SplitLines(s[n + skip..])
  }

  /** Index of the first line break at or after `i`, or `|s|`. */
  function LineEnd(s: string, i: nat): (n: nat)
    requires i <= |s|
    ensures i <= n <= |s|
    ensures n < |s| ==> s[n] in LineBreaks
    ensures forall j :: i <= j < n ==> s[j] !in LineBreaks
    decreases |s| - i
  {
    if i == |s| || s[i] in LineBreaks then i else LineEnd(s, i + 1)
  }

  /** Joined lines without line breaks split back into those lines, the
      last one being non-empty (`splitlines` drops nothing else). */
  lemma {:induction false} SplitLinesJoin(lines: seq<string>)
    requires |lines| >= 1 && |lines[|lines| - 1]| > 0
    requires forall i :: 0 <= i < |lines| ==> forall j :: 0 <= j < |lines[i]| ==> lines[i][j] !in LineBreaks
    ensures SplitLines(Join(lines, '\n')) == lines
    decreases |lines|
  {
    var s := Join(lines, '\n');
    var a := lines[0];
    if |lines| == 1 {
      assert s == a;
    } else {
      var rest := Join(lines[1..], '\n');
      assert s == a + ("\n" + rest);
      LineEndAt(a, "\n" + rest);
      assert s[|a| + 1..] == rest;
      SplitLinesJoin(lines[1..]);
    }
  }

  /** A line break right after break-free text ends the line there. */
  lemma LineEndAt(a: string, rest: string)
    requires forall j :: 0 <= j < |a| ==> a[j] !in LineBreaks
    requires |rest| > 0 && rest[0] == '\n'
    ensures LineEnd(a + rest, 0) == |a|
    ensures |a + rest| > |a| && (a + rest)[|a|] == '\n'
  {
    var s := a + rest;
    assert forall j :: 0 <= j < |a| ==> s[j] == a[j];
    assert s[|a|] == rest[0];
  }

  /** `s.replace(c, "")` for a one-character `c`. */
  function Without(s: string, c: char): (r: string)
    ensures c !in r
    ensures |r| <= |s|
    decreases |s|
  {
    if |s| == 0 then ""
    else (if s[0] == c then "" else [s[0]]) + Without(s[1..], c)
  }

  /** Removing a character the text does not hold changes nothing. */
  lemma {:induction false} WithoutAbsent(s: string, c: char)
    requires c !in s
    ensures Without(s, c) == s
    decreases |s|
  {
    if |s| > 0 {
      WithoutAbsent(s[1..], c);
      assert [s[0]] + s[1..] == s;
    }
  }
}
