/** `expand_host_list`: a compressed host-list expression such as
    `node[01-03,7]` becomes the host names `node01 node02 node03 node7`. */
module HostList {
  import opened Wrappers
  import opened Exceptions
  import Strings
  import Numerals
  import Seqs

  /** Python's `int(text)`, raising ValueError on bad text. */
  function IntOf(text: string): (r: Result<int, Error>)
    ensures r.Ok? <==> Numerals.ParseInt(text, 10).Some?
    ensures r.Ok? ==> r.value == Numerals.ParseInt(text, 10).value
  {
    match Numerals.ParseInt(text, 10)
    case Some(i) => Ok(i)
    case None => Err(BadInt(text))
  }

  /** The ValueError `int(text)` raises. */
  function BadInt(text: string): Error {
    Error(ValueError, "invalid literal for int() with base 10: '" + text + "'")
  }

  /** `node` followed by `i` zero-padded to width `w`. */
  function HostName(node: string, i: int, w: nat): string {
    node + Numerals.ZeroPad(i, w)
  }

  /** The hosts of one comma-separated item: `a-b` is the inclusive range,
      `a` a single host, anything with more dashes nothing at all. */
  function ExpandItem(node: string, item: string): (r: Result<seq<string>, Error>)
    ensures |Strings.Split(item, '-')| > 2 ==> r == Ok([])
    ensures r.Err? ==> r.error.kind == ValueError
  {
    var cur := Strings.Split(item, '-');
    if |cur| == 2 then ExpandRange(node, cur[0], cur[1])
    else if |cur| == 1 then
      var a :- IntOf(cur[0]);
      Ok([HostName(node, a, |cur[0]|)])
    else Ok([])
  }

  /** The hosts of the range `a-b`, padded to the width of `a`. */
  function ExpandRange(node: string, a: string, b: string): (r: Result<seq<string>, Error>)
    ensures r.Err? ==> r.error.kind == ValueError
  {
    var lo :- IntOf(a);
    var hi :- IntOf(b);
    Ok(Numbered(node, lo, Span(lo, hi), |a|))
  }

  /** How many numbers `range(lo, hi + 1)` holds. */
  function Span(lo: int, hi: int): (n: nat)
    ensures n == if lo <= hi then hi - lo + 1 else 0
  {
    if hi + 1 - lo > 0 then hi + 1 - lo else 0
  }

  /** The `n` hosts numbered from `lo` on, padded to width `w`. */
  function Numbered(node: string, lo: int, n: nat, w: nat): (r: seq<string>)
    ensures |r| == n && forall k :: 0 <= k < n ==> r[k] == HostName(node, lo + k, w)
  {
    seq(n, k => HostName(node, lo + k, w))
  }

  /** The items in order, their hosts concatenated; the first bad item stops
      the expansion with its error. */
  function ExpandItems(node: string, items: seq<string>): (r: Result<seq<string>, Error>)
    ensures r.Err? ==> r.error.kind == ValueError
  {
    ExpandEach(item => ExpandItem(node, item), items)
  }

  /** Each item expanded by `expand` in order and the results concatenated;
      the first error stops the loop. */
  function ExpandEach(expand: string -> Result<seq<string>, Error>, items: seq<string>)
    : (r: Result<seq<string>, Error>)
    ensures r.Err? ==> exists i :: 0 <= i < |items| && expand(items[i]) == Err(r.error)
    decreases |items|
  {
    if |items| == 0 then Ok([])
    else
      var first :- expand(items[0]);
      var rest :- ExpandEach(expand, items[1..]);
      Ok(first + rest)
  }

  /** What the bracket search finds in an expression: no brackets at all,
      brackets that give nothing, or the node prefix and the text between
      `[` and the first `]` after it. */
  datatype Shape = Plain | Empty | Bracketed(node: string, rangeText: string)

  /** The search for `[` from the start and for `]` from the `[` found,
      where a missing `[` (-1) makes the `]` search start at the last
      character. */
  function ShapeOf(expr: string): Shape {
    var openBr := Strings.FindFrom(expr, "[", 0);
    var closeBr := Strings.PyFind(expr, "]", openBr);
    if openBr == -1 && closeBr == -1 then Plain
    else if openBr == -1 || closeBr == -1 then Empty
    else if closeBr < openBr + 1 then Empty
    else Bracketed(expr[..openBr], expr[openBr + 1..closeBr])
  }

  /** `expand_host_list`: a plain expression is its own single host,
      brackets the search cannot pair give no host, and otherwise the items
      between the brackets are expanded; only a number that does not parse
      raises, with ValueError. */
  function ExpandHostList(expr: string): (r: Result<seq<string>, Error>)
    ensures ShapeOf(expr).Plain? ==> r == Ok([expr])
    ensures ShapeOf(expr).Empty? ==> r == Ok([])
    ensures r.Err? ==> ShapeOf(expr).Bracketed? && r.error.kind == ValueError
  {
    match ShapeOf(expr)
    case Plain => Ok([expr])
    case Empty => Ok([])
    case Bracketed(node, rangeText) => ExpandItems(node, Strings.Split(rangeText, ','))
  }

  // ---------------------------------------------------------------------
  // properties
  // ---------------------------------------------------------------------

  /** Without `[`, the expression is one host name, except that a final `]`
      is still found (the search for it starts at index -1, the last
      character) and then nothing is produced. */
  lemma NoBracket(expr: string)
    requires forall i :: 0 <= i < |expr| ==> expr[i] != '['
    ensures |expr| > 0 && expr[|expr| - 1] == ']' ==> ExpandHostList(expr) == Ok([])
    ensures (|expr| == 0 || expr[|expr| - 1] != ']') ==> ExpandHostList(expr) == Ok([expr])
  {
    Strings.FindChar(expr, '[', 0, |expr|);
    if |expr| > 0 {
      var last := |expr| - 1;
      if expr[last] == ']' {
        Strings.FindChar(expr, ']', last, last);
      } else {
        Strings.FindChar(expr, ']', last, |expr|);
      }
    } else {
      Strings.FindChar(expr, ']', 0, 0);
    }
  }

  /** A `[` with no `]` after it yields no hosts. */
  lemma UnclosedBracket(p: string, t: string)
    requires forall i :: 0 <= i < |p| ==> p[i] != '['
    requires forall i :: 0 <= i < |t| ==> t[i] != ']'
    ensures ExpandHostList(p + "[" + t) == Ok([])
  {
    var e := p + "[" + t;
    Strings.FindChar(e, '[', 0, |p|);
    Strings.FindChar(e, ']', |p|, |e|);
  }

  /** The prefix before `[` names every host, the text between the brackets
      lists the items, and whatever follows `]` is ignored. */
  lemma Structure(p: string, body: string, t: string)
    requires forall i :: 0 <= i < |p| ==> p[i] != '['
    requires forall i :: 0 <= i < |body| ==> body[i] != ']'
    ensures ExpandHostList(p + "[" + body + "]" + t) == ExpandItems(p, Strings.Split(body, ','))
  {
    OpenAt(p, body, t);
    CloseAt(p, body, t);
    BracketsFound(p, body, t);
  }

  /** Once the brackets are found around `body`, the items are its pieces. */
  lemma BracketsFound(p: string, body: string, t: string)
    requires Strings.FindFrom(p + "[" + body + "]" + t, "[", 0) == |p|
    requires Strings.FindFrom(p + "[" + body + "]" + t, "]", |p|) == |p| + 1 + |body|
    ensures ExpandHostList(p + "[" + body + "]" + t) == ExpandItems(p, Strings.Split(body, ','))
  {
    var e := p + "[" + body + "]" + t;
    Between(p, body, t);
    ShapeBracketed(e, |p|, |p| + 1 + |body|, p, body);
    ExpandBracketed(e, p, body);
  }

  /** Bracketed text expands as its comma-separated items. */
  lemma ExpandBracketed(e: string, node: string, rangeText: string)
    requires ShapeOf(e) == Bracketed(node, rangeText)
    ensures ExpandHostList(e) == ExpandItems(node, Strings.Split(rangeText, ','))
  {
  }

  /** A `[` at `o` and the first `]` after it at `c` delimit the range text. */
  lemma ShapeBracketed(e: string, o: nat, c: nat, node: string, rangeText: string)
    requires Strings.FindFrom(e, "[", 0) == o && Strings.FindFrom(e, "]", o) == c && o < c <= |e|
    requires e[..o] == node && e[o + 1..c] == rangeText
    ensures ShapeOf(e) == Bracketed(node, rangeText)
  {
  }

  /** The first `[` is the one after the prefix. */
  lemma OpenAt(p: string, body: string, t: string)
    requires forall i :: 0 <= i < |p| ==> p[i] != '['
    ensures Strings.FindFrom(p + "[" + body + "]" + t, "[", 0) == |p|
  {
    Strings.FindChar(p + "[" + body + "]" + t, '[', 0, |p|);
  }

  /** The first `]` after the `[` is the one after `body`. */
  lemma CloseAt(p: string, body: string, t: string)
    requires forall i :: 0 <= i < |body| ==> body[i] != ']'
    ensures Strings.FindFrom(p + "[" + body + "]" + t, "]", |p|) == |p| + 1 + |body|
  {
    CloseAfterOpen(p, body);
    FindCharAt(p + "[" + body, ']', t, |p|);
  }

  /** The prefix and the text between the brackets, cut back out. */
  lemma Between(p: string, body: string, t: string)
    ensures var e := p + "[" + body + "]" + t;
            e[|p| + 1..|p| + 1 + |body|] == body && e[..|p|] == p
  {
  }

  /** After the `[`, nothing up to the end of `body` is a `]`. */
  lemma CloseAfterOpen(p: string, body: string)
    requires forall i :: 0 <= i < |body| ==> body[i] != ']'
    ensures forall j :: |p| <= j < |p| + 1 + |body| ==> (p + "[" + body)[j] != ']'
  {
    forall j | |p| < j < |p| + 1 + |body| ensures (p + "[" + body)[j] != ']' {
      assert (p + "[" + body)[j] == body[j - |p| - 1];
    }
  }

  /** The first `c` at or after `start` of `a`, `c`, `b` is the one after `a`
      when `a` holds none from `start` on. */
  lemma FindCharAt(a: string, c: char, b: string, start: nat)
    requires start <= |a| && forall j :: start <= j < |a| ==> a[j] != c
    ensures Strings.FindFrom(a + [c] + b, [c], start) == |a|
  {
    var s := a + [c] + b;
    assert forall j :: start <= j < |a| ==> s[j] == a[j];
    Strings.FindChar(s, c, start, |a|);
  }

  /** Items are expanded left to right and their hosts concatenated. */
  lemma ItemsConcat(node: string, xs: seq<string>, ys: seq<string>)
    requires ExpandItems(node, xs).Ok? && ExpandItems(node, ys).Ok?
    ensures ExpandItems(node, xs + ys) == Ok(ExpandItems(node, xs).value + ExpandItems(node, ys).value)
  {
    EachConcat(item => ExpandItem(node, item), xs, ys);
  }

  lemma {:induction false} EachConcat(expand: string -> Result<seq<string>, Error>, xs: seq<string>, ys: seq<string>)
    requires ExpandEach(expand, xs).Ok? && ExpandEach(expand, ys).Ok?
    ensures ExpandEach(expand, xs + ys) == Ok(ExpandEach(expand, xs).value + ExpandEach(expand, ys).value)
    decreases |xs|
  {
    if |xs| == 0 {
      assert xs + ys == ys;
      var v := ExpandEach(expand, ys).value;
      assert [] + v == v;
    } else {
      assert (xs + ys)[0] == xs[0];
      assert (xs + ys)[1..] == xs[1..] + ys;
      EachConcat(expand, xs[1..], ys);
      var first := expand(xs[0]).value;
      var mid := ExpandEach(expand, xs[1..]).value;
      var last := ExpandEach(expand, ys).value;
      assert ExpandEach(expand, xs).value == first + mid;
      Seqs.ConcatAssoc(first, mid, last);
    }
  }

  /** A range `a-b` gives one host per number from `a` to `b` in ascending
      order, each suffix reading back as its number and padded to the
      width of `a`; `a > b` gives nothing. */
  lemma RangeItem(node: string, a: string, b: string)
    requires forall i :: 0 <= i < |a| ==> a[i] != '-'
    requires forall i :: 0 <= i < |b| ==> b[i] != '-'
    requires Numerals.ParseInt(a, 10).Some? && Numerals.ParseInt(b, 10).Some?
    ensures var lo := Numerals.ParseInt(a, 10).value;
            var hi := Numerals.ParseInt(b, 10).value;
            var r := ExpandItem(node, a + "-" + b);
            && r.Ok?
            && |r.value| == (if lo <= hi then hi - lo + 1 else 0)
            && forall k :: 0 <= k < |r.value| ==> r.value[k] == HostName(node, lo + k, |a|)
  {
    RangeParts(a, b);
    assert ExpandItem(node, a + "-" + b) == ExpandRange(node, a, b);
    RangeHosts(node, a, b);
  }

  lemma RangeHosts(node: string, a: string, b: string)
    requires Numerals.ParseInt(a, 10).Some? && Numerals.ParseInt(b, 10).Some?
    ensures var lo := Numerals.ParseInt(a, 10).value;
            var hi := Numerals.ParseInt(b, 10).value;
            var r := ExpandRange(node, a, b);
            && r.Ok?
            && |r.value| == (if lo <= hi then hi - lo + 1 else 0)
            && forall k :: 0 <= k < |r.value| ==> r.value[k] == HostName(node, lo + k, |a|)
  {
    var lo := Numerals.ParseInt(a, 10).value;
    var hi := Numerals.ParseInt(b, 10).value;
    assert IntOf(a) == Ok(lo) && IntOf(b) == Ok(hi);
    assert ExpandRange(node, a, b) == Ok(Numbered(node, lo, Span(lo, hi), |a|));
  }

  lemma RangeParts(a: string, b: string)
    requires forall i :: 0 <= i < |a| ==> a[i] != '-'
    requires forall i :: 0 <= i < |b| ==> b[i] != '-'
    ensures Strings.Split(a + "-" + b, '-') == [a, b]
  {
    Strings.SplitJoin([a, b], '-');
    assert Strings.Join([a, b], '-') == a + "-" + b;
  }

  /** Every host name is the node prefix followed by a suffix at least `w`
      long that reads back as the host's number. */
  lemma HostNameParts(node: string, i: int, w: nat)
    ensures |HostName(node, i, w)| >= |node| + w
    ensures HostName(node, i, w)[..|node|] == node
    ensures Numerals.ParseInt(HostName(node, i, w)[|node|..], 10) == Some(i)
  {
    var z := Numerals.ZeroPad(i, w);
    Numerals.ZeroPadReads(i, w);
    assert (node + z)[|node|..] == z;
    assert (node + z)[..|node|] == node;
  }

  /** A single item `a` gives one host, padded to the width of `a`. */
  lemma SingleItem(node: string, a: string)
    requires forall i :: 0 <= i < |a| ==> a[i] != '-'
    requires Numerals.ParseInt(a, 10).Some?
    ensures ExpandItem(node, a) == Ok([HostName(node, Numerals.ParseInt(a, 10).value, |a|)])
  {
    Strings.SplitJoin([a], '-');
    assert Strings.Join([a], '-') == a;
  }

  /** An item whose number does not parse stops the whole expansion. */
  lemma BadItem(node: string, a: string)
    requires forall i :: 0 <= i < |a| ==> a[i] != '-'
    requires Numerals.ParseInt(a, 10).None?
    ensures ExpandItem(node, a).Err? && ExpandItem(node, a).error.kind == ValueError
  {
    Strings.SplitJoin([a], '-');
    assert Strings.Join([a], '-') == a;
  }
}
