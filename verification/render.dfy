/** Python's `str()` and `repr()` of the values the system formats into
    messages and environment variables. Strings are quoted with single
    quotes; the escaping `repr` applies to quotes, backslashes and
    unprintable characters inside a string is not modelled. */
module Render {
  import opened Wrappers
  import opened OrderedMaps
  import opened Values
  import Numerals

  function Quote(s: string): string {
    "'" + s + "'"
  }

  /** `repr(v)`. */
  function Repr(v: Value): string
    decreases v
  {
    match v
    case VNone => "None"
    case VBool(b) => if b then "True" else "False"
    case VInt(i) => Numerals.Decimal(i)
    case VStr(s) => Quote(s)
    case VList(items) => "[" + ReprItems(items, v) + "]"
    case VDict(m) => "{" + ReprEntries(m.keys, m.vals, v) + "}"
    case VObj(r) => r
  }

  function ReprItems(items: seq<Value>, ghost parent: Value): string
    requires forall i :: 0 <= i < |items| ==> items[i] < parent
    decreases parent, |items|
  {
    if |items| == 0 then ""
    else if |items| == 1 then Repr(items[0])
    else Repr(items[0]) + ", " + ReprItems(items[1..], parent)
  }

  function ReprEntries(ks: seq<string>, vals: map<string, Value>, ghost parent: Value): string
    requires forall k :: k in vals ==> vals[k] < parent
    decreases parent, |ks|
  {
    if |ks| == 0 then ""
    else
      var entry := Quote(ks[0]) + ": " + (if ks[0] in vals then Repr(vals[ks[0]]) else "None");
      if |ks| == 1 then entry else entry + ", " + ReprEntries(ks[1..], vals, parent)
  }

  /** `str(v)`: a string is itself, anything else its `repr`. */
  function Str(v: Value): (r: string)
    ensures v.VStr? ==> r == v.s
  {
    if v.VStr? then v.s else Repr(v)
  }

  /** `str()` of an integer reads back as that integer. */
  lemma StrIntRoundTrip(i: int)
    ensures Numerals.ParseInt(Str(VInt(i)), 10) == Some(i)
  {
    Numerals.ParseDecimal(i);
  }

  /** The class name Python reports for a value. */
  function TypeName(v: Value): string {
    match v
    case VNone => "NoneType"
    case VBool(_) => "bool"
    case VInt(_) => "int"
    case VStr(_) => "str"
    case VList(_) => "list"
    case VDict(_) => "dict"
    case VObj(_) => "object"
  }
}
