/** Integer text: what Python's `int(text)` / `int(text, 16)` accept, and
    what `str(n)`, `format(n, "0<w>d")`, `format(n, "b")` and `str.zfill`
    produce. Underscore digit separators are not modelled. */
module Numerals {
  import opened Wrappers
  import Strings

  /** Value of a digit character in bases up to 16; 99 for any other character. */
  function DigitVal(c: char): nat {
    if '0' <= c <= '9' then c as nat - '0' as nat
    else if 'a' <= c <= 'f' then c as nat - 'a' as nat + 10
    else if 'A' <= c <= 'F' then c as nat - 'A' as nat + 10
    else 99
  }

  predicate AllDigits(s: string, base: nat) {
    forall i :: 0 <= i < |s| ==> DigitVal(s[i]) < base
  }

  function Pow(base: nat, n: nat): (p: nat)
    ensures base >= 1 ==> p >= 1
  {
    if n == 0 then 1 else base * Pow(base, n - 1)
  }

  /** Big-endian value of a digit string (meaningful when `AllDigits(ds, base)`). */
  function Value(ds: string, base: nat): nat
    decreases |ds|
  {
    if |ds| == 0 then 0 else Value(ds[..|ds| - 1], base) * base + DigitVal(ds[|ds| - 1])
  }

  function DigitChar(d: nat): (c: char)
    requires d < 16
    ensures DigitVal(c) == d
  {
    "0123456789abcdef"[d]
  }

  /** The canonical digits of `n` (no leading zero unless `n` is 0). */
  function Digits(n: nat, base: nat): (ds: string)
    requires 2 <= base <= 16
    ensures |ds| >= 1 && AllDigits(ds, base) && Value(ds, base) == n
    ensures ds[0] == '0' ==> n == 0
    decreases n
  {
    if n < base then
      var ds := [DigitChar(n)];
      assert ds[..0] == "";
      ds
    else
      DivSmaller(n, base);
      var prefix := Digits(n / base, base);
      var ds := prefix + [DigitChar(n % base)];
      assert ds[..|ds| - 1] == prefix;
      ds
  }

  lemma DivSmaller(n: nat, base: nat)
    requires 2 <= base <= n
    ensures 1 <= n / base < n && n / base * base + n % base == n
  {
  }

  lemma {:induction false} ValueConcat(a: string, b: string, base: nat)
    ensures Value(a + b, base) == Value(a, base) * Pow(base, |b|) + Value(b, base)
    decreases |b|
  {
    if |b| == 0 {
      assert a + b == a;
    } else {
      var b' := b[..|b| - 1];
      assert (a + b)[..|a + b| - 1] == a + b';
      ValueConcat(a, b', base);
      var A := Value(a, base);
      var B := Value(b', base);
      var P := Pow(base, |b'|);
      var d := DigitVal(b[|b| - 1]);
      assert Value(a + b, base) == Value(a + b', base) * base + d;
      assert Value(a + b', base) == A * P + B;
      Distrib(A, P, B, base);
      assert Pow(base, |b|) == base * P;
      assert Value(b, base) == B * base + d;
    }
  }

  lemma Distrib(a: int, p: int, b: int, base: int)
    ensures (a * p + b) * base == a * (base * p) + b * base
  {
  }

  lemma {:induction false} ValueBound(ds: string, base: nat)
    requires base >= 1 && AllDigits(ds, base)
    ensures Value(ds, base) < Pow(base, |ds|)
    decreases |ds|
  {
    if |ds| > 0 {
      var p := ds[..|ds| - 1];
      assert AllDigits(p, base);
      ValueBound(p, base);
      var V := Value(p, base);
      var P := Pow(base, |p|);
      var d := DigitVal(ds[|ds| - 1]);
      assert d < base;
      MulAtLeast(P - V, base);
      SubMul(P, V, base);
      assert Value(ds, base) == V * base + d;
      assert Pow(base, |ds|) == base * P;
    }
  }

  lemma SubMul(p: int, v: int, base: int)
    ensures (p - v) * base == base * p - v * base
  {
  }

  function Zeros(n: nat): (z: string)
    ensures |z| == n && AllDigits(z, 2)
  {
    seq(n, _ => '0')
  }

  lemma {:induction false} ZerosValue(n: nat, base: nat)
    requires base >= 2
    ensures AllDigits(Zeros(n), base) && Value(Zeros(n), base) == 0
    decreases n
  {
    if n > 0 {
      assert Zeros(n)[..n - 1] == Zeros(n - 1);
      ZerosValue(n - 1, base);
    }
  }

  /** Leading zeros do not change a value. */
  lemma ZeroPrefixValue(n: nat, ds: string, base: nat)
    requires base >= 2 && AllDigits(ds, base)
    ensures AllDigits(Zeros(n) + ds, base) && Value(Zeros(n) + ds, base) == Value(ds, base)
  {
    ZerosValue(n, base);
    ValueConcat(Zeros(n), ds, base);
  }

  /** The value of the last `w` digits is the value modulo `base^w`. */
  lemma SuffixValue(x: string, w: nat, base: nat)
    requires base >= 2 && AllDigits(x, base) && w <= |x|
    ensures AllDigits(x[|x| - w..], base)
    ensures Value(x[|x| - w..], base) == Value(x, base) % Pow(base, w)
  {
    SuffixSplit(x, w, base);
    ModOfMultiplePlus(Value(x[..|x| - w], base), Pow(base, w), Value(x[|x| - w..], base));
  }

  /** The digits of `x` before and in its last `w`, and their values. */
  lemma SuffixSplit(x: string, w: nat, base: nat)
    requires base >= 2 && AllDigits(x, base) && w <= |x|
    ensures AllDigits(x[|x| - w..], base)
    ensures Value(x[|x| - w..], base) < Pow(base, w)
    ensures Value(x, base) == Value(x[..|x| - w], base) * Pow(base, w) + Value(x[|x| - w..], base)
  {
    var a := x[..|x| - w];
    var b := x[|x| - w..];
    assert x == a + b && |b| == w;
    ValueConcat(a, b, base);
    assert AllDigits(b, base);
    ValueBound(b, base);
  }

  lemma ModOfMultiplePlus(q: nat, p: nat, r: nat)
    requires r < p
    ensures (q * p + r) % p == r
  {
    var n := q * p + r;
    var d := n / p;
    var m := n % p;
    assert n == d * p + m;
    assert (d - q) * p == r - m;
    if d > q { MulAtLeast(d - q, p); assert false; }
    if d < q { MulAtLeast(q - d, p); assert false; }
  }

  lemma {:induction false} MulAtLeast(x: int, p: int)
    requires x >= 1 && p >= 0
    ensures x * p >= p
    decreases x
  {
    if x > 1 {
      MulAtLeast(x - 1, p);
      assert x * p == (x - 1) * p + p;
    }
  }

  // ---------------------------------------------------------------------
  // str(n) and int(text)
  // ---------------------------------------------------------------------

  /** `str(i)` for an integer. */
  function Decimal(i: int): string {
    if i < 0 then "-" + Digits(-i, 10) else Digits(i, 10)
  }

  /** Python `int(s, base)` for base 10 and 16: surrounding white space,
      an optional sign, for base 16 an optional `0x`/`0X` prefix, then at
      least one digit of the base. `None` where Python raises ValueError. */
  function ParseInt(s: string, base: nat): Option<int>
    requires base == 10 || base == 16
  {
    ParseTrimmed(Strings.Strip(s, Strings.Whitespace), base)
  }

  /** `int()` on text already stripped of surrounding white space. */
  function ParseTrimmed(t: string, base: nat): Option<int>
    requires base == 10 || base == 16
  {
    var neg := |t| > 0 && t[0] == '-';
    var body := if |t| > 0 && (t[0] == '-' || t[0] == '+') then t[1..] else t;
    var ds := if base == 16 && |body| >= 2 && body[0] == '0' && (body[1] == 'x' || body[1] == 'X')
              then body[2..] else body;
    if |ds| > 0 && AllDigits(ds, base) then Some(if neg then 0 - Value(ds, base) else Value(ds, base))
    else None
  }

  lemma DigitNotSpace(c: char)
    requires DigitVal(c) < 16
    ensures c !in Strings.Whitespace && c != '-' && c != '+'
  {
  }

  /** Text made of an optional minus sign and digits has no white space to strip. */
  lemma SignedDigitsTrimmed(sign: string, ds: string)
    requires sign == "" || sign == "-"
    requires |ds| > 0 && AllDigits(ds, 10)
    ensures Strings.Strip(sign + ds, Strings.Whitespace) == sign + ds
  {
    var s := sign + ds;
    DigitNotSpace(ds[0]);
    DigitNotSpace(ds[|ds| - 1]);
    assert s[|s| - 1] == ds[|ds| - 1];
    assert s[0] == '-' || s[0] == ds[0];
    Strings.StripNoop(s, Strings.Whitespace);
  }

  /** `int()` reads decimal digits. */
  lemma ParseDigits(ds: string)
    requires |ds| > 0 && AllDigits(ds, 10)
    ensures ParseInt(ds, 10) == Some(Value(ds, 10))
  {
    SignedDigitsTrimmed("", ds);
    assert "" + ds == ds;
    DigitNotSpace(ds[0]);
  }

  /** `int()` reads a minus sign followed by decimal digits. */
  lemma ParseNegDigits(ds: string)
    requires |ds| > 0 && AllDigits(ds, 10)
    ensures ParseInt("-" + ds, 10) == Some(0 - Value(ds, 10))
  {
    SignedDigitsTrimmed("-", ds);
    TrimmedNeg(ds);
  }

  lemma TrimmedNeg(ds: string)
    requires |ds| > 0 && AllDigits(ds, 10)
    ensures ParseTrimmed("-" + ds, 10) == Some(0 - Value(ds, 10))
  {
    assert ("-" + ds)[1..] == ds;
  }

  /** Parsing the rendering of an integer gives the integer back, even when
      the rendering is padded with zeros after its sign. */
  lemma ParseZeroPadded(i: int, n: nat)
    ensures ParseInt(SignOf(i) + (Zeros(n) + Digits(Abs(i), 10)), 10) == Some(i)
  {
    var d := Digits(Abs(i), 10);
    ZeroPrefixValue(n, d, 10);
    var z := Zeros(n) + d;
    if i < 0 {
      ParseNegDigits(z);
    } else {
      ParseDigits(z);
      EmptyPrefix(z);
    }
  }

  lemma EmptyPrefix(s: string)
    ensures "" + s == s
  {
  }

  lemma ParseDecimal(i: int)
    ensures ParseInt(Decimal(i), 10) == Some(i)
  {
    ParseZeroPadded(i, 0);
    var d := Digits(Abs(i), 10);
    assert Zeros(0) + d == d;
    if i >= 0 { EmptyPrefix(d); }
  }

  function Abs(i: int): nat { if i < 0 then -i else i }

  function SignOf(i: int): string { if i < 0 then "-" else "" }

  // ---------------------------------------------------------------------
  // zero padding
  // ---------------------------------------------------------------------

  /** `format(i, "0<w>d")`: the sign, then zeros, then the digits, at least
      `w` characters in all. */
  function ZeroPad(i: int, w: int): (r: string)
    ensures |r| == if w > |Decimal(i)| then w else |Decimal(i)|
  {
    SignOf(i) + (Zeros(Fill(i, w)) + Digits(Abs(i), 10))
  }

  /** The number of zeros `ZeroPad` inserts. */
  function Fill(i: int, w: int): nat {
    var fill := w - |SignOf(i)| - |Digits(Abs(i), 10)|;
    if fill > 0 then fill else 0
  }

  /** A zero-padded rendering reads back as its integer. */
  lemma ZeroPadReads(i: int, w: int)
    ensures ParseInt(ZeroPad(i, w), 10) == Some(i)
  {
    ParseZeroPadded(i, Fill(i, w));
  }

  /** `s.zfill(w)`: zeros inserted after a leading sign until `s` is `w` long. */
  function ZFill(s: string, w: int): (r: string)
    ensures |r| == if w > |s| then w else |s|
  {
    if |s| >= w then s
    else if |s| > 0 && (s[0] == '+' || s[0] == '-') then [s[0]] + Zeros(w - |s|) + s[1..]
    else Zeros(w - |s|) + s
  }

  /** `s[k:]` with Python's reading of a negative or too large start. */
  function PySliceFrom(s: string, k: int): (r: string)
    ensures |r| <= |s| && r == s[|s| - |r|..]
  {
    var start := if k < 0 then (if |s| + k < 0 then 0 else |s| + k) else (if k > |s| then |s| else k);
    s[start..]
  }

  /** `format(v, "b")`. */
  function FormatBin(v: int): string {
    SignOf(v) + Digits(Abs(v), 2)
  }

  /** A non-empty string of binary digits, as measured bit strings are. */
  predicate IsBits(s: string) {
    |s| > 0 && forall i :: 0 <= i < |s| ==> s[i] == '0' || s[i] == '1'
  }

  /** A decimal rendering holds only a sign and digits. */
  lemma DecimalChars(v: int)
    ensures forall i :: 0 <= i < |Decimal(v)| ==> Decimal(v)[i] == '-' || '0' <= Decimal(v)[i] <= '9'
  {
    var d := Digits(Abs(v), 10);
    assert forall i :: 0 <= i < |d| ==> DigitVal(d[i]) < 10;
  }

  /** A sign or a digit is neither white space nor a line break, nor a
      comma, a quote or a brace. */
  lemma SignOrDigit(c: char)
    requires c == '-' || '0' <= c <= '9'
    ensures c !in Strings.Whitespace && c !in Strings.LineBreaks
    ensures c != ',' && c != '"' && c != '{' && c != '}'
  {
  }

  /** The rendering of a number starts and ends outside white space and
      holds no comma or quote. */
  lemma DecimalEnds(v: int)
    ensures |Decimal(v)| > 0
    ensures Decimal(v)[0] !in Strings.Whitespace
    ensures Decimal(v)[|Decimal(v)| - 1] !in Strings.Whitespace && Decimal(v)[|Decimal(v)| - 1] != ','
    ensures ',' !in Decimal(v) && '"' !in Decimal(v)
  {
    var d := Decimal(v);
    DecimalChars(v);
    SignOrDigit(d[0]);
    SignOrDigit(d[|d| - 1]);
    forall i | 0 <= i < |d|
      ensures d[i] != ',' && d[i] != '"'
    {
      SignOrDigit(d[i]);
    }
  }
}
