/**
 * Numbers as the protocol text carries them. Coordinates, steps and
 * positions are C++ doubles, modelled as reals. They are written with
 * QString::arg(double, 0, 'f', 3) (Fixed3), QString::arg(double)
 * (Shortest) and QString::arg(int) (IntText), and read back with
 * QString::toDouble on plain decimal text (ToDouble).
 */
module Numbers {
  import opened Wrappers
  import opened Text

  predicate IsDigit(c: char) {
    '0' <= c <= '9'
  }

  predicate AllDigits(s: string) {
    forall i :: 0 <= i < |s| ==> IsDigit(s[i])
  }

  function DigitValue(c: char): nat
    requires IsDigit(c)
  {
    c as int - '0' as int
  }

  function DigitChar(d: nat): (c: char)
    requires d < 10
    ensures IsDigit(c) && DigitValue(c) == d
  {
    ('0' as int + d) as char
  }

  /** The value of decimal digits, most significant first. */
  function DigitsValue(s: string): nat
    requires AllDigits(s)
  {
    if s == [] then 0 else DigitsValue(s[..|s| - 1]) * 10 + DigitValue(s[|s| - 1])
  }

  /** The value of the digits written after a decimal point. */
  function FractionValue(s: string): real
    requires AllDigits(s)
  {
    if s == [] then 0.0 else (DigitValue(s[0]) as real + FractionValue(s[1..])) / 10.0
  }

  /** The decimal digits of n, without leading zeros. */
  function NatText(n: nat): (r: string)
    ensures r != [] && AllDigits(r) && DigitsValue(r) == n
    ensures r[0] == '0' ==> n == 0 && |r| == 1
  {
    if n < 10 then [DigitChar(n)]
    else
      var p := NatText(n / 10);
      assert (p + [DigitChar(n % 10)])[..|p|] == p;
      p + [DigitChar(n % 10)]
  }

  /** QString::arg(int): an optional minus sign and the digits. */
  function IntText(i: int): string {
    if i < 0 then "-" + NatText(-i) else NatText(i)
  }

  /** x in thousandths, rounded to the nearest, ties away from zero. */
  function Thousandths(x: real): (n: int)
    ensures n as real - 0.5 <= x * 1000.0 <= n as real + 0.5
  {
    if x >= 0.0 then (x * 1000.0 + 0.5).Floor else -((0.5 - x * 1000.0).Floor)
  }

  /** x as the three-decimal texts below carry it. */
  function Round3(x: real): real {
    Thousandths(x) as real / 1000.0
  }

  /** Three digits for a count of thousandths below one. */
  function Pad3(k: nat): (r: string)
    requires k < 1000
    ensures |r| == 3 && AllDigits(r) && FractionValue(r) == k as real / 1000.0
  {
    var r := [DigitChar(k / 100), DigitChar(k / 10 % 10), DigitChar(k % 10)];
    assert r[1..][1..] == r[2..] && r[2..][1..] == [];
    assert FractionValue(r[2..]) == (k % 10) as real / 10.0;
    assert FractionValue(r[1..]) == ((k / 10 % 10) as real + FractionValue(r[2..])) / 10.0;
    assert k == (k / 100) * 100 + (k / 10 % 10) * 10 + k % 10;
    r
  }

  /** Drops trailing zero digits of a fraction. */
  function DropZeros(s: string): (r: string)
    requires AllDigits(s)
    ensures AllDigits(r) && |r| <= |s| && r == s[..|r|]
    ensures r == [] || r[|r| - 1] != '0'
  {
    if s != [] && s[|s| - 1] == '0' then DropZeros(s[..|s| - 1]) else s
  }

  /** Trailing zeros after the decimal point do not change its value. */
  lemma {:induction false} FractionValueZeros(s: string)
    requires AllDigits(s)
    ensures FractionValue(DropZeros(s)) == FractionValue(s)
    decreases |s|
  {
    if s != [] && s[|s| - 1] == '0' {
      FractionValueZeros(s[..|s| - 1]);
      FractionValueDropLastZero(s[..|s| - 1]);
      assert s[..|s| - 1] + ['0'] == s;
    }
  }

  lemma {:induction false} FractionValueDropLastZero(s: string)
    requires AllDigits(s)
    ensures AllDigits(s + ['0']) && FractionValue(s + ['0']) == FractionValue(s)
  {
    if s != [] {
      assert (s + ['0'])[1..] == s[1..] + ['0'];
      FractionValueDropLastZero(s[1..]);
    }
  }

  function SignText(negative: bool): string {
    if negative then "-" else ""
  }

  function Magnitude(n: int): nat {
    if n < 0 then -n else n
  }

  /** QString::arg(x, 0, 'f', 3): fixed point with exactly three decimals. */
  function Fixed3(x: real): string {
    var a := Magnitude(Thousandths(x));
    SignText(Thousandths(x) < 0) + NatText(a / 1000) + "." + Pad3(a % 1000)
  }

  /** QString::arg(x): the rounded value without trailing zeros or a bare point. */
  function Shortest(x: real): string {
    var a := Magnitude(Thousandths(x));
    SignText(Thousandths(x) < 0) + NatText(a / 1000)
      + (if a % 1000 == 0 then "" else "." + DropZeros(Pad3(a % 1000)))
  }

  /** The length of the run of digits that s starts with. */
  function DigitRun(s: string): (n: nat)
    ensures n <= |s| && AllDigits(s[..n]) && (n < |s| ==> !IsDigit(s[n]))
  {
    if s != [] && IsDigit(s[0]) then
      var m := DigitRun(s[1..]);
      assert s[..m + 1] == [s[0]] + s[1..][..m];
      1 + m
    else 0
  }

  /** Digits, an optional point and digits, with at least one digit; its value, or None. */
  function ParseUnsigned(body: string): Option<real> {
    var d := DigitRun(body);
    if d == |body| then
      if d > 0 then Some(DigitsValue(body) as real) else None
    else if body[d] == '.' && AllDigits(body[d + 1..]) && |body| > 1 then
      Some(DigitsValue(body[..d]) as real + FractionValue(body[d + 1..]))
    else None
  }

  function Negated(v: Option<real>): Option<real> {
    match v
    case Some(x) => Some(-x)
    case None => None
  }

  /** Plain decimal text with an optional sign; its value, or None. */
  function ParseDecimal(s: string): Option<real> {
    var signed := s != [] && (s[0] == '-' || s[0] == '+');
    var magnitude := ParseUnsigned(if signed then s[1..] else s);
    if signed && s[0] == '-' then Negated(magnitude) else magnitude
  }

  /** QString::toDouble(&ok): surrounding whitespace ignored, None when ok is false. */
  function ToDouble(s: string): Option<real> {
    ParseDecimal(Trim(s))
  }

  /** A text that reads as a number. */
  predicate IsNumeric(s: string) {
    ToDouble(s).Some?
  }

  lemma {:induction false} NoPointInDigits(w: string)
    requires AllDigits(w)
    ensures '.' !in w
  {
    forall i | 0 <= i < |w| ensures w[i] != '.' {
      assert IsDigit(w[i]);
    }
  }

  /** The digit run of digits followed by a non-digit is exactly those digits. */
  lemma {:induction false} DigitRunStops(w: string, rest: string)
    requires AllDigits(w) && (rest == [] || !IsDigit(rest[0]))
    ensures DigitRun(w + rest) == |w|
  {
    if w != [] {
      assert (w + rest)[1..] == w[1..] + rest;
      DigitRunStops(w[1..], rest);
    }
  }

  /** Digits, a point and digits read as their value. */
  lemma {:induction false} ParseUnsignedParts(w: string, f: string)
    requires AllDigits(w) && AllDigits(f) && |w| + |f| > 0
    ensures ParseUnsigned(w + "." + f) == Some(DigitsValue(w) as real + FractionValue(f))
  {
    var body := w + ['.'] + f;
    assert w + "." + f == body;
    assert body == w + (['.'] + f);
    DigitRunStops(w, ['.'] + f);
    assert body[|w|] == '.';
    assert body[..|w|] == w;
    assert body[|w| + 1..] == f;
  }

  /** Digits alone read as their value. */
  lemma {:induction false} ParseUnsignedWhole(w: string)
    requires AllDigits(w) && w != []
    ensures ParseUnsigned(w) == Some(DigitsValue(w) as real)
  {
    NoPointInDigits(w);
  }

  /** A leading minus sign negates what follows. */
  lemma {:induction false} ParseSigned(negative: bool, body: string)
    requires body != [] && body[0] != '-' && body[0] != '+'
    ensures ParseDecimal(SignText(negative) + body)
      == if negative then Negated(ParseUnsigned(body)) else ParseUnsigned(body)
  {
    if negative {
      assert (SignText(negative) + body)[1..] == body;
    } else {
      assert SignText(negative) + body == body;
    }
  }

  /** A number text has nothing to trim. */
  lemma {:induction false} TrimNumber(s: string)
    requires s != [] && !IsSpace(s[0]) && !IsSpace(s[|s| - 1])
    ensures Trim(s) == s
  {
    assert s == [] + s + [];
    TrimCharacterized(s, [], s, []);
  }

  lemma {:induction false} ThousandthsSplit(n: int)
    ensures n as real / 1000.0
      == (if n < 0 then -1.0 else 1.0) * ((Magnitude(n) / 1000) as real + (Magnitude(n) % 1000) as real / 1000.0)
  {
    var a := Magnitude(n);
    assert a == (a / 1000) * 1000 + a % 1000;
    assert a as real == (a / 1000) as real * 1000.0 + (a % 1000) as real;
  }

  /** What Fixed3 writes, ToDouble reads back as the value rounded to thousandths. */
  lemma {:induction false} ToDoubleFixed3(x: real)
    ensures ToDouble(Fixed3(x)) == Some(Round3(x))
  {
    var n := Thousandths(x);
    assert Round3(x) == n as real / 1000.0;
    ReadThousandths(n, Pad3(Magnitude(n) % 1000), Fixed3(x));
  }

  /** What Shortest writes, ToDouble reads back as the value rounded to thousandths. */
  lemma {:induction false} ToDoubleShortest(x: real)
    ensures ToDouble(Shortest(x)) == Some(Round3(x))
  {
    var n := Thousandths(x);
    assert Round3(x) == n as real / 1000.0;
    var k := Magnitude(n) % 1000;
    var head := SignText(n < 0) + NatText(Magnitude(n) / 1000);
    if k == 0 {
      assert Shortest(x) == head + "";
      ReadWholeThousandths(n, Shortest(x));
    } else {
      var f := DropZeros(Pad3(k));
      assert Shortest(x) == head + "." + f;
      assert FractionValue(f) == k as real / 1000.0 by {
        FractionValueZeros(Pad3(k));
      }
      ReadThousandths(n, f, Shortest(x));
    }
  }

  /** A count of thousandths written as sign, whole part, point and fraction digits reads back. */
  lemma {:induction false} ReadThousandths(n: int, f: string, s: string)
    requires AllDigits(f) && f != [] && FractionValue(f) == (Magnitude(n) % 1000) as real / 1000.0
    requires s == SignText(n < 0) + NatText(Magnitude(n) / 1000) + "." + f
    ensures ToDouble(s) == Some(n as real / 1000.0)
  {
    var w := NatText(Magnitude(n) / 1000);
    ReadDecimal(s, n < 0, w, f);
    assert n as real / 1000.0 == (if n < 0 then -1.0 else 1.0) * (DigitsValue(w) as real + FractionValue(f)) by {
      ThousandthsSplit(n);
    }
  }

  /** Sign, digits, a point and digits read as the signed value. */
  lemma {:induction false} ReadDecimal(s: string, negative: bool, w: string, f: string)
    requires AllDigits(w) && w != [] && AllDigits(f) && f != []
    requires s == SignText(negative) + w + "." + f
    ensures ToDouble(s) == Some((if negative then -1.0 else 1.0) * (DigitsValue(w) as real + FractionValue(f)))
  {
    var body := w + "." + f;
    DecimalBody(SignText(negative), w, f, body, s);
    ParseUnsignedParts(w, f);
    var v := DigitsValue(w) as real + FractionValue(f);
    ReadSigned(s, negative, body, v);
    assert (if negative then -v else v) == (if negative then -1.0 else 1.0) * v;
  }

  lemma DecimalBody(sign: string, w: string, f: string, body: string, s: string)
    requires AllDigits(w) && w != [] && AllDigits(f) && f != []
    requires body == w + "." + f && s == sign + w + "." + f
    ensures s == sign + body && IsDigit(body[0]) && IsDigit(body[|body| - 1])
  {
    assert body[0] == w[0] && body[|body| - 1] == f[|f| - 1];
  }

  /** A whole count of thousandths written without a fraction reads back. */
  lemma {:induction false} ReadWholeThousandths(n: int, s: string)
    requires Magnitude(n) % 1000 == 0
    requires s == SignText(n < 0) + NatText(Magnitude(n) / 1000) + ""
    ensures ToDouble(s) == Some(n as real / 1000.0)
  {
    var v := DigitsValue(NatText(Magnitude(n) / 1000)) as real;
    assert ToDouble(s) == Some(if n < 0 then -v else v) by {
      var w := NatText(Magnitude(n) / 1000);
      assert s == SignText(n < 0) + w;
      ParseUnsignedWhole(w);
      ReadSigned(s, n < 0, w, v);
    }
    assert n as real / 1000.0 == if n < 0 then -v else v by {
      ThousandthsSplit(n);
    }
  }

  /** What IntText writes, ToDouble reads back exactly. */
  lemma {:induction false} ToDoubleIntText(i: int)
    ensures ToDouble(IntText(i)) == Some(i as real)
  {
    var v := DigitsValue(NatText(Magnitude(i))) as real;
    assert ToDouble(IntText(i)) == Some(if i < 0 then -v else v) by {
      var w := NatText(Magnitude(i));
      assert IntText(i) == SignText(i < 0) + w;
      ParseUnsignedWhole(w);
      ReadSigned(IntText(i), i < 0, w, v);
    }
  }

  /** Digits after an optional minus sign need no trimming and read as signed. */
  lemma {:induction false} ReadSigned(s: string, negative: bool, body: string, v: real)
    requires s == SignText(negative) + body
    requires body != [] && IsDigit(body[0]) && IsDigit(body[|body| - 1])
    requires ParseUnsigned(body) == Some(v)
    ensures ToDouble(s) == Some(if negative then -v else v)
  {
    assert s[|s| - 1] == body[|body| - 1];
    assert s[0] == '-' || s[0] == body[0];
    TrimNumber(s);
    ParseSigned(negative, body);
  }

  /**
   * The length of the longest prefix of s matching the regular expression
   * [-+]?\d*\.?\d+ , or 0 when no prefix matches.
   */
  function NumberSpan(s: string): (n: nat)
    ensures n <= |s|
  {
    var sign := SignLength(s);
    var p := sign + DigitRun(s[sign..]);
    if p < |s| && s[p] == '.' && DigitRun(s[p + 1..]) > 0 then p + 1 + DigitRun(s[p + 1..])
    else if p > sign then p
    else 0
  }

  /** The sign the regular expression accepts in front of a number, if any. */
  function SignLength(s: string): (k: nat)
    ensures k <= 1 && k <= |s|
  {
    if s != [] && (s[0] == '-' || s[0] == '+') then 1 else 0
  }

  /** A matched number is followed by no further digit. */
  lemma {:induction false} NumberSpanMaximal(s: string)
    requires NumberSpan(s) > 0
    ensures NumberSpan(s) < |s| ==> !IsDigit(s[NumberSpan(s)])
  {
    var n := NumberSpan(s);
    var sign := SignLength(s);
    var p := sign + DigitRun(s[sign..]);
    if p < |s| && s[p] == '.' && DigitRun(s[p + 1..]) > 0 {
      assert n < |s| ==> s[n] == s[p + 1..][DigitRun(s[p + 1..])];
    } else {
      assert n < |s| ==> s[n] == s[sign..][DigitRun(s[sign..])];
    }
  }

  /** toDouble of a matched number always succeeds. */
  lemma {:induction false} NumberSpanParses(s: string)
    requires NumberSpan(s) > 0
    ensures ToDouble(s[..NumberSpan(s)]).Some?
  {
    var sign := SignLength(s);
    var p := sign + DigitRun(s[sign..]);
    if p < |s| && s[p] == '.' && DigitRun(s[p + 1..]) > 0 {
      SpanWithFraction(s, sign, p);
    } else {
      SpanWhole(s, sign, p);
    }
  }

  lemma {:induction false} SpanWithFraction(s: string, sign: nat, p: nat)
    requires sign == SignLength(s) && p == sign + DigitRun(s[sign..])
    requires p < |s| && s[p] == '.' && DigitRun(s[p + 1..]) > 0
    ensures ToDouble(s[..NumberSpan(s)]).Some?
  {
    var q := DigitRun(s[p + 1..]);
    NumberSpanAt(s, sign, p, q);
    FractionPrefixReads(s, sign, p, NumberSpan(s));
  }

  /** The prefix up to the end of the digits after the point reads as a number. */
  lemma FractionPrefixReads(s: string, sign: nat, p: nat, n: nat)
    requires sign == SignLength(s) && p == sign + DigitRun(s[sign..])
    requires p < |s| && s[p] == '.' && n == p + 1 + DigitRun(s[p + 1..]) && n > p + 1
    ensures ToDouble(s[..n]).Some?
  {
    DigitsBetween(s, sign, p);
    DigitsBetween(s, p + 1, n);
    SplitAtPoint(s, sign, p, n);
    SignOfPrefix(s, n);
    ReadPointed(s[..n], sign, s[sign..p], s[p + 1..n]);
  }

  /** A signed text made of digits, a point and at least one digit reads as a number. */
  lemma ReadPointed(t: string, sign: nat, w: string, f: string)
    requires sign == SignLength(t) && sign <= |t| && t[sign..] == w + "." + f
    requires AllDigits(w) && AllDigits(f) && f != []
    ensures ToDouble(t).Some?
  {
    assert t[|t| - 1] == f[|f| - 1];
    ParseUnsignedParts(w, f);
    ReadMatched(t, sign);
  }

  /** The digit run starting at k spans s[k..m]. */
  lemma DigitsBetween(s: string, k: nat, m: nat)
    requires k <= |s| && m == k + DigitRun(s[k..])
    ensures m <= |s| && AllDigits(s[k..m])
  {
    assert s[k..m] == s[k..][..m - k];
  }

  /** A non-empty prefix carries the same sign. */
  lemma SignOfPrefix(s: string, n: nat)
    requires 0 < n <= |s|
    ensures SignLength(s[..n]) == SignLength(s)
  {
    assert s[..n][0] == s[0];
  }

  lemma SplitAtPoint(s: string, sign: nat, p: nat, n: nat)
    requires sign <= p < n <= |s| && s[p] == '.'
    ensures s[..n][sign..] == s[sign..p] + "." + s[p + 1..n]
  {
  }

  lemma {:induction false} SpanWhole(s: string, sign: nat, p: nat)
    requires sign == SignLength(s) && p == sign + DigitRun(s[sign..])
    requires !(p < |s| && s[p] == '.' && DigitRun(s[p + 1..]) > 0) && p > sign
    ensures ToDouble(s[..NumberSpan(s)]).Some?
  {
    var t := s[..p];
    assert ParseUnsigned(t[sign..]).Some? && IsDigit(t[p - 1]) by {
      var d1 := DigitRun(s[sign..]);
      var w := s[sign..p];
      assert w == s[sign..][..d1];
      assert t[sign..] == w;
      assert t[p - 1] == w[d1 - 1];
      ParseUnsignedWhole(w);
    }
    ReadMatched(t, sign);
  }

  /** A signed text whose unsigned part parses, with a digit at the end, reads as a number. */
  lemma {:induction false} ReadMatched(t: string, sign: nat)
    requires sign == SignLength(t) && sign < |t| && IsDigit(t[|t| - 1])
    requires ParseUnsigned(t[sign..]).Some?
    ensures ToDouble(t).Some?
  {
    TrimNumber(t);
  }

  /**
   * A sign, digits, a point and digits, followed by anything that does not start
   * with a digit, is matched by the number pattern up to its last digit.
   */
  lemma {:induction false} NumberSpanDecimal(negative: bool, w: string, f: string, rest: string)
    requires AllDigits(w) && w != [] && AllDigits(f) && f != []
    requires rest == [] || !IsDigit(rest[0])
    ensures NumberSpan(SignText(negative) + w + "." + f + rest) == |SignText(negative)| + |w| + 1 + |f|
  {
    var s := SignText(negative) + w + "." + f + rest;
    var point := "." + f + rest;
    assert point[0] == '.';
    SignOfDecimal(s, negative, w, point);
    DecimalShape(s, SignText(negative), w, f, rest);
    DecimalRuns(s, |SignText(negative)|, |SignText(negative)| + |w|, w, point, f, rest);
  }

  /** A digit after the optional minus sign leaves only that sign to the pattern's sign part. */
  lemma SignOfDecimal(s: string, negative: bool, w: string, tail: string)
    requires w != [] && IsDigit(w[0]) && s == SignText(negative) + w + tail
    ensures SignLength(s) == |SignText(negative)|
  {
    if !negative {
      assert s[0] == w[0];
    }
  }

  /** Digits, a point and digits starting at the sign's end make up the matched number. */
  lemma DecimalRuns(s: string, sign: nat, p: nat, w: string, point: string, f: string, rest: string)
    requires SignLength(s) == sign && p == sign + |w| && p < |s|
    requires s[sign..] == w + point && AllDigits(w) && point != [] && point[0] == '.'
    requires s[p] == '.' && s[p + 1..] == f + rest && AllDigits(f) && f != [] && (rest == [] || !IsDigit(rest[0]))
    ensures NumberSpan(s) == p + 1 + |f|
  {
    DigitRunAt(s, sign, w, point);
    DigitRunAt(s, p + 1, f, rest);
    NumberSpanAt(s, sign, p, |f|);
  }

  lemma DecimalShape(s: string, sign: string, w: string, f: string, rest: string)
    requires s == sign + w + "." + f + rest
    ensures s[|sign|..] == w + ("." + f + rest)
    ensures s[|sign| + |w|] == '.' && s[|sign| + |w| + 1..] == f + rest
  {
  }

  lemma DigitRunAt(s: string, k: nat, w: string, rest: string)
    requires k <= |s| && s[k..] == w + rest && AllDigits(w) && (rest == [] || !IsDigit(rest[0]))
    ensures DigitRun(s[k..]) == |w|
  {
    DigitRunStops(w, rest);
  }

  lemma NumberSpanAt(s: string, sign: nat, p: nat, q: nat)
    requires SignLength(s) == sign && sign <= p < |s| && DigitRun(s[sign..]) == p - sign
    requires s[p] == '.' && DigitRun(s[p + 1..]) == q > 0
    ensures NumberSpan(s) == p + 1 + q
  {
  }

  /** A three-decimal text followed by a non-digit is matched by the number pattern as a whole. */
  lemma Fixed3Span(x: real, rest: string)
    requires rest == [] || !IsDigit(rest[0])
    ensures NumberSpan(Fixed3(x) + rest) == |Fixed3(x)|
  {
    var a := Magnitude(Thousandths(x));
    NumberSpanDecimal(Thousandths(x) < 0, NatText(a / 1000), Pad3(a % 1000), rest);
  }
}
