/**
 * What MotorControlWidget::handleSerialRead does with one received, trimmed
 * line: the colour class it logs the line under, and the position it reads
 * with the regular expression X:(n)\s+Y:(n)\s+Z:(n), where n is [-+]?\d*\.?\d+.
 */
module PositionLine {
  import opened Wrappers
  import opened Text
  import opened Numbers
  import opened GCode

  /** The colour a received line is logged in: green, red, grey or blue. */
  datatype LineKind = OkLine | ErrorLine | CommentLine | OtherLine

  /** The first test that holds decides: ok, then error, then comment. */
  function Classify(line: string): LineKind {
    if StartsWith(line, "ok") || Contains(line, "OK") then OkLine
    else if StartsWith(line, "error") || StartsWith(line, "Error")
      || Contains(line, "error") || Contains(line, "Error") then ErrorLine
    else if StartsWith(line, "//") || StartsWith(line, ";") then CommentLine
    else OtherLine
  }

  /**
   * The error test needs only its two contains tests: a line that starts with
   * "error" or "Error" contains it.
   */
  lemma ClassifyError(line: string)
    ensures Classify(line) == ErrorLine
      <==> !(StartsWith(line, "ok") || Contains(line, "OK")) && (Contains(line, "error") || Contains(line, "Error"))
  {
    if StartsWith(line, "error") {
      StartsWithContains(line, "error");
    }
    if StartsWith(line, "Error") {
      StartsWithContains(line, "Error");
    }
  }

  /** The length of the whitespace run s starts with. */
  function SpaceRun(s: string): (n: nat)
    ensures n <= |s| && AllSpace(s[..n]) && (n < |s| ==> !IsSpace(s[n]))
  {
    if s != [] && IsSpace(s[0]) then
      var m := SpaceRun(s[1..]);
      assert s[..m + 1] == [s[0]] + s[1..][..m];
      1 + m
    else 0
  }

  /** The three number texts the pattern captures. */
  datatype Captures = Captures(x: string, y: string, z: string)

  /** key, ':' and a number at the start of s: the number text and what follows it. */
  function KeyNumber(s: string, key: char): (r: Option<(string, string)>)
    ensures r.Some? ==> s == [key, ':'] + r.value.0 + r.value.1 && IsNumeric(r.value.0)
    ensures r.Some? ==> StartsWith(s, [key, ':']) && IsSuffix(r.value.1, s)
  {
    if |s| >= 2 && s[0] == key && s[1] == ':' && NumberSpan(s[2..]) > 0 then
      var n := NumberSpan(s[2..]);
      assert s == [key, ':'] + s[2..][..n] + s[2..][n..];
      NumberSpanParses(s[2..]);
      assert s[..2] == [key, ':'];
      assert s[|s| - |s[2..][n..]|..] == s[2..][n..];
      Some((s[2..][..n], s[2..][n..]))
    else None
  }

  /** \s+ at the start of s: what follows the whitespace run. */
  function Gap(s: string): (r: Option<string>)
    ensures r.Some? ==> |r.value| < |s| && s[|s| - |r.value|..] == r.value
  {
    var n := SpaceRun(s);
    if n > 0 then Some(s[n..]) else None
  }

  /**
   * The pattern anchored at the start of s. Each number is taken as long as
   * it reaches: a shorter choice would end before a digit or a point, where
   * \s+ cannot follow, so backtracking finds no other match.
   */
  function MatchAt(s: string): Option<Captures> {
    var x := KeyNumber(s, 'X');
    if x.None? then None else
    var g1 := Gap(x.value.1);
    if g1.None? then None else
    var y := KeyNumber(g1.value, 'Y');
    if y.None? then None else
    var g2 := Gap(y.value.1);
    if g2.None? then None else
    var z := KeyNumber(g2.value, 'Z');
    if z.None? then None else
    Some(Captures(x.value.0, y.value.0, z.value.0))
  }

  /** QRegularExpression::match: the match at the leftmost position where there is one. */
  function Search(s: string): Option<Captures>
    decreases |s|
  {
    var m := MatchAt(s);
    if m.Some? then m else if s == [] then None else Search(s[1..])
  }

  /** The position a line reports, when handleSerialRead takes one from it. */
  function PositionUpdate(line: string): Option<MotorPosition> {
    if Contains(line, "X:") && Contains(line, "Y:") && Contains(line, "Z:") then
      var m := Search(line);
      if m.Some? then
        Some(MotorPosition(ToDouble(m.value.x).GetOr(0.0), ToDouble(m.value.y).GetOr(0.0), ToDouble(m.value.z).GetOr(0.0)))
      else None
    else None
  }

  /** A line's text from index |s| - |t| onward is t. */
  predicate IsSuffix(t: string, s: string) {
    |t| <= |s| && s[|s| - |t|..] == t
  }

  lemma SuffixOfConcat(front: string, t: string)
    ensures IsSuffix(t, front + t)
  {
  }

  lemma SuffixTrans(a: string, b: string, c: string)
    requires IsSuffix(a, b) && IsSuffix(b, c)
    ensures IsSuffix(a, c)
  {
    assert c[|c| - |a|..] == c[|c| - |b|..][|b| - |a|..];
  }

  lemma {:induction false} SuffixContains(t: string, s: string, p: string)
    requires IsSuffix(t, s) && Contains(t, p)
    ensures Contains(s, p)
  {
    var i := ContainsWitness(t, p);
    assert s[|s| - |t| + i..|s| - |t| + i + |p|] == t[i..i + |p|];
    ContainsAt(s, p, |s| - |t| + i);
  }

  /** A line the pattern matches at its start carries all three keys. */
  lemma {:induction false} MatchAtKeys(s: string)
    requires MatchAt(s).Some?
    ensures Contains(s, "X:") && Contains(s, "Y:") && Contains(s, "Z:")
  {
    var x := KeyNumber(s, 'X').value;
    var g1 := Gap(x.1).value;
    var y := KeyNumber(g1, 'Y').value;
    var g2 := Gap(y.1).value;
    assert IsSuffix(s, s);
    KeyAt(s, s, 'X');
    SuffixTrans(g1, x.1, s);
    KeyAt(g1, s, 'Y');
    SuffixTrans(g2, y.1, g1);
    SuffixTrans(g2, g1, s);
    KeyAt(g2, s, 'Z');
  }

  lemma KeyAt(t: string, s: string, key: char)
    requires IsSuffix(t, s) && KeyNumber(t, key).Some?
    ensures Contains(s, [key, ':'])
  {
    StartsWithContains(t, [key, ':']);
    SuffixContains(t, s, [key, ':']);
  }

  /** A line the pattern matches anywhere carries all three keys. */
  lemma {:induction false} SearchKeys(s: string)
    requires Search(s).Some?
    ensures Contains(s, "X:") && Contains(s, "Y:") && Contains(s, "Z:")
    decreases |s|
  {
    if MatchAt(s).Some? {
      MatchAtKeys(s);
    } else {
      SearchKeys(s[1..]);
    }
  }

  /** Search returns the match at the leftmost index where the pattern matches. */
  lemma {:induction false} SearchLeftmost(s: string, i: nat)
    requires i <= |s| && MatchAt(s[i..]).Some?
    requires forall j :: 0 <= j < i ==> MatchAt(s[j..]).None?
    ensures Search(s) == MatchAt(s[i..])
    decreases i
  {
    if i > 0 {
      assert MatchAt(s[0..]).None? && s[0..] == s;
      forall j | 0 <= j < i - 1
        ensures MatchAt(s[1..][j..]).None?
      {
        assert s[1..][j..] == s[j + 1..];
      }
      assert s[1..][i - 1..] == s[i..];
      SearchLeftmost(s[1..], i - 1);
    } else {
      assert s[0..] == s;
    }
  }

  /** Search finds nothing only when the pattern matches at no index. */
  lemma {:induction false} SearchNone(s: string, i: nat)
    requires Search(s).None? && i <= |s|
    ensures MatchAt(s[i..]).None?
    decreases i
  {
    if i > 0 {
      assert s[1..][i - 1..] == s[i..];
      SearchNone(s[1..], i - 1);
    } else {
      assert s[0..] == s;
    }
  }

  /**
   * The pre-test on "X:", "Y:" and "Z:" never rejects a line the pattern
   * matches, and every captured text is a number, so the 0.0 fallback of
   * toDouble is never taken.
   */
  lemma PositionUpdateIsMatch(line: string)
    ensures PositionUpdate(line).Some? <==> Search(line).Some?
    ensures Search(line).Some? ==>
      var c := Search(line).value;
      IsNumeric(c.x) && IsNumeric(c.y) && IsNumeric(c.z)
      && PositionUpdate(line) == Some(MotorPosition(ToDouble(c.x).value, ToDouble(c.y).value, ToDouble(c.z).value))
  {
    if Search(line).Some? {
      SearchKeys(line);
      SearchNumeric(line);
    }
  }

  lemma {:induction false} SearchNumeric(s: string)
    requires Search(s).Some?
    ensures var c := Search(s).value; IsNumeric(c.x) && IsNumeric(c.y) && IsNumeric(c.z)
    decreases |s|
  {
    if MatchAt(s).None? {
      SearchNumeric(s[1..]);
    }
  }

  /** The position report a controller writes, with three-decimal numbers. */
  function ReportText(x: real, y: real, z: real): string {
    ['X', ':'] + Fixed3(x) + [' ', 'Y', ':'] + Fixed3(y) + [' ', 'Z', ':'] + Fixed3(z)
  }

  lemma KeyNumberReads(key: char, v: string, tail: string)
    requires |v| > 0 && NumberSpan(v + tail) == |v|
    ensures KeyNumber([key, ':'] + (v + tail), key) == Some((v, tail))
  {
    var s := [key, ':'] + (v + tail);
    assert s[2..] == v + tail;
    assert s[2..][..|v|] == v && s[2..][|v|..] == tail;
  }

  lemma GapReads(t: string)
    requires t != [] && !IsSpace(t[0])
    ensures Gap([' '] + t) == Some(t)
  {
    assert ([' '] + t)[1..] == t;
  }

  /** Three key:number fields separated by single spaces match with those numbers. */
  lemma {:induction false} MatchFields(a: string, b: string, c: string, rest: string, line: string, g1: string, g2: string)
    requires a != [] && b != [] && c != []
    requires g2 == [' ', 'Z', ':'] + (c + rest) && g1 == [' ', 'Y', ':'] + (b + g2)
    requires NumberSpan(a + g1) == |a| && NumberSpan(b + g2) == |b| && NumberSpan(c + rest) == |c|
    requires line == ['X', ':'] + (a + g1)
    ensures MatchAt(line) == Some(Captures(a, b, c))
  {
    var u3 := ['Z', ':'] + (c + rest);
    var u2 := ['Y', ':'] + (b + g2);
    SpaceThenKey('Z', c + rest);
    SpaceThenKey('Y', b + g2);
    KeyNumberReads('X', a, g1);
    GapReads(u2);
    KeyNumberReads('Y', b, g2);
    GapReads(u3);
    KeyNumberReads('Z', c, rest);
    MatchSteps(line, a, g1, u2, b, g2, u3, c, rest);
  }

  lemma MatchSteps(line: string, a: string, g1: string, u2: string, b: string, g2: string, u3: string, c: string, rest: string)
    requires KeyNumber(line, 'X') == Some((a, g1)) && Gap(g1) == Some(u2)
    requires KeyNumber(u2, 'Y') == Some((b, g2)) && Gap(g2) == Some(u3)
    requires KeyNumber(u3, 'Z') == Some((c, rest))
    ensures MatchAt(line) == Some(Captures(a, b, c))
  {
  }

  lemma SpaceThenKey(key: char, t: string)
    ensures [' ', key, ':'] + t == [' '] + ([key, ':'] + t)
  {
  }

  lemma ReportRegroup(a: string, b: string, c: string, rest: string)
    ensures ['X', ':'] + a + [' ', 'Y', ':'] + b + [' ', 'Z', ':'] + c + rest
      == ['X', ':'] + (a + ([' ', 'Y', ':'] + (b + ([' ', 'Z', ':'] + (c + rest)))))
  {
  }

  /**
   * A line that starts with a position report, followed by nothing or by more
   * text after whitespace, reads as the reported position rounded to the
   * thousandths the report carries. Marlin's M114 line
   * "X:.. Y:.. Z:.. E:.. Count X:.. Y:.. Z:.." is such a line: the leftmost
   * match is the position, never the step counts after "Count".
   */
  lemma ReadsReport(x: real, y: real, z: real, rest: string)
    requires rest == [] || IsSpace(rest[0])
    ensures PositionUpdate(ReportText(x, y, z) + rest) == Some(MotorPosition(Round3(x), Round3(y), Round3(z)))
  {
    var a, b, c := Fixed3(x), Fixed3(y), Fixed3(z);
    var line := ReportText(x, y, z) + rest;
    var g2 := [' ', 'Z', ':'] + (c + rest);
    var g1 := [' ', 'Y', ':'] + (b + g2);
    ReportRegroup(a, b, c, rest);
    Fixed3Span(x, g1);
    Fixed3Span(y, g2);
    Fixed3Span(z, rest);
    MatchFields(a, b, c, rest, line, g1, g2);
    assert Search(line) == Some(Captures(a, b, c));
    PositionUpdateIsMatch(line);
    ToDoubleFixed3(x);
    ToDoubleFixed3(y);
    ToDoubleFixed3(z);
  }
}
