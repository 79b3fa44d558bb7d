/**
 * Inbound line reassembly. Both widgets append every chunk the serial port
 * delivers to one byte buffer and then cut complete lines off its front
 * until no '\n' is left. SplitLines is what such a pass extracts from a
 * buffer, and JoinLines puts the lines back together.
 */
module Reassembly {
  import opened Text

  /**
   * The '\n'-terminated lines of s in order, each without its '\n', and the
   * unterminated residue after the last '\n'.
   */
  function SplitLines(s: string): (seq<string>, string)
    decreases |s|
  {
    var i := IndexOf(s, '\n');
    if i < 0 then ([], s)
    else
      var rest := SplitLines(s[i + 1..]);
      ([s[..i]] + rest.0, rest.1)
  }

  /** No extracted line and no residue holds a '\n'. */
  lemma {:induction false} SplitLinesNoNewline(s: string)
    ensures NoNewline(SplitLines(s).0) && '\n' !in SplitLines(s).1
    decreases |s|
  {
    var i := IndexOf(s, '\n');
    if i >= 0 {
      var line, tail := s[..i], s[i + 1..];
      var rest := SplitLines(tail);
      SplitLinesNoNewline(tail);
      assert SplitLines(s) == ([line] + rest.0, rest.1);
      NoNewlineCons(line, rest.0);
    }
  }

  lemma NoNewlineCons(line: string, lines: seq<string>)
    requires '\n' !in line && NoNewline(lines)
    ensures NoNewline([line] + lines)
  {
    assert forall i :: 1 <= i < |lines| + 1 ==> ([line] + lines)[i] == lines[i - 1];
  }

  /** Each line followed by its '\n', in order. */
  function JoinLines(lines: seq<string>): string {
    if lines == [] then [] else JoinLines(lines[..|lines| - 1]) + lines[|lines| - 1] + "\n"
  }

  predicate NoNewline(lines: seq<string>) {
    forall i :: 0 <= i < |lines| ==> '\n' !in lines[i]
  }

  lemma {:induction false} JoinLinesCons(line: string, lines: seq<string>)
    ensures JoinLines([line] + lines) == line + "\n" + JoinLines(lines)
    decreases |lines|
  {
    if lines != [] {
      var front := lines[..|lines| - 1];
      assert ([line] + lines)[..|lines|] == [line] + front;
      JoinLinesCons(line, front);
    } else {
      assert ([line] + lines)[..0] == [];
    }
  }

  lemma {:induction false} JoinLinesAppend(a: seq<string>, b: seq<string>)
    ensures JoinLines(a + b) == JoinLines(a) + JoinLines(b)
    decreases |b|
  {
    if b == [] {
      assert a + b == a;
    } else {
      var front := b[..|b| - 1];
      assert (a + b)[..|a + b| - 1] == a + front;
      JoinLinesAppend(a, front);
    }
  }

  /** Nothing is lost: the lines, re-terminated, followed by the residue, give back s. */
  lemma {:induction false} SplitLinesRejoin(s: string)
    ensures JoinLines(SplitLines(s).0) + SplitLines(s).1 == s
    decreases |s|
  {
    var i := IndexOf(s, '\n');
    if i >= 0 {
      var line, tail := s[..i], s[i + 1..];
      var rest := SplitLines(tail);
      assert SplitLines(s) == ([line] + rest.0, rest.1);
      SplitLinesRejoin(tail);
      JoinLinesCons(line, rest.0);
      CutAround(s, i);
      Regroup(s, line + "\n", tail, JoinLines(rest.0), rest.1, JoinLines([line] + rest.0));
    }
  }

  /**
   * The split is the only one: lines without '\n' followed by a residue without
   * '\n' are split back into exactly those lines and that residue.
   */
  lemma {:induction false} SplitJoinedLines(lines: seq<string>, rest: string)
    requires NoNewline(lines) && '\n' !in rest
    ensures SplitLines(JoinLines(lines) + rest) == (lines, rest)
    decreases |lines|
  {
    if lines == [] {
      assert JoinLines(lines) + rest == rest;
    } else {
      var tail := lines[1..];
      assert lines == [lines[0]] + tail;
      JoinLinesCons(lines[0], tail);
      var s := JoinLines(lines) + rest;
      assert s == lines[0] + ['\n'] + (JoinLines(tail) + rest);
      IndexOfAfter(lines[0], '\n', JoinLines(tail) + rest);
      assert s[..|lines[0]|] == lines[0];
      assert s[|lines[0]| + 1..] == JoinLines(tail) + rest;
      SplitJoinedLines(tail, rest);
    }
  }

  /**
   * Fragmentation does not matter: splitting s + t in one pass gives the lines of s,
   * then the lines completed by t after s's residue, and the residue of that.
   */
  lemma ChunkBoundaryInvisible(s: string, t: string, first: (seq<string>, string), second: (seq<string>, string))
    requires first == SplitLines(s) && second == SplitLines(first.1 + t)
    ensures SplitLines(s + t) == (first.0 + second.0, second.1)
  {
    ChunkText(s, t, first, second);
    ChunkLinesClean(s, t, first, second);
    SplitJoinedLines(first.0 + second.0, second.1);
  }

  /** The two passes together account for all of s + t. */
  lemma ChunkText(s: string, t: string, first: (seq<string>, string), second: (seq<string>, string))
    requires first == SplitLines(s) && second == SplitLines(first.1 + t)
    ensures s + t == JoinLines(first.0 + second.0) + second.1
  {
    SplitLinesRejoin(s);
    SplitLinesRejoin(first.1 + t);
    RejoinTwo(s, t, first.0, first.1, second.0, second.1);
  }

  lemma RejoinTwo(s: string, t: string, lines1: seq<string>, rest1: string, lines2: seq<string>, rest2: string)
    requires JoinLines(lines1) + rest1 == s && JoinLines(lines2) + rest2 == rest1 + t
    ensures s + t == JoinLines(lines1 + lines2) + rest2
  {
    JoinLinesAppend(lines1, lines2);
    Regroup(s + t, JoinLines(lines1), rest1 + t, JoinLines(lines2), rest2, JoinLines(lines1 + lines2));
  }

  lemma ChunkLinesClean(s: string, t: string, first: (seq<string>, string), second: (seq<string>, string))
    requires first == SplitLines(s) && second == SplitLines(first.1 + t)
    ensures NoNewline(first.0 + second.0) && '\n' !in second.1
  {
    SplitLinesNoNewline(s);
    SplitLinesNoNewline(first.1 + t);
    NoNewlineAppend(first.0, second.0);
  }

  lemma NoNewlineSnoc(lines: seq<string>, l: string)
    requires NoNewline(lines) && '\n' !in l
    ensures NoNewline(lines + [l])
  {
  }

  lemma NoNewlineAppend(a: seq<string>, b: seq<string>)
    requires NoNewline(a) && NoNewline(b)
    ensures NoNewline(a + b)
  {
  }

  /** One step of the extraction loop: cutting the first line off the buffer keeps the text intact. */
  lemma CutLine(whole: string, done: seq<string>, buffer: string, i: nat)
    requires JoinLines(done) + buffer == whole && i < |buffer| && buffer[i] == '\n'
    ensures JoinLines(done + [buffer[..i]]) + buffer[i + 1..] == whole
  {
    assert (done + [buffer[..i]])[..|done|] == done;
    CutAround(buffer, i);
  }

  /** A text is the part before a '\n', the '\n', and the part after it. */
  lemma CutAround(s: string, i: nat)
    requires i < |s| && s[i] == '\n'
    ensures s == s[..i] + "\n" + s[i + 1..]
  {
    assert s[..i] + "\n" + s[i + 1..] == s[..i] + s[i..];
  }

  lemma Regroup(whole: string, a: string, middle: string, b: string, rest: string, ab: string)
    requires whole == a + middle && middle == b + rest && ab == a + b
    ensures whole == ab + rest
  {
  }

  lemma SplitLinesExample()
    ensures SplitLines("ok\n\nX:1") == (["ok", ""], "X:1")
  {
    assert JoinLines(["ok", ""]) == "ok\n\n" by {
      assert ["ok", ""][..1] == ["ok"];
      assert ["ok"][..0] == [];
    }
    assert "ok\n\nX:1" == JoinLines(["ok", ""]) + "X:1";
    SplitJoinedLines(["ok", ""], "X:1");
  }
}
