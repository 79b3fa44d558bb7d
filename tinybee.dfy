/**
 * The TinyBee protocol layer: how a command becomes wire text, when a reply
 * is complete, how a "key:value" reply is tokenised, how a position is read
 * out of it, and the controller object that owns the port flags and the
 * reply buffer.
 */
module TinyBee {
  import opened Wrappers
  import opened Text
  import opened Numbers
  import opened GCode

  // ---------------------------------------------------------------------
  // Encoding a command (buildCommandString)
  // ---------------------------------------------------------------------

  /** The axis words a Home command with some non-zero coordinate lists. */
  function HomeAxes(x: real, y: real, z: real): string {
    (if x != 0.0 then " X" else "") + (if y != 0.0 then " Y" else "") + (if z != 0.0 then " Z" else "")
  }

  /** The wire text of a Move command. */
  function MoveText(x: real, y: real, z: real, feedrate: int): string {
    "G1 X" + Fixed3(x) + " Y" + Fixed3(y) + " Z" + Fixed3(z) + " F" + IntText(feedrate) + "\n"
  }

  /**
   * buildCommandString: the text written to the port for a command. It is
   * never empty and always ends the line, so the empty-string guard of
   * sendCommand can never fire.
   */
  function BuildCommandString(cmd: GCodeCommand): (r: string)
    ensures r != [] && r[|r| - 1] == '\n'
  {
    match cmd.kind
    case FirmwareInfo => "M115\n"
    case Home =>
      if cmd.x == 0.0 && cmd.y == 0.0 && cmd.z == 0.0 then "G28\n"
      else "G28" + HomeAxes(cmd.x, cmd.y, cmd.z) + "\n"
    case Move => MoveText(cmd.x, cmd.y, cmd.z, cmd.feedrate)
    case EmergencyStop => "M112\n"
    case Custom => Trim(cmd.customCommand) + "\n"
  }

  /** A Home command names exactly its non-zero axes, and is "G28\n" exactly when it names none. */
  lemma HomeNamesNonZeroAxes(cmd: GCodeCommand)
    requires cmd.kind == Home
    ensures var r := BuildCommandString(cmd);
      && StartsWith(r, "G28")
      && ('X' in r <==> cmd.x != 0.0)
      && ('Y' in r <==> cmd.y != 0.0)
      && ('Z' in r <==> cmd.z != 0.0)
      && (r == "G28\n" <==> cmd.x == 0.0 && cmd.y == 0.0 && cmd.z == 0.0)
  {
    var r := BuildCommandString(cmd);
    if !(cmd.x == 0.0 && cmd.y == 0.0 && cmd.z == 0.0) {
      var axes := HomeAxes(cmd.x, cmd.y, cmd.z);
      assert r == "G28" + axes + "\n";
      assert axes != [];
      assert r[..3] == "G28";
      assert 'X' in r <==> 'X' in axes;
      assert 'Y' in r <==> 'Y' in axes;
      assert 'Z' in r <==> 'Z' in axes;
      assert |r| > 4;
    }
  }

  /** A default-coordinate Home command homes every axis. */
  lemma DefaultHomeIsHomeAll()
    ensures BuildCommandString(DefaultCommand(Home)) == "G28\n"
  {
  }

  /**
   * The line sent for a Custom command, without its newline, is the
   * command's own trimmed text; a blank command is sent as a lone "\n".
   */
  lemma {:induction false} CustomCarriesTrimmedText(cmd: GCodeCommand)
    requires cmd.kind == Custom
    ensures Trim(BuildCommandString(cmd)) == Trim(cmd.customCommand)
    ensures BuildCommandString(cmd) == "\n" <==> AllSpace(cmd.customCommand)
  {
    var t := Trim(cmd.customCommand);
    TrimIgnoresTrailingSpace(t, '\n');
    TrimIdempotent(cmd.customCommand);
    TrimEmptyIffBlank(cmd.customCommand);
    assert BuildCommandString(cmd) == t + "\n";
    if BuildCommandString(cmd) == "\n" {
      assert |t| == 0;
    }
  }

  // ---------------------------------------------------------------------
  // Reading a Move line back
  // ---------------------------------------------------------------------

  /** What a Move line asks for. */
  datatype MoveRequest = MoveRequest(x: real, y: real, z: real, feedrate: real)

  /** The number after a one-letter axis or feed word, or None. */
  function Field(word: string, letter: char): Option<real> {
    if word != [] && word[0] == letter then ToDouble(word[1..]) else None
  }

  /** Reads a "G1 X.. Y.. Z.. F.." line, as a G-code interpreter would split it. */
  function DecodeMove(line: string): Option<MoveRequest> {
    var ws := Words(Trim(line), ' ');
    if |ws| == 5 && ws[0] == "G1" then
      match (Field(ws[1], 'X'), Field(ws[2], 'Y'), Field(ws[3], 'Z'), Field(ws[4], 'F'))
      case (Some(x), Some(y), Some(z), Some(f)) => Some(MoveRequest(x, y, z, f))
      case _ => None
    else None
  }

  /** Characters a formatted number is made of. */
  predicate NumberChar(c: char) {
    IsDigit(c) || c == '-' || c == '.'
  }

  predicate NumberText(s: string) {
    s != [] && IsDigit(s[|s| - 1]) && forall i :: 0 <= i < |s| ==> NumberChar(s[i])
  }

  lemma {:induction false} Fixed3IsNumberText(x: real)
    ensures NumberText(Fixed3(x))
  {
    var n := Thousandths(x);
    var a := Magnitude(n);
    var w, f := NatText(a / 1000), Pad3(a % 1000);
    var s := SignText(n < 0) + w + "." + f;
    assert Fixed3(x) == s;
    forall i | 0 <= i < |s| ensures NumberChar(s[i]) {
      if i < |SignText(n < 0)| {
      } else if i < |SignText(n < 0)| + |w| {
        assert s[i] == w[i - |SignText(n < 0)|];
      } else if i == |SignText(n < 0)| + |w| {
      } else {
        assert s[i] == f[i - |SignText(n < 0)| - |w| - 1];
      }
    }
    assert s[|s| - 1] == f[2];
  }

  lemma {:induction false} IntTextIsNumberText(i: int)
    ensures NumberText(IntText(i))
  {
    if i < 0 {
      var w := NatText(-i);
      var s := "-" + w;
      assert forall k :: 1 <= k < |s| ==> s[k] == w[k - 1];
      assert s[|s| - 1] == w[|w| - 1];
    }
  }

  /** A word made of a letter and a formatted number has no space in it and reads back. */
  lemma {:induction false} FieldWord(letter: char, v: string)
    requires NumberText(v) && letter != ' '
    ensures var w := [letter] + v; w != [] && ' ' !in w && Field(w, letter) == ToDouble(v)
  {
    var w := [letter] + v;
    assert w[1..] == v;
    forall i | 0 <= i < |w| ensures w[i] != ' ' {
      if i > 0 {
        assert w[i] == v[i - 1];
      }
    }
  }

  /** Words joined by single spaces, as a command line is written. */
  function Unwords(ws: seq<string>): string {
    if ws == [] then [] else if |ws| == 1 then ws[0] else ws[0] + [' '] + Unwords(ws[1..])
  }

  /** Space-free words joined by single spaces split back into those words. */
  lemma {:induction false} WordsUnwords(ws: seq<string>)
    requires forall i :: 0 <= i < |ws| ==> ws[i] != [] && ' ' !in ws[i]
    ensures Words(Unwords(ws), ' ') == ws
  {
    if |ws| == 1 {
      WordsSingle(ws[0], ' ');
    } else if |ws| > 1 {
      WordsUnwords(ws[1..]);
      WordsCons(ws[0], ' ', Unwords(ws[1..]));
      assert ws == [ws[0]] + ws[1..];
    }
  }

  lemma UnwordsFive(a: string, b: string, c: string, d: string, e: string)
    ensures Unwords([a, b, c, d, e]) == a + [' '] + (b + [' '] + (c + [' '] + (d + [' '] + e)))
  {
    assert [d, e][1..] == [e];
    assert Unwords([d, e]) == d + [' '] + e;
    assert [c, d, e][1..] == [d, e];
    assert Unwords([c, d, e]) == c + [' '] + (d + [' '] + e);
    assert [b, c, d, e][1..] == [c, d, e];
    assert Unwords([b, c, d, e]) == b + [' '] + (c + [' '] + (d + [' '] + e));
    assert [a, b, c, d, e][1..] == [b, c, d, e];
  }

  /** The words of a Move line made of four space-free words. */
  lemma {:induction false} MoveLineWords(line: string, g: string, wx: string, wy: string, wz: string, wf: string)
    requires g == "G1"
    requires wx != [] && wy != [] && wz != [] && wf != []
    requires ' ' !in wx && ' ' !in wy && ' ' !in wz && ' ' !in wf
    requires IsDigit(wf[|wf| - 1])
    requires line == g + [' '] + (wx + [' '] + (wy + [' '] + (wz + [' '] + wf))) + "\n"
    ensures Words(Trim(line), ' ') == [g, wx, wy, wz, wf]
  {
    var ws := [g, wx, wy, wz, wf];
    UnwordsFive(g, wx, wy, wz, wf);
    TrimLine(line, Unwords(ws));
    assert forall i :: 0 <= i < |ws| ==> ws[i] != [] && ' ' !in ws[i] by {
      assert ' ' !in g;
    }
    WordsUnwords(ws);
  }

  /** A line whose text neither starts nor ends with whitespace trims to that text. */
  lemma TrimLine(line: string, core: string)
    requires line == core + "\n" && core != [] && !IsSpace(core[0]) && !IsSpace(core[|core| - 1])
    ensures Trim(line) == core
  {
    assert line == [] + core + "\n";
    TrimCharacterized(line, [], core, "\n");
  }

  /** The Move line regrouped into its words. */
  lemma MoveTextWords(a: string, b: string, c: string, d: string)
    ensures "G1 X" + a + " Y" + b + " Z" + c + " F" + d + "\n"
      == "G1" + [' '] + ((['X'] + a) + [' '] + ((['Y'] + b) + [' '] + ((['Z'] + c) + [' '] + (['F'] + d)))) + "\n"
  {
    assert "G1 X" == "G1" + [' '] + ['X'];
    assert " Y" == [' '] + ['Y'];
    assert " Z" == [' '] + ['Z'];
    assert " F" == [' '] + ['F'];
  }

  /**
   * A Move line reads back as the coordinates rounded to the three decimals
   * it carries, and the feedrate exactly.
   */
  lemma {:induction false} DecodeMoveText(x: real, y: real, z: real, feedrate: int)
    ensures DecodeMove(MoveText(x, y, z, feedrate))
      == Some(MoveRequest(Round3(x), Round3(y), Round3(z), feedrate as real))
  {
    var a, b, c, d := Fixed3(x), Fixed3(y), Fixed3(z), IntText(feedrate);
    Fixed3IsNumberText(x);
    Fixed3IsNumberText(y);
    Fixed3IsNumberText(z);
    IntTextIsNumberText(feedrate);
    var wx, wy, wz, wf := ['X'] + a, ['Y'] + b, ['Z'] + c, ['F'] + d;
    FieldWord('X', a);
    FieldWord('Y', b);
    FieldWord('Z', c);
    FieldWord('F', d);
    var line := MoveText(x, y, z, feedrate);
    var g := "G1";
    MoveTextWords(a, b, c, d);
    assert wf[|wf| - 1] == d[|d| - 1];
    MoveLineWords(line, g, wx, wy, wz, wf);
    ToDoubleFixed3(x);
    ToDoubleFixed3(y);
    ToDoubleFixed3(z);
    ToDoubleIntText(feedrate);
  }

  // ---------------------------------------------------------------------
  // Waiting for a reply (waitForResponse)
  // ---------------------------------------------------------------------

  /** The texts of several chunks, one after another. */
  function Concat(chunks: seq<string>): string {
    if chunks == [] then [] else chunks[0] + Concat(chunks[1..])
  }

  /** The reply buffer after the first n chunks have arrived on top of buf. */
  function Received(buf: string, chunks: seq<string>, n: nat): string
    requires n <= |chunks|
  {
    buf + Concat(chunks[..n])
  }

  /** The completeness rule: the buffer holds "\nok" or ends with a newline. */
  predicate ResponseComplete(buf: string) {
    Contains(buf, "\nok") || (buf != [] && buf[|buf| - 1] == '\n')
  }

  /** How a wait ends: a complete reply, or the deadline with what had arrived so far. */
  datatype WaitOutcome = Complete(response: string) | TimedOut(pending: string)

  /**
   * The outcome of waiting with buf already buffered while chunks arrive
   * before the deadline, one per successful waitForReadyRead.
   */
  function Await(buf: string, chunks: seq<string>): (r: WaitOutcome)
    ensures r.Complete? ==> ResponseComplete(r.response) && StartsWith(r.response, buf)
    decreases |chunks|
  {
    if chunks == [] then TimedOut(buf)
    else if ResponseComplete(buf + chunks[0]) then Complete(buf + chunks[0])
    else
      var r := Await(buf + chunks[0], chunks[1..]);
      assert r.Complete? ==> (buf + chunks[0])[..|buf|] == buf;
      r
  }

  lemma ReceivedNone(buf: string, chunks: seq<string>)
    ensures Received(buf, chunks, 0) == buf
  {
    assert chunks[..0] == [];
  }

  lemma ReceivedStep(buf: string, chunks: seq<string>, n: nat)
    requires 0 < |chunks| && n < |chunks|
    ensures Received(buf, chunks, n + 1) == Received(buf + chunks[0], chunks[1..], n)
  {
    assert chunks[..n + 1][1..] == chunks[1..][..n];
  }

  /**
   * The wait completes at the first chunk after which the buffer is
   * complete, and returns everything received up to and including it.
   */
  lemma {:induction false} AwaitFirstCompletion(buf: string, chunks: seq<string>, k: nat)
    requires k < |chunks| && ResponseComplete(Received(buf, chunks, k + 1))
    requires forall n :: 0 < n <= k ==> !ResponseComplete(Received(buf, chunks, n))
    ensures Await(buf, chunks) == Complete(Received(buf, chunks, k + 1))
    decreases k
  {
    var next := buf + chunks[0];
    ReceivedStep(buf, chunks, k);
    if k == 0 {
      ReceivedNone(next, chunks[1..]);
    } else {
      ReceivedStep(buf, chunks, 0);
      ReceivedNone(next, chunks[1..]);
      assert !ResponseComplete(next);
      forall n | 0 < n <= k - 1
        ensures !ResponseComplete(Received(next, chunks[1..], n))
      {
        ReceivedStep(buf, chunks, n);
      }
      AwaitFirstCompletion(next, chunks[1..], k - 1);
    }
  }

  /** With no chunk completing the buffer, the wait times out holding everything received. */
  lemma {:induction false} AwaitTimesOut(buf: string, chunks: seq<string>)
    requires forall n :: 0 < n <= |chunks| ==> !ResponseComplete(Received(buf, chunks, n))
    ensures Await(buf, chunks) == TimedOut(Received(buf, chunks, |chunks|))
    decreases |chunks|
  {
    if chunks == [] {
      ReceivedNone(buf, chunks);
    } else {
      var next := buf + chunks[0];
      ReceivedStep(buf, chunks, 0);
      ReceivedNone(next, chunks[1..]);
      assert !ResponseComplete(next);
      forall n | 0 < n <= |chunks| - 1
        ensures !ResponseComplete(Received(next, chunks[1..], n))
      {
        ReceivedStep(buf, chunks, n);
      }
      AwaitTimesOut(next, chunks[1..]);
      ReceivedStep(buf, chunks, |chunks| - 1);
    }
  }

  /** A reply line followed by "ok" in a later chunk is cut short at the first newline. */
  lemma PrematureCompletion()
    ensures Await([], ["X:1.00 Y:2.00 Z:3.00\n", "ok\n"]) == Complete("X:1.00 Y:2.00 Z:3.00\n")
  {
    assert ResponseComplete([] + "X:1.00 Y:2.00 Z:3.00\n");
  }

  /** "ok" without a newline is not yet complete; "\nok" anywhere is. */
  lemma CompletenessExamples()
    ensures !ResponseComplete("ok")
    ensures ResponseComplete("ok\n")
    ensures ResponseComplete("X:1\nok")
  {
    assert !Contains("ok", "\nok") by {
      assert !StartsWith("ok", "\nok");
      assert !StartsWith("k", "\nok");
      assert !StartsWith("", "\nok");
      assert "ok"[1..] == "k" && "k"[1..] == "";
    }
    assert "X:1\nok"[3..6] == "\nok";
    ContainsAt("X:1\nok", "\nok", 3);
  }

  // ---------------------------------------------------------------------
  // Tokenising a reply (parseResponse)
  // ---------------------------------------------------------------------

  /**
   * A token's key and value when its first ':' is neither its first nor its
   * last character; None otherwise.
   */
  function KeyValue(token: string): (r: Option<(string, string)>)
    ensures r.Some? <==> 0 < IndexOf(token, ':') < |token| - 1
    ensures r.Some? ==> token == r.value.0 + [':'] + r.value.1 && ':' !in r.value.0
  {
    var i := IndexOf(token, ':');
    if 0 < i < |token| - 1 then
      assert token == token[..i] + [':'] + token[i + 1..];
      Some((token[..i], token[i + 1..]))
    else None
  }

  /** The pairs of the tokens inserted in order into a hash: a later key replaces an earlier one. */
  function Pairs(tokens: seq<string>): map<string, string> {
    if tokens == [] then map[]
    else
      var m := Pairs(tokens[..|tokens| - 1]);
      var kv := KeyValue(tokens[|tokens| - 1]);
      if kv.Some? then m[kv.value.0 := kv.value.1] else m
  }

  /** One more token updates the hash with its pair, if it has one. */
  lemma PairsSnoc(tokens: seq<string>, t: string)
    ensures Pairs(tokens + [t])
      == if KeyValue(t).Some? then Pairs(tokens)[KeyValue(t).value.0 := KeyValue(t).value.1] else Pairs(tokens)
  {
    assert (tokens + [t])[..|tokens|] == tokens;
  }

  /** The key a token contributes, if any. */
  predicate HasKey(token: string, k: string) {
    KeyValue(token).Some? && KeyValue(token).value.0 == k
  }

  /** A key is stored exactly when some token carries it. */
  lemma {:induction false} PairsKeys(tokens: seq<string>, k: string)
    ensures k in Pairs(tokens) <==> exists i :: 0 <= i < |tokens| && HasKey(tokens[i], k)
  {
    if tokens != [] {
      var init, last := tokens[..|tokens| - 1], tokens[|tokens| - 1];
      PairsKeys(init, k);
      assert tokens == init + [last];
      PairsSnoc(init, last);
      assert k in Pairs(tokens) <==> k in Pairs(init) || HasKey(last, k);
      assert forall i :: 0 <= i < |init| ==> tokens[i] == init[i];
    }
  }

  /** The value stored for a key is the one of the last token that carries it. */
  lemma {:induction false} PairsLastWins(tokens: seq<string>, i: nat)
    requires i < |tokens| && KeyValue(tokens[i]).Some?
    requires forall j :: i < j < |tokens| ==> !HasKey(tokens[j], KeyValue(tokens[i]).value.0)
    ensures var kv := KeyValue(tokens[i]).value; kv.0 in Pairs(tokens) && Pairs(tokens)[kv.0] == kv.1
  {
    var k := KeyValue(tokens[i]).value.0;
    var init := tokens[..|tokens| - 1];
    if i < |tokens| - 1 {
      assert tokens[i] == init[i];
      forall j | i < j < |init| ensures !HasKey(init[j], k) {
        assert init[j] == tokens[j];
      }
      PairsLastWins(init, i);
      assert !HasKey(tokens[|tokens| - 1], k);
    }
  }

  /** The tokenizer stores something exactly when some token is a key:value pair. */
  lemma {:induction false} PairsEmpty(tokens: seq<string>)
    ensures Pairs(tokens) == map[] <==> forall i :: 0 <= i < |tokens| ==> KeyValue(tokens[i]).None?
  {
    if Pairs(tokens) != map[] {
      var k :| k in Pairs(tokens);
      PairsKeys(tokens, k);
    } else {
      forall i | 0 <= i < |tokens| ensures KeyValue(tokens[i]).None? {
        if KeyValue(tokens[i]).Some? {
          PairsKeys(tokens, KeyValue(tokens[i]).value.0);
        }
      }
    }
  }

  // ---------------------------------------------------------------------
  // Reading a position (getPosition)
  // ---------------------------------------------------------------------

  /** QHash::value: the stored text, or the empty text for a missing key. */
  function ValueOf(parsed: map<string, string>, key: string): string {
    if key in parsed then parsed[key] else ""
  }

  /** The three coordinates when X, Y and Z all read as numbers. */
  function PositionFrom(parsed: map<string, string>): (r: Option<MotorPosition>)
    ensures r.Some? <==> ToDouble(ValueOf(parsed, "X")).Some? && ToDouble(ValueOf(parsed, "Y")).Some?
                         && ToDouble(ValueOf(parsed, "Z")).Some?
    ensures r.Some? ==> "X" in parsed && "Y" in parsed && "Z" in parsed
  {
    match (ToDouble(ValueOf(parsed, "X")), ToDouble(ValueOf(parsed, "Y")), ToDouble(ValueOf(parsed, "Z")))
    case (Some(x), Some(y), Some(z)) =>
      assert ToDouble("") == None;
      Some(MotorPosition(x, y, z))
    case _ => None
  }

  function Reversed(s: seq<string>): (r: seq<string>)
    ensures |r| == |s| && forall i :: 0 <= i < |s| ==> r[i] == s[|s| - 1 - i]
  {
    if s == [] then [] else [s[|s| - 1]] + Reversed(s[..|s| - 1])
  }

  /** The pairs with the first token of each key kept: later duplicates are ignored. */
  function FirstPairs(tokens: seq<string>): map<string, string> {
    Pairs(Reversed(tokens))
  }

  /**
   * getPosition as written: the position from the hash parseResponse fills,
   * where the last X, Y and Z tokens win.
   */
  function DecodePositionAsWritten(response: string): Option<MotorPosition> {
    var parsed := Pairs(Words(Trim(response), ' '));
    if parsed == map[] then None else PositionFrom(parsed)
  }

  /**
   * getPosition with the first X, Y and Z tokens: the axis position a
   * Marlin M114 report leads with, not the step counts that follow it.
   */
  function DecodePosition(response: string): Option<MotorPosition> {
    var tokens := Words(Trim(response), ' ');
    if Pairs(tokens) == map[] then None else PositionFrom(FirstPairs(tokens))
  }

  /** The value kept for a key is the one of the first token that carries it. */
  lemma {:induction false} FirstPairsFirstWins(tokens: seq<string>, i: nat)
    requires i < |tokens| && KeyValue(tokens[i]).Some?
    requires forall j :: 0 <= j < i ==> !HasKey(tokens[j], KeyValue(tokens[i]).value.0)
    ensures var kv := KeyValue(tokens[i]).value; kv.0 in FirstPairs(tokens) && FirstPairs(tokens)[kv.0] == kv.1
  {
    var r := Reversed(tokens);
    var ri := |tokens| - 1 - i;
    assert r[ri] == tokens[i];
    forall j | ri < j < |r| ensures !HasKey(r[j], KeyValue(tokens[i]).value.0) {
      assert r[j] == tokens[|tokens| - 1 - j];
    }
    PairsLastWins(r, ri);
  }

  // ---------------------------------------------------------------------
  // A Marlin M114 report
  // ---------------------------------------------------------------------

  /** A reply token that splits and trims as itself. */
  predicate Token(w: string) {
    w != [] && ' ' !in w && !IsSpace(w[0]) && !IsSpace(w[|w| - 1])
  }

  lemma {:induction false} UnwordsEnds(ws: seq<string>)
    requires ws != [] && forall i :: 0 <= i < |ws| ==> ws[i] != []
    ensures var s := Unwords(ws); s != [] && s[0] == ws[0][0] && s[|s| - 1] == ws[|ws| - 1][|ws[|ws| - 1]| - 1]
  {
    if |ws| > 1 {
      UnwordsEnds(ws[1..]);
    }
  }

  /** A reply made of tokens joined by spaces is split by parseResponse into those tokens. */
  lemma WordsTrimUnwords(ws: seq<string>)
    requires ws != [] && forall i :: 0 <= i < |ws| ==> Token(ws[i])
    ensures Words(Trim(Unwords(ws)), ' ') == ws
  {
    UnwordsTrimmed(ws);
    WordsUnwords(ws);
  }

  /** Tokens joined by spaces have no outer white space. */
  lemma UnwordsTrimmed(ws: seq<string>)
    requires ws != [] && forall i :: 0 <= i < |ws| ==> Token(ws[i])
    ensures Trim(Unwords(ws)) == Unwords(ws)
  {
    UnwordsEnds(ws);
    assert Token(ws[0]) && Token(ws[|ws| - 1]);
    TrimNumber(Unwords(ws));
  }

  /** The token "key:value" for a one-letter key. */
  function KeyToken(key: char, value: string): string {
    [key, ':'] + value
  }

  lemma KeyTokenPair(key: char, value: string)
    requires key != ':' && !IsSpace(key) && NumberText(value)
    ensures KeyValue(KeyToken(key, value)) == Some(([key], value))
    ensures Token(KeyToken(key, value))
  {
    var t := KeyToken(key, value);
    assert t == [key] + [':'] + value;
    IndexOfAfter([key], ':', value);
    assert t[..1] == [key] && t[2..] == value;
    assert forall i :: 0 <= i < |value| ==> value[i] != ' ' && value[i] != ':';
    assert t[|t| - 1] == value[|value| - 1];
  }

  /** The three axis tokens "X:x Y:y Z:z". */
  function AxisTokens(x: string, y: string, z: string): seq<string> {
    [KeyToken('X', x), KeyToken('Y', y), KeyToken('Z', z)]
  }

  /** The tokens and pairs of the three axis tokens. */
  lemma AxisTokenFacts(x: string, y: string, z: string)
    requires NumberText(x) && NumberText(y) && NumberText(z)
    ensures var ts := AxisTokens(x, y, z);
      && Token(ts[0]) && Token(ts[1]) && Token(ts[2])
      && KeyValue(ts[0]) == Some(("X", x)) && KeyValue(ts[1]) == Some(("Y", y)) && KeyValue(ts[2]) == Some(("Z", z))
  {
    KeyTokenPair('X', x);
    KeyTokenPair('Y', y);
    KeyTokenPair('Z', z);
  }

  /** A hash holds x, y and z under the three axis keys. */
  predicate HoldsAxes(m: map<string, string>, x: string, y: string, z: string) {
    "X" in m && "Y" in m && "Z" in m && m["X"] == x && m["Y"] == y && m["Z"] == z
  }

  /** Three tokens with distinct keys fill the hash with their three values. */
  lemma ThreePairs(t0: string, t1: string, t2: string, k0: string, k1: string, k2: string, v0: string, v1: string, v2: string)
    requires KeyValue(t0) == Some((k0, v0)) && KeyValue(t1) == Some((k1, v1)) && KeyValue(t2) == Some((k2, v2))
    requires k0 != k1 && k0 != k2 && k1 != k2
    ensures var m := Pairs([t0, t1, t2]); k0 in m && k1 in m && k2 in m && m[k0] == v0 && m[k1] == v1 && m[k2] == v2
  {
    PairsSnoc([], t0);
    assert [] + [t0] == [t0];
    PairsSnoc([t0], t1);
    assert [t0] + [t1] == [t0, t1];
    PairsSnoc([t0, t1], t2);
    assert [t0, t1] + [t2] == [t0, t1, t2];
  }

  /** Three axis tokens fill the hash with their values, whichever of a repeated key is kept. */
  lemma TriplePairs(t0: string, t1: string, t2: string, x: string, y: string, z: string)
    requires KeyValue(t0) == Some(("X", x)) && KeyValue(t1) == Some(("Y", y)) && KeyValue(t2) == Some(("Z", z))
    ensures HoldsAxes(Pairs([t0, t1, t2]), x, y, z) && HoldsAxes(FirstPairs([t0, t1, t2]), x, y, z)
  {
    assert "X"[0] != "Y"[0] && "X"[0] != "Z"[0] && "Y"[0] != "Z"[0];
    ThreePairs(t0, t1, t2, "X", "Y", "Z", x, y, z);
    assert Reversed([t0, t1, t2]) == [t2, t1, t0];
    ThreePairs(t2, t1, t0, "Z", "Y", "X", z, y, x);
  }

  /** Tokens appended later override what earlier tokens stored under the same key. */
  lemma {:induction false} PairsAppend(a: seq<string>, b: seq<string>, k: string)
    requires k in Pairs(b)
    ensures k in Pairs(a + b) && Pairs(a + b)[k] == Pairs(b)[k]
    decreases |b|
  {
    var init := b[..|b| - 1];
    assert (a + b)[..|a + b| - 1] == a + init;
    assert (a + b)[|a + b| - 1] == b[|b| - 1];
    if !HasKey(b[|b| - 1], k) {
      PairsAppend(a, init, k);
    }
  }

  lemma {:induction false} ReversedAppend(a: seq<string>, b: seq<string>)
    ensures Reversed(a + b) == Reversed(b) + Reversed(a)
  {
    var l, r := Reversed(a + b), Reversed(b) + Reversed(a);
    assert |l| == |r|;
    forall i | 0 <= i < |l| ensures l[i] == r[i] {
      if i < |b| {
        assert r[i] == Reversed(b)[i];
      } else {
        assert r[i] == Reversed(a)[i - |b|];
      }
    }
  }

  /** Keeping the first token of each key, earlier tokens override later ones. */
  lemma FirstPairsPrepend(a: seq<string>, b: seq<string>, k: string)
    requires k in FirstPairs(a)
    ensures k in FirstPairs(a + b) && FirstPairs(a + b)[k] == FirstPairs(a)[k]
  {
    ReversedAppend(a, b);
    PairsAppend(Reversed(b), Reversed(a), k);
  }

  /**
   * The tokens of a Marlin M114 report: the axis positions, the extruder,
   * then "Count" and the step counts under the same axis keys.
   */
  function MarlinTokens(x: string, y: string, z: string, e: string, cx: string, cy: string, cz: string): seq<string> {
    AxisTokens(x, y, z) + ([KeyToken('E', e), "Count"] + AxisTokens(cx, cy, cz))
  }

  /** The report's own text. */
  function MarlinReport(x: string, y: string, z: string, e: string, cx: string, cy: string, cz: string): string {
    Unwords(MarlinTokens(x, y, z, e, cx, cy, cz))
  }

  /** parseResponse splits a report into its tokens. */
  lemma MarlinReportTokens(x: string, y: string, z: string, e: string, cx: string, cy: string, cz: string)
    requires NumberText(x) && NumberText(y) && NumberText(z) && NumberText(e)
    requires NumberText(cx) && NumberText(cy) && NumberText(cz)
    ensures Words(Trim(MarlinReport(x, y, z, e, cx, cy, cz)), ' ') == MarlinTokens(x, y, z, e, cx, cy, cz)
  {
    var front, back := AxisTokens(x, y, z), AxisTokens(cx, cy, cz);
    var ts := MarlinTokens(x, y, z, e, cx, cy, cz);
    AxisTokenFacts(x, y, z);
    AxisTokenFacts(cx, cy, cz);
    KeyTokenPair('E', e);
    assert ' ' !in "Count";
    assert forall i :: 0 <= i < 3 ==> ts[i] == front[i] && ts[i + 5] == back[i];
    WordsTrimUnwords(ts);
  }

  /** The position read from a hash whose X, Y and Z texts are numbers. */
  lemma PositionFromAxes(m: map<string, string>, x: string, y: string, z: string)
    requires HoldsAxes(m, x, y, z)
    requires ToDouble(x).Some? && ToDouble(y).Some? && ToDouble(z).Some?
    ensures PositionFrom(m) == Some(MotorPosition(ToDouble(x).value, ToDouble(y).value, ToDouble(z).value))
  {
  }

  /**
   * getPosition as written reads a Marlin report's step counts where the
   * axis positions are meant: the count tokens come last and win.
   */
  lemma MarlinAsWrittenReadsCounts(x: string, y: string, z: string, e: string, cx: string, cy: string, cz: string)
    requires NumberText(x) && NumberText(y) && NumberText(z) && NumberText(e)
    requires NumberText(cx) && NumberText(cy) && NumberText(cz)
    requires ToDouble(cx).Some? && ToDouble(cy).Some? && ToDouble(cz).Some?
    ensures DecodePositionAsWritten(MarlinReport(x, y, z, e, cx, cy, cz))
      == Some(MotorPosition(ToDouble(cx).value, ToDouble(cy).value, ToDouble(cz).value))
  {
    var ts := MarlinTokens(x, y, z, e, cx, cy, cz);
    var front, back := AxisTokens(x, y, z) + [KeyToken('E', e), "Count"], AxisTokens(cx, cy, cz);
    MarlinReportTokens(x, y, z, e, cx, cy, cz);
    assert HoldsAxes(Pairs(ts), cx, cy, cz) by {
      assert ts == front + back;
      AxisTokenFacts(cx, cy, cz);
      TriplePairs(back[0], back[1], back[2], cx, cy, cz);
      assert back == [back[0], back[1], back[2]];
      PairsAppend(front, back, "X");
      PairsAppend(front, back, "Y");
      PairsAppend(front, back, "Z");
    }
    PositionFromAxes(Pairs(ts), cx, cy, cz);
  }

  /** The corrected getPosition reads a Marlin report's axis positions. */
  lemma MarlinReadsPositions(x: string, y: string, z: string, e: string, cx: string, cy: string, cz: string)
    requires NumberText(x) && NumberText(y) && NumberText(z) && NumberText(e)
    requires NumberText(cx) && NumberText(cy) && NumberText(cz)
    requires ToDouble(x).Some? && ToDouble(y).Some? && ToDouble(z).Some?
    ensures DecodePosition(MarlinReport(x, y, z, e, cx, cy, cz))
      == Some(MotorPosition(ToDouble(x).value, ToDouble(y).value, ToDouble(z).value))
  {
    var ts := MarlinTokens(x, y, z, e, cx, cy, cz);
    var front, back := AxisTokens(x, y, z), [KeyToken('E', e), "Count"] + AxisTokens(cx, cy, cz);
    MarlinReportTokens(x, y, z, e, cx, cy, cz);
    AxisTokenFacts(x, y, z);
    TriplePairs(front[0], front[1], front[2], x, y, z);
    assert front == [front[0], front[1], front[2]];
    assert Pairs(ts) != map[] by {
      assert ts[0] == front[0];
      PairsEmpty(ts);
    }
    assert HoldsAxes(FirstPairs(ts), x, y, z) by {
      FirstPairsPrepend(front, back, "X");
      FirstPairsPrepend(front, back, "Y");
      FirstPairsPrepend(front, back, "Z");
    }
    PositionFromAxes(FirstPairs(ts), x, y, z);
  }

  // ---------------------------------------------------------------------
  // The controller
  // ---------------------------------------------------------------------

  /** The error codes a serial port reports. */
  datatype SerialPortError =
    | NoError | DeviceNotFoundError | PermissionError | OpenError | WriteError | ReadError
    | ResourceError | UnsupportedOperationError | UnknownError | TimeoutError | NotOpenError

  /**
   * What the port does with one command: whether write() accepts the bytes,
   * whether they are flushed before the timeout, and the chunks that arrive
   * before the reply deadline.
   */
  datatype Link = Link(writeAccepted: bool, bytesWritten: bool, replies: seq<string>)

  /** The trimmed reply sendCommand hands back for a written command, or None on any failure. */
  function Reply(link: Link): (r: Option<string>)
    ensures r.Some? <==> link.writeAccepted && link.bytesWritten && Await([], link.replies).Complete?
    ensures r.Some? ==> r.value == Trim(Await([], link.replies).response)
  {
    if !link.writeAccepted || !link.bytesWritten then None
    else match Await([], link.replies)
      case Complete(response) => Some(Trim(response))
      case TimedOut(_) => None
  }

  /** The reply buffer sendCommand leaves behind: the unfinished reply after a timeout, else empty. */
  function LeftOver(link: Link): string {
    if link.writeAccepted && link.bytesWritten && Await([], link.replies).TimedOut? then
      Await([], link.replies).pending
    else []
  }

  /** The command getPosition sends. */
  function PositionQuery(): GCodeCommand {
    CustomCommand("M114").(feedrate := 0)
  }

  lemma PositionQueryText()
    ensures BuildCommandString(PositionQuery()) == "M114\n"
  {
    var t := "M114";
    assert t == [] + t + [];
    TrimCharacterized(t, [], t, []);
  }

  /**
   * The controller: the serial port's open flag and settings, the
   * connection and error flags, the reply buffer, and the texts written to
   * the port so far.
   */
  class TinyBeeController {
    var portName: string
    var baudRate: int
    var portOpen: bool
    var connected: bool
    var hasError: bool
    var responseBuffer: string
    var sent: seq<string>

    constructor ()
      ensures !portOpen && !connected && !hasError && responseBuffer == [] && sent == []
    {
      portName := [];
      baudRate := DefaultBaudRate;
      portOpen := false;
      connected := false;
      hasError := false;
      responseBuffer := [];
      sent := [];
    }

    /** Connected means the flag is set and the port is open. */
    predicate IsConnected()
      reads this
    {
      connected && portOpen
    }

    /**
     * connectPort: closes an open port, applies the settings and opens the
     * port; `opens` is what the open call reports. Success clears the reply
     * buffer and the error flag; failure sets the error flag and leaves the
     * port closed.
     */
    method ConnectPort(name: string, opens: bool, baud: int := DefaultBaudRate) returns (ok: bool)
      modifies this
      ensures ok == opens
      ensures ok <==> IsConnected()
      ensures portName == name && baudRate == baud && portOpen == opens && connected == opens
      ensures hasError == !opens
      ensures responseBuffer == if opens then [] else old(responseBuffer)
      ensures sent == old(sent)
    {
      portOpen := false;
      portName := name;
      baudRate := baud;
      if !opens {
        hasError := true;
        connected := false;
        return false;
      }
      portOpen := true;
      responseBuffer := [];
      connected := true;
      hasError := false;
      return true;
    }

    /** disconnectPort: closes the port and clears the connected flag. */
    method DisconnectPort()
      modifies this
      ensures !portOpen && !connected && !IsConnected()
      ensures portName == old(portName) && baudRate == old(baudRate)
      ensures hasError == old(hasError) && responseBuffer == old(responseBuffer) && sent == old(sent)
    {
      portOpen := false;
      connected := false;
    }

    /** onReadyRead: whatever the port delivers is appended to the reply buffer. */
    method OnReadyRead(data: string)
      modifies this
      ensures responseBuffer == old(responseBuffer) + data
      ensures portName == old(portName) && baudRate == old(baudRate) && portOpen == old(portOpen)
      ensures connected == old(connected) && hasError == old(hasError) && sent == old(sent)
    {
      responseBuffer := responseBuffer + data;
    }

    /** onErrorOccurred: any code but NoError sets the error flag; nothing else changes. */
    method OnErrorOccurred(error: SerialPortError)
      modifies this
      ensures hasError == (old(hasError) || error != NoError)
      ensures portName == old(portName) && baudRate == old(baudRate) && portOpen == old(portOpen)
      ensures connected == old(connected) && responseBuffer == old(responseBuffer) && sent == old(sent)
    {
      if error == NoError {
        return;
      }
      hasError := true;
    }

    /**
     * waitForResponse: appends each arriving chunk to the reply buffer and
     * stops at the first point the buffer is complete, handing the whole
     * buffer back and clearing it. When the deadline passes first, the
     * buffer keeps what arrived and the response is empty.
     */
    method WaitForResponse(chunks: seq<string>) returns (complete: bool, response: string)
      modifies this
      ensures complete <==> Await(old(responseBuffer), chunks).Complete?
      ensures complete ==> response == Await(old(responseBuffer), chunks).response && responseBuffer == []
      ensures !complete ==> response == [] && responseBuffer == Await(old(responseBuffer), chunks).pending
      ensures portName == old(portName) && baudRate == old(baudRate) && portOpen == old(portOpen)
      ensures connected == old(connected) && hasError == old(hasError) && sent == old(sent)
    {
      var i := 0;
      while i < |chunks|
        invariant 0 <= i <= |chunks|
        invariant Await(old(responseBuffer), chunks) == Await(responseBuffer, chunks[i..])
        invariant portName == old(portName) && baudRate == old(baudRate) && portOpen == old(portOpen)
        invariant connected == old(connected) && hasError == old(hasError) && sent == old(sent)
      {
        assert chunks[i..][0] == chunks[i] && chunks[i..][1..] == chunks[i + 1..];
        responseBuffer := responseBuffer + chunks[i];
        if ResponseComplete(responseBuffer) {
          response := responseBuffer;
          responseBuffer := [];
          return true, response;
        }
        i := i + 1;
      }
      return false, [];
    }

    /**
     * sendCommand: refuses when not connected; otherwise clears the reply
     * buffer, writes the command's wire text and waits for a complete reply,
     * which it hands back trimmed.
     */
    method SendCommand(cmd: GCodeCommand, link: Link) returns (response: Option<string>)
      modifies this
      ensures !old(IsConnected()) ==> response == None && responseBuffer == old(responseBuffer) && sent == old(sent)
      ensures old(IsConnected()) ==>
        && response == Reply(link)
        && responseBuffer == LeftOver(link)
        && sent == old(sent) + (if link.writeAccepted then [BuildCommandString(cmd)] else [])
      ensures portName == old(portName) && baudRate == old(baudRate) && portOpen == old(portOpen)
      ensures connected == old(connected) && hasError == old(hasError)
    {
      if !IsConnected() {
        return None;
      }
      var wire := BuildCommandString(cmd);
      responseBuffer := [];
      if !link.writeAccepted {
        return None;
      }
      sent := sent + [wire];
      if !link.bytesWritten {
        return None;
      }
      var complete, resp := WaitForResponse(link.replies);
      if !complete {
        return None;
      }
      return Some(Trim(resp));
    }

    /**
     * parseResponse: splits the trimmed reply at spaces and stores every
     * key:value token in the hash, a later key replacing an earlier one;
     * reports whether anything was stored.
     */
    method ParseResponse(response: string) returns (ok: bool, parsed: map<string, string>)
      ensures parsed == Pairs(Words(Trim(response), ' '))
      ensures ok <==> exists i :: 0 <= i < |Words(Trim(response), ' ')| && KeyValue(Words(Trim(response), ' ')[i]).Some?
      ensures ok <==> parsed != map[]
    {
      var parts := Words(Trim(response), ' ');
      parsed := map[];
      var i := 0;
      while i < |parts|
        invariant 0 <= i <= |parts|
        invariant parsed == Pairs(parts[..i])
      {
        assert parts[..i + 1] == parts[..i] + [parts[i]];
        PairsSnoc(parts[..i], parts[i]);
        var part := parts[i];
        var colon := IndexOf(part, ':');
        if 0 < colon < |part| - 1 {
          parsed := parsed[part[..colon] := part[colon + 1..]];
        }
        i := i + 1;
      }
      assert parts[..i] == parts;
      PairsEmpty(parts);
      ok := parsed != map[];
    }

    /**
     * getPosition: sends M114 and reads X, Y and Z from the hash that
     * parseResponse fills; on any failure the position is left as it was.
     * The hash keeps the last token of each key, so a report with step
     * counts after the positions yields the counts (see
     * MarlinAsWrittenReadsCounts).
     */
    method GetPosition(pos: MotorPosition, link: Link) returns (ok: bool, newPos: MotorPosition)
      modifies this
      ensures ok <==> old(IsConnected()) && Reply(link).Some? && DecodePositionAsWritten(Reply(link).value).Some?
      ensures ok ==> newPos == DecodePositionAsWritten(Reply(link).value).value
      ensures responseBuffer == if old(IsConnected()) then LeftOver(link) else old(responseBuffer)
      ensures !ok ==> newPos == pos
      ensures old(IsConnected()) && link.writeAccepted ==> sent == old(sent) + ["M114\n"]
      ensures !(old(IsConnected()) && link.writeAccepted) ==> sent == old(sent)
      ensures portName == old(portName) && baudRate == old(baudRate) && portOpen == old(portOpen)
      ensures connected == old(connected) && hasError == old(hasError)
    {
      PositionQueryText();
      var response := SendCommand(PositionQuery(), link);
      if response.None? {
        return false, pos;
      }
      var parsedOk, parsed := ParseResponse(response.value);
      if !parsedOk {
        return false, pos;
      }
      var p := PositionFrom(parsed);
      if p.None? {
        return false, pos;
      }
      return true, p.value;
    }
  }
}
