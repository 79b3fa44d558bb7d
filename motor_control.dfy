/**
 * MotorControlWidget: the motor panel that talks G-code to the controller
 * itself. Its state is the connection flag, the serial port, the position
 * poll, the inbound line buffer, the last reported position and one mark
 * record per axis. The serial port is an open flag and the list of texts
 * handed to write(); the status log keeps only the received lines.
 */
module MotorControl {
  import opened Wrappers
  import opened Text
  import opened Numbers
  import opened GCode
  import opened Reassembly
  import opened PositionLine
  import opened Axes
  import opened Jog

  /**
   * sendCustomCommand's text on the wire: the trimmed command and one '\n',
   * or nothing for a command that is blank.
   */
  function CustomWire(command: string): (r: Option<string>)
    ensures r.None? <==> AllSpace(command)
    ensures r.Some? ==> |r.value| >= 2 && r.value[|r.value| - 1] == '\n' && Trim(r.value) == Trim(command)
    ensures r.Some? ==> r.value[..|r.value| - 1] == Trim(command)
    ensures r.Some? ==> !IsSpace(r.value[0]) && !IsSpace(r.value[|r.value| - 2])
  {
    var trimmed := Trim(command);
    TrimEmptyIffBlank(command);
    if trimmed == [] then None
    else
      TrimNoTrailingNewline(command);
      TrimIgnoresTrailingSpace(trimmed, '\n');
      TrimIdempotent(command);
      Some(trimmed + "\n")
  }

  /** The newline is added once: the wire text of a wire text is itself. */
  lemma CustomWireIdempotent(command: string)
    requires CustomWire(command).Some?
    ensures CustomWire(CustomWire(command).value) == CustomWire(command)
  {
    var w := CustomWire(command).value;
    TrimEmptyIffBlank(w);
  }

  /** What sendCustomCommand writes: the wire text while connected, nothing otherwise. */
  function Sends(isConnected: bool, command: string): seq<string> {
    if isConnected && CustomWire(command).Some? then [CustomWire(command).value] else []
  }

  /** A command with no surrounding whitespace goes out as itself and one '\n'. */
  lemma SendsPlain(isConnected: bool, command: string)
    requires command != [] && !IsSpace(command[0]) && !IsSpace(command[|command| - 1])
    ensures Sends(isConnected, command) == if isConnected then [command + "\n"] else []
  {
    assert command == [] + command + [];
    TrimCharacterized(command, [], command, []);
    TrimEmptyIffBlank(command);
  }

  /** A directional-pad text goes out unchanged with one '\n'. */
  lemma DirectionalWire(isConnected: bool, buttonText: string)
    ensures Sends(isConnected, DirectionalText(buttonText))
            == if isConnected then [DirectionalText(buttonText) + "\n"] else []
  {
    if buttonText == "Home" {
      SendsPlain(isConnected, "G28");
    } else {
      var d := DirectionalDelta(buttonText);
      PlanarMoveWire(isConnected, d.dx, d.dy);
    }
  }

  lemma PlanarMoveWire(isConnected: bool, dx: real, dy: real)
    ensures var t := "G1 X" + Shortest(dx) + " Y" + Shortest(dy) + " F3000";
            Sends(isConnected, t) == if isConnected then [t + "\n"] else []
  {
    FeedEndedWire(isConnected, "G1 X" + Shortest(dx) + " Y" + Shortest(dy), "G1 X" + Shortest(dx) + " Y" + Shortest(dy) + " F3000");
  }

  /** A jog lambda's text goes out unchanged with one '\n'. */
  lemma GestureWire(isConnected: bool, g: Gesture, step: real)
    ensures Sends(isConnected, GestureText(g, step))
            == if isConnected then [GestureText(g, step) + "\n"] else []
  {
    var words := AxisWords(GestureArgs(g, step));
    RelativeJogEnds(words, GestureText(g, step));
    SendsPlain(isConnected, GestureText(g, step));
  }

  lemma RelativeJogEnds(words: string, t: string)
    requires t == "G91\nG1 " + words + " F1000\nG90"
    ensures t != [] && t[0] == 'G' && t[|t| - 1] == '0'
  {
  }

  /** An axis move goes out unchanged with one '\n'. */
  lemma MoveWire(isConnected: bool, axisName: string, pos: real)
    ensures Sends(isConnected, MoveAxisText(axisName, pos))
            == if isConnected then [MoveAxisText(axisName, pos) + "\n"] else []
  {
    FeedEndedWire(isConnected, "G1 " + ToUpper(axisName) + Shortest(pos), MoveAxisText(axisName, pos));
  }

  /** A move whose text starts with G and ends in the feed word F3000. */
  lemma FeedEndedWire(isConnected: bool, head: string, t: string)
    requires |head| > 0 && head[0] == 'G' && t == head + " F3000"
    ensures Sends(isConnected, t) == if isConnected then [t + "\n"] else []
  {
    assert t[0] == 'G' && t[|t| - 1] == '0';
    SendsPlain(isConnected, t);
  }

  /** A received line as the status log shows it: its colour class and trimmed text. */
  datatype ShownLine = ShownLine(kind: LineKind, text: string)

  /** The log entry of one trimmed line: none for a blank line. */
  function LogEntry(line: string): seq<ShownLine> {
    if line == [] then [] else [ShownLine(Classify(line), line)]
  }

  /** The position after one trimmed line: its report if it has one, else the old position. */
  function NextPosition(pos: MotorPosition, line: string): MotorPosition {
    if line != [] && PositionUpdate(line).Some? then PositionUpdate(line).value else pos
  }

  /** The log entries for received lines, in order; blank lines have none. */
  function Shown(lines: seq<string>): (r: seq<ShownLine>)
    ensures forall i :: 0 <= i < |r| ==> r[i].text != [] && Trim(r[i].text) == r[i].text
  {
    if lines == [] then []
    else
      TrimIdempotent(lines[|lines| - 1]);
      Shown(lines[..|lines| - 1]) + LogEntry(Trim(lines[|lines| - 1]))
  }

  /**
   * The last known position after the lines: each line that reports a
   * position replaces all three coordinates, every other line leaves them.
   */
  function Track(pos: MotorPosition, lines: seq<string>): MotorPosition {
    if lines == [] then pos else NextPosition(Track(pos, lines[..|lines| - 1]), Trim(lines[|lines| - 1]))
  }

  /** A position is only ever taken from a received report: it is the start or some line's report. */
  lemma {:induction false} TrackFromReports(pos: MotorPosition, lines: seq<string>)
    ensures var r := Track(pos, lines);
            r == pos || exists i :: 0 <= i < |lines| && PositionUpdate(Trim(lines[i])) == Some(r)
    decreases |lines|
  {
    if lines != [] {
      var front := lines[..|lines| - 1];
      TrackFromReports(pos, front);
      assert forall i :: 0 <= i < |front| ==> front[i] == lines[i];
    }
  }

  /** One more received line adds its log entry and its report, if any. */
  lemma LineSnoc(pos: MotorPosition, lines: seq<string>, l: string)
    ensures Shown(lines + [l]) == Shown(lines) + LogEntry(Trim(l))
    ensures Track(pos, lines + [l]) == NextPosition(Track(pos, lines), Trim(l))
  {
    assert (lines + [l])[..|lines|] == lines;
  }

  lemma {:induction false} ShownAppend(a: seq<string>, b: seq<string>)
    ensures Shown(a + b) == Shown(a) + Shown(b)
    decreases |b|
  {
    if b == [] {
      assert a + b == a;
    } else {
      var front := b[..|b| - 1];
      assert (a + b)[..|a + b| - 1] == a + front;
      assert (a + b)[|a + b| - 1] == b[|b| - 1];
      ShownAppend(a, front);
    }
  }

  lemma {:induction false} TrackAppend(pos: MotorPosition, a: seq<string>, b: seq<string>)
    ensures Track(pos, a + b) == Track(Track(pos, a), b)
    decreases |b|
  {
    if b == [] {
      assert a + b == a;
    } else {
      var front := b[..|b| - 1];
      assert (a + b)[..|a + b| - 1] == a + front;
      assert (a + b)[|a + b| - 1] == b[|b| - 1];
      TrackAppend(pos, a, front);
    }
  }

  /** A blank line adds no log entry and moves no coordinate. */
  lemma BlankLineIgnored(pos: MotorPosition, lines: seq<string>, line: string)
    requires AllSpace(line)
    ensures Shown(lines + [line]) == Shown(lines)
    ensures Track(pos, lines + [line]) == Track(pos, lines)
  {
    TrimEmptyIffBlank(line);
    assert (lines + [line])[..|lines|] == lines;
  }

  /**
   * How the data arrives does not matter: reading d1 and then d2 leaves the
   * same buffer, log and position as reading d1 + d2 at once.
   */
  lemma ReadInTwoChunks(buffer: string, d1: string, d2: string, pos: MotorPosition)
    ensures var first := SplitLines(buffer + d1);
            var second := SplitLines(first.1 + d2);
            var whole := SplitLines(buffer + d1 + d2);
            whole.1 == second.1
            && Shown(whole.0) == Shown(first.0) + Shown(second.0)
            && Track(pos, whole.0) == Track(Track(pos, first.0), second.0)
  {
    var first := SplitLines(buffer + d1);
    var second := SplitLines(first.1 + d2);
    ChunkBoundaryInvisible(buffer + d1, d2, first, second);
    ShownAppend(first.0, second.0);
    TrackAppend(pos, first.0, second.0);
  }

  /** The marks of all three axes. */
  datatype Marks = Marks(x: AxisMeasurement, y: AxisMeasurement, z: AxisMeasurement)

  function MarksOf(marks: Marks, a: Axis): AxisMeasurement {
    match a
    case X => marks.x
    case Y => marks.y
    case Z => marks.z
  }

  function Coordinate(pos: MotorPosition, a: Axis): real {
    match a
    case X => pos.x
    case Y => pos.y
    case Z => pos.z
  }

  /** The panel name of an axis: the widget lower-cases it. */
  function AxisName(a: Axis): string {
    match a
    case X => "x"
    case Y => "y"
    case Z => "z"
  }

  /** measurement(): the record of the axis named, in either case, or none. */
  function MeasurementAxis(axisName: string): Option<Axis> {
    var ax := ToLower(axisName);
    if ax == "x" then Some(X) else if ax == "y" then Some(Y) else if ax == "z" then Some(Z) else None
  }

  /** The value markPosition stores: the last position of the axis named exactly, else 0.0. */
  function MarkValue(axisName: string, pos: MotorPosition): real {
    if axisName == "x" then pos.x
    else if axisName == "y" then pos.y
    else if axisName == "z" then pos.z
    else 0.0
  }

  /** markPosition's effect on the three records. */
  function MarkAxis(marks: Marks, axisName: string, button: MarkButton, pos: MotorPosition): Marks {
    if button.OtherSender? then marks
    else
      var v := MarkValue(axisName, pos);
      match MeasurementAxis(axisName)
      case None => marks
      case Some(X) => marks.(x := Mark(marks.x, button, v))
      case Some(Y) => marks.(y := Mark(marks.y, button, v))
      case Some(Z) => marks.(z := Mark(marks.z, button, v))
  }

  /**
   * Marking on an axis panel stores that axis's last position in the
   * pressed field of that axis's record; every other field of every record
   * keeps its value.
   */
  lemma MarkPositionWritesOneField(marks: Marks, a: Axis, f: MarkField, pos: MotorPosition)
    ensures var r := MarkAxis(marks, AxisName(a), MarkPressed(f), pos);
            FieldOf(MarksOf(r, a), f) == Some(Coordinate(pos, a))
            && (forall b: Axis, g: MarkField :: (b, g) != (a, f) ==> FieldOf(MarksOf(r, b), g) == FieldOf(MarksOf(marks, b), g))
  {
    assert ToLower("x") == "x" && ToLower("y") == "y" && ToLower("z") == "z";
  }

  /** Another sender, or an axis name none of the three records answers to, marks nothing. */
  lemma MarkPositionIgnores(marks: Marks, axisName: string, button: MarkButton, pos: MotorPosition)
    requires button.OtherSender? || MeasurementAxis(axisName).None?
    ensures MarkAxis(marks, axisName, button, pos) == marks
  {
  }

  class MotorControlWidget {
    var connected: bool
    var portOpen: bool
    var portName: string
    var baudRate: int
    /** Whether the 750 ms position poll is running. */
    var polling: bool
    var buffer: string
    var lastPosX: real
    var lastPosY: real
    var lastPosZ: real
    var measX: AxisMeasurement
    var measY: AxisMeasurement
    var measZ: AxisMeasurement
    /** Every text handed to the port's write(), in order. */
    var sent: seq<string>
    /** The status log's entries for received lines, in order. */
    var shown: seq<ShownLine>

    constructor ()
      ensures !connected && !portOpen && !polling
      ensures buffer == [] && sent == [] && shown == []
      ensures lastPosX == 0.0 && lastPosY == 0.0 && lastPosZ == 0.0
      ensures measX == Unmarked && measY == Unmarked && measZ == Unmarked
    {
      connected, portOpen, polling := false, false, false;
      portName, baudRate := [], DefaultBaudRate;
      buffer, sent, shown := [], [], [];
      lastPosX, lastPosY, lastPosZ := 0.0, 0.0, 0.0;
      measX, measY, measZ := Unmarked, Unmarked, Unmarked;
    }

    predicate IsConnected()
      reads this
    {
      connected && portOpen
    }

    function Position(): MotorPosition
      reads this
    {
      MotorPosition(lastPosX, lastPosY, lastPosZ)
    }

    function MarkTable(): Marks
      reads this
    {
      Marks(measX, measY, measZ)
    }

    /** Writes the trimmed command and one '\n' when connected and the command is not blank. */
    method SendCustomCommand(command: string)
      modifies this`sent
      ensures sent == old(sent) + Sends(IsConnected(), command)
    {
      if !IsConnected() {
        return;
      }
      var trimmedCmd := Trim(command);
      if trimmedCmd == [] {
        TrimEmptyIffBlank(command);
        return;
      }
      var cmd := trimmedCmd;
      TrimNoTrailingNewline(command);
      if cmd[|cmd| - 1] != '\n' {
        cmd := cmd + "\n";
      }
      TrimEmptyIffBlank(command);
      sent := sent + [cmd];
    }

    /**
     * Opens the port named by the text before the first space of the chosen
     * entry; `opens` is whether the open succeeds. Only a successful open
     * sets the connection flag and starts the poll; a failed open leaves the
     * port closed and the flag as it was.
     */
    method ConnectPort(portText: string, opens: bool)
      modifies this`portOpen, this`portName, this`baudRate, this`connected, this`polling
      ensures portText == "No ports available" || portText == [] ==>
        portOpen == old(portOpen) && portName == old(portName) && baudRate == old(baudRate)
        && connected == old(connected) && polling == old(polling)
      ensures portText != "No ports available" && portText != [] ==>
        portName == FirstField(portText, ' ') && baudRate == DefaultBaudRate && portOpen == opens
        && connected == (opens || old(connected)) && polling == (opens || old(polling))
    {
      if portText == "No ports available" || portText == [] {
        return;
      }
      var name := FirstField(portText, ' ');
      if portOpen {
        portOpen := false;
      }
      portName := name;
      baudRate := DefaultBaudRate;
      if !opens {
        return;
      }
      portOpen := true;
      connected := true;
      polling := true;
    }

    /** Closes the port, clears the connection flag and stops the poll. */
    method DisconnectPort()
      modifies this`portOpen, this`connected, this`polling
      ensures !portOpen && !connected && !polling && !IsConnected()
    {
      portOpen := false;
      connected := false;
      polling := false;
    }

    /** Sends M112 only while connected. */
    method EmergencyStop()
      modifies this`sent
      ensures sent == old(sent) + if IsConnected() then ["M112\n"] else []
    {
      SendsPlain(IsConnected(), "M112");
      assert "M112" + "\n" == "M112\n";
      if IsConnected() {
        SendCustomCommand("M112");
      }
    }

    /**
     * A click on Connect. setupUI and the constructor both connect the
     * button to connectPort, so one click runs it twice: the second run
     * closes the port the first one opened and opens it again. `opens1`
     * and `opens2` are the results of the two open() calls.
     */
    method ConnectClicked(portText: string, opens1: bool, opens2: bool)
      modifies this`portOpen, this`portName, this`baudRate, this`connected, this`polling
      ensures portText == "No ports available" || portText == [] ==>
        portOpen == old(portOpen) && portName == old(portName) && baudRate == old(baudRate)
        && connected == old(connected) && polling == old(polling)
      ensures portText != "No ports available" && portText != [] ==>
        portName == FirstField(portText, ' ') && baudRate == DefaultBaudRate && portOpen == opens2
        && connected == (opens1 || opens2 || old(connected)) && polling == (opens1 || opens2 || old(polling))
    {
      ConnectPort(portText, opens1);
      ConnectPort(portText, opens2);
    }

    /** A click on Disconnect, wired twice like Connect: the second run changes nothing more. */
    method DisconnectClicked()
      modifies this`portOpen, this`connected, this`polling
      ensures !portOpen && !connected && !polling
    {
      DisconnectPort();
      DisconnectPort();
    }

    /** A click on E-STOP, wired twice like Connect: M112 is written twice while connected. */
    method EstopClicked()
      modifies this`sent
      ensures sent == old(sent) + if IsConnected() then ["M112\n", "M112\n"] else []
    {
      EmergencyStop();
      EmergencyStop();
    }

    /**
     * A click on Send, or Return in the command box; `input` is the box's
     * text and `box` its text afterwards. setupUI's handler runs first: it
     * sends a non-blank text and clears the box. The constructor's handler
     * (onCommandInputReturnPressed for Return) then sends whatever the box
     * holds, which is empty unless the text was blank, and clears it. So
     * the command goes out once, and a blank one not at all.
     */
    method SendClicked(input: string) returns (box: string)
      modifies this`sent
      ensures box == []
      ensures sent == old(sent) + Sends(IsConnected(), input)
    {
      box := input;
      if Trim(box) != [] {
        SendCustomCommand(box);
        box := [];
      }
      SendCustomCommand(box);
      box := [];
    }

    /** The poll tick: asks for the position with M114 only while connected. */
    method UpdatePositionPoll()
      modifies this`sent
      ensures sent == old(sent) + if IsConnected() then ["M114\n"] else []
    {
      SendsPlain(IsConnected(), "M114");
      assert "M114" + "\n" == "M114\n";
      if IsConnected() {
        SendCustomCommand("M114");
      }
    }

    /** The Home All and HOME buttons. */
    method HomeAll()
      modifies this`sent
      ensures sent == old(sent) + if IsConnected() then ["G28\n"] else []
    {
      SendsPlain(IsConnected(), "G28");
      assert "G28" + "\n" == "G28\n";
      SendCustomCommand("G28");
    }

    /** A directional-pad or Z button: its lambda's relative jog by step. */
    method Jog(g: Gesture, step: real)
      modifies this`sent
      ensures sent == old(sent) + if IsConnected() then [GestureText(g, step) + "\n"] else []
    {
      GestureWire(IsConnected(), g, step);
      SendCustomCommand(GestureText(g, step));
    }

    /**
     * directionalClicked: nothing unless connected; home or a planar move of
     * 10 mm. The widget declares this slot but connects no button to it: its
     * pad buttons run the jog lambdas (Jog), and its home button is labelled
     * "HOME", which the "Home" test here would not match.
     */
    method DirectionalClicked(buttonText: string)
      modifies this`sent
      ensures sent == old(sent) + if IsConnected() then [DirectionalText(buttonText) + "\n"] else []
    {
      DirectionalWire(IsConnected(), buttonText);
      if !IsConnected() {
        return;
      }
      if buttonText == "Home" {
        SendCustomCommand("G28");
        return;
      }
      SendCustomCommand(DirectionalText(buttonText));
    }

    method AxisHome(axisName: string)
      modifies this`sent
      ensures sent == old(sent) + Sends(IsConnected(), HomeAxisText(axisName))
    {
      SendCustomCommand(HomeAxisText(axisName));
    }

    /** The jog buttons of an axis panel: step from the go-to value, X and Z inverted. */
    method AxisMoveStep(axisName: string, minusPressed: bool, step: real, curr: real)
      modifies this`sent
      ensures var target := JogTarget(axisName, minusPressed, curr, step);
              sent == old(sent) + if IsConnected() then [MoveAxisText(axisName, target) + "\n"] else []
    {
      MoveWire(IsConnected(), axisName, JogTarget(axisName, minusPressed, curr, step));
      var pos := JogTarget(axisName, minusPressed, curr, step);
      SendCustomCommand(MoveAxisText(axisName, pos));
    }

    method AxisGoTo(axisName: string, pos: real)
      modifies this`sent
      ensures sent == old(sent) + if IsConnected() then [MoveAxisText(axisName, pos) + "\n"] else []
    {
      MoveWire(IsConnected(), axisName, pos);
      SendCustomCommand(MoveAxisText(axisName, pos));
    }

    /** Stores the axis's last position in the pressed field of its record. */
    method MarkPosition(axisName: string, button: MarkButton)
      modifies this`measX, this`measY, this`measZ
      ensures MarkTable() == MarkAxis(old(MarkTable()), axisName, button, Position())
    {
      if button.OtherSender? {
        return;
      }
      var val := 0.0;
      if axisName == "x" {
        val := lastPosX;
      } else if axisName == "y" {
        val := lastPosY;
      } else if axisName == "z" {
        val := lastPosZ;
      }
      var m := MeasurementAxis(axisName);
      if m.None? {
        return;
      }
      match m.value
      case X => measX := Mark(measX, button, val);
      case Y => measY := Mark(measY, button, val);
      case Z => measZ := Mark(measZ, button, val);
    }

    /**
     * handleSerialRead: appends the data to the buffer, then cuts complete
     * lines off its front until no '\n' is left, logging each non-blank
     * trimmed line and taking a position from each line that reports one.
     */
    method HandleSerialRead(data: string)
      modifies this`buffer, this`shown, this`lastPosX, this`lastPosY, this`lastPosZ
      ensures buffer == SplitLines(old(buffer) + data).1 && '\n' !in buffer
      ensures shown == old(shown) + Shown(SplitLines(old(buffer) + data).0)
      ensures Position() == Track(old(Position()), SplitLines(old(buffer) + data).0)
    {
      ghost var whole, shown0, pos0 := buffer + data, shown, Position();
      buffer := buffer + data;
      ghost var done: seq<string> := [];
      while IndexOf(buffer, '\n') != -1
        invariant JoinLines(done) + buffer == whole && NoNewline(done)
        invariant shown == shown0 + Shown(done) && Position() == Track(pos0, done)
        decreases |buffer|
      {
        done := CutFirstLine(whole, shown0, pos0, done);
      }
      SplitJoinedLines(done, buffer);
    }

    /**
     * One turn of handleSerialRead's loop: the first complete line is cut
     * off the buffer and taken, keeping the loop's invariant with that line
     * added to the lines done so far.
     */
    method CutFirstLine(ghost whole: string, ghost shown0: seq<ShownLine>, ghost pos0: MotorPosition, ghost done: seq<string>)
      returns (ghost done': seq<string>)
      modifies this`buffer, this`shown, this`lastPosX, this`lastPosY, this`lastPosZ
      requires IndexOf(buffer, '\n') != -1
      requires JoinLines(done) + buffer == whole && NoNewline(done)
      requires shown == shown0 + Shown(done) && Position() == Track(pos0, done)
      ensures JoinLines(done') + buffer == whole && NoNewline(done')
      ensures shown == shown0 + Shown(done') && Position() == Track(pos0, done')
      ensures |buffer| < old(|buffer|)
    {
      var lineEnd := IndexOf(buffer, '\n');
      var lineData := buffer[..lineEnd];
      CutLine(whole, done, buffer, lineEnd);
      buffer := buffer[lineEnd + 1..];
      LineSnoc(pos0, done, lineData);
      NoNewlineSnoc(done, lineData);
      done' := done + [lineData];
      TakeLine(Trim(lineData));
    }

    /**
     * The body of handleSerialRead's loop for one trimmed line: a blank line
     * is skipped; any other is logged, and a line with a position report
     * sets all three coordinates.
     */
    method TakeLine(line: string)
      modifies this`shown, this`lastPosX, this`lastPosY, this`lastPosZ
      ensures shown == old(shown) + LogEntry(line)
      ensures Position() == NextPosition(old(Position()), line)
    {
      if line == [] {
        return;
      }
      shown := shown + [ShownLine(Classify(line), line)];
      var update := PositionUpdate(line);
      if update.Some? {
        lastPosX, lastPosY, lastPosZ := update.value.x, update.value.y, update.value.z;
      }
    }

    /** The readyRead slot. */
    method HandleSerialReadyRead(data: string)
      modifies this`buffer, this`shown, this`lastPosX, this`lastPosY, this`lastPosZ
      ensures buffer == SplitLines(old(buffer) + data).1
      ensures shown == old(shown) + Shown(SplitLines(old(buffer) + data).0)
      ensures Position() == Track(old(Position()), SplitLines(old(buffer) + data).0)
    {
      HandleSerialRead(data);
    }
  }
}
