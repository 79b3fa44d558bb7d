/**
 * The earlier MainWindow variant of the motor panel. It writes G-code
 * straight to the port, mostly without asking whether it is connected,
 * only logs the lines it receives, and never updates the last position.
 */
module Backup {
  import opened Wrappers
  import opened Text
  import opened Numbers
  import opened GCode
  import opened Reassembly
  import opened Axes
  import opened Jog
  import MotorControl
  import PositionLine

  /** The status-log texts of received lines, in order: trimmed, blank ones skipped. */
  function Logged(lines: seq<string>): (r: seq<string>)
    ensures forall i :: 0 <= i < |r| ==> r[i] != [] && Trim(r[i]) == r[i]
  {
    if lines == [] then []
    else
      var line := Trim(lines[|lines| - 1]);
      TrimIdempotent(lines[|lines| - 1]);
      Logged(lines[..|lines| - 1]) + (if line == [] then [] else [line])
  }

  lemma LoggedSnoc(lines: seq<string>, l: string)
    ensures Logged(lines + [l]) == Logged(lines) + if Trim(l) == [] then [] else [Trim(l)]
  {
    assert (lines + [l])[..|lines|] == lines;
  }

  function Texts(entries: seq<MotorControl.ShownLine>): seq<string> {
    if entries == [] then [] else Texts(entries[..|entries| - 1]) + [entries[|entries| - 1].text]
  }

  /** Both variants log the same texts for the same received lines; only the colours differ. */
  lemma {:induction false} LoggedMatchesShown(lines: seq<string>)
    ensures Logged(lines) == Texts(MotorControl.Shown(lines))
    decreases |lines|
  {
    if lines != [] {
      var front := lines[..|lines| - 1];
      var shownFront := MotorControl.Shown(front);
      LoggedMatchesShown(front);
      var line := Trim(lines[|lines| - 1]);
      if line != [] {
        var e := MotorControl.ShownLine(PositionLine.Classify(line), line);
        assert (shownFront + [e])[..|shownFront|] == shownFront;
      } else {
        assert shownFront + [] == shownFront;
      }
    }
  }

  /** measurement(): x or X and y or Y name their records; every other name falls back to Z. */
  function BackupMeasurementAxis(axisName: string): Axis {
    if axisName == "x" || axisName == "X" then X
    else if axisName == "y" || axisName == "Y" then Y
    else Z
  }

  /** The value markPosition stores: the last x or y position for "x" or "y", the last z otherwise. */
  function BackupMarkValue(axisName: string, pos: MotorPosition): real {
    if axisName == "x" then pos.x else if axisName == "y" then pos.y else pos.z
  }

  /** markPosition's effect on the three records. */
  function BackupMarkAxis(marks: MotorControl.Marks, axisName: string, button: MarkButton, pos: MotorPosition): MotorControl.Marks {
    var v := BackupMarkValue(axisName, pos);
    match BackupMeasurementAxis(axisName)
    case X => marks.(x := Mark(marks.x, button, v))
    case Y => marks.(y := Mark(marks.y, button, v))
    case Z => marks.(z := Mark(marks.z, button, v))
  }

  /** The panel name of an axis in this variant: upper case. */
  function PanelName(a: Axis): string {
    match a
    case X => "X"
    case Y => "Y"
    case Z => "Z"
  }

  /**
   * A mark button on a panel writes only the pressed field of that panel's
   * record. The panels are named in upper case, so the exact lower-case
   * comparison for the value falls through to the last z position on every
   * panel.
   */
  lemma BackupMarkWritesOneField(marks: MotorControl.Marks, a: Axis, f: MarkField, pos: MotorPosition)
    ensures var r := BackupMarkAxis(marks, PanelName(a), MarkPressed(f), pos);
            FieldOf(MotorControl.MarksOf(r, a), f) == Some(pos.z)
            && (forall b: Axis, g: MarkField :: (b, g) != (a, f) ==>
                  FieldOf(MotorControl.MarksOf(r, b), g) == FieldOf(MotorControl.MarksOf(marks, b), g))
  {
  }

  /** A button that is none of the three mark buttons writes no field. */
  lemma BackupMarkIgnoresOtherSender(marks: MotorControl.Marks, axisName: string, pos: MotorPosition)
    ensures BackupMarkAxis(marks, axisName, OtherSender, pos) == marks
  {
  }

  /** An axis name this variant does not know marks the Z record. */
  lemma BackupUnknownAxisMarksZ(marks: MotorControl.Marks, axisName: string, f: MarkField, pos: MotorPosition)
    requires axisName !in {"x", "X", "y", "Y"}
    ensures var r := BackupMarkAxis(marks, axisName, MarkPressed(f), pos);
            r.x == marks.x && r.y == marks.y && FieldOf(r.z, f) == Some(pos.z)
  {
  }

  /** A command text written with its '\n' inside the format is the command followed by '\n'. */
  lemma LineEnd(head: string, tail: string)
    requires tail == " F3000"
    ensures head + " F3000\n" == head + tail + "\n"
  {
    assert " F3000" + "\n" == " F3000\n";
  }

  /** Trimming a line with its '\n' gives the trimmed line without it. */
  lemma TrimLineData(s: string, i: int)
    requires 0 <= i < |s| && s[i] == '\n'
    ensures Trim(s[..i + 1]) == Trim(s[..i])
  {
    assert s[..i + 1] == s[..i] + ['\n'];
    TrimIgnoresTrailingSpace(s[..i], '\n');
  }

  class MainWindow {
    var connected: bool
    var portOpen: bool
    var portName: string
    var baudRate: int
    /** Whether the 750 ms position poll is running. */
    var polling: bool
    var buffer: string
    var lastPosX: real
    var lastPosY: real
    var lastPosZ: real
    var measX: AxisMeasurement
    var measY: AxisMeasurement
    var measZ: AxisMeasurement
    /** Every text handed to the port's write(), in order. */
    var written: seq<string>
    /** The status log's entries for received lines, in order. */
    var shown: seq<string>

    constructor ()
      ensures !connected && !portOpen && !polling
      ensures buffer == [] && written == [] && shown == []
      ensures lastPosX == 0.0 && lastPosY == 0.0 && lastPosZ == 0.0
      ensures measX == Unmarked && measY == Unmarked && measZ == Unmarked
    {
      connected, portOpen, polling := false, false, false;
      portName, baudRate := [], DefaultBaudRate;
      buffer, written, shown := [], [], [];
      lastPosX, lastPosY, lastPosZ := 0.0, 0.0, 0.0;
      measX, measY, measZ := Unmarked, Unmarked, Unmarked;
    }

    function Position(): MotorPosition
      reads this
    {
      MotorPosition(lastPosX, lastPosY, lastPosZ)
    }

    function MarkTable(): MotorControl.Marks
      reads this
    {
      MotorControl.Marks(measX, measY, measZ)
    }

    /**
     * Opens the port named by the text before the first space of the chosen
     * entry, unless that text is empty; `opens` is whether the open succeeds.
     */
    method ConnectPort(portText: string, opens: bool)
      modifies this`portOpen, this`portName, this`baudRate, this`connected, this`polling
      ensures FirstField(portText, ' ') == [] ==>
        portOpen == old(portOpen) && portName == old(portName) && baudRate == old(baudRate)
        && connected == old(connected) && polling == old(polling)
      ensures FirstField(portText, ' ') != [] ==>
        portName == FirstField(portText, ' ') && baudRate == DefaultBaudRate && portOpen == opens
        && connected == (opens || old(connected)) && polling == (opens || old(polling))
    {
      var port := FirstField(portText, ' ');
      if port == [] {
        return;
      }
      if portOpen {
        portOpen := false;
      }
      portName := port;
      baudRate := DefaultBaudRate;
      if !opens {
        return;
      }
      portOpen := true;
      connected := true;
      polling := true;
    }

    method DisconnectPort()
      modifies this`portOpen, this`connected, this`polling
      ensures !portOpen && !connected && !polling
    {
      portOpen := false;
      connected := false;
      polling := false;
    }

    /** Nothing unless connected; home, or a planar move of 10 mm at 3000 mm/min. */
    method DirectionalClicked(buttonText: string)
      modifies this`written
      ensures written == old(written) + if connected then [DirectionalText(buttonText) + "\n"] else []
    {
      if !connected {
        return;
      }
      var d := DirectionalDelta(buttonText);
      if buttonText == "Home" {
        assert "G28" + "\n" == "G28\n";
        written := written + ["G28\n"];
      } else {
        var gcode := "G1 X" + Shortest(d.dx) + " Y" + Shortest(d.dy) + " F3000\n";
        LineEnd("G1 X" + Shortest(d.dx) + " Y" + Shortest(d.dy), " F3000");
        written := written + [gcode];
      }
    }

    /** Writes the home command for the axis, connected or not. */
    method AxisHome(axisName: string)
      modifies this`written
      ensures written == old(written) + [HomeAxisText(axisName) + "\n"]
    {
      written := written + ["G28 " + ToUpper(axisName) + "\n"];
    }

    /** Writes the step move, X and Z inverted, connected or not. */
    method AxisMoveStep(axisName: string, minusPressed: bool, step: real, curr: real)
      modifies this`written
      ensures written == old(written) + [MoveAxisText(axisName, JogTarget(axisName, minusPressed, curr, step)) + "\n"]
    {
      var pos := JogTarget(axisName, minusPressed, curr, step);
      LineEnd("G1 " + ToUpper(axisName) + Shortest(pos), " F3000");
      written := written + ["G1 " + ToUpper(axisName) + Shortest(pos) + " F3000\n"];
    }

    method AxisGoTo(axisName: string, pos: real)
      modifies this`written
      ensures written == old(written) + [MoveAxisText(axisName, pos) + "\n"]
    {
      LineEnd("G1 " + ToUpper(axisName) + Shortest(pos), " F3000");
      written := written + ["G1 " + ToUpper(axisName) + Shortest(pos) + " F3000\n"];
    }

    method MarkPosition(axisName: string, button: MarkButton)
      modifies this`measX, this`measY, this`measZ
      ensures MarkTable() == BackupMarkAxis(old(MarkTable()), axisName, button, Position())
    {
      var val := 0.0;
      if axisName == "x" {
        val := lastPosX;
      } else if axisName == "y" {
        val := lastPosY;
      } else {
        val := lastPosZ;
      }
      match BackupMeasurementAxis(axisName)
      case X => measX := Mark(measX, button, val);
      case Y => measY := Mark(measY, button, val);
      case Z => measZ := Mark(measZ, button, val);
    }

    /** Writes M112 whether connected or not. */
    method EmergencyStop()
      modifies this`written
      ensures written == old(written) + ["M112\n"]
    {
      written := written + ["M112\n"];
    }

    /** The poll tick: M114 while the port is open. */
    method UpdatePositionPoll()
      modifies this`written
      ensures written == old(written) + if portOpen then ["M114\n"] else []
    {
      if portOpen {
        written := written + ["M114\n"];
      }
    }

    /** The slot connected at construction: it only appends. */
    method HandleSerialReadyRead(data: string)
      modifies this`buffer
      ensures buffer == old(buffer) + data
    {
      buffer := buffer + data;
    }

    /**
     * The slot connected by connectPort: appends the data, then cuts off
     * every complete line, logging each non-blank one trimmed.
     */
    method HandleSerialRead(data: string)
      modifies this`buffer, this`shown
      ensures buffer == SplitLines(old(buffer) + data).1 && '\n' !in buffer
      ensures shown == old(shown) + Logged(SplitLines(old(buffer) + data).0)
    {
      buffer := buffer + data;
      ghost var done: seq<string> := [];
      while true
        invariant JoinLines(done) + buffer == old(buffer) + data
        invariant NoNewline(done)
        invariant shown == old(shown) + Logged(done)
        decreases |buffer|
      {
        var newlineIndex := IndexOf(buffer, '\n');
        if newlineIndex == -1 {
          break;
        }
        var lineData := buffer[..newlineIndex + 1];
        ghost var before := buffer;
        ghost var content := buffer[..newlineIndex];
        CutLine(old(buffer) + data, done, buffer, newlineIndex);
        buffer := buffer[newlineIndex + 1..];
        LoggedSnoc(done, content);
        NoNewlineSnoc(done, content);
        done := done + [content];
        TrimLineData(before, newlineIndex);
        var line := Trim(lineData);
        if line == [] {
          continue;
        }
        shown := shown + [line];
      }
      SplitJoinedLines(done, buffer);
    }

    /**
     * One readyRead once connected: the construction-time slot reads all
     * the data into the buffer, then connectPort's slot finds nothing more
     * to read and cuts the lines from the buffer. Together they act as one
     * handleSerialRead of the data.
     */
    method ReadyRead(data: string)
      modifies this`buffer, this`shown
      ensures buffer == SplitLines(old(buffer) + data).1
      ensures shown == old(shown) + Logged(SplitLines(old(buffer) + data).0)
    {
      HandleSerialReadyRead(data);
      HandleSerialRead([]);
      assert old(buffer) + data + [] == old(buffer) + data;
    }
  }

  /**
   * connectPort adds its slot again on every call; each extra run of it
   * within one readyRead reads nothing and finds no line left, so it
   * changes nothing.
   */
  lemma ExtraPassIdle(s: string)
    ensures var residue := SplitLines(s).1;
            SplitLines(residue + []) == ([], residue) && Logged([]) == []
  {
    var residue := SplitLines(s).1;
    SplitLinesNoNewline(s);
    assert residue + [] == residue;
    assert residue == JoinLines([]) + residue;
    SplitJoinedLines([], residue);
  }
}
