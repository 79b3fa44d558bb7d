# TinyBee motor control, modelled in Dafny

The system is a Qt desktop tool that drives a three-axis stage. It talks
G-code over a serial port to a TinyBee (Marlin-style) controller board. Under
its widgets sit three pieces of sequential, text-based logic, and this
project models them:

- **The `TinyBeeController` protocol layer.** It encodes a `GCodeCommand` into
  wire text. `sendCommand` refuses to write unless the port is connected.
  `waitForResponse` collects reply bytes until the reply is complete (it
  contains `"\nok"` or ends with a newline). `parseResponse` splits a reply
  into `key:value` pairs, and `getPosition` reads X, Y and Z from the reply
  to `M114`. The controller's flags (`m_connected`, `m_hasError`) and its
  reply buffer are fields of a class.
- **Inbound line reassembly.** Both windows, `MotorControlWidget` and the
  earlier `MainWindow` kept under `backup/`, append arriving bytes to a
  buffer. They then cut complete lines off its front in place. Each line is
  trimmed, blank lines are skipped, and the rest are shown. In
  `MotorControlWidget`, each shown line is classified (ok, error, comment,
  other), and a line matching `X:<n> Y:<n> Z:<n>` moves all three last-known
  positions together.
- **Operator intent to wire text, and the mark table.** This covers:
  - `sendCustomCommand`: trim, refuse blank text, end with one newline;
  - the directional pad, where east/west and Z up/down are mirrored onto
    the machine's axes;
  - the per-axis jog with X and Z inverted;
  - home and go-to;
  - `markPosition`, which stores the axis's last position in one of three
    marks (min, mid, max) of that axis's record.

Module layout:

| File | Module | What it holds |
|---|---|---|
| `text.dfy` | `Wrappers`, `Text` | `Option`; Qt's `trimmed`, `contains`, `startsWith`, `indexOf`, `split` |
| `numbers.dfy` | `Numbers` | decimal text of reals: `arg(d, 0, 'f', 3)`, `arg(d)` and `toDouble` |
| `gcode.dfy` | `GCode` | the command record and its defaults |
| `tinybee.dfy` | `TinyBee` | the encoder, the completeness rule, the tokenizer and the controller class |
| `reassembly.dfy` | `Reassembly` | splitting a buffer at newlines, and rejoining |
| `position_line.dfy` | `PositionLine` | line classification, and the position pattern as a character-level matcher |
| `axes.dfy` | `Axes` | the mark record |
| `jog.dfy` | `Jog` | direction, jog, home and go-to texts |
| `motor_control.dfy` | `MotorControl` | the `MotorControlWidget` class |
| `backup_window.dfy` | `Backup` | the `MainWindow` class |

Modelling conventions:

- A C++ `double` is a Dafny `real`. A NaN mark is `None`.
- The serial port is modelled as follows:
  - an open flag;
  - the result of `open()` as a parameter;
  - a log of the texts handed to `write()`;
  - for `sendCommand`, a `Link` value that says whether the write and the
    flush succeed and which reply chunks arrive before the deadline.
- What a window shows in its log is the sequence of trimmed lines (with
  their classification in `MotorControlWidget`). The timestamps and HTML
  colouring are not modelled.

## Model

| member | source | states |
|---|---|---|
| TinyBee.BuildCommandString | TinybeeController.cpp:69-102 | every encoding is non-empty and ends in a newline, so the empty-string guard of sendCommand can never fire |
| TinyBee.HomeNamesNonZeroAxes | TinybeeController.cpp:75-88 | Home names axis X, Y, Z exactly when that coordinate is non-zero, and is "G28\n" exactly when all three are zero |
| TinyBee.DefaultHomeIsHomeAll | TinybeeController.h:28-34 | a Home command with the declared member defaults encodes as home-all "G28\n" |
| TinyBee.CustomCarriesTrimmedText | TinybeeController.cpp:97-98 | a Custom command's wire text trims back to its trimmed text; it is the bare "\n" exactly when the text is blank |
| TinyBee.DecodeMoveText | TinybeeController.cpp:89-94 | reading the Move text back gives x, y, z rounded to thousandths and the feed rate: G1 then X, Y, Z in fixed 3-decimal form, then F |
| TinyBee.Await | TinybeeController.cpp:158-182 | a completed wait hands back a complete reply that starts with what the buffer held before |
| TinyBee.AwaitFirstCompletion | TinybeeController.cpp:163-176 | the wait stops at the first chunk after which the buffer is complete, and hands back the whole buffer at that point |
| TinyBee.AwaitTimesOut | TinybeeController.cpp:163-181 | when no prefix of the chunks completes the buffer, the wait times out and the buffer keeps everything that arrived |
| TinyBee.PrematureCompletion | TinybeeController.cpp:170-171 | a position line that ends in a newline completes the reply before the "ok" that follows it arrives |
| TinyBee.CompletenessExamples | TinybeeController.cpp:171 | "ok" alone is incomplete, while "ok\n" and "X:1\nok" are complete |
| TinyBee.KeyValue | TinybeeController.cpp:209-215 | a token is kept exactly when its first colon is past index 0 and before the last character; key and value are the text either side of that colon |
| TinyBee.PairsKeys | TinybeeController.cpp:205-216 | a key is in the parsed hash exactly when some token carries it |
| TinyBee.PairsLastWins | TinybeeController.cpp:214 | the hash holds the value of the last token with a given key |
| TinyBee.PairsEmpty | TinybeeController.cpp:217 | the hash is empty exactly when no token is a key:value pair |
| TinyBee.PositionFrom | TinybeeController.cpp:236-245 | a position is read exactly when the values of X, Y and Z all convert to numbers (a missing key reads as empty text, which does not), so a non-numeric value fails the check at :241 |
| TinyBee.PositionFromAxes | TinybeeController.cpp:236-249 | when X, Y and Z hold numbers, the position is those three numbers |
| TinyBee.FirstPairsFirstWins | TinybeeController.cpp:220-253 | the corrected reading keeps the first value of each key |
| TinyBee.MarlinAsWrittenReadsCounts | TinybeeController.cpp:220-253 | as written, a Marlin M114 report yields the trailing step counts, not the positions (see Findings) |
| TinyBee.MarlinReadsPositions | TinybeeController.cpp:204 | the corrected reading of the same report yields the X, Y and Z positions |
| TinyBee.Reply | TinybeeController.cpp:121-152 | sendCommand succeeds exactly when the write and flush succeed and a complete reply arrives; the result is that reply trimmed |
| TinyBee.PositionQueryText | TinybeeController.cpp:223 | the position query is sent as "M114\n" |
| TinyBee.TinyBeeController.constructor | TinybeeController.h:76-77 | a new controller is disconnected, without error, with an empty buffer and nothing written |
| TinyBee.TinyBeeController.ConnectPort | TinybeeController.cpp:19-52 | success sets connected, clears the error flag and the buffer; failure sets the error flag and leaves the port closed; port name and baud rate are applied either way |
| TinyBee.TinyBeeController.DisconnectPort | TinybeeController.cpp:54-62 | the port is closed and connected is false; nothing else changes |
| TinyBee.TinyBeeController.OnReadyRead | TinybeeController.cpp:184-189 | the arriving data is appended to the reply buffer |
| TinyBee.TinyBeeController.OnErrorOccurred | TinybeeController.cpp:191-199 | any error other than NoError sets the error flag; the connection is left alone |
| TinyBee.TinyBeeController.WaitForResponse | TinybeeController.cpp:158-182 | the loop agrees with Await: on completion the reply is returned and the buffer emptied; on timeout the response is empty and the buffer keeps what arrived |
| TinyBee.TinyBeeController.SendCommand | TinybeeController.cpp:104-156 | when not connected nothing is written and the buffer is kept; otherwise the buffer is cleared, the encoded command is written once, and the response is Reply |
| TinyBee.TinyBeeController.ParseResponse | TinybeeController.cpp:201-218 | the loop fills the hash with Pairs of the space-separated tokens, and it reports true exactly when some token is a pair |
| TinyBee.TinyBeeController.GetPosition | TinybeeController.cpp:220-253 | succeeds exactly when connected, answered, and X, Y and Z of the last-wins hash decode (DecodePositionAsWritten); the position is that reading; it is left unchanged on every failure path; "M114\n" is written when the write is accepted; the reply buffer afterwards is what SendCommand leaves (cleared, or the pending text after a timeout) when connected, and untouched otherwise |
| Reassembly.SplitLinesNoNewline | MotorControlWidget.cpp:879-883 | no extracted line and no residue contains a newline |
| Reassembly.SplitLinesRejoin | MotorControlWidget.cpp:879-883 | the extracted lines, each followed by a newline, and then the residue, give back the buffered text |
| Reassembly.SplitJoinedLines | MotorControlWidget.cpp:879-883 | the split is the only one with that property: splitting joined newline-free lines plus a newline-free residue returns them |
| Reassembly.ChunkBoundaryInvisible | MotorControlWidget.cpp:875-883 | splitting text that arrived in two reads gives the same lines and residue as splitting it all at once |
| Reassembly.SplitLinesExample | MotorControlWidget.cpp:879-887 | "ok\n\nX:1" splits into "ok", an empty line and the residue "X:1" |
| PositionLine.ClassifyError | MotorControlWidget.cpp:893-900 | a line is an error line exactly when it is not an ok line and contains "error" or "Error" |
| PositionLine.SearchKeys | MotorControlWidget.cpp:913-917 | a pattern match implies the line contains "X:", "Y:" and "Z:", so the contains pre-check never rejects a match |
| PositionLine.SearchLeftmost | MotorControlWidget.cpp:915-916 | the match found is the leftmost one |
| PositionLine.SearchNone | MotorControlWidget.cpp:915-916 | when there is no match, no position in the line starts one |
| PositionLine.SearchNumeric | MotorControlWidget.cpp:915 | each captured group is a signed decimal |
| PositionLine.PositionUpdateIsMatch | MotorControlWidget.cpp:913-921 | a position update happens exactly when the pattern matches, and it is the three captures read as numbers |
| PositionLine.ReadsReport | MotorControlWidget.cpp:913-921 | a report "X:<x> Y:<y> Z:<z>" in fixed 3-decimal form is read back as the three values rounded to thousandths |
| Axes.Mark | MotorControlWidget.cpp:797-823 | a mark button stores the value in its own field; other fields are unchanged, and another sender changes nothing |
| Axes.MarkOverwrites | MotorControlWidget.cpp:797-823 | marking a field twice keeps the later value; marks of different fields commute |
| Jog.GestureDelta | MotorControlWidget.cpp:511-534 | each jog lambda moves one step along its heading, with east and up mirrored onto -X and -Z |
| Jog.GestureArgs | MotorControlWidget.cpp:511-534 | the axis words a lambda writes are exactly the axes its heading moves, in X, Y, Z order, with the mirrored signs |
| Jog.DirectionalAgreesWithGestures | MotorControlWidget.cpp:711-744 | for every compass button, directionalClicked moves as the matching jog lambda does at a 10 mm step |
| Jog.JogTarget | MotorControlWidget.cpp:763-773 | the target is curr + step exactly when plus was pressed on y, or minus on x or z; otherwise curr - step |
| MotorControl.CustomWire | MotorControlWidget.cpp:593-604 | blank text is refused; otherwise the wire text is the trimmed command followed by one newline: everything before the final newline is the trimmed command, which neither starts nor ends with white space (so no second newline precedes it) |
| MotorControl.CustomWireIdempotent | MotorControlWidget.cpp:593-604 | normalising an already-normalised command changes nothing |
| MotorControl.SendsPlain | MotorControlWidget.cpp:584-606 | a command without outer white space is sent as itself plus one newline when connected, and nothing is sent otherwise |
| MotorControl.DirectionalWire | MotorControlWidget.cpp:711-744 | directionalClicked's text goes out unchanged plus one newline when connected |
| MotorControl.GestureWire | MotorControlWidget.cpp:511-534 | a jog lambda's three-line text goes out unchanged plus one newline when connected |
| MotorControl.MoveWire | MotorControlWidget.cpp:757-787 | an axis move goes out unchanged plus one newline when connected |
| MotorControl.Shown | MotorControlWidget.cpp:885-910 | every shown entry is a non-empty trimmed line |
| MotorControl.TrackFromReports | MotorControlWidget.cpp:913-922 | after any run of lines the last-known position is the old one or the reading of one of those lines |
| MotorControl.ShownAppend | MotorControlWidget.cpp:879-910 | the log of lines read in two runs is the two logs one after the other |
| MotorControl.TrackAppend | MotorControlWidget.cpp:913-922 | the position after two runs of lines is the second run applied to the position after the first |
| MotorControl.BlankLineIgnored | MotorControlWidget.cpp:885-887 | a blank line adds no log entry and does not move the position |
| MotorControl.ReadInTwoChunks | MotorControlWidget.cpp:873-945 | data that arrives in two reads leaves the same buffer, log and position as the same data in one read |
| MotorControl.MarkPositionWritesOneField | MotorControlWidget.cpp:789-831 | pressing a mark button on axis a stores a's last position in that one field; every other field of every axis is unchanged |
| MotorControl.MarkPositionIgnores | MotorControlWidget.cpp:861-871 | an unknown axis name or an unknown sender changes no mark |
| MotorControl.MotorControlWidget.constructor | MotorControlWidget.h:101-107 | a new widget is disconnected, with an empty buffer, last positions 0.0 and all marks unset |
| MotorControl.MotorControlWidget.SendCustomCommand | MotorControlWidget.cpp:584-614 | the write log grows by exactly Sends: nothing when not connected or blank, else the normalised command |
| MotorControl.MotorControlWidget.ConnectPort | MotorControlWidget.cpp:631-678 | "No ports available" or an empty selection changes nothing; otherwise the first word is the port name, the baud rate is 115200, and only a successful open sets connected and starts polling |
| MotorControl.MotorControlWidget.DisconnectPort | MotorControlWidget.cpp:680-703 | the port is closed, connected is false and polling stops |
| MotorControl.MotorControlWidget.EmergencyStop | MotorControlWidget.cpp:833-840 | "M112\n" is written exactly when connected |
| MotorControl.MotorControlWidget.ConnectClicked | MotorControlWidget.cpp:189-190 | Connect is wired in setupUI (:487) and again in the constructor, so a click runs connectPort twice: the port state is that of the second open, and connected/polling hold if either open succeeded |
| MotorControl.MotorControlWidget.DisconnectClicked | MotorControlWidget.cpp:191 | the doubly wired Disconnect leaves the port closed, disconnected and not polling |
| MotorControl.MotorControlWidget.EstopClicked | MotorControlWidget.cpp:192 | the doubly wired E-STOP writes "M112\n" twice when connected and nothing otherwise |
| MotorControl.MotorControlWidget.SendClicked | MotorControlWidget.cpp:193-197 | Send or Return runs setupUI's handler (:491-504) and then the constructor's (or onCommandInputReturnPressed, :855-859): the command is written once by sendCustomCommand's rule, and the box ends empty |
| MotorControl.MotorControlWidget.UpdatePositionPoll | MotorControlWidget.cpp:842-848 | "M114\n" is written exactly when connected |
| MotorControl.MotorControlWidget.HomeAll | MotorControlWidget.cpp:506-507 | "G28\n" is written exactly when connected |
| MotorControl.MotorControlWidget.Jog | MotorControlWidget.cpp:511-534 | the lambda's text plus one newline is written exactly when connected |
| MotorControl.MotorControlWidget.DirectionalClicked | MotorControlWidget.cpp:711-744 | "G28\n" for Home, else the signed planar move, is written exactly when connected; no button of the widget is connected to this slot, so the widget's pad is what Jog models |
| MotorControl.MotorControlWidget.AxisHome | MotorControlWidget.cpp:747-755 | "G28 <AXIS>" goes out through sendCustomCommand |
| MotorControl.MotorControlWidget.AxisMoveStep | MotorControlWidget.cpp:757-776 | a move of the axis to JogTarget at 3000 mm/min is written exactly when connected |
| MotorControl.MotorControlWidget.AxisGoTo | MotorControlWidget.cpp:778-787 | a move of the axis to the given position at 3000 mm/min is written exactly when connected |
| MotorControl.MotorControlWidget.MarkPosition | MotorControlWidget.cpp:789-831 | the mark table changes as MarkAxis says, using the current last positions |
| MotorControl.MotorControlWidget.HandleSerialRead | MotorControlWidget.cpp:873-945 | afterwards the buffer is the newline-free residue of old buffer plus data; the log gains one classified entry per non-blank extracted line; the position is Track over those lines |
| MotorControl.MotorControlWidget.CutFirstLine | MotorControlWidget.cpp:879-887 | one turn of the loop cuts the first complete line off the buffer and keeps the loop invariant: lines done, rejoined, plus the buffer are the original text, and log and position follow the lines done |
| MotorControl.MotorControlWidget.TakeLine | MotorControlWidget.cpp:885-922 | one trimmed line adds its log entry and applies its position update |
| MotorControl.MotorControlWidget.HandleSerialReadyRead | MotorControlWidget.cpp:850-853 | a read event processes the new data as HandleSerialRead does |
| Backup.Logged | backup/mainwindow.cpp:425-430 | every logged line is non-empty and trimmed |
| Backup.LoggedMatchesShown | backup/mainwindow.cpp:412-432 | the backup logs the same line texts as MotorControlWidget shows for the same input |
| Backup.BackupMarkWritesOneField | backup/mainwindow.cpp:348-383 | a mark button on any panel (named "X", "Y" or "Z") writes lastPosZ into that one field of that panel's record; nothing else changes |
| Backup.BackupMarkIgnoresOtherSender | backup/mainwindow.cpp:360-374 | another sender changes no mark |
| Backup.BackupUnknownAxisMarksZ | backup/mainwindow.cpp:403-410 | any name other than x/X/y/Y falls back to the Z record and writes lastPosZ |
| Backup.MainWindow.constructor | backup/mainwindow.cpp:85-101 | a new window is disconnected, with an empty buffer, last positions 0.0 and all marks unset |
| Backup.MainWindow.ConnectPort | backup/mainwindow.cpp:231-259 | an empty port name changes nothing; otherwise the name and 115200 baud are applied, and only a successful open sets connected and starts polling |
| Backup.MainWindow.DisconnectPort | backup/mainwindow.cpp:261-272 | the port is closed, connected is false and polling stops |
| Backup.MainWindow.DirectionalClicked | backup/mainwindow.cpp:279-310 | when connected, "G28\n" for Home or the signed planar move is written; when not connected nothing is |
| Backup.MainWindow.AxisHome | backup/mainwindow.cpp:312-319 | "G28 <AXIS>\n" is written, with no connection check |
| Backup.MainWindow.AxisMoveStep | backup/mainwindow.cpp:321-337 | the move to JogTarget (same X/Z inversion) is written, with no connection check |
| Backup.MainWindow.AxisGoTo | backup/mainwindow.cpp:339-346 | the move to the given position is written, with no connection check |
| Backup.MainWindow.MarkPosition | backup/mainwindow.cpp:348-383 | the mark table changes as BackupMarkAxis says |
| Backup.MainWindow.EmergencyStop | backup/mainwindow.cpp:385-389 | "M112\n" is always written |
| Backup.MainWindow.UpdatePositionPoll | backup/mainwindow.cpp:391-395 | "M114\n" is written exactly when the port is open |
| Backup.MainWindow.HandleSerialReadyRead | backup/mainwindow.cpp:397-401 | the data is only appended to the buffer; no line is taken |
| Backup.MainWindow.HandleSerialRead | backup/mainwindow.cpp:412-432 | afterwards the buffer is the newline-free residue of old buffer plus data, and the log gains every non-blank extracted line, trimmed |
| Backup.MainWindow.ReadyRead | backup/mainwindow.cpp:240 | a read event that reaches both connected slots appends and then splits, as HandleSerialRead on the new data does |
| Backup.ExtraPassIdle | backup/mainwindow.cpp:412-432 | a second pass of handleSerialRead over what a pass leaves finds no line and logs nothing |

## Left out

- `connectToPort`, `disconnectFromPort`, `showWidget`, `hideWidget`, `refreshPorts` and `updateStatus` are not modelled: they pick a combo-box entry, show or hide the window, list the system's ports or write status text. Port choice is a parameter of ConnectPort instead.
- MotorControlWidget's constructor (MotorControlWidget.cpp:189-197) connects Refresh, Connect, Disconnect, E-STOP, Send and Return a second time, after setupUI has already connected them (:487-504). ConnectClicked, DisconnectClicked, EstopClicked and SendClicked model one click: they run both slots in connection order. ConnectPort, DisconnectPort, EmergencyStop and SendCustomCommand each stand for a single run of one slot. The doubled Refresh is not modelled, because refreshPorts is not.
- The destructor, `setupUI`/`buildUI`, the `AxisControlWidget` constructor, `setPosition`, `setEnabledAll`, button enable states, labels and message boxes are not modelled, because they are presentation only.
- Signals (`emit`), `qInfo`/`qWarning`/`qCritical`, timestamps and HTML colours are not modelled. The log holds the trimmed line text (and its class in MotorControlWidget).
- Serial I/O is not modelled beyond the open flag, the result of `open()` and the write log. `readAll` is the `data` parameter of each read handler.
- The deadline of `waitForResponse` is not modelled as time: the chunks that arrive before it are a parameter. `timeoutMs` (default 2000) is therefore absent. The null `response` pointer only decides whether the caller sees the reply, so SendCommand always returns it.
- The 750 ms poll timer is a `polling` flag.
- `m_mutex` and the re-entrancy between `onReadyRead` and `waitForResponse` are not modelled. The model is sequential.
- In backup/mainwindow.cpp:240, `connectPort` connects `readyRead` to `handleSerialRead` again on every connect. The model does not count the connections. ReadyRead models one read event reaching both slots, and ExtraPassIdle shows that further passes do nothing.
- Floating point is not modelled. Doubles are exact reals:
  - `arg(d, 0, 'f', 3)` rounds half away from zero to thousandths;
  - `arg(d)` (Qt's `%g`) is modelled as the same rounding with trailing zeros dropped, so values needing more than three decimals or exponent notation are not rendered as Qt would;
  - `toDouble` accepts a plain signed decimal after trimming, so exponents, `inf` and `nan` are not accepted.
- The position pattern is modelled as a character-level matcher. White space (`\s`) is the ASCII white-space set, and Unicode spaces are not covered.
- `trimmed`, `toUpper` and `toLower` are modelled on ASCII only. IsSpace, and therefore Trim, TrimStart and TrimEnd, knows the ASCII white-space characters. Qt also strips Unicode spaces such as U+0085, U+00A0, U+2000-U+200A and U+3000. ToUpper and ToLower map only `a`-`z` and `A`-`Z`, where Qt maps all Unicode letters.
- Text is `seq<char>`. UTF-8 decoding of bytes (`fromUtf8`/`toUtf8`) is the identity.
- Null-sender checks (`qobject_cast` returning null) are not modelled: the sender is either a mark button or OtherSender.
- MotorControl.MotorControlWidget.HandleSerialRead: the loop guard `buffer.contains('\n')` is written as `IndexOf(buffer, '\n') != -1`, which IndexOf's contract makes equivalent. One turn of the loop is the method CutFirstLine, and the per-line work is the method TakeLine.
- MotorControl.MotorControlWidget.AxisHome: the written text is stated through Sends (sendCustomCommand's rule) rather than as a literal, because the axis name is arbitrary text.
- `GCodeCommand.motorIndex` is carried but never read, as in the source.
- ExampleIntegration.cpp/.h and main.cpp are not part of this model.

## Findings

| source | as written | input that shows it | evidently intended | confidence | as-written member | corrected member |
|---|---|---|---|---|---|---|
| TinybeeController.cpp:220-253 with :201-218 | getPosition reads X, Y and Z from the hash that parseResponse fills, and a later key replaces an earlier one. So from a Marlin M114 report it reads the trailing step counts. | "X:10.00 Y:15.00 Z:5.00 E:0.00 Count X:1000 Y:1500 Z:500", the example in the source's own comment at :204, gives (1000, 1500, 500) | the positions (10, 15, 5), i.e. the first X/Y/Z of the report | not executed | TinyBee.MarlinAsWrittenReadsCounts | TinyBee.MarlinReadsPositions |

TinyBee.TinyBeeController.GetPosition models getPosition as written, reading
through TinyBee.DecodePositionAsWritten. The corrected reading,
TinyBee.DecodePosition, keeps the first value of each key, and
MarlinReadsPositions states what it yields.

A blank Custom command encodes as `"\n"`, which passes the empty check at
TinybeeController.cpp:115 (CustomCarriesTrimmedText).
