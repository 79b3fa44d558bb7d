/**
 * Operator intent to G-code text: the directional pad, the per-axis jog,
 * home and go-to buttons. The machine's X and Z axes run opposite to the
 * operator's east and up, so those two are mirrored everywhere.
 */
module Jog {
  import opened Text
  import opened Numbers

  /** The eight compass buttons of the directional pad. */
  datatype Compass = North | NorthEast | East | SouthEast | South | SouthWest | West | NorthWest

  /** A jog button wired to its own lambda: a compass button, Z+ or Z-. */
  datatype Gesture = Planar(dir: Compass) | ZUp | ZDown

  /** A direction in the operator's frame: each component is -1, 0 or 1. */
  datatype Heading = Heading(east: int, north: int, up: int)

  function HeadingOf(g: Gesture): Heading {
    match g
    case Planar(North) => Heading(0, 1, 0)
    case Planar(NorthEast) => Heading(1, 1, 0)
    case Planar(East) => Heading(1, 0, 0)
    case Planar(SouthEast) => Heading(1, -1, 0)
    case Planar(South) => Heading(0, -1, 0)
    case Planar(SouthWest) => Heading(-1, -1, 0)
    case Planar(West) => Heading(-1, 0, 0)
    case Planar(NorthWest) => Heading(-1, 1, 0)
    case ZUp => Heading(0, 0, 1)
    case ZDown => Heading(0, 0, -1)
  }

  /** A relative machine move. */
  datatype Delta = Delta(dx: real, dy: real, dz: real)

  /**
   * The move a jog lambda asks for, one signed step per axis it names:
   * the operator's heading with east and up mirrored onto -X and -Z.
   */
  function GestureDelta(g: Gesture, step: real): (d: Delta)
    ensures var h := HeadingOf(g);
            d == Delta(-(h.east as real) * step, h.north as real * step, -(h.up as real) * step)
  {
    match g
    case Planar(North) => Delta(0.0, step, 0.0)
    case Planar(NorthEast) => Delta(-step, step, 0.0)
    case Planar(East) => Delta(-step, 0.0, 0.0)
    case Planar(SouthEast) => Delta(-step, -step, 0.0)
    case Planar(South) => Delta(0.0, -step, 0.0)
    case Planar(SouthWest) => Delta(step, -step, 0.0)
    case Planar(West) => Delta(step, 0.0, 0.0)
    case Planar(NorthWest) => Delta(step, step, 0.0)
    case ZUp => Delta(0.0, 0.0, -step)
    case ZDown => Delta(0.0, 0.0, step)
  }

  /** The axes a move names, in X, Y, Z order, each with its signed distance. */
  function MovedAxes(d: Delta, h: Heading): seq<(char, real)> {
    (if h.east != 0 then [('X', d.dx)] else [])
      + (if h.north != 0 then [('Y', d.dy)] else [])
      + (if h.up != 0 then [('Z', d.dz)] else [])
  }

  /**
   * The axis arguments a jog lambda formats, with the signs the lambda
   * writes: they are exactly the axes its heading moves, each carrying the
   * mirrored move.
   */
  function GestureArgs(g: Gesture, step: real): (r: seq<(char, real)>)
    ensures r == MovedAxes(GestureDelta(g, step), HeadingOf(g))
  {
    match g
    case Planar(North) => [('Y', step)]
    case Planar(South) => [('Y', -step)]
    case Planar(East) => [('X', -step)]
    case Planar(West) => [('X', step)]
    case Planar(NorthEast) => [('X', -step), ('Y', step)]
    case Planar(NorthWest) => [('X', step), ('Y', step)]
    case Planar(SouthEast) => [('X', -step), ('Y', -step)]
    case Planar(SouthWest) => [('X', step), ('Y', -step)]
    case ZUp => [('Z', -step)]
    case ZDown => [('Z', step)]
  }

  /** Axis words: each letter followed by its value as arg(double) writes it, one space apart. */
  function AxisWords(args: seq<(char, real)>): string {
    if args == [] then []
    else if |args| == 1 then [args[0].0] + Shortest(args[0].1)
    else [args[0].0] + Shortest(args[0].1) + [' '] + AxisWords(args[1..])
  }

  /**
   * The text a jog lambda hands to sendCustomCommand: relative mode, one G1
   * at 1000 mm/min with its axis words, then back to absolute mode.
   */
  function GestureText(g: Gesture, step: real): string {
    "G91\nG1 " + AxisWords(GestureArgs(g, step)) + " F1000\nG90"
  }

  /** The button text of a compass button. */
  function Label(d: Compass): string {
    match d
    case North => "N"
    case NorthEast => "NE"
    case East => "E"
    case SouthEast => "SE"
    case South => "S"
    case SouthWest => "SW"
    case West => "W"
    case NorthWest => "NW"
  }

  /** The step directionalClicked moves by. */
  const PadStep := 10.0

  /**
   * directionalClicked's move for a button text: N adds a step to Y, S takes
   * one away, E takes one from X and W adds one.
   */
  function DirectionalDelta(buttonText: string): Delta {
    var dy := (if Contains(buttonText, "N") then PadStep else 0.0) - (if Contains(buttonText, "S") then PadStep else 0.0);
    var dx := (if Contains(buttonText, "W") then PadStep else 0.0) - (if Contains(buttonText, "E") then PadStep else 0.0);
    Delta(dx, dy, 0.0)
  }

  /** What directionalClicked asks for: home all on "Home", else the planar move at 3000 mm/min. */
  function DirectionalText(buttonText: string): string {
    if buttonText == "Home" then "G28"
    else
      var d := DirectionalDelta(buttonText);
      "G1 X" + Shortest(d.dx) + " Y" + Shortest(d.dy) + " F3000"
  }

  /** The generic handler and the per-button lambdas move the same way for every compass button. */
  lemma DirectionalAgreesWithGestures(d: Compass)
    ensures DirectionalDelta(Label(d)) == GestureDelta(Planar(d), PadStep)
  {
    var l := Label(d);
    ContainsChar(l, 'N');
    ContainsChar(l, 'S');
    ContainsChar(l, 'E');
    ContainsChar(l, 'W');
  }

  /** Axes whose jog buttons are inverted: x and z, in either case. */
  predicate InvertedAxis(axisName: string) {
    ToLower(axisName) == "x" || ToLower(axisName) == "z"
  }

  /**
   * axisMoveStep's target: a step up from the current value exactly when the
   * plus button was pressed on a plain axis or the minus button on an
   * inverted one.
   */
  function JogTarget(axisName: string, minusPressed: bool, curr: real, step: real): (r: real)
    ensures r == if minusPressed == InvertedAxis(axisName) then curr + step else curr - step
  {
    var minus := if InvertedAxis(axisName) then !minusPressed else minusPressed;
    curr + (if minus then -step else step)
  }

  /** axisMoveStep's and axisGoTo's move of one axis to pos at 3000 mm/min. */
  function MoveAxisText(axisName: string, pos: real): string {
    "G1 " + ToUpper(axisName) + Shortest(pos) + " F3000"
  }

  /** axisHome's text. */
  function HomeAxisText(axisName: string): string {
    "G28 " + ToUpper(axisName)
  }
}
