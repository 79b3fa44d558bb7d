/**
 * The data the TinyBee controller works with: the kinds of G-code command,
 * the command record with its member defaults, a motor position, and the
 * default serial settings.
 */
module GCode {

  /** The five kinds of command the controller knows how to encode. */
  datatype CommandType = FirmwareInfo | Home | Move | EmergencyStop | Custom

  /**
   * One command. Home uses x, y and z only as "is this axis non-zero",
   * Move uses all four numbers, Custom uses customCommand.
   */
  datatype GCodeCommand = GCodeCommand(
    kind: CommandType,
    motorIndex: int,
    x: real, y: real, z: real,
    feedrate: int,
    customCommand: string)

  /** A command of the given kind with every other member at its declared default. */
  function DefaultCommand(kind: CommandType): GCodeCommand {
    GCodeCommand(kind, -1, 0.0, 0.0, 0.0, 1000, "")
  }

  /** A custom command with the given text, other members at their defaults. */
  function CustomCommand(text: string): GCodeCommand {
    DefaultCommand(Custom).(customCommand := text)
  }

  /** A position of the three axes, in millimetres. */
  datatype MotorPosition = MotorPosition(x: real, y: real, z: real)

  /** The default-constructed position. */
  const Origin := MotorPosition(0.0, 0.0, 0.0)

  /** Baud rate connectPort uses when the caller gives none. */
  const DefaultBaudRate := 115200

  /** Milliseconds sendCommand and getPosition wait when the caller gives no timeout. */
  const DefaultTimeoutMs := 2000
}
