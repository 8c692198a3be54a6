/** Terminal input events (crates/term_input/src/event.rs). */
module InputEvents {
  import opened Common

  /** A Unicode scalar value, by code point. */
  type scalar = c: int | 0 <= c < 0xD800 || 0xE000 <= c < 0x11_0000

  datatype Direction = Up | Down | Right | Left
  datatype NavKey = Home | End | Insert | Delete | PageUp | PageDown
  datatype MouseButton = LeftButton | MiddleButton | RightButton

  datatype KeyKind =
    | Char(c: scalar)
    | Control(letter: scalar)
    | Escape
    | Enter
    | Tab
    | Backspace
    | Arrow(direction: Direction)
    | Nav(key: NavKey)
    | Function(number: nat)
    | Alt(inner: KeyKind)
    | Unknown

  datatype MouseEvent =
    | ButtonDown(button: MouseButton, col: u16, row: u16)
    | ButtonUp(col: u16, row: u16)
    | Drag(button: MouseButton, col: u16, row: u16)
    | Move(col: u16, row: u16)
    | ScrollUp(col: u16, row: u16)
    | ScrollDown(col: u16, row: u16)

  /** A key carries its raw bytes; a paste carries the bytes between the two markers. */
  datatype InputEvent =
    | Key(raw: seq<byte>, kind: KeyKind)
    | Mouse(mouse: MouseEvent)
    | Paste(body: seq<byte>)

  function ButtonIndex(button: MouseButton): byte {
    match button
    case LeftButton => 0
    case MiddleButton => 1
    case RightButton => 2
  }

  function ButtonCode(e: MouseEvent): (code: byte)
    ensures code <= 65
  {
    match e
    case ButtonDown(button, _, _) => ButtonIndex(button)
    case ButtonUp(_, _) => 3
    case Drag(button, _, _) => 32 + ButtonIndex(button)
    case Move(_, _) => 35
    case ScrollUp(_, _) => 64
    case ScrollDown(_, _) => 65
  }

  /** X10 report: ESC [ M and three bytes. The sums are taken in u16 and then cut to a byte. */
  function ToX10Bytes(e: MouseEvent): seq<byte> {
    [0x1b, 0x5b, 0x4d, ButtonCode(e) + 32,
     (e.col + 33) % 0x1_0000 % 0x100, (e.row + 33) % 0x1_0000 % 0x100]
  }
}
