/** Named keys: the parser reads the usual terminal encoding of every key back as that key. */
module NamedKeys {
  import opened Common
  import opened InputEvents
  import opened ParserSpec
  import opened NumericFields
  import opened TypedText
  import Utf8

  /** Modifier parameters of xterm: one plus shift 1, alt 2 and control 4. */
  predicate MeansAlt(modifier: nat) { modifier == 3 || modifier == 4 || modifier == 7 || modifier == 8 }

  /** Final byte of the keys sent as ESC [ final. */
  function FinalOf(kind: KeyKind): Option<byte> {
    match kind
    case Arrow(Up) => Some(0x41)
    case Arrow(Down) => Some(0x42)
    case Arrow(Right) => Some(0x43)
    case Arrow(Left) => Some(0x44)
    case Nav(Home) => Some(0x48)
    case Nav(End) => Some(0x46)
    case _ => None
  }

  /** Number of the keys sent as ESC [ number ~. */
  function NumberOf(kind: KeyKind): Option<nat> {
    match kind
    case Nav(Insert) => Some(2)
    case Nav(Delete) => Some(3)
    case Nav(PageUp) => Some(5)
    case Nav(PageDown) => Some(6)
    case Function(n) =>
      if n == 5 then Some(15)
      else if 6 <= n <= 10 then Some(n + 11)
      else if 11 <= n <= 12 then Some(n + 12)
      else None
    case _ => None
  }

  function Number(n: nat): (digits: seq<byte>)
    requires n < 100
    ensures digits != [] && AllDigits(digits)
  {
    if n < 10 then [0x30 + n] else [0x30 + n / 10, 0x30 + n % 10]
  }

  lemma OneDigit(d: nat)
    requires d < 10
    ensures AllDigits([0x30 + d]) && DecimalValue([0x30 + d]) == d
  {
    var ds: seq<byte> := [0x30 + d];
    assert ds[..0] == [];
  }

  lemma NumberValue(n: nat)
    requires n < 100
    ensures DecimalValue(Number(n)) == n
  {
    OneDigit(n % 10);
    if n >= 10 {
      OneDigit(n / 10);
      assert Number(n)[..1] == [0x30 + n / 10];
    }
  }

  function KeySequence(fields: seq<seq<byte>>, final: byte): seq<byte>
    requires fields != []
  {
    [ESC, 0x5b] + Join(fields) + [final]
  }

  lemma TwoFields(first: nat, second: nat)
    requires first < 100 && second < 100
    ensures var fields := [Number(first), Number(second)];
      && AllDigitFields(fields) && Join(fields) != []
      && CappedValues(fields) == [first, second] && DecimalValue(fields[0]) == first
  {
    NumberValue(first);
    NumberValue(second);
    var fields := [Number(first), Number(second)];
    assert fields[..1] == [Number(first)];
    assert CappedValues(fields)[0] == first && CappedValues(fields)[1] == second;
  }

  lemma OneField(n: nat)
    requires n < 100
    ensures var fields := [Number(n)];
      AllDigitFields(fields) && Join(fields) != [] && CappedValues(fields) == [n] && DecimalValue(fields[0]) == n
  {
    NumberValue(n);
    assert CappedValues([Number(n)])[0] == n;
  }

  lemma ModifierWraps(base: KeyKind, modifier: u16)
    requires 1 <= modifier <= 8
    ensures WrapModifier(base, modifier) == if MeansAlt(modifier) then Alt(base) else base
  {
  }

  /** Arrow, Home and End with any xterm modifier: wrapped in Alt exactly when the modifier has it. */
  lemma CursorKeyRoundTrip(kind: KeyKind, modifier: nat)
    requires FinalOf(kind).Some? && 1 <= modifier <= 8
    ensures var sequence := KeySequence([Number(1), Number(modifier)], FinalOf(kind).value);
      Run(FRESH, sequence) == Emit(sequence, if MeansAlt(modifier) then Alt(kind) else kind)
  {
    hide Run, Number, Join, CappedValues;
    TwoFields(1, modifier);
    FinalByteSequence([Number(1), Number(modifier)], FinalOf(kind).value);
    ModifierWraps(kind, modifier);
    FinalIsCursorKey(kind);
  }

  lemma FinalIsCursorKey(kind: KeyKind)
    requires FinalOf(kind).Some?
    ensures CursorKey(FinalOf(kind).value) == Some(kind) && 0x40 <= FinalOf(kind).value < TILDE
  {
  }

  /** The same keys without parameters, after ESC [ and after ESC O. */
  lemma PlainCursorKeyRoundTrip(kind: KeyKind)
    requires FinalOf(kind).Some?
    ensures Run(FRESH, [ESC, 0x5b, FinalOf(kind).value]) == Emit([ESC, 0x5b, FinalOf(kind).value], kind)
    ensures Run(FRESH, [ESC, 0x4f, FinalOf(kind).value]) == Emit([ESC, 0x4f, FinalOf(kind).value], kind)
  {
    hide Run;
    FinalIsCursorKey(kind);
    EntryByte(FinalOf(kind).value);
    Ss3Byte(FinalOf(kind).value);
    assert [ESC, 0x5b] + [FinalOf(kind).value] == [ESC, 0x5b, FinalOf(kind).value];
  }

  lemma EntryByte(b: byte)
    ensures Run(FRESH, [ESC, 0x5b, b]) == StepCsiEntry([ESC, 0x5b], b)
  {
    hide StepCsiEntry;
    Introducer();
    RunStep([ESC, 0x5b], Parser(CsiEntry, [ESC, 0x5b]), b);
    assert [ESC, 0x5b] + [b] == [ESC, 0x5b, b];
  }

  lemma Ss3Byte(b: byte)
    ensures Run(FRESH, [ESC, 0x4f, b]) == Emit([ESC, 0x4f, b], Ss3Key(b))
  {
    hide Ss3Key;
    EscByte(0x4f);
    RunStep([ESC, 0x4f], Parser(Ss3Pending, [ESC, 0x4f]), b);
    assert [ESC, 0x4f] + [b] == [ESC, 0x4f, b];
  }

  lemma EscByte(b: byte)
    ensures Run(FRESH, [ESC, b]) == StepEsc([ESC], b)
  {
    hide StepEsc;
    OneByteRun(ESC);
    RunStep([ESC], Parser(EscReceived, [ESC]), b);
    assert [ESC] + [b] == [ESC, b];
  }

  /** Insert, Delete, the page keys and F5 to F12, with any xterm modifier and without one. */
  lemma NumberedKeyRoundTrip(kind: KeyKind, modifier: nat)
    requires NumberOf(kind).Some? && 1 <= modifier <= 8
    ensures NumberOf(kind).value < 100
    ensures var plain := KeySequence([Number(NumberOf(kind).value)], TILDE);
      Run(FRESH, plain) == Emit(plain, kind)
    ensures var sequence := KeySequence([Number(NumberOf(kind).value), Number(modifier)], TILDE);
      Run(FRESH, sequence) == Emit(sequence, if MeansAlt(modifier) then Alt(kind) else kind)
  {
    hide Run, Number, Join, CappedValues;
    var n := NumberOf(kind).value;
    OneField(n);
    TwoFields(n, modifier);
    TildeSequence([Number(n)]);
    TildeSequence([Number(n), Number(modifier)]);
    ModifierWraps(kind, modifier);
    NumberIsTildeKey(kind, [n]);
    NumberIsTildeKey(kind, [n, modifier]);
  }

  lemma NumberIsTildeKey(kind: KeyKind, params: seq<u16>)
    requires NumberOf(kind).Some? && params != [] && params[0] == NumberOf(kind).value
    ensures ClassifyTilde(params) == WithModifier(kind, params) && NumberOf(kind).value < 100
  {
  }

  /** F1 to F4. */
  lemma FunctionKeyRoundTrip(n: nat)
    requires 1 <= n <= 4
    ensures Run(FRESH, [ESC, 0x4f, 0x4f + n]) == Emit([ESC, 0x4f, 0x4f + n], Function(n))
  {
    hide Run;
    Ss3Byte(0x4f + n);
  }

  /** A control key is its letter modulo 32; Ctrl+I and Ctrl+M are Tab and Enter. */
  lemma ControlKeyRoundTrip(letter: scalar)
    requires 0x61 <= letter <= 0x7a
    ensures Run(FRESH, [letter - 0x60]) == Emit([letter - 0x60],
      if letter == 0x69 then Tab else if letter == 0x6d then Enter else Control(letter))
    ensures Run(FRESH, [ESC, letter - 0x60]) == Emit([ESC, letter - 0x60], Alt(Control(letter)))
  {
    hide Run;
    var b: byte := letter - 0x60;
    OneByteRun(b);
    EscByte(b);
    assert [ESC] + [b] == [ESC, b];
  }

  /** Backspace and Alt+Backspace; a lone escape byte becomes Escape at the timeout. */
  lemma EditingKeys()
    ensures Run(FRESH, [0x7f]) == Emit([0x7f], Backspace)
    ensures Run(FRESH, [ESC, 0x7f]) == Emit([ESC, 0x7f], Alt(Backspace))
    ensures Run(FRESH, [ESC]) == Outcome(Parser(EscReceived, [ESC]), [])
    ensures Flush(Run(FRESH, [ESC]).next) == Emit([ESC], Escape)
  {
    hide Run;
    OneByteRun(0x7f);
    OneByteRun(ESC);
    EscByte(0x7f);
    assert [ESC] + [0x7f] == [ESC, 0x7f];
  }

  /** Alt with a printable character reads back exactly when the character does not itself open a
      longer sequence: ESC [ and ESC O stay pending. */
  lemma AltCharacterRoundTrip(c: scalar)
    requires 0x20 <= c <= 0x7e
    ensures Run(FRESH, [ESC, c]) == Emit([ESC, c], Alt(Char(c))) <==> c != 0x5b && c != 0x4f
  {
    hide Run;
    EscByte(c);
    assert [ESC] + [c] == [ESC, c];
  }
}
