/** Mouse reports: X10 printing is undone by parsing, and SGR reports decode from plain decimals. */
module MouseReports {
  import opened Common
  import opened InputEvents
  import opened ParserSpec
  import opened NumericFields

  function AtPosition(e: MouseEvent, col: u16, row: u16): MouseEvent {
    e.(col := col, row := row)
  }

  lemma X10Run(button: byte, col: byte, row: byte)
    ensures Run(FRESH, [ESC, 0x5b, 0x4d, button, col, row]) == Outcome(FRESH, [Mouse(DecodeX10(
      (button as int - 32) % 0x100, (col as int - 33) % 0x100, (row as int - 33) % 0x100))])
  {
    hide Step, WellFormed, DecodeX10;
    var intro: seq<byte> := [ESC, 0x5b, 0x4d];
    Introducer();
    X10Silent(intro, 0, button);
    X10Silent(intro + [button], 1, col);
    var p := Parser(MouseX10(2), intro + [button] + [col]);
    RunStep(p.buf, p, row);
    X10Last(intro, button, col, row);
    assert p.buf + [row] == [ESC, 0x5b, 0x4d, button, col, row];
  }

  lemma X10Last(intro: seq<byte>, button: byte, col: byte, row: byte)
    requires intro == [ESC, 0x5b, 0x4d]
    requires WellFormed(Parser(MouseX10(2), intro + [button] + [col]))
    ensures Step(Parser(MouseX10(2), intro + [button] + [col]), row) == Outcome(FRESH, [Mouse(DecodeX10(
      (button as int - 32) % 0x100, (col as int - 33) % 0x100, (row as int - 33) % 0x100))])
  {
    hide DecodeX10;
  }

  lemma X10Silent(data: seq<byte>, count: nat, b: byte)
    requires count <= 1 && Run(FRESH, data) == Outcome(Parser(MouseX10(count), data), [])
    ensures Run(FRESH, data + [b]) == Outcome(Parser(MouseX10(count + 1), data + [b]), [])
  {
    RunStep(data, Parser(MouseX10(count), data), b);
  }

  lemma X10Code(e: MouseEvent, col: u16, row: u16)
    ensures DecodeX10(ButtonCode(e), col, row) == AtPosition(e, col, row)
  {
  }

  /** The byte a coordinate is printed as. */
  function PositionByte(position: u16): byte { (position + 33) % 0x1_0000 % 0x100 }

  lemma ByteShift(n: u16)
    ensures (PositionByte(n) as int - 33) % 0x100 == n % 0x100
  {
  }

  lemma CodeShift(code: byte)
    requires code <= 65
    ensures ((code + 32) as int - 32) % 0x100 == code
  {
  }

  /** Parsing what to_x10_bytes prints gives the event back with both coordinates modulo 256. */
  lemma X10RoundTripModulo(e: MouseEvent)
    ensures Run(FRESH, ToX10Bytes(e)) == Outcome(FRESH, [Mouse(AtPosition(e, e.col % 0x100, e.row % 0x100))])
  {
    hide Run, DecodeX10, ButtonCode, PositionByte, AtPosition;
    X10Run(ButtonCode(e) + 32, PositionByte(e.col), PositionByte(e.row));
    PrintedReport(e);
    CodeShift(ButtonCode(e));
    ByteShift(e.col);
    ByteShift(e.row);
    X10Code(e, e.col % 0x100, e.row % 0x100);
  }

  lemma PrintedReport(e: MouseEvent)
    ensures ToX10Bytes(e) == [ESC, 0x5b, 0x4d, ButtonCode(e) + 32, PositionByte(e.col), PositionByte(e.row)]
  {
  }

  /** So the round trip is exact precisely for positions below 256. */
  lemma X10RoundTrip(e: MouseEvent)
    ensures Run(FRESH, ToX10Bytes(e)) == Outcome(FRESH, [Mouse(e)]) <==> e.col < 0x100 && e.row < 0x100
  {
    hide Run, Step, ToX10Bytes;
    X10RoundTripModulo(e);
  }

  // ---- Codes that printing never uses ----

  /** The code bits the decoder looks at. */
  lemma CodeBits(low: nat, held: nat, motion: nat, wheel: nat, extra: nat)
    requires low < 4 && held < 8 && motion < 2 && wheel < 2
    ensures var code := low + 4 * held + 32 * motion + 64 * wheel + 128 * extra;
      code % 4 == low && code / 32 % 2 == motion && code / 64 % 2 == wheel
  {
    var code := low + 4 * held + 32 * motion + 64 * wheel + 128 * extra;
    assert code / 32 == motion + 2 * wheel + 4 * extra;
    assert code / 64 == wheel + 2 * extra;
  }

  /** Shift, Alt and Ctrl add 4, 8 and 16 to the code; neither they nor its highest bit change the event. */
  lemma X10ModifiersAreIgnored(e: MouseEvent, held: nat, extra: nat)
    requires held < 8 && extra < 2
    ensures var code := ButtonCode(e) + 4 * held + 128 * extra;
      Run(FRESH, [ESC, 0x5b, 0x4d, (code + 32) % 0x100, PositionByte(e.col), PositionByte(e.row)]) ==
      Outcome(FRESH, [Mouse(AtPosition(e, e.col % 0x100, e.row % 0x100))])
  {
    hide Run, DecodeX10, ButtonCode, PositionByte, AtPosition;
    var code := ButtonCode(e) + 4 * held + 128 * extra;
    X10Run((code + 32) % 0x100, PositionByte(e.col), PositionByte(e.row));
    ByteShift(e.col);
    ByteShift(e.row);
    ModifiedX10Code(e, held, extra, e.col % 0x100, e.row % 0x100);
  }

  lemma ModifiedX10Code(e: MouseEvent, held: nat, extra: nat, col: u16, row: u16)
    requires held < 8 && extra < 2
    ensures DecodeX10(ButtonCode(e) + 4 * held + 128 * extra, col, row) == AtPosition(e, col, row)
  {
    var base := ButtonCode(e);
    CodeBits(base % 4, held, base / 32 % 2, base / 64, extra);
  }

  /** With the wheel bit the two lowest bits decide alone: zero is up, anything else down. */
  lemma X10Wheel(low: nat, held: nat, motion: nat, extra: nat, col: u16, row: u16)
    requires low < 4 && held < 8 && motion < 2 && extra < 2
    ensures var code := 64 + low + 4 * held + 32 * motion + 128 * extra;
      Run(FRESH, [ESC, 0x5b, 0x4d, (code + 32) % 0x100, PositionByte(col), PositionByte(row)]) ==
      Outcome(FRESH, [Mouse(if low == 0 then ScrollUp(col % 0x100, row % 0x100)
                            else ScrollDown(col % 0x100, row % 0x100))])
  {
    hide Run, DecodeX10, PositionByte;
    var code := 64 + low + 4 * held + 32 * motion + 128 * extra;
    X10Run((code + 32) % 0x100, PositionByte(col), PositionByte(row));
    ByteShift(col);
    ByteShift(row);
    X10WheelCode(low, held, motion, extra, col % 0x100, row % 0x100);
  }

  lemma X10WheelCode(low: nat, held: nat, motion: nat, extra: nat, col: u16, row: u16)
    requires low < 4 && held < 8 && motion < 2 && extra < 2
    ensures DecodeX10(64 + low + 4 * held + 32 * motion + 128 * extra, col, row) ==
            if low == 0 then ScrollUp(col, row) else ScrollDown(col, row)
  {
    CodeBits(low, held, motion, 1, extra);
  }

  // ---- SGR ----

  /** One-based decimal position: capped at the largest u16, minus one, floored at zero. */
  function SgrPosition(digits: seq<byte>): u16
    requires AllDigits(digits)
  {
    if DecimalValue(digits) == 0 then 0 else Min(DecimalValue(digits), 0xFFFF) - 1
  }

  function SgrSequence(fields: seq<seq<byte>>, isRelease: bool): seq<byte>
    requires fields != []
  {
    [ESC, 0x5b, 0x3c] + Join(fields) + [if isRelease then 0x6d else 0x4d]
  }

  /** The event of a report with at least three fields, from their plain decimal values. */
  function SgrMeaning(fields: seq<seq<byte>>, isRelease: bool): MouseEvent
    requires 3 <= |fields| && AllDigitFields(fields)
  {
    assert AllDigits(fields[0]) && AllDigits(fields[1]) && AllDigits(fields[2]);
    DecodeSgr(Min(DecimalValue(fields[0]), 0xFFFF), SgrPosition(fields[1]), SgrPosition(fields[2]), isRelease)
  }

  /** Any complete SGR report ESC [ < fields M/m, with fields of any length: fewer than three fields
      are one Unknown key carrying the bytes; otherwise the first three fields decide the event. */
  lemma SgrReport(fields: seq<seq<byte>>, isRelease: bool)
    requires fields != [] && AllDigitFields(fields)
    ensures Run(FRESH, SgrSequence(fields, isRelease)) ==
      if |fields| < 3 then Emit(SgrSequence(fields, isRelease), Unknown)
      else Outcome(FRESH, [Mouse(SgrMeaning(fields, isRelease))])
  {
    hide Run, Step, DecodeSgr, FieldValues, Join, SplitFields, SaturatingField, AngleIndex;
    JoinedBytes(fields);
    SgrRun(Join(fields), if isRelease then 0x6d else 0x4d);
    SgrFields(fields, if isRelease then 0x6d else 0x4d);
  }

  lemma SgrRun(params: seq<byte>, final: byte)
    requires forall i :: 0 <= i < |params| ==> IsParamByte(params[i])
    ensures Run(FRESH, [ESC, 0x5b, 0x3c] + params + [final]) == StepSgr([ESC, 0x5b, 0x3c] + params, final)
  {
    hide Step, WellFormed;
    var p := Parser(SgrMouse, [ESC, 0x5b, 0x3c] + params);
    Introducer();
    ParamRun(SgrMouse, [ESC, 0x5b, 0x3c], params);
    RunStep(p.buf, p, final);
    SgrStep(p, final);
  }

  lemma SgrStep(p: Parser, b: byte)
    requires WellFormed(p) && p.state.SgrMouse?
    ensures Step(p, b) == StepSgr(p.buf, b)
  {
  }

  lemma SgrFields(fields: seq<seq<byte>>, final: byte)
    requires fields != [] && AllDigitFields(fields)
    ensures var raw := [ESC, 0x5b, 0x3c] + Join(fields) + [final];
      AngleIndex(raw) == 2 && FieldValues(raw[3..|raw| - 1]) == CappedValues(fields)
    ensures forall i :: 0 <= i < |fields| ==>
      AllDigits(fields[i]) && CappedValues(fields)[i] == Min(DecimalValue(fields[i]), 0xFFFF)
  {
    var raw := [ESC, 0x5b, 0x3c] + Join(fields) + [final];
    assert raw[2] == 0x3c && raw[0] != 0x3c && raw[1] != 0x3c;
    assert raw[3..|raw| - 1] == Join(fields);
    FieldValuesOfJoin(fields);
  }

  // ---- SGR printing ----

  function Digits(n: nat): (ds: seq<byte>)
    ensures ds != [] && AllDigits(ds)
  {
    if n < 10 then [0x30 + n] else Digits(n / 10) + [0x30 + n % 10]
  }

  lemma {:induction false} DigitsValue(n: nat)
    ensures DecimalValue(Digits(n)) == n
  {
    if n >= 10 {
      DigitsValue(n / 10);
      assert Digits(n)[..|Digits(n)| - 1] == Digits(n / 10);
    } else {
      assert Digits(n)[..0] == [];
    }
  }

  /** The fields a terminal in SGR mode sends: the button code and one-based positions. A release
      is told by the final byte, so its code is that of the left button. */
  function SgrFieldsOf(e: MouseEvent): seq<seq<byte>> {
    [Digits(if e.ButtonUp? then 0 else ButtonCode(e)), Digits(e.col + 1), Digits(e.row + 1)]
  }

  function ToSgrBytes(e: MouseEvent): seq<byte> { SgrSequence(SgrFieldsOf(e), e.ButtonUp?) }

  lemma SgrCode(e: MouseEvent, col: u16, row: u16)
    ensures DecodeSgr(if e.ButtonUp? then 0 else ButtonCode(e), col, row, e.ButtonUp?) == AtPosition(e, col, row)
  {
  }

  lemma SgrPositionOf(n: u16)
    ensures SgrPosition(Digits(n + 1)) == if n == 0xFFFF then 0xFFFE else n
  {
    DigitsValue(n as int + 1);
  }

  /** Reading an SGR report gives the printed event back, for every position below the largest u16. */
  lemma SgrRoundTrip(e: MouseEvent)
    ensures Run(FRESH, ToSgrBytes(e)) == Outcome(FRESH, [Mouse(e)]) <==> e.col < 0xFFFF && e.row < 0xFFFF
  {
    hide Run, DecodeSgr, Digits, SgrPosition, SgrSequence, ButtonCode;
    var code := if e.ButtonUp? then 0 else ButtonCode(e);
    SgrReport(SgrFieldsOf(e), e.ButtonUp?);
    DigitsValue(code);
    SgrPositionOf(e.col);
    SgrPositionOf(e.row);
    SgrCode(e, SgrPosition(Digits(e.col + 1)), SgrPosition(Digits(e.row + 1)));
  }

  /** The report of a code at a position, as a terminal in SGR mode prints it. */
  function SgrBytes(code: nat, col: u16, row: u16, isRelease: bool): seq<byte> {
    SgrSequence([Digits(code), Digits(col + 1), Digits(row + 1)], isRelease)
  }

  /** What any code means in SGR form: the decoder sees its value cut to 16 bits. */
  lemma SgrCodeMeaning(code: u16, col: u16, row: u16, isRelease: bool)
    requires col < 0xFFFF && row < 0xFFFF
    ensures Run(FRESH, SgrBytes(code, col, row, isRelease)) ==
            Outcome(FRESH, [Mouse(DecodeSgr(code, col, row, isRelease))])
  {
    hide Run, DecodeSgr, Digits, SgrPosition, SgrSequence;
    SgrReport([Digits(code), Digits(col + 1), Digits(row + 1)], isRelease);
    DigitsValue(code);
    SgrPositionOf(col);
    SgrPositionOf(row);
  }

  /** Modifiers and the bits above 64 change no press, drag, move or wheel event. */
  lemma SgrModifiersAreIgnored(e: MouseEvent, held: nat, extra: nat)
    requires !e.ButtonUp? && held < 8 && extra < 511 && e.col < 0xFFFF && e.row < 0xFFFF
    ensures Run(FRESH, SgrBytes(ButtonCode(e) + 4 * held + 128 * extra, e.col, e.row, false)) ==
            Outcome(FRESH, [Mouse(e)])
  {
    hide Run, DecodeSgr, SgrBytes, ButtonCode;
    SgrCodeMeaning(ButtonCode(e) + 4 * held + 128 * extra, e.col, e.row, false);
    ModifiedSgrCode(e, held, extra);
  }

  lemma ModifiedSgrCode(e: MouseEvent, held: nat, extra: nat)
    requires !e.ButtonUp? && held < 8 && extra < 511
    ensures DecodeSgr(ButtonCode(e) + 4 * held + 128 * extra, e.col, e.row, false) == e
  {
    var base := ButtonCode(e);
    CodeBits(base % 4, held, base / 32 % 2, base / 64, extra);
  }

  /** With the wheel bit the two lowest bits decide alone, pressed or released; without it a release is
      the button going up whatever the code, and code 3 pressed is the left button. */
  lemma SgrOtherCodes(low: nat, held: nat, motion: nat, extra: nat, col: u16, row: u16, isRelease: bool)
    requires low < 4 && held < 8 && motion < 2 && extra < 511 && col < 0xFFFF && row < 0xFFFF
    ensures var code := low + 4 * held + 32 * motion + 128 * extra;
      && Run(FRESH, SgrBytes(64 + code, col, row, isRelease)) ==
         Outcome(FRESH, [Mouse(if low == 0 then ScrollUp(col, row) else ScrollDown(col, row))])
      && Run(FRESH, SgrBytes(code, col, row, true)) == Outcome(FRESH, [Mouse(ButtonUp(col, row))])
      && (low == 3 && motion == 0 ==>
           Run(FRESH, SgrBytes(code, col, row, false)) == Outcome(FRESH, [Mouse(ButtonDown(LeftButton, col, row))]))
  {
    hide Run, DecodeSgr, SgrBytes;
    var code := low + 4 * held + 32 * motion + 128 * extra;
    SgrCodeMeaning(64 + code, col, row, isRelease);
    SgrCodeMeaning(code, col, row, true);
    SgrCodeMeaning(code, col, row, false);
    OtherSgrCode(low, held, motion, extra, col, row, isRelease);
  }

  lemma OtherSgrCode(low: nat, held: nat, motion: nat, extra: nat, col: u16, row: u16, isRelease: bool)
    requires low < 4 && held < 8 && motion < 2 && extra < 511
    ensures var code := low + 4 * held + 32 * motion + 128 * extra;
      && DecodeSgr(64 + code, col, row, isRelease) == (if low == 0 then ScrollUp(col, row) else ScrollDown(col, row))
      && DecodeSgr(code, col, row, true) == ButtonUp(col, row)
      && (low == 3 && motion == 0 ==> DecodeSgr(code, col, row, false) == ButtonDown(LeftButton, col, row))
  {
    CodeBits(low, held, motion, 0, extra);
    CodeBits(low, held, motion, 1, extra);
  }
}
