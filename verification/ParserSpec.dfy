/** The input parser as a transition function on (state, pending buffer).

    `Step` says what one byte does; `Run`, `Flush` and `ApplyAll` extend it to byte strings,
    to the escape timeout and to whole histories of calls (crates/term_input/src/parser.rs).
    Masks and wrapping arithmetic on bytes are written as division and remainder. */
module ParserSpec {
  import opened Common
  import opened InputEvents
  import Utf8

  const ESC: byte := 0x1b
  const SEMICOLON: byte := 0x3b
  const TILDE: byte := 0x7e
  const PASTE_START: seq<byte> := [ESC, 0x5b, 0x32, 0x30, 0x30, TILDE]
  const PASTE_END: seq<byte> := [ESC, 0x5b, 0x32, 0x30, 0x31, TILDE]

  datatype State =
    | Ground
    | EscReceived
    | CsiEntry
    | CsiParam
    | Ss3Pending
    | MouseX10(count: nat)
    | SgrMouse
    | PasteBuf
    | Utf8Pending(remaining: nat)

  datatype Parser = Parser(state: State, buf: seq<byte>)
  datatype Outcome = Outcome(next: Parser, events: seq<InputEvent>)

  const FRESH := Parser(Ground, [])

  // ---- Numeric parameters ----

  predicate IsDigit(b: byte) { 0x30 <= b <= 0x39 }
  predicate IsParamByte(b: byte) { IsDigit(b) || b == SEMICOLON }

  /** Left fold of one field: digits accumulate with u16 saturation, other bytes are skipped. */
  function SaturatingField(part: seq<byte>): u16 {
    if part == [] then 0
    else
      var acc := SaturatingField(part[..|part| - 1]);
      var b := part[|part| - 1];
      if IsDigit(b) then Min(Min(acc as int * 10, 0xFFFF) + (b as int - 0x30), 0xFFFF) else acc
  }

  /** Cut at every semicolon; the result has one part more than there are semicolons. */
  function SplitFields(s: seq<byte>): (parts: seq<seq<byte>>)
    ensures 1 <= |parts|
  {
    if s == [] then [[]]
    else
      var parts := SplitFields(s[..|s| - 1]);
      var b := s[|s| - 1];
      if b == SEMICOLON then parts + [[]]
      else parts[..|parts| - 1] + [parts[|parts| - 1] + [b]]
  }

  function FieldValues(s: seq<byte>): (values: seq<u16>)
    ensures 1 <= |values|
  {
    var parts := SplitFields(s);
    seq(|parts|, i requires 0 <= i < |parts| => SaturatingField(parts[i]))
  }

  /** Parameters between the introducer (when there is one) and the final byte. */
  function CsiParams(buf: seq<byte>): seq<u16> {
    var start := if |buf| >= 2 && buf[..2] == [ESC, 0x5b] then 2 else 0;
    if |buf| == 0 || start >= |buf| - 1 then [] else FieldValues(buf[start..|buf| - 1])
  }

  // ---- Classification of complete sequences ----

  function WrapModifier(base: KeyKind, modifier: u16): KeyKind {
    var bits := if modifier == 0 then 0 else modifier - 1;
    if bits / 2 % 2 == 1 then Alt(base) else base
  }

  function WithModifier(base: KeyKind, params: seq<u16>): KeyKind {
    if |params| >= 2 then WrapModifier(base, params[1]) else base
  }

  function CursorKey(final: byte): Option<KeyKind> {
    match final
    case 0x41 => Some(Arrow(Up))
    case 0x42 => Some(Arrow(Down))
    case 0x43 => Some(Arrow(Right))
    case 0x44 => Some(Arrow(Left))
    case 0x48 => Some(Nav(Home))
    case 0x46 => Some(Nav(End))
    case _ => None
  }

  function ClassifyCsiFinal(final: byte, params: seq<u16>): KeyKind {
    match CursorKey(final)
    case None => Unknown
    case Some(base) => WithModifier(base, params)
  }

  function ClassifyTilde(params: seq<u16>): KeyKind {
    var code := if params == [] then 0 else params[0];
    match code
    case 2 => WithModifier(Nav(Insert), params)
    case 3 => WithModifier(Nav(Delete), params)
    case 5 => WithModifier(Nav(PageUp), params)
    case 6 => WithModifier(Nav(PageDown), params)
    case 15 => WithModifier(Function(5), params)
    case 17 => WithModifier(Function(6), params)
    case 18 => WithModifier(Function(7), params)
    case 19 => WithModifier(Function(8), params)
    case 20 => WithModifier(Function(9), params)
    case 21 => WithModifier(Function(10), params)
    case 23 => WithModifier(Function(11), params)
    case 24 => WithModifier(Function(12), params)
    case _ => Unknown
  }

  function Ss3Key(b: byte): KeyKind {
    if 0x50 <= b <= 0x53 then Function((b - 0x4f) as nat)
    else match CursorKey(b)
      case Some(kind) => kind
      case None => Unknown
  }

  function ButtonOf(lowBits: nat): MouseButton {
    match lowBits
    case 1 => MiddleButton
    case 2 => RightButton
    case _ => LeftButton
  }

  function DecodeX10(code: byte, col: u16, row: u16): MouseEvent {
    var lowBits, isDrag, isScroll := code % 4, code / 32 % 2 == 1, code / 64 % 2 == 1;
    if isScroll then
      if lowBits == 0 then ScrollUp(col, row) else ScrollDown(col, row)
    else if isDrag then
      if lowBits == 3 then Move(col, row) else Drag(ButtonOf(lowBits), col, row)
    else if lowBits == 3 then ButtonUp(col, row)
    else ButtonDown(ButtonOf(lowBits), col, row)
  }

  function DecodeSgr(code: u16, col: u16, row: u16, isRelease: bool): MouseEvent {
    var lowBits, isDrag, isScroll := code % 4, code / 32 % 2 == 1, code / 64 % 2 == 1;
    if isScroll then
      if lowBits == 0 then ScrollUp(col, row) else ScrollDown(col, row)
    else if isRelease then ButtonUp(col, row)
    else if isDrag then
      if lowBits == 3 then Move(col, row) else Drag(ButtonOf(lowBits), col, row)
    else ButtonDown(ButtonOf(lowBits), col, row)
  }

  function OneBased(value: u16): u16 { if value == 0 then 0 else value - 1 }

  /** First position of '<', searched as the source does. */
  function AngleIndex(buf: seq<byte>): (i: nat)
    ensures i <= |buf|
    ensures i < |buf| ==> buf[i] == 0x3c
    ensures forall j :: 0 <= j < i ==> buf[j] != 0x3c
  {
    if buf == [] || buf[0] == 0x3c then 0 else 1 + AngleIndex(buf[1..])
  }

  function ParseSgr(buf: seq<byte>, isRelease: bool): Option<MouseEvent> {
    var lt := AngleIndex(buf);
    if lt >= |buf| - 1 then None
    else
      var parts := FieldValues(buf[lt + 1..|buf| - 1]);
      if |parts| < 3 then None
      else Some(DecodeSgr(parts[0], OneBased(parts[1]), OneBased(parts[2]), isRelease))
  }

  // ---- The pending buffer of each state ----

  /** What the buffer holds in each state. */
  ghost predicate WellFormed(p: Parser) {
    match p.state
    case Ground => p.buf == []
    case EscReceived => p.buf == [ESC]
    case CsiEntry => p.buf == [ESC, 0x5b]
    case CsiParam =>
      |p.buf| >= 3 && p.buf[..2] == [ESC, 0x5b] && forall i :: 2 <= i < |p.buf| ==> IsParamByte(p.buf[i])
    case Ss3Pending => p.buf == [ESC, 0x4f]
    case MouseX10(count) => count <= 2 && |p.buf| == 3 + count && p.buf[..3] == [ESC, 0x5b, 0x4d]
    case SgrMouse =>
      |p.buf| >= 3 && p.buf[..3] == [ESC, 0x5b, 0x3c] && forall i :: 3 <= i < |p.buf| ==> IsParamByte(p.buf[i])
    case PasteBuf => !Contains(p.buf, PASTE_END)
    case Utf8Pending(remaining) =>
      && p.buf != []
      && 1 <= remaining
      && |p.buf| + remaining == 1 + Utf8.Continuations(p.buf[0])
      && forall i :: 1 <= i < |p.buf| ==> Utf8.IsContinuation(p.buf[i])
  }

  // ---- One byte ----

  function Stay(state: State, buf: seq<byte>): Outcome { Outcome(Parser(state, buf), []) }
  function Emit(raw: seq<byte>, kind: KeyKind): Outcome { Outcome(FRESH, [Key(raw, kind)]) }

  function StepGround(b: byte): Outcome {
    if b == ESC then Stay(EscReceived, [ESC])
    else if b == 0x0d then Emit([b], Enter)
    else if b == 0x09 then Emit([b], Tab)
    else if b == 0x7f then Emit([b], Backspace)
    else if 0x01 <= b <= 0x1a then Emit([b], Control(0x61 + b as int - 1))
    else if 0x20 <= b <= 0x7e then Emit([b], Char(b as int))
    else if 0xC0 <= b <= 0xDF then Stay(Utf8Pending(1), [b])
    else if 0xE0 <= b <= 0xEF then Stay(Utf8Pending(2), [b])
    else if 0xF0 <= b <= 0xF7 then Stay(Utf8Pending(3), [b])
    else Emit([b], Unknown)
  }

  function StepEsc(buf: seq<byte>, b: byte): Outcome {
    var raw := buf + [b];
    if b == 0x5b then Stay(CsiEntry, raw)
    else if b == 0x4f then Stay(Ss3Pending, raw)
    else if b == ESC then Outcome(Parser(EscReceived, [ESC]), [Key([ESC], Escape)])
    else if b == 0x7f then Emit(raw, Alt(Backspace))
    else if 0x01 <= b <= 0x1a then Emit(raw, Alt(Control(0x61 + b as int - 1)))
    else if 0x20 <= b <= 0x7e then Emit(raw, Alt(Char(b as int)))
    else Emit(raw, Unknown)
  }

  function StepCsiEntry(buf: seq<byte>, b: byte): Outcome {
    var raw := buf + [b];
    if b == 0x4d then Stay(MouseX10(0), raw)
    else if b == 0x3c then Stay(SgrMouse, raw)
    else if CursorKey(b).Some? then Emit(raw, ClassifyCsiFinal(b, []))
    else if IsParamByte(b) then Stay(CsiParam, raw)
    else Emit(raw, Unknown)
  }

  function StepCsiParam(buf: seq<byte>, b: byte): Outcome {
    var raw := buf + [b];
    if IsParamByte(b) then Stay(CsiParam, raw)
    else if b == TILDE then
      var params := CsiParams(raw);
      if params != [] && params[0] == 200 then Stay(PasteBuf, []) else Emit(raw, ClassifyTilde(params))
    else if 0x40 <= b <= 0x7e then Emit(raw, ClassifyCsiFinal(b, CsiParams(raw)))
    else Emit(raw, Unknown)
  }

  function StepMouseX10(buf: seq<byte>, count: nat, b: byte): Outcome
    requires |buf| >= 2
  {
    var raw := buf + [b];
    if count + 1 < 3 then Stay(MouseX10(count + 1), raw)
    else
      var code := (raw[|raw| - 3] as int - 32) % 0x100;
      var col := (raw[|raw| - 2] as int - 33) % 0x100;
      var row := (raw[|raw| - 1] as int - 33) % 0x100;
      Outcome(FRESH, [Mouse(DecodeX10(code, col, row))])
  }

  function StepSgr(buf: seq<byte>, b: byte): Outcome {
    var raw := buf + [b];
    if b == 0x4d || b == 0x6d then
      match ParseSgr(raw, b == 0x6d)
      case Some(mouse) => Outcome(FRESH, [Mouse(mouse)])
      case None => Emit(raw, Unknown)
    else if IsParamByte(b) then Stay(SgrMouse, raw)
    else Emit(raw, Unknown)
  }

  function StepPaste(buf: seq<byte>, b: byte): Outcome {
    var raw := buf + [b];
    if |raw| >= |PASTE_END| && raw[|raw| - |PASTE_END|..] == PASTE_END
    then Outcome(FRESH, [Paste(raw[..|raw| - |PASTE_END|])])
    else Stay(PasteBuf, raw)
  }

  function StepUtf8(buf: seq<byte>, remaining: nat, b: byte): Outcome
    requires WellFormed(Parser(Utf8Pending(remaining), buf))
  {
    var raw := buf + [b];
    if !Utf8.IsContinuation(b) then
      var restart := StepGround(b);
      Outcome(restart.next, [Key(buf, Unknown)] + restart.events)
    else if remaining > 1 then Stay(Utf8Pending(remaining - 1), raw)
    else match Utf8.Decode(raw)
      case Some(c) => Emit(raw, Char(c))
      case None => Emit(raw, Unknown)
  }

  function Step(p: Parser, b: byte): Outcome
    requires WellFormed(p)
  {
    match p.state
    case Ground => StepGround(b)
    case EscReceived => StepEsc(p.buf, b)
    case CsiEntry => StepCsiEntry(p.buf, b)
    case CsiParam => StepCsiParam(p.buf, b)
    case Ss3Pending => Emit(p.buf + [b], Ss3Key(b))
    case MouseX10(count) => StepMouseX10(p.buf, count, b)
    case SgrMouse => StepSgr(p.buf, b)
    case PasteBuf => StepPaste(p.buf, b)
    case Utf8Pending(remaining) => StepUtf8(p.buf, remaining, b)
  }

  /** The escape timeout: everything pending becomes one key, except inside a paste. */
  function Flush(p: Parser): Outcome {
    match p.state
    case EscReceived => Emit([ESC], Escape)
    case Ground | PasteBuf => Outcome(p, [])
    case _ => Emit(p.buf, Unknown)
  }

  predicate HasPending(p: Parser) { p.state != Ground && p.state != PasteBuf }

  lemma PasteKeepsMarkerOut(buf: seq<byte>, b: byte)
    requires !Contains(buf, PASTE_END)
    ensures WellFormed(StepPaste(buf, b).next)
  {
    if Contains(buf + [b], PASTE_END) {
      ContainsSnoc(buf, b, PASTE_END);
    }
  }

  lemma EmptyHoldsNoMarker()
    ensures WellFormed(Parser(PasteBuf, []))
  {
  }

  lemma CsiKeepsShape(p: Parser, b: byte)
    requires WellFormed(p) && (p.state.CsiEntry? || p.state.CsiParam?)
    ensures WellFormed(Step(p, b).next)
  {
    EmptyHoldsNoMarker();
    var raw := p.buf + [b];
    if p.state.CsiEntry? {
      assert raw[..2] == [ESC, 0x5b];
      assert raw == [ESC, 0x5b, b];
      assert raw[..3] == raw;
    } else {
      assert raw[..2] == p.buf[..2];
    }
  }

  lemma MouseKeepsShape(p: Parser, b: byte)
    requires WellFormed(p) && (p.state.MouseX10? || p.state.SgrMouse?)
    ensures WellFormed(Step(p, b).next)
  {
    assert (p.buf + [b])[..3] == p.buf[..3];
  }

  lemma Utf8KeepsShape(buf: seq<byte>, remaining: nat, b: byte)
    requires WellFormed(Parser(Utf8Pending(remaining), buf))
    ensures WellFormed(StepUtf8(buf, remaining, b).next)
  {
  }

  /** Every step keeps the shape of the pending buffer. */
  lemma StepKeepsWellFormed(p: Parser, b: byte)
    requires WellFormed(p)
    ensures WellFormed(Step(p, b).next)
  {
    match p.state
    case PasteBuf => PasteKeepsMarkerOut(p.buf, b);
    case CsiEntry | CsiParam => CsiKeepsShape(p, b);
    case MouseX10(_) | SgrMouse => MouseKeepsShape(p, b);
    case Utf8Pending(remaining) => Utf8KeepsShape(p.buf, remaining, b);
    case Ground | EscReceived | Ss3Pending =>
  }

  // ---- Byte strings and whole histories of calls ----

  function Run(p: Parser, data: seq<byte>): (o: Outcome)
    requires WellFormed(p)
    ensures WellFormed(o.next)
  {
    if data == [] then Outcome(p, [])
    else
      var before := Run(p, data[..|data| - 1]);
      var last := Step(before.next, data[|data| - 1]);
      StepKeepsWellFormed(before.next, data[|data| - 1]);
      Outcome(last.next, before.events + last.events)
  }

  lemma RunSnoc(p: Parser, data: seq<byte>, b: byte)
    requires WellFormed(p)
    ensures Run(p, data + [b]) ==
      Outcome(Step(Run(p, data).next, b).next, Run(p, data).events + Step(Run(p, data).next, b).events)
  {
    assert (data + [b])[..|data|] == data;
  }

  lemma {:induction false} RunConcat(p: Parser, first: seq<byte>, second: seq<byte>)
    requires WellFormed(p)
    ensures Run(p, first + second) ==
      Outcome(Run(Run(p, first).next, second).next, Run(p, first).events + Run(Run(p, first).next, second).events)
  {
    hide Step, WellFormed;
    if second == [] {
      assert first + second == first;
    } else {
      var init, b := second[..|second| - 1], second[|second| - 1];
      RunConcat(p, first, init);
      assert first + second == (first + init) + [b];
      RunSnoc(p, first + init, b);
    }
  }

  /** One more byte after a string that emitted nothing. */
  lemma RunStep(data: seq<byte>, p: Parser, b: byte)
    requires Run(FRESH, data) == Outcome(p, [])
    ensures WellFormed(p)
    ensures Run(FRESH, data + [b]) == Step(p, b)
  {
    hide Step;
    RunSnoc(FRESH, data, b);
    assert [] + Step(p, b).events == Step(p, b).events;
  }

  /** A whole string after one that emitted nothing. */
  lemma RunOn(data: seq<byte>, p: Parser, more: seq<byte>)
    requires Run(FRESH, data) == Outcome(p, [])
    ensures WellFormed(p)
    ensures Run(FRESH, data + more) == Run(p, more)
  {
    hide Step;
    RunConcat(FRESH, data, more);
    assert [] + Run(p, more).events == Run(p, more).events;
  }

  datatype Action = Feed(data: seq<byte>) | Timeout

  function Apply(p: Parser, action: Action): (o: Outcome)
    requires WellFormed(p)
    ensures WellFormed(o.next)
  {
    match action
    case Feed(data) => Run(p, data)
    case Timeout => Flush(p)
  }

  function ApplyAll(p: Parser, actions: seq<Action>): (o: Outcome)
    requires WellFormed(p)
    ensures WellFormed(o.next)
  {
    if actions == [] then Outcome(p, [])
    else
      var before := ApplyAll(p, actions[..|actions| - 1]);
      var last := Apply(before.next, actions[|actions| - 1]);
      Outcome(last.next, before.events + last.events)
  }

  /** All bytes fed by a history, in order. */
  function BytesOf(actions: seq<Action>): seq<byte> {
    if actions == [] then []
    else
      var last := actions[|actions| - 1];
      BytesOf(actions[..|actions| - 1]) + (if last.Feed? then last.data else [])
  }
}
