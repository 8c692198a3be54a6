/** The parser object: `state`, `buf` and `out` updated byte by byte, proved against ParserSpec. */
module TermInput {
  import opened Common
  import opened InputEvents
  import opened ParserSpec
  import Utf8

  class InputParser {
    var state: State
    var buf: seq<byte>
    var out: seq<InputEvent>

    ghost function Model(): Parser
      reads this
    {
      Parser(state, buf)
    }

    ghost predicate Shaped()
      reads this
    {
      WellFormed(Model())
    }

    /** Between calls of `Feed` and `Flush` the output queue is empty. */
    ghost predicate Valid()
      reads this
    {
      Shaped() && out == []
    }

    constructor ()
      ensures Valid() && Model() == FRESH
    {
      state, buf, out := Ground, [], [];
    }

    method Feed(data: seq<byte>) returns (events: seq<InputEvent>)
      requires Valid()
      modifies this
      ensures Valid()
      ensures Outcome(Model(), events) == Run(old(Model()), data)
    {
      for i := 0 to |data|
        invariant Shaped()
        invariant Outcome(Model(), out) == Run(old(Model()), data[..i])
      {
        RunSnoc(old(Model()), data[..i], data[i]);
        assert data[..i + 1] == data[..i] + [data[i]];
        StepByte(data[i]);
      }
      assert data[..|data|] == data;
      events := Drain();
    }

    method Flush() returns (events: seq<InputEvent>)
      requires Valid()
      modifies this
      ensures Valid()
      ensures Outcome(Model(), events) == ParserSpec.Flush(old(Model()))
    {
      match state {
        case EscReceived =>
          EmitKey([ESC], Escape);
          state := Ground;
          buf := [];
        case CsiEntry | CsiParam | Ss3Pending | SgrMouse | MouseX10(_) | Utf8Pending(_) =>
          var raw := TakeBuf();
          EmitKey(raw, Unknown);
          state := Ground;
        case PasteBuf | Ground =>
      }
      events := Drain();
    }

    method Drain() returns (events: seq<InputEvent>)
      modifies this`out
      ensures events == old(out) && out == []
    {
      events := out;
      out := [];
    }

    /** `has_pending`: exactly the states in which the timeout emits something. */
    predicate NeedsTimeout()
      requires Shaped()
      reads this
      ensures NeedsTimeout() <==> ParserSpec.Flush(Model()).events != []
      ensures NeedsTimeout() ==> |ParserSpec.Flush(Model()).events| == 1
    {
      !(state == Ground || state == PasteBuf)
    }

    /** `is_in_paste`: with `has_pending` it tells the three situations of the reader apart. Inside a
        paste the timeout changes nothing; a parser that is neither pending nor in a paste is fresh. */
    predicate IsInPaste()
      requires Shaped()
      reads this
      ensures IsInPaste() ==> !NeedsTimeout() && ParserSpec.Flush(Model()) == Outcome(Model(), [])
      ensures !IsInPaste() && !NeedsTimeout() <==> Model() == FRESH
    {
      state == PasteBuf
    }

    method TakeBuf() returns (raw: seq<byte>)
      modifies this`buf
      ensures raw == old(buf) && buf == []
    {
      raw := buf;
      buf := [];
    }

    method EmitKey(raw: seq<byte>, kind: KeyKind)
      modifies this`out
      ensures out == old(out) + [Key(raw, kind)]
    {
      out := out + [Key(raw, kind)];
    }

    /** Push the byte, emit the whole buffer as one key and return to Ground. */
    method Finish(b: byte, kind: KeyKind)
      modifies this
      ensures Model() == FRESH
      ensures out == old(out) + [Key(old(buf) + [b], kind)]
    {
      buf := buf + [b];
      var raw := TakeBuf();
      EmitKey(raw, kind);
      state := Ground;
    }

    method StepByte(b: byte)
      requires Shaped()
      modifies this
      ensures Model() == Step(old(Model()), b).next
      ensures out == old(out) + Step(old(Model()), b).events
      ensures Shaped()
    {
      StepKeepsWellFormed(Model(), b);
      match state {
        case Ground => OnGround(b);
        case EscReceived => OnEsc(b);
        case CsiEntry => OnCsiEntry(b);
        case CsiParam => OnCsiParam(b);
        case Ss3Pending => Finish(b, Ss3Key(b));
        case MouseX10(count) => OnMouseX10(b, count);
        case SgrMouse => OnSgrMouse(b);
        case PasteBuf => OnPaste(b);
        case Utf8Pending(remaining) => OnUtf8(b, remaining);
      }
    }

    method OnGround(b: byte)
      requires Model() == FRESH
      modifies this
      ensures Model() == StepGround(b).next
      ensures out == old(out) + StepGround(b).events
    {
      if b == ESC {
        buf := [];
        buf := buf + [ESC];
        state := EscReceived;
      } else if b == 0x0d {
        EmitKey([b], Enter);
      } else if b == 0x09 {
        EmitKey([b], Tab);
      } else if b == 0x7f {
        EmitKey([b], Backspace);
      } else if 0x01 <= b <= 0x1a {
        EmitKey([b], Control(0x61 + b as int - 1));
      } else if 0x20 <= b <= 0x7e {
        EmitKey([b], Char(b as int));
      } else if 0xC0 <= b <= 0xDF {
        StartUtf8(b, 1);
      } else if 0xE0 <= b <= 0xEF {
        StartUtf8(b, 2);
      } else if 0xF0 <= b <= 0xF7 {
        StartUtf8(b, 3);
      } else {
        EmitKey([b], Unknown);
      }
    }

    method StartUtf8(b: byte, remaining: nat)
      modifies this`buf, this`state
      ensures Model() == Parser(Utf8Pending(remaining), [b])
    {
      buf := [];
      buf := buf + [b];
      state := Utf8Pending(remaining);
    }

    method OnUtf8(b: byte, remaining: nat)
      requires Shaped() && state == Utf8Pending(remaining)
      modifies this
      ensures Model() == StepUtf8(old(buf), remaining, b).next
      ensures out == old(out) + StepUtf8(old(buf), remaining, b).events
    {
      if !Utf8.IsContinuation(b) {
        var raw := TakeBuf();
        EmitKey(raw, Unknown);
        state := Ground;
        OnGround(b);
        return;
      }
      buf := buf + [b];
      var newRemaining := remaining - 1;
      if newRemaining > 0 {
        state := Utf8Pending(newRemaining);
        return;
      }
      var raw := TakeBuf();
      var kind := match Utf8.Decode(raw) case Some(c) => Char(c) case None => Unknown;
      EmitKey(raw, kind);
      state := Ground;
    }

    method OnEsc(b: byte)
      requires Model() == Parser(EscReceived, [ESC])
      modifies this
      ensures Model() == StepEsc(old(buf), b).next
      ensures out == old(out) + StepEsc(old(buf), b).events
    {
      if b == 0x5b {
        buf := buf + [b];
        state := CsiEntry;
      } else if b == 0x4f {
        buf := buf + [b];
        state := Ss3Pending;
      } else if b == ESC {
        EmitKey([ESC], Escape);
        buf := [];
        buf := buf + [ESC];
      } else if b == 0x7f {
        Finish(b, Alt(Backspace));
      } else if 0x01 <= b <= 0x1a {
        Finish(b, Alt(Control(0x61 + b as int - 1)));
      } else if 0x20 <= b <= 0x7e {
        Finish(b, Alt(Char(b as int)));
      } else {
        Finish(b, Unknown);
      }
    }

    method OnCsiEntry(b: byte)
      requires state == CsiEntry
      modifies this
      ensures Model() == StepCsiEntry(old(buf), b).next
      ensures out == old(out) + StepCsiEntry(old(buf), b).events
    {
      if b == 0x4d {
        buf := buf + [b];
        state := MouseX10(0);
      } else if b == 0x3c {
        buf := buf + [b];
        state := SgrMouse;
      } else if 0x41 <= b <= 0x44 || b == 0x48 || b == 0x46 {
        Finish(b, ClassifyCsiFinal(b, []));
      } else if IsParamByte(b) {
        buf := buf + [b];
        state := CsiParam;
      } else {
        Finish(b, Unknown);
      }
    }

    method OnCsiParam(b: byte)
      requires state == CsiParam
      modifies this
      ensures Model() == StepCsiParam(old(buf), b).next
      ensures out == old(out) + StepCsiParam(old(buf), b).events
    {
      if IsParamByte(b) {
        buf := buf + [b];
      } else if b == TILDE {
        buf := buf + [b];
        var params := CsiParams(buf);
        if params != [] && params[0] == 200 {
          buf := [];
          state := PasteBuf;
        } else {
          var raw := TakeBuf();
          EmitKey(raw, ClassifyTilde(params));
          state := Ground;
        }
      } else if 0x40 <= b <= 0x7e {
        buf := buf + [b];
        var params := CsiParams(buf);
        var raw := TakeBuf();
        EmitKey(raw, ClassifyCsiFinal(b, params));
        state := Ground;
      } else {
        Finish(b, Unknown);
      }
    }

    method OnMouseX10(b: byte, count: nat)
      requires Shaped() && state == MouseX10(count)
      modifies this
      ensures Model() == StepMouseX10(old(buf), count, b).next
      ensures out == old(out) + StepMouseX10(old(buf), count, b).events
    {
      buf := buf + [b];
      var newCount := count + 1;
      if newCount < 3 {
        state := MouseX10(newCount);
        return;
      }
      var code := (buf[|buf| - 3] as int - 32) % 0x100;
      var col := (buf[|buf| - 2] as int - 33) % 0x100;
      var row := (buf[|buf| - 1] as int - 33) % 0x100;
      var mouse := DecodeX10(code, col, row);
      buf := [];
      out := out + [Mouse(mouse)];
      state := Ground;
    }

    method OnSgrMouse(b: byte)
      requires state == SgrMouse
      modifies this
      ensures Model() == StepSgr(old(buf), b).next
      ensures out == old(out) + StepSgr(old(buf), b).events
    {
      buf := buf + [b];
      if b == 0x4d || b == 0x6d {
        match ParseSgr(buf, b == 0x6d) {
          case Some(mouse) =>
            buf := [];
            out := out + [Mouse(mouse)];
          case None =>
            var raw := TakeBuf();
            EmitKey(raw, Unknown);
        }
        state := Ground;
      } else if !IsParamByte(b) {
        var raw := TakeBuf();
        EmitKey(raw, Unknown);
        state := Ground;
      }
    }

    method OnPaste(b: byte)
      requires state == PasteBuf
      modifies this
      ensures Model() == StepPaste(old(buf), b).next
      ensures out == old(out) + StepPaste(old(buf), b).events
    {
      buf := buf + [b];
      if |buf| >= |PASTE_END| && buf[|buf| - |PASTE_END|..] == PASTE_END {
        out := out + [Paste(buf[..|buf| - |PASTE_END|])];
        buf := [];
        state := Ground;
      }
    }
  }
}
