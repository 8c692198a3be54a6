/** The pending bytes determine the parser: every reachable state is rebuilt by feeding its
    buffer to a fresh parser, and the reachable states are exactly the well-formed ones. */
module ParserReplay {
  import opened Common
  import opened InputEvents
  import opened ParserSpec
  import opened NumericFields
  import Utf8

  /** Bytes that rebuild `p`: the buffer, behind a start marker when inside a paste. */
  function Replay(p: Parser): seq<byte> {
    if p.state.PasteBuf? then PASTE_START + p.buf else p.buf
  }

  lemma StartMarkerOpensPaste()
    ensures Run(FRESH, PASTE_START) == Outcome(Parser(PasteBuf, []), [])
  {
    var digits: seq<byte> := [0x32, 0x30, 0x30];
    assert digits[..2] == [0x32, 0x30] && digits[..2][..1] == [0x32];
    assert DecimalValue([0x32]) == 2 && DecimalValue([0x32, 0x30]) == 20;
    assert DecimalValue(digits) == 200;
    TildeSequence([digits]);
    assert [ESC, 0x5b] + digits + [TILDE] == PASTE_START;
  }

  /** The state one byte earlier. */
  function Predecessor(p: Parser): Parser
    requires WellFormed(p) && p.buf != []
  {
    var init := p.buf[..|p.buf| - 1];
    match p.state
    case Ground | EscReceived => FRESH
    case CsiEntry | Ss3Pending => Parser(EscReceived, init)
    case CsiParam => if |p.buf| == 3 then Parser(CsiEntry, init) else Parser(CsiParam, init)
    case SgrMouse => if |p.buf| == 3 then Parser(CsiEntry, init) else Parser(SgrMouse, init)
    case MouseX10(count) => if count == 0 then Parser(CsiEntry, init) else Parser(MouseX10(count - 1), init)
    case PasteBuf => Parser(PasteBuf, init)
    case Utf8Pending(remaining) => if |p.buf| == 1 then FRESH else Parser(Utf8Pending(remaining + 1), init)
  }

  lemma PastePredecessor(p: Parser)
    requires WellFormed(p) && p.state.PasteBuf? && p.buf != []
    ensures WellFormed(Predecessor(p))
    ensures Step(Predecessor(p), p.buf[|p.buf| - 1]) == Outcome(p, [])
  {
    var init, b := p.buf[..|p.buf| - 1], p.buf[|p.buf| - 1];
    assert p.buf == init + [b];
    MarkerFreePrefix(init, p.buf, PASTE_END);
    if |p.buf| >= |PASTE_END| {
      assert !OccursAt(p.buf, PASTE_END, |p.buf| - |PASTE_END|);
    }
  }

  lemma FrontOfIntroducer(buf: seq<byte>)
    requires |buf| >= 3
    ensures var init := buf[..|buf| - 1];
      && buf == init + [buf[|buf| - 1]]
      && init[..2] == buf[..2] == [buf[0], buf[1]]
      && buf[..3] == [buf[0], buf[1], buf[2]]
      && (|buf| == 3 ==> init == buf[..2])
      && (|buf| > 3 ==> init[..3] == buf[..3])
  {
  }

  lemma CsiParamPredecessor(p: Parser)
    requires WellFormed(p) && p.state.CsiParam?
    ensures WellFormed(Predecessor(p))
    ensures Step(Predecessor(p), p.buf[|p.buf| - 1]) == Outcome(p, [])
  {
    hide StepGround, StepEsc, StepSgr, StepMouseX10, StepPaste, StepUtf8, Contains, CsiParams, ParseSgr;
    FrontOfIntroducer(p.buf);
  }

  lemma SgrPredecessor(p: Parser)
    requires WellFormed(p) && p.state.SgrMouse?
    ensures WellFormed(Predecessor(p))
    ensures Step(Predecessor(p), p.buf[|p.buf| - 1]) == Outcome(p, [])
  {
    hide StepGround, StepEsc, StepCsiParam, StepMouseX10, StepPaste, StepUtf8, Contains, CsiParams, ParseSgr;
    FrontOfIntroducer(p.buf);
  }

  lemma X10Predecessor(p: Parser)
    requires WellFormed(p) && p.state.MouseX10?
    ensures WellFormed(Predecessor(p))
    ensures Step(Predecessor(p), p.buf[|p.buf| - 1]) == Outcome(p, [])
  {
    hide StepGround, StepEsc, StepCsiParam, StepSgr, StepPaste, StepUtf8, Contains, CsiParams, ParseSgr;
    FrontOfIntroducer(p.buf);
  }

  lemma Utf8Predecessor(p: Parser)
    requires WellFormed(p) && p.state.Utf8Pending?
    ensures WellFormed(Predecessor(p))
    ensures Step(Predecessor(p), p.buf[|p.buf| - 1]) == Outcome(p, [])
  {
    hide StepEsc, StepCsiEntry, StepCsiParam, StepSgr, StepPaste, StepMouseX10, Contains, Utf8.Decode;
    assert p.buf == p.buf[..|p.buf| - 1] + [p.buf[|p.buf| - 1]];
  }

  lemma EscapePredecessor(p: Parser)
    requires WellFormed(p) && p.buf != []
    requires p.state.EscReceived? || p.state.CsiEntry? || p.state.Ss3Pending?
    ensures WellFormed(Predecessor(p))
    ensures Step(Predecessor(p), p.buf[|p.buf| - 1]) == Outcome(p, [])
  {
    hide StepUtf8, StepCsiEntry, StepCsiParam, StepSgr, StepPaste, StepMouseX10, Contains;
    assert p.buf == p.buf[..|p.buf| - 1] + [p.buf[|p.buf| - 1]];
  }

  lemma PredecessorSteps(p: Parser)
    requires WellFormed(p) && p.buf != []
    ensures WellFormed(Predecessor(p))
    ensures Step(Predecessor(p), p.buf[|p.buf| - 1]) == Outcome(p, [])
  {
    hide Step, Predecessor, Contains;
    match p.state
    case PasteBuf => PastePredecessor(p);
    case CsiParam => CsiParamPredecessor(p);
    case SgrMouse => SgrPredecessor(p);
    case MouseX10(_) => X10Predecessor(p);
    case Utf8Pending(_) => Utf8Predecessor(p);
    case EscReceived | CsiEntry | Ss3Pending => EscapePredecessor(p);
  }

  /** A fresh parser fed the replay bytes reaches the same state and buffer with no event. */
  lemma {:induction false} PendingDeterminesState(p: Parser)
    requires WellFormed(p)
    ensures Run(FRESH, Replay(p)) == Outcome(p, [])
    decreases |p.buf|
  {
    hide Step, WellFormed, Predecessor, Replay;
    if p.buf == [] {
      EmptyBuffer(p);
    } else {
      PredecessorSteps(p);
      PredecessorBuffer(p);
      PendingDeterminesState(Predecessor(p));
      RunStep(Replay(Predecessor(p)), Predecessor(p), p.buf[|p.buf| - 1]);
    }
  }

  lemma EmptyBuffer(p: Parser)
    requires WellFormed(p) && p.buf == []
    ensures Run(FRESH, Replay(p)) == Outcome(p, [])
  {
    hide Step;
    StartMarkerOpensPaste();
    assert PASTE_START + [] == PASTE_START;
  }

  lemma PredecessorBuffer(p: Parser)
    requires WellFormed(p) && p.buf != []
    ensures Predecessor(p).buf == p.buf[..|p.buf| - 1]
    ensures Replay(Predecessor(p)) + [p.buf[|p.buf| - 1]] == Replay(p)
  {
  }

  /** A parser state is reached by some history exactly when its buffer has the shape of its state. */
  lemma ReachableIffWellFormed(p: Parser)
    ensures WellFormed(p) <==> exists actions :: ApplyAll(FRESH, actions).next == p
  {
    if WellFormed(p) {
      PendingDeterminesState(p);
      var actions := [Feed(Replay(p))];
      assert actions[..0] == [];
      assert ApplyAll(FRESH, actions).next == p;
    }
  }

  /** Two histories that leave the same bytes pending (paste or not) leave the same parser. */
  lemma ReplayIsInjective(p: Parser, q: Parser)
    requires WellFormed(p) && WellFormed(q)
    ensures Replay(p) == Replay(q) <==> p == q
  {
    PendingDeterminesState(p);
    PendingDeterminesState(q);
  }
}
