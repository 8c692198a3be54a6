/** Lossless segmentation: every history of feeds and timeouts cuts the bytes fed into one
    replayable segment per event, followed by what is still pending. */
module ParserSegmentation {
  import opened Common
  import opened InputEvents
  import opened ParserSpec
  import Utf8

  /** A fresh parser fed `segment` and then timed out yields exactly `event`. */
  ghost predicate Replays(segment: seq<byte>, event: InputEvent) {
    var fed := Run(FRESH, segment);
    var timedOut := Flush(fed.next);
    fed.events + timedOut.events == [event] && timedOut.next == FRESH
  }

  /** A byte string that switches a fresh parser to paste mode without any event. */
  ghost predicate IsPasteIntroducer(intro: seq<byte>) {
    Run(FRESH, intro) == Outcome(Parser(PasteBuf, []), [])
  }

  ghost predicate IsFramedPaste(segment: seq<byte>, body: seq<byte>) {
    exists intro :: IsPasteIntroducer(intro) && segment == intro + body + PASTE_END
  }

  /** `segment` is exactly what the terminal sent for `event`. */
  ghost predicate IsSegmentOf(segment: seq<byte>, event: InputEvent) {
    && segment != []
    && Replays(segment, event)
    && (event.Key? ==> event.raw == segment)
    && (event.Paste? ==> IsFramedPaste(segment, event.body))
  }

  /** `pending` is what the terminal sent since the last event, in parser state `p`. */
  ghost predicate IsPendingOf(pending: seq<byte>, p: Parser) {
    && Run(FRESH, pending) == Outcome(p, [])
    && (!p.state.PasteBuf? ==> pending == p.buf)
    && (p.state.PasteBuf? ==> exists intro :: IsPasteIntroducer(intro) && pending == intro + p.buf)
  }

  ghost predicate Segments(segments: seq<seq<byte>>, events: seq<InputEvent>) {
    |segments| == |events| && forall i :: 0 <= i < |events| ==> IsSegmentOf(segments[i], events[i])
  }

  ghost predicate Segmented(segments: seq<seq<byte>>, pending: seq<byte>, fed: seq<byte>, o: Outcome) {
    Segments(segments, o.events) && IsPendingOf(pending, o.next) && fed == Flatten(segments) + pending
  }

  lemma PendingIsEmptyOnlyAtGround(pending: seq<byte>, p: Parser)
    requires IsPendingOf(pending, p)
    ensures WellFormed(p)
    ensures p == FRESH <==> pending == []
  {
  }

  /** Whatever a timeout emits replays from the pending bytes. */
  lemma TimeoutSegment(pending: seq<byte>, p: Parser)
    requires IsPendingOf(pending, p) && HasPending(p)
    ensures |Flush(p).events| == 1 && Flush(p).next == FRESH
    ensures IsSegmentOf(pending, Flush(p).events[0])
  {
    PendingIsEmptyOnlyAtGround(pending, p);
    assert [] + Flush(p).events == Flush(p).events;
  }

  /** A byte that cannot continue what is pending: the timeout's key, then the byte on its own. */
  predicate Interrupts(p: Parser, b: byte) {
    (p.state.Utf8Pending? && !Utf8.IsContinuation(b)) || (p.state.EscReceived? && b == ESC)
  }

  lemma InterruptIsTimeoutThenByte(p: Parser, b: byte)
    requires WellFormed(p) && Interrupts(p, b)
    ensures HasPending(p)
    ensures Step(p, b) == Outcome(Step(FRESH, b).next, Flush(p).events + Step(FRESH, b).events)
  {
  }

  /** Any other byte either extends the buffer silently (or opens a paste), or completes one
      event out of the whole buffer and leaves the parser at rest. */
  ghost predicate Extends(p: Parser, b: byte, o: Outcome) {
    && o.events == []
    && (if o.next.state.PasteBuf? && !p.state.PasteBuf? then o.next.buf == [] else o.next.buf == p.buf + [b])
    && (p.state.PasteBuf? ==> o.next.state.PasteBuf?)
  }

  ghost predicate Completes(p: Parser, b: byte, o: Outcome) {
    && |o.events| == 1
    && o.next == FRESH
    && (o.events[0].Key? ==> !p.state.PasteBuf? && o.events[0].raw == p.buf + [b])
    && (o.events[0].Paste? ==> p.state.PasteBuf? && p.buf + [b] == o.events[0].body + PASTE_END)
  }

  lemma ExtendsOrCompletes(p: Parser, b: byte)
    requires WellFormed(p) && !Interrupts(p, b)
    ensures Extends(p, b, Step(p, b)) || Completes(p, b, Step(p, b))
  {
    hide CsiParams, ParseSgr, ClassifyTilde, ClassifyCsiFinal, CursorKey, Ss3Key, DecodeX10, Contains, Utf8.Decode;
    match p.state
    case Ground => assert p.buf + [b] == [b];
    case PasteBuf =>
    case CsiParam =>
    case _ =>
  }

  lemma ExtendedPending(pending: seq<byte>, p: Parser, b: byte)
    requires IsPendingOf(pending, p)
    requires WellFormed(p) && Extends(p, b, Step(p, b))
    ensures IsPendingOf(pending + [b], Step(p, b).next)
  {
    hide Step, WellFormed;
    RunStep(pending, p, b);
    if p.state.PasteBuf? {
      var intro :| IsPasteIntroducer(intro) && pending == intro + p.buf;
      assert pending + [b] == intro + (p.buf + [b]);
    } else if Step(p, b).next.state.PasteBuf? {
      assert pending + [b] == (pending + [b]) + [];
      assert IsPasteIntroducer(pending + [b]);
    }
  }

  lemma CompletedSegment(pending: seq<byte>, p: Parser, b: byte)
    requires IsPendingOf(pending, p)
    requires WellFormed(p) && Completes(p, b, Step(p, b))
    ensures IsSegmentOf(pending + [b], Step(p, b).events[0])
  {
    hide Step, WellFormed, IsFramedPaste;
    RunStep(pending, p, b);
    var event := Step(p, b).events[0];
    assert Run(FRESH, pending + [b]).events == [event];
    assert [event] + [] == [event];
    if event.Paste? {
      CompletedPaste(pending, p, b, event.body);
    }
  }

  lemma CompletedPaste(pending: seq<byte>, p: Parser, b: byte, body: seq<byte>)
    requires IsPendingOf(pending, p) && p.state.PasteBuf?
    requires p.buf + [b] == body + PASTE_END
    ensures IsFramedPaste(pending + [b], body)
  {
    hide Run;
    var intro :| IsPasteIntroducer(intro) && pending == intro + p.buf;
    assert pending + [b] == intro + (p.buf + [b]);
    assert pending + [b] == intro + body + PASTE_END;
  }

  lemma UninterruptedStep(pending: seq<byte>, p: Parser, b: byte)
    returns (segments: seq<seq<byte>>, pending': seq<byte>)
    requires IsPendingOf(pending, p)
    requires WellFormed(p) && !Interrupts(p, b)
    ensures Segmented(segments, pending', pending + [b], Step(p, b))
  {
    hide Step, WellFormed, IsSegmentOf;
    ExtendsOrCompletes(p, b);
    if Extends(p, b, Step(p, b)) {
      ExtendedPending(pending, p, b);
      segments, pending' := [], pending + [b];
    } else {
      CompletedSegment(pending, p, b);
      segments, pending' := [pending + [b]], [];
      FlattenSnoc([], pending + [b]);
    }
  }

  lemma StepSegments(pending: seq<byte>, p: Parser, b: byte) returns (segments: seq<seq<byte>>, pending': seq<byte>)
    requires IsPendingOf(pending, p)
    requires WellFormed(p)
    ensures Segmented(segments, pending', pending + [b], Step(p, b))
  {
    hide Step, WellFormed;
    if Interrupts(p, b) {
      InterruptIsTimeoutThenByte(p, b);
      TimeoutSegment(pending, p);
      assert Flush(p).events == [Flush(p).events[0]];
      assert !Interrupts(FRESH, b);
      var rest, tail := UninterruptedStep([], FRESH, b);
      segments, pending' := [pending] + rest, tail;
      FlattenConcat([pending], rest);
      FlattenSnoc([], pending);
      assert [] + [pending] == [pending];
      assert [] + [b] == [b];
      assert Flatten(segments) == pending + Flatten(rest);
    } else {
      segments, pending' := UninterruptedStep(pending, p, b);
    }
  }

  lemma Append(
      segments: seq<seq<byte>>, pending: seq<byte>, fed: seq<byte>, o: Outcome,
      more: seq<seq<byte>>, pending': seq<byte>, data: seq<byte>, o': Outcome)
    requires Segmented(segments, pending, fed, o)
    requires Segmented(more, pending', pending + data, o')
    ensures Segmented(segments + more, pending', fed + data, Outcome(o'.next, o.events + o'.events))
  {
    hide IsPendingOf, IsSegmentOf;
    FlattenConcat(segments, more);
    calc {
      fed + data;
      Flatten(segments) + pending + data;
      { assert Flatten(segments) + pending + data == Flatten(segments) + (pending + data); }
      Flatten(segments) + (Flatten(more) + pending');
      { assert Flatten(segments) + (Flatten(more) + pending') == Flatten(segments) + Flatten(more) + pending'; }
      Flatten(segments + more) + pending';
    }
  }

  lemma {:induction false} RunSegments(pending: seq<byte>, p: Parser, data: seq<byte>)
    returns (segments: seq<seq<byte>>, pending': seq<byte>)
    requires WellFormed(p) && IsPendingOf(pending, p)
    ensures Segmented(segments, pending', pending + data, Run(p, data))
    decreases |data|
  {
    hide Step, WellFormed, IsPendingOf, IsSegmentOf;
    if data == [] {
      segments, pending' := [], pending;
    } else {
      var init, b := data[..|data| - 1], data[|data| - 1];
      var before, middle := RunSegments(pending, p, init);
      var more, tail := StepSegments(middle, Run(p, init).next, b);
      Append(before, middle, pending + init, Run(p, init), more, tail, [b], Step(Run(p, init).next, b));
      assert pending + init + [b] == pending + data;
      segments, pending' := before + more, tail;
    }
  }

  /** Main result. For any history of feeds and timeouts the bytes fed are, in order and without
      loss, one non-empty segment per event followed by the pending bytes. Each segment, fed to a
      fresh parser that is then timed out, reproduces its event and nothing else; a key's `raw` is
      its segment, and a paste's segment is an introducer, the body and the end marker. */
  lemma LosslessSegmentation(actions: seq<Action>)
    ensures exists segments, pending :: Segmented(segments, pending, BytesOf(actions), ApplyAll(FRESH, actions))
  {
    var segments, pending := CutHistory(actions);
  }

  lemma {:induction false} CutHistory(actions: seq<Action>)
    returns (segments: seq<seq<byte>>, pending: seq<byte>)
    ensures Segmented(segments, pending, BytesOf(actions), ApplyAll(FRESH, actions))
    decreases |actions|
  {
    hide Step;
    if actions == [] {
      segments, pending := [], [];
    } else {
      var init, last := actions[..|actions| - 1], actions[|actions| - 1];
      var before, middle := CutHistory(init);
      var p := ApplyAll(FRESH, init).next;
      var more, tail;
      if last.Feed? {
        more, tail := RunSegments(middle, p, last.data);
        Append(before, middle, BytesOf(init), ApplyAll(FRESH, init), more, tail, last.data, Apply(p, last));
      } else {
        more, tail := TimeoutSegments(middle, p);
        Append(before, middle, BytesOf(init), ApplyAll(FRESH, init), more, tail, [], Apply(p, last));
      }
      segments, pending := before + more, tail;
    }
  }

  lemma NothingPendingAtRest()
    ensures IsPendingOf([], FRESH)
  {
  }

  lemma TimeoutSegments(pending: seq<byte>, p: Parser) returns (segments: seq<seq<byte>>, pending': seq<byte>)
    requires WellFormed(p) && IsPendingOf(pending, p)
    ensures Segmented(segments, pending', pending + [], Flush(p))
  {
    hide WellFormed, Run, IsPendingOf, IsSegmentOf;
    assert pending + [] == pending;
    if HasPending(p) {
      TimeoutSegment(pending, p);
      NothingPendingAtRest();
      segments, pending' := [pending], [];
      FlattenSnoc([], pending);
      assert [] + [pending] == [pending];
    } else {
      segments, pending' := [], pending;
    }
  }

  /** Never more events than bytes. */
  lemma NoMoreEventsThanBytes(actions: seq<Action>)
    ensures |ApplyAll(FRESH, actions).events| <= |BytesOf(actions)|
  {
    var segments, pending := CutHistory(actions);
    SegmentsAreNonEmpty(segments, ApplyAll(FRESH, actions).events);
  }

  lemma {:induction false} SegmentsAreNonEmpty(segments: seq<seq<byte>>, events: seq<InputEvent>)
    requires Segments(segments, events)
    ensures |events| <= |Flatten(segments)|
  {
    if segments != [] {
      SegmentsAreNonEmpty(segments[..|segments| - 1], events[..|events| - 1]);
    }
  }

  /** Every key of every history is reproducible from its own raw bytes. */
  lemma KeysReplay(actions: seq<Action>, i: nat)
    requires i < |ApplyAll(FRESH, actions).events| && ApplyAll(FRESH, actions).events[i].Key?
    ensures Replays(ApplyAll(FRESH, actions).events[i].raw, ApplyAll(FRESH, actions).events[i])
  {
    var segments, _ := CutHistory(actions);
    assert IsSegmentOf(segments[i], ApplyAll(FRESH, actions).events[i]);
  }

  // ---- Chunking ----

  datatype Tick = Byte(b: byte) | Idle

  function ByteTicks(data: seq<byte>): seq<Tick> { seq(|data|, i requires 0 <= i < |data| => Byte(data[i])) }

  /** What the parser can observe of a history: the bytes and where the timeouts fall. */
  function Ticks(actions: seq<Action>): seq<Tick> {
    if actions == [] then []
    else
      Ticks(actions[..|actions| - 1]) +
      match actions[|actions| - 1] case Feed(data) => ByteTicks(data) case Timeout => [Idle]
  }

  function ApplyTick(p: Parser, tick: Tick): (o: Outcome)
    requires WellFormed(p)
    ensures WellFormed(o.next)
  {
    match tick
    case Byte(b) => (StepKeepsWellFormed(p, b); Step(p, b))
    case Idle => Flush(p)
  }

  function ApplyTicks(p: Parser, ticks: seq<Tick>): (o: Outcome)
    requires WellFormed(p)
    ensures WellFormed(o.next)
  {
    if ticks == [] then Outcome(p, [])
    else
      var before := ApplyTicks(p, ticks[..|ticks| - 1]);
      var last := ApplyTick(before.next, ticks[|ticks| - 1]);
      Outcome(last.next, before.events + last.events)
  }

  lemma {:induction false} ByteTicksRun(p: Parser, ticks: seq<Tick>, data: seq<byte>)
    requires WellFormed(p)
    ensures ApplyTicks(p, ticks + ByteTicks(data)) ==
      var before := ApplyTicks(p, ticks);
      Outcome(Run(before.next, data).next, before.events + Run(before.next, data).events)
    decreases |data|
  {
    hide Step, WellFormed;
    if data == [] {
      assert ticks + ByteTicks(data) == ticks;
    } else {
      var init, b := data[..|data| - 1], data[|data| - 1];
      ByteTicksRun(p, ticks, init);
      assert ByteTicks(data) == ByteTicks(init) + [Byte(b)];
      assert (ticks + ByteTicks(data))[..|ticks| + |data| - 1] == ticks + ByteTicks(init);
    }
  }

  lemma {:induction false} HistoryIsItsTicks(p: Parser, actions: seq<Action>)
    requires WellFormed(p)
    ensures ApplyAll(p, actions) == ApplyTicks(p, Ticks(actions))
    decreases |actions|
  {
    hide Step, WellFormed, Flush;
    if actions != [] {
      var init, last := actions[..|actions| - 1], actions[|actions| - 1];
      HistoryIsItsTicks(p, init);
      match last {
        case Feed(data) => ByteTicksRun(p, Ticks(init), data);
        case Timeout => assert (Ticks(init) + [Idle])[..|Ticks(init)|] == Ticks(init);
      }
    }
  }

  /** How the bytes are cut into feeds changes neither the events nor the final state. */
  lemma ChunkingIsInvisible(p: Parser, actions: seq<Action>, actions': seq<Action>)
    requires WellFormed(p)
    requires Ticks(actions) == Ticks(actions')
    ensures ApplyAll(p, actions) == ApplyAll(p, actions')
  {
    HistoryIsItsTicks(p, actions);
    HistoryIsItsTicks(p, actions');
  }
}
