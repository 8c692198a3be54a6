/** Pasted text: what App::on_paste prints is read back as one paste of the same bytes exactly
    when the text does not contain the end marker, however the bytes are cut into feeds. */
module PastedText {
  import opened Common
  import opened InputEvents
  import opened ParserSpec
  import opened ParserSegmentation
  import opened ParserReplay

  /** The bytes App::on_paste sends to the child. */
  function Bracketed(text: seq<byte>): seq<byte> { PASTE_START + text + PASTE_END }

  /** The escape byte occurs in the end marker only at its front, so an incomplete marker behind
      a text cannot complete an occurrence that starts inside the text. */
  lemma NoEarlyMarker(text: seq<byte>, k: nat)
    requires k < |PASTE_END|
    ensures Contains(text + PASTE_END[..k], PASTE_END) <==> Contains(text, PASTE_END)
  {
    var s := text + PASTE_END[..k];
    if Contains(text, PASTE_END) {
      ContainsPrefix(text, PASTE_END[..k], PASTE_END);
    }
    if i: nat :| OccursAt(s, PASTE_END, i) {
      OccurrenceBytes(s, PASTE_END, i);
      assert |text| < |s| ==> s[|text|] == ESC;
      assert text[i..i + |PASTE_END|] == s[i..i + |PASTE_END|];
      assert OccursAt(text, PASTE_END, i);
    }
  }

  lemma {:induction false} InsidePaste(body: seq<byte>)
    requires !Contains(body, PASTE_END)
    ensures WellFormed(Parser(PasteBuf, []))
    ensures Run(Parser(PasteBuf, []), body) == Outcome(Parser(PasteBuf, body), [])
  {
    hide StepGround;
    EmptyHoldsNoMarker();
    if body != [] {
      var init, b := body[..|body| - 1], body[|body| - 1];
      assert body == init + [b];
      MarkerFreePrefix(init, body, PASTE_END);
      InsidePaste(init);
      RunSnoc(Parser(PasteBuf, []), init, b);
      PastePredecessor(Parser(PasteBuf, body));
    }
  }

  /** From inside a paste, marker-free text followed by the end marker is one paste of that text. */
  lemma PasteCloses(text: seq<byte>)
    requires !Contains(text, PASTE_END)
    ensures WellFormed(Parser(PasteBuf, []))
    ensures Run(Parser(PasteBuf, []), text + PASTE_END) == Outcome(FRESH, [Paste(text)])
  {
    hide Step;
    var k := |PASTE_END| - 1;
    var body := text + PASTE_END[..k];
    NoEarlyMarker(text, k);
    InsidePaste(body);
    assert text + PASTE_END == body + [TILDE];
    RunSnoc(Parser(PasteBuf, []), body, TILDE);
    LastMarkerByte(text, body);
  }

  lemma LastMarkerByte(text: seq<byte>, body: seq<byte>)
    requires body == text + PASTE_END[..|PASTE_END| - 1]
    ensures StepPaste(body, TILDE) == Outcome(FRESH, [Paste(text)])
    ensures WellFormed(Parser(PasteBuf, body)) ==> Step(Parser(PasteBuf, body), TILDE) == StepPaste(body, TILDE)
  {
    var raw := body + [TILDE];
    assert raw == text + PASTE_END;
    assert raw[|raw| - |PASTE_END|..] == PASTE_END;
    assert raw[..|raw| - |PASTE_END|] == text;
  }

  /** The first marker inside a paste closes it, whatever follows. */
  lemma FirstMarker(text: seq<byte>) returns (body: seq<byte>, rest: seq<byte>)
    requires Contains(text, PASTE_END)
    ensures !Contains(body, PASTE_END) && text == body + PASTE_END + rest
  {
    var i: nat :| OccursAt(text, PASTE_END, i);
    body, rest := text[..i], text[i + |PASTE_END|..];
    assert text == body + PASTE_END + rest;
    if Contains(body, PASTE_END) {
      var body', rest' := FirstMarker(body);
      assert text == body' + PASTE_END + (rest' + PASTE_END + rest);
      body, rest := body', rest' + PASTE_END + rest;
    }
  }

  lemma BracketedRun(text: seq<byte>)
    ensures WellFormed(Parser(PasteBuf, []))
    ensures Run(FRESH, Bracketed(text)) == Run(Parser(PasteBuf, []), text + PASTE_END)
  {
    StartMarkerOpensPaste();
    RunOn(PASTE_START, Parser(PasteBuf, []), text + PASTE_END);
    assert Bracketed(text) == PASTE_START + (text + PASTE_END);
  }

  /** The first event of a printed paste is the text up to its first end marker. */
  lemma TruncatedPaste(text: seq<byte>, body: seq<byte>, rest: seq<byte>)
    requires !Contains(body, PASTE_END) && text == body + PASTE_END + rest
    ensures Run(FRESH, Bracketed(text)).events != []
    ensures Run(FRESH, Bracketed(text)).events[0] == Paste(body)
  {
    hide Step, WellFormed;
    BracketedRun(text);
    PasteCloses(body);
    RunConcat(Parser(PasteBuf, []), body + PASTE_END, rest + PASTE_END);
    assert text + PASTE_END == (body + PASTE_END) + (rest + PASTE_END);
  }

  /** What on_paste prints reads back as the one paste of the same text exactly when the text
      does not contain the end marker. */
  lemma PasteRoundTrip(text: seq<byte>)
    ensures Run(FRESH, Bracketed(text)) == Outcome(FRESH, [Paste(text)]) <==> !Contains(text, PASTE_END)
  {
    hide Step, WellFormed;
    if Contains(text, PASTE_END) {
      var body, rest := FirstMarker(text);
      TruncatedPaste(text, body, rest);
      assert |body| < |text|;
    } else {
      BracketedRun(text);
      PasteCloses(text);
    }
  }

  // ---- Cut into feeds, with timeouts ----

  function TickBytes(ticks: seq<Tick>): seq<byte> {
    if ticks == [] then []
    else TickBytes(ticks[..|ticks| - 1]) + match ticks[|ticks| - 1] case Byte(b) => [b] case Idle => []
  }

  /** Inside a paste timeouts are invisible. */
  lemma {:induction false} TimeoutsInsidePaste(ticks: seq<Tick>)
    requires !Contains(TickBytes(ticks), PASTE_END)
    ensures WellFormed(Parser(PasteBuf, []))
    ensures ApplyTicks(Parser(PasteBuf, []), ticks) == Outcome(Parser(PasteBuf, TickBytes(ticks)), [])
  {
    hide StepGround;
    EmptyHoldsNoMarker();
    if ticks != [] {
      var init, last := ticks[..|ticks| - 1], ticks[|ticks| - 1];
      MarkerFreePrefix(TickBytes(init), TickBytes(ticks), PASTE_END);
      TimeoutsInsidePaste(init);
      if last.Byte? {
        PastePredecessor(Parser(PasteBuf, TickBytes(ticks)));
      }
    }
  }

  lemma {:induction false} PasteClosesWithTimeouts(text: seq<byte>, ticks: seq<Tick>)
    requires !Contains(text, PASTE_END) && TickBytes(ticks) == text + PASTE_END
    ensures WellFormed(Parser(PasteBuf, []))
    ensures ApplyTicks(Parser(PasteBuf, []), ticks) == Outcome(FRESH, [Paste(text)])
  {
    hide Step;
    EmptyHoldsNoMarker();
    var init, last := ticks[..|ticks| - 1], ticks[|ticks| - 1];
    if last.Idle? {
      PasteClosesWithTimeouts(text, init);
    } else {
      var body := text + PASTE_END[..|PASTE_END| - 1];
      assert TickBytes(init) + [last.b] == text + PASTE_END;
      assert (text + PASTE_END)[..|TickBytes(init)|] == TickBytes(init) == body;
      assert last.b == (text + PASTE_END)[|text + PASTE_END| - 1] == TILDE;
      NoEarlyMarker(text, |PASTE_END| - 1);
      TimeoutsInsidePaste(init);
      LastMarkerByte(text, body);
    }
  }

  lemma {:induction false} TicksConcat(p: Parser, first: seq<Tick>, second: seq<Tick>)
    requires WellFormed(p)
    ensures ApplyTicks(p, first + second) ==
      var before := ApplyTicks(p, first);
      Outcome(ApplyTicks(before.next, second).next, before.events + ApplyTicks(before.next, second).events)
    decreases |second|
  {
    hide Step, WellFormed, Flush;
    if second == [] {
      assert first + second == first;
    } else {
      TicksConcat(p, first, second[..|second| - 1]);
      assert (first + second)[..|first + second| - 1] == first + second[..|second| - 1];
    }
  }

  /** The round trip survives any cutting into feeds, with timeouts anywhere after the start
      marker: a history whose bytes are the printed paste yields exactly one paste. */
  lemma PasteUnderAnyChunking(actions: seq<Action>, inside: seq<Tick>, text: seq<byte>)
    requires !Contains(text, PASTE_END)
    requires Ticks(actions) == ByteTicks(PASTE_START) + inside && TickBytes(inside) == text + PASTE_END
    ensures ApplyAll(FRESH, actions) == Outcome(FRESH, [Paste(text)])
  {
    hide Step, Flush;
    HistoryIsItsTicks(FRESH, actions);
    StartMarkerOpensPaste();
    ByteTicksRun(FRESH, [], PASTE_START);
    assert [] + ByteTicks(PASTE_START) == ByteTicks(PASTE_START);
    TicksConcat(FRESH, ByteTicks(PASTE_START), inside);
    PasteClosesWithTimeouts(text, inside);
  }
}
