/** What the child reads of forwarded pastes and mouse reports, when it parses its input with the same
    grammar: the byte filter meets the printers of on_paste and to_x10_bytes. */
module Forwarding {
  import opened Common
  import opened InputEvents
  import opened ParserSpec
  import opened NumericFields
  import opened PastedText
  import opened MouseReports
  import opened PtySpec

  lemma MarkersPassTheFilter(text: seq<byte>)
    ensures Filtered(Bracketed(text)) == Bracketed(Filtered(text))
  {
    FilteredUnchanged(PASTE_START);
    FilteredUnchanged(PASTE_END);
    FilteredConcat(PASTE_START + text, PASTE_END);
    FilteredConcat(PASTE_START, text);
  }

  /** A forwarded paste arrives as one paste of the filtered text exactly when filtering leaves no
      end marker in it; dropping a hotkey byte can create one. */
  lemma ForwardedPaste(text: seq<byte>)
    ensures Run(FRESH, Filtered(Bracketed(text))) == Outcome(FRESH, [Paste(Filtered(text))]) <==>
      !Contains(Filtered(text), PASTE_END)
  {
    MarkersPassTheFilter(text);
    PasteRoundTrip(Filtered(text));
  }

  /** It arrives verbatim exactly when the text has neither the end marker nor a hotkey byte. */
  lemma ForwardedPasteVerbatim(text: seq<byte>)
    ensures Run(FRESH, Filtered(Bracketed(text))) == Outcome(FRESH, [Paste(text)]) <==>
      !Contains(text, PASTE_END) && forall i :: 0 <= i < |text| ==> !IsHotkey(text[i])
  {
    hide Run, Contains;
    MarkersPassTheFilter(text);
    FilteredUnchanged(text);
    PasteRoundTrip(Filtered(text));
    if Run(FRESH, Filtered(Bracketed(text))) == Outcome(FRESH, [Paste(text)]) {
      FirstPasteIsNoLonger(Filtered(text), text);
    }
  }

  /** A paste read from a printed text is never longer than the text. */
  lemma FirstPasteIsNoLonger(text: seq<byte>, body: seq<byte>)
    requires Run(FRESH, Bracketed(text)) == Outcome(FRESH, [Paste(body)])
    ensures |body| <= |text|
    ensures |body| == |text| ==> body == text
  {
    hide Run, Step;
    if Contains(text, PASTE_END) {
      var front, rest := FirstMarker(text);
      TruncatedPaste(text, front, rest);
    } else {
      PasteRoundTrip(text);
    }
  }

  /** A position byte that the filter drops: a coordinate whose byte is a hotkey. */
  predicate Swallowed(position: u16) { IsHotkey(PositionByte(position)) }

  function Surviving(b: byte): seq<byte> { if IsHotkey(b) then [] else [b] }

  lemma FilteredTail(front: seq<byte>, a: byte, b: byte)
    requires forall i :: 0 <= i < |front| ==> !IsHotkey(front[i])
    ensures Filtered(front + [a] + [b]) == front + (Surviving(a) + Surviving(b))
  {
    hide Filtered;
    FilteredUnchanged(front);
    FilteredByte(a);
    FilteredByte(b);
    FilteredConcat(front, [a]);
    FilteredConcat(front + [a], [b]);
    assert front + Surviving(a) + Surviving(b) == front + (Surviving(a) + Surviving(b));
  }

  lemma FilteredReport(e: MouseEvent)
    ensures Filtered(ToX10Bytes(e)) ==
      [ESC, 0x5b, 0x4d, ButtonCode(e) + 32] + (Surviving(PositionByte(e.col)) + Surviving(PositionByte(e.row)))
  {
    hide ButtonCode, Filtered, PositionByte;
    PrintedReport(e);
    var front: seq<byte> := [ESC, 0x5b, 0x4d, ButtonCode(e) + 32];
    FilteredTail(front, PositionByte(e.col), PositionByte(e.row));
    assert ToX10Bytes(e) == front + [PositionByte(e.col)] + [PositionByte(e.row)];
  }

  lemma FilteredByte(b: byte)
    ensures Filtered([b]) == Surviving(b)
  {
    assert [b][..0] == [];
  }

  /** A report that lost a byte leaves the child waiting for more. */
  lemma ShortReport(button: byte, rest: seq<byte>)
    requires |rest| <= 1
    ensures Run(FRESH, [ESC, 0x5b, 0x4d, button] + rest).events == []
  {
    hide Step, WellFormed;
    var intro: seq<byte> := [ESC, 0x5b, 0x4d];
    hide StepMouseX10;
    Introducer();
    X10Silent(intro, 0, button);
    assert intro + [button] == [ESC, 0x5b, 0x4d, button];
    if rest == [] {
      assert intro + [button] + rest == intro + [button];
    } else {
      X10Silent(intro + [button], 1, rest[0]);
      assert rest == [rest[0]];
    }
  }

  /** A forwarded mouse report reaches the child as the same event exactly when both coordinates are
      below 256 and neither coordinate byte is a hotkey; a swallowed byte leaves the child waiting. */
  lemma ForwardedMouse(e: MouseEvent)
    ensures Run(FRESH, Filtered(ToX10Bytes(e))) == Outcome(FRESH, [Mouse(e)]) <==>
      !Swallowed(e.col) && !Swallowed(e.row) && e.col < 0x100 && e.row < 0x100
    ensures Swallowed(e.col) || Swallowed(e.row) ==> Run(FRESH, Filtered(ToX10Bytes(e))).events == []
  {
    hide Run, Filtered, ButtonCode, IsHotkey;
    FilteredReport(e);
    X10RoundTrip(e);
    var rest := Surviving(PositionByte(e.col)) + Surviving(PositionByte(e.row));
    if Swallowed(e.col) || Swallowed(e.row) {
      ShortReport(ButtonCode(e) + 32, rest);
    } else {
      assert ToX10Bytes(e) == [ESC, 0x5b, 0x4d, ButtonCode(e) + 32] + rest;
    }
  }
}
