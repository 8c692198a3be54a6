/** Typed text: the parser undoes UTF-8 encoding (section 3 of RFC 3629). */
module TypedText {
  import opened Common
  import opened InputEvents
  import opened ParserSpec
  import Utf8

  /** Scalars that stand for themselves; the rest of ASCII is control keys. */
  predicate IsText(c: scalar) { 0x20 <= c <= 0x7e || 0x80 <= c }

  function CharEvents(text: seq<scalar>): seq<InputEvent> {
    seq(|text|, i requires 0 <= i < |text| => Key(Utf8.Encode(text[i]), Char(text[i])))
  }

  lemma LeadStep(raw: seq<byte>)
    requires Utf8.IsSequence(raw)
    ensures Step(FRESH, raw[0]) == Stay(Utf8Pending(|raw| - 1), [raw[0]])
  {
  }

  lemma ContinuationStep(raw: seq<byte>, k: nat)
    requires Utf8.IsSequence(raw) && 1 <= k < |raw|
    requires WellFormed(Parser(Utf8Pending(|raw| - k), raw[..k]))
    ensures Step(Parser(Utf8Pending(|raw| - k), raw[..k]), raw[k]) ==
      if k + 1 < |raw| then Stay(Utf8Pending(|raw| - k - 1), raw[..k + 1])
      else Emit(raw, match Utf8.Decode(raw) case Some(c) => Char(c) case None => Unknown)
  {
    hide Utf8.Decode;
    assert raw[..k] + [raw[k]] == raw[..k + 1];
    assert raw[..|raw|] == raw;
  }

  lemma {:induction false} PartialSequence(raw: seq<byte>, k: nat)
    requires Utf8.IsSequence(raw) && 1 <= k < |raw|
    ensures Run(FRESH, raw[..k]) == Outcome(Parser(Utf8Pending(|raw| - k), raw[..k]), [])
    decreases k
  {
    hide Step;
    assert raw[..k] == raw[..k - 1] + [raw[k - 1]];
    if k == 1 {
      RunStep([], FRESH, raw[0]);
      LeadStep(raw);
    } else {
      PartialSequence(raw, k - 1);
      RunStep(raw[..k - 1], Parser(Utf8Pending(|raw| - k + 1), raw[..k - 1]), raw[k - 1]);
      ContinuationStep(raw, k - 1);
    }
  }

  lemma CompleteSequence(raw: seq<byte>)
    requires Utf8.IsSequence(raw)
    ensures Run(FRESH, raw) == Emit(raw, match Utf8.Decode(raw) case Some(c) => Char(c) case None => Unknown)
  {
    hide Step, Utf8.Decode;
    var k := |raw| - 1;
    PartialSequence(raw, k);
    assert raw == raw[..k] + [raw[k]];
    RunStep(raw[..k], Parser(Utf8Pending(1), raw[..k]), raw[k]);
    ContinuationStep(raw, k);
  }

  /** A lead byte with the continuations it announces is always one key; it is the character `c`
      exactly when the bytes are the encoding of `c`, and Unknown when they encode nothing. */
  lemma SequenceIsItsCharacter(raw: seq<byte>, c: scalar)
    requires Utf8.IsSequence(raw)
    ensures Run(FRESH, raw).next == FRESH && |Run(FRESH, raw).events| == 1
    ensures Run(FRESH, raw) == Emit(raw, Char(c)) <==> raw == Utf8.Encode(c)
    ensures (forall d :: Utf8.Encode(d) != raw) ==> Run(FRESH, raw) == Emit(raw, Unknown)
  {
    CompleteSequence(raw);
    Utf8.DecodeInvertsEncode(raw, c);
    if Utf8.Decode(raw).Some? {
      Utf8.DecodeInvertsEncode(raw, Utf8.Decode(raw).value);
    }
  }

  lemma OneByteRun(b: byte)
    ensures Run(FRESH, [b]) == StepGround(b)
  {
    RunStep([], FRESH, b);
    assert [] + [b] == [b];
  }

  /** One encoded scalar reads back as itself exactly when it is a text scalar. */
  lemma CharacterRoundTrip(c: scalar)
    ensures Run(FRESH, Utf8.Encode(c)) == Emit(Utf8.Encode(c), Char(c)) <==> IsText(c)
  {
    if c < 0x80 {
      OneByteRun(c);
    } else {
      Utf8.EncodeIsSequence(c);
      SequenceIsItsCharacter(Utf8.Encode(c), c);
    }
  }

  /** Any text, fed as UTF-8 from rest, yields one character event per scalar, in order, each with
      its own encoding as raw bytes, and leaves nothing pending. */
  lemma {:induction false} TextRoundTrip(text: seq<scalar>)
    requires forall i :: 0 <= i < |text| ==> IsText(text[i])
    ensures Run(FRESH, Utf8.EncodeAll(text)) == Outcome(FRESH, CharEvents(text))
  {
    hide Step, WellFormed;
    if text != [] {
      var init, c := text[..|text| - 1], text[|text| - 1];
      TextRoundTrip(init);
      CharacterRoundTrip(c);
      RunConcat(FRESH, Utf8.EncodeAll(init), Utf8.Encode(c));
      assert CharEvents(text) == CharEvents(init) + [Key(Utf8.Encode(c), Char(c))];
    }
  }
}
