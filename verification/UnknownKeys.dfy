/** The converse of NamedKeys: which bytes name no key. Every byte that can follow an introducer is
    settled, either by the printed form of some key or as Unknown. */
module UnknownKeys {
  import opened Common
  import opened InputEvents
  import opened ParserSpec
  import opened NumericFields
  import opened NamedKeys
  import opened TypedText
  import opened MouseReports
  import Utf8

  ghost predicate NoFinal(b: byte) { forall kind :: FinalOf(kind) != Some(b) }

  ghost predicate NoNumber(n: nat) { forall kind :: NumberOf(kind) != Some(n) }

  /** Bytes that stand for nothing outside a sequence: control codes without a letter. */
  predicate IsBareControl(b: byte) { b == 0x00 || 0x1c <= b <= 0x1f }

  /** A byte at rest is Unknown exactly when it is such a control code, a stray continuation byte or a
      byte that opens no UTF-8 sequence. */
  lemma UnknownAtRest(b: byte)
    ensures Run(FRESH, [b]) == Emit([b], Unknown) <==> IsBareControl(b) || 0x80 <= b < 0xc0 || 0xf8 <= b
    ensures Run(FRESH, [b]).events == [] <==> b == ESC || 0xc0 <= b < 0xf8
  {
    hide Run;
    OneByteRun(b);
  }

  /** Behind an escape byte it is Unknown exactly when it is such a control code or no ASCII at all. */
  lemma UnknownAfterEscape(b: byte)
    ensures Run(FRESH, [ESC, b]) == Emit([ESC, b], Unknown) <==> IsBareControl(b) || 0x80 <= b
    ensures Run(FRESH, [ESC, b]).events == [] <==> b == 0x5b || b == 0x4f
  {
    hide Run;
    EscByte(b);
    assert [ESC] + [b] == [ESC, b];
  }

  lemma CursorKeysAreFinals(b: byte)
    ensures CursorKey(b).None? <==> NoFinal(b)
    ensures forall kind :: FinalOf(kind) == Some(b) ==> CursorKey(b) == Some(kind)
  {
    forall kind | FinalOf(kind) == Some(b) ensures CursorKey(b) == Some(kind) {
      FinalIsCursorKey(kind);
    }
    if CursorKey(b).Some? {
      assert FinalOf(CursorKey(b).value) == Some(b);
    }
  }

  /** ESC [ and one byte: digits, semicolon, `<` and `M` go on; any other byte is the key printed with
      that final byte, and Unknown exactly when there is no such key. */
  lemma AfterIntroducer(b: byte)
    ensures Run(FRESH, [ESC, 0x5b, b]).events == [] <==> 0x30 <= b <= 0x39 || b == 0x3b || b == 0x3c || b == 0x4d
    ensures forall kind :: FinalOf(kind) == Some(b) ==> Run(FRESH, [ESC, 0x5b, b]) == Emit([ESC, 0x5b, b], kind)
    ensures Run(FRESH, [ESC, 0x5b, b]) == Emit([ESC, 0x5b, b], Unknown) <==>
      NoFinal(b) && Run(FRESH, [ESC, 0x5b, b]).events != []
  {
    hide Run, CursorKey, FinalOf;
    EntryByte(b);
    CursorKeysAreFinals(b);
    FinalsAreLetters(b);
    assert [ESC, 0x5b] + [b] == [ESC, 0x5b, b];
  }

  lemma FinalsAreLetters(b: byte)
    ensures !NoFinal(b) ==> 0x40 <= b < TILDE && b != 0x4d
    ensures CursorKey(b) != Some(Unknown)
  {
  }

  /** Bit 1 of the modifier minus one, after the cut to the largest u16. */
  predicate AltBit(modifier: nat) { modifier != 0 && (Min(modifier, 0xFFFF) - 1) / 2 % 2 == 1 }

  /** The key of a sequence with fields: under Alt when its second field says so. */
  function Modified(kind: KeyKind, fields: seq<seq<byte>>): KeyKind
    requires AllDigitFields(fields)
  {
    if |fields| >= 2 && (assert AllDigits(fields[1]); AltBit(DecimalValue(fields[1]))) then Alt(kind) else kind
  }

  lemma ModifiedByFields(kind: KeyKind, fields: seq<seq<byte>>)
    requires AllDigitFields(fields)
    ensures WithModifier(kind, CappedValues(fields)) == Modified(kind, fields)
  {
  }

  /** ESC [ fields and a final letter: the key printed with that final byte, and Unknown exactly when
      there is no such key. */
  lemma AfterFieldsFinal(fields: seq<seq<byte>>, b: byte)
    requires fields != [] && AllDigitFields(fields) && Join(fields) != [] && 0x40 <= b < TILDE
    ensures var sequence := KeySequence(fields, b);
      && (forall kind :: FinalOf(kind) == Some(b) ==> Run(FRESH, sequence) == Emit(sequence, Modified(kind, fields)))
      && (Run(FRESH, sequence) == Emit(sequence, Unknown) <==> NoFinal(b))
  {
    hide Run, CursorKey, FinalOf, WithModifier, Modified, CappedValues, Join, DecimalValue;
    FinalByteSequence(fields, b);
    CursorKeysAreFinals(b);
    FinalsAreLetters(b);
    forall kind ensures WithModifier(kind, CappedValues(fields)) == Modified(kind, fields) {
      ModifiedByFields(kind, fields);
    }
    ModifiedIsNamed(fields);
  }

  lemma ModifiedIsNamed(fields: seq<seq<byte>>)
    requires AllDigitFields(fields)
    ensures forall kind :: Modified(kind, fields) == Unknown ==> kind == Unknown
  {
  }

  /** ESC [ fields ~: a paste exactly when the first field is worth 200, else the key printed with that
      number, and Unknown exactly when there is no such key. */
  lemma AfterFieldsTilde(fields: seq<seq<byte>>)
    requires fields != [] && AllDigitFields(fields) && Join(fields) != []
    ensures AllDigits(fields[0])
    ensures var sequence, n := KeySequence(fields, TILDE), DecimalValue(fields[0]);
      && (Run(FRESH, sequence).events == [] <==> n == 200)
      && (forall kind :: NumberOf(kind) == Some(n) ==> Run(FRESH, sequence) == Emit(sequence, Modified(kind, fields)))
      && (Run(FRESH, sequence) == Emit(sequence, Unknown) <==> n != 200 && NoNumber(n))
  {
    hide Run, ClassifyTilde, NumberOf, WithModifier, Modified, CappedValues, Join, DecimalValue;
    TildeSequence(fields);
    var n := DecimalValue(fields[0]);
    FirstCapped(fields);
    TildeKeysAreNumbered(CappedValues(fields), n);
    forall kind ensures WithModifier(kind, CappedValues(fields)) == Modified(kind, fields) {
      ModifiedByFields(kind, fields);
    }
    NumbersAreSmall();
    ModifiedIsNamed(fields);
  }

  lemma FirstCapped(fields: seq<seq<byte>>)
    requires fields != [] && AllDigitFields(fields)
    ensures AllDigits(fields[0]) && CappedValues(fields)[0] == Min(DecimalValue(fields[0]), 0xFFFF)
  {
  }

  lemma TildeKeysAreNumbered(params: seq<u16>, n: nat)
    requires params != [] && params[0] == Min(n, 0xFFFF)
    ensures forall kind :: NumberOf(kind) == Some(n) ==> ClassifyTilde(params) == WithModifier(kind, params)
    ensures ClassifyTilde(params) == Unknown <==> NoNumber(n)
  {
    forall kind | NumberOf(kind) == Some(n) ensures ClassifyTilde(params) == WithModifier(kind, params) {
      NumberIsTildeKey(kind, params);
    }
    if ClassifyTilde(params) != Unknown {
      NumberedKeys(n);
    }
  }

  lemma NumberedKeys(n: nat)
    requires n in {2, 3, 5, 6, 15, 17, 18, 19, 20, 21, 23, 24}
    ensures !NoNumber(n)
  {
    assert NumberOf(Nav(Insert)) == Some(2) && NumberOf(Nav(Delete)) == Some(3);
    assert NumberOf(Nav(PageUp)) == Some(5) && NumberOf(Nav(PageDown)) == Some(6);
    assert NumberOf(Function(5)) == Some(15);
    assert n > 15 ==> NumberOf(Function(if n <= 21 then n - 11 else n - 12)) == Some(n);
  }

  lemma NumbersAreSmall()
    ensures forall kind :: NumberOf(kind).Some? ==> NumberOf(kind).value < 100 && kind != Unknown
  {
  }

  /** Any other byte behind fields ends the sequence as Unknown. */
  lemma AfterFieldsOther(fields: seq<seq<byte>>, b: byte)
    requires fields != [] && AllDigitFields(fields) && Join(fields) != []
    requires b < 0x30 || b == 0x3a || 0x3c <= b < 0x40 || TILDE < b
    ensures Run(FRESH, KeySequence(fields, b)) == Emit(KeySequence(fields, b), Unknown)
  {
    hide Run, Join;
    SequenceRun(fields, b);
  }

  /** ESC O and one byte: F1 to F4, the key printed with that final byte, and Unknown otherwise. */
  lemma AfterSs3(b: byte)
    ensures forall kind :: FinalOf(kind) == Some(b) ==> Run(FRESH, [ESC, 0x4f, b]) == Emit([ESC, 0x4f, b], kind)
    ensures 0x50 <= b <= 0x53 ==> Run(FRESH, [ESC, 0x4f, b]) == Emit([ESC, 0x4f, b], Function((b - 0x4f) as nat))
    ensures Run(FRESH, [ESC, 0x4f, b]) == Emit([ESC, 0x4f, b], Unknown) <==> NoFinal(b) && !(0x50 <= b <= 0x53)
  {
    hide Run, CursorKey, FinalOf;
    Ss3Byte(b);
    CursorKeysAreFinals(b);
    FinalsAreLetters(b);
    FinalsAreBelowP(b);
  }

  lemma FinalsAreBelowP(b: byte)
    ensures !NoFinal(b) ==> b < 0x50
  {
  }

  /** A byte that is neither parameter nor final ends an SGR report as Unknown. */
  lemma AbortedSgrReport(params: seq<byte>, b: byte)
    requires forall i :: 0 <= i < |params| ==> IsParamByte(params[i])
    requires !(0x30 <= b <= 0x39) && b != 0x3b && b != 0x4d && b != 0x6d
    ensures var sequence := [ESC, 0x5b, 0x3c] + params + [b];
      Run(FRESH, sequence) == Emit(sequence, Unknown)
  {
    hide Run;
    SgrRun(params, b);
  }

  /** The timeout in every reachable state: nothing at rest and inside a paste, Escape for a lone escape
      byte, and for anything else pending one Unknown key that carries it. */
  lemma TimeoutKey(p: Parser)
    requires WellFormed(p)
    ensures Flush(p) ==
      if p == FRESH || p.state.PasteBuf? then Outcome(p, [])
      else Emit(p.buf, if p.buf == [ESC] then Escape else Unknown)
  {
  }
}
