/** Decimal parameters of control sequences: what the cut-and-fold of the parser computes,
    stated with joined digit strings and their plain decimal values. */
module NumericFields {
  import opened Common
  import opened InputEvents
  import opened ParserSpec

  predicate AllDigits(ds: seq<byte>) { forall i :: 0 <= i < |ds| ==> IsDigit(ds[i]) }

  predicate AllDigitFields(fields: seq<seq<byte>>) { forall i :: 0 <= i < |fields| ==> AllDigits(fields[i]) }

  function DecimalValue(ds: seq<byte>): nat
    requires AllDigits(ds)
  {
    if ds == [] then 0
    else DecimalValue(ds[..|ds| - 1]) * 10 + (ds[|ds| - 1] as int - 0x30)
  }

  /** Fields with a semicolon between neighbours. */
  function Join(fields: seq<seq<byte>>): seq<byte>
    requires fields != []
  {
    if |fields| == 1 then fields[0]
    else Join(fields[..|fields| - 1]) + [SEMICOLON] + fields[|fields| - 1]
  }

  /** The saturating fold is the decimal value cut off at the largest u16, for any number of digits. */
  lemma {:induction false} SaturatingFoldIsMin(ds: seq<byte>)
    requires AllDigits(ds)
    ensures SaturatingField(ds) == Min(DecimalValue(ds), 0xFFFF)
  {
    if ds != [] {
      SaturatingFoldIsMin(ds[..|ds| - 1]);
    }
  }

  lemma {:induction false} SplitAfterSeparator(front: seq<byte>, field: seq<byte>)
    requires AllDigits(field)
    ensures SplitFields(front + [SEMICOLON] + field) == SplitFields(front) + [field]
  {
    var s := front + [SEMICOLON] + field;
    if field == [] {
      assert s[..|s| - 1] == front;
    } else {
      var init, b := field[..|field| - 1], field[|field| - 1];
      SplitAfterSeparator(front, init);
      assert s[..|s| - 1] == front + [SEMICOLON] + init;
      assert field == init + [b];
      assert (SplitFields(front) + [init])[..|SplitFields(front)|] == SplitFields(front);
    }
  }

  lemma {:induction false} SplitOneField(field: seq<byte>)
    requires AllDigits(field)
    ensures SplitFields(field) == [field]
  {
    if field != [] {
      var init, b := field[..|field| - 1], field[|field| - 1];
      SplitOneField(init);
      assert field == init + [b];
      assert [init][..0] + [init + [b]] == [field];
    }
  }

  /** Cutting undoes joining. */
  lemma {:induction false} SplitUndoesJoin(fields: seq<seq<byte>>)
    requires fields != [] && AllDigitFields(fields)
    ensures SplitFields(Join(fields)) == fields
  {
    var init, last := fields[..|fields| - 1], fields[|fields| - 1];
    assert AllDigits(last);
    assert fields == init + [last];
    if |fields| == 1 {
      SplitOneField(last);
    } else {
      SplitUndoesJoin(init);
      SplitAfterSeparator(Join(init), last);
    }
  }

  function CappedValues(fields: seq<seq<byte>>): (values: seq<u16>)
    requires AllDigitFields(fields)
    ensures |values| == |fields|
  {
    seq(|fields|, i requires 0 <= i < |fields| => assert AllDigits(fields[i]); Min(DecimalValue(fields[i]), 0xFFFF))
  }

  /** The parameter list of a joined string is the list of capped decimal values. */
  lemma FieldValuesOfJoin(fields: seq<seq<byte>>)
    requires fields != [] && AllDigitFields(fields)
    ensures FieldValues(Join(fields)) == CappedValues(fields)
  {
    SplitUndoesJoin(fields);
    forall i | 0 <= i < |fields| ensures SaturatingField(fields[i]) == CappedValues(fields)[i] {
      assert AllDigits(fields[i]);
      SaturatingFoldIsMin(fields[i]);
    }
    assert FieldValues(Join(fields)) == CappedValues(fields);
  }

  lemma {:induction false} JoinedBytes(fields: seq<seq<byte>>)
    requires fields != [] && AllDigitFields(fields)
    ensures forall i :: 0 <= i < |Join(fields)| ==> IsParamByte(Join(fields)[i])
  {
    assert AllDigits(fields[|fields| - 1]);
    if |fields| > 1 {
      JoinedBytes(fields[..|fields| - 1]);
    }
  }

  /** Parameters of a whole sequence ESC [ fields final. */
  lemma CsiParamsOfJoin(fields: seq<seq<byte>>, final: byte)
    requires fields != [] && AllDigitFields(fields) && Join(fields) != []
    ensures CsiParams([ESC, 0x5b] + Join(fields) + [final]) == CappedValues(fields)
  {
    var buf := [ESC, 0x5b] + Join(fields) + [final];
    assert buf[..2] == [ESC, 0x5b];
    assert buf[2..|buf| - 1] == Join(fields);
    FieldValuesOfJoin(fields);
  }

  lemma ParamStep(p: Parser, b: byte)
    requires WellFormed(p) && (p.state.CsiEntry? || p.state.CsiParam? || p.state.SgrMouse?)
    requires IsParamByte(b)
    ensures Step(p, b) == Stay(if p.state.SgrMouse? then SgrMouse else CsiParam, p.buf + [b])
  {
  }

  lemma {:induction false} ParamRun(state: State, intro: seq<byte>, params: seq<byte>)
    requires state.CsiEntry? || state.SgrMouse?
    requires Run(FRESH, intro) == Outcome(Parser(state, intro), [])
    requires forall i :: 0 <= i < |params| ==> IsParamByte(params[i])
    ensures Run(FRESH, intro + params) ==
      Outcome(Parser(if state.CsiEntry? && params != [] then CsiParam else state, intro + params), [])
    decreases |params|
  {
    hide Step, WellFormed;
    if params == [] {
      assert intro + params == intro;
    } else {
      var init, b := params[..|params| - 1], params[|params| - 1];
      var p := Parser(if state.CsiEntry? && init != [] then CsiParam else state, intro + init);
      ParamRun(state, intro, init);
      RunStep(intro + init, p, b);
      ParamStep(p, b);
      assert intro + init + [b] == intro + params;
    }
  }

  lemma IntroducerSteps()
    ensures Step(FRESH, ESC) == Stay(EscReceived, [ESC])
    ensures Step(Parser(EscReceived, [ESC]), 0x5b) == Stay(CsiEntry, [ESC, 0x5b])
    ensures Step(Parser(CsiEntry, [ESC, 0x5b]), 0x3c) == Stay(SgrMouse, [ESC, 0x5b, 0x3c])
    ensures Step(Parser(CsiEntry, [ESC, 0x5b]), 0x4d) == Stay(MouseX10(0), [ESC, 0x5b, 0x4d])
  {
    hide StepCsiParam, StepSgr, StepPaste, StepUtf8, StepMouseX10;
  }

  lemma Introducer()
    ensures Run(FRESH, [ESC, 0x5b]) == Outcome(Parser(CsiEntry, [ESC, 0x5b]), [])
    ensures Run(FRESH, [ESC, 0x5b, 0x3c]) == Outcome(Parser(SgrMouse, [ESC, 0x5b, 0x3c]), [])
    ensures Run(FRESH, [ESC, 0x5b, 0x4d]) == Outcome(Parser(MouseX10(0), [ESC, 0x5b, 0x4d]), [])
  {
    hide Step;
    IntroducerSteps();
    RunStep([], FRESH, ESC);
    assert [] + [ESC] == [ESC];
    RunStep([ESC], Parser(EscReceived, [ESC]), 0x5b);
    assert [ESC] + [0x5b] == [ESC, 0x5b];
    RunStep([ESC, 0x5b], Parser(CsiEntry, [ESC, 0x5b]), 0x3c);
    RunStep([ESC, 0x5b], Parser(CsiEntry, [ESC, 0x5b]), 0x4d);
    assert [ESC, 0x5b] + [0x3c] == [ESC, 0x5b, 0x3c];
    assert [ESC, 0x5b] + [0x4d] == [ESC, 0x5b, 0x4d];
  }

  /** What a tilde sequence does, for fields of any length: it opens a paste exactly when the
      first field is worth 200, and otherwise names a key from the capped values. */
  lemma TildeSequence(fields: seq<seq<byte>>)
    requires fields != [] && AllDigitFields(fields) && Join(fields) != []
    ensures AllDigits(fields[0])
    ensures var sequence := [ESC, 0x5b] + Join(fields) + [TILDE];
      Run(FRESH, sequence) ==
        if DecimalValue(fields[0]) == 200 then Outcome(Parser(PasteBuf, []), [])
        else Emit(sequence, ClassifyTilde(CappedValues(fields)))
  {
    hide SplitFields;
    CsiParamsOfJoin(fields, TILDE);
    SequenceRun(fields, TILDE);
    assert CappedValues(fields)[0] == Min(DecimalValue(fields[0]), 0xFFFF);
  }

  /** A sequence ended by any other final byte names a key from the capped values. */
  lemma FinalByteSequence(fields: seq<seq<byte>>, final: byte)
    requires fields != [] && AllDigitFields(fields) && Join(fields) != []
    requires 0x40 <= final < TILDE
    ensures var sequence := [ESC, 0x5b] + Join(fields) + [final];
      Run(FRESH, sequence) == Emit(sequence, ClassifyCsiFinal(final, CappedValues(fields)))
  {
    hide SplitFields;
    CsiParamsOfJoin(fields, final);
    SequenceRun(fields, final);
  }

  lemma SequenceRun(fields: seq<seq<byte>>, final: byte)
    requires fields != [] && AllDigitFields(fields) && Join(fields) != []
    ensures var sequence := [ESC, 0x5b] + Join(fields) + [final];
      Run(FRESH, sequence) == StepCsiParam([ESC, 0x5b] + Join(fields), final)
  {
    hide Join, StepCsiParam;
    JoinedBytes(fields);
    Introducer();
    ParamRun(CsiEntry, [ESC, 0x5b], Join(fields));
    RunStep([ESC, 0x5b] + Join(fields), Parser(CsiParam, [ESC, 0x5b] + Join(fields)), final);
  }
}
