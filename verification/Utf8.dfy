/** UTF-8 for single scalars: the encoder of section 3 of RFC 3629 and the
    well-formedness table of its section 4, shown to be inverse to each other. */
module Utf8 {
  import opened Common
  import opened InputEvents

  function Encode(c: scalar): (bytes: seq<byte>)
    ensures 1 <= |bytes| <= 4
  {
    if c < 0x80 then [c]
    else if c < 0x800 then [0xC0 + c / 64, 0x80 + c % 64]
    else if c < 0x1_0000 then [0xE0 + c / 64 / 64, 0x80 + c / 64 % 64, 0x80 + c % 64]
    else [0xF0 + c / 64 / 64 / 64, 0x80 + c / 64 / 64 % 64, 0x80 + c / 64 % 64, 0x80 + c % 64]
  }

  function EncodeAll(text: seq<scalar>): seq<byte> {
    if text == [] then [] else EncodeAll(text[..|text| - 1]) + Encode(text[|text| - 1])
  }

  predicate IsContinuation(b: byte) { 0x80 <= b < 0xC0 }

  /** Bytes that follow a lead byte, as the parser counts them (0 for a byte that is no lead). */
  function Continuations(lead: byte): (n: nat)
    ensures n <= 3
  {
    if 0xC0 <= lead < 0xE0 then 1
    else if 0xE0 <= lead < 0xF0 then 2
    else if 0xF0 <= lead < 0xF8 then 3
    else 0
  }

  /** A lead byte and exactly the continuation bytes it announces. */
  predicate IsSequence(raw: seq<byte>) {
    && raw != []
    && 0 < Continuations(raw[0])
    && |raw| == 1 + Continuations(raw[0])
    && forall i :: 1 <= i < |raw| ==> IsContinuation(raw[i])
  }

  /** The rows of the table in section 4 of RFC 3629 for two to four bytes. */
  predicate InTable(raw: seq<byte>)
    requires IsSequence(raw)
  {
    match |raw|
    case 2 => 0xC2 <= raw[0]
    case 3 =>
      && (raw[0] == 0xE0 ==> 0xA0 <= raw[1])
      && (raw[0] == 0xED ==> raw[1] < 0xA0)
    case _ =>
      && raw[0] <= 0xF4
      && (raw[0] == 0xF0 ==> 0x90 <= raw[1])
      && (raw[0] == 0xF4 ==> raw[1] < 0x90)
  }

  /** The number whose base-64 digits are `lead` and the payloads of the bytes `tail`. */
  function Assemble(lead: int, tail: seq<byte>): int {
    if tail == [] then lead
    else Assemble(lead, tail[..|tail| - 1]) * 64 + (tail[|tail| - 1] as int - 0x80)
  }

  function LeadPayload(lead: byte): int {
    if lead < 0xE0 then lead as int - 0xC0 else if lead < 0xF0 then lead as int - 0xE0 else lead as int - 0xF0
  }

  /** What the standard library's strict decoder makes of one complete sequence. */
  function Decode(raw: seq<byte>): (c: Option<scalar>)
    requires IsSequence(raw)
  {
    if !InTable(raw) then None
    else
      AssembleUnfolds(LeadPayload(raw[0]), raw[1..]);
      Some(Assemble(LeadPayload(raw[0]), raw[1..]))
  }

  lemma AssembleUnfolds(lead: int, tail: seq<byte>)
    requires 1 <= |tail| <= 3
    ensures |tail| == 1 ==> Assemble(lead, tail) == lead * 64 + (tail[0] as int - 0x80)
    ensures |tail| == 2 ==>
      Assemble(lead, tail) == (lead * 64 + (tail[0] as int - 0x80)) * 64 + (tail[1] as int - 0x80)
    ensures |tail| == 3 ==>
      Assemble(lead, tail) ==
      ((lead * 64 + (tail[0] as int - 0x80)) * 64 + (tail[1] as int - 0x80)) * 64 + (tail[2] as int - 0x80)
  {
    if |tail| > 1 {
      AssembleUnfolds(lead, tail[..|tail| - 1]);
    }
  }

  lemma EncodeIsSequence(c: scalar)
    requires 0x80 <= c
    ensures IsSequence(Encode(c))
  {
  }

  lemma LastDigit(high: int, low: int)
    requires 0 <= low < 64
    ensures (high * 64 + low) / 64 == high && (high * 64 + low) % 64 == low
  {
  }

  lemma DecodeInvertsEncode2(raw: seq<byte>, c: scalar)
    requires IsSequence(raw) && |raw| == 2
    ensures Decode(raw) == Some(c) <==> Encode(c) == raw
  {
    AssembleUnfolds(LeadPayload(raw[0]), raw[1..]);
    LastDigit(LeadPayload(raw[0]), raw[1] as int - 0x80);
    assert raw == [raw[0], raw[1]];
  }

  lemma DecodeInvertsEncode3(raw: seq<byte>, c: scalar)
    requires IsSequence(raw) && |raw| == 3
    ensures Decode(raw) == Some(c) <==> Encode(c) == raw
  {
    AssembleUnfolds(LeadPayload(raw[0]), raw[1..]);
    var p0, p1 := LeadPayload(raw[0]), raw[1] as int - 0x80;
    LastDigit(p0, p1);
    LastDigit(p0 * 64 + p1, raw[2] as int - 0x80);
    assert raw == [raw[0], raw[1], raw[2]];
  }

  lemma DecodeInvertsEncode4(raw: seq<byte>, c: scalar)
    requires IsSequence(raw) && |raw| == 4
    ensures Decode(raw) == Some(c) <==> Encode(c) == raw
  {
    AssembleUnfolds(LeadPayload(raw[0]), raw[1..]);
    var p0, p1, p2 := LeadPayload(raw[0]), raw[1] as int - 0x80, raw[2] as int - 0x80;
    LastDigit(p0, p1);
    LastDigit(p0 * 64 + p1, p2);
    LastDigit((p0 * 64 + p1) * 64 + p2, raw[3] as int - 0x80);
    assert raw == [raw[0], raw[1], raw[2], raw[3]];
  }

  /** Decoding is the exact inverse of encoding: a sequence decodes to `c` precisely
      when it is the encoding of `c`, so overlong forms and surrogates decode to nothing. */
  lemma DecodeInvertsEncode(raw: seq<byte>, c: scalar)
    requires IsSequence(raw)
    ensures Decode(raw) == Some(c) <==> Encode(c) == raw
  {
    match |raw|
    case 2 => DecodeInvertsEncode2(raw, c);
    case 3 => DecodeInvertsEncode3(raw, c);
    case _ => DecodeInvertsEncode4(raw, c);
  }
}
