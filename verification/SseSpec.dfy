/** Streaming responses: which thinking texts a stream of events completes, and the content array
    the same stream assembles to. */
module SseSpec {
  import opened Common
  import opened JsonValues
  import opened Fingerprints
  import opened RegistrySpec

  datatype SseEvent = SseEvent(eventType: string, data: Json)

  /** What the registry reads out of one event. */
  datatype StreamEvent =
    | ThinkingStart(index: nat, initial: string)
    | RedactedStart(content: string)
    | ThinkingDelta(index: nat, text: string)
    | BlockStop(index: nat)
    | Other

  function Read(e: SseEvent): StreamEvent {
    if e.eventType == "content_block_start" then
      match Get(e.data, "content_block")
      case None => Other
      case Some(block) => ReadStart(block, GetU64(e.data, "index"))
    else if e.eventType == "content_block_delta" then
      match Get(e.data, "delta")
      case None => Other
      case Some(delta) => ReadDelta(delta, GetU64(e.data, "index"))
    else if e.eventType == "content_block_stop" then
      match GetU64(e.data, "index") case Some(index) => BlockStop(index) case None => Other
    else Other
  }

  function ReadStart(block: Json, index: Option<nat>): StreamEvent {
    if GetStr(block, "type") == Some("thinking") then
      match index
      case Some(i) => ThinkingStart(i, match GetStr(block, "thinking") case Some(text) => text case None => "")
      case None => Other
    else if GetStr(block, "type") == Some("redacted_thinking") then
      match GetStr(block, "data") case Some(content) => RedactedStart(content) case None => Other
    else Other
  }

  function ReadDelta(delta: Json, index: Option<nat>): StreamEvent {
    if GetStr(delta, "type") == Some("thinking_delta") && index.Some? then
      match GetStr(delta, "thinking") case Some(text) => ThinkingDelta(index.value, text) case None => Other
    else Other
  }

  function ReadAll(events: seq<SseEvent>): seq<StreamEvent> {
    seq(|events|, i requires 0 <= i < |events| => Read(events[i]))
  }

  /** Text that later events add to the open block `index`, up to its stop or the end of the stream;
      None when another start of the same index discards it first. */
  function Tail(events: seq<StreamEvent>, index: nat): Option<string> {
    if events == [] then Some("")
    else match events[0]
      case ThinkingStart(i, _) => if i == index then None else Tail(events[1..], index)
      case ThinkingDelta(i, text) =>
        if i != index then Tail(events[1..], index)
        else (match Tail(events[1..], index) case Some(more) => Some(text + more) case None => None)
      case BlockStop(i) => if i == index then Some("") else Tail(events[1..], index)
      case _ => Tail(events[1..], index)
  }

  /** The same text up to a stop, another start of the index or the end of the stream, whichever is first. */
  function TailText(events: seq<StreamEvent>, index: nat): (text: string)
    ensures Tail(events, index).Some? ==> text == Tail(events, index).value
  {
    if events == [] then ""
    else match events[0]
      case ThinkingStart(i, _) => if i == index then "" else TailText(events[1..], index)
      case ThinkingDelta(i, text) => (if i == index then text else "") + TailText(events[1..], index)
      case BlockStop(i) => if i == index then "" else TailText(events[1..], index)
      case _ => TailText(events[1..], index)
  }

  function TextHash(hasher: Hasher, text: string): set<nat> {
    if text == "" then {} else {FastHash(hasher, text)}
  }

  function BlockHash(hasher: Hasher, begun: string, tail: Option<string>): set<nat> {
    match tail case Some(more) => TextHash(hasher, begun + more) case None => {}
  }

  /** Hashes of the blocks a stream completes: undiscarded, non-empty thinking texts and all
      redacted blocks. */
  function StreamHashes(hasher: Hasher, events: seq<StreamEvent>): set<nat> {
    if events == [] then {}
    else
      StreamHashes(hasher, events[1..]) +
      match events[0]
      case ThinkingStart(i, initial) => BlockHash(hasher, initial, Tail(events[1..], i))
      case RedactedStart(content) => {FastHash(hasher, content)}
      case _ => {}
  }

  /** `h` will be contributed by a block that is already open. */
  ghost predicate Awaited(hasher: Hasher, open: map<nat, string>, events: seq<StreamEvent>, h: nat) {
    exists i :: i in open && h in BlockHash(hasher, open[i], Tail(events, i))
  }

  lemma ReadNext(events: seq<SseEvent>, k: nat)
    requires k < |events|
    ensures ReadAll(events[k..]) != [] && ReadAll(events[k..])[0] == Read(events[k])
    ensures ReadAll(events[k..])[1..] == ReadAll(events[k + 1..])
  {
  }

  // ---- One event of the accumulation ----

  lemma StartOpens(hasher: Hasher, open: map<nat, string>, events: seq<StreamEvent>, h: nat)
    requires events != [] && events[0].ThinkingStart?
    ensures Awaited(hasher, open, events, h) || h in StreamHashes(hasher, events) <==>
      Awaited(hasher, open[events[0].index := events[0].initial], events[1..], h) ||
      h in StreamHashes(hasher, events[1..])
  {
    hide BlockHash;
    var index, rest := events[0].index, events[1..];
    var open' := open[index := events[0].initial];
    assert open'[index] == events[0].initial;
    if i :| i in open && h in BlockHash(hasher, open[i], Tail(events, i)) {
      DiscardedContributesNothing(hasher, open[i]);
      assert i in open' && open'[i] == open[i];
    }
    if i :| i in open' && i != index && h in BlockHash(hasher, open'[i], Tail(rest, i)) {
      assert i in open && open[i] == open'[i];
    }
  }

  lemma DiscardedContributesNothing(hasher: Hasher, begun: string)
    ensures BlockHash(hasher, begun, None) == {}
  {
  }

  lemma DeltaExtends(hasher: Hasher, open: map<nat, string>, events: seq<StreamEvent>, h: nat)
    requires events != [] && events[0].ThinkingDelta?
    ensures var index, text := events[0].index, events[0].text;
      Awaited(hasher, open, events, h) <==>
      Awaited(hasher, if index in open then open[index := open[index] + text] else open, events[1..], h)
  {
    hide TextHash;
    var index, text, rest := events[0].index, events[0].text, events[1..];
    var open' := if index in open then open[index := open[index] + text] else open;
    forall i | i in open
      ensures BlockHash(hasher, open[i], Tail(events, i)) == BlockHash(hasher, open'[i], Tail(rest, i))
    {
      if i == index && Tail(rest, i).Some? {
        assert open[i] + (text + Tail(rest, i).value) == (open[i] + text) + Tail(rest, i).value;
      }
    }
  }

  lemma StopCloses(hasher: Hasher, open: map<nat, string>, events: seq<StreamEvent>, h: nat)
    requires events != [] && events[0].BlockStop?
    ensures var index := events[0].index;
      Awaited(hasher, open, events, h) <==>
      Awaited(hasher, open - {index}, events[1..], h) || (index in open && h in TextHash(hasher, open[index]))
  {
    hide BlockHash, Tail;
    var index, rest := events[0].index, events[1..];
    forall i | i in open
      ensures BlockHash(hasher, open[i], Tail(events, i)) ==
        if i == index then TextHash(hasher, open[i]) else BlockHash(hasher, open[i], Tail(rest, i))
    {
      StopTail(hasher, open[i], events, i);
    }
    AwaitedWithout(hasher, open, index, rest, h);
  }

  lemma StopTail(hasher: Hasher, begun: string, events: seq<StreamEvent>, i: nat)
    requires events != [] && events[0].BlockStop?
    ensures BlockHash(hasher, begun, Tail(events, i)) ==
      if i == events[0].index then TextHash(hasher, begun) else BlockHash(hasher, begun, Tail(events[1..], i))
  {
    assert begun + "" == begun;
  }

  lemma AwaitedWithout(hasher: Hasher, open: map<nat, string>, index: nat, events: seq<StreamEvent>, h: nat)
    ensures Awaited(hasher, open - {index}, events, h) <==>
      exists i :: i in open && i != index && h in BlockHash(hasher, open[i], Tail(events, i))
  {
    var open' := open - {index};
    forall i: nat ensures i in open' <==> i in open && i != index {}
    forall i | i in open' ensures open'[i] == open[i] {}
  }

  lemma OthersPass(hasher: Hasher, open: map<nat, string>, events: seq<StreamEvent>, h: nat)
    requires events != [] && (events[0].Other? || events[0].RedactedStart?)
    ensures Awaited(hasher, open, events, h) <==> Awaited(hasher, open, events[1..], h)
  {
    hide BlockHash;
  }

  /** After the last event an open block contributes the text accumulated so far. */
  lemma LeftoverHashes(hasher: Hasher, open: map<nat, string>, index: nat, h: nat)
    requires index in open
    ensures Awaited(hasher, open, [], h) <==>
      Awaited(hasher, open - {index}, [], h) || h in TextHash(hasher, open[index])
  {
    hide BlockHash, Tail, TextHash;
    EndTail(hasher, open[index], index);
    AwaitedWithout(hasher, open, index, [], h);
  }

  lemma EndTail(hasher: Hasher, begun: string, i: nat)
    ensures BlockHash(hasher, begun, Tail([], i)) == TextHash(hasher, begun)
  {
    assert begun + "" == begun;
  }

  // ---- The assembled response ----

  function ThinkingItem(text: string): Json { Obj(map["type" := Str("thinking"), "thinking" := Str(text)]) }
  function RedactedItem(content: string): Json { Obj(map["type" := Str("redacted_thinking"), "data" := Str(content)]) }

  /** The content array a client assembles: each block at the place of its start, with all its deltas. */
  function AssembledContent(events: seq<StreamEvent>): seq<Json> {
    if events == [] then []
    else match events[0]
      case ThinkingStart(i, initial) =>
        [ThinkingItem(initial + TailText(events[1..], i))] + AssembledContent(events[1..])
      case RedactedStart(content) => [RedactedItem(content)] + AssembledContent(events[1..])
      case _ => AssembledContent(events[1..])
  }

  /** Hashes of the thinking texts a stream begins but never completes: discarded by another start of
      their index, or empty. */
  function Missed(hasher: Hasher, events: seq<StreamEvent>): set<nat> {
    if events == [] then {}
    else
      Missed(hasher, events[1..]) +
      match events[0]
      case ThinkingStart(i, initial) =>
        if Tail(events[1..], i).None? || initial + Tail(events[1..], i).value == ""
        then {FastHash(hasher, initial + TailText(events[1..], i))} else {}
      case _ => {}
  }

  /** No index is started again while it is open. */
  predicate NoRestart(events: seq<StreamEvent>) {
    events != [] ==>
      && NoRestart(events[1..])
      && (events[0].ThinkingStart? ==> Tail(events[1..], events[0].index).Some?)
  }

  /** Some thinking block ends without text. */
  predicate HasEmpty(events: seq<StreamEvent>) {
    && events != []
    && (HasEmpty(events[1..]) ||
        (events[0].ThinkingStart? && events[0].initial + TailText(events[1..], events[0].index) == ""))
  }

  lemma {:induction false} ItemHashesCons(hasher: Hasher, item: Json, items: seq<Json>)
    ensures ItemHashes(hasher, [item] + items) == ItemHashes(hasher, [item]) + ItemHashes(hasher, items)
  {
    hide FastHash, Extract;
    if items == [] {
      assert [item] + items == [item];
    } else {
      ItemHashesCons(hasher, item, items[..|items| - 1]);
      assert ([item] + items)[..|items|] == [item] + items[..|items| - 1];
    }
  }

  lemma ItemHashesOne(hasher: Hasher, text: string)
    ensures ItemHashes(hasher, [ThinkingItem(text)]) == {FastHash(hasher, text)}
    ensures ItemHashes(hasher, [RedactedItem(text)]) == {FastHash(hasher, text)}
  {
    hide FastHash;
    assert [ThinkingItem(text)][..0] == [] && [RedactedItem(text)][..0] == [];
    assert ItemHashes(hasher, []) == {};
  }

  /** On every stream, in any interleaving and truncated anywhere, the blocks of the assembled content
      array are the streamed blocks and the missed ones. */
  lemma {:induction false} AssembledIsStreamedAndMissed(hasher: Hasher, events: seq<StreamEvent>)
    ensures ItemHashes(hasher, AssembledContent(events)) == StreamHashes(hasher, events) + Missed(hasher, events)
  {
    hide FastHash, Extract;
    if events != [] {
      var rest := events[1..];
      AssembledIsStreamedAndMissed(hasher, rest);
      match events[0]
      case ThinkingStart(i, initial) =>
        var text := initial + TailText(rest, i);
        ItemHashesOne(hasher, text);
        ItemHashesCons(hasher, ThinkingItem(text), AssembledContent(rest));
      case RedactedStart(content) =>
        ItemHashesOne(hasher, content);
        ItemHashesCons(hasher, RedactedItem(content), AssembledContent(rest));
      case _ =>
    }
  }

  /** Without a restart only the empty text can be missed. */
  lemma {:induction false} MissedWithoutRestart(hasher: Hasher, events: seq<StreamEvent>)
    requires NoRestart(events)
    ensures Missed(hasher, events) == if HasEmpty(events) then {FastHash(hasher, "")} else {}
  {
    hide FastHash;
    if events != [] {
      MissedWithoutRestart(hasher, events[1..]);
    }
  }

  /** The streamed blocks are the blocks of the assembled array exactly when every missed hash is also
      streamed; without a restart, exactly when no text stays empty or the empty text is streamed as
      well, as by a redacted block without data. */
  lemma StreamingEqualsAssembled(hasher: Hasher, events: seq<StreamEvent>)
    ensures var equal := StreamHashes(hasher, events) == ItemHashes(hasher, AssembledContent(events));
      && (equal <==> Missed(hasher, events) <= StreamHashes(hasher, events))
      && (NoRestart(events) ==>
           (equal <==> !HasEmpty(events) || FastHash(hasher, "") in StreamHashes(hasher, events)))
  {
    hide FastHash, StreamHashes, Missed, NoRestart, HasEmpty;
    AssembledIsStreamedAndMissed(hasher, events);
    if NoRestart(events) {
      MissedWithoutRestart(hasher, events);
    }
  }

  /** A stream on which the two differ: one thinking block without text. */
  lemma EmptyBlockDiffers(hasher: Hasher, index: nat)
    ensures var events := [ThinkingStart(index, ""), BlockStop(index)];
      && NoRestart(events) && HasEmpty(events)
      && StreamHashes(hasher, events) == {}
      && ItemHashes(hasher, AssembledContent(events)) == {FastHash(hasher, "")}
  {
    hide FastHash, ItemHashes;
    var stop := [BlockStop(index)];
    var events := [ThinkingStart(index, ""), BlockStop(index)];
    assert events[1..] == stop && stop[1..] == [];
    assert "" + "" == "";
    assert Tail(stop, index) == Some("") && StreamHashes(hasher, stop) == {};
    assert NoRestart(stop) by { assert NoRestart(stop[1..]); }
    assert Tail(events[1..], events[0].index) == Some("") && NoRestart(events[1..]);
    AssembledIsStreamedAndMissed(hasher, events);
    MissedWithoutRestart(hasher, events);
  }

  /** With a redacted block without data beside it they agree again. */
  lemma EmptyBlockBesideEmptyRedacted(hasher: Hasher, index: nat)
    ensures var events := [RedactedStart(""), ThinkingStart(index, ""), BlockStop(index)];
      && HasEmpty(events)
      && StreamHashes(hasher, events) == ItemHashes(hasher, AssembledContent(events)) == {FastHash(hasher, "")}
  {
    hide FastHash, ItemHashes;
    var events := [RedactedStart(""), ThinkingStart(index, ""), BlockStop(index)];
    assert events[1..] == [ThinkingStart(index, ""), BlockStop(index)];
    EmptyBlockDiffers(hasher, index);
    assert NoRestart(events);
    AssembledIsStreamedAndMissed(hasher, events);
    MissedWithoutRestart(hasher, events);
  }
}
