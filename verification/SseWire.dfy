/** Streams as the API sends them: the events of each block printed as JSON, cut into chunks, in any
    interleaving of blocks, with events the registry has no use for anywhere between. */
module SseWire {
  import opened Common
  import opened JsonValues
  import opened Fingerprints
  import opened SseSpec

  /** A content block. A thinking text is what the start event holds and then its chunks; a block that is
      not closed was cut off with the stream. A plain block is text or a tool call. */
  datatype Block =
    | ThinkingBlock(initial: Option<string>, chunks: seq<string>, closed: bool)
    | RedactedBlock(data: string, closed: bool)
    | PlainBlock(closed: bool)

  // ---- Printing ----

  function StartEvent(index: nat, block: Json): SseEvent {
    SseEvent("content_block_start",
             Obj(map["type" := Str("content_block_start"), "index" := Integer(index), "content_block" := block]))
  }

  function DeltaEvent(index: nat, delta: Json): SseEvent {
    SseEvent("content_block_delta",
             Obj(map["type" := Str("content_block_delta"), "index" := Integer(index), "delta" := delta]))
  }

  function StopEvent(index: nat): SseEvent {
    SseEvent("content_block_stop", Obj(map["type" := Str("content_block_stop"), "index" := Integer(index)]))
  }

  function ThinkingStartJson(initial: Option<string>): Json {
    match initial
    case Some(text) => Obj(map["type" := Str("thinking"), "thinking" := Str(text), "signature" := Str("")])
    case None => Obj(map["type" := Str("thinking")])
  }

  function RedactedStartJson(data: string): Json {
    Obj(map["type" := Str("redacted_thinking"), "data" := Str(data)])
  }

  function ThinkingDeltaJson(text: string): Json {
    Obj(map["type" := Str("thinking_delta"), "thinking" := Str(text)])
  }

  function Deltas(index: nat, chunks: seq<string>): seq<SseEvent> {
    if chunks == [] then [] else [DeltaEvent(index, ThinkingDeltaJson(chunks[0]))] + Deltas(index, chunks[1..])
  }

  function Ending(index: nat, closed: bool): seq<SseEvent> { if closed then [StopEvent(index)] else [] }

  /** The events of one block, without those of plain content. */
  function Printed(index: nat, block: Block): seq<SseEvent> {
    match block
    case ThinkingBlock(initial, chunks, closed) =>
      [StartEvent(index, ThinkingStartJson(initial))] + (Deltas(index, chunks) + Ending(index, closed))
    case RedactedBlock(data, closed) => [StartEvent(index, RedactedStartJson(data))] + Ending(index, closed)
    case PlainBlock(closed) => Ending(index, closed)
  }

  /** What a block registers: its text unless empty, its redacted data, nothing for plain content. */
  function TextOf(block: Block): Option<string> {
    match block
    case ThinkingBlock(initial, chunks, _) =>
      var text := (match initial case Some(first) => first case None => "") + Flatten(chunks);
      if text == "" then None else Some(text)
    case RedactedBlock(data, _) => Some(data)
    case PlainBlock(_) => None
  }

  function BlockHashes(hasher: Hasher, blocks: map<nat, Block>): set<nat> {
    set i | i in blocks && TextOf(blocks[i]).Some? :: FastHash(hasher, TextOf(blocks[i]).value)
  }

  // ---- Streams that carry blocks ----

  function IndexOf(e: SseEvent): Option<nat> { GetU64(e.data, "index") }

  /** Events that say nothing about thinking: message events and pings, starts of text and tool blocks,
      deltas of text, tool input and signatures, and thinking events that lack what they should carry. */
  predicate Quiet(e: SseEvent) {
    if e.eventType == "content_block_start" then
      match Get(e.data, "content_block")
      case None => true
      case Some(block) =>
        if GetStr(block, "type") == Some("thinking") then IndexOf(e).None?
        else GetStr(block, "type") == Some("redacted_thinking") ==> GetStr(block, "data").None?
    else if e.eventType == "content_block_delta" then
      match Get(e.data, "delta")
      case None => true
      case Some(delta) =>
        GetStr(delta, "type") == Some("thinking_delta") ==> IndexOf(e).None? || GetStr(delta, "thinking").None?
    else e.eventType == "content_block_stop" ==> IndexOf(e).None?
  }

  lemma OtherStartsAreQuiet(index: nat, text: string, input: Json)
    ensures Quiet(StartEvent(index, Obj(map["type" := Str("text"), "text" := Str(text)])))
    ensures Quiet(StartEvent(index, Obj(map["type" := Str("tool_use"), "name" := Str(text), "input" := input])))
  {
    assert "text"[1] == 'e' && "tool_use"[1] == 'o' && "thinking"[1] == 'h' && "redacted_thinking"[0] == 'r';
  }

  lemma OtherDeltasAreQuiet(index: nat, text: string)
    ensures Quiet(DeltaEvent(index, Obj(map["type" := Str("text_delta"), "text" := Str(text)])))
    ensures Quiet(DeltaEvent(index, Obj(map["type" := Str("signature_delta"), "signature" := Str(text)])))
    ensures Quiet(DeltaEvent(index, Obj(map["type" := Str("input_json_delta"), "partial_json" := Str(text)])))
  {
    DeltaOfOtherType(index, "text_delta", "text", text);
    DeltaOfOtherType(index, "signature_delta", "signature", text);
    DeltaOfOtherType(index, "input_json_delta", "partial_json", text);
  }

  lemma DeltaOfOtherType(index: nat, kind: string, key: string, text: string)
    requires kind != "thinking_delta" && key != "type"
    ensures Quiet(DeltaEvent(index, Obj(map["type" := Str(kind), key := Str(text)])))
  {
    assert "content_block_delta"[14] == 'd' && "content_block_start"[14] == 's';
  }

  lemma MessageEventsAreQuiet(data: Json)
    ensures Quiet(SseEvent("ping", data)) && Quiet(SseEvent("message_start", data))
    ensures Quiet(SseEvent("message_delta", data)) && Quiet(SseEvent("message_stop", data))
  {
    assert "ping"[0] == 'p' && "message_start"[0] == 'm' && "message_delta"[0] == 'm' && "message_stop"[0] == 'm';
  }

  /** The events of one index that are not quiet. */
  function Project(stream: seq<SseEvent>, index: nat): seq<SseEvent> {
    if stream == [] then []
    else
      (if !Quiet(stream[0]) && IndexOf(stream[0]) == Some(index) then [stream[0]] else []) +
      Project(stream[1..], index)
  }

  ghost predicate Indexed(stream: seq<SseEvent>) {
    forall k :: 0 <= k < |stream| ==> Quiet(stream[k]) || IndexOf(stream[k]).Some?
  }

  /** The stream holds the events of the given blocks, each block's in order, and quiet events. */
  ghost predicate Carries(stream: seq<SseEvent>, blocks: map<nat, Block>) {
    && (forall i :: i in blocks ==> i < 0x1_0000_0000_0000_0000)
    && (forall k :: 0 <= k < |stream| ==>
          Quiet(stream[k]) || (IndexOf(stream[k]).Some? && IndexOf(stream[k]).value in blocks))
    && (forall i :: i in blocks ==> Project(stream, i) == Printed(i, blocks[i]))
  }

  // ---- Reading printed events ----

  lemma ReadsStart(index: nat, initial: Option<string>)
    requires index < 0x1_0000_0000_0000_0000
    ensures Read(StartEvent(index, ThinkingStartJson(initial))) ==
            ThinkingStart(index, match initial case Some(text) => text case None => "")
  {
    hide ReadDelta;
  }

  lemma ReadsRedacted(index: nat, data: string)
    ensures Read(StartEvent(index, RedactedStartJson(data))) == RedactedStart(data)
  {
    hide ReadDelta;
  }

  lemma ReadsDelta(index: nat, text: string)
    requires index < 0x1_0000_0000_0000_0000
    ensures Read(DeltaEvent(index, ThinkingDeltaJson(text))) == ThinkingDelta(index, text)
  {
    assert "content_block_delta"[14] == 'd' && "content_block_start"[14] == 's';
  }

  lemma ReadsStop(index: nat)
    requires index < 0x1_0000_0000_0000_0000
    ensures Read(StopEvent(index)) == BlockStop(index)
  {
    assert "content_block_stop"[16] == 'o' && "content_block_start"[16] == 'a' && "content_block_delta"[14] == 'd';
  }

  lemma QuietReadsNothing(e: SseEvent)
    requires Quiet(e)
    ensures Read(e) == Other
  {
  }

  /** An event that says something about a block says so about its own index. */
  lemma ReadsOwnIndex(e: SseEvent)
    ensures Read(e).ThinkingStart? || Read(e).ThinkingDelta? || Read(e).BlockStop? ==> IndexOf(e) == Some(Read(e).index)
  {
  }

  lemma ReadFirst(e: SseEvent, rest: seq<SseEvent>)
    ensures ReadAll([e] + rest) == [Read(e)] + ReadAll(rest)
  {
  }

  /** What an event contributes in front of the rest of a stream. */
  function Begun(hasher: Hasher, event: StreamEvent, rest: seq<StreamEvent>): set<nat> {
    match event
    case ThinkingStart(i, initial) => BlockHash(hasher, initial, Tail(rest, i))
    case RedactedStart(content) => {FastHash(hasher, content)}
    case _ => {}
  }

  lemma HashesOfFirst(hasher: Hasher, e: SseEvent, rest: seq<SseEvent>)
    ensures StreamHashes(hasher, ReadAll([e] + rest)) ==
            StreamHashes(hasher, ReadAll(rest)) + Begun(hasher, Read(e), ReadAll(rest))
  {
    hide Read, BlockHash, FastHash, Tail;
    ReadFirst(e, rest);
    assert ([Read(e)] + ReadAll(rest))[1..] == ReadAll(rest);
  }

  // ---- One index at a time ----

  /** The text added to an open block depends on the events of its index alone. */
  lemma {:induction false} TailByIndex(stream: seq<SseEvent>, index: nat)
    requires Indexed(stream)
    ensures Tail(ReadAll(stream), index) == Tail(ReadAll(Project(stream, index)), index)
  {
    hide Read, Quiet, IndexOf;
    if stream != [] {
      var e, rest := stream[0], stream[1..];
      TailByIndex(rest, index);
      assert stream == [e] + rest;
      ReadFirst(e, rest);
      ReadFirst(e, Project(rest, index));
      assert ([Read(e)] + ReadAll(rest))[1..] == ReadAll(rest);
      assert ([Read(e)] + ReadAll(Project(rest, index)))[1..] == ReadAll(Project(rest, index));
      assert [] + Project(rest, index) == Project(rest, index);
      ReadsOwnIndex(e);
      if Quiet(e) {
        QuietReadsNothing(e);
      }
    }
  }

  /** A hash is streamed exactly when it is streamed by the events of some index. */
  lemma {:induction false} HashesByIndex(hasher: Hasher, stream: seq<SseEvent>, h: nat)
    requires Indexed(stream)
    ensures h in StreamHashes(hasher, ReadAll(stream)) <==>
      exists i :: StreamedBy(hasher, stream, i, h)
  {
    hide Read, Quiet, IndexOf, ReadAll, StreamHashes, Begun, StreamedBy;
    if stream == [] {
      NothingStreamed(hasher, h);
    } else {
      var e, rest := stream[0], stream[1..];
      HashesByIndex(hasher, rest, h);
      assert stream == [e] + rest;
      HashesOfFirst(hasher, e, rest);
      if Quiet(e) {
        QuietBeginsNothing(hasher, e, ReadAll(rest));
        forall i ensures StreamedBy(hasher, stream, i, h) == StreamedBy(hasher, rest, i, h) {
          OtherIndex(hasher, stream, i, h);
        }
      } else {
        var own := IndexOf(e).value;
        forall i | i != own ensures StreamedBy(hasher, stream, i, h) == StreamedBy(hasher, rest, i, h) {
          OtherIndex(hasher, stream, i, h);
        }
        OwnIndex(hasher, stream, h);
      }
    }
  }

  ghost predicate StreamedBy(hasher: Hasher, stream: seq<SseEvent>, index: nat, h: nat) {
    h in StreamHashes(hasher, ReadAll(Project(stream, index)))
  }

  lemma NothingStreamed(hasher: Hasher, h: nat)
    ensures h !in StreamHashes(hasher, ReadAll([]))
    ensures forall i :: !StreamedBy(hasher, [], i, h)
  {
  }

  lemma QuietBeginsNothing(hasher: Hasher, e: SseEvent, rest: seq<StreamEvent>)
    requires Quiet(e)
    ensures Begun(hasher, Read(e), rest) == {}
  {
    QuietReadsNothing(e);
  }

  lemma OtherIndex(hasher: Hasher, stream: seq<SseEvent>, i: nat, h: nat)
    requires stream != [] && (Quiet(stream[0]) || IndexOf(stream[0]) != Some(i))
    ensures StreamedBy(hasher, stream, i, h) == StreamedBy(hasher, stream[1..], i, h)
  {
    hide Quiet, IndexOf, ReadAll, StreamHashes;
    assert [] + Project(stream[1..], i) == Project(stream[1..], i);
  }

  lemma OwnIndex(hasher: Hasher, stream: seq<SseEvent>, h: nat)
    requires stream != [] && Indexed(stream) && !Quiet(stream[0])
    ensures var own := IndexOf(stream[0]).value;
      StreamedBy(hasher, stream, own, h) <==>
      StreamedBy(hasher, stream[1..], own, h) || h in Begun(hasher, Read(stream[0]), ReadAll(stream[1..]))
  {
    hide Read, Quiet, IndexOf, ReadAll, StreamHashes, BlockHash, FastHash;
    var e, rest := stream[0], stream[1..];
    var own := IndexOf(e).value;
    HashesOfFirst(hasher, e, Project(rest, own));
    TailByIndex(rest, own);
    ReadsOwnIndex(e);
  }

  // ---- One printed block ----

  lemma DeltaBefore(hasher: Hasher, index: nat, text: string, more: seq<SseEvent>)
    requires index < 0x1_0000_0000_0000_0000
    ensures var e := DeltaEvent(index, ThinkingDeltaJson(text));
      && StreamHashes(hasher, ReadAll([e] + more)) == StreamHashes(hasher, ReadAll(more))
      && Tail(ReadAll([e] + more), index) ==
         match Tail(ReadAll(more), index) case Some(rest) => Some(text + rest) case None => None
  {
    hide Read, DeltaEvent;
    var e := DeltaEvent(index, ThinkingDeltaJson(text));
    ReadsDelta(index, text);
    ReadFirst(e, more);
    HashesOfFirst(hasher, e, more);
  }

  /** Deltas add their text to what is open, and register nothing of their own. */
  lemma {:induction false} DeltasBefore(hasher: Hasher, index: nat, chunks: seq<string>, more: seq<SseEvent>)
    requires index < 0x1_0000_0000_0000_0000
    ensures StreamHashes(hasher, ReadAll(Deltas(index, chunks) + more)) == StreamHashes(hasher, ReadAll(more))
    ensures Tail(ReadAll(Deltas(index, chunks) + more), index) ==
      match Tail(ReadAll(more), index) case Some(text) => Some(Flatten(chunks) + text) case None => None
  {
    hide ReadAll, Tail, StreamHashes, DeltaEvent, Flatten;
    if chunks == [] {
      NoText();
      assert Deltas(index, chunks) + more == more;
      if Tail(ReadAll(more), index).Some? {
        assert [] + Tail(ReadAll(more), index).value == Tail(ReadAll(more), index).value;
      }
    } else {
      var first, rest := chunks[0], Deltas(index, chunks[1..]) + more;
      DeltasBefore(hasher, index, chunks[1..], more);
      DeltaBefore(hasher, index, first, rest);
      assert Deltas(index, chunks) + more == [DeltaEvent(index, ThinkingDeltaJson(first))] + rest;
      FlattenConcat([first], chunks[1..]);
      OneChunk(first);
      assert [first] + chunks[1..] == chunks;
      if Tail(ReadAll(more), index).Some? {
        var text := Tail(ReadAll(more), index).value;
        assert first + (Flatten(chunks[1..]) + text) == (first + Flatten(chunks[1..])) + text;
      }
    }
  }

  lemma NoText()
    ensures Flatten<char>([]) == []
  {
  }

  lemma OneChunk(chunk: string)
    ensures Flatten([chunk]) == chunk
  {
    assert [chunk][..0] == [];
  }

  lemma NoChunks(hasher: Hasher, index: nat, closed: bool)
    requires index < 0x1_0000_0000_0000_0000
    ensures Tail(ReadAll(Ending(index, closed)), index) == Some("")
    ensures StreamHashes(hasher, ReadAll(Ending(index, closed))) == {}
  {
    hide Read, StopEvent;
    ReadsStop(index);
    assert ReadAll([]) == [];
    if closed {
      assert ReadAll(Ending(index, closed)) == [BlockStop(index)];
      assert [BlockStop(index)][1..] == [];
    }
  }

  /** A printed block streams exactly the hash of its text. */
  lemma PrintedHashes(hasher: Hasher, index: nat, block: Block)
    requires index < 0x1_0000_0000_0000_0000
    ensures StreamHashes(hasher, ReadAll(Printed(index, block))) ==
      match TextOf(block) case Some(text) => {FastHash(hasher, text)} case None => {}
  {
    hide Read, StartEvent, StreamHashes, Tail, FastHash, ReadAll, Deltas, Ending, Flatten;
    NoChunks(hasher, index, block.closed);
    match block
    case ThinkingBlock(initial, chunks, closed) =>
      ReadsStart(index, initial);
      DeltasBefore(hasher, index, chunks, Ending(index, closed));
      assert Flatten(chunks) + "" == Flatten(chunks);
      HashesOfFirst(hasher, StartEvent(index, ThinkingStartJson(initial)),
                    Deltas(index, chunks) + Ending(index, closed));
    case RedactedBlock(data, closed) =>
      ReadsRedacted(index, data);
      HashesOfFirst(hasher, StartEvent(index, RedactedStartJson(data)), Ending(index, closed));
    case PlainBlock(_) =>
  }

  /** Main result: whatever the interleaving, the cuts, the truncation and the quiet events, a stream that
      carries some blocks streams exactly the hashes of their texts. */
  lemma CarriedBlocksAreStreamed(hasher: Hasher, stream: seq<SseEvent>, blocks: map<nat, Block>)
    requires Carries(stream, blocks)
    ensures StreamHashes(hasher, ReadAll(stream)) == BlockHashes(hasher, blocks)
  {
    hide Quiet, IndexOf, StreamHashes, ReadAll, Printed, TextOf, FastHash;
    forall h ensures h in StreamHashes(hasher, ReadAll(stream)) <==> h in BlockHashes(hasher, blocks) {
      HashesByIndex(hasher, stream, h);
      forall i | i in blocks
        ensures StreamedBy(hasher, stream, i, h) <==>
                TextOf(blocks[i]).Some? && h == FastHash(hasher, TextOf(blocks[i]).value)
      {
        PrintedHashes(hasher, i, blocks[i]);
      }
      forall i: nat | i !in blocks ensures !StreamedBy(hasher, stream, i, h) {
        NothingForOthers(stream, blocks, i);
        NothingStreamed(hasher, h);
      }
    }
  }

  lemma {:induction false} NothingForOthers(stream: seq<SseEvent>, blocks: map<nat, Block>, i: nat)
    requires forall k :: 0 <= k < |stream| ==>
      Quiet(stream[k]) || (IndexOf(stream[k]).Some? && IndexOf(stream[k]).value in blocks)
    requires i !in blocks
    ensures Project(stream, i) == []
  {
    hide Quiet, IndexOf;
    if stream != [] {
      NothingForOthers(stream[1..], blocks, i);
    }
  }

  // ---- What follows a block ----

  lemma StopBefore(hasher: Hasher, index: nat, more: seq<SseEvent>)
    requires index < 0x1_0000_0000_0000_0000
    ensures StreamHashes(hasher, ReadAll([StopEvent(index)] + more)) == StreamHashes(hasher, ReadAll(more))
    ensures Tail(ReadAll([StopEvent(index)] + more), index) == Some("")
  {
    hide Read, StopEvent;
    ReadsStop(index);
    ReadFirst(StopEvent(index), more);
    HashesOfFirst(hasher, StopEvent(index), more);
  }

  lemma StartBefore(hasher: Hasher, index: nat, initial: Option<string>, more: seq<SseEvent>)
    requires index < 0x1_0000_0000_0000_0000
    ensures var start := StartEvent(index, ThinkingStartJson(initial));
      && Tail(ReadAll([start] + more), index) == None
      && StreamHashes(hasher, ReadAll([start] + more)) == StreamHashes(hasher, ReadAll(more)) +
         BlockHash(hasher, match initial case Some(text) => text case None => "", Tail(ReadAll(more), index))
  {
    hide Read, StartEvent, BlockHash;
    var start := StartEvent(index, ThinkingStartJson(initial));
    ReadsStart(index, initial);
    ReadFirst(start, more);
    HashesOfFirst(hasher, start, more);
  }

  /** A closed block is complete: whatever follows, also under the same index, adds nothing to it. */
  lemma ClosedBlockIsComplete(
      hasher: Hasher, index: nat, initial: Option<string>, chunks: seq<string>, more: seq<SseEvent>)
    requires index < 0x1_0000_0000_0000_0000
    ensures var block := ThinkingBlock(initial, chunks, true);
      StreamHashes(hasher, ReadAll(Printed(index, block) + more)) == StreamHashes(hasher, ReadAll(more)) +
      match TextOf(block) case Some(text) => {FastHash(hasher, text)} case None => {}
  {
    hide StartEvent, StopEvent, StreamHashes, Tail, FastHash, ReadAll, Deltas, Flatten;
    var stopped := [StopEvent(index)] + more;
    StopBefore(hasher, index, more);
    DeltasBefore(hasher, index, chunks, stopped);
    StartBefore(hasher, index, initial, Deltas(index, chunks) + stopped);
    assert Printed(index, ThinkingBlock(initial, chunks, true)) + more ==
           [StartEvent(index, ThinkingStartJson(initial))] + (Deltas(index, chunks) + stopped);
    assert Flatten(chunks) + "" == Flatten(chunks);
  }

  /** A block that is started again before it stops is discarded with all its text. */
  lemma RestartDiscards(
      hasher: Hasher, index: nat, initial: Option<string>, chunks: seq<string>, again: Option<string>,
      more: seq<SseEvent>)
    requires index < 0x1_0000_0000_0000_0000
    ensures var rest := [StartEvent(index, ThinkingStartJson(again))] + more;
      StreamHashes(hasher, ReadAll(Printed(index, ThinkingBlock(initial, chunks, false)) + rest)) ==
      StreamHashes(hasher, ReadAll(rest))
  {
    hide StartEvent, StreamHashes, Tail, FastHash, ReadAll, Deltas, Flatten;
    var rest := [StartEvent(index, ThinkingStartJson(again))] + more;
    StartBefore(hasher, index, again, more);
    DeltasBefore(hasher, index, chunks, rest);
    StartBefore(hasher, index, initial, Deltas(index, chunks) + rest);
    assert Printed(index, ThinkingBlock(initial, chunks, false)) + rest ==
           [StartEvent(index, ThinkingStartJson(initial))] + (Deltas(index, chunks) + rest);
  }

  // ---- Blocks sent one after the other ----

  /** A whole response, block after block. */
  function PrintedFrom(index: nat, blocks: seq<Block>): seq<SseEvent>
    decreases |blocks|
  {
    if blocks == [] then [] else Printed(index, blocks[0]) + PrintedFrom(index + 1, blocks[1..])
  }

  function Numbered(blocks: seq<Block>): map<nat, Block> {
    map i: nat | i < |blocks| :: blocks[i]
  }

  lemma {:induction false} ProjectConcat(first: seq<SseEvent>, second: seq<SseEvent>, i: nat)
    ensures Project(first + second, i) == Project(first, i) + Project(second, i)
  {
    hide Quiet, IndexOf;
    if first == [] {
      assert first + second == second;
    } else {
      ProjectConcat(first[1..], second, i);
      var head := if !Quiet(first[0]) && IndexOf(first[0]) == Some(i) then [first[0]] else [];
      assert (first + second)[0] == first[0] && (first + second)[1..] == first[1..] + second;
      var tail, more := Project(first[1..], i), Project(second, i);
      assert head + (tail + more) == (head + tail) + more;
    }
  }

  lemma {:induction false} ProjectOwn(stream: seq<SseEvent>, index: nat, i: nat)
    requires forall k :: 0 <= k < |stream| ==> !Quiet(stream[k]) && IndexOf(stream[k]) == Some(index)
    ensures Project(stream, i) == if i == index then stream else []
  {
    hide Quiet, IndexOf;
    if stream != [] {
      ProjectOwn(stream[1..], index, i);
    }
  }

  lemma {:induction false} DeltasAreOwn(index: nat, chunks: seq<string>)
    requires index < 0x1_0000_0000_0000_0000
    ensures forall k :: 0 <= k < |Deltas(index, chunks)| ==>
      !Quiet(Deltas(index, chunks)[k]) && IndexOf(Deltas(index, chunks)[k]) == Some(index)
  {
    hide Quiet, IndexOf, DeltaEvent;
    if chunks != [] {
      DeltasAreOwn(index, chunks[1..]);
      LoudEvents(index, chunks[0], None);
    }
  }

  lemma LoudEvents(index: nat, text: string, initial: Option<string>)
    requires index < 0x1_0000_0000_0000_0000
    ensures var delta := DeltaEvent(index, ThinkingDeltaJson(text)); !Quiet(delta) && IndexOf(delta) == Some(index)
    ensures var stop := StopEvent(index); !Quiet(stop) && IndexOf(stop) == Some(index)
    ensures var start := StartEvent(index, ThinkingStartJson(initial)); !Quiet(start) && IndexOf(start) == Some(index)
    ensures var start := StartEvent(index, RedactedStartJson(text)); !Quiet(start) && IndexOf(start) == Some(index)
  {
    hide Quiet;
    LoudStarts(index, text, initial);
    LoudDelta(index, text);
    LoudStop(index);
  }

  lemma LoudStarts(index: nat, data: string, initial: Option<string>)
    requires index < 0x1_0000_0000_0000_0000
    ensures !Quiet(StartEvent(index, ThinkingStartJson(initial)))
    ensures !Quiet(StartEvent(index, RedactedStartJson(data)))
  {
  }

  lemma LoudDelta(index: nat, text: string)
    requires index < 0x1_0000_0000_0000_0000
    ensures !Quiet(DeltaEvent(index, ThinkingDeltaJson(text)))
  {
    assert "content_block_delta"[14] == 'd' && "content_block_start"[14] == 's';
  }

  lemma LoudStop(index: nat)
    requires index < 0x1_0000_0000_0000_0000
    ensures !Quiet(StopEvent(index))
  {
    assert "content_block_stop"[16] == 'o' && "content_block_start"[16] == 'a' && "content_block_delta"[14] == 'd';
  }

  lemma PrintedAreOwn(index: nat, block: Block)
    requires index < 0x1_0000_0000_0000_0000
    ensures forall k :: 0 <= k < |Printed(index, block)| ==>
      !Quiet(Printed(index, block)[k]) && IndexOf(Printed(index, block)[k]) == Some(index)
  {
    hide Quiet, IndexOf, DeltaEvent, StopEvent, StartEvent, Deltas;
    match block
    case ThinkingBlock(initial, chunks, _) =>
      LoudEvents(index, "", initial);
      DeltasAreOwn(index, chunks);
    case RedactedBlock(data, _) => LoudEvents(index, data, None);
    case PlainBlock(_) => LoudEvents(index, "", None);
  }

  lemma {:induction false} PrintedProjection(index: nat, blocks: seq<Block>, i: nat)
    requires index + |blocks| <= 0x1_0000_0000_0000_0000
    ensures Project(PrintedFrom(index, blocks), i) ==
      if index <= i < index + |blocks| then Printed(i, blocks[i - index]) else []
    ensures forall k :: 0 <= k < |PrintedFrom(index, blocks)| ==>
      var e := PrintedFrom(index, blocks)[k];
      IndexOf(e).Some? && index <= IndexOf(e).value < index + |blocks|
    decreases |blocks|
  {
    hide Quiet, IndexOf, Printed;
    if blocks != [] {
      var first, rest := Printed(index, blocks[0]), PrintedFrom(index + 1, blocks[1..]);
      PrintedProjection(index + 1, blocks[1..], i);
      PrintedAreOwn(index, blocks[0]);
      ProjectOwn(first, index, i);
      ProjectConcat(first, rest, i);
    }
  }

  /** A response printed block after block carries its blocks. */
  lemma PrintedCarries(blocks: seq<Block>)
    requires |blocks| <= 0x1_0000_0000_0000_0000
    ensures Carries(PrintedFrom(0, blocks), Numbered(blocks))
  {
    hide Quiet, IndexOf, Printed, PrintedFrom, Project;
    forall i ensures i in Numbered(blocks) ==> Project(PrintedFrom(0, blocks), i) == Printed(i, blocks[i]) {
      if 0 <= i {
        PrintedProjection(0, blocks, i);
      }
    }
    PrintedProjection(0, blocks, 0);
  }
}
