/** The registry object, its three-phase request processing and its two registration paths,
    proved against RegistrySpec. */
module ThinkingRegistryObject {
  import opened Common
  import opened JsonValues
  import opened Fingerprints
  import opened RegistrySpec
  import opened SseSpec
  import opened SseWire

  class ThinkingRegistry {
    const hasher: Hasher
    const orphanThreshold: nat
    var currentSession: nat
    var currentBackend: string
    var blocks: map<nat, BlockInfo>

    ghost function Model(): Registry
      reads this
    {
      Registry(currentSession, currentBackend, blocks, orphanThreshold)
    }

    constructor (hasher: Hasher)
      ensures Model() == INITIAL && this.hasher == hasher
      ensures currentSession == 0 && currentBackend == "" && blocks == map[] && orphanThreshold == 300
    {
      this.hasher := hasher;
      orphanThreshold := 300;
      currentSession, currentBackend, blocks := 0, "", map[];
    }

    method OnBackendSwitch(newBackend: string)
      modifies this
      ensures Model() == Switched(old(Model()), newBackend)
      ensures currentBackend == newBackend && blocks == old(blocks)
      ensures currentSession == old(currentSession) + if newBackend == old(currentBackend) then 0 else 1
    {
      if currentBackend != newBackend {
        currentSession := currentSession + 1;
        currentBackend := newBackend;
      }
    }

    method RegisterBlock(content: string, session: nat, now: nat)
      modifies this`blocks
      ensures blocks == Register(old(blocks), {FastHash(hasher, content)}, session, now)
      ensures var h := FastHash(hasher, content);
        && blocks.Keys == old(blocks).Keys + {h}
        && (forall g :: g in old(blocks) && g != h ==> blocks[g] == old(blocks)[g])
        && (if h in old(blocks) && old(blocks)[h].session == session then blocks[h] == old(blocks)[h]
            else blocks[h].session == session && !blocks[h].confirmed && blocks[h].registeredAt == now)
    {
      var hash := FastHash(hasher, content);
      if hash in blocks && blocks[hash].session == session {
        return;
      }
      blocks := blocks[hash := BlockInfo(session, false, now)];
    }

    /** A response body that is no JSON (None) or has no content array registers nothing. */
    method RegisterFromResponse(response: Option<Json>, session: nat, now: nat)
      modifies this`blocks
      ensures blocks == Register(old(blocks), ResponseHashes(hasher, response), session, now)
    {
      if response.None? {
        RegisterNothing(blocks, session, now);
        return;
      }
      match GetArray(response.value, "content") {
        case None =>
          RegisterNothing(blocks, session, now);
        case Some(content) =>
          hide Register, FastHash, Extract, ItemHashes;
          RegisterNothing(blocks, session, now);
          NoItemHashes(hasher, content);
          for i := 0 to |content|
            invariant blocks == Register(old(blocks), ItemHashes(hasher, content[..i]), session, now)
          {
            OneMoreItem(hasher, content, i);
            match Extract(content[i]) {
              case Some(thinking) =>
                RegisterMore(old(blocks), ItemHashes(hasher, content[..i]), {FastHash(hasher, thinking)}, session, now);
                RegisterBlock(thinking, session, now);
              case None =>
            }
          }
          assert content[..|content|] == content;
      }
    }

    /** Registers exactly the texts of the blocks a stream carries, and for any stream the hashes it
        completes. Deltas accumulate per index; leftovers of a truncated stream are visited in arbitrary order. */
    method RegisterFromSseStream(events: seq<SseEvent>, session: nat, now: nat)
      modifies this`blocks
      ensures blocks == Register(old(blocks), StreamHashes(hasher, ReadAll(events)), session, now)
      ensures forall carried :: Carries(events, carried) ==>
        blocks == Register(old(blocks), BlockHashes(hasher, carried), session, now)
    {
      hide Register, StreamHashes, Awaited, ReadAll, Read, TextHash, FastHash, Carries, BlockHashes;
      var accumulators: map<nat, string> := map[];
      ghost var done: set<nat> := {};
      ghost var all := StreamHashes(hasher, ReadAll(events));
      RegisterNothing(blocks, session, now);
      NothingOpen(hasher, ReadAll(events));
      assert events[0..] == events;
      for i := 0 to |events|
        invariant blocks == Register(old(blocks), done, session, now)
        invariant Accounted(hasher, all, done, accumulators, ReadAll(events[i..]))
      {
        ghost var rest := ReadAll(events[i..]);
        ReadNext(events, i);
        match Read(events[i]) {
          case ThinkingStart(index, initial) =>
            StartIsAccounted(hasher, all, done, accumulators, rest);
            accumulators := accumulators[index := initial];
          case RedactedStart(content) =>
            RedactedIsAccounted(hasher, all, done, accumulators, rest);
            RegisterMore(old(blocks), done, {FastHash(hasher, content)}, session, now);
            RegisterBlock(content, session, now);
            done := done + {FastHash(hasher, content)};
          case ThinkingDelta(index, text) =>
            DeltaIsAccounted(hasher, all, done, accumulators, rest);
            if index in accumulators {
              accumulators := accumulators[index := accumulators[index] + text];
            }
          case BlockStop(index) =>
            StopIsAccounted(hasher, all, done, accumulators, rest);
            if index in accumulators {
              var accumulated := accumulators[index];
              RegisterMore(old(blocks), done, TextHash(hasher, accumulated), session, now);
              RegisterText(accumulated, session, now);
              done := done + TextHash(hasher, accumulated);
            }
            accumulators := accumulators - {index};
          case Other =>
            OtherIsAccounted(hasher, all, done, accumulators, rest);
        }
      }
      NoEventsLeft(events);
      while accumulators != map[]
        invariant blocks == Register(old(blocks), done, session, now)
        invariant Accounted(hasher, all, done, accumulators, [])
        decreases |accumulators|
      {
        var index :| index in accumulators;
        var accumulated := accumulators[index];
        LeftoverIsAccounted(hasher, all, done, accumulators, index);
        RegisterMore(old(blocks), done, TextHash(hasher, accumulated), session, now);
        RegisterText(accumulated, session, now);
        done := done + TextHash(hasher, accumulated);
        RemovalShrinks(accumulators, index);
        accumulators := accumulators - {index};
      }
      AllAccounted(hasher, all, done);
      CarriedHashes(hasher, events);
    }

    /** Registers a completed text unless it is empty. */
    method RegisterText(text: string, session: nat, now: nat)
      modifies this`blocks
      ensures blocks == Register(old(blocks), TextHash(hasher, text), session, now)
    {
      if text != "" {
        RegisterBlock(text, session, now);
      } else {
        RegisterNothing(blocks, session, now);
      }
    }

    method ExtractRequestHashes(body: Json) returns (hashes: set<nat>)
      ensures hashes == RequestHashes(hasher, body)
    {
      hide ItemHashes, Extract, FastHash;
      hashes := {};
      match GetArray(body, "messages") {
        case None =>
        case Some(messages) =>
          for i := 0 to |messages|
            invariant hashes == MessageHashes(hasher, messages[..i])
          {
            assert messages[..i + 1][..i] == messages[..i];
            match GetArray(messages[i], "content") {
              case None =>
              case Some(items) =>
                NoItemHashes(hasher, items);
                for j := 0 to |items|
                  invariant hashes == MessageHashes(hasher, messages[..i]) + ItemHashes(hasher, items[..j])
                {
                  OneMoreItem(hasher, items, j);
                  match Extract(items[j]) {
                    case Some(thinking) => hashes := hashes + {FastHash(hasher, thinking)};
                    case None =>
                  }
                }
                assert items[..|items|] == items;
            }
          }
          assert messages[..|messages|] == messages;
      }
    }

    /** Visits the request hashes in arbitrary order. */
    method ConfirmBlocks(requestHashes: set<nat>) returns (confirmedCount: nat)
      modifies this`blocks
      ensures blocks == Confirmed(old(blocks), requestHashes, currentSession)
      ensures confirmedCount == |Unconfirmed(old(blocks), requestHashes, currentSession)|
    {
      confirmedCount := 0;
      var rest := requestHashes;
      while rest != {}
        invariant rest <= requestHashes
        invariant blocks == Confirmed(old(blocks), requestHashes - rest, currentSession)
        invariant confirmedCount == |Unconfirmed(old(blocks), requestHashes - rest, currentSession)|
        decreases rest
      {
        var hash :| hash in rest;
        OneMoreUnconfirmed(old(blocks), requestHashes - rest, currentSession, hash);
        assert requestHashes - (rest - {hash}) == (requestHashes - rest) + {hash};
        if hash in blocks {
          var info := blocks[hash];
          if info.session == currentSession && !info.confirmed {
            blocks := blocks[hash := info.(confirmed := true)];
            confirmedCount := confirmedCount + 1;
          }
        }
        rest := rest - {hash};
      }
      assert requestHashes - rest == requestHashes;
    }

    /** `retain` with the first rule alone, over the entries in arbitrary order. */
    method CleanupOldSessions()
      modifies this`blocks
      ensures forall h :: h in blocks ==> h in old(blocks) && blocks[h] == old(blocks)[h]
      ensures forall h :: h in old(blocks) ==> (h in blocks <==> old(blocks)[h].session == currentSession)
    {
      var rest := blocks.Keys;
      while rest != {}
        invariant rest <= blocks.Keys
        invariant forall h :: h in blocks ==> h in old(blocks) && blocks[h] == old(blocks)[h]
        invariant forall h :: h in old(blocks) && h !in rest ==>
          (h in blocks <==> old(blocks)[h].session == currentSession)
        decreases rest
      {
        var hash :| hash in rest;
        if blocks[hash].session != currentSession {
          blocks := blocks - {hash};
        }
        rest := rest - {hash};
      }
    }

    /** What is left is unchanged and of the current session. Of the current entries a request without
        blocks evicts none; any other request leaves those it carries, and of the rest exactly the
        unconfirmed ones within the grace period. */
    method CleanupCache(requestHashes: set<nat>, now: nat)
      modifies this`blocks
      ensures forall h :: h in blocks ==> h in old(blocks) && blocks[h] == old(blocks)[h]
      ensures forall h :: h in blocks ==> blocks[h].session == currentSession
      ensures forall h :: h in old(blocks) && old(blocks)[h].session == currentSession ==>
        (h in blocks <==>
         requestHashes == {} || h in requestHashes ||
         (!old(blocks)[h].confirmed && now <= old(blocks)[h].registeredAt + orphanThreshold))
    {
      if requestHashes == {} {
        CleanupOldSessions();
        return;
      }
      var rest := blocks.Keys;
      while rest != {}
        invariant rest <= blocks.Keys
        invariant forall h :: h in blocks ==> h in old(blocks) && blocks[h] == old(blocks)[h]
        invariant forall h :: h in blocks && h !in rest ==> blocks[h].session == currentSession
        invariant forall h :: h in old(blocks) && h !in rest && old(blocks)[h].session == currentSession ==>
          (h in blocks <==> h in requestHashes || InGrace(old(blocks)[h], orphanThreshold, now))
        decreases rest
      {
        var hash :| hash in rest;
        var info := blocks[hash];
        if info.session != currentSession {
          blocks := blocks - {hash};
        } else if info.confirmed && hash !in requestHashes {
          blocks := blocks - {hash};
        } else if !info.confirmed && hash !in requestHashes {
          if Age(info, now) > orphanThreshold {
            blocks := blocks - {hash};
          }
        }
        rest := rest - {hash};
      }
    }

    method FilterRequestBody(body: Json) returns (filtered: Json, removed: nat)
      ensures filtered == KeepInBody(hasher, blocks.Keys, body)
      ensures removed + BodyItemCount(filtered) == BodyItemCount(body)
    {
      filtered, removed := RetainBlocks(hasher, blocks.Keys, body);
    }

    /** Three phases, one meaning: the body keeps exactly the blocks that were cached under the
        current session before the call, and the count is the number of items removed. */
    method FilterRequest(body: Json, now: nat) returns (filtered: Json, removed: nat)
      modifies this`blocks
      ensures filtered == FilteredBody(hasher, old(Model()), body)
      ensures removed + BodyItemCount(filtered) == BodyItemCount(body)
      ensures Model() == AfterRequest(hasher, old(Model()), body, now)
    {
      hide Confirmed, CacheAfter, RequestHashes, KeepInBody, FilteredBody, BodyItemCount;
      var requestHashes := ExtractRequestHashes(body);
      var _ := ConfirmBlocks(requestHashes);
      ghost var confirmed := blocks;
      if HasAssistant(body) {
        CleanupCache(requestHashes, now);
      } else {
        CleanupOldSessions();
      }
      PhasesGiveCacheAfter(hasher, old(Model()), body, now, confirmed, blocks);
      filtered, removed := FilterRequestBody(body);
      RefinesOnePass(hasher, old(Model()), body, now);
    }
  }

  // ---- Retaining blocks in a body, message by message ----

  method RetainInMessage(hasher: Hasher, keys: set<nat>, message: Json) returns (filtered: Json, removed: nat)
    ensures filtered == KeepInMessage(hasher, keys, message)
    ensures removed + ItemCount([filtered]) == ItemCount([message])
  {
    match GetArray(message, "content") {
      case None => return message, 0;
      case Some(content) =>
        var kept: seq<Json> := [];
        for i := 0 to |content|
          invariant kept == KeepItems(hasher, keys, content[..i])
        {
          assert content[..i + 1][..i] == content[..i];
          if !IsThinking(content[i]) {
            kept := kept + [content[i]];
          } else {
            match Extract(content[i]) {
              case Some(thinking) =>
                if FastHash(hasher, thinking) in keys {
                  kept := kept + [content[i]];
                }
              case None =>
            }
          }
        }
        assert content[..|content|] == content;
        return With(message, "content", Arr(kept)), |content| - |kept|;
    }
  }

  /** Keeps the thinking blocks whose hash is in `keys` and counts the items it removes. */
  method RetainBlocks(hasher: Hasher, keys: set<nat>, body: Json) returns (filtered: Json, removed: nat)
    ensures filtered == KeepInBody(hasher, keys, body)
    ensures removed + BodyItemCount(filtered) == BodyItemCount(body)
  {
    hide KeepInMessage, KeepInMessages, ItemCount;
    if GetArray(body, "messages").None? {
      return body, 0;
    }
    var messages := GetArray(body, "messages").value;
    var current := messages;
    removed := 0;
    NothingKeptYet(hasher, keys, messages);
    for i := 0 to |messages|
      invariant current == KeepInMessages(hasher, keys, messages[..i]) + messages[i..]
      invariant |KeepInMessages(hasher, keys, messages[..i])| == i
      invariant removed + ItemCount(KeepInMessages(hasher, keys, messages[..i])) == ItemCount(messages[..i])
    {
      KeepOneMore(hasher, keys, messages, i);
      var kept, n := RetainInMessage(hasher, keys, current[i]);
      ReplaceNext(KeepInMessages(hasher, keys, messages[..i]), messages, i, kept);
      current := current[i := kept];
      removed := removed + n;
    }
    assert messages[..|messages|] == messages;
    assert KeepInMessages(hasher, keys, messages) + messages[|messages|..] == KeepInMessages(hasher, keys, messages);
    KeptBodyItems(hasher, keys, body);
    filtered := With(body, "messages", Arr(current));
  }

  lemma ReplaceNext<T>(front: seq<T>, all: seq<T>, i: nat, x: T)
    requires |front| == i < |all|
    ensures (front + all[i..])[i := x] == (front + [x]) + all[i + 1..]
  {
  }

  // ---- Bookkeeping of the loops over items ----

  lemma NoItemHashes(hasher: Hasher, items: seq<Json>)
    ensures ItemHashes(hasher, items[..0]) == {}
  {
  }

  lemma OneMoreItem(hasher: Hasher, items: seq<Json>, i: nat)
    requires i < |items|
    ensures ItemHashes(hasher, items[..i + 1]) == ItemHashes(hasher, items[..i]) +
      match Extract(items[i]) case Some(text) => {FastHash(hasher, text)} case None => {}
  {
    hide FastHash, Extract;
    assert items[..i + 1][..i] == items[..i];
  }

  // ---- Bookkeeping of the streaming loop ----

  /** Every hash of the whole stream is done, awaited from an open block, or still to come. */
  ghost predicate Accounted(
      hasher: Hasher, all: set<nat>, done: set<nat>, open: map<nat, string>, rest: seq<StreamEvent>)
  {
    forall h :: h in all <==> h in done || Awaited(hasher, open, rest, h) || h in StreamHashes(hasher, rest)
  }

  lemma NothingOpen(hasher: Hasher, events: seq<StreamEvent>)
    ensures Accounted(hasher, StreamHashes(hasher, events), {}, map[], events)
  {
  }

  lemma NoEventsLeft(events: seq<SseEvent>)
    ensures ReadAll(events[|events|..]) == []
  {
  }

  lemma CarriedHashes(hasher: Hasher, events: seq<SseEvent>)
    ensures forall carried :: Carries(events, carried) ==>
      StreamHashes(hasher, ReadAll(events)) == BlockHashes(hasher, carried)
  {
    forall carried | Carries(events, carried) {
      CarriedBlocksAreStreamed(hasher, events, carried);
    }
  }

  lemma AllAccounted(hasher: Hasher, all: set<nat>, done: set<nat>)
    requires Accounted(hasher, all, done, map[], [])
    ensures all == done
  {
  }

  lemma RemovalShrinks(open: map<nat, string>, index: nat)
    requires index in open
    ensures |open - {index}| < |open|
  {
    assert (open - {index}).Keys == open.Keys - {index};
  }

  lemma StartIsAccounted(
      hasher: Hasher, all: set<nat>, done: set<nat>, open: map<nat, string>, rest: seq<StreamEvent>)
    requires Accounted(hasher, all, done, open, rest) && rest != [] && rest[0].ThinkingStart?
    ensures Accounted(hasher, all, done, open[rest[0].index := rest[0].initial], rest[1..])
  {
    hide Awaited, StreamHashes;
    forall h { StartOpens(hasher, open, rest, h); }
  }

  lemma RedactedIsAccounted(
      hasher: Hasher, all: set<nat>, done: set<nat>, open: map<nat, string>, rest: seq<StreamEvent>)
    requires Accounted(hasher, all, done, open, rest) && rest != [] && rest[0].RedactedStart?
    ensures Accounted(hasher, all, done + {FastHash(hasher, rest[0].content)}, open, rest[1..])
  {
    hide Awaited;
    forall h { OthersPass(hasher, open, rest, h); }
  }

  lemma DeltaIsAccounted(
      hasher: Hasher, all: set<nat>, done: set<nat>, open: map<nat, string>, rest: seq<StreamEvent>)
    requires Accounted(hasher, all, done, open, rest) && rest != [] && rest[0].ThinkingDelta?
    ensures var index, text := rest[0].index, rest[0].text;
      Accounted(hasher, all, done, if index in open then open[index := open[index] + text] else open, rest[1..])
  {
    hide Awaited;
    forall h { DeltaExtends(hasher, open, rest, h); }
  }

  lemma StopIsAccounted(
      hasher: Hasher, all: set<nat>, done: set<nat>, open: map<nat, string>, rest: seq<StreamEvent>)
    requires Accounted(hasher, all, done, open, rest) && rest != [] && rest[0].BlockStop?
    ensures var index := rest[0].index;
      Accounted(hasher, all, done + (if index in open then TextHash(hasher, open[index]) else {}),
                open - {index}, rest[1..])
  {
    hide Awaited, TextHash;
    forall h { StopCloses(hasher, open, rest, h); }
  }

  lemma OtherIsAccounted(
      hasher: Hasher, all: set<nat>, done: set<nat>, open: map<nat, string>, rest: seq<StreamEvent>)
    requires Accounted(hasher, all, done, open, rest) && rest != [] && rest[0].Other?
    ensures Accounted(hasher, all, done, open, rest[1..])
  {
    hide Awaited;
    forall h { OthersPass(hasher, open, rest, h); }
  }

  lemma LeftoverIsAccounted(hasher: Hasher, all: set<nat>, done: set<nat>, open: map<nat, string>, index: nat)
    requires Accounted(hasher, all, done, open, []) && index in open
    ensures Accounted(hasher, all, done + TextHash(hasher, open[index]), open - {index}, [])
  {
    hide Awaited, TextHash;
    forall h { LeftoverHashes(hasher, open, index, h); }
  }

  /** Registering further hashes changes nothing exactly when each of them is registered anyway or
      already cached under the session. */
  lemma RegisterAgrees(blocks: map<nat, BlockInfo>, hashes: set<nat>, more: set<nat>, session: nat, now: nat)
    ensures Register(blocks, hashes, session, now) == Register(blocks, hashes + more, session, now) <==>
      forall h :: h in more ==> h in hashes || CachedUnder(blocks, session, h)
  {
    var fewer, all := Register(blocks, hashes, session, now), Register(blocks, hashes + more, session, now);
    if forall h :: h in more ==> h in hashes || CachedUnder(blocks, session, h) {
      assert fewer.Keys == all.Keys;
    } else {
      var h :| h in more && h !in hashes && !CachedUnder(blocks, session, h);
      assert h in all && all[h].session == session;
      assert h in fewer ==> fewer[h].session != session;
    }
  }

  predicate CachedUnder(blocks: map<nat, BlockInfo>, session: nat, h: nat) {
    h in blocks && blocks[h].session == session
  }

  /** Streaming registration is non-streaming registration of the assembled response, whatever the
      interleaving of its indices and wherever it is truncated, exactly when every missed hash is
      streamed as well or cached under the session before; without a restart, exactly when no text
      stays empty or the empty text is streamed as well or cached under the session before. */
  lemma StreamingEqualsResponse(
      hasher: Hasher, events: seq<SseEvent>, blocks: map<nat, BlockInfo>, session: nat, now: nat)
    ensures var stream := ReadAll(events);
      var response := Obj(map["content" := Arr(AssembledContent(stream))]);
      var equal := Register(blocks, StreamHashes(hasher, stream), session, now) ==
                   Register(blocks, ResponseHashes(hasher, Some(response)), session, now);
      && (equal <==> forall h :: h in Missed(hasher, stream) ==>
            h in StreamHashes(hasher, stream) || CachedUnder(blocks, session, h))
      && (NoRestart(stream) ==>
           (equal <==> !HasEmpty(stream) || FastHash(hasher, "") in StreamHashes(hasher, stream) ||
                       CachedUnder(blocks, session, FastHash(hasher, ""))))
  {
    hide Register, CachedUnder, FastHash, ReadAll, StreamHashes, Missed, NoRestart, HasEmpty;
    var stream := ReadAll(events);
    AssembledIsStreamedAndMissed(hasher, stream);
    RegisterAgrees(blocks, StreamHashes(hasher, stream), Missed(hasher, stream), session, now);
    if NoRestart(stream) {
      MissedWithoutRestart(hasher, stream);
    }
  }

  function ResponseHashes(hasher: Hasher, response: Option<Json>): set<nat> {
    if response.None? then {}
    else match GetArray(response.value, "content")
      case Some(content) => ItemHashes(hasher, content)
      case None => {}
  }

  function Confirmed(blocks: map<nat, BlockInfo>, hashes: set<nat>, session: nat): map<nat, BlockInfo> {
    map h | h in blocks ::
      if h in hashes && blocks[h].session == session then blocks[h].(confirmed := true) else blocks[h]
  }

  /** What confirming a set of hashes is going to change. */
  function Unconfirmed(blocks: map<nat, BlockInfo>, hashes: set<nat>, session: nat): set<nat> {
    set h | h in hashes && h in blocks && blocks[h].session == session && !blocks[h].confirmed
  }

  lemma OneMoreUnconfirmed(blocks: map<nat, BlockInfo>, hashes: set<nat>, session: nat, h: nat)
    requires h !in hashes
    ensures var affected := h in blocks && blocks[h].session == session && !blocks[h].confirmed;
      |Unconfirmed(blocks, hashes + {h}, session)| == |Unconfirmed(blocks, hashes, session)| + if affected then 1 else 0
  {
    var affected := h in blocks && blocks[h].session == session && !blocks[h].confirmed;
    assert Unconfirmed(blocks, hashes + {h}, session) ==
           Unconfirmed(blocks, hashes, session) + if affected then {h} else {};
  }

  lemma NothingKeptYet(hasher: Hasher, keys: set<nat>, messages: seq<Json>)
    ensures KeepInMessages(hasher, keys, messages[..0]) == []
    ensures messages[0..] == messages && [] + messages == messages
    ensures ItemCount(messages[..0]) == 0
  {
  }

  lemma KeepOneMore(hasher: Hasher, keys: set<nat>, messages: seq<Json>, i: nat)
    requires i < |messages|
    ensures KeepInMessages(hasher, keys, messages[..i + 1]) ==
            KeepInMessages(hasher, keys, messages[..i]) + [KeepInMessage(hasher, keys, messages[i])]
    ensures ItemCount(messages[..i + 1]) == ItemCount(messages[..i]) + ItemCount([messages[i]])
    ensures ItemCount(KeepInMessages(hasher, keys, messages[..i + 1])) ==
            ItemCount(KeepInMessages(hasher, keys, messages[..i])) +
            ItemCount([KeepInMessage(hasher, keys, messages[i])])
  {
    hide KeepInMessage;
    ItemCountSnoc(messages[..i], messages[i]);
    assert messages[..i + 1] == messages[..i] + [messages[i]];
    ItemCountSnoc(KeepInMessages(hasher, keys, messages[..i]), KeepInMessage(hasher, keys, messages[i]));
    assert KeepInMessages(hasher, keys, messages[..i + 1]) ==
           KeepInMessages(hasher, keys, messages[..i]) + [KeepInMessage(hasher, keys, messages[i])];
  }

  lemma ItemCountSnoc(messages: seq<Json>, message: Json)
    ensures ItemCount(messages + [message]) == ItemCount(messages) + ItemCount([message])
  {
    assert (messages + [message])[..|messages|] == messages;
    assert [message][..0] == [];
  }

  lemma KeptBodyItems(hasher: Hasher, keys: set<nat>, body: Json)
    requires GetArray(body, "messages").Some?
    ensures KeepInBody(hasher, keys, body) ==
            With(body, "messages", Arr(KeepInMessages(hasher, keys, GetArray(body, "messages").value)))
    ensures BodyItemCount(body) == ItemCount(GetArray(body, "messages").value)
    ensures BodyItemCount(KeepInBody(hasher, keys, body)) ==
            ItemCount(KeepInMessages(hasher, keys, GetArray(body, "messages").value))
  {
  }

  /** Confirming and then cleaning gives the one-pass meaning of a request. */
  lemma PhasesGiveCacheAfter(
      hasher: Hasher, r: Registry, body: Json, now: nat, confirmed: map<nat, BlockInfo>, after: map<nat, BlockInfo>)
    requires confirmed == Confirmed(r.blocks, RequestHashes(hasher, body), r.session)
    requires forall h :: h in after ==>
      h in confirmed && after[h] == confirmed[h] && confirmed[h].session == r.session
    requires forall h :: h in confirmed && confirmed[h].session == r.session ==>
      (h in after <==>
       !Informative(hasher, body) || h in RequestHashes(hasher, body) || InGrace(confirmed[h], r.threshold, now))
    ensures after == CacheAfter(hasher, r, body, now)
  {
    hide RequestHashes, HasAssistant;
    forall h ensures h in after <==> h in CacheAfter(hasher, r, body, now) {
    }
  }

  lemma RegisterNothing(blocks: map<nat, BlockInfo>, session: nat, now: nat)
    ensures Register(blocks, {}, session, now) == blocks
  {
  }

  /** Registering in two portions under one session is registering their union. */
  lemma RegisterMore(blocks: map<nat, BlockInfo>, hashes: set<nat>, more: set<nat>, session: nat, now: nat)
    ensures Register(Register(blocks, hashes, session, now), more, session, now) ==
            Register(blocks, hashes + more, session, now)
  {
  }

  /** No cleanup rule evicts a current block the request carries, so filtering against the cleaned
      cache is filtering against the current session's entries of the original one. */
  lemma RefinesOnePass(hasher: Hasher, r: Registry, body: Json, now: nat)
    ensures KeepInBody(hasher, CacheAfter(hasher, r, body, now).Keys, body) == FilteredBody(hasher, r, body)
  {
    var after := CacheAfter(hasher, r, body, now).Keys;
    assert after * RequestHashes(hasher, body) == CurrentKeys(r) * RequestHashes(hasher, body);
    BodyDependsOnItsHashes(hasher, after, CurrentKeys(r), body);
  }

  lemma {:induction false} ItemsDependOnTheirHashes(hasher: Hasher, keys: set<nat>, keys': set<nat>, items: seq<Json>)
    requires forall h :: h in ItemHashes(hasher, items) ==> (h in keys <==> h in keys')
    ensures KeepItems(hasher, keys, items) == KeepItems(hasher, keys', items)
  {
    if items != [] {
      ItemsDependOnTheirHashes(hasher, keys, keys', items[..|items| - 1]);
    }
  }

  lemma BodyDependsOnItsHashes(hasher: Hasher, keys: set<nat>, keys': set<nat>, body: Json)
    requires keys * RequestHashes(hasher, body) == keys' * RequestHashes(hasher, body)
    ensures KeepInBody(hasher, keys, body) == KeepInBody(hasher, keys', body)
  {
    var hashes := RequestHashes(hasher, body);
    match GetArray(body, "messages") {
      case None =>
      case Some(messages) =>
        forall i | 0 <= i < |messages|
          ensures KeepInMessage(hasher, keys, messages[i]) == KeepInMessage(hasher, keys', messages[i])
        {
          if GetArray(messages[i], "content").Some? {
            MessageHashesCover(hasher, messages, i);
            forall h | h in hashes ensures h in keys <==> h in keys' {
              assert h in keys * hashes <==> h in keys' * hashes;
            }
            ItemsDependOnTheirHashes(hasher, keys, keys', GetArray(messages[i], "content").value);
          }
        }
        assert KeepInMessages(hasher, keys, messages) == KeepInMessages(hasher, keys', messages);
    }
  }
}
