/** Conversations as a client holds them, printed as request bodies: which of their blocks a filtered
    request keeps, and which cache entries it leaves. */
module Conversations {
  import opened Common
  import opened JsonValues
  import opened Fingerprints
  import opened RegistrySpec
  import opened FilterProperties

  /** A content item. `rest` are further members, such as a signature; a broken item is a thinking block
      without its text; any other item is not a thinking block. */
  datatype Item =
    | Thought(text: string, rest: map<string, Json>)
    | Redacted(data: string, rest: map<string, Json>)
    | Broken(redacted: bool, rest: map<string, Json>)
    | Other(json: Json)

  /** A message; without items its content is no array. */
  datatype Message = Message(role: string, items: Option<seq<Item>>, rest: map<string, Json>)

  predicate HoldsText(members: map<string, Json>, key: string) { key in members && members[key].Str? }

  ghost predicate ProperItem(item: Item) {
    match item
    case Thought(_, _) | Redacted(_, _) => true
    case Broken(redacted, rest) => !HoldsText(rest, if redacted then "data" else "thinking")
    case Other(json) =>
      json.Obj? && "type" in json.fields ==> json.fields["type"] !in {Str("thinking"), Str("redacted_thinking")}
  }

  ghost predicate ProperItems(items: seq<Item>) { forall j :: 0 <= j < |items| ==> ProperItem(items[j]) }

  ghost predicate Proper(messages: seq<Message>) {
    forall i :: 0 <= i < |messages| ==>
      match messages[i].items
      case Some(items) => ProperItems(items)
      case None => "content" in messages[i].rest ==> !messages[i].rest["content"].Arr?
  }

  // ---- Printing ----

  function PrintItem(item: Item): Json {
    match item
    case Thought(text, rest) => Obj(rest["type" := Str("thinking")]["thinking" := Str(text)])
    case Redacted(data, rest) => Obj(rest["type" := Str("redacted_thinking")]["data" := Str(data)])
    case Broken(redacted, rest) => Obj(rest["type" := Str(if redacted then "redacted_thinking" else "thinking")])
    case Other(json) => json
  }

  function PrintItems(items: seq<Item>): seq<Json> {
    seq(|items|, j requires 0 <= j < |items| => PrintItem(items[j]))
  }

  function PrintMessage(message: Message): Json {
    var members := message.rest["role" := Str(message.role)];
    match message.items
    case Some(items) => Obj(members["content" := Arr(PrintItems(items))])
    case None => Obj(members)
  }

  function PrintMessages(messages: seq<Message>): seq<Json> {
    seq(|messages|, i requires 0 <= i < |messages| => PrintMessage(messages[i]))
  }

  function PrintBody(messages: seq<Message>, rest: map<string, Json>): Json {
    Obj(rest["messages" := Arr(PrintMessages(messages))])
  }

  // ---- Meaning ----

  predicate IsBlock(item: Item) { !item.Other? }

  /** The text of a block a hash can be taken of. */
  function BlockText(item: Item): Option<string> {
    match item
    case Thought(text, _) => Some(text)
    case Redacted(data, _) => Some(data)
    case Broken(_, _) | Other(_) => None
  }

  predicate Stays(hasher: Hasher, keys: set<nat>, item: Item) {
    match item
    case Thought(text, _) => FastHash(hasher, text) in keys
    case Redacted(data, _) => FastHash(hasher, data) in keys
    case Broken(_, _) => false
    case Other(_) => true
  }

  function Kept(hasher: Hasher, keys: set<nat>, items: seq<Item>): seq<Item> {
    if items == [] then []
    else
      Kept(hasher, keys, items[..|items| - 1]) +
      if Stays(hasher, keys, items[|items| - 1]) then [items[|items| - 1]] else []
  }

  function KeptMessages(hasher: Hasher, keys: set<nat>, messages: seq<Message>): seq<Message> {
    seq(|messages|, i requires 0 <= i < |messages| =>
      match messages[i].items
      case Some(items) => messages[i].(items := Some(Kept(hasher, keys, items)))
      case None => messages[i])
  }

  ghost predicate ItemIn(messages: seq<Message>, item: Item) {
    exists i :: 0 <= i < |messages| && messages[i].items.Some? && item in messages[i].items.value
  }

  /** Some block of the conversation has this hash. */
  ghost predicate CarriesHash(hasher: Hasher, messages: seq<Message>, h: nat) {
    exists item :: ItemIn(messages, item) && BlockText(item).Some? && FastHash(hasher, BlockText(item).value) == h
  }

  ghost predicate HasHistory(messages: seq<Message>) {
    exists i :: 0 <= i < |messages| && messages[i].role == "assistant"
  }

  // ---- Printed items ----

  lemma PrintedItem(item: Item)
    requires ProperItem(item)
    ensures IsThinking(PrintItem(item)) <==> IsBlock(item)
    ensures Extract(PrintItem(item)) == BlockText(item)
  {
  }

  lemma PrintedSurvival(hasher: Hasher, keys: set<nat>, item: Item)
    requires ProperItem(item)
    ensures Survives(hasher, keys, PrintItem(item)) == Stays(hasher, keys, item)
  {
    hide PrintItem, IsThinking, Extract, ProperItem, FastHash;
    PrintedItem(item);
  }

  lemma {:induction false} PrintedKept(hasher: Hasher, keys: set<nat>, items: seq<Item>)
    requires ProperItems(items)
    ensures KeepItems(hasher, keys, PrintItems(items)) == PrintItems(Kept(hasher, keys, items))
  {
    hide PrintItem, Survives, Stays, ProperItem;
    if items != [] {
      var init, last := items[..|items| - 1], items[|items| - 1];
      PrintedKept(hasher, keys, init);
      PrintedSurvival(hasher, keys, last);
      assert PrintItems(items)[..|items| - 1] == PrintItems(init);
      assert PrintItems(items)[|items| - 1] == PrintItem(last);
    }
  }

  lemma PrintedContent(message: Message)
    requires Proper([message])
    ensures GetArray(PrintMessage(message), "content") ==
      match message.items case Some(items) => Some(PrintItems(items)) case None => None
    ensures IsAssistant(PrintMessage(message)) <==> message.role == "assistant"
  {
    hide PrintItems, ProperItems;
    assert [message][0] == message;
  }

  lemma OneMessage(messages: seq<Message>, i: nat)
    requires Proper(messages) && i < |messages|
    ensures Proper([messages[i]])
  {
    hide ProperItems;
  }

  lemma PrintedMessageKept(hasher: Hasher, keys: set<nat>, message: Message)
    requires Proper([message])
    ensures KeepInMessage(hasher, keys, PrintMessage(message)) ==
            PrintMessage(KeptMessages(hasher, keys, [message])[0])
  {
    hide PrintItems, ProperItems, KeepItems, Kept;
    PrintedContent(message);
    assert [message][0] == message;
    if message.items.Some? {
      PrintedKept(hasher, keys, message.items.value);
      var members := message.rest["role" := Str(message.role)];
      var all, kept := Arr(PrintItems(message.items.value)), Arr(PrintItems(Kept(hasher, keys, message.items.value)));
      assert members["content" := all]["content" := kept] == members["content" := kept];
    }
  }

  /** Retaining in a printed conversation is printing the retained conversation. */
  lemma PrintedBodyKept(hasher: Hasher, keys: set<nat>, messages: seq<Message>, rest: map<string, Json>)
    requires Proper(messages)
    ensures KeepInBody(hasher, keys, PrintBody(messages, rest)) ==
            PrintBody(KeptMessages(hasher, keys, messages), rest)
  {
    hide KeepInMessage, PrintMessage, Proper, Kept;
    var printed, kept := PrintMessages(messages), KeptMessages(hasher, keys, messages);
    forall i | 0 <= i < |messages| ensures KeepInMessage(hasher, keys, printed[i]) == PrintMessage(kept[i]) {
      OneMessage(messages, i);
      PrintedMessageKept(hasher, keys, messages[i]);
      assert KeptMessages(hasher, keys, [messages[i]])[0] == kept[i];
    }
    assert KeepInMessages(hasher, keys, printed) == PrintMessages(kept);
    PrintedMessagesOf(messages, rest);
    var members := rest["messages" := Arr(printed)];
    assert members["messages" := Arr(PrintMessages(kept))] == rest["messages" := Arr(PrintMessages(kept))];
  }

  lemma PrintedMessagesOf(messages: seq<Message>, rest: map<string, Json>)
    ensures GetArray(PrintBody(messages, rest), "messages") == Some(PrintMessages(messages))
  {
  }

  // ---- Printed hashes ----

  lemma {:induction false} PrintedItemHashes(hasher: Hasher, items: seq<Item>, h: nat)
    requires ProperItems(items)
    ensures h in ItemHashes(hasher, PrintItems(items)) <==>
      exists item :: item in items && BlockText(item).Some? && FastHash(hasher, BlockText(item).value) == h
  {
    hide PrintItem, Extract, ProperItem, FastHash, BlockText;
    if items != [] {
      var init, last := items[..|items| - 1], items[|items| - 1];
      PrintedItemHashes(hasher, init, h);
      PrintedItem(last);
      assert PrintItems(items)[..|items| - 1] == PrintItems(init);
      assert PrintItems(items)[|items| - 1] == PrintItem(last);
      assert items == init + [last];
    }
  }

  lemma {:induction false} PrintedMessageHashes(hasher: Hasher, messages: seq<Message>, h: nat)
    requires Proper(messages)
    ensures h in MessageHashes(hasher, PrintMessages(messages)) <==> CarriesHash(hasher, messages, h)
  {
    hide PrintMessage, ItemHashes, PrintItems, FastHash, BlockText, ItemIn;
    if messages == [] {
      NothingCarried(hasher, h);
    } else {
      var init, last := messages[..|messages| - 1], messages[|messages| - 1];
      PrintedMessageHashes(hasher, init, h);
      OneMessage(messages, |messages| - 1);
      PrintedContent(last);
      assert PrintMessages(messages)[..|messages| - 1] == PrintMessages(init);
      assert PrintMessages(messages)[|messages| - 1] == PrintMessage(last);
      if last.items.Some? {
        assert ProperItems(last.items.value);
        PrintedItemHashes(hasher, last.items.value, h);
      }
      forall item ensures ItemIn(messages, item) <==>
        ItemIn(init, item) || (last.items.Some? && item in last.items.value)
      {
        ItemInSnoc(messages, item);
      }
    }
  }

  lemma NothingCarried(hasher: Hasher, h: nat)
    ensures !CarriesHash(hasher, [], h)
  {
  }

  lemma ItemInSnoc(messages: seq<Message>, item: Item)
    requires messages != []
    ensures var init, last := messages[..|messages| - 1], messages[|messages| - 1];
      ItemIn(messages, item) <==> ItemIn(init, item) || (last.items.Some? && item in last.items.value)
  {
    var init, last := messages[..|messages| - 1], messages[|messages| - 1];
    if last.items.Some? && item in last.items.value {
      assert messages[|messages| - 1].items.Some?;
    }
    if i :| 0 <= i < |init| && init[i].items.Some? && item in init[i].items.value {
      assert messages[i] == init[i];
    }
  }

  lemma PrintedRequestHashes(hasher: Hasher, messages: seq<Message>, rest: map<string, Json>)
    requires Proper(messages)
    ensures forall h :: h in RequestHashes(hasher, PrintBody(messages, rest)) <==> CarriesHash(hasher, messages, h)
  {
    hide PrintMessages, MessageHashes, CarriesHash, Proper;
    PrintedMessagesOf(messages, rest);
    forall h ensures h in RequestHashes(hasher, PrintBody(messages, rest)) <==> CarriesHash(hasher, messages, h) {
      PrintedMessageHashes(hasher, messages, h);
    }
  }

  lemma PrintedHistory(messages: seq<Message>, rest: map<string, Json>)
    requires Proper(messages)
    ensures HasAssistant(PrintBody(messages, rest)) <==> HasHistory(messages)
  {
    hide PrintMessage, IsAssistant, Proper;
    PrintedMessagesOf(messages, rest);
    forall i | 0 <= i < |messages|
      ensures IsAssistant(PrintMessages(messages)[i]) <==> messages[i].role == "assistant"
    {
      OneMessage(messages, i);
      PrintedContent(messages[i]);
    }
  }

  // ---- Main results ----

  /** A filtered conversation is the conversation without the blocks whose text is not cached under the
      current session; order, other items, other members and messages without items stay as they are. */
  lemma FilteredConversation(
      hasher: Hasher, r: Registry, messages: seq<Message>, rest: map<string, Json>, usable: set<nat>)
    requires Proper(messages)
    requires forall h :: h in usable <==> h in r.blocks && r.blocks[h].session == r.session
    ensures FilteredBody(hasher, r, PrintBody(messages, rest)) ==
            PrintBody(KeptMessages(hasher, usable, messages), rest)
  {
    hide KeepInBody, PrintBody, KeptMessages;
    assert CurrentKeys(r) == usable;
    PrintedBodyKept(hasher, usable, messages, rest);
  }

  /** The cache after a conversation was filtered: an entry stays exactly when it is of the current session
      and the conversation has no assistant message, or no block, or a block with its hash, or the entry is
      unconfirmed and at most the threshold old; it is confirmed when it was or when a block has its hash. */
  lemma CacheAfterConversation(
      hasher: Hasher, r: Registry, messages: seq<Message>, rest: map<string, Json>, now: nat, h: nat)
    requires Proper(messages) && h in r.blocks
    ensures var info := r.blocks[h];
      var after := AfterRequest(hasher, r, PrintBody(messages, rest), now).blocks;
      && (h in after <==>
           && info.session == r.session
           && (|| !HasHistory(messages)
               || (forall g :: !CarriesHash(hasher, messages, g))
               || CarriesHash(hasher, messages, h)
               || (!info.confirmed && now <= info.registeredAt + r.threshold)))
      && (h in after ==> after[h] == info.(confirmed := info.confirmed || CarriesHash(hasher, messages, h)))
  {
    hide PrintBody, CarriesHash, HasHistory, RequestHashes, HasAssistant, Proper;
    PrintedRequestHashes(hasher, messages, rest);
    PrintedHistory(messages, rest);
    var hashes := RequestHashes(hasher, PrintBody(messages, rest));
    assert hashes == {} <==> forall g :: !CarriesHash(hasher, messages, g);
  }

  /** A response registers the hashes of the blocks it is printed from. */
  lemma ResponseItemHashes(hasher: Hasher, items: seq<Item>, rest: map<string, Json>, h: nat)
    requires ProperItems(items)
    ensures var response := Obj(rest["content" := Arr(PrintItems(items))]);
      GetArray(response, "content").Some? &&
      (h in ItemHashes(hasher, GetArray(response, "content").value) <==>
       exists item :: item in items && BlockText(item).Some? && FastHash(hasher, BlockText(item).value) == h)
  {
    hide PrintItems, BlockText, FastHash, ItemHashes;
    PrintedItemHashes(hasher, items, h);
  }
}
