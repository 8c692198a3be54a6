/** Specification of the thinking-block registry: what one atomic operation does to the cache and
    to the request body (src/proxy/thinking/registry.rs). */
module RegistrySpec {
  import opened Common
  import opened JsonValues
  import opened Fingerprints

  datatype BlockInfo = BlockInfo(session: nat, confirmed: bool, registeredAt: nat)

  datatype Registry = Registry(session: nat, backend: string, blocks: map<nat, BlockInfo>, threshold: nat)

  // ---- Thinking blocks of a JSON value ----

  predicate IsThinking(item: Json) {
    GetStr(item, "type") == Some("thinking") || GetStr(item, "type") == Some("redacted_thinking")
  }

  /** `extract_thinking_content`. */
  function Extract(item: Json): Option<string> {
    match GetStr(item, "type")
    case Some(kind) =>
      if kind == "thinking" then GetStr(item, "thinking")
      else if kind == "redacted_thinking" then GetStr(item, "data")
      else None
    case None => None
  }

  /** Hashes of the extractable thinking blocks of a content array. */
  function ItemHashes(hasher: Hasher, items: seq<Json>): set<nat> {
    if items == [] then {}
    else
      ItemHashes(hasher, items[..|items| - 1]) +
      match Extract(items[|items| - 1]) case Some(text) => {FastHash(hasher, text)} case None => {}
  }

  function MessageHashes(hasher: Hasher, messages: seq<Json>): set<nat> {
    if messages == [] then {}
    else
      MessageHashes(hasher, messages[..|messages| - 1]) +
      match GetArray(messages[|messages| - 1], "content")
      case Some(items) => ItemHashes(hasher, items)
      case None => {}
  }

  function RequestHashes(hasher: Hasher, body: Json): set<nat> {
    match GetArray(body, "messages")
    case Some(messages) => MessageHashes(hasher, messages)
    case None => {}
  }

  lemma {:induction false} MessageHashesCover(hasher: Hasher, messages: seq<Json>, i: nat)
    requires i < |messages| && GetArray(messages[i], "content").Some?
    ensures ItemHashes(hasher, GetArray(messages[i], "content").value) <= MessageHashes(hasher, messages)
  {
    if i < |messages| - 1 {
      MessageHashesCover(hasher, messages[..|messages| - 1], i);
    }
  }

  predicate IsAssistant(message: Json) { GetStr(message, "role") == Some("assistant") }

  predicate HasAssistant(body: Json) {
    match GetArray(body, "messages")
    case Some(messages) => exists i :: 0 <= i < |messages| && IsAssistant(messages[i])
    case None => false
  }

  // ---- Removing blocks from a body ----

  /** An item survives when it is no thinking block, or its text hashes into `keys`. */
  predicate Survives(hasher: Hasher, keys: set<nat>, item: Json) {
    !IsThinking(item) || (Extract(item).Some? && FastHash(hasher, Extract(item).value) in keys)
  }

  function KeepItems(hasher: Hasher, keys: set<nat>, items: seq<Json>): (kept: seq<Json>)
    ensures |kept| <= |items|
  {
    if items == [] then []
    else
      var last := items[|items| - 1];
      KeepItems(hasher, keys, items[..|items| - 1]) + if Survives(hasher, keys, last) then [last] else []
  }

  function KeepInMessage(hasher: Hasher, keys: set<nat>, message: Json): Json {
    match GetArray(message, "content")
    case Some(items) => With(message, "content", Arr(KeepItems(hasher, keys, items)))
    case None => message
  }

  function KeepInMessages(hasher: Hasher, keys: set<nat>, messages: seq<Json>): seq<Json> {
    seq(|messages|, i requires 0 <= i < |messages| => KeepInMessage(hasher, keys, messages[i]))
  }

  function KeepInBody(hasher: Hasher, keys: set<nat>, body: Json): Json {
    match GetArray(body, "messages")
    case Some(messages) => With(body, "messages", Arr(KeepInMessages(hasher, keys, messages)))
    case None => body
  }

  /** Number of items in all content arrays of a message list, and of a body. */
  function ItemCount(messages: seq<Json>): nat {
    if messages == [] then 0
    else
      ItemCount(messages[..|messages| - 1]) +
      match GetArray(messages[|messages| - 1], "content") case Some(items) => |items| case None => 0
  }

  function BodyItemCount(body: Json): nat {
    match GetArray(body, "messages") case Some(messages) => ItemCount(messages) case None => 0
  }

  // ---- Operations ----

  const INITIAL := Registry(0, "", map[], 300)

  function Switched(r: Registry, backend: string): Registry {
    if r.backend != backend then r.(session := r.session + 1, backend := backend) else r
  }

  /** Registering a set of hashes: an entry of the same session is left alone, any other is replaced. */
  function Register(blocks: map<nat, BlockInfo>, hashes: set<nat>, session: nat, now: nat): map<nat, BlockInfo> {
    map h | h in blocks.Keys + hashes ::
      if h in hashes && !(h in blocks && blocks[h].session == session)
      then BlockInfo(session, false, now) else blocks[h]
  }

  /** The hashes a request may still use: those cached under the current session. */
  function CurrentKeys(r: Registry): set<nat> {
    set h | h in r.blocks && r.blocks[h].session == r.session
  }

  function Age(info: BlockInfo, now: nat): nat {
    if info.registeredAt <= now then now - info.registeredAt else 0
  }

  /** Neither confirmed nor older than the threshold. */
  predicate InGrace(info: BlockInfo, threshold: nat, now: nat) { !info.confirmed && Age(info, now) <= threshold }

  /** Rules 2 and 3 run only for requests with history that carry thinking blocks. */
  predicate Informative(hasher: Hasher, body: Json) {
    HasAssistant(body) && RequestHashes(hasher, body) != {}
  }

  predicate Retained(hasher: Hasher, r: Registry, body: Json, now: nat, h: nat)
    requires h in r.blocks
  {
    && r.blocks[h].session == r.session
    && (Informative(hasher, body) ==>
        h in RequestHashes(hasher, body) || InGrace(r.blocks[h], r.threshold, now))
  }

  /** The cache after a request: what is retained, confirmed when the request carries it. */
  function CacheAfter(hasher: Hasher, r: Registry, body: Json, now: nat): map<nat, BlockInfo> {
    map h | h in r.blocks && Retained(hasher, r, body, now, h) ::
      r.blocks[h].(confirmed := r.blocks[h].confirmed || h in RequestHashes(hasher, body))
  }

  /** The one-pass meaning of a request: the body keeps the blocks cached under the current session. */
  function FilteredBody(hasher: Hasher, r: Registry, body: Json): Json {
    KeepInBody(hasher, CurrentKeys(r), body)
  }

  function AfterRequest(hasher: Hasher, r: Registry, body: Json, now: nat): Registry {
    r.(blocks := CacheAfter(hasher, r, body, now))
  }
}
