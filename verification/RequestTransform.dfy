/** The request-body transformation: model rewriting, adaptive-thinking conversion, thinking-block
    filtering with its all-or-nothing repair, and effort capping (src/proxy/pipeline/transform.rs). */
module RequestTransform {
  import opened Common
  import opened JsonValues
  import opened Fingerprints
  import opened RegistrySpec
  import opened FilterProperties
  import opened Conversations
  import opened ThinkingRegistryObject

  /** What the transformation asks of a backend. */
  datatype Backend = Backend(
    resolveModel: string -> Option<string>,
    capEffort: (string, string) -> Option<string>,
    needsCompat: bool,
    budget: Option<nat>)

  datatype ModelMapping = ModelMapping(backend: string, original: string)

  /** The bytes sent upstream: the ones received, or a serialised body. */
  datatype Payload = OriginalBytes | Serialized(body: Json)

  function Sent(payload: Payload, original: Json): Json {
    match payload case OriginalBytes => original case Serialized(body) => body
  }

  // ---- The steps on values ----

  function ModelOf(body: Json): string {
    match GetStr(body, "model") case Some(model) => model case None => ""
  }

  function Mapping(backend: Backend, body: Json): Option<ModelMapping> {
    match GetStr(body, "model")
    case None => None
    case Some(model) =>
      match backend.resolveModel(model) case Some(target) => Some(ModelMapping(target, model)) case None => None
  }

  function Rewritten(backend: Backend, body: Json): Json {
    match Mapping(backend, body)
    case Some(mapping) => With(body, "model", Str(mapping.backend))
    case None => body
  }

  predicate IsAdaptive(body: Json) {
    Get(body, "thinking").Some? && GetStr(Get(body, "thinking").value, "type") == Some("adaptive")
  }

  /** Configured budget, else one less than the request's limit cut to 32 bits, else 10000. */
  function Budget(body: Json, configured: Option<nat>): nat {
    match configured
    case Some(budget) => budget
    case None =>
      match GetU64(body, "max_tokens")
      case Some(limit) => (if limit == 0 then 0 else limit - 1) % 0x1_0000_0000
      case None => 10_000
  }

  function Converted(body: Json, configured: Option<nat>): Json {
    if IsAdaptive(body) then
      With(body, "thinking", Obj(map["type" := Str("enabled"), "budget_tokens" := Integer(Budget(body, configured))]))
    else body
  }

  function EffortOf(body: Json): Option<string> {
    match Get(body, "output_config")
    case Some(config) => GetStr(config, "effort")
    case None => None
  }

  function Capped(backend: Backend, body: Json, model: string): Json {
    match EffortOf(body)
    case None => body
    case Some(effort) =>
      match backend.capEffort(effort, model)
      case None => body
      case Some(capped) =>
        With(body, "output_config", With(Get(body, "output_config").value, "effort", Str(capped)))
  }

  /** The body as it reaches the filter. */
  function Prepared(backend: Backend, body: Json): Json {
    var rewritten := Rewritten(backend, body);
    if backend.needsCompat then Converted(rewritten, backend.budget) else rewritten
  }

  ghost predicate HasThinkingBlocks(body: Json) {
    exists i: nat, j: nat :: HasItem(body, i, j) && IsThinking(ItemAt(body, i, j))
  }

  /** Every thinking block of the body is cached under the current session. */
  ghost predicate AllReplayable(hasher: Hasher, r: Registry, body: Json) {
    forall i: nat, j: nat :: HasItem(body, i, j) ==> Survives(hasher, CurrentKeys(r), ItemAt(body, i, j))
  }

  function NoThinking(hasher: Hasher, body: Json): Json {
    Without(KeepInBody(hasher, {}, body), "thinking")
  }

  /** What filtering and repair make of a prepared body. With history it is all or nothing: the body
      goes out unchanged when it has thinking blocks and all of them are replayable, and otherwise
      without any thinking block and without the top-level field. */
  ghost function Repaired(hasher: Hasher, r: Registry, body: Json): Json {
    if !HasAssistant(body) then FilteredBody(hasher, r, body)
    else if HasThinkingBlocks(body) && AllReplayable(hasher, r, body) then body
    else NoThinking(hasher, body)
  }

  ghost function Transformed(hasher: Hasher, r: Registry, backend: Backend, body: Json, filter: bool): Json {
    var prepared := Prepared(backend, body);
    Capped(backend, if filter then Repaired(hasher, r, prepared) else prepared, ModelOf(body))
  }

  // ---- What the backend is promised, member by member ----

  function ReceivedModel(body: Json): string {
    match Get(body, "model") case Some(Str(name)) => name case _ => ""
  }

  /** The resolved name when the received model is a string that resolves. */
  function ModelToSend(backend: Backend, body: Json): Option<Json> {
    match Get(body, "model")
    case Some(Str(name)) =>
      (match backend.resolveModel(name) case Some(target) => Some(Str(target)) case None => Some(Str(name)))
    case other => other
  }

  function BudgetToSend(backend: Backend, body: Json): int {
    match backend.budget
    case Some(budget) => budget
    case None =>
      match Get(body, "max_tokens")
      case Some(Integer(limit)) =>
        if limit == 0 then 0
        else if 0 < limit < 0x1_0000_0000_0000_0000 then (limit - 1) % 0x1_0000_0000
        else 10_000
      case _ => 10_000
  }

  /** An adaptive thinking field in the form a compatible backend understands; any other as received. */
  function ThinkingToSend(backend: Backend, body: Json): Option<Json> {
    match Get(body, "thinking")
    case Some(Obj(members)) =>
      if backend.needsCompat && "type" in members && members["type"] == Str("adaptive")
      then Some(Obj(map["type" := Str("enabled"), "budget_tokens" := Integer(BudgetToSend(backend, body))]))
      else Some(Obj(members))
    case other => other
  }

  /** The effort is what the backend makes of it for the received model. */
  function ConfigToSend(backend: Backend, body: Json): Option<Json> {
    match Get(body, "output_config")
    case Some(Obj(members)) =>
      if "effort" in members && members["effort"].Str? then
        match backend.capEffort(members["effort"].s, ReceivedModel(body))
        case Some(level) => Some(Obj(members["effort" := Str(level)]))
        case None => Some(Obj(members))
      else Some(Obj(members))
    case other => other
  }

  /** With history, everything about thinking goes unless there are blocks and all are replayable. */
  ghost predicate LosesThinking(hasher: Hasher, r: Registry, body: Json) {
    HasAssistant(body) && !(HasThinkingBlocks(body) && AllReplayable(hasher, r, body))
  }

  ghost predicate MembersToSend(
      hasher: Hasher, r: Registry, backend: Backend, body: Json, filter: bool, sent: Json)
  {
    && Get(sent, "model") == ModelToSend(backend, body)
    && Get(sent, "thinking") ==
       (if filter && LosesThinking(hasher, r, body) then None else ThinkingToSend(backend, body))
    && Get(sent, "output_config") == ConfigToSend(backend, body)
    && (forall key :: key !in {"model", "thinking", "output_config", "messages"} ==> Get(sent, key) == Get(body, key))
    && (filter || Get(sent, "messages") == Get(body, "messages"))
    && (!body.Obj? ==> sent == body)
  }

  // ---- The operations ----

  /** `has_remaining_thinking_blocks`, scanning until the first hit. */
  method HasRemainingThinkingBlocks(body: Json) returns (found: bool)
    ensures found <==> HasThinkingBlocks(body)
  {
    match GetArray(body, "messages") {
      case None => return false;
      case Some(messages) =>
        for i := 0 to |messages|
          invariant forall k: nat, j: nat :: k < i && HasItem(body, k, j) ==> !IsThinking(ItemAt(body, k, j))
        {
          match GetArray(messages[i], "content") {
            case None =>
            case Some(items) =>
              for j := 0 to |items|
                invariant forall k: nat :: k < j && HasItem(body, i, k) ==> !IsThinking(ItemAt(body, i, k))
              {
                assert HasItem(body, i, j) && ItemAt(body, i, j) == items[j];
                if IsThinking(items[j]) {
                  return true;
                }
              }
          }
        }
        return false;
    }
  }

  /** `strip_all_thinking_blocks`. */
  method StripAllThinkingBlocks(hasher: Hasher, body: Json) returns (stripped: Json, removed: nat)
    ensures stripped == KeepInBody(hasher, {}, body)
    ensures removed + BodyItemCount(stripped) == BodyItemCount(body)
    ensures !HasThinkingBlocks(stripped)
  {
    stripped, removed := RetainBlocks(hasher, {}, body);
    NothingThinkingIsLeft(hasher, body);
  }

  /** `convert_adaptive_thinking`: Some(true) when it converted, Some(false) for another thinking
      field, None without one; no adaptive field is left. */
  method ConvertAdaptiveThinking(body: Json, configured: Option<nat>) returns (converted: Json, changed: Option<bool>)
    ensures converted == Converted(body, configured)
    ensures !IsAdaptive(converted)
    ensures changed == Some(true) <==> IsAdaptive(body)
    ensures changed == None <==> Get(body, "thinking") == None
    ensures changed != Some(true) ==> converted == body
  {
    if !IsAdaptive(body) {
      return body, if Get(body, "thinking").Some? then Some(false) else None;
    }
    var budget := Budget(body, configured);
    var enabled := Obj(map["type" := Str("enabled"), "budget_tokens" := Integer(budget)]);
    return With(body, "thinking", enabled), Some(true);
  }

  /** Step 3 of `transform_body`: filter, and strip everything when the history became inconsistent.
      `reset` cancels the note that the thinking field was converted. */
  method FilterAndRepair(registry: ThinkingRegistry, prepared: Json, now: nat)
    returns (json: Json, filteredCount: nat, reset: bool)
    modifies registry`blocks
    ensures json == Repaired(registry.hasher, old(registry.Model()), prepared)
    ensures filteredCount == 0 && Get(json, "thinking").Some? ==> json == prepared
    ensures reset ==> Get(json, "thinking").None?
    ensures registry.Model() == AfterRequest(registry.hasher, old(registry.Model()), prepared, now)
  {
    hide HasAssistant, KeepInBody, HasThinkingBlocks, AllReplayable, AfterRequest, FilteredBody, BodyItemCount;
    json, filteredCount := registry.FilterRequest(prepared, now);
    reset := false;
    FilterKeepsMembers(registry.hasher, old(registry.Model()), prepared);
    FilteringRemovedNothing(registry.hasher, old(registry.Model()), prepared, filteredCount);
    var remaining := HasRemainingThinkingBlocks(json);
    var shouldStripAll := HasAssistant(json) && (filteredCount > 0 || !remaining);
    if shouldStripAll {
      StripAfterFilter(registry.hasher, old(registry.Model()), prepared);
      var extraStripped;
      json, extraStripped := StripAllThinkingBlocks(registry.hasher, json);
      var removedTopLevel := Get(json, "thinking").Some?;
      json := Without(json, "thinking");
      reset := removedTopLevel || extraStripped > 0;
      filteredCount := filteredCount + extraStripped;
    }
  }

  /** Step 4 of `transform_body`. */
  method CapEffort(backend: Backend, json: Json, originalModel: string) returns (capped: Json, effortCapped: bool)
    ensures capped == Capped(backend, json, originalModel)
    ensures !effortCapped ==> capped == json
    ensures Get(capped, "thinking") == Get(json, "thinking")
  {
    match EffortOf(json) {
      case None => return json, false;
      case Some(effort) =>
        match backend.capEffort(effort, originalModel) {
          case None => return json, false;
          case Some(level) =>
            return With(json, "output_config", With(Get(json, "output_config").value, "effort", Str(level))), true;
        }
    }
  }

  /** `transform_body`. The payload, whichever bytes it is, stands for the transformed body, and
      `thinkingActive` tells whether that body has a thinking field. */
  method TransformBody(registry: ThinkingRegistry, parsed: Option<Json>, backend: Backend, filter: bool, now: nat)
    returns (payload: Payload, streaming: bool, mapping: Option<ModelMapping>, thinkingActive: bool)
    modifies registry`blocks
    ensures parsed.None? ==>
      payload == OriginalBytes && !streaming && mapping == None && !thinkingActive
    ensures parsed.Some? ==>
      Sent(payload, parsed.value) == Transformed(registry.hasher, old(registry.Model()), backend, parsed.value, filter)
    ensures parsed.Some? ==> MembersToSend(
      registry.hasher, old(registry.Model()), backend, parsed.value, filter, Sent(payload, parsed.value))
    ensures parsed.Some? ==>
      match Get(parsed.value, "model")
      case Some(Str(name)) =>
        (match backend.resolveModel(name)
         case Some(target) => mapping == Some(ModelMapping(target, name))
         case None => mapping == None)
      case _ => mapping == None
    ensures parsed.Some? ==> streaming == (GetBool(parsed.value, "stream") == Some(true))
    ensures parsed.Some? ==> thinkingActive == Get(Sent(payload, parsed.value), "thinking").Some?
    ensures registry.Model() ==
      if filter && parsed.Some?
      then AfterRequest(registry.hasher, old(registry.Model()), Prepared(backend, parsed.value), now)
      else old(registry.Model())
  {
    hide Repaired, AfterRequest, Capped, Converted, IsAdaptive, MembersToSend;
    if parsed.None? {
      return OriginalBytes, false, None, false;
    }
    var body := parsed.value;
    TransformedMembers(registry.hasher, registry.Model(), backend, body, filter);
    streaming := GetBool(body, "stream") == Some(true);
    var thinkingConverted, filteredCount, effortCapped := false, 0, false;
    var originalModel := ModelOf(body);

    mapping := Mapping(backend, body);
    var json := if mapping.Some? then With(body, "model", Str(mapping.value.backend)) else body;

    if backend.needsCompat {
      var changed;
      json, changed := ConvertAdaptiveThinking(json, backend.budget);
      thinkingConverted := changed == Some(true);
    }

    if filter {
      var reset;
      json, filteredCount, reset := FilterAndRepair(registry, json, now);
      thinkingConverted := thinkingConverted && !reset;
    }

    thinkingActive := Get(json, "thinking").Some?;
    json, effortCapped := CapEffort(backend, json, originalModel);

    if mapping.Some? || thinkingConverted || filteredCount > 0 || effortCapped || !thinkingActive {
      payload := Serialized(json);
    } else {
      payload := OriginalBytes;
    }
  }

  // ---- Members ----

  lemma PreparedMembers(backend: Backend, body: Json)
    ensures var prepared := Prepared(backend, body);
      && Get(prepared, "model") == ModelToSend(backend, body)
      && Get(prepared, "thinking") == ThinkingToSend(backend, body)
      && (forall key :: key !in {"model", "thinking"} ==> Get(prepared, key) == Get(body, key))
      && (!body.Obj? ==> prepared == body)
  {
    hide Budget;
    var rewritten := Rewritten(backend, body);
    assert forall key :: key != "model" ==> Get(rewritten, key) == Get(body, key);
    SameBudget(backend, body, rewritten);
  }

  lemma SameBudget(backend: Backend, body: Json, body': Json)
    requires Get(body', "max_tokens") == Get(body, "max_tokens")
    ensures Budget(body', backend.budget) == BudgetToSend(backend, body)
  {
  }

  lemma RepairedMembers(hasher: Hasher, r: Registry, body: Json)
    ensures var repaired := Repaired(hasher, r, body);
      && Get(repaired, "thinking") == (if LosesThinking(hasher, r, body) then None else Get(body, "thinking"))
      && (forall key :: key !in {"thinking", "messages"} ==> Get(repaired, key) == Get(body, key))
      && (!body.Obj? ==> repaired == body)
  {
    hide HasAssistant, HasThinkingBlocks, AllReplayable, KeepInMessages;
  }

  lemma CappedMembers(backend: Backend, json: Json, body: Json)
    requires Get(json, "output_config") == Get(body, "output_config")
    ensures var capped := Capped(backend, json, ModelOf(body));
      && Get(capped, "output_config") == ConfigToSend(backend, body)
      && (forall key :: key != "output_config" ==> Get(capped, key) == Get(json, key))
      && (!json.Obj? ==> capped == json)
  {
  }

  /** The transformed body, member by member. */
  lemma TransformedMembers(hasher: Hasher, r: Registry, backend: Backend, body: Json, filter: bool)
    ensures MembersToSend(hasher, r, backend, body, filter, Transformed(hasher, r, backend, body, filter))
  {
    hide Prepared, Repaired, Capped, HasAssistant, HasThinkingBlocks, AllReplayable;
    hide ModelToSend, ThinkingToSend, ConfigToSend;
    var prepared := Prepared(backend, body);
    PreparedMembers(backend, body);
    OnlyMessagesMatter(hasher, r, prepared, body);
    RepairedMembers(hasher, r, prepared);
    CappedMembers(backend, if filter then Repaired(hasher, r, prepared) else prepared, body);
  }

  // ---- Conversations ----

  ghost predicate HasBlocks(messages: seq<Message>) { exists item :: ItemIn(messages, item) && IsBlock(item) }

  ghost predicate AllStay(hasher: Hasher, keys: set<nat>, messages: seq<Message>) {
    forall item :: ItemIn(messages, item) ==> Stays(hasher, keys, item)
  }

  lemma PrintedPosition(messages: seq<Message>, rest: map<string, Json>, i: nat, j: nat)
    requires Proper(messages)
    ensures var body := PrintBody(messages, rest);
      && (HasItem(body, i, j) <==>
          i < |messages| && messages[i].items.Some? && j < |messages[i].items.value|)
      && (HasItem(body, i, j) ==>
            && ItemAt(body, i, j) == PrintItem(messages[i].items.value[j])
            && ProperItem(messages[i].items.value[j]) && ItemIn(messages, messages[i].items.value[j]))
  {
    hide PrintItem, ProperItem;
    PrintedMessagesOf(messages, rest);
    if i < |messages| {
      OneMessage(messages, i);
      PrintedContent(messages[i]);
      if messages[i].items.Some? {
        assert ProperItems(messages[i].items.value);
      }
    }
  }

  ghost predicate Agree(hasher: Hasher, keys: set<nat>, json: Json, item: Item) {
    IsThinking(json) == IsBlock(item) && Survives(hasher, keys, json) == Stays(hasher, keys, item)
  }

  lemma PrintedBlocks(hasher: Hasher, r: Registry, messages: seq<Message>, rest: map<string, Json>)
    requires Proper(messages)
    ensures HasThinkingBlocks(PrintBody(messages, rest)) <==> HasBlocks(messages)
    ensures AllReplayable(hasher, r, PrintBody(messages, rest)) <==> AllStay(hasher, CurrentKeys(r), messages)
  {
    hide PrintBody, HasItem, ItemAt, IsThinking, IsBlock, Survives, Stays, PrintItem, ProperItem, Proper, CurrentKeys;
    var body, keys := PrintBody(messages, rest), CurrentKeys(r);
    forall i: nat, j: nat | HasItem(body, i, j)
      ensures i < |messages| && messages[i].items.Some? && j < |messages[i].items.value|
      ensures var item := messages[i].items.value[j];
        ItemIn(messages, item) && Agree(hasher, keys, ItemAt(body, i, j), item)
    {
      PrintedPosition(messages, rest, i, j);
      PrintedItem(messages[i].items.value[j]);
      PrintedSurvival(hasher, keys, messages[i].items.value[j]);
    }
    forall item | ItemIn(messages, item)
      ensures exists i: nat, j: nat :: HasItem(body, i, j) && Agree(hasher, keys, ItemAt(body, i, j), item)
    {
      var i :| 0 <= i < |messages| && messages[i].items.Some? && item in messages[i].items.value;
      var j :| 0 <= j < |messages[i].items.value| && messages[i].items.value[j] == item;
      PrintedPosition(messages, rest, i, j);
      assert HasItem(body, i, j);
    }
  }

  /** What a filtered conversation sends as messages: without an assistant message, what may stay; with
      one, everything when there are blocks and all may stay, and otherwise nothing of any block. */
  lemma SentConversation(
      hasher: Hasher, r: Registry, backend: Backend, messages: seq<Message>, rest: map<string, Json>,
      usable: set<nat>)
    requires Proper(messages)
    requires forall h :: h in usable <==> h in r.blocks && r.blocks[h].session == r.session
    ensures GetArray(Transformed(hasher, r, backend, PrintBody(messages, rest), true), "messages") ==
      Some(PrintMessages(
        if !HasHistory(messages) then KeptMessages(hasher, usable, messages)
        else if HasBlocks(messages) && AllStay(hasher, usable, messages) then messages
        else KeptMessages(hasher, {}, messages)))
  {
    hide Prepared, Capped, HasAssistant, HasThinkingBlocks, AllReplayable, HasBlocks, AllStay, HasHistory, Proper;
    hide KeepInMessages, PrintMessages, KeptMessages;
    assert CurrentKeys(r) == usable;
    var body := PrintBody(messages, rest);
    var prepared := Prepared(backend, body);
    OtherStepsKeepMembers(backend, body, "");
    OnlyMessagesMatter(hasher, r, prepared, body);
    OtherStepsKeepMembers(backend, Repaired(hasher, r, prepared), ModelOf(body));
    PrintedHistory(messages, rest);
    PrintedBlocks(hasher, r, messages, rest);
    PrintedMessagesOf(messages, rest);
    KeptPrintedMessages(hasher, usable, messages, rest);
    KeptPrintedMessages(hasher, {}, messages, rest);
  }

  lemma KeptPrintedMessages(hasher: Hasher, keys: set<nat>, messages: seq<Message>, rest: map<string, Json>)
    requires Proper(messages)
    ensures KeepInMessages(hasher, keys, PrintMessages(messages)) == PrintMessages(KeptMessages(hasher, keys, messages))
  {
    hide KeepInMessages, PrintMessages, KeptMessages, Proper;
    PrintedBodyKept(hasher, keys, messages, rest);
    PrintedMessagesOf(messages, rest);
    PrintedMessagesOf(KeptMessages(hasher, keys, messages), rest);
  }

  // ---- All or nothing ----

  lemma OnlyMessagesMatter(hasher: Hasher, r: Registry, body: Json, body': Json)
    requires Get(body, "messages") == Get(body', "messages")
    ensures HasAssistant(body) == HasAssistant(body')
    ensures HasThinkingBlocks(body) == HasThinkingBlocks(body')
    ensures AllReplayable(hasher, r, body) == AllReplayable(hasher, r, body')
  {
    assert forall i: nat, j: nat :: HasItem(body, i, j) <==> HasItem(body', i, j);
    assert forall i: nat, j: nat :: HasItem(body, i, j) ==> ItemAt(body, i, j) == ItemAt(body', i, j);
  }

  lemma OtherStepsKeepMembers(backend: Backend, body: Json, model: string)
    ensures Get(Prepared(backend, body), "messages") == Get(body, "messages")
    ensures Get(Capped(backend, body, model), "messages") == Get(body, "messages")
    ensures Get(Capped(backend, body, model), "thinking") == Get(body, "thinking")
  {
  }

  /** All-or-nothing history: with an assistant message in it, a filtered request goes out either with
      its messages untouched or with no thinking block and no thinking field at all; the first happens
      exactly when it has thinking blocks and every one of them is cached under the current session. */
  lemma AllOrNothing(hasher: Hasher, r: Registry, backend: Backend, body: Json)
    requires HasAssistant(body)
    ensures var final := Transformed(hasher, r, backend, body, true);
      if HasThinkingBlocks(body) && AllReplayable(hasher, r, body)
      then Get(final, "messages") == Get(body, "messages")
      else !HasThinkingBlocks(final) && Get(final, "thinking") == None
  {
    hide HasAssistant, HasThinkingBlocks, AllReplayable, KeepInBody, Prepared, Capped;
    var prepared := Prepared(backend, body);
    OtherStepsKeepMembers(backend, body, "");
    OnlyMessagesMatter(hasher, r, prepared, body);
    var stripped := KeepInBody(hasher, {}, prepared);
    NothingThinkingIsLeft(hasher, prepared);
    OnlyMessagesMatter(hasher, r, NoThinking(hasher, prepared), stripped);
    var repaired := Repaired(hasher, r, prepared);
    OtherStepsKeepMembers(backend, repaired, ModelOf(body));
    OnlyMessagesMatter(hasher, r, Capped(backend, repaired, ModelOf(body)), repaired);
  }

  /** A first turn keeps its thinking field, so the backend can start thinking. */
  lemma FirstTurnKeepsThinkingField(hasher: Hasher, r: Registry, backend: Backend, body: Json)
    requires !HasAssistant(body)
    ensures Get(Transformed(hasher, r, backend, body, true), "thinking") == Get(Prepared(backend, body), "thinking")
  {
    hide HasAssistant, HasThinkingBlocks, AllReplayable, KeepInBody, Prepared, Capped, FilteredBody;
    var prepared := Prepared(backend, body);
    OtherStepsKeepMembers(backend, body, "");
    OnlyMessagesMatter(hasher, r, prepared, body);
    FilterKeepsMembers(hasher, r, prepared);
    OtherStepsKeepMembers(backend, FilteredBody(hasher, r, prepared), ModelOf(body));
  }

  // ---- Lemmas on filtering ----

  lemma NothingThinkingIsLeft(hasher: Hasher, body: Json)
    ensures !HasThinkingBlocks(KeepInBody(hasher, {}, body))
  {
    var stripped := KeepInBody(hasher, {}, body);
    forall i: nat, j: nat | HasItem(stripped, i, j) ensures !IsThinking(ItemAt(stripped, i, j)) {
      KeptItemsSurvive(hasher, {}, GetArray(GetArray(body, "messages").value[i], "content").value);
    }
  }

  /** Filtering keeps roles and every member other than the messages. */
  lemma FilterKeepsMembers(hasher: Hasher, r: Registry, body: Json)
    ensures HasAssistant(FilteredBody(hasher, r, body)) == HasAssistant(body)
    ensures forall key :: key != "messages" ==> Get(FilteredBody(hasher, r, body), key) == Get(body, key)
  {
    RolesAreKept(hasher, CurrentKeys(r), body);
  }

  lemma {:induction false} NothingRemovedFromMessages(hasher: Hasher, keys: set<nat>, messages: seq<Json>)
    ensures ItemCount(KeepInMessages(hasher, keys, messages)) <= ItemCount(messages)
    ensures ItemCount(KeepInMessages(hasher, keys, messages)) == ItemCount(messages) <==>
      KeepInMessages(hasher, keys, messages) == messages
  {
    hide KeepItems;
    if messages != [] {
      var init, last := messages[..|messages| - 1], messages[|messages| - 1];
      var kept := KeepInMessages(hasher, keys, messages);
      NothingRemovedFromMessages(hasher, keys, init);
      assert kept[..|messages| - 1] == KeepInMessages(hasher, keys, init);
      NothingRemovedFromMessage(hasher, keys, last);
      assert messages == init + [last];
      assert kept == KeepInMessages(hasher, keys, init) + [KeepInMessage(hasher, keys, last)];
    }
  }

  function OwnItems(message: Json): nat {
    match GetArray(message, "content") case Some(items) => |items| case None => 0
  }

  lemma NothingRemovedFromMessage(hasher: Hasher, keys: set<nat>, message: Json)
    ensures OwnItems(KeepInMessage(hasher, keys, message)) <= OwnItems(message)
    ensures OwnItems(KeepInMessage(hasher, keys, message)) == OwnItems(message) <==>
      KeepInMessage(hasher, keys, message) == message
  {
    if GetArray(message, "content").Some? {
      var items := GetArray(message, "content").value;
      SameLengthSameItems(hasher, keys, items);
      if KeepItems(hasher, keys, items) == items {
        SameMember(message, "content", Arr(items));
      }
    }
  }

  lemma {:induction false} SameLengthSameItems(hasher: Hasher, keys: set<nat>, items: seq<Json>)
    ensures |KeepItems(hasher, keys, items)| == |items| <==> KeepItems(hasher, keys, items) == items
  {
    if items != [] {
      SameLengthSameItems(hasher, keys, items[..|items| - 1]);
    }
  }

  /** Nothing was counted exactly when the body is unchanged, that is, when every thinking block
      was replayable. */
  lemma FilteringRemovedNothing(hasher: Hasher, r: Registry, body: Json, removed: nat)
    requires removed + BodyItemCount(FilteredBody(hasher, r, body)) == BodyItemCount(body)
    ensures removed == 0 <==> FilteredBody(hasher, r, body) == body
    ensures removed == 0 <==> AllReplayable(hasher, r, body)
  {
    var keys := CurrentKeys(r);
    if GetArray(body, "messages").Some? {
      var messages := GetArray(body, "messages").value;
      NothingRemovedFromMessages(hasher, keys, messages);
      if KeepInMessages(hasher, keys, messages) == messages {
        SameMember(body, "messages", Arr(messages));
      }
      UnchangedIsReplayable(hasher, r, body);
    }
  }

  lemma UnchangedIsReplayable(hasher: Hasher, r: Registry, body: Json)
    requires GetArray(body, "messages").Some?
    ensures var messages := GetArray(body, "messages").value;
      KeepInMessages(hasher, CurrentKeys(r), messages) == messages <==> AllReplayable(hasher, r, body)
  {
    var keys, messages := CurrentKeys(r), GetArray(body, "messages").value;
    forall i: nat | i < |messages|
      ensures KeepInMessage(hasher, keys, messages[i]) == messages[i] <==>
        forall j: nat :: HasItem(body, i, j) ==> Survives(hasher, keys, ItemAt(body, i, j))
    {
      UnchangedMessage(hasher, keys, body, i);
    }
    if AllReplayable(hasher, r, body) {
      assert KeepInMessages(hasher, keys, messages) == messages;
    } else {
      var i: nat, j: nat :| HasItem(body, i, j) && !Survives(hasher, keys, ItemAt(body, i, j));
      assert KeepInMessages(hasher, keys, messages)[i] == KeepInMessage(hasher, keys, messages[i]) != messages[i];
    }
  }

  lemma UnchangedMessage(hasher: Hasher, keys: set<nat>, body: Json, i: nat)
    requires GetArray(body, "messages").Some? && i < |GetArray(body, "messages").value|
    ensures var message := GetArray(body, "messages").value[i];
      KeepInMessage(hasher, keys, message) == message <==>
      forall j: nat :: HasItem(body, i, j) ==> Survives(hasher, keys, ItemAt(body, i, j))
  {
    hide KeepItems, Survives;
    var message := GetArray(body, "messages").value[i];
    if GetArray(message, "content").Some? {
      var items := GetArray(message, "content").value;
      KeepingSurvivorsChangesNothing(hasher, keys, items);
      if KeepItems(hasher, keys, items) == items {
        SameMember(message, "content", Arr(items));
      }
      assert forall j: nat :: HasItem(body, i, j) <==> j < |items|;
      assert forall j: nat :: j < |items| ==> ItemAt(body, i, j) == items[j];
    }
  }

  /** Stripping a filtered body is stripping the body. */
  lemma StripAfterFilter(hasher: Hasher, r: Registry, body: Json)
    ensures KeepInBody(hasher, {}, FilteredBody(hasher, r, body)) == KeepInBody(hasher, {}, body)
  {
    if GetArray(body, "messages").Some? {
      var messages := GetArray(body, "messages").value;
      var once := KeepInMessages(hasher, CurrentKeys(r), messages);
      forall i | 0 <= i < |messages|
        ensures KeepInMessage(hasher, {}, once[i]) == KeepInMessage(hasher, {}, messages[i])
      {
        StripMessageAfterFilter(hasher, CurrentKeys(r), messages[i]);
      }
      assert KeepInMessages(hasher, {}, once) == KeepInMessages(hasher, {}, messages);
      OverwriteMember(body, "messages", Arr(once), Arr(KeepInMessages(hasher, {}, messages)));
    }
  }

  lemma OverwriteMember(v: Json, key: string, first: Json, second: Json)
    requires v.Obj?
    ensures With(With(v, key, first), key, second) == With(v, key, second)
  {
    assert v.fields[key := first][key := second] == v.fields[key := second];
  }

  lemma StripMessageAfterFilter(hasher: Hasher, keys: set<nat>, message: Json)
    ensures KeepInMessage(hasher, {}, KeepInMessage(hasher, keys, message)) == KeepInMessage(hasher, {}, message)
  {
    if GetArray(message, "content").Some? {
      var items := GetArray(message, "content").value;
      StripItemsAfterFilter(hasher, keys, items);
      OverwriteMember(message, "content", Arr(KeepItems(hasher, keys, items)), Arr(KeepItems(hasher, {}, items)));
    }
  }

  lemma {:induction false} StripItemsAfterFilter(hasher: Hasher, keys: set<nat>, items: seq<Json>)
    ensures KeepItems(hasher, {}, KeepItems(hasher, keys, items)) == KeepItems(hasher, {}, items)
  {
    if items != [] {
      var init, last := items[..|items| - 1], items[|items| - 1];
      StripItemsAfterFilter(hasher, keys, init);
      if Survives(hasher, keys, last) {
        var kept := KeepItems(hasher, keys, init);
        assert (kept + [last])[..|kept|] == kept;
      } else {
        assert KeepItems(hasher, keys, init) + [] == KeepItems(hasher, keys, init);
      }
    }
  }
}
