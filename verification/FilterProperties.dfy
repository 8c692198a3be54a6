/** What request filtering means for bodies and for the cache. */
module FilterProperties {
  import opened Common
  import opened JsonValues
  import opened Fingerprints
  import opened RegistrySpec

  /** The item at position `j` of message `i` of a body. */
  predicate HasItem(body: Json, i: nat, j: nat) {
    && GetArray(body, "messages").Some?
    && i < |GetArray(body, "messages").value|
    && GetArray(GetArray(body, "messages").value[i], "content").Some?
    && j < |GetArray(GetArray(body, "messages").value[i], "content").value|
  }

  function ItemAt(body: Json, i: nat, j: nat): Json
    requires HasItem(body, i, j)
  {
    GetArray(GetArray(body, "messages").value[i], "content").value[j]
  }

  lemma {:induction false} KeptItemsSurvive(hasher: Hasher, keys: set<nat>, items: seq<Json>)
    ensures forall j :: 0 <= j < |KeepItems(hasher, keys, items)| ==>
      Survives(hasher, keys, KeepItems(hasher, keys, items)[j])
  {
    if items != [] {
      KeptItemsSurvive(hasher, keys, items[..|items| - 1]);
    }
  }

  lemma {:induction false} KeepingSurvivorsChangesNothing(hasher: Hasher, keys: set<nat>, items: seq<Json>)
    ensures KeepItems(hasher, keys, items) == items <==>
      forall j :: 0 <= j < |items| ==> Survives(hasher, keys, items[j])
  {
    if items != [] {
      KeepingSurvivorsChangesNothing(hasher, keys, items[..|items| - 1]);
    }
  }

  /** Every thinking block left in a filtered body was cached under the current session. */
  lemma OnlyCurrentBlocksRemain(hasher: Hasher, r: Registry, body: Json, i: nat, j: nat)
    requires HasItem(FilteredBody(hasher, r, body), i, j)
    requires IsThinking(ItemAt(FilteredBody(hasher, r, body), i, j))
    ensures var item := ItemAt(FilteredBody(hasher, r, body), i, j);
      Extract(item).Some? && FastHash(hasher, Extract(item).value) in CurrentKeys(r)
  {
    var message := GetArray(body, "messages").value[i];
    KeptItemsSurvive(hasher, CurrentKeys(r), GetArray(message, "content").value);
  }

  /** Right after a request every cached block carries the current session. */
  lemma CacheIsCurrent(hasher: Hasher, r: Registry, body: Json, now: nat)
    ensures forall h :: h in AfterRequest(hasher, r, body, now).blocks ==>
      AfterRequest(hasher, r, body, now).blocks[h].session == r.session
  {
  }

  // ---- Hashes of a filtered body ----

  lemma ExtractableIsThinking(item: Json)
    ensures Extract(item).Some? ==> IsThinking(item)
  {
  }

  lemma {:induction false} HashesOfKeptItems(hasher: Hasher, keys: set<nat>, items: seq<Json>)
    ensures ItemHashes(hasher, KeepItems(hasher, keys, items)) == ItemHashes(hasher, items) * keys
  {
    hide Survives, FastHash;
    if items != [] {
      var init, last := items[..|items| - 1], items[|items| - 1];
      HashesOfKeptItems(hasher, keys, init);
      SurvivorHashes(hasher, keys, last);
      if Survives(hasher, keys, last) {
        var kept := KeepItems(hasher, keys, init);
        assert (kept + [last])[..|kept|] == kept;
      } else {
        assert KeepItems(hasher, keys, init) + [] == KeepItems(hasher, keys, init);
      }
    }
  }

  lemma SurvivorHashes(hasher: Hasher, keys: set<nat>, item: Json)
    ensures Extract(item).Some? ==> (Survives(hasher, keys, item) <==> FastHash(hasher, Extract(item).value) in keys)
  {
    ExtractableIsThinking(item);
  }

  lemma {:induction false} HashesOfKeptMessages(hasher: Hasher, keys: set<nat>, messages: seq<Json>)
    ensures MessageHashes(hasher, KeepInMessages(hasher, keys, messages)) == MessageHashes(hasher, messages) * keys
  {
    hide KeepItems, ItemHashes;
    if messages != [] {
      var init, last := messages[..|messages| - 1], messages[|messages| - 1];
      HashesOfKeptMessages(hasher, keys, init);
      assert KeepInMessages(hasher, keys, messages)[..|messages| - 1] == KeepInMessages(hasher, keys, init);
      if GetArray(last, "content").Some? {
        HashesOfKeptItems(hasher, keys, GetArray(last, "content").value);
      }
    }
  }

  /** A filtered body carries exactly the hashes of the original that may stay. */
  lemma HashesOfKeptBody(hasher: Hasher, keys: set<nat>, body: Json)
    ensures RequestHashes(hasher, KeepInBody(hasher, keys, body)) == RequestHashes(hasher, body) * keys
  {
    hide MessageHashes, KeepInMessages;
    if GetArray(body, "messages").Some? {
      HashesOfKeptMessages(hasher, keys, GetArray(body, "messages").value);
    }
  }

  lemma RolesAreKept(hasher: Hasher, keys: set<nat>, body: Json)
    ensures HasAssistant(KeepInBody(hasher, keys, body)) == HasAssistant(body)
  {
    if GetArray(body, "messages").Some? {
      var messages := GetArray(body, "messages").value;
      forall i | 0 <= i < |messages|
        ensures IsAssistant(KeepInMessages(hasher, keys, messages)[i]) == IsAssistant(messages[i])
      {
      }
    }
  }

  // ---- Idempotence ----

  lemma SecondPassKeepsAll(hasher: Hasher, keys: set<nat>, keys': set<nat>, items: seq<Json>)
    requires ItemHashes(hasher, items) * keys <= keys'
    ensures KeepItems(hasher, keys', KeepItems(hasher, keys, items)) == KeepItems(hasher, keys, items)
  {
    var kept := KeepItems(hasher, keys, items);
    KeptItemsSurvive(hasher, keys, items);
    HashesOfKeptItems(hasher, keys, items);
    forall j | 0 <= j < |kept| ensures Survives(hasher, keys', kept[j]) {
      if IsThinking(kept[j]) {
        ItemHashIsCounted(hasher, kept, j);
      }
    }
    KeepingSurvivorsChangesNothing(hasher, keys', kept);
  }

  lemma {:induction false} ItemHashIsCounted(hasher: Hasher, items: seq<Json>, j: nat)
    requires j < |items| && Extract(items[j]).Some?
    ensures FastHash(hasher, Extract(items[j]).value) in ItemHashes(hasher, items)
  {
    if j < |items| - 1 {
      ItemHashIsCounted(hasher, items[..|items| - 1], j);
    }
  }

  lemma SecondPassKeepsBody(hasher: Hasher, keys: set<nat>, keys': set<nat>, body: Json)
    requires RequestHashes(hasher, body) * keys <= keys'
    ensures KeepInBody(hasher, keys', KeepInBody(hasher, keys, body)) == KeepInBody(hasher, keys, body)
  {
    if GetArray(body, "messages").Some? {
      var messages := GetArray(body, "messages").value;
      var once := KeepInMessages(hasher, keys, messages);
      forall i | 0 <= i < |messages| ensures KeepInMessage(hasher, keys', once[i]) == once[i] {
        SecondPassKeepsMessage(hasher, keys, keys', messages, i);
      }
      assert KeepInMessages(hasher, keys', once) == once;
      assert GetArray(KeepInBody(hasher, keys, body), "messages") == Some(once);
      SameMember(KeepInBody(hasher, keys, body), "messages", Arr(once));
    }
  }

  lemma SameMember(v: Json, key: string, value: Json)
    requires Get(v, key) == Some(value)
    ensures v.Obj? && With(v, key, value) == v
  {
    assert v.fields[key := value] == v.fields;
  }

  lemma SecondPassKeepsMessage(hasher: Hasher, keys: set<nat>, keys': set<nat>, messages: seq<Json>, i: nat)
    requires MessageHashes(hasher, messages) * keys <= keys' && i < |messages|
    ensures KeepInMessage(hasher, keys', KeepInMessage(hasher, keys, messages[i])) ==
            KeepInMessage(hasher, keys, messages[i])
  {
    hide KeepItems, ItemHashes, MessageHashes;
    var message := messages[i];
    if GetArray(message, "content").Some? {
      MessageHashesCover(hasher, messages, i);
      SecondPassKeepsAll(hasher, keys, keys', GetArray(message, "content").value);
      var kept := KeepItems(hasher, keys, GetArray(message, "content").value);
      SameMember(KeepInMessage(hasher, keys, message), "content", Arr(kept));
    }
  }

  lemma RequestedCurrentBlocksStay(hasher: Hasher, r: Registry, body: Json, now: nat)
    ensures RequestHashes(hasher, body) * CurrentKeys(r) <= CurrentKeys(AfterRequest(hasher, r, body, now))
  {
  }

  /** Filtering a filtered body again, with nothing in between, removes nothing at any later time,
      and at the same clock value leaves the registry as it is. */
  lemma FilteringIsIdempotent(hasher: Hasher, r: Registry, body: Json, now: nat)
    ensures var r' := AfterRequest(hasher, r, body, now);
      var body' := FilteredBody(hasher, r, body);
      FilteredBody(hasher, r', body') == body' && AfterRequest(hasher, r', body', now) == r'
  {
    var r', body' := AfterRequest(hasher, r, body, now), FilteredBody(hasher, r, body);
    RequestedCurrentBlocksStay(hasher, r, body, now);
    SecondPassKeepsBody(hasher, CurrentKeys(r), CurrentKeys(r'), body);
    HashesOfKeptBody(hasher, CurrentKeys(r), body);
    RolesAreKept(hasher, CurrentKeys(r), body);
    SecondCleanupChangesNothing(hasher, r, body, body', now);
  }

  lemma SecondCleanupChangesNothing(hasher: Hasher, r: Registry, body: Json, body': Json, now: nat)
    requires RequestHashes(hasher, body') == RequestHashes(hasher, body) * CurrentKeys(r)
    requires HasAssistant(body') == HasAssistant(body)
    ensures var r' := AfterRequest(hasher, r, body, now);
      CacheAfter(hasher, r', body', now) == r'.blocks
  {
    hide RequestHashes, HasAssistant;
    var r' := AfterRequest(hasher, r, body, now);
    forall h | h in r'.blocks
      ensures Retained(hasher, r', body', now, h)
      ensures h in RequestHashes(hasher, body') ==> r'.blocks[h].confirmed
    {
    }
  }
}
