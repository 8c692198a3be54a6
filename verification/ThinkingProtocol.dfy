/** Any number of overlapping requests against the shared registry. Each lock acquisition of
    TransformerRegistry and ThinkingSession is one atomic action (src/proxy/thinking/mod.rs);
    a run is any sequence of actions. */
module ThinkingProtocol {
  import opened Common
  import opened JsonValues
  import opened Fingerprints
  import opened RegistrySpec
  import opened FilterProperties
  import opened SseSpec
  import opened ThinkingRegistryObject

  /** A ThinkingSession; `backend` and `bornAt` record the history of its begin_request. */
  datatype Handle = Handle(session: nat, backend: string, bornAt: nat)

  /** A response registered `hash` through handle number `handle`. */
  datatype Registration = Registration(hash: nat, handle: nat)

  datatype Action =
    | BeginRequest(backend: string)
    | NotifySwitch(backend: string)
    | FilterBody(handle: nat, body: Json, now: nat)
    | RegisterResponse(handle: nat, response: Option<Json>, now: nat)
    | RegisterSse(handle: nat, events: seq<SseEvent>, now: nat)

  /** The registry with the history the claims speak about: all handles, all registrations, the
      backend that opened each session, the number of actions and the last action that switched. */
  datatype System = System(
    registry: Registry,
    handles: seq<Handle>,
    log: set<Registration>,
    owners: map<nat, string>,
    steps: nat,
    lastSwitch: nat)

  const START := System(INITIAL, [], {}, map[0 := ""], 0, 0)

  function Switch(s: System, backend: string): System {
    var registry := Switched(s.registry, backend);
    s.(registry := registry,
       owners := s.owners[registry.session := registry.backend],
       lastSwitch := if registry.session == s.registry.session then s.lastSwitch else s.steps)
  }

  function RegisterHashes(s: System, handle: nat, hashes: set<nat>, now: nat): System
    requires handle < |s.handles|
  {
    s.(registry := s.registry.(blocks := Register(s.registry.blocks, hashes, s.handles[handle].session, now)),
       log := s.log + set h | h in hashes :: Registration(h, handle))
  }

  /** An action that names a handle not yet given out does nothing. */
  function Act(hasher: Hasher, s: System, action: Action): System {
    match action
    case BeginRequest(backend) =>
      var switched := Switch(s, backend);
      switched.(handles := s.handles + [Handle(switched.registry.session, backend, s.steps)])
    case NotifySwitch(backend) => Switch(s, backend)
    case FilterBody(handle, body, now) =>
      if handle < |s.handles| then s.(registry := AfterRequest(hasher, s.registry, body, now)) else s
    case RegisterResponse(handle, response, now) =>
      if handle < |s.handles| then RegisterHashes(s, handle, ResponseHashes(hasher, response), now) else s
    case RegisterSse(handle, events, now) =>
      if handle < |s.handles| then RegisterHashes(s, handle, StreamHashes(hasher, ReadAll(events)), now) else s
  }

  function Exec(hasher: Hasher, s: System, action: Action): System {
    Act(hasher, s, action).(steps := s.steps + 1)
  }

  function ExecAll(hasher: Hasher, s: System, actions: seq<Action>): System {
    if actions == [] then s
    else Exec(hasher, ExecAll(hasher, s, actions[..|actions| - 1]), actions[|actions| - 1])
  }

  // ---- The invariant ----

  /** Sessions are numbered without gaps and each has the backend that opened it. */
  ghost predicate SessionsOwned(s: System) {
    && (forall n: nat :: n in s.owners <==> n <= s.registry.session)
    && s.owners[s.registry.session] == s.registry.backend
  }

  /** A handle carries its backend's session, and it is current exactly when it was begun at or
      after the last switch. */
  ghost predicate HandlesOwned(s: System) {
    forall k :: 0 <= k < |s.handles| ==>
      && s.handles[k].session <= s.registry.session
      && s.handles[k].session in s.owners
      && s.owners[s.handles[k].session] == s.handles[k].backend
      && (s.handles[k].session == s.registry.session <==> s.lastSwitch <= s.handles[k].bornAt)
      && s.handles[k].bornAt < s.steps
  }

  /** Each cached block was registered through a handle of its session. */
  ghost predicate Justified(s: System, h: nat)
    requires h in s.registry.blocks
  {
    exists k: nat :: k < |s.handles| && Registration(h, k) in s.log &&
      s.handles[k].session == s.registry.blocks[h].session
  }

  ghost predicate Inv(s: System) {
    && SessionsOwned(s)
    && HandlesOwned(s)
    && s.lastSwitch <= s.steps
    && forall h :: h in s.registry.blocks ==> Justified(s, h)
  }

  lemma SwitchKeepsInv(s: System, backend: string)
    requires Inv(s)
    ensures SessionsOwned(Switch(s, backend)) && Switch(s, backend).registry.backend == backend
    ensures s.registry.session <= Switch(s, backend).registry.session
    ensures HandlesOwned(Switch(s, backend).(steps := s.steps + 1))
  {
  }

  lemma RegisterKeepsJustified(s: System, handle: nat, hashes: set<nat>, now: nat, h: nat)
    requires Inv(s) && handle < |s.handles|
    requires h in RegisterHashes(s, handle, hashes, now).registry.blocks
    ensures Justified(RegisterHashes(s, handle, hashes, now), h)
  {
    var s' := RegisterHashes(s, handle, hashes, now);
    if h in hashes {
      assert Registration(h, handle) in s'.log;
    } else {
      assert Justified(s, h);
    }
  }

  lemma JustifiedInLargerSystem(s: System, s': System, h: nat)
    requires h in s.registry.blocks && Justified(s, h)
    requires s.handles <= s'.handles && s.log <= s'.log
    requires h in s'.registry.blocks && s'.registry.blocks[h].session == s.registry.blocks[h].session
    ensures Justified(s', h)
  {
    var k: nat :| k < |s.handles| && Registration(h, k) in s.log &&
      s.handles[k].session == s.registry.blocks[h].session;
    assert s'.handles[k] == s.handles[k];
  }

  lemma BeginKeepsInv(hasher: Hasher, s: System, backend: string)
    requires Inv(s)
    ensures Inv(Exec(hasher, s, BeginRequest(backend)))
  {
    SwitchKeepsInv(s, backend);
    var s' := Exec(hasher, s, BeginRequest(backend));
    forall h | h in s'.registry.blocks ensures Justified(s', h) {
      JustifiedInLargerSystem(s, s', h);
    }
  }

  lemma StepKeepsInv(hasher: Hasher, s: System, action: Action)
    requires Inv(s)
    ensures Inv(Exec(hasher, s, action))
  {
    hide Register, CacheAfter, ResponseHashes, StreamHashes;
    var s' := Exec(hasher, s, action);
    match action
    case BeginRequest(backend) => BeginKeepsInv(hasher, s, backend);
    case NotifySwitch(backend) =>
      SwitchKeepsInv(s, backend);
      forall h | h in s'.registry.blocks ensures Justified(s', h) { JustifiedInLargerSystem(s, s', h); }
    case FilterBody(_, body, now) =>
      forall h | h in s'.registry.blocks ensures Justified(s', h) {
        CacheOnlyShrinks(hasher, s.registry, body, now);
        JustifiedInLargerSystem(s, s', h);
      }
    case RegisterResponse(handle, response, now) =>
      RegistrationKeepsInv(s, handle, ResponseHashes(hasher, response), now);
    case RegisterSse(handle, events, now) =>
      RegistrationKeepsInv(s, handle, StreamHashes(hasher, ReadAll(events)), now);
  }

  lemma CacheOnlyShrinks(hasher: Hasher, r: Registry, body: Json, now: nat)
    ensures forall h :: h in CacheAfter(hasher, r, body, now) ==>
      h in r.blocks && CacheAfter(hasher, r, body, now)[h].session == r.blocks[h].session
  {
  }

  lemma RegistrationKeepsInv(s: System, handle: nat, hashes: set<nat>, now: nat)
    requires Inv(s)
    ensures Inv(s.(steps := s.steps + 1))
    ensures handle < |s.handles| ==> Inv(RegisterHashes(s, handle, hashes, now).(steps := s.steps + 1))
  {
    hide Register;
    forall h | h in s.registry.blocks ensures Justified(s.(steps := s.steps + 1), h) {
      JustifiedInLargerSystem(s, s.(steps := s.steps + 1), h);
    }
    if handle < |s.handles| {
      var s' := RegisterHashes(s, handle, hashes, now);
      forall h | h in s'.registry.blocks ensures Justified(s'.(steps := s.steps + 1), h) {
        RegisterKeepsJustified(s, handle, hashes, now, h);
        JustifiedInLargerSystem(s', s'.(steps := s.steps + 1), h);
      }
    }
  }

  lemma {:induction false} RunsKeepInv(hasher: Hasher, s: System, actions: seq<Action>)
    requires Inv(s)
    ensures Inv(ExecAll(hasher, s, actions))
  {
    hide Exec, Inv;
    if actions != [] {
      RunsKeepInv(hasher, s, actions[..|actions| - 1]);
      StepKeepsInv(hasher, ExecAll(hasher, s, actions[..|actions| - 1]), actions[|actions| - 1]);
    }
  }

  lemma StartInv()
    ensures Inv(START)
  {
  }

  // ---- Growth of history ----

  ghost predicate Grows(s: System, s': System) {
    && s.registry.session <= s'.registry.session
    && s.handles <= s'.handles
    && s.log <= s'.log
    && (forall n :: n in s.owners ==> n in s'.owners && s'.owners[n] == s.owners[n])
    && (s.registry.session == s'.registry.session ==> s.registry.backend == s'.registry.backend)
  }

  lemma StepGrows(hasher: Hasher, s: System, action: Action)
    requires Inv(s)
    ensures Grows(s, Exec(hasher, s, action))
  {
    hide Register, CacheAfter, ResponseHashes, StreamHashes, Justified;
  }

  /** Over any run, from any reachable point on: session numbers never decrease, the backend changes
      only with the session, each session keeps its backend, handles and registrations are never lost. */
  lemma {:induction false} RunsGrow(hasher: Hasher, s: System, actions: seq<Action>)
    requires Inv(s)
    ensures Grows(s, ExecAll(hasher, s, actions))
  {
    hide Exec, Inv;
    if actions != [] {
      var before := ExecAll(hasher, s, actions[..|actions| - 1]);
      RunsGrow(hasher, s, actions[..|actions| - 1]);
      RunsKeepInv(hasher, s, actions[..|actions| - 1]);
      StepGrows(hasher, before, actions[|actions| - 1]);
    }
  }

  // ---- Main results ----

  /** Between two points of a run the session number never decreases, and it has grown whenever the
      backend is another one. */
  lemma SessionsNeverDecrease(hasher: Hasher, before: seq<Action>, after: seq<Action>)
    ensures var s := ExecAll(hasher, START, before);
      var s' := ExecAll(hasher, s, after);
      s.registry.session <= s'.registry.session &&
      (s.registry.backend != s'.registry.backend ==> s.registry.session < s'.registry.session)
  {
    hide Exec, ExecAll;
    StartInv();
    RunsKeepInv(hasher, START, before);
    RunsGrow(hasher, ExecAll(hasher, START, before), after);
  }

  /** Each session belongs to exactly one backend: requests with one session number agree on it. */
  lemma OneBackendPerSession(hasher: Hasher, actions: seq<Action>, j: nat, k: nat)
    requires j < |ExecAll(hasher, START, actions).handles| && k < |ExecAll(hasher, START, actions).handles|
    ensures var s := ExecAll(hasher, START, actions);
      s.handles[j].session == s.handles[k].session ==> s.handles[j].backend == s.handles[k].backend
  {
    hide Exec;
    StartInv();
    RunsKeepInv(hasher, START, actions);
  }

  /** `h` was registered by a response whose request began on the registry's current backend, in its
      current session, at or after the last switch. */
  ghost predicate RegisteredSinceSwitch(s: System, h: nat) {
    exists k: nat :: k < |s.handles| && Registration(h, k) in s.log &&
      s.handles[k].session == s.registry.session &&
      s.handles[k].backend == s.registry.backend &&
      s.lastSwitch <= s.handles[k].bornAt
  }

  /** Safety over every interleaving: after a request is filtered, every cached block carries the
      current session, and every thinking block left in the body was registered since the last switch
      by a response whose request began on the registry's current backend. */
  lemma OnlyCurrentBackendBlocksRemain(hasher: Hasher, actions: seq<Action>, body: Json, now: nat)
    ensures var s := ExecAll(hasher, START, actions);
      var body' := FilteredBody(hasher, s.registry, body);
      && (forall h :: h in AfterRequest(hasher, s.registry, body, now).blocks ==>
            AfterRequest(hasher, s.registry, body, now).blocks[h].session == s.registry.session)
      && (forall i: nat, j: nat :: HasItem(body', i, j) && IsThinking(ItemAt(body', i, j)) ==>
            Extract(ItemAt(body', i, j)).Some? &&
            RegisteredSinceSwitch(s, FastHash(hasher, Extract(ItemAt(body', i, j)).value)))
  {
    hide Exec, ExecAll, FilteredBody, AfterRequest;
    StartInv();
    RunsKeepInv(hasher, START, actions);
    var s := ExecAll(hasher, START, actions);
    CacheIsCurrent(hasher, s.registry, body, now);
    var body' := FilteredBody(hasher, s.registry, body);
    forall i: nat, j: nat | HasItem(body', i, j) && IsThinking(ItemAt(body', i, j))
      ensures Extract(ItemAt(body', i, j)).Some?
      ensures RegisteredSinceSwitch(s, FastHash(hasher, Extract(ItemAt(body', i, j)).value))
    {
      OnlyCurrentBlocksRemain(hasher, s.registry, body, i, j);
      CurrentBlocksAreRecent(s, FastHash(hasher, Extract(ItemAt(body', i, j)).value));
    }
  }

  lemma CurrentBlocksAreRecent(s: System, h: nat)
    requires Inv(s) && h in CurrentKeys(s.registry)
    ensures RegisteredSinceSwitch(s, h)
  {
    assert Justified(s, h);
  }

  // ---- The request that filters ----

  /** The cached entry of `h` comes from a response to `backend`. */
  ghost predicate ProducedBy(s: System, backend: string, h: nat) {
    && h in s.registry.blocks
    && exists k: nat :: k < |s.handles| && Registration(h, k) in s.log &&
         s.handles[k].session == s.registry.blocks[h].session && s.handles[k].backend == backend
  }

  lemma CurrentBlocksAreTheBackends(s: System, backend: string, h: nat)
    requires Inv(s) && h in CurrentKeys(s.registry)
    ensures ProducedBy(s, backend, h) <==> backend == s.registry.backend
  {
    assert Justified(s, h);
  }

  /** Filtering does not look at the handle: a thinking block it leaves in a request comes from the
      backend that request goes to exactly when that backend is still the registry's current one. It is,
      in particular, while the handle's session is the current one. */
  lemma OwnBlocksRemainIffStillCurrent(
      hasher: Hasher, actions: seq<Action>, handle: nat, body: Json, i: nat, j: nat)
    requires var s := ExecAll(hasher, START, actions);
      var body' := FilteredBody(hasher, s.registry, body);
      handle < |s.handles| && HasItem(body', i, j) && IsThinking(ItemAt(body', i, j))
    ensures var s := ExecAll(hasher, START, actions);
      var item := ItemAt(FilteredBody(hasher, s.registry, body), i, j);
      && Extract(item).Some?
      && (ProducedBy(s, s.handles[handle].backend, FastHash(hasher, Extract(item).value)) <==>
          s.handles[handle].backend == s.registry.backend)
      && (s.handles[handle].session == s.registry.session ==> s.handles[handle].backend == s.registry.backend)
  {
    hide Exec, ExecAll, FilteredBody, ProducedBy, FastHash, Extract;
    StartInv();
    RunsKeepInv(hasher, START, actions);
    var s := ExecAll(hasher, START, actions);
    OnlyCurrentBlocksRemain(hasher, s.registry, body, i, j);
    var item := ItemAt(FilteredBody(hasher, s.registry, body), i, j);
    CurrentBlocksAreTheBackends(s, s.handles[handle].backend, FastHash(hasher, Extract(item).value));
  }

  function OneBlock(text: string): Json { Obj(map["content" := Arr([ThinkingItem(text)])]) }

  /** Two requests overlap: the first goes to A, the second switches to B and gets its response. */
  function Overlap(text: string, now: nat): seq<Action> {
    [BeginRequest("A"), BeginRequest("B"), RegisterResponse(1, Some(OneBlock(text)), now)]
  }

  lemma TwoRequests(hasher: Hasher)
    ensures var s := ExecAll(hasher, START, [BeginRequest("A"), BeginRequest("B")]);
      s.handles == [Handle(1, "A", 0), Handle(2, "B", 1)] && s.registry == Registry(2, "B", map[], 300)
  {
    var one, two := [BeginRequest("A")], [BeginRequest("A"), BeginRequest("B")];
    assert one[..0] == [] && two[..1] == one;
    assert ExecAll(hasher, START, one) == Exec(hasher, START, BeginRequest("A"));
  }

  lemma OverlapState(hasher: Hasher, text: string, now: nat)
    ensures var s := ExecAll(hasher, START, Overlap(text, now));
      var h := FastHash(hasher, text);
      && s.handles == [Handle(1, "A", 0), Handle(2, "B", 1)]
      && s.registry == Registry(2, "B", map[h := BlockInfo(2, false, now)], 300)
  {
    hide FastHash, Extract, ItemHashes;
    TwoRequests(hasher);
    assert Overlap(text, now)[..2] == [BeginRequest("A"), BeginRequest("B")];
    ItemHashesOne(hasher, text);
    assert ResponseHashes(hasher, Some(OneBlock(text))) == {FastHash(hasher, text)};
  }

  /** In that run the request to A keeps a block that only B has produced. */
  lemma ForeignBlockRemains(hasher: Hasher, text: string, now: nat)
    ensures var s := ExecAll(hasher, START, Overlap(text, now));
      var body := Obj(map["messages" := Arr([OneBlock(text)])]);
      && FilteredBody(hasher, s.registry, body) == body
      && |s.handles| == 2 && s.handles[0].backend == "A" && !ProducedBy(s, "A", FastHash(hasher, text))
      && ProducedBy(s, "B", FastHash(hasher, text))
  {
    hide ExecAll, Exec, ProducedBy, FastHash;
    var s := ExecAll(hasher, START, Overlap(text, now));
    OverlapState(hasher, text, now);
    StartInv();
    RunsKeepInv(hasher, START, Overlap(text, now));
    CurrentBlocksAreTheBackends(s, "A", FastHash(hasher, text));
    CurrentBlocksAreTheBackends(s, "B", FastHash(hasher, text));
    CachedBlockRemains(hasher, s.registry, text);
  }

  lemma CachedBlockRemains(hasher: Hasher, r: Registry, text: string)
    requires FastHash(hasher, text) in CurrentKeys(r)
    ensures var body := Obj(map["messages" := Arr([OneBlock(text)])]);
      FilteredBody(hasher, r, body) == body
  {
    hide FastHash;
    var items, keys := [ThinkingItem(text)], CurrentKeys(r);
    assert Survives(hasher, keys, items[0]);
    KeepingSurvivorsChangesNothing(hasher, keys, items);
    SameMember(OneBlock(text), "content", Arr(items));
    assert KeepInMessages(hasher, keys, [OneBlock(text)]) == [OneBlock(text)];
    SameMember(Obj(map["messages" := Arr([OneBlock(text)])]), "messages", Arr([OneBlock(text)]));
  }

  // ---- Switching back ----

  /** Switching away and back never revives old blocks: once the backend has differed at some point of
      a run, a block usable later was registered through a request begun after the earlier point,
      even when the backend is the earlier one again. */
  lemma SwitchingBackRevivesNothing(
      hasher: Hasher, before: seq<Action>, between: seq<Action>, after: seq<Action>, h: nat)
    requires var s := ExecAll(hasher, START, before);
      ExecAll(hasher, s, between).registry.backend != s.registry.backend
    requires var s := ExecAll(hasher, START, before);
      h in CurrentKeys(ExecAll(hasher, ExecAll(hasher, s, between), after).registry)
    ensures var s := ExecAll(hasher, START, before);
      var s'' := ExecAll(hasher, ExecAll(hasher, s, between), after);
      exists k: nat :: |s.handles| <= k < |s''.handles| && Registration(h, k) in s''.log &&
        s''.handles[k].session == s''.registry.session
  {
    hide Exec, ExecAll;
    StartInv();
    RunsKeepInv(hasher, START, before);
    var s := ExecAll(hasher, START, before);
    RunsGrow(hasher, s, between);
    RunsKeepInv(hasher, s, between);
    var s' := ExecAll(hasher, s, between);
    RunsGrow(hasher, s', after);
    RunsKeepInv(hasher, s', after);
    var s'' := ExecAll(hasher, s', after);
    CurrentBlocksAreRecent(s'', h);
    forall k | 0 <= k < |s.handles| ensures s''.handles[k].session <= s.registry.session {
      assert s''.handles[k] == s.handles[k];
    }
    var k: nat :| k < |s''.handles| && Registration(h, k) in s''.log && s''.handles[k].session == s''.registry.session;
  }

  /** What one registration does to the usable blocks: through a current handle it adds its hashes,
      through a stale handle it takes them away. */
  lemma RegistrationEffect(s: System, handle: nat, hashes: set<nat>, now: nat)
    requires handle < |s.handles|
    ensures CurrentKeys(RegisterHashes(s, handle, hashes, now).registry) ==
      if s.handles[handle].session == s.registry.session then CurrentKeys(s.registry) + hashes
      else CurrentKeys(s.registry) - hashes
  {
  }
}
