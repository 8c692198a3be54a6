/** The objects requests use: the shared registry and one session handle per request. Each method is the
    atomic action of the same name in ThinkingProtocol. */
module ThinkingSessions {
  import opened Common
  import opened JsonValues
  import opened Fingerprints
  import opened RegistrySpec
  import opened SseSpec
  import opened ThinkingProtocol
  import opened ThinkingRegistryObject

  class ThinkingSession {
    const registry: ThinkingRegistry
    const sessionId: nat

    constructor (registry: ThinkingRegistry, sessionId: nat)
      ensures this.registry == registry && this.sessionId == sessionId
    {
      this.registry, this.sessionId := registry, sessionId;
    }

    /** In any system in which this session is handle `k`, this is the action of filtering through it. */
    method Filter(body: Json, now: nat) returns (filtered: Json, removed: nat)
      modifies registry`blocks
      ensures filtered == FilteredBody(registry.hasher, old(registry.Model()), body)
      ensures removed + BodyItemCount(filtered) == BodyItemCount(body)
      ensures forall s: System, k: nat :: IsHandle(s, k, old(registry.Model())) ==>
        registry.Model() == Exec(registry.hasher, s, FilterBody(k, body, now)).registry
    {
      filtered, removed := registry.FilterRequest(body, now);
    }

    method RegisterFromSse(events: seq<SseEvent>, now: nat)
      modifies registry`blocks
      ensures forall s: System, k: nat :: IsHandle(s, k, old(registry.Model())) ==>
        registry.Model() == Exec(registry.hasher, s, RegisterSse(k, events, now)).registry
    {
      hide Register, StreamHashes, ReadAll;
      registry.RegisterFromSseStream(events, sessionId, now);
    }

    /** No body, or one that is no JSON (None), registers nothing. */
    method RegisterFromResponse(response: Option<Json>, now: nat)
      modifies registry`blocks
      ensures forall s: System, k: nat :: IsHandle(s, k, old(registry.Model())) ==>
        registry.Model() == Exec(registry.hasher, s, RegisterResponse(k, response, now)).registry
    {
      hide Register, ResponseHashes;
      if response.None? {
        forall s: System, k: nat | IsHandle(s, k, registry.Model())
          ensures registry.Model() == Exec(registry.hasher, s, RegisterResponse(k, response, now)).registry
        {
          NoResponse(registry.hasher);
          RegisterNothing(registry.blocks, sessionId, now);
        }
        return;
      }
      registry.RegisterFromResponse(response, sessionId, now);
    }

    ghost predicate IsHandle(s: System, k: nat, model: Registry) {
      s.registry == model && k < |s.handles| && s.handles[k].session == sessionId
    }
  }

  lemma NoResponse(hasher: Hasher)
    ensures ResponseHashes(hasher, None) == {}
  {
  }

  class TransformerRegistry {
    const thinkingRegistry: ThinkingRegistry

    constructor (hasher: Hasher)
      ensures fresh(thinkingRegistry) && thinkingRegistry.Model() == ThinkingProtocol.START.registry
      ensures thinkingRegistry.hasher == hasher
    {
      thinkingRegistry := new ThinkingRegistry(hasher);
    }

    /** The switch and the captured session number are one action. */
    method BeginRequest(backend: string) returns (session: ThinkingSession)
      modifies thinkingRegistry
      ensures fresh(session) && session.registry == thinkingRegistry
      ensures forall s: System :: s.registry == old(thinkingRegistry.Model()) ==>
        var s' := Exec(thinkingRegistry.hasher, s, ThinkingProtocol.BeginRequest(backend));
        && thinkingRegistry.Model() == s'.registry
        && s'.handles == s.handles + [Handle(session.sessionId, backend, s.steps)]
        && session.IsHandle(s', |s.handles|, thinkingRegistry.Model())
    {
      thinkingRegistry.OnBackendSwitch(backend);
      session := new ThinkingSession(thinkingRegistry, thinkingRegistry.currentSession);
    }

    method NotifyBackendSwitch(backend: string)
      modifies thinkingRegistry
      ensures forall s: System :: s.registry == old(thinkingRegistry.Model()) ==>
        thinkingRegistry.Model() == Exec(thinkingRegistry.hasher, s, NotifySwitch(backend)).registry
    {
      thinkingRegistry.OnBackendSwitch(backend);
    }
  }
}
