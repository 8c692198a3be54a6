/** Restarts over whole runs: the event queue, the reader thread of each instance, the command bridge
    and the event loop as one system; a run is any sequence of actions
    (src/ui/runtime.rs, src/ui/app.rs, src/pty/session.rs). */
module RestartProtocol {
  import opened Common
  import opened PtySpec

  datatype Event = OutputEvent | ExitEvent(generation: nat) | RestartEvent | ShutdownEvent

  /** A handled exit: its tag, the reaction, and the generation current at that moment. */
  datatype Handled = Handled(tag: nat, reaction: Reaction, generation: nat)

  /** `alive` are the instances whose reader thread still runs. The counters and `exits` are history. */
  datatype System = System(
    rt: Runtime,
    queue: seq<Event>,
    commands: nat,
    alive: set<nat>,
    requested: nat,
    restarts: nat,
    retries: nat,
    exits: seq<Handled>)

  const START := System(Runtime(AttachPty(INITIAL, NEW_CHILD), false), [], 0, {0}, 0, 0, 0, [])

  datatype Action =
    | UserInput(bytes: seq<byte>)
    | UserRestart(commandSent: bool)
    | BridgeForwards(accepted: bool)
    | ReaderReports
    | ReaderEnds(generation: nat, cleanly: bool)
    | OsSignal
    | LoopHandles(cursorHidden: bool, cursorRow: nat, spawned: bool)

  function HandleExit(s: System, tag: nat, spawned: bool): System {
    var reaction := ReactionTo(s.rt, tag);
    var rt := OnProcessExit(s.rt, tag, spawned);
    s.(rt := rt,
       exits := s.exits + [Handled(tag, reaction, s.rt.app.generation)],
       retries := if reaction == Retry then s.retries + 1 else s.retries,
       alive := if reaction == Retry && spawned then s.alive + {rt.app.generation} else s.alive)
  }

  function HandleRestart(s: System, spawned: bool): System {
    var rt := OnRestart(s.rt, spawned);
    s.(rt := rt,
       restarts := s.restarts + 1,
       alive := if spawned then s.alive + {rt.app.generation} else s.alive)
  }

  function HandleEvent(s: System, event: Event, cursorHidden: bool, cursorRow: nat, spawned: bool): System {
    match event
    case OutputEvent => s.(rt := OnOutputEvent(s.rt, cursorHidden, cursorRow))
    case ExitEvent(tag) => HandleExit(s, tag, spawned)
    case RestartEvent => HandleRestart(s, spawned)
    case ShutdownEvent => s.(rt := s.rt.(app := s.rt.app.(quit := true)))
  }

  /** An action that is not enabled does nothing; after quitting the loop handles nothing more. */
  function Exec(s: System, action: Action): System {
    match action
    case UserInput(bytes) => if s.rt.app.quit then s else s.(rt := s.rt.(app := SendInput(s.rt.app, bytes)))
    case UserRestart(commandSent) =>
      if s.rt.app.quit then s
      else
        var asked := s.(rt := s.rt.(app := RequestRestart(s.rt.app, commandSent)));
        if commandSent then asked.(commands := s.commands + 1, requested := s.requested + 1) else asked
    case BridgeForwards(accepted) =>
      if s.commands == 0 then s
      else s.(commands := s.commands - 1, queue := if accepted then s.queue + [RestartEvent] else s.queue)
    case ReaderReports => s.(queue := s.queue + [OutputEvent])
    case ReaderEnds(generation, cleanly) =>
      if generation !in s.alive then s
      else s.(alive := s.alive - {generation}, queue := if cleanly then s.queue + [ExitEvent(generation)] else s.queue)
    case OsSignal => s.(queue := s.queue + [ShutdownEvent])
    case LoopHandles(cursorHidden, cursorRow, spawned) =>
      if s.rt.app.quit || s.queue == [] then s
      else HandleEvent(s.(queue := s.queue[1..]), s.queue[0], cursorHidden, cursorRow, spawned)
  }

  function ExecAll(s: System, actions: seq<Action>): System {
    if actions == [] then s else Exec(ExecAll(s, actions[..|actions| - 1]), actions[|actions| - 1])
  }

  // ---- Counting ----

  /** Exit tags waiting in a queue, with multiplicity. */
  function QueuedTags(queue: seq<Event>): multiset<nat> {
    if queue == [] then multiset{}
    else QueuedTags(queue[1..]) + if queue[0].ExitEvent? then multiset{queue[0].generation} else multiset{}
  }

  function QueuedRestarts(queue: seq<Event>): nat {
    if queue == [] then 0 else QueuedRestarts(queue[1..]) + if queue[0].RestartEvent? then 1 else 0
  }

  function HandledTags(exits: seq<Handled>): multiset<nat> {
    if exits == [] then multiset{} else HandledTags(exits[..|exits| - 1]) + multiset{exits[|exits| - 1].tag}
  }

  lemma {:induction false} QueueAppend(queue: seq<Event>, event: Event)
    ensures QueuedTags(queue + [event]) ==
            QueuedTags(queue) + if event.ExitEvent? then multiset{event.generation} else multiset{}
    ensures QueuedRestarts(queue + [event]) == QueuedRestarts(queue) + if event.RestartEvent? then 1 else 0
  {
    if queue != [] {
      QueueAppend(queue[1..], event);
      assert (queue + [event])[1..] == queue[1..] + [event];
    } else {
      assert (queue + [event])[1..] == [];
    }
  }

  lemma {:induction false} QueuedTagBound(queue: seq<Event>, i: nat)
    requires i < |queue| && queue[i].ExitEvent?
    ensures queue[i].generation in QueuedTags(queue)
  {
    if i > 0 {
      QueuedTagBound(queue[1..], i - 1);
    }
  }

  // ---- The invariant ----

  /** Instances whose end has been announced: waiting in the queue or handled. */
  function Ended(s: System): multiset<nat> { QueuedTags(s.queue) + HandledTags(s.exits) }

  ghost predicate Counters(s: System) {
    && s.rt.app.generation == s.restarts + s.retries
    && s.retries + (if s.rt.canRetry then 1 else 0) <= s.restarts
    && s.restarts + QueuedRestarts(s.queue) + s.commands <= s.requested
    && (s.rt.canRetry ==> !s.rt.app.lifecycle.Ready?)
  }

  /** Every instance is numbered up to the current generation and ends at most once. */
  ghost predicate Instances(s: System) {
    && (forall g :: g in s.alive ==> g <= s.rt.app.generation)
    && (forall g :: g in Ended(s) ==> g <= s.rt.app.generation)
    && (forall g :: Ended(s)[g] <= 1)
    && (forall g :: g in s.alive ==> g !in Ended(s))
  }

  predicate ActsOnNewest(h: Handled) {
    h.reaction == Retry || h.reaction == ReportFailure || h.reaction == Quit ==> h.tag == h.generation
  }

  ghost predicate Inv(s: System) {
    && Counters(s)
    && Instances(s)
    && forall i :: 0 <= i < |s.exits| ==> ActsOnNewest(s.exits[i])
  }

  /** Handling an exit moves its tag from the queue to the handled ones. */
  lemma HandledExitIsMoved(s: System, spawned: bool)
    requires s.queue != [] && s.queue[0].ExitEvent?
    ensures var s' := HandleExit(s.(queue := s.queue[1..]), s.queue[0].generation, spawned);
      Ended(s') == Ended(s) && QueuedRestarts(s'.queue) == QueuedRestarts(s.queue)
  {
    hide ReactionTo, OnProcessExit;
    var s' := HandleExit(s.(queue := s.queue[1..]), s.queue[0].generation, spawned);
    assert s'.exits[..|s'.exits| - 1] == s.exits;
  }

  /** A respawn numbers the new instance one higher; it is attached exactly when it spawned. */
  lemma RespawnFacts(a: AppState, spawned: bool)
    ensures Respawn(a, spawned).generation == a.generation + 1
    ensures Respawn(a, spawned).lifecycle.Attached? == spawned
  {
  }

  lemma NewInstanceKeepsInstances(s: System, s': System)
    requires Instances(s) && Ended(s') == Ended(s)
    requires (s'.rt.app.generation == s.rt.app.generation && s'.alive == s.alive) ||
             (s'.rt.app.generation == s.rt.app.generation + 1 && s'.alive <= s.alive + {s'.rt.app.generation})
    ensures Instances(s')
  {
    hide Ended;
  }

  lemma HandleExitKeepsInv(s: System, spawned: bool)
    requires Inv(s) && s.queue != [] && s.queue[0].ExitEvent?
    ensures Inv(HandleExit(s.(queue := s.queue[1..]), s.queue[0].generation, spawned))
  {
    hide Ended, QueuedRestarts, Respawn, Instances;
    HandledExitIsMoved(s, spawned);
    RespawnFacts(s.rt.app, spawned);
    NewInstanceKeepsInstances(s, HandleExit(s.(queue := s.queue[1..]), s.queue[0].generation, spawned));
  }

  lemma HandleRestartKeepsInv(s: System, spawned: bool)
    requires Inv(s) && s.queue != [] && s.queue[0].RestartEvent?
    ensures Inv(HandleRestart(s.(queue := s.queue[1..]), spawned))
  {
    hide Respawn, Instances;
    var s' := HandleRestart(s.(queue := s.queue[1..]), spawned);
    RespawnFacts(s.rt.app, spawned);
    assert Ended(s') == Ended(s);
    NewInstanceKeepsInstances(s, s');
  }

  lemma OutputFacts(r: Runtime, cursorHidden: bool, cursorRow: nat)
    ensures OnOutputEvent(r, cursorHidden, cursorRow).app.generation == r.app.generation
    ensures OnOutputEvent(r, cursorHidden, cursorRow).canRetry ==
            (r.canRetry && !SeesReady(r.app, cursorHidden, cursorRow))
    ensures !SeesReady(r.app, cursorHidden, cursorRow) ==> OnOutputEvent(r, cursorHidden, cursorRow).app == r.app
  {
  }

  lemma HandleOtherKeepsInv(s: System, cursorHidden: bool, cursorRow: nat, spawned: bool)
    requires Inv(s) && s.queue != [] && (s.queue[0].OutputEvent? || s.queue[0].ShutdownEvent?)
    ensures Inv(HandleEvent(s.(queue := s.queue[1..]), s.queue[0], cursorHidden, cursorRow, spawned))
  {
    hide Instances, Ended, QueuedRestarts, HandleExit, HandleRestart, OnOutputEvent, SeesReady;
    OutputFacts(s.rt, cursorHidden, cursorRow);
    var s' := HandleEvent(s.(queue := s.queue[1..]), s.queue[0], cursorHidden, cursorRow, spawned);
    OtherEventEndsNothing(s, s');
    NewInstanceKeepsInstances(s, s');
  }

  lemma OtherEventEndsNothing(s: System, s': System)
    requires s.queue != [] && !s.queue[0].ExitEvent? && !s.queue[0].RestartEvent?
    requires s'.queue == s.queue[1..] && s'.exits == s.exits
    ensures Ended(s') == Ended(s) && QueuedRestarts(s'.queue) == QueuedRestarts(s.queue)
  {
  }

  lemma HandleKeepsInv(s: System, cursorHidden: bool, cursorRow: nat, spawned: bool)
    requires Inv(s) && s.queue != []
    ensures Inv(HandleEvent(s.(queue := s.queue[1..]), s.queue[0], cursorHidden, cursorRow, spawned))
  {
    hide Inv, HandleExit, HandleRestart;
    match s.queue[0]
    case ExitEvent(_) => HandleExitKeepsInv(s, spawned);
    case RestartEvent => HandleRestartKeepsInv(s, spawned);
    case OutputEvent | ShutdownEvent => HandleOtherKeepsInv(s, cursorHidden, cursorRow, spawned);
  }

  lemma EnqueueKeepsInv(s: System, event: Event)
    requires Inv(s) && (event.OutputEvent? || event.ShutdownEvent?)
    ensures Inv(s.(queue := s.queue + [event]))
  {
    QueueAppend(s.queue, event);
    assert Ended(s.(queue := s.queue + [event])) == Ended(s);
  }

  lemma ReaderEndKeepsInv(s: System, generation: nat)
    requires Inv(s) && generation in s.alive
    ensures Inv(s.(alive := s.alive - {generation}))
    ensures Inv(s.(alive := s.alive - {generation}, queue := s.queue + [ExitEvent(generation)]))
  {
    QueueAppend(s.queue, ExitEvent(generation));
    var s' := s.(alive := s.alive - {generation}, queue := s.queue + [ExitEvent(generation)]);
    assert Ended(s') == Ended(s) + multiset{generation};
    assert Ended(s.(alive := s.alive - {generation})) == Ended(s);
  }

  lemma ForwardKeepsInv(s: System, accepted: bool)
    requires Inv(s) && s.commands > 0
    ensures Inv(Exec(s, BridgeForwards(accepted)))
  {
    QueueAppend(s.queue, RestartEvent);
    assert Ended(Exec(s, BridgeForwards(accepted))) == Ended(s);
  }

  lemma UserFacts(a: AppState, bytes: seq<byte>, commandSent: bool)
    ensures SendInput(a, bytes).generation == RequestRestart(a, commandSent).generation == a.generation
    ensures SendInput(a, bytes).lifecycle.Ready? == a.lifecycle.Ready?
    ensures !RequestRestart(a, commandSent).lifecycle.Ready?
  {
  }

  lemma NewAppKeepsInv(s: System, app: AppState, sent: nat)
    requires Inv(s) && app.generation == s.rt.app.generation
    requires app.lifecycle.Ready? ==> s.rt.app.lifecycle.Ready?
    ensures Inv(s.(rt := s.rt.(app := app), commands := s.commands + sent, requested := s.requested + sent))
  {
    hide QueuedRestarts, Instances;
    var s' := s.(rt := s.rt.(app := app), commands := s.commands + sent, requested := s.requested + sent);
    assert Ended(s') == Ended(s);
    NewInstanceKeepsInstances(s, s');
  }

  lemma UserKeepsInv(s: System, action: Action)
    requires Inv(s) && (action.UserInput? || action.UserRestart?)
    ensures Inv(Exec(s, action))
  {
    hide Inv, SendInput, RequestRestart;
    match action
    case UserInput(bytes) =>
      UserFacts(s.rt.app, bytes, false);
      NewAppKeepsInv(s, SendInput(s.rt.app, bytes), 0);
    case UserRestart(commandSent) =>
      UserFacts(s.rt.app, [], commandSent);
      NewAppKeepsInv(s, RequestRestart(s.rt.app, commandSent), if commandSent then 1 else 0);
  }

  lemma StepKeepsInv(s: System, action: Action)
    requires Inv(s)
    ensures Inv(Exec(s, action))
  {
    hide Inv, HandleEvent;
    match action
    case UserInput(_) | UserRestart(_) => UserKeepsInv(s, action);
    case BridgeForwards(accepted) => if s.commands > 0 { ForwardKeepsInv(s, accepted); }
    case ReaderReports => EnqueueKeepsInv(s, OutputEvent);
    case OsSignal => EnqueueKeepsInv(s, ShutdownEvent);
    case ReaderEnds(generation, _) => if generation in s.alive { ReaderEndKeepsInv(s, generation); }
    case LoopHandles(cursorHidden, cursorRow, spawned) =>
      if !s.rt.app.quit && s.queue != [] { HandleKeepsInv(s, cursorHidden, cursorRow, spawned); }
  }

  lemma StartInv()
    ensures Inv(START)
  {
    assert Ended(START) == multiset{};
  }

  lemma {:induction false} RunsKeepInv(actions: seq<Action>)
    ensures Inv(ExecAll(START, actions))
  {
    hide Exec, Inv;
    if actions == [] {
      StartInv();
    } else {
      RunsKeepInv(actions[..|actions| - 1]);
      StepKeepsInv(ExecAll(START, actions[..|actions| - 1]), actions[|actions| - 1]);
    }
  }

  // ---- Main results ----

  /** In every run: automatic retries never exceed the handled restarts, these never exceed what users
      requested, and the generation is at most twice the handled restarts; every queued exit tag is at
      most the current generation. */
  lemma RestartsAreBounded(actions: seq<Action>)
    ensures var s := ExecAll(START, actions);
      && s.retries <= s.restarts <= s.requested
      && s.rt.app.generation <= 2 * s.restarts
      && forall i :: 0 <= i < |s.queue| && s.queue[i].ExitEvent? ==> s.queue[i].generation <= s.rt.app.generation
  {
    RunsKeepInv(actions);
    var s := ExecAll(START, actions);
    forall i | 0 <= i < |s.queue| && s.queue[i].ExitEvent? ensures s.queue[i].generation <= s.rt.app.generation {
      QueuedTagBound(s.queue, i);
      assert s.queue[i].generation in Ended(s);
    }
  }

  lemma {:induction false} RepeatedTag(exits: seq<Handled>, i: nat, j: nat)
    requires i < j < |exits| && exits[i].tag == exits[j].tag
    ensures HandledTags(exits)[exits[i].tag] >= 2
  {
    var init := exits[..|exits| - 1];
    if j < |exits| - 1 {
      RepeatedTag(init, i, j);
    } else {
      TagIsCounted(init, i);
    }
  }

  lemma {:induction false} TagIsCounted(exits: seq<Handled>, i: nat)
    requires i < |exits|
    ensures exits[i].tag in HandledTags(exits)
  {
    if i < |exits| - 1 {
      TagIsCounted(exits[..|exits| - 1], i);
    }
  }

  /** In every run each instance's exit is handled at most once, and only the exit of the instance that
      is newest at that moment can quit, retry or report a failure. */
  lemma ExitsActOnce(actions: seq<Action>)
    ensures var exits := ExecAll(START, actions).exits;
      && (forall i, j :: 0 <= i < j < |exits| ==> exits[i].tag != exits[j].tag)
      && (forall i :: 0 <= i < |exits| ==> ActsOnNewest(exits[i]))
  {
    RunsKeepInv(actions);
    var s := ExecAll(START, actions);
    assert forall g :: HandledTags(s.exits)[g] <= Ended(s)[g] <= 1;
    forall i, j | 0 <= i < j < |s.exits| ensures s.exits[i].tag != s.exits[j].tag {
      if s.exits[i].tag == s.exits[j].tag {
        RepeatedTag(s.exits, i, j);
      }
    }
  }

  // ---- When an early exit is retried ----

  /** The event that action `i` of a run makes the loop handle. */
  function HandledAt(actions: seq<Action>, i: nat): Option<Event>
    requires i < |actions|
  {
    var s := ExecAll(START, actions[..i]);
    if actions[i].LoopHandles? && !s.rt.app.quit && s.queue != [] then Some(s.queue[0]) else None
  }

  /** Action `i` handles a restart request and its child does spawn. */
  predicate SpawnsAt(actions: seq<Action>, i: nat)
    requires i < |actions|
  {
    HandledAt(actions, i) == Some(RestartEvent) && actions[i].spawned
  }

  /** Action `i` handles an exit of any instance, another restart request, or a frame of a ready child. */
  predicate DisturbsAt(actions: seq<Action>, i: nat)
    requires i < |actions|
  {
    match HandledAt(actions, i)
    case Some(ExitEvent(_)) => true
    case Some(RestartEvent) => true
    case Some(OutputEvent) =>
      SeesReady(ExecAll(START, actions[..i]).rt.app, actions[i].cursorHidden, actions[i].cursorRow)
    case _ => false
  }

  predicate UndisturbedAfter(actions: seq<Action>, i: nat) {
    forall j :: i < j < |actions| ==> !DisturbsAt(actions, j)
  }

  /** Some restart spawned, and nothing has disturbed it since. */
  predicate FreshlyRestarted(actions: seq<Action>) {
    exists i :: 0 <= i < |actions| && SpawnsAt(actions, i) && UndisturbedAfter(actions, i)
  }

  lemma SameHistory(actions: seq<Action>, i: nat)
    requires i < |actions| - 1
    ensures SpawnsAt(actions, i) == SpawnsAt(actions[..|actions| - 1], i)
    ensures DisturbsAt(actions, i) == DisturbsAt(actions[..|actions| - 1], i)
  {
    assert actions[..|actions| - 1][..i] == actions[..i];
  }

  /** A run is freshly restarted when its last action restarts, or when it was before and its last
      action does not disturb. */
  lemma FreshlyRestartedStep(actions: seq<Action>)
    requires actions != []
    ensures FreshlyRestarted(actions) <==>
      SpawnsAt(actions, |actions| - 1) ||
      (FreshlyRestarted(actions[..|actions| - 1]) && !DisturbsAt(actions, |actions| - 1))
  {
    hide SpawnsAt, DisturbsAt;
    var n, init := |actions| - 1, actions[..|actions| - 1];
    forall i | 0 <= i < n
      ensures SpawnsAt(actions, i) == SpawnsAt(init, i) && DisturbsAt(actions, i) == DisturbsAt(init, i)
    {
      SameHistory(actions, i);
    }
    if i :| 0 <= i < |init| && SpawnsAt(init, i) && UndisturbedAfter(init, i) && !DisturbsAt(actions, n) {
      assert UndisturbedAfter(actions, i);
    }
    if i :| 0 <= i < |actions| && SpawnsAt(actions, i) && UndisturbedAfter(actions, i) && i < n {
      assert UndisturbedAfter(init, i);
    }
  }

  lemma NothingRestartedYet()
    ensures !FreshlyRestarted([])
  {
  }

  /** What one action does to the retry flag. */
  lemma CanRetryAfter(s: System, action: Action)
    ensures Exec(s, action).rt.canRetry ==
      if !action.LoopHandles? || s.rt.app.quit || s.queue == [] then s.rt.canRetry
      else match s.queue[0]
        case ExitEvent(_) => false
        case RestartEvent => action.spawned
        case OutputEvent => s.rt.canRetry && !SeesReady(s.rt.app, action.cursorHidden, action.cursorRow)
        case ShutdownEvent => s.rt.canRetry
  {
    hide SendInput, RequestRestart, Respawn, ReactionTo, OnPtyOutput, SeesReady;
    if action.LoopHandles? {
      RespawnFacts(s.rt.app, action.spawned);
    }
  }

  lemma CanRetryStep(actions: seq<Action>)
    requires actions != []
    ensures ExecAll(START, actions).rt.canRetry <==>
      SpawnsAt(actions, |actions| - 1) ||
      (ExecAll(START, actions[..|actions| - 1]).rt.canRetry && !DisturbsAt(actions, |actions| - 1))
  {
    hide Exec, SeesReady;
    CanRetryAfter(ExecAll(START, actions[..|actions| - 1]), actions[|actions| - 1]);
  }

  /** The retry flag is what the history says: set exactly while a restart is fresh. */
  lemma {:induction false} CanRetryIffFreshlyRestarted(actions: seq<Action>)
    ensures ExecAll(START, actions).rt.canRetry <==> FreshlyRestarted(actions)
  {
    hide FreshlyRestarted, SpawnsAt, DisturbsAt;
    if actions == [] {
      NothingRestartedYet();
    } else {
      CanRetryIffFreshlyRestarted(actions[..|actions| - 1]);
      FreshlyRestartedStep(actions);
      CanRetryStep(actions);
    }
  }

  /** A failed resume is meant to be retried with a fresh session. In every run the exit of an instance
      is retried exactly when it is the newest one, no user restart is pending, and since the last
      restart, which spawned, no exit was handled, not even a stale one, and no readiness was reported.
      An early exit that misses only the last part is just reported. */
  lemma RetriedIffUndisturbed(actions: seq<Action>, tag: nat)
    ensures var rt := ExecAll(START, actions).rt;
      var newest := tag == rt.app.generation && !rt.app.lifecycle.Restarting?;
      && (ReactionTo(rt, tag) == Retry <==> newest && FreshlyRestarted(actions))
      && (ReactionTo(rt, tag) == ReportFailure <==>
          newest && rt.app.generation > 0 && !rt.app.lifecycle.Ready? && !FreshlyRestarted(actions))
  {
    hide Exec, ExecAll, FreshlyRestarted, Instances;
    RunsKeepInv(actions);
    CanRetryIffFreshlyRestarted(actions);
  }

  // ---- What an exit does, and when the application quits ----

  /** What handling an exit does to the application, by the history: an exit of an older instance or one
      during a restart does nothing; the exit of the newest one quits when it was ready or the first; an
      earlier exit respawns right after a restart, and otherwise is reported and leaves everything as it is. */
  lemma ExitOutcome(actions: seq<Action>, tag: nat)
    requires actions != [] && HandledAt(actions, |actions| - 1) == Some(ExitEvent(tag))
    ensures var before := actions[..|actions| - 1];
      var app, spawned := ExecAll(START, before).rt.app, actions[|actions| - 1].spawned;
      ExecAll(START, actions).rt.app ==
        if tag != app.generation || app.lifecycle.Restarting? then app
        else if app.lifecycle.Ready? || app.generation == 0 then app.(quit := true)
        else if FreshlyRestarted(before) then
          AppState(if spawned then Attached([]) else Pending([]), if spawned then Some(Child([], true)) else None,
                   app.generation + 1, app.quit)
        else app
  {
    hide FreshlyRestarted;
    CanRetryIffFreshlyRestarted(actions[..|actions| - 1]);
  }

  /** A shutdown, or the exit of the newest instance when that is ready or the first one and no restart
      is pending. */
  predicate Quits(app: AppState, event: Event) {
    match event
    case ShutdownEvent => true
    case ExitEvent(tag) =>
      tag == app.generation && !app.lifecycle.Restarting? && (app.lifecycle.Ready? || app.generation == 0)
    case _ => false
  }

  /** Action `i` makes the loop handle such an event. */
  predicate QuitsAt(actions: seq<Action>, i: nat)
    requires i < |actions|
  {
    HandledAt(actions, i).Some? && Quits(ExecAll(START, actions[..i]).rt.app, HandledAt(actions, i).value)
  }

  lemma QuitStep(s: System, action: Action)
    ensures Exec(s, action).rt.app.quit <==>
      s.rt.app.quit || (action.LoopHandles? && s.queue != [] && Quits(s.rt.app, s.queue[0]))
  {
    hide SeesReady, DeliverAll;
  }

  /** The application quits in a run exactly when such an event was handled in it. */
  lemma {:induction false} QuitIffHandled(actions: seq<Action>)
    ensures ExecAll(START, actions).rt.app.quit <==> exists i :: 0 <= i < |actions| && QuitsAt(actions, i)
  {
    hide Exec, Quits;
    if actions != [] {
      var n, before := |actions| - 1, actions[..|actions| - 1];
      QuitIffHandled(before);
      QuitStep(ExecAll(START, before), actions[n]);
      forall i | 0 <= i < n ensures QuitsAt(actions, i) == QuitsAt(before, i) {
        assert before[..i] == actions[..i];
      }
      if ExecAll(START, before).rt.app.quit {
        var i :| 0 <= i < |before| && QuitsAt(before, i);
        assert QuitsAt(actions, i);
      } else if ExecAll(START, actions).rt.app.quit {
        assert QuitsAt(actions, n);
      }
    }
  }

  // ---- Two courses of a restart ----

  /** The loop handles the restart, the given instances end, and their exits are handled in order. */
  function Course(ends: seq<nat>): seq<Action> {
    [LoopHandles(false, 0, true)] +
    seq(|ends|, i requires 0 <= i < |ends| => ReaderEnds(ends[i], true)) +
    seq(|ends|, i => LoopHandles(false, 0, true))
  }

  lemma {:induction false} ExecConcat(s: System, first: seq<Action>, second: seq<Action>)
    ensures ExecAll(s, first + second) == ExecAll(ExecAll(s, first), second)
  {
    hide Exec;
    if second == [] {
      assert first + second == first;
    } else {
      ExecConcat(s, first, second[..|second| - 1]);
      assert (first + second)[..|first + second| - 1] == first + second[..|second| - 1];
    }
  }

  /** The usual course defeats the retry: respawning shuts the old instance down, its stale exit is
      handled first and clears the flag, and the new instance's early exit is reported, not retried. */
  lemma StaleExitDefeatsRetry(actions: seq<Action>)
    requires RestartIsNext(ExecAll(START, actions))
    requires ExecAll(START, actions).rt.app.generation in ExecAll(START, actions).alive
    ensures var s := ExecAll(START, actions);
      var old' := s.rt.app.generation;
      ExecAll(START, actions + Course([old', old' + 1])).exits ==
      s.exits + [Handled(old', Stale, old' + 1), Handled(old' + 1, ReportFailure, old' + 1)]
  {
    hide ExecAll, Exec;
    var s := ExecAll(START, actions);
    ExecConcat(START, actions, Course([s.rt.app.generation, s.rt.app.generation + 1]));
    StaleExitFirst(s);
  }

  /** Without a stale exit in between the new instance's early exit is retried. */
  lemma PromptExitIsRetried(actions: seq<Action>)
    requires RestartIsNext(ExecAll(START, actions))
    ensures var s := ExecAll(START, actions);
      var new' := s.rt.app.generation + 1;
      ExecAll(START, actions + Course([new'])).exits == s.exits + [Handled(new', Retry, new')]
  {
    hide ExecAll, Exec;
    var s := ExecAll(START, actions);
    ExecConcat(START, actions, Course([s.rt.app.generation + 1]));
    NewExitFirst(s);
  }

  predicate RestartIsNext(s: System) { !s.rt.app.quit && s.queue == [RestartEvent] }

  lemma StaleExitFirst(s: System)
    requires RestartIsNext(s) && s.rt.app.generation in s.alive
    ensures var old' := s.rt.app.generation;
      ExecAll(s, Course([old', old' + 1])).exits ==
      s.exits + [Handled(old', Stale, old' + 1), Handled(old' + 1, ReportFailure, old' + 1)]
  {
    hide Exec, ExecAll, Course;
    var old', handle := s.rt.app.generation, LoopHandles(false, 0, true);
    CourseOfTwo(s, old', old' + 1);
    SpawnedRestart(s);
    var restarted := Exec(s, handle);
    InstanceEnds(restarted, old');
    var once := Exec(restarted, ReaderEnds(old', true));
    InstanceEnds(once, old' + 1);
    var ended := Exec(once, ReaderEnds(old' + 1, true));
    FirstExit(ended);
    FirstExit(Exec(ended, handle));
  }

  lemma CourseOfTwo(s: System, g: nat, g': nat)
    ensures ExecAll(s, Course([g, g'])) ==
      var handle := LoopHandles(false, 0, true);
      Exec(Exec(Exec(Exec(Exec(s, handle), ReaderEnds(g, true)), ReaderEnds(g', true)), handle), handle)
  {
    hide Exec, ExecAll;
    var handle := LoopHandles(false, 0, true);
    var course := [handle, ReaderEnds(g, true), ReaderEnds(g', true), handle, handle];
    assert Course([g, g']) == course;
    FiveSteps(s, course);
  }

  lemma InstanceEnds(s: System, generation: nat)
    requires generation in s.alive
    ensures Exec(s, ReaderEnds(generation, true)) ==
            s.(alive := s.alive - {generation}, queue := s.queue + [ExitEvent(generation)])
  {
  }

  /** A handled restart that spawns leaves an attached newest instance and a set retry flag. */
  lemma SpawnedRestart(s: System)
    requires RestartIsNext(s)
    ensures var s' := Exec(s, LoopHandles(false, 0, true));
      && s'.rt == Runtime(s'.rt.app, true) && s'.rt.app.generation == s.rt.app.generation + 1
      && s'.rt.app.lifecycle.Attached? && !s'.rt.app.quit
      && s'.queue == [] && s'.exits == s.exits && s'.alive == s.alive + {s'.rt.app.generation}
  {
  }

  lemma FirstExit(s: System)
    requires !s.rt.app.quit && s.queue != [] && s.queue[0].ExitEvent?
    ensures var s' := Exec(s, LoopHandles(false, 0, true));
      var tag := s.queue[0].generation;
      && s'.queue == s.queue[1..]
      && s'.exits == s.exits + [Handled(tag, ReactionTo(s.rt, tag), s.rt.app.generation)]
      && (ReactionTo(s.rt, tag) == Stale ==> s'.rt == Runtime(s.rt.app, false))
  {
    hide ReactionTo, Respawn;
  }

  lemma NewExitFirst(s: System)
    requires RestartIsNext(s)
    ensures var new' := s.rt.app.generation + 1;
      ExecAll(s, Course([new'])).exits == s.exits + [Handled(new', Retry, new')]
  {
    var new' := s.rt.app.generation + 1;
    var handle := LoopHandles(false, 0, true);
    var course := [handle, ReaderEnds(new', true), handle];
    assert Course([new']) == course;
    ThreeSteps(s, course);
    SpawnedRestart(s);
    FirstExit(Exec(Exec(s, handle), ReaderEnds(new', true)));
  }

  lemma ThreeSteps(s: System, course: seq<Action>)
    requires |course| == 3
    ensures ExecAll(s, course) == Exec(Exec(Exec(s, course[0]), course[1]), course[2])
  {
    hide Exec;
    var one, two := course[..1], course[..2];
    assert one[..0] == [] && two[..1] == one;
    assert ExecAll(s, one) == Exec(s, one[0]);
    assert ExecAll(s, two) == Exec(ExecAll(s, one), two[1]);
  }

  lemma FiveSteps(s: System, course: seq<Action>)
    requires |course| == 5
    ensures ExecAll(s, course) ==
            Exec(Exec(Exec(Exec(Exec(s, course[0]), course[1]), course[2]), course[3]), course[4])
  {
    hide Exec;
    ThreeSteps(s, course[..3]);
    var four := course[..4];
    assert four[..3] == course[..3];
    assert ExecAll(s, four) == Exec(ExecAll(s, course[..3]), four[3]);
  }

  /** Both courses happen: right after start a user asks for a restart, and the bridge forwards it. */
  lemma BothCoursesHappen()
    ensures var asked := [UserRestart(true), BridgeForwards(true)];
      && ExecAll(START, asked + Course([0, 1])).exits == [Handled(0, Stale, 1), Handled(1, ReportFailure, 1)]
      && ExecAll(START, asked + Course([1])).exits == [Handled(1, Retry, 1)]
  {
    hide Exec, ExecAll, Course;
    var asked := [UserRestart(true), BridgeForwards(true)];
    RestartCanBeNext();
    StaleExitDefeatsRetry(asked);
    PromptExitIsRetried(asked);
  }

  lemma RestartCanBeNext()
    ensures var s := ExecAll(START, [UserRestart(true), BridgeForwards(true)]);
      RestartIsNext(s) && s.rt.app.generation == 0 && s.alive == {0} && s.exits == []
  {
    assert [UserRestart(true), BridgeForwards(true)][..1] == [UserRestart(true)];
    assert [UserRestart(true)][..0] == [];
  }
}
