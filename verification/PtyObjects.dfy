/** The store, the handle, the application and the event-loop arms as objects, proved against PtySpec. */
module PtyObjects {
  import opened Common
  import S = PtySpec
  import opened PtySpec

  /** mvi::Store over the PTY actor: the scope's state and its queue of side effects. */
  class PtyStore {
    var state: Lifecycle
    var sideEffects: seq<SideEffect>

    constructor ()
      ensures state == Pending([]) && sideEffects == []
    {
      state, sideEffects := Pending([]), [];
    }

    method Reduce(f: Lifecycle -> Lifecycle)
      modifies this`state
      ensures state == f(old(state))
    {
      state := f(state);
    }

    method HandleIntent(intent: Intent)
      modifies this
      ensures state == After(old(state), intent)
      ensures sideEffects == old(sideEffects) + Effects(old(state), intent)
    {
      match intent {
        case Attach =>
          Reduce((s: Lifecycle) => match s
            case Pending(buffer) => Attached(buffer)
            case Attached(buffer) => Attached(buffer)
            case Restarting => Attached([])
            case Ready => Ready);
        case GotOutput =>
          var extracted := if state.Attached? then state.buffer else [];
          Reduce((s: Lifecycle) => if s.Attached? then Ready else s);
          if extracted != [] {
            sideEffects := sideEffects + [FlushBuffer(extracted)];
          }
        case BufferInput(bytes) =>
          Reduce((s: Lifecycle) => match s
            case Pending(buffer) => Pending(buffer + [bytes])
            case Attached(buffer) => Attached(buffer + [bytes])
            case Ready => Ready
            case Restarting => Restarting);
        case Detach =>
          Reduce(_ => Restarting);
        case SpawnFailed =>
          Reduce((s: Lifecycle) => if s.Restarting? then Pending([]) else s);
      }
    }

    /** The callback registered for this store ignores every effect. */
    method Dispatch(intent: Intent)
      requires sideEffects == []
      modifies this
      ensures state == After(old(state), intent) && sideEffects == []
    {
      HandleIntent(intent);
      sideEffects := [];
    }

    method DispatchCollect(intent: Intent) returns (effects: seq<SideEffect>)
      requires sideEffects == []
      modifies this
      ensures state == After(old(state), intent) && sideEffects == []
      ensures effects == Effects(old(state), intent)
    {
      HandleIntent(intent);
      effects := sideEffects;
      sideEffects := [];
    }
  }

  /** A handle shares its writer with the session that spawned it. */
  class PtyHandle {
    var open: bool
    var written: seq<byte>

    function Model(): Child
      reads this
    {
      Child(written, open)
    }

    constructor ()
      ensures Model() == NEW_CHILD
    {
      open, written := true, [];
    }

    method SendInput(bytes: seq<byte>)
      modifies this`written
      ensures Model() == Deliver(old(Model()), bytes)
      ensures written == old(written) + if open then Filtered(bytes) else []
    {
      if !open {
        return;
      }
      var filtered: seq<byte> := [];
      for i := 0 to |bytes|
        invariant filtered == Filtered(bytes[..i])
        invariant written == old(written)
      {
        assert bytes[..i + 1][..i] == bytes[..i];
        if !IsHotkey(bytes[i]) {
          filtered := filtered + [bytes[i]];
        }
      }
      assert bytes[..|bytes|] == bytes;
      if filtered == [] {
        return;
      }
      written := written + filtered;
    }

    method CloseWriter()
      modifies this`open
      ensures !open
    {
      open := false;
    }
  }

  class App {
    const ptyStore: PtyStore
    var ptyHandle: PtyHandle?
    var ptyGeneration: nat
    var shouldQuit: bool

    ghost predicate Valid()
      reads this, ptyStore
    {
      ptyStore.sideEffects == []
    }

    function Child(): Option<Child>
      reads this, ptyHandle
    {
      if ptyHandle == null then None else Some(ptyHandle.Model())
    }

    ghost function Model(): AppState
      reads this, ptyStore, ptyHandle
    {
      AppState(ptyStore.state, Child(), ptyGeneration, shouldQuit)
    }

    constructor ()
      ensures Valid() && fresh(ptyStore) && Model() == INITIAL && ptyHandle == null
    {
      ptyStore := new PtyStore();
      ptyHandle, ptyGeneration, shouldQuit := null, 0, false;
    }

    method DispatchPty(intent: Intent)
      requires Valid()
      modifies ptyStore
      ensures Valid() && Model() == Dispatched(old(Model()), intent)
    {
      ptyStore.Dispatch(intent);
    }

    method SendInput(bytes: seq<byte>)
      requires Valid()
      modifies ptyStore, ptyHandle
      ensures Valid() && Model() == S.SendInput(old(Model()), bytes)
    {
      if ptyStore.state.Ready? {
        if ptyHandle != null {
          ptyHandle.SendInput(bytes);
        }
      } else {
        DispatchPty(BufferInput(bytes));
      }
    }

    method AttachPty(pty: PtyHandle)
      requires Valid()
      modifies this, ptyStore
      ensures Valid() && ptyHandle == pty && Model() == S.AttachPty(old(Model()), pty.Model())
    {
      ptyHandle := pty;
      DispatchPty(Attach);
    }

    method DetachPty()
      requires Valid()
      modifies this, ptyStore
      ensures Valid() && ptyHandle == null && Model() == S.DetachPty(old(Model()))
    {
      ptyHandle := null;
      DispatchPty(Detach);
    }

    method OnPtyOutput(cursorHidden: bool, cursorRow: nat) returns (becameReady: bool)
      requires Valid()
      modifies ptyStore, ptyHandle
      ensures Valid() && Model() == S.OnPtyOutput(old(Model()), cursorHidden, cursorRow)
      ensures becameReady == SeesReady(old(Model()), cursorHidden, cursorRow)
      ensures !cursorHidden || cursorRow == 0 || old(ptyHandle) == null || old(ptyStore.state).Ready? ==>
        !becameReady && Model() == old(Model())
      ensures ptyStore.state.Ready? <==>
        old(ptyStore.state).Ready? ||
        (old(ptyStore.state).Attached? && ptyHandle != null && cursorHidden && cursorRow != 0)
    {
      if ptyStore.state.Ready? {
        return false;
      }
      var hidden, row := if ptyHandle == null then false else cursorHidden, if ptyHandle == null then 0 else cursorRow;
      if !hidden || row == 0 {
        return false;
      }
      var effects := ptyStore.DispatchCollect(GotOutput);
      if effects != [] {
        FlushAll(effects[0].buffer);
      }
      return true;
    }

    method FlushAll(chunks: seq<seq<byte>>)
      requires ptyHandle != null
      modifies ptyHandle
      ensures ptyHandle.Model() == DeliverAll(old(ptyHandle.Model()), chunks)
    {
      for i := 0 to |chunks|
        invariant ptyHandle.Model() == DeliverAll(old(ptyHandle.Model()), chunks[..i])
      {
        assert chunks[..i + 1][..i] == chunks[..i];
        ptyHandle.SendInput(chunks[i]);
      }
      assert chunks[..|chunks|] == chunks;
    }

    method RequestRestart(commandSent: bool)
      requires Valid()
      modifies ptyStore
      ensures Valid() && Model() == S.RequestRestart(old(Model()), commandSent)
    {
      DispatchPty(Detach);
      if !commandSent {
        DispatchPty(SpawnFailed);
      }
    }

    method NextPtyGeneration() returns (generation: nat)
      modifies this`ptyGeneration
      ensures ptyGeneration == old(ptyGeneration) + 1 == generation
    {
      ptyGeneration := ptyGeneration + 1;
      return ptyGeneration;
    }
  }

  /** The part of the event loop that owns the application, the session and the retry flag. */
  class EventLoop {
    const app: App
    var session: PtyHandle
    var restartCanRetry: bool

    ghost predicate Valid()
      reads this, app, app.ptyStore
    {
      app.Valid()
    }

    ghost function Model(): Runtime
      reads this, app, app.ptyStore, app.ptyHandle
    {
      Runtime(app.Model(), restartCanRetry)
    }

    /** Startup: the first child is attached as generation 0. */
    constructor ()
      ensures Valid() && fresh(app) && fresh(app.ptyStore) && fresh(app.ptyHandle) && app.ptyHandle == session
      ensures Model() == Runtime(S.AttachPty(INITIAL, NEW_CHILD), false)
    {
      app := new App();
      session := new PtyHandle();
      restartCanRetry := false;
      new;
      app.AttachPty(session);
    }

    /** `respawn_pty`: the old writer is closed only after the application let go of it. */
    method RespawnPty(spawned: bool)
      requires Valid()
      modifies this, app, app.ptyStore, session
      ensures Valid() && app.Model() == Respawn(old(app.Model()), spawned)
      ensures restartCanRetry == old(restartCanRetry)
      ensures spawned ==> fresh(session) && app.ptyHandle == session
      ensures !spawned ==> app.ptyHandle == null && session == old(session)
      ensures !old(session).open
    {
      var _ := app.NextPtyGeneration();
      app.DetachPty();
      session.CloseWriter();
      if spawned {
        var newSession := new PtyHandle();
        app.AttachPty(newSession);
        session := newSession;
      } else {
        app.DispatchPty(SpawnFailed);
      }
    }

    method OnPtyOutputEvent(cursorHidden: bool, cursorRow: nat)
      requires Valid()
      modifies this, app.ptyStore, app.ptyHandle
      ensures Valid() && Model() == OnOutputEvent(old(Model()), cursorHidden, cursorRow)
    {
      var becameReady := app.OnPtyOutput(cursorHidden, cursorRow);
      if becameReady {
        restartCanRetry := false;
      }
    }

    method OnShutdown()
      requires Valid()
      modifies app
      ensures Valid() && app.shouldQuit
      ensures Model() == old(Model()).(app := old(app.Model()).(quit := true))
    {
      app.shouldQuit := true;
    }

    method OnProcessExit(generation: nat, spawned: bool)
      requires Valid()
      modifies this, app, app.ptyStore, session
      ensures Valid() && Model() == S.OnProcessExit(old(Model()), generation, spawned)
      ensures !restartCanRetry
      ensures app.shouldQuit <==>
        old(app.shouldQuit) ||
        (generation == old(app.ptyGeneration) && !old(app.ptyStore.state).Restarting? &&
         (old(app.ptyStore.state).Ready? || generation == 0))
      ensures generation != old(app.ptyGeneration) || old(app.ptyStore.state).Restarting? ==>
        app.Model() == old(app.Model())
    {
      var canRetry := restartCanRetry;
      restartCanRetry := false;
      if generation != app.ptyGeneration {
      } else if app.ptyStore.state.Restarting? {
      } else if app.ptyGeneration > 0 && !app.ptyStore.state.Ready? {
        if canRetry {
          RespawnPty(spawned);
        } else {
          app.DispatchPty(SpawnFailed);
        }
      } else {
        app.shouldQuit := true;
      }
    }

    method OnRestart(spawned: bool)
      requires Valid()
      modifies this, app, app.ptyStore, session
      ensures Valid() && Model() == S.OnRestart(old(Model()), spawned)
      ensures restartCanRetry == spawned && app.ptyGeneration == old(app.ptyGeneration) + 1
      ensures app.ptyStore.state == if spawned then Attached([]) else Pending([])
    {
      restartCanRetry := true;
      RespawnPty(spawned);
      if !app.ptyStore.state.Attached? {
        restartCanRetry := false;
      }
    }
  }
}
