/** The PTY lifecycle on values: the actor's transition function, the byte filter in front of the
    child, and what each operation of the application does to them
    (src/ui/pty, src/pty/handle.rs, src/ui/app.rs, src/ui/runtime.rs). */
module PtySpec {
  import opened Common

  // ---- The lifecycle actor ----

  datatype Lifecycle =
    | Pending(buffer: seq<seq<byte>>)
    | Attached(buffer: seq<seq<byte>>)
    | Ready
    | Restarting

  datatype Intent = Attach | GotOutput | BufferInput(bytes: seq<byte>) | Detach | SpawnFailed

  datatype SideEffect = FlushBuffer(buffer: seq<seq<byte>>)

  function After(state: Lifecycle, intent: Intent): Lifecycle {
    match intent
    case Attach =>
      (match state
       case Pending(buffer) => Attached(buffer)
       case Restarting => Attached([])
       case Attached(_) | Ready => state)
    case GotOutput => if state.Attached? then Ready else state
    case BufferInput(bytes) =>
      (match state
       case Pending(buffer) => Pending(buffer + [bytes])
       case Attached(buffer) => Attached(buffer + [bytes])
       case Ready | Restarting => state)
    case Detach => Restarting
    case SpawnFailed => if state.Restarting? then Pending([]) else state
  }

  function Effects(state: Lifecycle, intent: Intent): seq<SideEffect> {
    if intent.GotOutput? && state.Attached? && state.buffer != [] then [FlushBuffer(state.buffer)] else []
  }

  function Buffered(state: Lifecycle): seq<seq<byte>> {
    if state.Pending? || state.Attached? then state.buffer else []
  }

  // ---- The byte filter ----

  predicate IsHotkey(b: byte) { b == 0x02 || b == 0x05 || b == 0x13 || b == 0x11 }

  function Filtered(bytes: seq<byte>): seq<byte> {
    if bytes == [] then []
    else Filtered(bytes[..|bytes| - 1]) + if IsHotkey(bytes[|bytes| - 1]) then [] else [bytes[|bytes| - 1]]
  }

  lemma {:induction false} FilteredConcat(first: seq<byte>, second: seq<byte>)
    ensures Filtered(first + second) == Filtered(first) + Filtered(second)
  {
    if second == [] {
      assert first + second == first;
    } else {
      var init := second[..|second| - 1];
      FilteredConcat(first, init);
      assert (first + second)[..|first + second| - 1] == first + init;
    }
  }

  /** The filter drops exactly the four hotkey bytes; with FilteredConcat this is what it does to any text. */
  lemma HotkeysAreDropped(b: byte)
    ensures Filtered([b]) == if b == 0x02 || b == 0x05 || b == 0x11 || b == 0x13 then [] else [b]
  {
    assert [b][..0] == [];
  }

  lemma {:induction false} FilteredUnchanged(bytes: seq<byte>)
    ensures |Filtered(bytes)| <= |bytes|
    ensures Filtered(bytes) == bytes <==> forall i :: 0 <= i < |bytes| ==> !IsHotkey(bytes[i])
  {
    if bytes != [] {
      FilteredUnchanged(bytes[..|bytes| - 1]);
    }
  }

  // ---- The application ----

  /** A spawned child: everything written to it, and whether its writer is still open. */
  datatype Child = Child(written: seq<byte>, open: bool)

  const NEW_CHILD := Child([], true)

  datatype AppState = AppState(lifecycle: Lifecycle, child: Option<Child>, generation: nat, quit: bool)

  const INITIAL := AppState(Pending([]), None, 0, false)

  function Deliver(child: Child, bytes: seq<byte>): Child {
    if child.open then child.(written := child.written + Filtered(bytes)) else child
  }

  function DeliverAll(child: Child, chunks: seq<seq<byte>>): Child {
    if chunks == [] then child
    else Deliver(DeliverAll(child, chunks[..|chunks| - 1]), chunks[|chunks| - 1])
  }

  lemma {:induction false} DeliveredInOrder(child: Child, chunks: seq<seq<byte>>)
    ensures DeliverAll(child, chunks) == Deliver(child, Flatten(chunks))
  {
    if chunks == [] {
      assert child.written + [] == child.written;
    } else {
      var init, last := chunks[..|chunks| - 1], chunks[|chunks| - 1];
      DeliveredInOrder(child, init);
      FilteredConcat(Flatten(init), last);
      assert child.written + Filtered(Flatten(init)) + Filtered(last) ==
             child.written + (Filtered(Flatten(init)) + Filtered(last));
    }
  }

  function Dispatched(a: AppState, intent: Intent): AppState { a.(lifecycle := After(a.lifecycle, intent)) }

  function SendInput(a: AppState, bytes: seq<byte>): AppState {
    if a.lifecycle.Ready? then
      match a.child case Some(child) => a.(child := Some(Deliver(child, bytes))) case None => a
    else Dispatched(a, BufferInput(bytes))
  }

  function AttachPty(a: AppState, child: Child): AppState { Dispatched(a.(child := Some(child)), Attach) }

  function DetachPty(a: AppState): AppState { Dispatched(a.(child := None), Detach) }

  /** The emulator shows a hidden cursor below the first row. */
  predicate SeesReady(a: AppState, cursorHidden: bool, cursorRow: nat) {
    !a.lifecycle.Ready? && a.child.Some? && cursorHidden && cursorRow != 0
  }

  function OnPtyOutput(a: AppState, cursorHidden: bool, cursorRow: nat): AppState {
    if SeesReady(a, cursorHidden, cursorRow)
    then Dispatched(a.(child := Some(DeliverAll(a.child.value,
           if a.lifecycle.Attached? then a.lifecycle.buffer else []))), GotOutput)
    else a
  }

  /** Ctrl+R or applied settings: detach at once, undone to Pending when the command cannot be sent. */
  function RequestRestart(a: AppState, commandSent: bool): AppState {
    var detached := Dispatched(a, Detach);
    if commandSent then detached else Dispatched(detached, SpawnFailed)
  }

  /** `respawn_pty`: a new generation, then detach, then the new child or a failed spawn. */
  function Respawn(a: AppState, spawned: bool): AppState {
    var detached := DetachPty(a.(generation := a.generation + 1));
    if spawned then AttachPty(detached, NEW_CHILD) else Dispatched(detached, SpawnFailed)
  }

  // ---- The event loop ----

  datatype Runtime = Runtime(app: AppState, canRetry: bool)

  /** What the loop does with the exit of an instance. */
  datatype Reaction = Stale | Ignored | Retry | ReportFailure | Quit

  function ReactionTo(r: Runtime, generation: nat): Reaction {
    if generation != r.app.generation then Stale
    else if r.app.lifecycle.Restarting? then Ignored
    else if r.app.generation > 0 && !r.app.lifecycle.Ready? then
      if r.canRetry then Retry else ReportFailure
    else Quit
  }

  function OnProcessExit(r: Runtime, generation: nat, spawned: bool): Runtime {
    match ReactionTo(r, generation)
    case Stale | Ignored => Runtime(r.app, false)
    case Retry => Runtime(Respawn(r.app, spawned), false)
    case ReportFailure => Runtime(Dispatched(r.app, SpawnFailed), false)
    case Quit => Runtime(r.app.(quit := true), false)
  }

  /** RestartClaude and PtyRestart: a retry stays possible only when the new child is attached. */
  function OnRestart(r: Runtime, spawned: bool): Runtime {
    Runtime(Respawn(r.app, spawned), Respawn(r.app, spawned).lifecycle.Attached?)
  }

  function OnOutputEvent(r: Runtime, cursorHidden: bool, cursorRow: nat): Runtime {
    Runtime(OnPtyOutput(r.app, cursorHidden, cursorRow),
            r.canRetry && !SeesReady(r.app, cursorHidden, cursorRow))
  }
}
