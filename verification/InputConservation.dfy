/** Input conservation: over any run of application operations nothing typed is lost, duplicated or
    reordered on its way through Pending, Attached and Ready. */
module InputConservation {
  import opened Common
  import opened PtySpec

  datatype Operation =
    | Input(bytes: seq<byte>)
    | StartupAttach
    | Output(cursorHidden: bool, cursorRow: nat)
    | RestartRequest(commandSent: bool)
    | RestartHandled(spawned: bool)
    | FailureReport

  /** The state with what was accepted and what was written since the last Detach. */
  datatype Ledger = Ledger(app: AppState, accepted: seq<byte>, written: seq<byte>)

  const START := Ledger(INITIAL, [], [])

  function WrittenTo(a: AppState): seq<byte> {
    match a.child case Some(child) => child.written case None => []
  }

  /** What an operation that keeps the child appended to what the child received. */
  function Appended(before: AppState, after: AppState): seq<byte> {
    if |WrittenTo(before)| <= |WrittenTo(after)| then WrittenTo(after)[|WrittenTo(before)|..] else []
  }

  function Perform(a: AppState, operation: Operation): AppState {
    match operation
    case Input(bytes) => SendInput(a, bytes)
    case StartupAttach => AttachPty(a, NEW_CHILD)
    case Output(cursorHidden, cursorRow) => OnPtyOutput(a, cursorHidden, cursorRow)
    case RestartRequest(commandSent) => RequestRestart(a, commandSent)
    case RestartHandled(spawned) => Respawn(a, spawned)
    case FailureReport => Dispatched(a, SpawnFailed)
  }

  /** Input is accepted in every state but Restarting; a detaching operation starts the books afresh. */
  function Post(l: Ledger, operation: Operation): Ledger {
    var app := Perform(l.app, operation);
    match operation
    case Input(bytes) =>
      Ledger(app, if l.app.lifecycle.Restarting? then l.accepted else l.accepted + bytes,
             l.written + Appended(l.app, app))
    case Output(_, _) => Ledger(app, l.accepted, l.written + Appended(l.app, app))
    case StartupAttach | FailureReport => l.(app := app)
    case RestartRequest(_) | RestartHandled(_) => Ledger(app, [], [])
  }

  function PostAll(l: Ledger, operations: seq<Operation>): Ledger {
    if operations == [] then l
    else Post(PostAll(l, operations[..|operations| - 1]), operations[|operations| - 1])
  }

  ghost predicate Balanced(l: Ledger) {
    && (l.app.child.Some? ==> l.app.child.value.open)
    && (l.app.lifecycle.Attached? || l.app.lifecycle.Ready? ==> l.app.child.Some?)
    && (l.app.lifecycle.Restarting? ==> l.accepted == [] && l.written == [])
    && l.written + Filtered(Flatten(Buffered(l.app.lifecycle))) == Filtered(l.accepted)
  }

  lemma AppendedIsDelivered(a: AppState, a': AppState, bytes: seq<byte>)
    requires a.child.Some? && a.child.value.open && a'.child == Some(Deliver(a.child.value, bytes))
    ensures Appended(a, a') == Filtered(bytes)
  {
  }

  lemma NothingAppended(a: AppState, a': AppState)
    requires a.child == a'.child
    ensures Appended(a, a') == []
  {
  }

  lemma DirectInputIsBalanced(l: Ledger, bytes: seq<byte>)
    requires Balanced(l) && l.app.lifecycle.Ready?
    ensures Balanced(Post(l, Input(bytes)))
  {
    FilteredConcat(l.accepted, bytes);
    var l' := Post(l, Input(bytes));
    AppendedIsDelivered(l.app, l'.app, bytes);
    NothingBuffered();
    assert l.written + [] == l.written && l'.written + [] == l'.written;
  }

  lemma NothingBuffered()
    ensures Filtered(Flatten([])) == []
  {
  }

  lemma BufferedInputIsBalanced(l: Ledger, bytes: seq<byte>)
    requires Balanced(l) && (l.app.lifecycle.Pending? || l.app.lifecycle.Attached?)
    ensures Balanced(Post(l, Input(bytes)))
  {
    hide Filtered, Flatten;
    var buffer := l.app.lifecycle.buffer;
    FilteredConcat(l.accepted, bytes);
    NothingAppended(l.app, Post(l, Input(bytes)).app);
    FlattenSnoc(buffer, bytes);
    FilteredConcat(Flatten(buffer), bytes);
    calc {
      l.written + [] + Filtered(Flatten(buffer + [bytes]));
      { assert l.written + [] == l.written; }
      l.written + (Filtered(Flatten(buffer)) + Filtered(bytes));
      { assert l.written + (Filtered(Flatten(buffer)) + Filtered(bytes)) ==
               (l.written + Filtered(Flatten(buffer))) + Filtered(bytes); }
      Filtered(l.accepted) + Filtered(bytes);
    }
  }

  lemma InputIsBalanced(l: Ledger, bytes: seq<byte>)
    requires Balanced(l)
    ensures Balanced(Post(l, Input(bytes)))
  {
    hide Filtered, Flatten;
    match l.app.lifecycle
    case Ready => DirectInputIsBalanced(l, bytes);
    case Pending(_) | Attached(_) => BufferedInputIsBalanced(l, bytes);
    case Restarting => NothingAppended(l.app, Post(l, Input(bytes)).app);
  }

  lemma OutputIsBalanced(l: Ledger, cursorHidden: bool, cursorRow: nat)
    requires Balanced(l)
    ensures Balanced(Post(l, Output(cursorHidden, cursorRow)))
  {
    var l' := Post(l, Output(cursorHidden, cursorRow));
    assert Flatten<byte>([]) == [] && Filtered([]) == [];
    assert l.written + [] == l.written;
    if SeesReady(l.app, cursorHidden, cursorRow) {
      var chunks := if l.app.lifecycle.Attached? then l.app.lifecycle.buffer else [];
      DeliveredInOrder(l.app.child.value, chunks);
      AppendedIsDelivered(l.app, l'.app, Flatten(chunks));
    } else {
      NothingAppended(l.app, l'.app);
    }
  }

  lemma OperationIsBalanced(l: Ledger, operation: Operation)
    requires Balanced(l)
    ensures Balanced(Post(l, operation))
  {
    hide Filtered, Flatten;
    match operation
    case Input(bytes) => InputIsBalanced(l, bytes);
    case Output(cursorHidden, cursorRow) => OutputIsBalanced(l, cursorHidden, cursorRow);
    case StartupAttach | FailureReport | RestartRequest(_) | RestartHandled(_) => EmptyIsBalanced();
  }

  lemma EmptyIsBalanced()
    ensures [] + Filtered(Flatten([])) == Filtered([])
  {
  }

  /** Main result: in every run, the bytes written to the child since the last Detach followed by the
      filtered buffer are the filtered input accepted since then; Attached and Ready always have a
      child with an open writer. */
  lemma {:induction false} InputIsConserved(operations: seq<Operation>)
    ensures Balanced(PostAll(START, operations))
  {
    hide Post, Balanced;
    if operations == [] {
      StartIsBalanced();
    } else {
      InputIsConserved(operations[..|operations| - 1]);
      OperationIsBalanced(PostAll(START, operations[..|operations| - 1]), operations[|operations| - 1]);
    }
  }

  lemma StartIsBalanced()
    ensures Balanced(START)
  {
    EmptyIsBalanced();
  }

  /** At Ready nothing is left behind: the child has received all accepted input. */
  lemma ReadyHasEverything(operations: seq<Operation>)
    requires PostAll(START, operations).app.lifecycle.Ready?
    ensures PostAll(START, operations).written == Filtered(PostAll(START, operations).accepted)
  {
    InputIsConserved(operations);
    var l := PostAll(START, operations);
    assert Flatten<byte>([]) == [] && Filtered([]) == [];
    assert l.written + [] == l.written;
  }

  /** The books really are about one child: from one Detach on, and with no other attach, what was
      written is what the child holds. */
  lemma {:induction false} WrittenIsWhatTheChildHolds(spawned: bool, l: Ledger, operations: seq<Operation>)
    requires forall i :: 0 <= i < |operations| ==>
      operations[i].Input? || operations[i].Output? || operations[i].FailureReport?
    ensures PostAll(Post(l, RestartHandled(spawned)), operations).written ==
            WrittenTo(PostAll(Post(l, RestartHandled(spawned)), operations).app)
  {
    hide Post;
    if operations == [] {
      FreshChildHoldsNothing(spawned, l);
    } else {
      var init := operations[..|operations| - 1];
      WrittenIsWhatTheChildHolds(spawned, l, init);
      StepKeepsHoldings(PostAll(Post(l, RestartHandled(spawned)), init), operations[|operations| - 1]);
    }
  }

  lemma FreshChildHoldsNothing(spawned: bool, l: Ledger)
    ensures Post(l, RestartHandled(spawned)).written == WrittenTo(Post(l, RestartHandled(spawned)).app)
  {
  }

  lemma StepKeepsHoldings(l: Ledger, operation: Operation)
    requires l.written == WrittenTo(l.app)
    requires operation.Input? || operation.Output? || operation.FailureReport?
    ensures Post(l, operation).written == WrittenTo(Post(l, operation).app)
  {
    if operation.Output? && SeesReady(l.app, operation.cursorHidden, operation.cursorRow) {
      DeliveredInOrder(l.app.child.value, if l.app.lifecycle.Attached? then l.app.lifecycle.buffer else []);
    }
    assert WrittenTo(l.app) <= WrittenTo(Post(l, operation).app);
  }

  // ---- The report that the child became ready ----

  /** `on_pty_output` is documented to return true when the lifecycle just became Ready. It does so
      whenever a child shows a hidden cursor below the first row; the report is right exactly when the
      lifecycle was Attached, and wrong in Pending and Restarting. */
  lemma ReadyReportIsRightIffAttached(a: AppState, cursorHidden: bool, cursorRow: nat)
    requires SeesReady(a, cursorHidden, cursorRow)
    ensures OnPtyOutput(a, cursorHidden, cursorRow).lifecycle.Ready? <==> a.lifecycle.Attached?
  {
  }

  /** A run in which the report is wrong: a restart request that could not be sent leaves the old
      child in place and the lifecycle Pending. */
  lemma WrongReadyReport(cursorRow: nat)
    requires cursorRow != 0
    ensures var a := PostAll(START, [StartupAttach, RestartRequest(false)]).app;
      SeesReady(a, true, cursorRow) && OnPtyOutput(a, true, cursorRow).lifecycle == Pending([])
  {
    assert [StartupAttach, RestartRequest(false)][..1] == [StartupAttach];
    assert [StartupAttach][..0] == [];
  }

  /** The wrong report has a lasting side: from a restart request on, sent or not, and until an instance
      is attached, the lifecycle stays out of Attached and Ready, the old child receives nothing more,
      and every readiness report is wrong. When the request was not sent and no further one is, the
      input typed meanwhile is all in the buffer. */
  lemma {:induction false} NothingDeliveredUntilRestarted(l: Ledger, sent: bool, operations: seq<Operation>)
    requires forall i :: 0 <= i < |operations| ==> !operations[i].StartupAttach? && !operations[i].RestartHandled?
    ensures var l' := PostAll(Post(l, RestartRequest(sent)), operations);
      && (l'.app.lifecycle.Pending? || l'.app.lifecycle.Restarting?)
      && l'.app.child == l.app.child && l'.written == []
      && (forall hidden, row :: SeesReady(l'.app, hidden, row) ==> !OnPtyOutput(l'.app, hidden, row).lifecycle.Ready?)
      && (!sent && (forall i :: 0 <= i < |operations| ==> !operations[i].RestartRequest?) ==>
            l'.app.lifecycle.Pending? && Flatten(l'.app.lifecycle.buffer) == l'.accepted)
  {
    hide Post;
    if operations == [] {
      RequestEmptiesBooks(l, sent);
    } else {
      var init, last := operations[..|operations| - 1], operations[|operations| - 1];
      NothingDeliveredUntilRestarted(l, sent, init);
      DetachedStep(PostAll(Post(l, RestartRequest(sent)), init), last);
    }
  }

  lemma RequestEmptiesBooks(l: Ledger, sent: bool)
    ensures var l' := Post(l, RestartRequest(sent));
      && l'.app.lifecycle == (if sent then Restarting else Pending([]))
      && l'.app.child == l.app.child && l'.written == l'.accepted == Flatten<byte>([])
  {
  }

  lemma DetachedStep(l: Ledger, operation: Operation)
    requires l.app.lifecycle.Pending? || l.app.lifecycle.Restarting?
    requires l.written == [] && !operation.StartupAttach? && !operation.RestartHandled?
    ensures var l' := Post(l, operation);
      && (l'.app.lifecycle.Pending? || l'.app.lifecycle.Restarting?)
      && l'.app.child == l.app.child && l'.written == []
      && (l.app.lifecycle.Pending? && Flatten(l.app.lifecycle.buffer) == l.accepted && !operation.RestartRequest? ==>
            l'.app.lifecycle.Pending? && Flatten(l'.app.lifecycle.buffer) == l'.accepted)
  {
    var l' := Post(l, operation);
    if l.app.lifecycle.Pending? && operation.Input? {
      FlattenSnoc(l.app.lifecycle.buffer, operation.bytes);
    }
    if l'.app.child == l.app.child {
      NothingAppended(l.app, l'.app);
    }
  }

  // ---- The lifecycle by history ----

  predicate Detaches(operation: Operation) { operation.RestartRequest? || operation.RestartHandled? }

  predicate Attaches(operation: Operation) {
    operation.StartupAttach? || (operation.RestartHandled? && operation.spawned)
  }

  /** An output event at which the emulator shows a hidden cursor below the first row. */
  predicate ShowsFrame(operation: Operation) {
    operation.Output? && operation.cursorHidden && operation.cursorRow != 0
  }

  /** Operation `i` attached a child, and nothing detached it since. */
  predicate UpFrom(operations: seq<Operation>, i: nat) {
    i < |operations| && Attaches(operations[i]) && forall k :: i < k < |operations| ==> !Detaches(operations[k])
  }

  predicate IsUp(operations: seq<Operation>) { exists i :: 0 <= i < |operations| && UpFrom(operations, i) }

  /** A frame was shown since. */
  predicate HasShownFrame(operations: seq<Operation>) {
    exists i, j :: 0 <= i < j < |operations| && UpFrom(operations, i) && ShowsFrame(operations[j])
  }

  /** A restart request was sent, and neither handled nor given up since. */
  predicate AwaitsRestart(operations: seq<Operation>) {
    exists i :: 0 <= i < |operations| && operations[i] == RestartRequest(true) &&
      forall k :: i < k < |operations| ==>
        !Detaches(operations[k]) && !operations[k].StartupAttach? && !operations[k].FailureReport?
  }

  lemma IsUpStep(operations: seq<Operation>)
    requires operations != []
    ensures var init, last := operations[..|operations| - 1], operations[|operations| - 1];
      && (IsUp(operations) <==> Attaches(last) || (IsUp(init) && !Detaches(last)))
      && (HasShownFrame(operations) <==>
          (HasShownFrame(init) && !Detaches(last)) || (IsUp(init) && ShowsFrame(last)))
  {
    hide Attaches, Detaches, ShowsFrame;
    var n, init, last := |operations| - 1, operations[..|operations| - 1], operations[|operations| - 1];
    forall i | 0 <= i < n ensures UpFrom(operations, i) <==> UpFrom(init, i) && !Detaches(last) {
      assert operations[n] == last;
    }
    FramesDetachNothing(last);
    if Attaches(last) {
      assert UpFrom(operations, n);
    }
    if IsUp(init) && ShowsFrame(last) {
      var i :| 0 <= i < |init| && UpFrom(init, i);
      assert UpFrom(operations, i) && ShowsFrame(operations[n]);
    }
    if HasShownFrame(init) && !Detaches(last) {
      var i, j :| 0 <= i < j < |init| && UpFrom(init, i) && ShowsFrame(init[j]);
      assert UpFrom(operations, i) && ShowsFrame(operations[j]);
    }
  }

  lemma FramesDetachNothing(operation: Operation)
    ensures ShowsFrame(operation) ==> !Detaches(operation) && !Attaches(operation)
  {
  }

  lemma AwaitsStep(operations: seq<Operation>)
    requires operations != []
    ensures var init, last := operations[..|operations| - 1], operations[|operations| - 1];
      AwaitsRestart(operations) <==>
        last == RestartRequest(true) ||
        (AwaitsRestart(init) && !Detaches(last) && !last.StartupAttach? && !last.FailureReport?)
  {
    var n, init, last := |operations| - 1, operations[..|operations| - 1], operations[|operations| - 1];
    if last == RestartRequest(true) {
      assert operations[n] == RestartRequest(true);
    }
    if i :| 0 <= i < |init| && init[i] == RestartRequest(true) && forall k :: i < k < |init| ==>
         !Detaches(init[k]) && !init[k].StartupAttach? && !init[k].FailureReport? {
      assert operations[i] == RestartRequest(true);
    }
  }

  lemma LifecycleStep(l: Ledger, operation: Operation)
    requires Balanced(l)
    ensures var before, after := l.app.lifecycle, Post(l, operation).app.lifecycle;
      var up := before.Attached? || before.Ready?;
      && (after.Attached? || after.Ready? <==> Attaches(operation) || (up && !Detaches(operation)))
      && (after.Ready? <==> (before.Ready? && !Detaches(operation)) || (up && ShowsFrame(operation)))
      && (after.Restarting? <==>
          operation == RestartRequest(true) ||
          (before.Restarting? && !Detaches(operation) && !operation.StartupAttach? && !operation.FailureReport?))
  {
    hide DeliverAll, Filtered, Flatten, Deliver;
  }

  /** In every run the lifecycle is what the history says: Ready exactly when the child attached last has
      shown a frame, Attached exactly when it has not, Restarting exactly while a sent request waits. */
  lemma {:induction false} LifecycleByHistory(operations: seq<Operation>)
    ensures var lifecycle := PostAll(START, operations).app.lifecycle;
      && (lifecycle.Ready? <==> HasShownFrame(operations))
      && (lifecycle.Attached? || lifecycle.Ready? <==> IsUp(operations))
      && (lifecycle.Restarting? <==> AwaitsRestart(operations))
  {
    hide Post, Balanced, IsUp, HasShownFrame, AwaitsRestart, Attaches, Detaches, ShowsFrame;
    if operations == [] {
      NothingHappened();
    } else {
      var init := operations[..|operations| - 1];
      LifecycleByHistory(init);
      InputIsConserved(init);
      LifecycleStep(PostAll(START, init), operations[|operations| - 1]);
      IsUpStep(operations);
      AwaitsStep(operations);
    }
  }

  lemma NothingHappened()
    ensures !IsUp([]) && !HasShownFrame([]) && !AwaitsRestart([])
  {
  }
}
