/** ShutdownHandle::wait and ::signal under every interleaving of any number of waiters and
    signallers. Each shared access is one step: the flag is swapped or loaded atomically, enabling a
    notification registers it, and notify_waiters wakes exactly the registered ones (src/shutdown.rs). */
module Shutdown {
  /** Program points of `wait`: before enabling the notification, between enabling and the check,
      awaiting, and returned. */
  datatype WaiterPoint = Starting | Enabled | Parked | Returned

  datatype Waiter = Waiter(at: WaiterPoint, notified: bool)

  /** Program points of `signal`: before the swap, between a winning swap and notify_waiters, done. */
  datatype Signaller = Idle | WonSwap | Done

  /** `announced` records that the winner has run notify_waiters. */
  datatype System = System(flag: bool, waiters: seq<Waiter>, signallers: seq<Signaller>, announced: bool)

  const START := System(false, [], [], false)

  datatype Action = NewWaiter | NewSignaller | WaiterSteps(w: nat) | SignallerSteps(k: nat)

  function StepWaiter(flag: bool, waiter: Waiter): Waiter {
    match waiter.at
    case Starting => Waiter(Enabled, false)
    case Enabled => if flag then waiter.(at := Returned) else waiter.(at := Parked)
    case Parked => if waiter.notified then waiter.(at := Returned) else waiter
    case Returned => waiter
  }

  function Woken(waiter: Waiter): Waiter {
    if waiter.at == Enabled || waiter.at == Parked then waiter.(notified := true) else waiter
  }

  function WakeAll(waiters: seq<Waiter>): seq<Waiter> {
    seq(|waiters|, i requires 0 <= i < |waiters| => Woken(waiters[i]))
  }

  /** A step of a thread that does not exist or is finished changes nothing. */
  function Exec(s: System, action: Action): System {
    match action
    case NewWaiter => s.(waiters := s.waiters + [Waiter(Starting, false)])
    case NewSignaller => s.(signallers := s.signallers + [Idle])
    case WaiterSteps(w) =>
      if w < |s.waiters| then s.(waiters := s.waiters[w := StepWaiter(s.flag, s.waiters[w])]) else s
    case SignallerSteps(k) =>
      if k >= |s.signallers| then s
      else match s.signallers[k]
        case Idle => s.(flag := true, signallers := s.signallers[k := if s.flag then Done else WonSwap])
        case WonSwap => s.(waiters := WakeAll(s.waiters), signallers := s.signallers[k := Done], announced := true)
        case Done => s
  }

  function ExecAll(s: System, actions: seq<Action>): System {
    if actions == [] then s else Exec(ExecAll(s, actions[..|actions| - 1]), actions[|actions| - 1])
  }

  // ---- The invariant ----

  ghost predicate AtMostOneWinner(s: System) {
    forall j, k :: 0 <= j < k < |s.signallers| ==> !(s.signallers[j].WonSwap? && s.signallers[k].WonSwap?)
  }

  /** The flag is up exactly when some signaller won the swap; the winner either still has to announce
      or has announced, and until then every thread that parked without a wake-up is still registered. */
  ghost predicate Inv(s: System) {
    && AtMostOneWinner(s)
    && (forall k :: 0 <= k < |s.signallers| && s.signallers[k].WonSwap? ==> s.flag && !s.announced)
    && (s.flag && !s.announced ==> exists k :: 0 <= k < |s.signallers| && s.signallers[k].WonSwap?)
    && (s.announced ==> s.flag)
    && (s.announced ==> forall w :: 0 <= w < |s.waiters| && s.waiters[w].at == Parked ==> s.waiters[w].notified)
    && (forall w :: 0 <= w < |s.waiters| && s.waiters[w].at == Returned ==> s.flag)
    && (forall w :: 0 <= w < |s.waiters| && s.waiters[w].notified ==> s.announced)
  }

  lemma SignallerKeepsInv(s: System, k: nat)
    requires Inv(s)
    ensures Inv(Exec(s, SignallerSteps(k)))
  {
    var s' := Exec(s, SignallerSteps(k));
    if k < |s.signallers| && s.signallers[k].Idle? {
      if !s.flag {
        assert s'.signallers[k].WonSwap?;
      } else if !s.announced {
        var j :| 0 <= j < |s.signallers| && s.signallers[j].WonSwap?;
        assert s'.signallers[j].WonSwap?;
      }
    }
  }

  lemma WaiterKeepsInv(s: System, w: nat)
    requires Inv(s)
    ensures Inv(Exec(s, WaiterSteps(w)))
  {
  }

  lemma NewThreadKeepsInv(s: System, action: Action)
    requires Inv(s) && (action.NewWaiter? || action.NewSignaller?)
    ensures Inv(Exec(s, action))
  {
    var s' := Exec(s, action);
    if s.flag && !s.announced {
      var k :| 0 <= k < |s.signallers| && s.signallers[k].WonSwap?;
      assert s'.signallers[k].WonSwap?;
    }
  }

  lemma {:induction false} RunsKeepInv(actions: seq<Action>)
    ensures Inv(ExecAll(START, actions))
  {
    if actions != [] {
      var before, action := ExecAll(START, actions[..|actions| - 1]), actions[|actions| - 1];
      RunsKeepInv(actions[..|actions| - 1]);
      match action
      case NewWaiter | NewSignaller => NewThreadKeepsInv(before, action);
      case WaiterSteps(w) => WaiterKeepsInv(before, w);
      case SignallerSteps(k) => SignallerKeepsInv(before, k);
    }
  }

  // ---- Main results ----

  /** No lost wake-up: in every interleaving, once the signaller that won the swap has run
      notify_waiters, no waiter is parked without its wake-up; each has returned, is woken, or has yet
      to check a flag that is already up. */
  lemma NoLostWakeup(actions: seq<Action>, w: nat)
    requires ExecAll(START, actions).announced && w < |ExecAll(START, actions).waiters|
    ensures var s := ExecAll(START, actions);
      s.flag && (s.waiters[w].at == Parked ==> s.waiters[w].notified)
  {
    RunsKeepInv(actions);
  }

  /** No wake-up out of nowhere: a waiter returns only after some signaller raised the flag. */
  lemma NoSpuriousReturn(actions: seq<Action>, w: nat)
    requires w < |ExecAll(START, actions).waiters| && ExecAll(START, actions).waiters[w].at == Returned
    ensures ExecAll(START, actions).flag
  {
    RunsKeepInv(actions);
  }

  /** Once the flag is up, it is announced or exactly one signaller is about to announce it. */
  lemma OneAnnouncer(actions: seq<Action>)
    ensures var s := ExecAll(START, actions);
      s.flag && !s.announced ==>
        exists k :: 0 <= k < |s.signallers| && s.signallers[k].WonSwap? &&
          forall j :: 0 <= j < |s.signallers| && s.signallers[j].WonSwap? ==> j == k
  {
    RunsKeepInv(actions);
    var s := ExecAll(START, actions);
    if s.flag && !s.announced {
      var k :| 0 <= k < |s.signallers| && s.signallers[k].WonSwap?;
      assert forall j :: 0 <= j < |s.signallers| && s.signallers[j].WonSwap? ==> j == k;
    }
  }

  /** Steps a waiter still needs once the shutdown is announced. */
  function StepsLeft(waiter: Waiter): nat {
    match waiter.at case Starting => 2 case Enabled => 1 case Parked => 1 case Returned => 0
  }

  /** How often waiter `w` is scheduled. */
  function Turns(actions: seq<Action>, w: nat): nat {
    if actions == [] then 0
    else Turns(actions[..|actions| - 1], w) + if actions[|actions| - 1] == WaiterSteps(w) then 1 else 0
  }

  lemma StepAfterAnnouncement(s: System, action: Action, w: nat)
    requires Inv(s) && s.announced && w < |s.waiters|
    ensures Inv(Exec(s, action)) && Exec(s, action).announced && w < |Exec(s, action).waiters|
    ensures StepsLeft(Exec(s, action).waiters[w]) <= StepsLeft(s.waiters[w])
    ensures action == WaiterSteps(w) && 0 < StepsLeft(s.waiters[w]) ==>
      StepsLeft(Exec(s, action).waiters[w]) < StepsLeft(s.waiters[w])
  {
    match action
    case NewWaiter | NewSignaller => NewThreadKeepsInv(s, action);
    case WaiterSteps(v) => WaiterKeepsInv(s, v);
    case SignallerSteps(k) => SignallerKeepsInv(s, k);
  }

  /** Every waiter gets through: after the announcement, whatever the other threads do, a waiter that
      is scheduled twice has returned. */
  lemma {:induction false} WaitersReturn(s: System, actions: seq<Action>, w: nat)
    requires Inv(s) && s.announced && w < |s.waiters|
    ensures Inv(ExecAll(s, actions)) && ExecAll(s, actions).announced && w < |ExecAll(s, actions).waiters|
    ensures StepsLeft(ExecAll(s, actions).waiters[w]) + Turns(actions, w) <= StepsLeft(s.waiters[w]) ||
            ExecAll(s, actions).waiters[w].at == Returned
    ensures 2 <= Turns(actions, w) ==> ExecAll(s, actions).waiters[w].at == Returned
  {
    if actions != [] {
      var init, last := actions[..|actions| - 1], actions[|actions| - 1];
      WaitersReturn(s, init, w);
      StepAfterAnnouncement(ExecAll(s, init), last, w);
    }
  }

  /** The same for whole runs: from any point of a run at which the shutdown is announced. */
  lemma ScheduledWaitersReturn(before: seq<Action>, after: seq<Action>, w: nat)
    requires ExecAll(START, before).announced && w < |ExecAll(START, before).waiters|
    ensures w < |ExecAll(ExecAll(START, before), after).waiters|
    ensures 2 <= Turns(after, w) ==> ExecAll(ExecAll(START, before), after).waiters[w].at == Returned
  {
    RunsKeepInv(before);
    WaitersReturn(ExecAll(START, before), after, w);
  }

  // ---- Signallers ----

  function SignalTurns(actions: seq<Action>, k: nat): nat {
    if actions == [] then 0
    else SignalTurns(actions[..|actions| - 1], k) + if actions[|actions| - 1] == SignallerSteps(k) then 1 else 0
  }

  function StepsTaken(signaller: Signaller): nat {
    match signaller case Idle => 0 case WonSwap => 1 case Done => 2
  }

  lemma {:induction false} SignallersAdvance(s: System, actions: seq<Action>, k: nat)
    requires k < |s.signallers|
    ensures var s' := ExecAll(s, actions);
      && k < |s'.signallers|
      && (s.flag ==> s'.flag)
      && (StepsTaken(s'.signallers[k]) > StepsTaken(s.signallers[k]) && s.signallers[k].Idle? ==> s'.flag)
      && (StepsTaken(s'.signallers[k]) == 2 ||
          StepsTaken(s'.signallers[k]) >= StepsTaken(s.signallers[k]) + SignalTurns(actions, k))
  {
    if actions != [] {
      SignallersAdvance(s, actions[..|actions| - 1], k);
    }
  }

  /** A signal gets through: a signaller that is scheduled twice is done and the flag is up; and once every
      signaller is done the shutdown is announced, so from then on every waiter returns. */
  lemma ScheduledSignallersAnnounce(before: seq<Action>, after: seq<Action>, k: nat)
    requires k < |ExecAll(START, before).signallers| && ExecAll(START, before).signallers[k].Idle?
    requires 2 <= SignalTurns(after, k)
    ensures var s := ExecAll(ExecAll(START, before), after);
      && k < |s.signallers| && s.signallers[k].Done? && s.flag
      && ((forall j :: 0 <= j < |s.signallers| ==> !s.signallers[j].WonSwap?) ==> s.announced)
  {
    SignallersAdvance(ExecAll(START, before), after, k);
    RunsConcat(before, after);
    RunsKeepInv(before + after);
  }

  lemma {:induction false} RunsConcat(before: seq<Action>, after: seq<Action>)
    ensures ExecAll(START, before + after) == ExecAll(ExecAll(START, before), after)
  {
    hide Exec;
    if after == [] {
      assert before + after == before;
    } else {
      RunsConcat(before, after[..|after| - 1]);
      assert (before + after)[..|before + after| - 1] == before + after[..|after| - 1];
    }
  }
}
