/**
 What the operations on a child handle answer and when they may take the child
 for dead, stated on the answers of the calls they make.
 */
module ChildOutcomes {
  import opened Wrappers
  import opened ChildLifecycle

  // ----- when an operation sees the child dead -----

  /** An enforcement resource the handle holds is broken. */
  predicate HealthFails(h: Handle, o: Outcomes) {
    || (h.monitor.Some? && !o.monitorHealthy)
    || (h.gateway.Some? && !o.gatewayHealthy)
    || (h.watchdog.Some? && !o.watchdogHealthy)
  }

  predicate TimedOut(h: Handle, o: Outcomes) {
    h.watchdog.Some? && o.watchdogFired
  }

  ghost predicate KillSees(h: Handle, o: Outcomes) {
    !h.childReaped && h.hasChild && DeathSeen(o.termination)
  }

  /** The poll of a healthy boundary answered an exit, or after a timeout the blocking wait did. */
  predicate PollSees(h: Handle, o: Outcomes) {
    h.hasChild && (o.poll.Exited? || (o.poll.Running? && TimedOut(h, o) && o.waited.Some?))
  }

  ghost predicate TryWaitSees(h: Handle, o: Outcomes) {
    if HealthFails(h, o) then KillSees(h, o) else PollSees(h, o)
  }

  /** A turn in which nothing happens. */
  predicate Quiet(h: Handle, o: Outcomes) {
    !HealthFails(h, o) && h.hasChild && o.poll.Running? && !TimedOut(h, o)
  }

  predicate Enforced(h: Handle) {
    h.watchdog.Some? || h.gateway.Some? || h.monitor.Some?
  }

  /** Turn `n` is the first that is not quiet. */
  predicate EndsAt(h: Handle, turns: seq<Outcomes>, n: nat) {
    n < |turns| && !Quiet(h, turns[n]) && forall i :: 0 <= i < n ==> Quiet(h, turns[i])
  }

  predicate AllQuiet(h: Handle, turns: seq<Outcomes>) {
    forall i :: 0 <= i < |turns| ==> Quiet(h, turns[i])
  }

  ghost predicate WaitSees(h: Handle, turns: seq<Outcomes>) {
    if Enforced(h) then exists n: nat :: EndsAt(h, turns, n) && TryWaitSees(h, turns[n])
    else turns != [] && h.hasChild && turns[0].waited.Some?
  }

  ghost predicate DropSees(h: Handle, o: Outcomes) {
    !h.recoveryAttempted && !h.childReaped && h.hasChild && (o.poll.Exited? || DeathSeen(o.termination))
  }

  /** The operation is told that the child is dead, by a call it makes. */
  ghost predicate Sees(s: System, op: Operation) {
    match (s, op)
    case (Live(h), TryWaitOp(o)) => TryWaitSees(h, o)
    case (Live(h), WaitOp(turns)) => WaitSees(h, turns)
    case (Live(h), KillOp(o)) => KillSees(h, o)
    case (Live(h), DropOp(o, _)) => DropSees(h, o)
    case (Gone(Recovering(h)), RecoverOp(o)) => KillSees(h, o)
    case _ => false
  }

  // ----- counting deaths -----

  function Deaths(trace: seq<Event>): (r: nat) {
    if trace == [] then 0 else Deaths(trace[..|trace| - 1]) + if trace[|trace| - 1].Reaped? then 1 else 0
  }

  lemma {:induction false} DeathsAppend(x: seq<Event>, y: seq<Event>)
    ensures Deaths(x + y) == Deaths(x) + Deaths(y)
    decreases |y|
  {
    if y == [] {
      assert x + y == x;
    } else {
      assert (x + y)[..|x + y| - 1] == x + y[..|y| - 1];
      DeathsAppend(x, y[..|y| - 1]);
    }
  }

  lemma {:induction false} DeathsConfirm(trace: seq<Event>)
    ensures Deaths(trace) > 0 <==> Confirmed(trace)
  {
    if trace != [] {
      var front := trace[..|trace| - 1];
      DeathsConfirm(front);
      if Confirmed(front) {
        ConfirmedGrows(front, trace);
      }
      if j :| 0 <= j < |trace| && trace[j].Reaped? {
        if j < |front| { assert front[j].Reaped?; }
      }
    }
  }

  predicate Deathless(events: seq<Event>) {
    forall i :: 0 <= i < |events| ==> !events[i].Reaped?
  }

  lemma NoteDeaths(h: Handle, events: seq<Event>)
    ensures Deathless(events) ==> Deaths(h.trace + events) == Deaths(h.trace)
    ensures Deaths(h.trace + [Reaped]) == Deaths(h.trace) + 1
  {
    DeathsAppend(h.trace, events);
    if Deathless(events) {
      DeathsConfirm(events);
    }
    assert (h.trace + [Reaped])[..|h.trace|] == h.trace;
  }

  lemma {:induction false} TargetsDeathless(targets: seq<Id>, ok: Id -> bool)
    ensures Deathless(CleanTargets(targets, ok).events)
  {
    if targets != [] {
      TargetsDeathless(targets[..|targets| - 1], ok);
    }
  }

  lemma WatchdogDeaths(h: Handle, shutdown: Option<bool>)
    ensures Deaths(FinishWatchdog(h, shutdown).0.trace) == Deaths(h.trace)
  {
    hide Deaths;
    if h.watchdog.Some? {
      NoteDeaths(h, [Released(h.watchdog.value)]);
    }
  }

  lemma CloseDeaths(h: Handle, c: Cleanup)
    ensures Deaths(CloseGateway(h, c.gatewayOk).trace) == Deaths(h.trace)
    ensures Deaths(CloseMonitor(h, c.monitorOk).trace) == Deaths(h.trace)
    ensures Deaths(CloseTargets(h, c.targetOk).trace) == Deaths(h.trace)
  {
    hide Deaths, CleanTargets;
    if h.gateway.Some? {
      NoteDeaths(h, [Released(h.gateway.value)]);
    }
    if h.monitor.Some? {
      NoteDeaths(h, [Released(h.monitor.value)]);
    }
    TargetsDeathless(h.targets, c.targetOk);
    NoteDeaths(h, CleanTargets(h.targets, c.targetOk).events);
  }

  lemma CleanupDeaths(h: Handle, c: Cleanup)
    ensures Deaths(CleanedUp(h, c).trace) == Deaths(h.trace)
  {
    hide Deaths, FinishWatchdog, CloseGateway, CloseMonitor, CloseTargets;
    var h1 := FinishWatchdog(h, c.watchdog).0;
    var h2 := CloseGateway(h1, c.gatewayOk);
    var h3 := CloseMonitor(h2, c.monitorOk);
    WatchdogDeaths(h, c.watchdog);
    CloseDeaths(h1, c);
    CloseDeaths(h2, c);
    CloseDeaths(h3.(statusChannel := false), c);
  }

  lemma ForgetDeaths(h: Handle)
    ensures Deaths(ForgetAll(h).trace) == Deaths(h.trace)
  {
    hide Deaths, ForgottenAll;
    ForgottenAllForgets(h);
    NoteDeaths(h, ForgottenAll(h));
  }

  lemma TerminateDeaths(h: Handle, o: Outcomes)
    ensures Deaths(TerminateBoundary(h, o.termination).0.trace) == Deaths(h.trace) + if KillSees(h, o) then 1 else 0
    ensures TerminateBoundary(h, o.termination).1.Pass? <==> h.childReaped || KillSees(h, o)
  {
    hide Deaths, Confirm, DeathSeen;
    ConfirmMeans(o.termination);
    NoteDeaths(h, []);
  }

  lemma FinishedDeaths(h: Handle, boundary: int, f: Finish)
    ensures Deaths(Finished(h, boundary, f).0.trace) == Deaths(h.trace) + 1
  {
    hide Deaths, CleanedUp, CleanupError, FinishWatchdog;
    NoteDeaths(h, []);
    var r := Reap(h);
    var (h1, fired) := FinishWatchdog(r, f.watchdog);
    WatchdogDeaths(r, f.watchdog);
    var h2 := if fired.Success? && !fired.value then CommandStatus(h1, boundary, f.frame).0 else h1;
    CleanupDeaths(h2, f.cleanup);
  }

  lemma KillDeaths(h: Handle, o: Outcomes)
    ensures Deaths(Kill(h, o).0.trace) == Deaths(h.trace) + if KillSees(h, o) then 1 else 0
    ensures Deaths(BoundaryFailure(h, o).trace) == Deaths(h.trace) + if KillSees(h, o) then 1 else 0
  {
    hide Deaths, CleanedUp, CleanupOutcome, KillSees, TerminateBoundary;
    TerminateDeaths(h, o);
    CleanupDeaths(TerminateBoundary(h, o.termination).0, o.cleanup);
  }

  lemma FinishedAnswers(h: Handle, boundary: int, f: Finish)
    ensures Finished(h, boundary, f).1 != Success(None)
  {
    hide FinishStatus;
  }

  lemma TryWaitDeaths(h: Handle, o: Outcomes)
    ensures Deaths(TryWait(h, o).0.trace) == Deaths(h.trace) + if TryWaitSees(h, o) then 1 else 0
    ensures TryWait(h, o).1 == Success(None) <==> Quiet(h, o)
    ensures Quiet(h, o) ==> TryWait(h, o).0 == h
  {
    hide Deaths, BoundaryFailure, Finished, KillSees;
    if HealthFails(h, o) {
      KillDeaths(h, o);
    } else if o.poll.Exited? {
      FinishedDeaths(h, o.poll.status, o.finish);
      FinishedAnswers(h, o.poll.status, o.finish);
    } else if o.waited.Some? {
      FinishedDeaths(h, o.waited.value, o.finish);
      FinishedAnswers(h, o.waited.value, o.finish);
    }
  }

  /** A wait that polls is decided by its first turn that is not quiet. */
  lemma {:induction false} PollingDecides(h: Handle, turns: seq<Outcomes>)
    ensures AllQuiet(h, turns) ==> WaitPolling(h, turns) == (h, Success(None))
    ensures forall n: nat :: EndsAt(h, turns, n) ==> WaitPolling(h, turns) == TryWait(h, turns[n])
    ensures AllQuiet(h, turns) || exists n: nat :: EndsAt(h, turns, n)
    decreases |turns|
  {
    hide TryWait, Quiet;
    if turns != [] {
      TryWaitDeaths(h, turns[0]);
      var rest := turns[1..];
      assert turns == [turns[0]] + rest;
      if Quiet(h, turns[0]) {
        PollingDecides(h, rest);
        forall n: nat | EndsAt(h, turns, n) ensures WaitPolling(h, turns) == TryWait(h, turns[n]) {
          assert forall i :: 0 <= i < |rest| ==> rest[i] == turns[i + 1];
          assert EndsAt(h, rest, n - 1);
        }
        if n: nat :| EndsAt(h, rest, n) {
          assert EndsAt(h, turns, n + 1);
        }
      } else {
        assert EndsAt(h, turns, 0);
      }
    }
  }

  lemma WaitDeaths(h: Handle, turns: seq<Outcomes>)
    ensures Deaths(Wait(h, turns).0.trace) == Deaths(h.trace) + if WaitSees(h, turns) then 1 else 0
  {
    hide Deaths, WaitPolling, Finished, TryWait, TryWaitSees, Quiet;
    PollingDecides(h, turns);
    if Enforced(h) {
      if n: nat :| EndsAt(h, turns, n) {
        TryWaitDeaths(h, turns[n]);
      }
    } else if turns != [] && turns[0].waited.Some? {
      FinishedDeaths(h, turns[0].waited.value, turns[0].finish);
    }
  }

  lemma HandOverDeaths(h: Handle, threadStarts: bool)
    ensures Deaths(Boundary(HandOver(h, threadStarts)).trace) == Deaths(h.trace)
  {
    hide Deaths, ForgetAll;
    ForgetDeaths(RecoveryOwner(h));
  }

  lemma DropDeaths(h: Handle, o: Outcomes, threadStarts: bool)
    ensures Deaths(Boundary(Drop(h, o, threadStarts)).trace) == Deaths(h.trace) + if DropSees(h, o) then 1 else 0
  {
    hide Deaths, CleanedUp, ForgetAll, HandOver, Confirm, CleanupOutcome, DeathSeen;
    ConfirmMeans(o.termination);
    ForgetDeaths(h);
    NoteDeaths(h, []);
    var h1 := DropPolled(h, o.poll);
    var confirmedNow := !h1.childReaped && h1.hasChild && Confirm(o.termination).Pass?;
    var h2 := if confirmedNow then Note(h1, [Reaped]) else h1;
    CleanupDeaths(h2, o.cleanup);
    HandOverDeaths(CleanedUp(h2, o.cleanup), threadStarts);
    HandOverDeaths(h2, threadStarts);
  }

  lemma RecoveryDeaths(h: Handle, o: Outcomes)
    ensures Deaths(Boundary(RecoveryTurn(h, o)).trace) == Deaths(h.trace) + if KillSees(h, o) then 1 else 0
  {
    hide Deaths, CleanedUp, ForgetAll, Confirm, CleanupOutcome, DeathSeen;
    ConfirmMeans(o.termination);
    NoteDeaths(h, []);
    var h1 := if KillSees(h, o) then Reap(h) else h;
    CleanupDeaths(h1, o.cleanup);
    ForgetDeaths(CleanedUp(h1, o.cleanup));
  }

  // ----- deaths over a run -----

  lemma StepDeaths(s: System, op: Operation)
    ensures Deaths(Owner(Step(s, op)).trace) == Deaths(Owner(s).trace) + if Sees(s, op) then 1 else 0
  {
    hide Deaths, TryWait, Wait, Kill, Drop, RecoveryTurn, ForgetAll, TryWaitSees, WaitSees, KillSees, DropSees;
    match (s, op)
    case (Live(h), TryWaitOp(o)) => TryWaitDeaths(h, o);
    case (Live(h), WaitOp(turns)) => WaitDeaths(h, turns);
    case (Live(h), KillOp(o)) => KillDeaths(h, o);
    case (Live(h), DropOp(o, threadStarts)) => DropDeaths(h, o, threadStarts);
    case (Gone(Recovering(h)), RecoverOp(o)) => RecoveryDeaths(h, o);
    case (Gone(Recovering(h)), AbandonOp) => ForgetDeaths(h);
    case _ =>
  }

  /** How many operations of a run were told that the child is dead. */
  ghost function Sightings(s: System, ops: seq<Operation>): (r: nat)
    decreases |ops|
  {
    if ops == [] then 0 else (if Sees(s, ops[0]) then 1 else 0) + Sightings(Step(s, ops[0]), ops[1..])
  }

  lemma {:induction false} RunDeaths(s: System, ops: seq<Operation>)
    ensures Deaths(Owner(Run(s, ops)).trace) == Deaths(Owner(s).trace) + Sightings(s, ops)
    decreases |ops|
  {
    hide Deaths, Step, Sees;
    if ops != [] {
      StepDeaths(s, ops[0]);
      RunDeaths(Step(s, ops[0]), ops[1..]);
    }
  }

  ghost predicate SeesAt(s: System, ops: seq<Operation>, k: nat) {
    k < |ops| && Sees(Run(s, ops[..k]), ops[k])
  }

  lemma {:induction false} SightingsAre(s: System, ops: seq<Operation>)
    ensures Sightings(s, ops) > 0 <==> exists k: nat :: SeesAt(s, ops, k)
    decreases |ops|
  {
    hide Step, Sees;
    if ops != [] {
      var t, rest := Step(s, ops[0]), ops[1..];
      SightingsAre(t, rest);
      assert ops[..0] == [];
      if Sees(s, ops[0]) {
        assert SeesAt(s, ops, 0);
      }
      if k: nat :| SeesAt(t, rest, k) {
        assert ops[..k + 1][1..] == rest[..k];
        assert SeesAt(s, ops, k + 1);
      }
      if k: nat :| SeesAt(s, ops, k) {
        if k > 0 {
          assert ops[..k][1..] == rest[..k - 1];
          assert SeesAt(t, rest, k - 1);
        }
      }
    }
  }

  /** Over every run from a launch: the child counts as dead exactly when some operation was told so by a call it
      made, and so nothing is released unless one was. */
  lemma DeathIsSeen(watchdog: Option<Id>, targets: seq<Id>, monitor: Option<Id>, gateway: Option<Id>, ops: seq<Operation>)
    ensures var s0 := Live(Launched(watchdog, targets, monitor, gateway));
      var trace := Owner(Run(s0, ops)).trace;
      && (Confirmed(trace) <==> exists k: nat :: SeesAt(s0, ops, k))
      && forall i :: 0 <= i < |trace| && trace[i].Released? ==> exists k: nat :: SeesAt(s0, ops, k)
  {
    var s0 := Live(Launched(watchdog, targets, monitor, gateway));
    var trace := Owner(Run(s0, ops)).trace;
    RunSafe(watchdog, targets, monitor, gateway, ops);
    assert Deaths(Owner(s0).trace) == 0;
    hide Deaths, Run, SeesAt, Sightings;
    RunDeaths(s0, ops);
    SightingsAre(s0, ops);
    DeathsConfirm(trace);
    forall i | 0 <= i < |trace| && trace[i].Released? ensures Confirmed(trace) {
      ConfirmedGrows(trace[..i], trace);
    }
  }

  // ----- what the operations answer -----

  /** Everything the handle holds can be closed. */
  predicate Closes(h: Handle, c: Cleanup) {
    && (h.watchdog.Some? ==> c.watchdog.Some?)
    && (h.gateway.Some? ==> c.gatewayOk)
    && (h.monitor.Some? ==> c.monitorOk)
    && forall k :: 0 <= k < |h.targets| ==> c.targetOk(h.targets[k])
  }

  /** Target `k` is the last that cannot be cleaned. */
  predicate LastFailing(targets: seq<Id>, ok: Id -> bool, k: nat) {
    k < |targets| && !ok(targets[k]) && forall i :: k < i < |targets| ==> ok(targets[i])
  }

  lemma {:induction false} TargetErrorIs(targets: seq<Id>, ok: Id -> bool)
    ensures var error := CleanTargets(targets, ok).error;
      && (error.None? <==> forall k :: 0 <= k < |targets| ==> ok(targets[k]))
      && forall k: nat :: LastFailing(targets, ok, k) ==> error == Some(TargetCleanupFailed(targets[k]))
  {
    if targets != [] {
      var front, last := targets[..|targets| - 1], targets[|targets| - 1];
      TargetErrorIs(front, ok);
      forall k: nat | LastFailing(targets, ok, k)
        ensures CleanTargets(targets, ok).error == Some(TargetCleanupFailed(targets[k]))
      {
        if k < |front| {
          assert front[k] == targets[k] && LastFailing(front, ok, k);
        }
      }
    }
  }

  predicate HeldClose(h: Handle, c: Cleanup) {
    (h.watchdog.Some? ==> c.watchdog.Some?) && (h.gateway.Some? ==> c.gatewayOk) && (h.monitor.Some? ==> c.monitorOk)
  }

  /** Cleaning up reports the first failure: watchdog, gateway, monitor, then the targets from the last to the first. */
  lemma CleanupAnswers(h: Handle, c: Cleanup)
    ensures CleanupError(h, c).None? <==> Closes(h, c)
    ensures CleanupError(h, c) == Some(WatchdogShutdownFailed) <==> h.watchdog.Some? && c.watchdog.None?
    ensures CleanupError(h, c) == Some(GatewayShutdownFailed) <==>
      (h.watchdog.Some? ==> c.watchdog.Some?) && h.gateway.Some? && !c.gatewayOk
    ensures CleanupError(h, c) == Some(MonitorShutdownFailed) <==>
      (h.watchdog.Some? ==> c.watchdog.Some?) && (h.gateway.Some? ==> c.gatewayOk) && h.monitor.Some? && !c.monitorOk
    ensures forall k: nat :: HeldClose(h, c) && LastFailing(h.targets, c.targetOk, k) ==>
      CleanupError(h, c) == Some(TargetCleanupFailed(h.targets[k]))
    ensures CleanupError(h, c).Some? ==>
      CleanupError(h, c).value.TargetCleanupFailed?
      || CleanupError(h, c).value in {WatchdogShutdownFailed, GatewayShutdownFailed, MonitorShutdownFailed}
  {
    hide CleanTargets;
    TargetErrorIs(h.targets, c.targetOk);
    CleanTargetsFailure(h.targets, c.targetOk);
  }

  /** The releases of the targets that can be cleaned, from the last to the first. */
  function Releases(targets: seq<Id>, ok: Id -> bool): (r: seq<Event>) {
    if targets == [] then []
    else Releases(targets[1..], ok) + Release(Some(targets[0]), ok(targets[0]))
  }

  function Release(held: Option<Id>, ok: bool): (r: seq<Event>) {
    if held.Some? && ok then [Released(held.value)] else []
  }

  function Kept(held: Option<Id>, ok: bool): (r: Option<Id>) { if ok then None else held }

  function KeptTargets(targets: seq<Id>, ok: Id -> bool): (r: seq<Id>) {
    if targets == [] then []
    else KeptTarget(targets[0], ok(targets[0])) + KeptTargets(targets[1..], ok)
  }

  function KeptTarget(target: Id, ok: bool): (r: seq<Id>) { if ok then [] else [target] }

  lemma Regroup<T>(a: seq<T>, b: seq<T>, c: seq<T>)
    ensures (a + b) + c == a + (b + c)
  {
  }

  lemma {:induction false} SplitLast(targets: seq<Id>, ok: Id -> bool)
    requires targets != []
    ensures var front, last := targets[..|targets| - 1], targets[|targets| - 1];
      && Releases(targets, ok) == Release(Some(last), ok(last)) + Releases(front, ok)
      && KeptTargets(targets, ok) == KeptTargets(front, ok) + KeptTarget(last, ok(last))
  {
    hide Release, KeptTarget;
    var first, others := targets[0], targets[1..];
    if others == [] {
      assert targets[..0] == [];
    } else {
      var middle, last := others[..|others| - 1], others[|others| - 1];
      SplitLast(others, ok);
      assert targets[..|targets| - 1][1..] == middle;
      Regroup(Release(Some(last), ok(last)), Releases(middle, ok), Release(Some(first), ok(first)));
      Regroup(KeptTarget(first, ok(first)), KeptTargets(middle, ok), KeptTarget(last, ok(last)));
    }
  }

  lemma {:induction false} TargetsReleased(targets: seq<Id>, ok: Id -> bool)
    ensures CleanTargets(targets, ok).events == Releases(targets, ok)
    ensures CleanTargets(targets, ok).kept == KeptTargets(targets, ok)
  {
    hide Releases, KeptTargets;
    if targets == [] {
      NoTargets(ok);
    } else {
      TargetsReleased(targets[..|targets| - 1], ok);
      SplitLast(targets, ok);
    }
  }

  lemma NoTargets(ok: Id -> bool)
    ensures Releases([], ok) == [] && KeptTargets([], ok) == []
  {
  }

  lemma WatchdogOrder(h: Handle, shutdown: Option<bool>)
    ensures FinishWatchdog(h, shutdown).0
         == h.(trace := h.trace + Release(h.watchdog, shutdown.Some?), watchdog := Kept(h.watchdog, shutdown.Some?))
  {
  }

  lemma CloseOrder(h: Handle, c: Cleanup)
    ensures CloseMonitor(CloseGateway(h, c.gatewayOk), c.monitorOk)
         == h.(trace := h.trace + Release(h.gateway, c.gatewayOk) + Release(h.monitor, c.monitorOk),
               gateway := Kept(h.gateway, c.gatewayOk), monitor := Kept(h.monitor, c.monitorOk))
  {
  }

  /** Resources are released in one order: watchdog, gateway, monitor, then the targets from the last to the first.
      Each that cannot be released stays held, and nothing else of the handle but its status channel changes. */
  lemma CleanupOrder(h: Handle, c: Cleanup)
    ensures CleanedUp(h, c)
         == h.(trace := h.trace + Release(h.watchdog, c.watchdog.Some?) + Release(h.gateway, c.gatewayOk)
                        + Release(h.monitor, c.monitorOk) + Releases(h.targets, c.targetOk),
               statusChannel := false,
               watchdog := Kept(h.watchdog, c.watchdog.Some?), gateway := Kept(h.gateway, c.gatewayOk),
               monitor := Kept(h.monitor, c.monitorOk), targets := KeptTargets(h.targets, c.targetOk))
  {
    hide CleanTargets, Releases, KeptTargets, FinishWatchdog, CloseGateway, CloseMonitor, Release, Kept;
    WatchdogOrder(h, c.watchdog);
    CloseOrder(FinishWatchdog(h, c.watchdog).0, c);
    TargetsReleased(h.targets, c.targetOk);
  }

  lemma {:induction false} CleanTargetsFailure(targets: seq<Id>, ok: Id -> bool)
    ensures var error := CleanTargets(targets, ok).error; error.Some? ==> error.value.TargetCleanupFailed?
  {
    if targets != [] {
      CleanTargetsFailure(targets[..|targets| - 1], ok);
    }
  }

  /** What a finished boundary answers before it is cleaned up: a timeout hides the command's status, and that
      hides the boundary's own. */
  function Answer(h: Handle, boundary: int, f: Finish): (r: Result<int, Error>) {
    if h.watchdog.Some? && f.watchdog.None? then Failure(WatchdogShutdownFailed)
    else if h.watchdog.Some? && f.watchdog.value then Failure(ProcessTimedOut)
    else if !h.statusChannel then Success(boundary)
    else
      match f.frame
      case CommandExited(status) => Success(status)
      case HelperFailed => Failure(HelperRuntimeFailed)
      case Unreadable => Failure(CommandStatusFailed)
  }

  /** The handle after its watchdog was asked to stop: a watchdog that refused is asked again by the cleanup. */
  function Stopped(h: Handle, f: Finish): (r: Handle) {
    if f.watchdog.Some? then h.(watchdog := None) else h
  }

  lemma CleanupCloses(h: Handle, c: Cleanup)
    ensures CleanupError(h, c).None? <==> Closes(h, c)
    ensures CleanupError(h, c) != Some(ProcessTimedOut)
  {
    hide CleanupError, Closes, HeldClose, LastFailing;
    CleanupAnswers(h, c);
  }

  /** The handle, and the answer, that a finished boundary goes into its cleanup with. */
  lemma BeforeCleanup(h: Handle, boundary: int, f: Finish) returns (h2: Handle)
    ensures Closes(h2, f.cleanup) <==> Closes(Stopped(h, f), f.cleanup)
    ensures FinishStatus(h, boundary, f).1
         == if CleanupError(h2, f.cleanup).Some? then Failure(CleanupError(h2, f.cleanup).value) else Answer(h, boundary, f)
  {
    hide CleanedUp, CleanupError;
    var (h1, fired) := FinishWatchdog(h, f.watchdog);
    h2 := if fired.Success? && !fired.value then CommandStatus(h1, boundary, f.frame).0 else h1;
  }

  lemma FinishStatusAnswers(h: Handle, boundary: int, f: Finish)
    ensures Closes(Stopped(h, f), f.cleanup) ==> FinishStatus(h, boundary, f).1 == Answer(h, boundary, f)
    ensures !Closes(Stopped(h, f), f.cleanup) ==>
      FinishStatus(h, boundary, f).1.Failure? && FinishStatus(h, boundary, f).1.error != ProcessTimedOut
  {
    hide CleanupError, Closes, FinishStatus, Answer, Stopped;
    var h2 := BeforeCleanup(h, boundary, f);
    CleanupCloses(h2, f.cleanup);
  }

  /** The status of the boundary itself, from whichever call saw it exit. */
  function BoundaryStatus(o: Outcomes): (r: int)
    requires o.poll.Exited? || o.waited.Some?
  {
    if o.poll.Exited? then o.poll.status else o.waited.value
  }

  predicate Answers(h: Handle, o: Outcomes, status: int) {
    && !HealthFails(h, o) && PollSees(h, o) && Closes(Stopped(h, o.finish), o.finish.cleanup)
    && Answer(h, BoundaryStatus(o), o.finish) == Success(status)
  }

  /** `try_wait` yields a status exactly when the boundary was healthy, seen dead and closed without an error, and
      its watchdog had not fired; it is the status the command reported, and the boundary's own where none was read. */
  lemma TryWaitAnswers(h: Handle, o: Outcomes)
    ensures forall status :: TryWait(h, o).1 == Success(Some(status)) <==> Answers(h, o, status)
    ensures TryWait(h, o).1 == Success(None) <==> Quiet(h, o)
    ensures TryWait(h, o).1 == Failure(ProcessTimedOut) <==>
      && !HealthFails(h, o) && PollSees(h, o) && Closes(Stopped(h, o.finish), o.finish.cleanup)
      && h.watchdog.Some? && o.finish.watchdog == Some(true)
  {
    TryWaitDeaths(h, o);
    hide FinishStatus, BoundaryFailure, Closes;
    if o.poll.Exited? {
      FinishStatusAnswers(Reap(h), o.poll.status, o.finish);
      ReapedCloses(h, o.finish);
    } else if o.waited.Some? {
      FinishStatusAnswers(Reap(h), o.waited.value, o.finish);
      ReapedCloses(h, o.finish);
    }
  }

  lemma ReapedCloses(h: Handle, f: Finish)
    ensures Closes(Stopped(Reap(h), f), f.cleanup) <==> Closes(Stopped(h, f), f.cleanup)
    ensures forall boundary :: Answer(Reap(h), boundary, f) == Answer(h, boundary, f)
  {
  }

  /** `kill` passes exactly when the child is or was seen dead and everything could be closed. */
  lemma KillAnswers(h: Handle, o: Outcomes)
    ensures Kill(h, o).1.Pass? <==> (h.childReaped || KillSees(h, o)) && Closes(h, o.cleanup)
    ensures !h.childReaped && h.hasChild && o.termination.killOk && AllRunning(o.termination.polls) ==>
      Kill(h, o) == (h, Fail(TerminationUnconfirmed))
  {
    hide CleanedUp, CleanupError, Confirm, Deaths, DeathSeen;
    TerminateDeaths(h, o);
    ConfirmMeans(o.termination);
    CleanupCloses(TerminateBoundary(h, o.termination).0, o.cleanup);
  }

  /** `wait` yields what `try_wait` yields in the first turn that is not quiet; a bare handle blocks instead. */
  lemma WaitAnswers(h: Handle, turns: seq<Outcomes>)
    ensures Enforced(h) && AllQuiet(h, turns) ==> Wait(h, turns) == (h, Success(None))
    ensures forall n: nat :: Enforced(h) && EndsAt(h, turns, n) ==> Wait(h, turns) == TryWait(h, turns[n])
    ensures !Enforced(h) && turns != [] && h.hasChild && turns[0].waited.Some? ==>
      forall status ::
        Wait(h, turns).1 == Success(Some(status)) <==>
          Closes(h, turns[0].finish.cleanup) && Answer(h, turns[0].waited.value, turns[0].finish) == Success(status)
    ensures !Enforced(h) && turns != [] && !(h.hasChild && turns[0].waited.Some?) ==> Wait(h, turns).1.Failure?
  {
    hide TryWait, WaitPolling, FinishStatus, Quiet, Closes;
    PollingDecides(h, turns);
    if !Enforced(h) && turns != [] && turns[0].waited.Some? {
      FinishStatusAnswers(Reap(h), turns[0].waited.value, turns[0].finish);
      ReapedCloses(h, turns[0].finish);
      assert Stopped(h, turns[0].finish) == h;
    }
  }

  /** A drop is done exactly when the child is or was seen dead and everything could be closed; otherwise recovery
      takes over, or everything is leaked when that cannot start or has been tried before. */
  lemma DropAnswers(h: Handle, o: Outcomes, threadStarts: bool)
    ensures Drop(h, o, threadStarts).Done? <==>
      !h.recoveryAttempted && (h.childReaped || DropSees(h, o)) && Closes(h, o.cleanup)
    ensures Drop(h, o, threadStarts).Leaked? <==>
      h.recoveryAttempted || (!Drop(h, o, threadStarts).Done? && !threadStarts)
    ensures RecoveryTurn(h, o).Done? <==> (h.childReaped || KillSees(h, o)) && Closes(h, o.cleanup)
    ensures !RecoveryTurn(h, o).Leaked?
  {
    hide CleanedUp, CleanupError, Confirm, DeathSeen, ForgetAll;
    ConfirmMeans(o.termination);
    var h1 := DropPolled(h, o.poll);
    CleanupCloses(h1, o.cleanup);
    CleanupCloses(Note(h1, [Reaped]), o.cleanup);
    CleanupCloses(Reap(h), o.cleanup);
    CleanupCloses(h, o.cleanup);
  }

  /** A handle whose boundary was handed to recovery has no child any more, and says so. */
  lemma HandedOverAnswers(h: Handle, o: Outcomes, turns: seq<Outcomes>)
    ensures TryWait(Emptied(h), o) == (Emptied(h), Failure(BoundaryOwnedByRecovery))
    ensures turns != [] ==> Wait(Emptied(h), turns) == (Emptied(h), Failure(BoundaryOwnedByRecovery))
    ensures !h.childReaped ==> Kill(Emptied(h), o) == (Emptied(h), Fail(BoundaryOwnedByRecovery))
  {
  }

  /** A launched handle has a live child and reads its status from the channel: what the command reports comes out. */
  lemma LaunchedReports(watchdog: Option<Id>, targets: seq<Id>, monitor: Option<Id>, gateway: Option<Id>,
                        o: Outcomes, status: int)
    requires var h := Launched(watchdog, targets, monitor, gateway);
      && !HealthFails(h, o) && o.poll.Exited? && Closes(h.(watchdog := None), o.finish.cleanup)
      && o.finish.watchdog == Some(false) && o.finish.frame == CommandExited(status)
    ensures TryWait(Launched(watchdog, targets, monitor, gateway), o).1 == Success(Some(status))
    ensures forall threadStarts ::
      Drop(Launched(watchdog, targets, monitor, gateway), o, threadStarts).Done? <==>
        Closes(Launched(watchdog, targets, monitor, gateway), o.cleanup)
  {
    hide TryWait, Drop, Closes;
    var h := Launched(watchdog, targets, monitor, gateway);
    TryWaitAnswers(h, o);
    forall threadStarts ensures Drop(h, o, threadStarts).Done? <==> Closes(h, o.cleanup) {
      DropAnswers(h, o, threadStarts);
    }
  }
}
