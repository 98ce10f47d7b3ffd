/** The child handle of the Linux backend, as an object whose methods update its fields. */
module LinuxChild {
  import opened Wrappers
  import L = ChildLifecycle

  type Id = L.Id
  type Error = L.Error

  /** Kills a child and polls until it is seen to exit or the deadline passes. */
  method TerminateChildAndConfirm(t: L.Termination) returns (r: Outcome<Error>)
    ensures r == L.Confirm(t)
    ensures r.Pass? <==> L.DeathSeen(t)
    ensures r == Fail(L.TerminationUnconfirmed) <==> t.killOk && L.AllRunning(t.polls)
  {
    L.ConfirmMeans(t);
    if !t.killOk {
      if t.afterRefusal.Exited? {
        return Pass;
      }
      return Fail(L.ProcessWaitFailed);
    }
    assert t.polls[0..] == t.polls;
    for n := 0 to |t.polls|
      invariant L.ConfirmPolls(t.polls) == L.ConfirmPolls(t.polls[n..])
    {
      assert t.polls[n..][1..] == t.polls[n + 1..];
      if t.polls[n].Exited? {
        return Pass;
      }
      if t.polls[n].PollFailed? {
        return Fail(L.ProcessWaitFailed);
      }
    }
    return Fail(L.TerminationUnconfirmed);
  }

  class Child {
    var hasChild: bool
    var childReaped: bool
    var timeoutWatchdog: Option<Id>
    var syntheticTargets: seq<Id>
    var protectedCreateMonitor: Option<Id>
    var gatewayRuntime: Option<Id>
    var statusChannel: bool
    var recoveryAttempted: bool
    ghost var trace: seq<L.Event>

    ghost function View(): (h: L.Handle)
      reads this
    {
      L.Handle(hasChild, childReaped, timeoutWatchdog, syntheticTargets, protectedCreateMonitor, gatewayRuntime,
               statusChannel, recoveryAttempted, trace)
    }

    constructor (watchdog: Option<Id>, targets: seq<Id>, monitor: Option<Id>, gateway: Option<Id>)
      ensures View() == L.Launched(watchdog, targets, monitor, gateway)
    {
      hasChild, childReaped, statusChannel, recoveryAttempted := true, false, true, false;
      timeoutWatchdog, syntheticTargets, protectedCreateMonitor, gatewayRuntime := watchdog, targets, monitor, gateway;
      trace := [];
    }

    method TerminateBoundary(t: L.Termination) returns (r: Outcome<Error>)
      modifies this`childReaped, this`trace
      ensures (View(), r) == L.TerminateBoundary(old(View()), t)
    {
      if childReaped {
        return Pass;
      }
      if !hasChild {
        return Fail(L.BoundaryOwnedByRecovery);
      }
      :- TerminateChildAndConfirm(t);
      childReaped := true;
      trace := trace + [L.Reaped];
      return Pass;
    }

    method FinishTimeoutWatchdog(shutdown: Option<bool>) returns (r: Result<bool, Error>)
      modifies this`timeoutWatchdog, this`trace
      ensures (View(), r) == L.FinishWatchdog(old(View()), shutdown)
    {
      if timeoutWatchdog.None? {
        return Success(false);
      }
      if shutdown.None? {
        return Failure(L.WatchdogShutdownFailed);
      }
      trace := trace + [L.Released(timeoutWatchdog.value)];
      timeoutWatchdog := None;
      return Success(shutdown.value);
    }

    /** Pops targets one by one; the failed ones are put back in their original order. */
    method CleanupSyntheticTargets(ok: Id -> bool) returns (firstError: Option<Error>)
      modifies this`syntheticTargets, this`trace
      ensures View() == L.CloseTargets(old(View()), ok)
      ensures firstError == L.CleanTargets(old(syntheticTargets), ok).error
    {
      firstError := None;
      var remaining: seq<Id> := [];
      ghost var all := L.CleanTargets(syntheticTargets, ok);
      assert [] + all.events == all.events && all.kept + [] == all.kept;
      while syntheticTargets != []
        invariant var rest := L.CleanTargets(syntheticTargets, ok);
          && all.kept == rest.kept + Reversed(remaining)
          && old(trace) + all.events == trace + rest.events
          && all.error == if firstError.Some? then firstError else rest.error
        decreases |syntheticTargets|
      {
        var target := syntheticTargets[|syntheticTargets| - 1];
        ghost var rest := L.CleanTargets(syntheticTargets[..|syntheticTargets| - 1], ok);
        syntheticTargets := syntheticTargets[..|syntheticTargets| - 1];
        if ok(target) {
          assert trace + ([L.Released(target)] + rest.events) == (trace + [L.Released(target)]) + rest.events;
          trace := trace + [L.Released(target)];
        } else {
          if firstError.None? {
            firstError := Some(L.TargetCleanupFailed(target));
          }
          ReversedLast(remaining, target);
          assert (rest.kept + [target]) + Reversed(remaining) == rest.kept + ([target] + Reversed(remaining));
          remaining := remaining + [target];
        }
      }
      assert trace + [] == trace && [] + Reversed(remaining) == Reversed(remaining);
      syntheticTargets := Reversed(remaining);
    }

    method CleanupBoundaries(c: L.Cleanup) returns (r: Outcome<Error>)
      modifies this
      ensures View() == L.CleanedUp(old(View()), c) && r == L.CleanupOutcome(old(View()), c)
    {
      hide L.CloseTargets, L.CleanTargets;
      var firstError: Option<Error> := None;
      if timeoutWatchdog.Some? {
        var finished := FinishTimeoutWatchdog(c.watchdog);
        if finished.Failure? {
          firstError := Some(finished.error);
        }
      }
      if gatewayRuntime.Some? {
        if c.gatewayOk {
          trace := trace + [L.Released(gatewayRuntime.value)];
          gatewayRuntime := None;
        } else if firstError.None? {
          firstError := Some(L.GatewayShutdownFailed);
        }
      }
      if protectedCreateMonitor.Some? {
        if c.monitorOk {
          trace := trace + [L.Released(protectedCreateMonitor.value)];
          protectedCreateMonitor := None;
        } else if firstError.None? {
          firstError := Some(L.MonitorShutdownFailed);
        }
      }
      statusChannel := false;
      var targets := CleanupSyntheticTargets(c.targetOk);
      if firstError.None? {
        firstError := targets;
      }
      return if firstError.Some? then Fail(firstError.value) else Pass;
    }

    method CommandStatus(boundary: int, frame: L.StatusFrame) returns (r: Result<int, Error>)
      modifies this`statusChannel
      ensures (View(), r) == L.CommandStatus(old(View()), boundary, frame)
    {
      if !statusChannel {
        return Success(boundary);
      }
      statusChannel := false;
      match frame
      case CommandExited(status) => return Success(status);
      case HelperFailed => return Failure(L.HelperRuntimeFailed);
      case Unreadable => return Failure(L.CommandStatusFailed);
    }

    /** Ends a reaped boundary: a cleanup failure hides the status, a timeout too. */
    method FinishStatus(boundary: int, f: L.Finish) returns (r: Result<int, Error>)
      modifies this
      ensures (View(), r) == L.FinishStatus(old(View()), boundary, f)
    {
      hide L.CleanedUp, L.CleanupError;
      var fired := FinishTimeoutWatchdog(f.watchdog);
      var status: Result<int, Error>;
      if fired.Failure? {
        status := Failure(fired.error);
      } else if fired.value {
        status := Failure(L.ProcessTimedOut);
      } else {
        status := CommandStatus(boundary, f.frame);
      }
      var cleanup := CleanupBoundaries(f.cleanup);
      return if cleanup.Fail? then Failure(cleanup.error) else status;
    }

    method FailBoundary(o: L.Outcomes)
      modifies this
      ensures View() == L.BoundaryFailure(old(View()), o)
    {
      hide L.CleanedUp, L.Confirm;
      var ended := TerminateBoundary(o.termination);
      if ended.Pass? {
        var _ := CleanupBoundaries(o.cleanup);
      }
    }

    method ReapAndFinish(boundary: int, f: L.Finish) returns (r: Result<Option<int>, Error>)
      modifies this
      ensures (View(), r) == L.Finished(old(View()), boundary, f)
    {
      hide L.FinishStatus;
      childReaped := true;
      trace := trace + [L.Reaped];
      var status := FinishStatus(boundary, f);
      return if status.Success? then Success(Some(status.value)) else Failure(status.error);
    }

    method TryWait(o: L.Outcomes) returns (r: Result<Option<int>, Error>)
      modifies this
      ensures (View(), r) == L.TryWait(old(View()), o)
    {
      hide L.Finished, L.BoundaryFailure;
      if protectedCreateMonitor.Some? && !o.monitorHealthy {
        FailBoundary(o);
        return Failure(L.MonitorUnhealthy);
      }
      if gatewayRuntime.Some? && !o.gatewayHealthy {
        FailBoundary(o);
        return Failure(L.GatewayUnhealthy);
      }
      if timeoutWatchdog.Some? && !o.watchdogHealthy {
        FailBoundary(o);
        return Failure(L.WatchdogUnhealthy);
      }
      if !hasChild {
        return Failure(L.BoundaryOwnedByRecovery);
      }
      if o.poll.PollFailed? {
        return Failure(L.ProcessWaitFailed);
      }
      if o.poll.Exited? {
        r := ReapAndFinish(o.poll.status, o.finish);
        return;
      }
      if timeoutWatchdog.Some? && o.watchdogFired {
        if o.waited.None? {
          return Failure(L.ProcessWaitFailed);
        }
        r := ReapAndFinish(o.waited.value, o.finish);
        return;
      }
      return Success(None);
    }

    /** Polls or blocks; `None` when the turns run out before the child ends. */
    method Wait(turns: seq<L.Outcomes>) returns (r: Result<Option<int>, Error>)
      modifies this
      ensures (View(), r) == L.Wait(old(View()), turns)
    {
      hide L.TryWait, L.Finished;
      if turns == [] {
        return Success(None);
      }
      if timeoutWatchdog.Some? || gatewayRuntime.Some? || protectedCreateMonitor.Some? {
        assert turns[0..] == turns;
        for n := 0 to |turns|
          invariant L.WaitPolling(old(View()), turns) == L.WaitPolling(View(), turns[n..])
        {
          assert turns[n..][1..] == turns[n + 1..];
          r := TryWait(turns[n]);
          if r != Success(None) {
            return;
          }
        }
        return Success(None);
      }
      if !hasChild {
        return Failure(L.BoundaryOwnedByRecovery);
      }
      if turns[0].waited.None? {
        return Failure(L.ProcessWaitFailed);
      }
      r := ReapAndFinish(turns[0].waited.value, turns[0].finish);
    }

    method Kill(o: L.Outcomes) returns (r: Outcome<Error>)
      modifies this
      ensures (View(), r) == L.Kill(old(View()), o)
    {
      hide L.CleanedUp, L.CleanupOutcome, L.Confirm;
      :- TerminateBoundary(o.termination);
      r := CleanupBoundaries(o.cleanup);
    }

    /** Moves everything the handle owns into a recovery owner. */
    method TakeRecoveryOwner() returns (owner: Child)
      modifies this
      ensures fresh(owner) && owner.View() == L.RecoveryOwner(old(View()))
      ensures View() == L.Emptied(old(View()))
    {
      owner := new Child(timeoutWatchdog, syntheticTargets, protectedCreateMonitor, gatewayRuntime);
      owner.hasChild, owner.childReaped, owner.statusChannel := hasChild, childReaped, statusChannel;
      owner.recoveryAttempted, owner.trace := true, trace;
      hasChild, statusChannel := false, false;
      timeoutWatchdog, syntheticTargets, protectedCreateMonitor, gatewayRuntime := None, [], None, None;
    }

    /** Leaks everything on purpose. */
    method ForgetAll()
      modifies this
      ensures View() == L.ForgetAll(old(View()))
    {
      trace := trace + L.ForgottenAll(View());
      hasChild, statusChannel := false, false;
      timeoutWatchdog, syntheticTargets, protectedCreateMonitor, gatewayRuntime := None, [], None, None;
    }

    /** Starts a recovery thread for everything the handle owns, or leaks it. */
    method HandOver(threadStarts: bool) returns (owner: Child?)
      modifies this
      ensures L.Held(View()) == multiset{} && !hasChild
      ensures owner != null && fresh(owner)
      ensures L.HandOver(old(View()), threadStarts)
           == if threadStarts then L.Recovering(owner.View()) else L.Leaked(owner.View())
    {
      hide L.ForgetAll;
      owner := TakeRecoveryOwner();
      if !threadStarts {
        owner.ForgetAll();
      }
    }

    /** Runs when the handle goes out of scope; afterwards the handle owns nothing. */
    method Drop(o: L.Outcomes, threadStarts: bool) returns (owner: Child?)
      modifies this
      ensures L.Held(View()) == multiset{}
      ensures owner != null ==> fresh(owner) && !hasChild
      ensures L.Drop(old(View()), o, threadStarts) ==
        if owner == null then (if old(recoveryAttempted) then L.Leaked(View()) else L.Done(View()))
        else if threadStarts then L.Recovering(owner.View()) else L.Leaked(owner.View())
    {
      hide L.CleanedUp, L.CleanupOutcome, L.ForgetAll, L.Confirm, L.HandOver, L.Held;
      if recoveryAttempted {
        L.ForgetAllKeeps(View());
        ForgetAll();
        return null;
      }
      if !childReaped && hasChild && o.poll.Exited? {
        childReaped := true;
        trace := trace + [L.Reaped];
      }
      var terminated := childReaped;
      if !terminated && hasChild {
        var confirmed := TerminateChildAndConfirm(o.termination);
        if confirmed.Pass? {
          terminated := true;
          trace := trace + [L.Reaped];
        }
      }
      if !terminated {
        owner := HandOver(threadStarts);
        return;
      }
      ghost var h2 := View();
      var cleanup := CleanupBoundaries(o.cleanup);
      if cleanup.Pass? {
        L.CleanupLeaves(h2, o.cleanup);
        PassHoldsNothing(h2, o.cleanup);
        return null;
      }
      owner := HandOver(threadStarts);
    }

    /** One turn of the recovery loop; true when the owner is finished with. */
    method RecoverOnce(o: L.Outcomes) returns (done: bool)
      modifies this
      ensures L.RecoveryTurn(old(View()), o) == if done then L.Done(View()) else L.Recovering(View())
    {
      hide L.CleanedUp, L.CleanupOutcome, L.ForgetAll, L.Confirm;
      var confirmed := childReaped;
      if !confirmed && hasChild {
        var ended := TerminateChildAndConfirm(o.termination);
        confirmed := ended.Pass?;
        if confirmed {
          trace := trace + [L.Reaped];
        }
      }
      if confirmed {
        childReaped := true;
        var cleanup := CleanupBoundaries(o.cleanup);
        if cleanup.Pass? {
          ForgetAll();
          return true;
        }
      }
      return false;
    }
  }

  lemma PassHoldsNothing(h: L.Handle, c: L.Cleanup)
    requires L.CleanupOutcome(h, c).Pass?
    ensures L.Held(L.CleanedUp(h, c)) == multiset{}
  {
    hide L.CleanedUp, L.CleanTargets, L.Held;
    L.CleanupLeaves(h, c);
    L.CleanTargetsKeep(h.targets, c.targetOk);
    L.HeldNothing(L.CleanedUp(h, c));
  }

  function Reversed(s: seq<Id>): (r: seq<Id>) {
    if s == [] then [] else [s[|s| - 1]] + Reversed(s[..|s| - 1])
  }

  lemma ReversedLast(s: seq<Id>, x: Id)
    ensures Reversed(s + [x]) == [x] + Reversed(s)
  {
    assert (s + [x])[..|s|] == s;
  }
}
