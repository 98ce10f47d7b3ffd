/**
 The life of one Linux sandbox child: what each operation on its handle does to
 the resources it owns, for every outcome of the calls it makes, and what holds
 over every run of operations.
 */
module ChildLifecycle {
  import opened Wrappers

  type Id = nat

  datatype Error =
    | MonitorUnhealthy | GatewayUnhealthy | WatchdogUnhealthy
    | ProcessWaitFailed | TerminationUnconfirmed | BoundaryOwnedByRecovery
    | ProcessTimedOut | HelperRuntimeFailed | CommandStatusFailed
    | WatchdogShutdownFailed | GatewayShutdownFailed | MonitorShutdownFailed
    | TargetCleanupFailed(target: Id)

  /** What happened to the boundary and its resources, in order. */
  datatype Event =
    | Reaped                     // a wait call returned the exit status of the boundary
    | Released(id: Id)           // a resource was shut down or cleaned up
    | Forgotten(id: Id)          // a resource was leaked on purpose

  datatype Handle = Handle(
    hasChild: bool,
    childReaped: bool,
    watchdog: Option<Id>,
    targets: seq<Id>,
    monitor: Option<Id>,
    gateway: Option<Id>,
    statusChannel: bool,
    recoveryAttempted: bool,
    trace: seq<Event>)

  // ----- outcomes of the calls an operation makes -----

  datatype Poll = Exited(status: int) | Running | PollFailed

  /** `kill`, the poll after a refused kill, and the polls seen before the deadline. */
  datatype Termination = Termination(killOk: bool, afterRefusal: Poll, polls: seq<Poll>)

  /** A watchdog shutdown yields whether it had fired; `None` is a failure. */
  datatype Cleanup = Cleanup(watchdog: Option<bool>, gatewayOk: bool, monitorOk: bool, targetOk: Id -> bool)

  datatype StatusFrame = CommandExited(status: int) | HelperFailed | Unreadable

  datatype Finish = Finish(watchdog: Option<bool>, frame: StatusFrame, cleanup: Cleanup)

  datatype Outcomes = Outcomes(
    monitorHealthy: bool,
    gatewayHealthy: bool,
    watchdogHealthy: bool,
    termination: Termination,
    cleanup: Cleanup,
    poll: Poll,
    watchdogFired: bool,
    waited: Option<int>,
    finish: Finish)

  // ----- resources -----

  function Opt(x: Option<Id>): (r: multiset<Id>) {
    if x.Some? then multiset{x.value} else multiset{}
  }

  function Held(h: Handle): (r: multiset<Id>) {
    Opt(h.watchdog) + Opt(h.gateway) + Opt(h.monitor) + multiset(h.targets)
  }

  function Spent(trace: seq<Event>): (r: multiset<Id>) {
    if trace == [] then multiset{}
    else
      var last := trace[|trace| - 1];
      Spent(trace[..|trace| - 1]) + if last.Reaped? then multiset{} else multiset{last.id}
  }

  // ----- one call at a time -----

  function Note(h: Handle, events: seq<Event>): (r: Handle) {
    h.(trace := h.trace + events)
  }

  /** The polls of a killed child: it must be seen to exit before the deadline. */
  function ConfirmPolls(polls: seq<Poll>): (r: Outcome<Error>) {
    if polls == [] then Fail(TerminationUnconfirmed)
    else
      match polls[0]
      case Exited(_) => Pass
      case Running => ConfirmPolls(polls[1..])
      case PollFailed => Fail(ProcessWaitFailed)
  }

  function Confirm(t: Termination): (r: Outcome<Error>) {
    if t.killOk then ConfirmPolls(t.polls)
    else if t.afterRefusal.Exited? then Pass
    else Fail(ProcessWaitFailed)
  }

  /** Poll `k` answered that the child had exited, and only running answers came before it. */
  predicate ExitsAt(polls: seq<Poll>, k: nat) {
    k < |polls| && polls[k].Exited? && forall i :: 0 <= i < k ==> polls[i].Running?
  }

  /** The child was seen dead: by a poll before the deadline, or by the poll that follows a refused kill. */
  ghost predicate DeathSeen(t: Termination) {
    if t.killOk then exists k: nat :: ExitsAt(t.polls, k) else t.afterRefusal.Exited?
  }

  predicate AllRunning(polls: seq<Poll>) {
    forall i :: 0 <= i < |polls| ==> polls[i].Running?
  }

  lemma {:induction false} ConfirmPollsMeans(polls: seq<Poll>)
    ensures ConfirmPolls(polls).Pass? <==> exists k: nat :: ExitsAt(polls, k)
    ensures ConfirmPolls(polls) == Fail(TerminationUnconfirmed) <==> AllRunning(polls)
    ensures ConfirmPolls(polls) in {Pass, Fail(TerminationUnconfirmed), Fail(ProcessWaitFailed)}
  {
    if polls != [] {
      var rest := polls[1..];
      assert polls == [polls[0]] + rest;
      ConfirmPollsMeans(rest);
      if polls[0].Exited? {
        assert ExitsAt(polls, 0);
      } else if polls[0].Running? {
        if k: nat :| ExitsAt(rest, k) {
          assert ExitsAt(polls, k + 1);
        }
        if k: nat :| ExitsAt(polls, k) {
          assert polls[k] == rest[k - 1] && forall i :: 0 <= i < k - 1 ==> rest[i] == polls[i + 1];
          assert ExitsAt(rest, k - 1);
        }
      }
    }
  }

  /** Termination is confirmed if and only if the child was seen dead. It stays unconfirmed exactly when every poll
      before the deadline found the child running; any other failure is that of a call. */
  lemma ConfirmMeans(t: Termination)
    ensures Confirm(t).Pass? <==> DeathSeen(t)
    ensures Confirm(t) == Fail(TerminationUnconfirmed) <==> t.killOk && AllRunning(t.polls)
    ensures Confirm(t) in {Pass, Fail(TerminationUnconfirmed), Fail(ProcessWaitFailed)}
  {
    ConfirmPollsMeans(t.polls);
  }

  function TerminateBoundary(h: Handle, t: Termination): (r: (Handle, Outcome<Error>)) {
    if h.childReaped then (h, Pass)
    else if !h.hasChild then (h, Fail(BoundaryOwnedByRecovery))
    else if Confirm(t).Fail? then (h, Confirm(t))
    else (Note(h, [Reaped]).(childReaped := true), Pass)
  }

  function FinishWatchdog(h: Handle, shutdown: Option<bool>): (r: (Handle, Result<bool, Error>)) {
    if h.watchdog.None? then (h, Success(false))
    else if shutdown.None? then (h, Failure(WatchdogShutdownFailed))
    else (Note(h, [Released(h.watchdog.value)]).(watchdog := None), Success(shutdown.value))
  }

  datatype TargetCleanup = TargetCleanup(kept: seq<Id>, events: seq<Event>, error: Option<Error>)

  /** Targets are cleaned from the last to the first; the ones that fail stay in order. */
  function CleanTargets(targets: seq<Id>, ok: Id -> bool): (r: TargetCleanup) {
    if targets == [] then TargetCleanup([], [], None)
    else
      var last := targets[|targets| - 1];
      var rest := CleanTargets(targets[..|targets| - 1], ok);
      if ok(last) then TargetCleanup(rest.kept, [Released(last)] + rest.events, rest.error)
      else TargetCleanup(rest.kept + [last], rest.events, Some(TargetCleanupFailed(last)))
  }

  function CloseGateway(h: Handle, ok: bool): (r: Handle) {
    if h.gateway.Some? && ok then Note(h, [Released(h.gateway.value)]).(gateway := None) else h
  }

  function CloseMonitor(h: Handle, ok: bool): (r: Handle) {
    if h.monitor.Some? && ok then Note(h, [Released(h.monitor.value)]).(monitor := None) else h
  }

  function CloseTargets(h: Handle, ok: Id -> bool): (r: Handle) {
    var c := CleanTargets(h.targets, ok);
    Note(h, c.events).(targets := c.kept)
  }

  function CleanedUp(h: Handle, c: Cleanup): (r: Handle) {
    var h1 := FinishWatchdog(h, c.watchdog).0;
    var h2 := CloseMonitor(CloseGateway(h1, c.gatewayOk), c.monitorOk);
    CloseTargets(h2.(statusChannel := false), c.targetOk)
  }

  /** The first failure among watchdog, gateway, monitor and targets. */
  function CleanupError(h: Handle, c: Cleanup): (r: Option<Error>) {
    if h.watchdog.Some? && c.watchdog.None? then Some(WatchdogShutdownFailed)
    else if h.gateway.Some? && !c.gatewayOk then Some(GatewayShutdownFailed)
    else if h.monitor.Some? && !c.monitorOk then Some(MonitorShutdownFailed)
    else CleanTargets(h.targets, c.targetOk).error
  }

  function CleanupOutcome(h: Handle, c: Cleanup): (r: Outcome<Error>) {
    var e := CleanupError(h, c);
    if e.Some? then Fail(e.value) else Pass
  }

  // ----- operations -----

  /** A broken enforcement resource: kill first, clean up only once confirmed. */
  function BoundaryFailure(h: Handle, o: Outcomes): (r: Handle) {
    var (h1, ended) := TerminateBoundary(h, o.termination);
    if ended.Pass? then CleanedUp(h1, o.cleanup) else h1
  }

  function CommandStatus(h: Handle, boundary: int, frame: StatusFrame): (r: (Handle, Result<int, Error>)) {
    if !h.statusChannel then (h, Success(boundary))
    else
      (h.(statusChannel := false),
       match frame
       case CommandExited(status) => Success(status)
       case HelperFailed => Failure(HelperRuntimeFailed)
       case Unreadable => Failure(CommandStatusFailed))
  }

  function FinishStatus(h: Handle, boundary: int, f: Finish): (r: (Handle, Result<int, Error>)) {
    var (h1, fired) := FinishWatchdog(h, f.watchdog);
    var (h2, status) :=
      if fired.Failure? then (h1, Failure(fired.error))
      else if fired.value then (h1, Failure(ProcessTimedOut))
      else CommandStatus(h1, boundary, f.frame);
    var e := CleanupError(h2, f.cleanup);
    (CleanedUp(h2, f.cleanup), if e.Some? then Failure(e.value) else status)
  }

  function Unhealthy(h: Handle, o: Outcomes): (r: Option<Error>) {
    if h.monitor.Some? && !o.monitorHealthy then Some(MonitorUnhealthy)
    else if h.gateway.Some? && !o.gatewayHealthy then Some(GatewayUnhealthy)
    else if h.watchdog.Some? && !o.watchdogHealthy then Some(WatchdogUnhealthy)
    else None
  }

  function Reap(h: Handle): (r: Handle) {
    Note(h, [Reaped]).(childReaped := true)
  }

  function Finished(h: Handle, boundary: int, f: Finish): (r: (Handle, Result<Option<int>, Error>)) {
    var (h1, status) := FinishStatus(Reap(h), boundary, f);
    (h1, if status.Success? then Success(Some(status.value)) else Failure(status.error))
  }

  function TryWait(h: Handle, o: Outcomes): (r: (Handle, Result<Option<int>, Error>)) {
    var unhealthy := Unhealthy(h, o);
    if unhealthy.Some? then (BoundaryFailure(h, o), Failure(unhealthy.value))
    else if !h.hasChild then (h, Failure(BoundaryOwnedByRecovery))
    else
      match o.poll
      case PollFailed => (h, Failure(ProcessWaitFailed))
      case Exited(status) => Finished(h, status, o.finish)
      case Running =>
        if h.watchdog.Some? && o.watchdogFired then
          if o.waited.None? then (h, Failure(ProcessWaitFailed))
          else Finished(h, o.waited.value, o.finish)
        else (h, Success(None))
  }

  /** A handle with enforcement resources polls; a bare one blocks in `wait`. */
  function Wait(h: Handle, turns: seq<Outcomes>): (r: (Handle, Result<Option<int>, Error>))
    decreases |turns|
  {
    if turns == [] then (h, Success(None))
    else if h.watchdog.Some? || h.gateway.Some? || h.monitor.Some? then WaitPolling(h, turns)
    else if !h.hasChild then (h, Failure(BoundaryOwnedByRecovery))
    else if turns[0].waited.None? then (h, Failure(ProcessWaitFailed))
    else Finished(h, turns[0].waited.value, turns[0].finish)
  }

  /** The polling loop of `wait`, cut off when the given turns run out. */
  function WaitPolling(h: Handle, turns: seq<Outcomes>): (r: (Handle, Result<Option<int>, Error>))
    decreases |turns|
  {
    if turns == [] then (h, Success(None))
    else
      var (h1, r) := TryWait(h, turns[0]);
      if r.Success? && r.value.None? then WaitPolling(h1, turns[1..]) else (h1, r)
  }

  function Kill(h: Handle, o: Outcomes): (r: (Handle, Outcome<Error>)) {
    var (h1, ended) := TerminateBoundary(h, o.termination);
    if ended.Fail? then (h1, ended) else (CleanedUp(h1, o.cleanup), CleanupOutcome(h1, o.cleanup))
  }

  // ----- dropping and recovery -----

  /** What is left of a handle after its owner has been taken from it. */
  function Emptied(h: Handle): (r: Handle) {
    h.(hasChild := false, watchdog := None, targets := [], monitor := None, gateway := None, statusChannel := false)
  }

  function RecoveryOwner(h: Handle): (r: Handle) {
    h.(recoveryAttempted := true)
  }

  function ForgetAll(h: Handle): (r: Handle) {
    Note(Emptied(h), ForgottenAll(h))
  }

  function Forget(x: Option<Id>): (r: seq<Event>) {
    if x.Some? then [Forgotten(x.value)] else []
  }

  function ForgetTargets(targets: seq<Id>): (r: seq<Event>) {
    seq(|targets|, i requires 0 <= i < |targets| => Forgotten(targets[i]))
  }

  function ForgottenAll(h: Handle): (r: seq<Event>) {
    Forget(h.watchdog) + Forget(h.gateway) + Forget(h.monitor)
    + ForgetTargets(h.targets)
  }

  /** Where the boundary is after a drop: finished with, owned by a recovery thread, or leaked. */
  datatype Dropped = Done(handle: Handle) | Recovering(owner: Handle) | Leaked(handle: Handle)

  function DropPolled(h: Handle, poll: Poll): (r: Handle) {
    if !h.childReaped && h.hasChild && poll.Exited? then Reap(h) else h
  }

  /** Hands everything to a recovery thread; a thread that cannot start leaks it. */
  function HandOver(h: Handle, threadStarts: bool): (r: Dropped) {
    if threadStarts then Recovering(RecoveryOwner(h)) else Leaked(ForgetAll(RecoveryOwner(h)))
  }

  function Drop(h: Handle, o: Outcomes, threadStarts: bool): (r: Dropped) {
    if h.recoveryAttempted then Leaked(ForgetAll(h))
    else
      var h1 := DropPolled(h, o.poll);
      var confirmedNow := !h1.childReaped && h1.hasChild && Confirm(o.termination).Pass?;
      var h2 := if confirmedNow then Note(h1, [Reaped]) else h1;
      if h1.childReaped || confirmedNow then
        var h3 := CleanedUp(h2, o.cleanup);
        if CleanupOutcome(h2, o.cleanup).Pass? then Done(h3) else HandOver(h3, threadStarts)
      else HandOver(h2, threadStarts)
  }

  /** One turn of the recovery loop; a turn that finishes drops the owner. */
  function RecoveryTurn(h: Handle, o: Outcomes): (r: Dropped) {
    var confirmedNow := !h.childReaped && h.hasChild && Confirm(o.termination).Pass?;
    var h1 := if confirmedNow then Reap(h) else h;
    if h1.childReaped then
      var h2 := CleanedUp(h1, o.cleanup);
      if CleanupOutcome(h1, o.cleanup).Pass? then Done(ForgetAll(h2)) else Recovering(h2)
    else Recovering(h1)
  }

  // ----- what every step keeps -----

  ghost predicate Confirmed(trace: seq<Event>) {
    exists j :: 0 <= j < |trace| && trace[j].Reaped?
  }

  /** Nothing is released before the boundary was seen dead. */
  ghost predicate ReleasesConfirmed(trace: seq<Event>) {
    forall i :: 0 <= i < |trace| && trace[i].Released? ==> Confirmed(trace[..i])
  }

  ghost predicate Sound(h: Handle) {
    ReleasesConfirmed(h.trace) && (h.childReaped ==> Confirmed(h.trace))
  }

  ghost predicate NoneForgotten(trace: seq<Event>) {
    forall i :: 0 <= i < |trace| ==> !trace[i].Forgotten?
  }

  /** No resource appears or disappears, history only grows, soundness is kept. */
  ghost predicate Accounts(h: Handle, h': Handle) {
    && h.trace <= h'.trace
    && Held(h') + Spent(h'.trace) == Held(h) + Spent(h.trace)
    && (Sound(h) ==> Sound(h'))
    && (h.childReaped ==> h'.childReaped)
  }

  /** Nothing is leaked either. */
  ghost predicate Keeps(h: Handle, h': Handle) {
    Accounts(h, h') && (NoneForgotten(h.trace) ==> NoneForgotten(h'.trace))
  }

  lemma {:induction false} SpentAppends(x: seq<Event>, y: seq<Event>)
    ensures Spent(x + y) == Spent(x) + Spent(y)
    decreases |y|
  {
    if y == [] {
      assert x + y == x;
    } else {
      assert (x + y)[..|x + y| - 1] == x + y[..|y| - 1];
      SpentAppends(x, y[..|y| - 1]);
    }
  }

  lemma ConfirmedGrows(x: seq<Event>, y: seq<Event>)
    requires Confirmed(x) && x <= y
    ensures Confirmed(y)
  {
    var j :| 0 <= j < |x| && x[j].Reaped?;
    assert y[j].Reaped?;
  }

  /** Events may be added when they release nothing or the boundary is dead. */
  lemma NoteKeepsOrder(trace: seq<Event>, events: seq<Event>)
    requires ReleasesConfirmed(trace)
    requires Confirmed(trace) || forall i :: 0 <= i < |events| ==> !events[i].Released?
    ensures ReleasesConfirmed(trace + events)
  {
    var all := trace + events;
    forall i | 0 <= i < |all| && all[i].Released? ensures Confirmed(all[..i]) {
      if i < |trace| {
        assert all[..i] == trace[..i];
      } else {
        assert trace <= all[..i];
        ConfirmedGrows(trace, all[..i]);
      }
    }
  }

  lemma KeepsReflexive(h: Handle)
    ensures Keeps(h, h)
  {
  }

  lemma AccountsTransitive(a: Handle, b: Handle, c: Handle)
    requires Accounts(a, b) && Accounts(b, c)
    ensures Accounts(a, c)
  {
    assert a.trace <= c.trace by {
      assert c.trace[..|a.trace|] == b.trace[..|a.trace|];
    }
  }

  lemma KeepsTransitive(a: Handle, b: Handle, c: Handle)
    requires Keeps(a, b) && Keeps(b, c)
    ensures Keeps(a, c)
  {
    AccountsTransitive(a, b, c);
  }

  lemma ReapedTrace(trace: seq<Event>)
    ensures Confirmed(trace + [Reaped]) && Spent(trace + [Reaped]) == Spent(trace)
    ensures ReleasesConfirmed(trace) ==> ReleasesConfirmed(trace + [Reaped])
    ensures NoneForgotten(trace) ==> NoneForgotten(trace + [Reaped])
  {
    var all := trace + [Reaped];
    assert all[|trace|].Reaped? && all[..|all| - 1] == trace;
    if ReleasesConfirmed(trace) {
      NoteKeepsOrder(trace, [Reaped]);
    }
  }

  lemma ReapKeeps(h: Handle)
    ensures Keeps(h, Reap(h)) && Confirmed(Reap(h).trace)
    ensures Keeps(h, Note(h, [Reaped])) && Confirmed(Note(h, [Reaped]).trace)
  {
    hide Spent, ReleasesConfirmed, NoneForgotten, Confirmed;
    ReapedTrace(h.trace);
  }

  lemma TerminateKeeps(h: Handle, t: Termination)
    ensures Keeps(h, TerminateBoundary(h, t).0)
    ensures TerminateBoundary(h, t).1.Pass? ==> TerminateBoundary(h, t).0.childReaped
  {
    ReapKeeps(h);
  }

  // ----- cleaning up a dead boundary -----

  lemma SpentOne(id: Id)
    ensures Spent([Released(id)]) == multiset{id}
  {
    assert [Released(id)][..0] == [];
  }

  /** Moving one resource into the trace. */
  lemma ReleaseKeeps(h: Handle, h': Handle, events: seq<Event>)
    requires Confirmed(h.trace)
    requires h'.trace == h.trace + events && h'.childReaped == h.childReaped
    requires Held(h) == Held(h') + Spent(events) && NoneForgotten(events)
    ensures Keeps(h, h') && Confirmed(h'.trace)
  {
    SpentAppends(h.trace, events);
    ConfirmedGrows(h.trace, h'.trace);
    if Sound(h) {
      NoteKeepsOrder(h.trace, events);
    }
  }

  /** The targets that could not be cleaned, in their original order. */
  function Failing(targets: seq<Id>, ok: Id -> bool): (r: seq<Id>) {
    if targets == [] then []
    else (if ok(targets[0]) then [] else [targets[0]]) + Failing(targets[1..], ok)
  }

  lemma {:induction false} FailingSplits(front: seq<Id>, last: Id, ok: Id -> bool)
    ensures Failing(front + [last], ok) == Failing(front, ok) + if ok(last) then [] else [last]
  {
    if front == [] {
      assert (front + [last])[1..] == [];
    } else {
      assert (front + [last])[1..] == front[1..] + [last];
      FailingSplits(front[1..], last, ok);
      var head, tail := if ok(front[0]) then [] else [front[0]], if ok(last) then [] else [last];
      assert head + (Failing(front[1..], ok) + tail) == (head + Failing(front[1..], ok)) + tail;
    }
  }

  /** Exactly the failing targets are kept, in order, and there is an error
      exactly when something is kept. */
  lemma {:induction false} CleanTargetsKeep(targets: seq<Id>, ok: Id -> bool)
    ensures var c := CleanTargets(targets, ok);
      c.kept == Failing(targets, ok) && (c.error.Some? <==> c.kept != []) && NoneForgotten(c.events)
  {
    if targets != [] {
      var front, last := targets[..|targets| - 1], targets[|targets| - 1];
      assert targets == front + [last];
      CleanTargetsKeep(front, ok);
      FailingSplits(front, last, ok);
    }
  }

  /** Every target is either kept or released, and only once. */
  lemma {:induction false} CleanTargetsSpend(targets: seq<Id>, ok: Id -> bool)
    ensures var c := CleanTargets(targets, ok); multiset(targets) == multiset(c.kept) + Spent(c.events)
  {
    if targets != [] {
      hide Spent;
      var front, last := targets[..|targets| - 1], targets[|targets| - 1];
      assert targets == front + [last];
      CleanTargetsSpend(front, ok);
      SpentAppends([Released(last)], CleanTargets(front, ok).events);
      SpentOne(last);
    }
  }

  lemma FinishWatchdogKeeps(h: Handle, shutdown: Option<bool>)
    requires Confirmed(h.trace)
    ensures Keeps(h, FinishWatchdog(h, shutdown).0) && Confirmed(FinishWatchdog(h, shutdown).0.trace)
    ensures h.watchdog.Some? && shutdown.None? <==> FinishWatchdog(h, shutdown).0.watchdog.Some?
  {
    if h.watchdog.Some? && shutdown.Some? {
      SpentOne(h.watchdog.value);
      ReleaseKeeps(h, FinishWatchdog(h, shutdown).0, [Released(h.watchdog.value)]);
    }
  }

  lemma CloseGatewayKeeps(h: Handle, ok: bool)
    requires Confirmed(h.trace)
    ensures Keeps(h, CloseGateway(h, ok)) && Confirmed(CloseGateway(h, ok).trace)
  {
    if h.gateway.Some? && ok {
      SpentOne(h.gateway.value);
      ReleaseKeeps(h, CloseGateway(h, ok), [Released(h.gateway.value)]);
    }
  }

  lemma CloseMonitorKeeps(h: Handle, ok: bool)
    requires Confirmed(h.trace)
    ensures Keeps(h, CloseMonitor(h, ok)) && Confirmed(CloseMonitor(h, ok).trace)
  {
    if h.monitor.Some? && ok {
      SpentOne(h.monitor.value);
      ReleaseKeeps(h, CloseMonitor(h, ok), [Released(h.monitor.value)]);
    }
  }

  lemma CloseTargetsKeeps(h: Handle, ok: Id -> bool)
    requires Confirmed(h.trace)
    ensures Keeps(h, CloseTargets(h, ok)) && Confirmed(CloseTargets(h, ok).trace)
  {
    hide Spent, Confirmed, Keeps;
    CleanTargetsKeep(h.targets, ok);
    CleanTargetsSpend(h.targets, ok);
    ReleaseKeeps(h, CloseTargets(h, ok), CleanTargets(h.targets, ok).events);
  }

  lemma CleanupChain(h: Handle, c: Cleanup)
    requires Confirmed(h.trace)
    ensures Keeps(h, CleanedUp(h, c)) && Confirmed(CleanedUp(h, c).trace)
  {
    hide Keeps, Confirmed, FinishWatchdog, CloseGateway, CloseMonitor, CloseTargets;
    var h1 := FinishWatchdog(h, c.watchdog).0;
    var h2 := CloseGateway(h1, c.gatewayOk);
    var h3 := CloseMonitor(h2, c.monitorOk);
    var h4 := h3.(statusChannel := false);
    FinishWatchdogKeeps(h, c.watchdog);
    CloseGatewayKeeps(h1, c.gatewayOk);
    CloseMonitorKeeps(h2, c.monitorOk);
    ChannelKeeps(h3);
    CloseTargetsKeeps(h4, c.targetOk);
    KeepsTransitive(h, h1, h2);
    KeepsTransitive(h, h2, h3);
    KeepsTransitive(h, h3, h4);
    KeepsTransitive(h, h4, CloseTargets(h4, c.targetOk));
  }

  /** Everything but the trace and the resources named is the same. */
  ghost predicate SameFlags(h: Handle, h': Handle) {
    && h'.childReaped == h.childReaped && h'.hasChild == h.hasChild && h'.recoveryAttempted == h.recoveryAttempted
  }

  lemma CloseFields(h: Handle, c: Cleanup)
    ensures var x := FinishWatchdog(h, c.watchdog).0;
      && SameFlags(h, x) && x.gateway == h.gateway && x.monitor == h.monitor && x.targets == h.targets
      && (x.watchdog.Some? <==> h.watchdog.Some? && c.watchdog.None?)
    ensures var x := CloseGateway(h, c.gatewayOk);
      && SameFlags(h, x) && x.watchdog == h.watchdog && x.monitor == h.monitor && x.targets == h.targets
      && (x.gateway.Some? <==> h.gateway.Some? && !c.gatewayOk)
    ensures var x := CloseMonitor(h, c.monitorOk);
      && SameFlags(h, x) && x.watchdog == h.watchdog && x.gateway == h.gateway && x.targets == h.targets
      && (x.monitor.Some? <==> h.monitor.Some? && !c.monitorOk)
  {
  }

  lemma CleanupLeaves(h: Handle, c: Cleanup)
    ensures var after := CleanedUp(h, c);
      && (after.watchdog.Some? <==> h.watchdog.Some? && c.watchdog.None?)
      && (after.gateway.Some? <==> h.gateway.Some? && !c.gatewayOk)
      && (after.monitor.Some? <==> h.monitor.Some? && !c.monitorOk)
      && after.targets == CleanTargets(h.targets, c.targetOk).kept
      && SameFlags(h, after)
  {
    hide CleanTargets, FinishWatchdog, CloseGateway, CloseMonitor;
    var h1 := FinishWatchdog(h, c.watchdog).0;
    CloseFields(h, c);
    CloseFields(h1, c);
    CloseFields(CloseGateway(h1, c.gatewayOk), c);
  }

  /** Cleaning up a dead boundary keeps the books, and reports success exactly
      when nothing is held any more. */
  lemma CleanupKeeps(h: Handle, c: Cleanup)
    requires Confirmed(h.trace)
    ensures Keeps(h, CleanedUp(h, c)) && Confirmed(CleanedUp(h, c).trace)
    ensures CleanupOutcome(h, c).Pass? <==> Held(CleanedUp(h, c)) == multiset{}
    ensures CleanedUp(h, c).targets == Failing(h.targets, c.targetOk)
  {
    hide Keeps, Confirmed, Spent, CleanedUp, CleanTargets, Failing, Held;
    CleanupChain(h, c);
    CleanupLeaves(h, c);
    CleanTargetsKeep(h.targets, c.targetOk);
    HeldNothing(CleanedUp(h, c));
  }

  lemma ChannelKeeps(h: Handle)
    ensures Keeps(h, h.(statusChannel := false))
  {
  }

  lemma HeldNothing(h: Handle)
    ensures Held(h) == multiset{} <==> h.watchdog.None? && h.gateway.None? && h.monitor.None? && h.targets == []
  {
    if h.targets != [] {
      assert h.targets[0] in multiset(h.targets);
    }
    if h.watchdog.Some? { assert h.watchdog.value in Held(h); }
    if h.gateway.Some? { assert h.gateway.value in Held(h); }
    if h.monitor.Some? { assert h.monitor.value in Held(h); }
  }

  // ----- operations keep the books -----

  lemma BoundaryFailureKeeps(h: Handle, o: Outcomes)
    requires Sound(h)
    ensures Keeps(h, BoundaryFailure(h, o))
  {
    hide Keeps, CleanedUp, Confirm;
    var (h1, ended) := TerminateBoundary(h, o.termination);
    TerminateKeeps(h, o.termination);
    if ended.Pass? {
      KeptSound(h, h1);
      CleanupKeeps(h1, o.cleanup);
      KeepsTransitive(h, h1, CleanedUp(h1, o.cleanup));
    }
  }

  lemma KeptSound(h: Handle, h': Handle)
    requires Accounts(h, h') && Sound(h)
    ensures Sound(h')
  {
  }

  lemma FinishStatusKeeps(h: Handle, boundary: int, f: Finish)
    requires Confirmed(h.trace)
    ensures Keeps(h, FinishStatus(h, boundary, f).0)
    ensures FinishStatus(h, boundary, f).1.Success? ==> Held(FinishStatus(h, boundary, f).0) == multiset{}
    ensures FinishStatus(h, boundary, f).0.childReaped == h.childReaped
  {
    hide Keeps, CleanedUp, Confirmed, FinishWatchdog, CleanupError, Held;
    var (h1, fired) := FinishWatchdog(h, f.watchdog);
    FinishWatchdogKeeps(h, f.watchdog);
    WatchdogOnly(h, f.watchdog);
    var h2 := if fired.Success? && !fired.value then CommandStatus(h1, boundary, f.frame).0 else h1;
    assert h2 == h1 || h2 == h1.(statusChannel := false);
    ChannelKeeps(h1);
    if h2 != h1 {
      KeepsTransitive(h, h1, h2);
    }
    CleanupKeeps(h2, f.cleanup);
    CleanupLeaves(h2, f.cleanup);
    KeepsTransitive(h, h2, CleanedUp(h2, f.cleanup));
  }

  lemma WatchdogOnly(h: Handle, shutdown: Option<bool>)
    ensures FinishWatchdog(h, shutdown).0.childReaped == h.childReaped
  {
  }

  lemma FinishedKeeps(h: Handle, boundary: int, f: Finish)
    ensures Keeps(h, Finished(h, boundary, f).0)
    ensures Finished(h, boundary, f).0.childReaped
    ensures Finished(h, boundary, f).1.Success? ==> Held(Finished(h, boundary, f).0) == multiset{}
    ensures Finished(h, boundary, f).1 != Success(None)
  {
    hide Keeps, FinishStatus, Held, Confirmed;
    ReapKeeps(h);
    FinishStatusKeeps(Reap(h), boundary, f);
    KeepsTransitive(h, Reap(h), FinishStatus(Reap(h), boundary, f).0);
  }

  /** `try_wait` keeps the books; a status means the boundary is dead and nothing
      is held; no status means nothing changed. */
  lemma TryWaitKeeps(h: Handle, o: Outcomes)
    requires Sound(h)
    ensures var (h', r) := TryWait(h, o);
      && Keeps(h, h')
      && (r.Success? && r.value.Some? ==> h'.childReaped && Held(h') == multiset{})
      && (r.Success? && r.value.None? ==> h' == h)
  {
    hide Finished, BoundaryFailure, Held, Sound, Spent;
    BoundaryFailureKeeps(h, o);
    if o.poll.Exited? {
      FinishedKeeps(h, o.poll.status, o.finish);
    }
    if o.waited.Some? {
      FinishedKeeps(h, o.waited.value, o.finish);
    }
  }

  lemma {:induction false} WaitPollingKeeps(h: Handle, turns: seq<Outcomes>)
    requires Sound(h)
    ensures var (h', r) := WaitPolling(h, turns);
      && Keeps(h, h')
      && (r.Success? && r.value.Some? ==> h'.childReaped && Held(h') == multiset{})
    decreases |turns|
  {
    hide TryWait, Held, Sound, Spent;
    if turns != [] {
      TryWaitKeeps(h, turns[0]);
      var (h1, r) := TryWait(h, turns[0]);
      if r.Success? && r.value.None? {
        WaitPollingKeeps(h1, turns[1..]);
      }
    }
  }

  lemma WaitKeeps(h: Handle, turns: seq<Outcomes>)
    requires Sound(h)
    ensures var (h', r) := Wait(h, turns);
      && Keeps(h, h')
      && (r.Success? && r.value.Some? ==> h'.childReaped && Held(h') == multiset{})
  {
    hide WaitPolling, Finished, Held, Sound, Spent;
    WaitPollingKeeps(h, turns);
    if turns != [] && turns[0].waited.Some? {
      FinishedKeeps(h, turns[0].waited.value, turns[0].finish);
    }
  }

  /** `kill` succeeds only when the boundary is confirmed dead and nothing is held. */
  lemma KillKeeps(h: Handle, o: Outcomes)
    requires Sound(h)
    ensures var (h', r) := Kill(h, o);
      && Keeps(h, h')
      && (r.Pass? <==> h'.childReaped && Held(h') == multiset{} && TerminateBoundary(h, o.termination).1.Pass?)
  {
    hide Keeps, CleanedUp, Confirm, Held, CleanupOutcome;
    var (h1, ended) := TerminateBoundary(h, o.termination);
    TerminateKeeps(h, o.termination);
    if ended.Pass? {
      KeptSound(h, h1);
      CleanupKeeps(h1, o.cleanup);
      CleanupLeaves(h1, o.cleanup);
      KeepsTransitive(h, h1, CleanedUp(h1, o.cleanup));
    }
  }

  // ----- dropping keeps the books -----

  lemma {:induction false} SpentForgotten(targets: seq<Id>)
    ensures Spent(ForgetTargets(targets)) == multiset(targets)
  {
    if targets != [] {
      var front, last := targets[..|targets| - 1], targets[|targets| - 1];
      var all := ForgetTargets(targets);
      assert all[..|all| - 1] == ForgetTargets(front);
      SpentForgotten(front);
      assert targets == front + [last];
    }
  }

  lemma ForgetSpends(x: Option<Id>)
    ensures Spent(Forget(x)) == Opt(x)
  {
    if x.Some? { assert [Forgotten(x.value)][..0] == []; }
  }

  lemma ForgottenAllSpends(h: Handle)
    ensures Spent(ForgottenAll(h)) == Held(h)
  {
    hide Spent, Forget, ForgetTargets, Opt;
    var x, y, z, w := Forget(h.watchdog), Forget(h.gateway), Forget(h.monitor), ForgetTargets(h.targets);
    ForgetSpends(h.watchdog);
    ForgetSpends(h.gateway);
    ForgetSpends(h.monitor);
    SpentForgotten(h.targets);
    SpentAppends(x + y + z, w);
    SpentAppends(x + y, z);
    SpentAppends(x, y);
  }

  lemma ForgottenAllForgets(h: Handle)
    ensures forall i :: 0 <= i < |ForgottenAll(h)| ==> ForgottenAll(h)[i].Forgotten?
    ensures Held(h) == multiset{} ==> ForgottenAll(h) == []
  {
    hide Held;
    HeldNothing(h);
  }

  lemma EmptiedHoldsNothing(h: Handle, events: seq<Event>)
    ensures Held(Note(Emptied(h), events)) == multiset{}
  {
  }

  /** Leaking moves everything held into the trace and releases nothing. */
  lemma ForgetAllKeeps(h: Handle)
    ensures Accounts(h, ForgetAll(h)) && Held(ForgetAll(h)) == multiset{}
    ensures Held(h) == multiset{} ==> ForgetAll(h).trace == h.trace
  {
    hide ForgottenAll, Spent, Confirmed, ReleasesConfirmed, Held;
    var events := ForgottenAll(h);
    ForgottenAllSpends(h);
    ForgottenAllForgets(h);
    EmptiedHoldsNothing(h, events);
    SpentAppends(h.trace, events);
    if Sound(h) {
      NoteKeepsOrder(h.trace, events);
      if h.childReaped {
        ConfirmedGrows(h.trace, h.trace + events);
      }
    }
    assert h.trace + [] == h.trace;
  }

  function Boundary(d: Dropped): (h: Handle) {
    match d
    case Done(h) => h
    case Recovering(h) => h
    case Leaked(h) => h
  }

  /** A finished boundary holds nothing; a leaked one holds nothing and so can release nothing. */
  ghost predicate Settled(d: Dropped) {
    match d
    case Done(h) => Held(h) == multiset{}
    case Recovering(h) => h.recoveryAttempted
    case Leaked(h) => Held(h) == multiset{}
  }

  lemma OwnerKeeps(h: Handle)
    ensures Keeps(h, RecoveryOwner(h))
  {
  }

  lemma HandOverKeeps(h: Handle, threadStarts: bool)
    ensures Accounts(h, Boundary(HandOver(h, threadStarts))) && Settled(HandOver(h, threadStarts))
    ensures !HandOver(h, threadStarts).Done?
    ensures HandOver(h, threadStarts).Recovering? ==> Keeps(h, HandOver(h, threadStarts).owner)
  {
    hide Accounts, ForgetAll;
    OwnerKeeps(h);
    ForgetAllKeeps(RecoveryOwner(h));
    AccountsTransitive(h, RecoveryOwner(h), ForgetAll(RecoveryOwner(h)));
  }

  /** After a drop the boundary is finished with, owned by recovery, or leaked;
      it is finished with only when it was confirmed dead and nothing is left. */
  lemma DropKeeps(h: Handle, o: Outcomes, threadStarts: bool)
    requires Sound(h)
    ensures Accounts(h, Boundary(Drop(h, o, threadStarts))) && Settled(Drop(h, o, threadStarts))
    ensures !Drop(h, o, threadStarts).Leaked? ==> Keeps(h, Boundary(Drop(h, o, threadStarts)))
    ensures Drop(h, o, threadStarts).Done? ==> Confirmed(Drop(h, o, threadStarts).handle.trace)
  {
    hide Accounts, NoneForgotten, CleanedUp, ForgetAll, HandOver, Confirm, Held, CleanupOutcome, Note, Reap;
    if h.recoveryAttempted {
      ForgetAllKeeps(h);
    } else {
      var h1 := DropPolled(h, o.poll);
      var confirmedNow := !h1.childReaped && h1.hasChild && Confirm(o.termination).Pass?;
      var h2 := if confirmedNow then Note(h1, [Reaped]) else h1;
      DropPolledKeeps(h, o.poll);
      KeptSound(h, h1);
      ReapKeeps(h1);
      if confirmedNow {
        KeepsTransitive(h, h1, h2);
        KeptSound(h, h2);
      }
      if h1.childReaped || confirmedNow {
        var h3 := CleanedUp(h2, o.cleanup);
        CleanupKeeps(h2, o.cleanup);
        KeepsTransitive(h, h2, h3);
        HandOverKeeps(h3, threadStarts);
        AccountsTransitive(h, h3, Boundary(HandOver(h3, threadStarts)));
      } else {
        HandOverKeeps(h2, threadStarts);
        AccountsTransitive(h, h2, Boundary(HandOver(h2, threadStarts)));
      }
    }
  }

  lemma DropPolledKeeps(h: Handle, poll: Poll)
    ensures Keeps(h, DropPolled(h, poll))
  {
    ReapKeeps(h);
  }

  /** A recovery turn never leaks; it ends only when everything is released. */
  lemma RecoveryTurnKeeps(h: Handle, o: Outcomes)
    requires Sound(h) && h.recoveryAttempted
    ensures Keeps(h, Boundary(RecoveryTurn(h, o))) && Settled(RecoveryTurn(h, o))
    ensures RecoveryTurn(h, o).Done? ==> Confirmed(RecoveryTurn(h, o).handle.trace)
    ensures !RecoveryTurn(h, o).Leaked?
  {
    hide Accounts, NoneForgotten, CleanedUp, ForgetAll, Confirm, Held, CleanupOutcome;
    var confirmedNow := !h.childReaped && h.hasChild && Confirm(o.termination).Pass?;
    var h1 := if confirmedNow then Reap(h) else h;
    ReapKeeps(h);
    KeepsReflexive(h);
    if h1.childReaped {
      KeptSound(h, Reap(h));
      var h2 := CleanedUp(h1, o.cleanup);
      CleanupKeeps(h1, o.cleanup);
      CleanupLeaves(h1, o.cleanup);
      if confirmedNow {
        KeepsTransitive(h, h1, h2);
      }
      ForgetAllKeeps(h2);
      AccountsTransitive(h, h2, ForgetAll(h2));
    }
  }

  // ----- whole runs -----

  datatype System = Live(handle: Handle) | Gone(dropped: Dropped)

  datatype Operation =
    | TryWaitOp(outcomes: Outcomes)
    | WaitOp(turns: seq<Outcomes>)
    | KillOp(outcomes: Outcomes)
    | DropOp(outcomes: Outcomes, threadStarts: bool)
    | RecoverOp(outcomes: Outcomes)
    | AbandonOp                              // the recovery thread cannot finish

  function Step(s: System, op: Operation): (r: System) {
    match (s, op)
    case (Live(h), TryWaitOp(o)) => Live(TryWait(h, o).0)
    case (Live(h), WaitOp(turns)) => Live(Wait(h, turns).0)
    case (Live(h), KillOp(o)) => Live(Kill(h, o).0)
    case (Live(h), DropOp(o, threadStarts)) => Gone(Drop(h, o, threadStarts))
    case (Gone(Recovering(h)), RecoverOp(o)) => Gone(RecoveryTurn(h, o))
    case (Gone(Recovering(h)), AbandonOp) => Gone(Leaked(ForgetAll(h)))
    case _ => s
  }

  function Run(s: System, ops: seq<Operation>): (r: System)
    decreases |ops|
  {
    if ops == [] then s else Run(Step(s, ops[0]), ops[1..])
  }

  function Owner(s: System): (h: Handle) {
    match s
    case Live(h) => h
    case Gone(d) => Boundary(d)
  }

  /** The state of the books in a reachable system that started with `all`. */
  ghost predicate Balanced(s: System, all: multiset<Id>) {
    var h := Owner(s);
    && Held(h) + Spent(h.trace) == all
    && Sound(h)
    && (s.Gone? ==> Settled(s.dropped))
    && (!(s.Gone? && s.dropped.Leaked?) ==> NoneForgotten(h.trace))
    && (s.Gone? && s.dropped.Done? ==> Confirmed(h.trace))
  }

  lemma StepBalanced(s: System, op: Operation, all: multiset<Id>)
    requires Balanced(s, all)
    ensures Balanced(Step(s, op), all)
  {
    hide TryWait, Wait, Kill, Drop, RecoveryTurn, ForgetAll, Held, Spent, ReleasesConfirmed, Confirmed, NoneForgotten;
    match (s, op)
    case (Live(h), TryWaitOp(o)) => TryWaitKeeps(h, o);
    case (Live(h), WaitOp(turns)) => WaitKeeps(h, turns);
    case (Live(h), KillOp(o)) => KillKeeps(h, o);
    case (Live(h), DropOp(o, threadStarts)) => DropKeeps(h, o, threadStarts);
    case (Gone(Recovering(h)), RecoverOp(o)) => RecoveryTurnKeeps(h, o);
    case (Gone(Recovering(h)), AbandonOp) => ForgetAllKeeps(h);
    case _ =>
  }

  lemma {:induction false} RunBalanced(s: System, ops: seq<Operation>, all: multiset<Id>)
    requires Balanced(s, all)
    ensures Balanced(Run(s, ops), all)
    decreases |ops|
  {
    if ops != [] {
      StepBalanced(s, ops[0], all);
      RunBalanced(Step(s, ops[0]), ops[1..], all);
    }
  }

  /** A handle as a successful launch returns it. */
  function Launched(watchdog: Option<Id>, targets: seq<Id>, monitor: Option<Id>, gateway: Option<Id>): (h: Handle) {
    Handle(true, false, watchdog, targets, monitor, gateway, true, false, [])
  }

  /** Over every run from a launch, whatever every call answers: each resource is
      held, released or leaked exactly once; none is released before the boundary
      was seen dead; a boundary done with has released everything; and resources
      are leaked only when recovery itself cannot run. */
  lemma RunSafe(watchdog: Option<Id>, targets: seq<Id>, monitor: Option<Id>, gateway: Option<Id>, ops: seq<Operation>)
    ensures var h0 := Launched(watchdog, targets, monitor, gateway);
      var s := Run(Live(h0), ops);
      var h := Owner(s);
      && Held(h) + Spent(h.trace) == Held(h0)
      && ReleasesConfirmed(h.trace)
      && (s.Gone? && s.dropped.Done? ==> Held(h) == multiset{} && Confirmed(h.trace) && NoneForgotten(h.trace))
      && (!(s.Gone? && s.dropped.Leaked?) ==> NoneForgotten(h.trace))
  {
    var h0 := Launched(watchdog, targets, monitor, gateway);
    assert Balanced(Live(h0), Held(h0));
    RunBalanced(Live(h0), ops, Held(h0));
  }
}
