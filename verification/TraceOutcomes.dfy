/** When the supervision of a traced command fails, and which tracees it knows, said of the events alone. */
module TraceOutcomes {
  import opened Wrappers
  import opened TraceEndpoint
  import opened TraceSupervisor
  import LocalIpc

  predicate IsJudged(syscall: Syscall) { syscall.number == CONNECT || syscall.number == BIND }

  /** The address of the call has to be read and some word of it cannot be told from an error. */
  ghost predicate AddressUnreadable(syscall: Syscall, memory: Memory) {
    && syscall.address != 0 && syscall.length >= 2
    && !WordsTold(memory, syscall.address, if syscall.length < 110 then syscall.length else 110)
  }

  ghost predicate Undecidable(inspection: Inspection) {
    inspection.NoRegisters? || (IsJudged(inspection.syscall) && AddressUnreadable(inspection.syscall, inspection.memory))
  }

  /** No judgement is reached exactly when the registers cannot be read, or the address of a connect or bind cannot. */
  lemma JudgeFails(policy: LocalIpc.Policy, inspection: Inspection)
    ensures Judge(policy, inspection).None? <==> Undecidable(inspection)
  {
    hide Peekable, WordsTold, Contents, Parse;
    if inspection.Registers? {
      PeekableMeans(inspection.memory, inspection.syscall.address, Covered(inspection.syscall));
    }
  }

  // ----- which tracees are known -----

  predicate EndsAt(events: seq<Event>, k: nat, pid: Pid) {
    k < |events| && events[k].Ended? && events[k].pid == pid
  }

  predicate StopsAt(events: seq<Event>, k: nat, pid: Pid) {
    k < |events| && events[k].Stopped? && events[k].pid == pid
  }

  /** The root, or a tracee that was seen to stop, and no end of it since. */
  ghost predicate Known(root: Pid, events: seq<Event>, pid: Pid) {
    || (pid == root && forall k: nat :: !EndsAt(events, k, pid))
    || exists k: nat :: StopsAt(events, k, pid) && forall i: nat :: k < i ==> !EndsAt(events, i, pid)
  }

  lemma KnownNext(root: Pid, front: seq<Event>, e: Event, pid: Pid)
    ensures Known(root, front + [e], pid) <==>
      if e.Ended? && e.pid == pid then false
      else if e.Stopped? && e.pid == pid then true
      else Known(root, front, pid)
  {
    var all := front + [e];
    assert all[|front|] == e && forall i :: 0 <= i < |front| ==> all[i] == front[i];
    assert forall i: nat :: i < |front| ==> (EndsAt(all, i, pid) <==> EndsAt(front, i, pid));
    assert forall i: nat :: i < |front| ==> (StopsAt(all, i, pid) <==> StopsAt(front, i, pid));
    if e.Stopped? && e.pid == pid {
      assert StopsAt(all, |front|, pid);
    } else if e.Ended? && e.pid == pid {
      assert EndsAt(all, |front|, pid);
    } else {
      if k: nat :| StopsAt(front, k, pid) && forall i: nat :: k < i ==> !EndsAt(front, i, pid) {
        assert StopsAt(all, k, pid);
      }
      if k: nat :| StopsAt(all, k, pid) && forall i: nat :: k < i ==> !EndsAt(all, i, pid) {
        assert StopsAt(front, k, pid);
      }
    }
  }

  lemma StepTracees(root: Pid, policy: Option<LocalIpc.Policy>, s: Supervision, e: Event)
    ensures Step(root, policy, s, e).tracees
         == if e.Ended? then s.tracees - {e.pid} else if e.Stopped? then s.tracees + {e.pid} else s.tracees
  {
    hide Judge;
  }

  /** While it waits, the loop knows exactly these tracees. */
  lemma {:induction false} TraceesAre(root: Pid, policy: Option<LocalIpc.Policy>, resumes: bool, events: seq<Event>, pid: Pid)
    requires Run(root, policy, resumes, events).status.Waiting?
    ensures pid in Run(root, policy, resumes, events).tracees <==> Known(root, events, pid)
    decreases |events|
  {
    hide Step, Known;
    if events == [] {
      KnownAtStart(root, pid);
    } else {
      var front, e := events[..|events| - 1], events[|events| - 1];
      assert events == front + [e];
      TraceesAre(root, policy, resumes, front, pid);
      StepTracees(root, policy, Run(root, policy, resumes, front), e);
      KnownNext(root, front, e, pid);
    }
  }

  lemma KnownAtStart(root: Pid, pid: Pid)
    ensures Known(root, [], pid) <==> pid == root
  {
  }

  // ----- when a run fails -----

  /** The call a stop leads to is refused, or no judgement on the stopped call can be reached. */
  ghost predicate StopFails(policy: Option<LocalIpc.Policy>, known: bool, e: Event)
    requires e.Stopped?
  {
    if !known then !e.calls.options || !e.calls.resume
    else if e.kind.SeccompStop? && policy.Some? then
      || Undecidable(e.inspection)
      || (!Permitted(policy.value, e.inspection.syscall, e.inspection.memory) && !e.calls.overwrite)
      || !e.calls.resume
    else !e.calls.resume
  }

  ghost predicate Fails(policy: Option<LocalIpc.Policy>, known: bool, e: Event) {
    match e
    case Interrupted => false
    case WaitFailed => true
    case Ended(_, _) => false
    case Continued(_) => false
    case Odd(_) => true
    case Stopped(_, _, _, _) => StopFails(policy, known, e)
  }

  lemma StepFails(root: Pid, policy: Option<LocalIpc.Policy>, s: Supervision, e: Event)
    requires s.status.Waiting?
    ensures Step(root, policy, s, e).status.Failed? <==> Fails(policy, e.Stopped? && e.pid in s.tracees, e)
  {
    hide Judge, Permitted, Undecidable;
    if e.Stopped? && e.kind.SeccompStop? && policy.Some? {
      JudgeFails(policy.value, e.inspection);
      if Judge(policy.value, e.inspection).Some? {
        JudgementIsPolicy(policy.value, e.inspection);
      }
    }
  }

  /** Event `k` is the first that fails, and the root has not ended before it. */
  ghost predicate FailsAt(root: Pid, policy: Option<LocalIpc.Policy>, events: seq<Event>, k: nat) {
    && k < |events| && Fails(policy, events[k].Stopped? && Known(root, events[..k], events[k].pid), events[k])
    && forall i: nat :: i < k ==> Survives(root, policy, events, i)
  }

  ghost predicate Survives(root: Pid, policy: Option<LocalIpc.Policy>, events: seq<Event>, i: nat) {
    && i < |events| && !EndsAt(events, i, root)
    && !Fails(policy, events[i].Stopped? && Known(root, events[..i], events[i].pid), events[i])
  }

  ghost predicate SurvivesAll(root: Pid, policy: Option<LocalIpc.Policy>, events: seq<Event>, n: nat) {
    forall i: nat :: i < n ==> Survives(root, policy, events, i)
  }

  lemma {:induction false} WaitingMeans(root: Pid, policy: Option<LocalIpc.Policy>, resumes: bool, events: seq<Event>, n: nat)
    requires n <= |events|
    ensures Run(root, policy, resumes, events[..n]).status.Waiting? <==> resumes && SurvivesAll(root, policy, events, n)
    decreases n
  {
    hide Step, Fails, Known, EndsAt;
    if n == 0 {
      assert events[..0] == [];
    } else {
      WaitingMeans(root, policy, resumes, events, n - 1);
      RunStep(root, policy, resumes, events, n - 1);
      var s := Run(root, policy, resumes, events[..n - 1]);
      if s.status.Waiting? {
        LastSurvives(root, policy, resumes, events, n - 1);
      }
    }
  }

  lemma LastSurvives(root: Pid, policy: Option<LocalIpc.Policy>, resumes: bool, events: seq<Event>, k: nat)
    requires k < |events| && Run(root, policy, resumes, events[..k]).status.Waiting?
    ensures var s := Run(root, policy, resumes, events[..k]);
      && (Step(root, policy, s, events[k]).status.Waiting? <==> Survives(root, policy, events, k))
      && (Step(root, policy, s, events[k]).status.Failed? <==>
            Fails(policy, events[k].Stopped? && Known(root, events[..k], events[k].pid), events[k]))
  {
    hide Run, Known, Fails, Stop;
    var s, e := Run(root, policy, resumes, events[..k]), events[k];
    StepFails(root, policy, s, e);
    if e.Stopped? {
      TraceesAre(root, policy, resumes, events[..k], e.pid);
      StopIsNotDone(policy, s, e);
    } else {
      NotStopped(policy, e);
    }
  }

  lemma NotStopped(policy: Option<LocalIpc.Policy>, e: Event)
    requires !e.Stopped?
    ensures Fails(policy, false, e) <==> e.WaitFailed? || e.Odd?
  {
  }

  /** A run fails exactly when the first resume is refused, or some event fails before the root has ended. */
  lemma {:induction false} RunFails(root: Pid, policy: Option<LocalIpc.Policy>, resumes: bool, events: seq<Event>)
    ensures Run(root, policy, resumes, events).status.Failed? <==>
      !resumes || exists k: nat :: FailsAt(root, policy, events, k)
    decreases |events|
  {
    hide Step, Fails, Known, Survives;
    if !resumes {
      assert events[..0] == [] && Run(root, policy, resumes, []).status.Failed?;
      RunStops(root, policy, resumes, events, 0);
    } else {
      if k: nat :| FailsAt(root, policy, events, k) {
        WaitingMeans(root, policy, resumes, events, k);
        RunStep(root, policy, resumes, events, k);
        LastSurvives(root, policy, resumes, events, k);
        RunStops(root, policy, resumes, events, k + 1);
      }
      if Run(root, policy, resumes, events).status.Failed? {
        assert events[..|events|] == events;
        FailedHasEvent(root, policy, events, |events|);
      }
    }
  }

  lemma {:induction false} FailedHasEvent(root: Pid, policy: Option<LocalIpc.Policy>, events: seq<Event>, n: nat)
    requires n <= |events| && Run(root, policy, true, events[..n]).status.Failed?
    ensures exists k: nat :: FailsAt(root, policy, events, k)
    decreases n
  {
    hide Step, Fails, Known, Survives;
    if n > 0 {
      RunStep(root, policy, true, events, n - 1);
      if Run(root, policy, true, events[..n - 1]).status.Waiting? {
        LastSurvives(root, policy, true, events, n - 1);
        WaitingMeans(root, policy, true, events, n - 1);
        assert FailsAt(root, policy, events, n - 1);
      } else {
        FailedHasEvent(root, policy, events, n - 1);
      }
    }
  }
}
