/**
 The loop that supervises a traced command. The kernel's answers are a sequence
 of events; what the loop does to tracees is a log of calls, and a monitor over
 that log says which calls may follow which.
 */
module TraceSupervisor {
  import opened Wrappers
  import opened TraceEndpoint
  import LocalIpc

  type Pid = nat

  const CONNECT := 42        // system call numbers of x86-64
  const BIND := 49
  const SIGTRAP := 5

  // ----- what the kernel reports -----

  datatype StopKind = SeccompStop | OtherEvent | SignalStop(signal: int)

  datatype Inspection = NoRegisters | Registers(syscall: Syscall, memory: Memory)

  /** Whether each call on the tracee would succeed. */
  datatype Calls = Calls(options: bool, overwrite: bool, resume: bool)

  datatype Event =
    | Interrupted
    | WaitFailed
    | Ended(pid: Pid, status: int)
    | Continued(pid: Pid)
    | Odd(pid: Pid)
    | Stopped(pid: Pid, kind: StopKind, inspection: Inspection, calls: Calls)

  // ----- what the loop leaves behind -----

  datatype Entry =
    | SawEnd(pid: Pid)
    | SawStop(pid: Pid, kind: StopKind, inspection: Inspection)
    | SetOptions(pid: Pid)
    | Overwrite(pid: Pid)
    | Resume(pid: Pid, signal: int)

  datatype Status = Waiting | Done(status: int) | Failed

  datatype Supervision = Supervision(tracees: set<Pid>, log: seq<Entry>, status: Status)

  /** Some(true) lets the call through, Some(false) refuses it, None cannot tell. */
  function Judge(policy: LocalIpc.Policy, inspection: Inspection): (r: Option<bool>) {
    match inspection
    case NoRegisters => None
    case Registers(syscall, memory) =>
      if syscall.number != CONNECT && syscall.number != BIND then Some(true)
      else
        match EndpointOf(memory, syscall)
        case None => None
        case Some(NonUnix) => Some(true)
        case Some(UnixPath(path)) => Some(LocalIpc.Allows(policy, path))
        case Some(Invalid) => Some(false)
  }

  function Resumed(s: Supervision, e: Event, signal: int): (r: Supervision)
    requires e.Stopped?
  {
    if e.calls.resume then s.(log := s.log + [Resume(e.pid, signal)]) else s.(status := Failed)
  }

  function Overwritten(s: Supervision, e: Event): (r: Supervision)
    requires e.Stopped?
  {
    if e.calls.overwrite then Resumed(s.(log := s.log + [Overwrite(e.pid)]), e, 0) else s.(status := Failed)
  }

  function Adopted(s: Supervision, e: Event): (r: Supervision)
    requires e.Stopped?
  {
    var known := s.(tracees := s.tracees + {e.pid});
    if e.calls.options then Resumed(known.(log := known.log + [SetOptions(e.pid)]), e, 0)
    else known.(status := Failed)
  }

  function Stop(policy: Option<LocalIpc.Policy>, s: Supervision, e: Event): (r: Supervision)
    requires e.Stopped?
  {
    var seen := s.(log := s.log + [SawStop(e.pid, e.kind, e.inspection)]);
    if e.pid !in s.tracees then Adopted(seen, e)
    else
      match e.kind
      case SeccompStop =>
        if policy.None? then Resumed(seen, e, 0)
        else
          (match Judge(policy.value, e.inspection)
           case None => seen.(status := Failed)
           case Some(true) => Resumed(seen, e, 0)
           case Some(false) => Overwritten(seen, e))
      case OtherEvent => Resumed(seen, e, 0)
      case SignalStop(signal) => Resumed(seen, e, signal)
  }

  function Step(root: Pid, policy: Option<LocalIpc.Policy>, s: Supervision, e: Event): (r: Supervision) {
    match e
    case Interrupted => s
    case WaitFailed => s.(status := Failed)
    case Ended(pid, status) =>
      var gone := s.(tracees := s.tracees - {pid}, log := s.log + [SawEnd(pid)]);
      if pid == root then gone.(status := Done(status)) else gone
    case Continued(_) => s
    case Odd(_) => s.(status := Failed)
    case Stopped(_, _, _, _) => Stop(policy, s, e)
  }

  /** A prepared root: seen at its first trap, with its options set. */
  function Prepared(root: Pid): (r: Supervision) {
    Supervision({root}, [SawStop(root, SignalStop(SIGTRAP), NoRegisters), SetOptions(root)], Waiting)
  }

  function Started(root: Pid, resumes: bool): (r: Supervision) {
    var s := Prepared(root);
    if resumes then s.(log := s.log + [Resume(root, 0)]) else s.(status := Failed)
  }

  function Run(root: Pid, policy: Option<LocalIpc.Policy>, resumes: bool, events: seq<Event>): (r: Supervision) {
    if events == [] then Started(root, resumes)
    else
      var s := Run(root, policy, resumes, events[..|events| - 1]);
      if s.status.Waiting? then Step(root, policy, s, events[|events| - 1]) else s
  }

  // ----- the loop -----

  /** Applies the policy to one stopped call. */
  method HandleLocalIpcEvent(policy: LocalIpc.Policy, inspection: Inspection) returns (r: Option<bool>)
    ensures r == Judge(policy, inspection)
  {
    if inspection.NoRegisters? {
      return None;
    }
    var syscall := inspection.syscall;
    if syscall.number != CONNECT && syscall.number != BIND {
      return Some(true);
    }
    var endpoint := ReadEndpoint(inspection.memory, syscall);
    match endpoint
    case None => return None;
    case Some(NonUnix) => return Some(true);
    case Some(UnixPath(path)) => return Some(LocalIpc.Allows(policy, path));
    case Some(Invalid) => return Some(false);
  }

  class Supervisor {
    const root: Pid
    const policy: Option<LocalIpc.Policy>
    var tracees: set<Pid>
    var log: seq<Entry>

    constructor (root: Pid, policy: Option<LocalIpc.Policy>)
      ensures this.root == root && this.policy == policy
      ensures View(Waiting) == Prepared(root)
    {
      this.root, this.policy := root, policy;
      tracees := {root};
      log := [SawStop(root, SignalStop(SIGTRAP), NoRegisters), SetOptions(root)];
    }

    function View(status: Status): (r: Supervision)
      reads this
    {
      Supervision(tracees, log, status)
    }

    method Continue(pid: Pid, signal: int, ok: bool) returns (r: bool)
      modifies `log
      ensures r == ok
      ensures log == old(log) + if ok then [Resume(pid, signal)] else []
    {
      if ok {
        log := log + [Resume(pid, signal)];
      }
      return ok;
    }

    method HandleStop(e: Event) returns (ok: bool)
      requires e.Stopped?
      modifies this
      ensures View(if ok then Waiting else Failed) == Stop(policy, old(View(Waiting)), e)
    {
      hide Judge;
      log := log + [SawStop(e.pid, e.kind, e.inspection)];
      if e.pid !in tracees {
        tracees := tracees + {e.pid};
        if !e.calls.options {
          return false;
        }
        log := log + [SetOptions(e.pid)];
        ok := Continue(e.pid, 0, e.calls.resume);
        return;
      }
      match e.kind
      case SeccompStop =>
        if policy.Some? {
          var allowed := HandleLocalIpcEvent(policy.value, e.inspection);
          if allowed.None? {
            return false;
          }
          if !allowed.value {
            if !e.calls.overwrite {
              return false;
            }
            log := log + [Overwrite(e.pid)];
          }
        }
        ok := Continue(e.pid, 0, e.calls.resume);
      case OtherEvent =>
        ok := Continue(e.pid, 0, e.calls.resume);
      case SignalStop(signal) =>
        ok := Continue(e.pid, signal, e.calls.resume);
    }

    /** Runs until the root ends, a call fails, or the given events are used up. */
    method Supervise(resumes: bool, events: seq<Event>) returns (status: Status)
      requires View(Waiting) == Prepared(root)
      modifies this
      ensures View(status) == Run(root, policy, resumes, events)
    {
      var started := Continue(root, 0, resumes);
      if !started {
        RunStops(root, policy, resumes, events, 0);
        return Failed;
      }
      for k := 0 to |events|
        invariant View(Waiting) == Run(root, policy, resumes, events[..k])
      {
        hide Stop;
        RunStep(root, policy, resumes, events, k);
        match events[k]
        case Interrupted =>
        case WaitFailed =>
          RunStops(root, policy, resumes, events, k + 1);
          return Failed;
        case Ended(pid, code) =>
          tracees := tracees - {pid};
          log := log + [SawEnd(pid)];
          if pid == root {
            RunStops(root, policy, resumes, events, k + 1);
            return Done(code);
          }
        case Continued(_) =>
        case Odd(_) =>
          RunStops(root, policy, resumes, events, k + 1);
          return Failed;
        case Stopped(_, _, _, _) =>
          var ok := HandleStop(events[k]);
          if !ok {
            RunStops(root, policy, resumes, events, k + 1);
            return Failed;
          }
      }
      assert events[..|events|] == events;
      return Waiting;
    }
  }

  // ----- preparing the root -----

  /** An answer of the first wait, which asks for the root only. */
  datatype Answer = Again | Broken | StoppedBy(signal: int) | NotStopped

  datatype Preparation = NotYet | WaitBroken | UnexpectedStatus | OptionsRefused | Ready

  /** The wait ends with this answer, after interruptions only. */
  ghost predicate EndsWith(answers: seq<Answer>, answer: Answer) {
    !answer.Again? && exists k :: 0 <= k < |answers| && answers[k] == answer && forall i :: 0 <= i < k ==> answers[i].Again?
  }

  /** A supervisor exists exactly when the root first stopped with a trap and took its options. */
  method Prepare(root: Pid, policy: Option<LocalIpc.Policy>, answers: seq<Answer>, options: bool)
    returns (p: Preparation, supervisor: Option<Supervisor>)
    ensures p.NotYet? <==> forall i :: 0 <= i < |answers| ==> answers[i].Again?
    ensures p.WaitBroken? <==> EndsWith(answers, Broken)
    ensures p.UnexpectedStatus? <==>
      EndsWith(answers, NotStopped) || exists signal :: signal != SIGTRAP && EndsWith(answers, StoppedBy(signal))
    ensures p.OptionsRefused? <==> EndsWith(answers, StoppedBy(SIGTRAP)) && !options
    ensures p.Ready? <==> EndsWith(answers, StoppedBy(SIGTRAP)) && options
    ensures supervisor.Some? <==> p.Ready?
    ensures supervisor.Some? ==>
      && fresh(supervisor.value) && supervisor.value.root == root && supervisor.value.policy == policy
      && supervisor.value.View(Waiting) == Prepared(root)
  {
    for k := 0 to |answers|
      invariant forall i :: 0 <= i < k ==> answers[i].Again?
    {
      if !answers[k].Again? {
        assert EndsWith(answers, answers[k]);
        if answers[k].Broken? {
          return WaitBroken, None;
        }
        if answers[k] != StoppedBy(SIGTRAP) {
          return UnexpectedStatus, None;
        }
        if !options {
          return OptionsRefused, None;
        }
        var s := new Supervisor(root, policy);
        return Ready, Some(s);
      }
    }
    return NotYet, None;
  }

  lemma RunStep(root: Pid, policy: Option<LocalIpc.Policy>, resumes: bool, events: seq<Event>, k: nat)
    requires k < |events|
    ensures var s := Run(root, policy, resumes, events[..k]);
      Run(root, policy, resumes, events[..k + 1]) == if s.status.Waiting? then Step(root, policy, s, events[k]) else s
  {
    hide Step, Started;
    assert events[..k + 1][..k] == events[..k];
  }

  /** A run that has ended does not change any more. */
  lemma {:induction false} RunStops(root: Pid, policy: Option<LocalIpc.Policy>, resumes: bool, events: seq<Event>, k: nat)
    requires k <= |events| && !Run(root, policy, resumes, events[..k]).status.Waiting?
    ensures Run(root, policy, resumes, events) == Run(root, policy, resumes, events[..k])
    decreases |events| - k
  {
    hide Step, Started;
    if k < |events| {
      RunStep(root, policy, resumes, events, k);
      RunStops(root, policy, resumes, events, k + 1);
    } else {
      assert events[..k] == events;
    }
  }

  // ----- the monitor -----

  /** What the policy permits, read off the tracee's memory and not off the judgement. */
  ghost predicate Permitted(policy: LocalIpc.Policy, syscall: Syscall, memory: Memory) {
    || (syscall.number != CONNECT && syscall.number != BIND)
    || (syscall.address != 0 && NamesNonUnix(memory, syscall.address, Covered(syscall)))
    || (syscall.address != 0 && exists path ::
          NamesPath(memory, syscall.address, Covered(syscall), path) && LocalIpc.Allows(policy, path))
  }

  /** Tracees stopped and the signal each is owed, tracees with options, and stopped calls that must not go on. */
  datatype Monitor = Monitor(owed: map<Pid, int>, optioned: set<Pid>, refused: set<Pid>)

  ghost predicate Refused(policy: Option<LocalIpc.Policy>, entry: Entry)
    requires entry.SawStop?
  {
    && policy.Some? && entry.kind.SeccompStop? && entry.inspection.Registers?
    && !Permitted(policy.value, entry.inspection.syscall, entry.inspection.memory)
  }

  /** A call is legal on a stopped tracee only: options once, an overwrite only of a refused call,
      and a resume only with options, with no refused call pending and with the signal owed. */
  ghost predicate Legal(m: Monitor, entry: Entry) {
    match entry
    case SawEnd(_) => true
    case SawStop(_, _, _) => true
    case SetOptions(pid) => pid in m.owed && pid !in m.optioned
    case Overwrite(pid) => pid in m.owed && pid in m.refused
    case Resume(pid, signal) => pid in m.owed && m.owed[pid] == signal && pid in m.optioned && pid !in m.refused
  }

  ghost function Observe(policy: Option<LocalIpc.Policy>, m: Monitor, entry: Entry): (r: Monitor) {
    match entry
    case SawEnd(pid) => Monitor(m.owed - {pid}, m.optioned - {pid}, m.refused - {pid})
    case SawStop(pid, kind, _) =>
      var known := pid in m.optioned;
      Monitor(m.owed[pid := if known && kind.SignalStop? then kind.signal else 0], m.optioned,
              if known && Refused(policy, entry) then m.refused + {pid} else m.refused - {pid})
    case SetOptions(pid) => m.(optioned := m.optioned + {pid})
    case Overwrite(pid) => m.(refused := m.refused - {pid})
    case Resume(pid, _) => m.(owed := m.owed - {pid})
  }

  /** The monitor after a log in which every call was legal; `None` after one that was not. */
  ghost function Watch(policy: Option<LocalIpc.Policy>, log: seq<Entry>): (r: Option<Monitor>) {
    if log == [] then Some(Monitor(map[], {}, {}))
    else
      var m := Watch(policy, log[..|log| - 1]);
      if m.Some? && Legal(m.value, log[|log| - 1]) then Some(Observe(policy, m.value, log[|log| - 1])) else None
  }

  lemma WatchStep(policy: Option<LocalIpc.Policy>, log: seq<Entry>, entry: Entry)
    ensures var m := Watch(policy, log);
      Watch(policy, log + [entry])
        == if m.Some? && Legal(m.value, entry) then Some(Observe(policy, m.value, entry)) else None
  {
    hide Legal, Observe;
    assert (log + [entry])[..|log|] == log;
  }

  /** The judgement refuses exactly what the policy does not permit. */
  lemma JudgementIsPolicy(policy: LocalIpc.Policy, inspection: Inspection)
    requires Judge(policy, inspection).Some?
    ensures inspection.Registers?
    ensures Judge(policy, inspection).value <==> Permitted(policy, inspection.syscall, inspection.memory)
  {
    hide EndpointOf, NamesPath, NamesNonUnix;
    var syscall, memory := inspection.syscall, inspection.memory;
    if syscall.number == CONNECT || syscall.number == BIND {
      forall path
        ensures EndpointOf(memory, syscall) == Some(UnixPath(path))
            <==> syscall.address != 0 && NamesPath(memory, syscall.address, Covered(syscall), path)
      {
        EndpointMeaning(memory, syscall, path);
      }
      EndpointMeaning(memory, syscall, []);
    }
  }

  /** While the loop waits, every stop it saw has been resumed and the known tracees are those with options. */
  ghost predicate Quiet(policy: Option<LocalIpc.Policy>, s: Supervision) {
    Watch(policy, s.log) == Some(Monitor(map[], s.tracees, {}))
  }

  ghost predicate Sound(policy: Option<LocalIpc.Policy>, s: Supervision) {
    Watch(policy, s.log).Some? && (!s.status.Failed? ==> Quiet(policy, s))
  }

  /** The monitor just after a stop: one tracee is owed a resume. */
  ghost predicate Holding(policy: Option<LocalIpc.Policy>, s: Supervision, e: Event, signal: int, refused: bool)
    requires e.Stopped?
  {
    && e.pid in s.tracees
    && Watch(policy, s.log) == Some(Monitor(map[e.pid := signal], s.tracees, if refused then {e.pid} else {}))
  }

  lemma ResumedSound(policy: Option<LocalIpc.Policy>, s: Supervision, e: Event, signal: int)
    requires e.Stopped? && s.status.Waiting? && Holding(policy, s, e, signal, false)
    ensures Sound(policy, Resumed(s, e, signal))
  {
    hide Watch;
    WatchStep(policy, s.log, Resume(e.pid, signal));
    assert map[e.pid := signal] - {e.pid} == map[];
  }

  lemma OverwrittenSound(policy: Option<LocalIpc.Policy>, s: Supervision, e: Event)
    requires e.Stopped? && s.status.Waiting? && Holding(policy, s, e, 0, true)
    ensures Sound(policy, Overwritten(s, e))
  {
    hide Watch;
    var done := s.(log := s.log + [Overwrite(e.pid)]);
    WatchStep(policy, s.log, Overwrite(e.pid));
    assert {e.pid} - {e.pid} == {};
    assert Holding(policy, done, e, 0, false);
    ResumedSound(policy, done, e, 0);
  }

  lemma AdoptedSound(policy: Option<LocalIpc.Policy>, s: Supervision, e: Event)
    requires e.Stopped? && s.status.Waiting? && e.pid !in s.tracees
    requires Watch(policy, s.log) == Some(Monitor(map[e.pid := 0], s.tracees, {}))
    ensures Sound(policy, Adopted(s, e))
  {
    hide Watch;
    var done := s.(tracees := s.tracees + {e.pid}, log := s.log + [SetOptions(e.pid)]);
    WatchStep(policy, s.log, SetOptions(e.pid));
    assert Holding(policy, done, e, 0, false);
    ResumedSound(policy, done, e, 0);
  }

  lemma SeenIsHeld(policy: Option<LocalIpc.Policy>, s: Supervision, e: Event)
    requires e.Stopped? && s.status.Waiting? && Quiet(policy, s)
    ensures var entry := SawStop(e.pid, e.kind, e.inspection); var seen := s.(log := s.log + [entry]);
      && (e.pid in s.tracees ==>
            Holding(policy, seen, e, if e.kind.SignalStop? then e.kind.signal else 0, Refused(policy, entry)))
      && (e.pid !in s.tracees ==> Watch(policy, seen.log) == Some(Monitor(map[e.pid := 0], s.tracees, {})))
  {
    hide Watch, Refused;
    WatchStep(policy, s.log, SawStop(e.pid, e.kind, e.inspection));
    assert {} + {e.pid} == {e.pid} && {} - {e.pid} == {};
  }

  lemma StopSound(policy: Option<LocalIpc.Policy>, s: Supervision, e: Event)
    requires e.Stopped? && s.status.Waiting? && Quiet(policy, s)
    ensures Sound(policy, Stop(policy, s, e))
  {
    var entry := SawStop(e.pid, e.kind, e.inspection);
    var seen := s.(log := s.log + [entry]);
    SeenIsHeld(policy, s, e);
    if policy.Some? && Judge(policy.value, e.inspection).Some? {
      JudgementIsPolicy(policy.value, e.inspection);
    }
    hide Watch, Permitted, Judge, Resumed, Overwritten, Adopted;
    if e.pid !in s.tracees {
      AdoptedSound(policy, seen, e);
    } else if e.kind.SeccompStop? && policy.Some? {
      var judged := Judge(policy.value, e.inspection);
      if judged == Some(true) {
        ResumedSound(policy, seen, e, 0);
      } else if judged == Some(false) {
        OverwrittenSound(policy, seen, e);
      }
    } else {
      ResumedSound(policy, seen, e, if e.kind.SignalStop? then e.kind.signal else 0);
    }
  }

  lemma StepSound(root: Pid, policy: Option<LocalIpc.Policy>, s: Supervision, e: Event)
    requires s.status.Waiting? && Quiet(policy, s)
    ensures Sound(policy, Step(root, policy, s, e))
  {
    hide Watch, Stop;
    match e
    case Stopped(_, _, _, _) => StopSound(policy, s, e);
    case Ended(pid, _) =>
      WatchStep(policy, s.log, SawEnd(pid));
      var nothing: map<Pid, int> := map[];
      assert nothing - {pid} == nothing && {} - {pid} == {};
    case _ =>
  }

  lemma StartedSound(root: Pid, policy: Option<LocalIpc.Policy>, resumes: bool)
    ensures Sound(policy, Started(root, resumes))
  {
    var trap := SawStop(root, SignalStop(SIGTRAP), NoRegisters);
    var empty := Monitor(map[], {}, {});
    assert Watch(policy, []) == Some(empty);
    hide Watch;
    WatchStep(policy, [], trap);
    assert [] + [trap] == [trap] && {} - {root} == {};
    WatchStep(policy, [trap], SetOptions(root));
    assert {} + {root} == {root};
    assert [trap] + [SetOptions(root)] == Prepared(root).log;
    WatchStep(policy, Prepared(root).log, Resume(root, 0));
    assert map[root := 0] - {root} == map[];
  }

  /** In every run the log is legal: no tracee is resumed before it has options, more than once per
      stop, with a signal it is not owed, or while a refused call is pending, and only refused calls
      are overwritten. Unless a call failed, nothing the loop saw stop is left stopped. */
  lemma {:induction false} SupervisionIsLegal(root: Pid, policy: Option<LocalIpc.Policy>, resumes: bool, events: seq<Event>)
    ensures Sound(policy, Run(root, policy, resumes, events))
  {
    hide Sound, Step, Started;
    if events == [] {
      StartedSound(root, policy, resumes);
    } else {
      var front := events[..|events| - 1];
      SupervisionIsLegal(root, policy, resumes, front);
      var s := Run(root, policy, resumes, front);
      if s.status.Waiting? {
        SoundIsQuiet(policy, s);
        StepSound(root, policy, s, events[|events| - 1]);
      }
    }
  }

  lemma SoundIsQuiet(policy: Option<LocalIpc.Policy>, s: Supervision)
    requires Sound(policy, s) && s.status.Waiting?
    ensures Quiet(policy, s)
  {
  }

  // ----- the result -----

  /** Event `k` is the root's end and everything before it was survived. */
  ghost predicate RootEndsAt(root: Pid, policy: Option<LocalIpc.Policy>, resumes: bool, events: seq<Event>, k: nat, status: int) {
    k < |events| && events[k] == Ended(root, status) && Run(root, policy, resumes, events[..k]).status.Waiting?
  }

  /** A run succeeds exactly when the root ends, with the root's own status. */
  lemma {:induction false} DoneOnlyForRoot(root: Pid, policy: Option<LocalIpc.Policy>, resumes: bool, events: seq<Event>, status: int)
    ensures Run(root, policy, resumes, events).status == Done(status)
        <==> exists k: nat :: RootEndsAt(root, policy, resumes, events, k, status)
  {
    hide Stop, Started;
    if exists k: nat :: RootEndsAt(root, policy, resumes, events, k, status) {
      var k: nat :| RootEndsAt(root, policy, resumes, events, k, status);
      RunStep(root, policy, resumes, events, k);
      RunStops(root, policy, resumes, events, k + 1);
    }
    if Run(root, policy, resumes, events).status == Done(status) {
      DoneHasRoot(root, policy, resumes, events, status);
    }
  }

  lemma StopIsNotDone(policy: Option<LocalIpc.Policy>, s: Supervision, e: Event)
    requires e.Stopped? && s.status.Waiting?
    ensures !Stop(policy, s, e).status.Done?
  {
    hide Judge;
  }

  lemma {:induction false} DoneHasRoot(root: Pid, policy: Option<LocalIpc.Policy>, resumes: bool, events: seq<Event>, status: int)
    requires Run(root, policy, resumes, events).status == Done(status)
    ensures exists k: nat :: RootEndsAt(root, policy, resumes, events, k, status)
  {
    var last := |events| - 1;
    var front := events[..last];
    if Run(root, policy, resumes, front).status.Waiting? {
      if events[last].Stopped? {
        StopIsNotDone(policy, Run(root, policy, resumes, front), events[last]);
      }
      hide Stop;
      assert RootEndsAt(root, policy, resumes, events, last, status);
    } else {
      DoneHasRoot(root, policy, resumes, front, status);
      var k: nat :| RootEndsAt(root, policy, resumes, front, k, status);
      assert events[..k] == front[..k];
      assert RootEndsAt(root, policy, resumes, events, k, status);
    }
  }
}
