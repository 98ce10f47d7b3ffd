/**
 The parent's side of one launch, in the order of its stages. Any stage may fail;
 every failure after the process exists kills the child and waits for it, and
 goes on whatever those two calls answer.
 */
module ParentSpawn {
  import opened Wrappers
  import opened Wire
  import opened LaunchStream
  import LocalIpc
  import EnvironmentFrame

  const RELEASE: Bytes := [114, 117, 110]      // run

  datatype Launch = Launch(
    requirements: Requirements,
    mode: LaunchMode,
    token: Bytes,
    ipc: Option<LocalIpc.Policy>,
    entries: seq<EnvironmentFrame.Entry>,
    env: EnvironmentFrame.Variables,
    timeout: bool,       // a timeout applies, so a watchdog must run
    traced: bool)        // the helper supervises the command with a filter

  ghost predicate WellFormed(l: Launch) {
    && Describes(l.requirements, l.mode, l.token, l.ipc, l.entries, l.env)
    && (LocalIpcRequired(l.requirements) ==> l.requirements.mode.Enabled?)
  }

  // ----- stages -----

  datatype Stage =
    | SetWriteTimeout | WriteToken | WriteBridgeToken | WriteIpcFrame | WriteEnvironment | SetReadTimeout
    | ReadResult | DetachNames | StartWatchdog | WriteRelease | ShutDownWrites

  function When(condition: bool, stage: Stage): (r: seq<Stage>) { if condition then [stage] else [] }

  /** Everything up to the wait for the helper's answer. */
  function Writing(l: Launch): (r: seq<Stage>) {
    [SetWriteTimeout, WriteToken] + When(Proxied(l.mode), WriteBridgeToken) + When(l.ipc.Some?, WriteIpcFrame)
    + [WriteEnvironment, SetReadTimeout]
  }

  /** What must be in place before the command may run. */
  function Arming(l: Launch): (r: seq<Stage>) {
    [ReadResult] + When(Proxied(l.mode), DetachNames) + When(l.timeout, StartWatchdog)
  }

  const RELEASING: seq<Stage> := [WriteRelease, ShutDownWrites]

  function Plan(l: Launch): (r: seq<Stage>) { Writing(l) + Arming(l) + RELEASING }

  function ResultAt(l: Launch): (r: nat) { |Writing(l)| }

  function ReleaseAt(l: Launch): (r: nat) { |Writing(l)| + |Arming(l)| }

  /** No stage occurs twice. */
  lemma PlanIsDistinct(l: Launch)
    ensures forall i, j :: 0 <= i < j < |Plan(l)| ==> Plan(l)[i] != Plan(l)[j]
  {
  }

  /** The place of each stage among all of them. */
  function Rank(stage: Stage): (r: nat) {
    match stage
    case SetWriteTimeout => 0
    case WriteToken => 1
    case WriteBridgeToken => 2
    case WriteIpcFrame => 3
    case WriteEnvironment => 4
    case SetReadTimeout => 5
    case ReadResult => 6
    case DetachNames => 7
    case StartWatchdog => 8
    case WriteRelease => 9
    case ShutDownWrites => 10
  }

  predicate Needed(l: Launch, stage: Stage) {
    && (stage in {WriteBridgeToken, DetachNames} ==> Proxied(l.mode))
    && (stage == WriteIpcFrame ==> l.ipc.Some?)
    && (stage == StartWatchdog ==> l.timeout)
  }

  /** Stages in their order, with ranks from `low` up to but not including `high`. */
  predicate InOrder(stages: seq<Stage>, low: nat, high: nat) {
    && (forall i :: 0 <= i < |stages| ==> low <= Rank(stages[i]) < high)
    && (forall i, j :: 0 <= i < j < |stages| ==> Rank(stages[i]) < Rank(stages[j]))
  }

  lemma InOrderAppends(a: seq<Stage>, b: seq<Stage>, low: nat, middle: nat, high: nat)
    requires InOrder(a, low, middle) && InOrder(b, middle, high) && low <= middle <= high
    ensures InOrder(a + b, low, high)
  {
  }

  lemma StageInOrder(condition: bool, stage: Stage)
    ensures InOrder(When(condition, stage), Rank(stage), Rank(stage) + 1)
  {
  }

  lemma PairInOrder(first: Stage, second: Stage)
    requires Rank(first) < Rank(second)
    ensures InOrder([first, second], Rank(first), Rank(second) + 1)
  {
  }

  lemma WritingInOrder(l: Launch)
    ensures InOrder(Writing(l), 0, 6)
  {
    hide InOrder, When, Proxied;
    var opening, closing := [SetWriteTimeout, WriteToken], [WriteEnvironment, SetReadTimeout];
    var bridge, frame := When(Proxied(l.mode), WriteBridgeToken), When(l.ipc.Some?, WriteIpcFrame);
    PairInOrder(SetWriteTimeout, WriteToken);
    StageInOrder(Proxied(l.mode), WriteBridgeToken);
    InOrderAppends(opening, bridge, 0, 2, 3);
    StageInOrder(l.ipc.Some?, WriteIpcFrame);
    InOrderAppends(opening + bridge, frame, 0, 3, 4);
    PairInOrder(WriteEnvironment, SetReadTimeout);
    InOrderAppends(opening + bridge + frame, closing, 0, 4, 6);
  }

  lemma ArmingInOrder(l: Launch)
    ensures InOrder(Arming(l), 6, 9)
  {
    hide InOrder, When, Proxied;
    var names := When(Proxied(l.mode), DetachNames);
    assert InOrder([ReadResult], 6, 7) by {
      StageInOrder(true, ReadResult);
      assert When(true, ReadResult) == [ReadResult] by { WhenTrue(ReadResult); }
    }
    StageInOrder(Proxied(l.mode), DetachNames);
    InOrderAppends([ReadResult], names, 6, 7, 8);
    StageInOrder(l.timeout, StartWatchdog);
    InOrderAppends([ReadResult] + names, When(l.timeout, StartWatchdog), 6, 8, 9);
  }

  lemma WhenTrue(stage: Stage)
    ensures When(true, stage) == [stage]
  {
  }

  lemma WritingHolds(l: Launch, stage: Stage)
    ensures stage in Writing(l) <==> Needed(l, stage) && Rank(stage) < 6
  {
  }

  lemma ArmingHolds(l: Launch, stage: Stage)
    ensures stage in Arming(l) <==> Needed(l, stage) && 6 <= Rank(stage) < 9
  {
  }

  /** The plan is the stages the launch needs, and only those, in their order. */
  lemma PlanIsNeeded(l: Launch)
    ensures InOrder(Plan(l), 0, 11)
    ensures forall stage :: stage in Plan(l) <==> Needed(l, stage)
  {
    hide Writing, Arming, InOrder;
    WritingInOrder(l);
    ArmingInOrder(l);
    InOrderAppends(Writing(l), Arming(l), 0, 6, 9);
    PairInOrder(WriteRelease, ShutDownWrites);
    InOrderAppends(Writing(l) + Arming(l), RELEASING, 0, 9, 11);
    forall stage ensures stage in Plan(l) <==> Needed(l, stage) {
      WritingHolds(l, stage);
      ArmingHolds(l, stage);
    }
  }

  // ----- what one spawn does -----

  datatype Entry = Did(stage: Stage) | Killed(ok: bool) | Waited(ok: bool)

  /** Whether the process is created, which stages would succeed, and what `kill` and `wait` answer. */
  datatype Outcomes = Outcomes(created: bool, ok: Stage -> bool, kill: bool, wait: bool)

  datatype Spawned = NotCreated | Handle | FailedAt(stage: Stage)

  function Dids(stages: seq<Stage>): (r: seq<Entry>)
    ensures |r| == |stages| && forall i :: 0 <= i < |r| ==> r[i] == Did(stages[i])
  {
    seq(|stages|, i requires 0 <= i < |stages| => Did(stages[i]))
  }

  /** Stages are done one by one; the first that fails ends in termination. */
  function RunStages(stages: seq<Stage>, o: Outcomes, log: seq<Entry>): (r: (Spawned, seq<Entry>))
    decreases |stages|
  {
    if stages == [] then (Handle, log)
    else if !o.ok(stages[0]) then (FailedAt(stages[0]), log + [Killed(o.kill), Waited(o.wait)])
    else RunStages(stages[1..], o, log + [Did(stages[0])])
  }

  method TerminateFailedSetup(o: Outcomes, log: seq<Entry>) returns (r: seq<Entry>)
    ensures r == log + [Killed(o.kill), Waited(o.wait)]
  {
    r := log + [Killed(o.kill)];
    r := r + [Waited(o.wait)];
  }

  lemma StageStep(condition: bool, stage: Stage, rest: seq<Stage>, o: Outcomes, log: seq<Entry>)
    ensures RunStages(When(condition, stage) + rest, o, log)
         == if !condition then RunStages(rest, o, log)
            else if o.ok(stage) then RunStages(rest, o, log + [Did(stage)])
            else (FailedAt(stage), log + [Killed(o.kill), Waited(o.wait)])
  {
    if condition {
      assert ([stage] + rest)[1..] == rest;
    } else {
      assert [] + rest == rest;
    }
  }

  lemma NothingLeft(o: Outcomes, log: seq<Entry>)
    ensures RunStages([], o, log) == (Handle, log)
  {
  }

  ghost function Unfolded(l: Launch): (r: seq<Stage>) {
    When(true, SetWriteTimeout) + (When(true, WriteToken) + (When(Proxied(l.mode), WriteBridgeToken) + (
      When(l.ipc.Some?, WriteIpcFrame) + (When(true, WriteEnvironment) + (When(true, SetReadTimeout) + (
      When(true, ReadResult) + (When(Proxied(l.mode), DetachNames) + (When(l.timeout, StartWatchdog) + (
      When(true, WriteRelease) + (When(true, ShutDownWrites) + ([])))))))))))
  }

  lemma PlanUnfolds(l: Launch)
    ensures Plan(l) == Unfolded(l)
  {
  }

  /** Creates the process and takes it through every stage of its plan, each with its own way out. */
  method Spawn(l: Launch, o: Outcomes) returns (r: Spawned, log: seq<Entry>)
    ensures !o.created ==> r == NotCreated && log == []
    ensures o.created ==> (r, log) == RunStages(Plan(l), o, [])
  {
    hide RunStages;
    if !o.created {
      return NotCreated, [];
    }
    ghost var afterAll: seq<Stage> := [];
    ghost var afterRelease := When(true, ShutDownWrites) + afterAll;
    ghost var afterWatchdog := When(true, WriteRelease) + afterRelease;
    ghost var afterNames := When(l.timeout, StartWatchdog) + afterWatchdog;
    ghost var afterResult := When(Proxied(l.mode), DetachNames) + afterNames;
    ghost var afterReadTimeout := When(true, ReadResult) + afterResult;
    ghost var afterEnvironment := When(true, SetReadTimeout) + afterReadTimeout;
    ghost var afterIpc := When(true, WriteEnvironment) + afterEnvironment;
    ghost var afterBridge := When(l.ipc.Some?, WriteIpcFrame) + afterIpc;
    ghost var afterToken := When(Proxied(l.mode), WriteBridgeToken) + afterBridge;
    ghost var afterWriteTimeout := When(true, WriteToken) + afterToken;
    PlanUnfolds(l);
    hide When, Plan;
    log := [];
    StageStep(true, SetWriteTimeout, afterWriteTimeout, o, log);
    if !o.ok(SetWriteTimeout) {
      log := TerminateFailedSetup(o, log);
      return FailedAt(SetWriteTimeout), log;
    }
    log := log + [Did(SetWriteTimeout)];
    StageStep(true, WriteToken, afterToken, o, log);
    if !o.ok(WriteToken) {
      log := TerminateFailedSetup(o, log);
      return FailedAt(WriteToken), log;
    }
    log := log + [Did(WriteToken)];
    StageStep(Proxied(l.mode), WriteBridgeToken, afterBridge, o, log);
    if Proxied(l.mode) {
      if !o.ok(WriteBridgeToken) {
        log := TerminateFailedSetup(o, log);
        return FailedAt(WriteBridgeToken), log;
      }
      log := log + [Did(WriteBridgeToken)];
    }
    StageStep(l.ipc.Some?, WriteIpcFrame, afterIpc, o, log);
    if l.ipc.Some? {
      if !o.ok(WriteIpcFrame) {
        log := TerminateFailedSetup(o, log);
        return FailedAt(WriteIpcFrame), log;
      }
      log := log + [Did(WriteIpcFrame)];
    }
    StageStep(true, WriteEnvironment, afterEnvironment, o, log);
    if !o.ok(WriteEnvironment) {
      log := TerminateFailedSetup(o, log);
      return FailedAt(WriteEnvironment), log;
    }
    log := log + [Did(WriteEnvironment)];
    StageStep(true, SetReadTimeout, afterReadTimeout, o, log);
    if !o.ok(SetReadTimeout) {
      log := TerminateFailedSetup(o, log);
      return FailedAt(SetReadTimeout), log;
    }
    log := log + [Did(SetReadTimeout)];
    StageStep(true, ReadResult, afterResult, o, log);
    if !o.ok(ReadResult) {
      log := TerminateFailedSetup(o, log);
      return FailedAt(ReadResult), log;
    }
    log := log + [Did(ReadResult)];
    StageStep(Proxied(l.mode), DetachNames, afterNames, o, log);
    if Proxied(l.mode) {
      if !o.ok(DetachNames) {
        log := TerminateFailedSetup(o, log);
        return FailedAt(DetachNames), log;
      }
      log := log + [Did(DetachNames)];
    }
    StageStep(l.timeout, StartWatchdog, afterWatchdog, o, log);
    if l.timeout {
      if !o.ok(StartWatchdog) {
        log := TerminateFailedSetup(o, log);
        return FailedAt(StartWatchdog), log;
      }
      log := log + [Did(StartWatchdog)];
    }
    StageStep(true, WriteRelease, afterRelease, o, log);
    if !o.ok(WriteRelease) {
      log := TerminateFailedSetup(o, log);
      return FailedAt(WriteRelease), log;
    }
    log := log + [Did(WriteRelease)];
    StageStep(true, ShutDownWrites, afterAll, o, log);
    if !o.ok(ShutDownWrites) {
      log := TerminateFailedSetup(o, log);
      return FailedAt(ShutDownWrites), log;
    }
    log := log + [Did(ShutDownWrites)];
    NothingLeft(o, log);
    return Handle, log;
  }

  // ----- what a spawn leaves behind -----

  predicate AllOk(stages: seq<Stage>, o: Outcomes, n: nat) {
    n <= |stages| && forall i :: 0 <= i < n ==> o.ok(stages[i])
  }

  /** Stage `k` is the first that fails. */
  predicate FirstFailure(stages: seq<Stage>, o: Outcomes, k: nat) {
    k < |stages| && AllOk(stages, o, k) && !o.ok(stages[k])
  }

  lemma {:induction false} StagesSucceed(stages: seq<Stage>, o: Outcomes, log: seq<Entry>)
    requires AllOk(stages, o, |stages|)
    ensures RunStages(stages, o, log) == (Handle, log + Dids(stages))
    decreases |stages|
  {
    if stages == [] {
      assert log + [] == log;
    } else {
      StagesSucceed(stages[1..], o, log + [Did(stages[0])]);
      assert Dids(stages) == [Did(stages[0])] + Dids(stages[1..]);
      assert log + [Did(stages[0])] + Dids(stages[1..]) == log + Dids(stages);
    }
  }

  lemma {:induction false} StagesFail(stages: seq<Stage>, o: Outcomes, log: seq<Entry>, k: nat)
    requires FirstFailure(stages, o, k)
    ensures RunStages(stages, o, log)
         == (FailedAt(stages[k]), log + Dids(stages[..k]) + [Killed(o.kill), Waited(o.wait)])
    decreases |stages|
  {
    if k == 0 {
      assert log + [] == log;
    } else {
      StagesFail(stages[1..], o, log + [Did(stages[0])], k - 1);
      assert stages[1..][..k - 1] == stages[1..k];
      assert Dids(stages[..k]) == [Did(stages[0])] + Dids(stages[1..k]);
      assert log + [Did(stages[0])] + Dids(stages[1..k]) == log + Dids(stages[..k]);
    }
  }

  /** Every error after the process exists has done exactly the stages before the failing one, then killed the
      child, then waited for it; without an error every stage was done, and neither call was made. */
  lemma EveryErrorTerminates(l: Launch, o: Outcomes, k: nat)
    requires o.created && k <= |Plan(l)|
    requires if k == |Plan(l)| then AllOk(Plan(l), o, k) else FirstFailure(Plan(l), o, k)
    ensures RunStages(Plan(l), o, [])
         == if k == |Plan(l)| then (Handle, Dids(Plan(l)))
            else (FailedAt(Plan(l)[k]), Dids(Plan(l)[..k]) + [Killed(o.kill), Waited(o.wait)])
  {
    hide Plan, RunStages;
    if k == |Plan(l)| {
      StagesSucceed(Plan(l), o, []);
      assert [] + Dids(Plan(l)) == Dids(Plan(l));
    } else {
      StagesFail(Plan(l), o, [], k);
      assert [] + Dids(Plan(l)[..k]) == Dids(Plan(l)[..k]);
    }
  }
}
