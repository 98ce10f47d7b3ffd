/**
 One launch as two processes over two byte streams. A run is any sequence of
 steps of the parent, the helper and the outside world, in any interleaving;
 every step may also fail. Writes arrive in pieces of any size, and a process
 may die at any moment.
 */
module Handshake {
  import opened Wrappers
  import opened Wire
  import opened LaunchStream
  import opened ResultFrames
  import opened ParentSpawn
  import LocalIpc
  import EnvironmentFrame

  const READY: Bytes := EncodeSetup(Ready)

  // ----- what the parent writes -----

  function BytesOf(l: Launch, stage: Stage): (r: Bytes) {
    match stage
    case WriteToken => AUTH_TOKEN
    case WriteBridgeToken => l.token
    case WriteIpcFrame => if l.ipc.Some? then LocalIpc.EncodeFrame(l.ipc.value) else []
    case WriteEnvironment => EnvironmentFrame.EncodeEnvironment(l.entries)
    case WriteRelease => RELEASE
    case _ => []
  }

  function BytesOfAll(l: Launch, stages: seq<Stage>): (r: Bytes) {
    if stages == [] then [] else BytesOfAll(l, stages[..|stages| - 1]) + BytesOf(l, stages[|stages| - 1])
  }

  /** What has been written when the first `k` stages are done. */
  function Total(l: Launch, k: nat): (r: Bytes)
    requires k <= |Plan(l)|
  {
    BytesOfAll(l, Plan(l)[..k])
  }

  function Setup(l: Launch): (r: Bytes) { Sent(l.mode, l.token, l.ipc, l.entries) }

  /** Everything the parent ever writes. */
  function Whole(l: Launch): (r: Bytes) { Setup(l) + RELEASE }

  lemma {:induction false} BytesAppend(l: Launch, a: seq<Stage>, b: seq<Stage>)
    ensures BytesOfAll(l, a + b) == BytesOfAll(l, a) + BytesOfAll(l, b)
    decreases |b|
  {
    hide BytesOf;
    if b == [] {
      assert a + b == a;
    } else {
      BytesAppend(l, a, b[..|b| - 1]);
      assert (a + b)[..|a + b| - 1] == a + b[..|b| - 1];
    }
  }

  lemma BytesOfOne(l: Launch, stage: Stage)
    ensures BytesOfAll(l, [stage]) == BytesOf(l, stage)
  {
    hide BytesOf;
    assert [stage][..0] == [];
  }

  lemma BytesWhen(l: Launch, condition: bool, stage: Stage)
    ensures BytesOfAll(l, When(condition, stage)) == if condition then BytesOf(l, stage) else []
  {
    BytesOfOne(l, stage);
  }

  lemma WritingIsSetup(l: Launch)
    ensures BytesOfAll(l, Writing(l)) == Setup(l)
  {
    var bridge, ipc := When(Proxied(l.mode), WriteBridgeToken), When(l.ipc.Some?, WriteIpcFrame);
    BytesWhen(l, Proxied(l.mode), WriteBridgeToken);
    BytesWhen(l, l.ipc.Some?, WriteIpcFrame);
    BytesOfOne(l, SetWriteTimeout);
    BytesOfOne(l, WriteToken);
    BytesOfOne(l, WriteEnvironment);
    BytesOfOne(l, SetReadTimeout);
    hide BytesOfAll, When, LocalIpc.EncodeFrame, EnvironmentFrame.EncodeEnvironment;
    BytesAppend(l, [SetWriteTimeout], [WriteToken]);
    BytesAppend(l, [SetWriteTimeout, WriteToken], bridge);
    BytesAppend(l, [SetWriteTimeout, WriteToken] + bridge, ipc);
    BytesAppend(l, [WriteEnvironment], [SetReadTimeout]);
    BytesAppend(l, [SetWriteTimeout, WriteToken] + bridge + ipc, [WriteEnvironment, SetReadTimeout]);
    assert [SetWriteTimeout] + [WriteToken] == [SetWriteTimeout, WriteToken];
    assert [WriteEnvironment] + [SetReadTimeout] == [WriteEnvironment, SetReadTimeout];
  }

  lemma ArmingWritesNothing(l: Launch)
    ensures BytesOfAll(l, Arming(l)) == [] && BytesOfAll(l, RELEASING) == RELEASE
  {
    var names, watchdog := When(Proxied(l.mode), DetachNames), When(l.timeout, StartWatchdog);
    BytesWhen(l, Proxied(l.mode), DetachNames);
    BytesWhen(l, l.timeout, StartWatchdog);
    BytesOfOne(l, ReadResult);
    BytesOfOne(l, WriteRelease);
    BytesOfOne(l, ShutDownWrites);
    hide BytesOfAll;
    BytesAppend(l, [ReadResult], names);
    BytesAppend(l, [ReadResult] + names, watchdog);
    BytesAppend(l, [WriteRelease], [ShutDownWrites]);
    assert [WriteRelease] + [ShutDownWrites] == RELEASING;
  }

  /** The setup is complete when the parent waits, and stays so until it releases. */
  lemma TotalAtRelease(l: Launch)
    ensures Total(l, ReleaseAt(l)) == Setup(l) && Total(l, |Plan(l)|) == Whole(l)
    ensures ReleaseAt(l) + 2 == |Plan(l)| && Plan(l)[ResultAt(l)] == ReadResult && ResultAt(l) < ReleaseAt(l)
    ensures Plan(l)[ReleaseAt(l)] == WriteRelease
  {
    hide BytesOfAll;
    WritingIsSetup(l);
    ArmingWritesNothing(l);
    BytesAppend(l, Writing(l), Arming(l));
    BytesAppend(l, Writing(l) + Arming(l), RELEASING);
    assert Plan(l)[..ReleaseAt(l)] == Writing(l) + Arming(l);
    assert Plan(l)[..|Plan(l)|] == Plan(l);
    assert Plan(l)[ResultAt(l)] == Arming(l)[0];
  }

  lemma TotalGrows(l: Launch, k: nat)
    requires k < |Plan(l)|
    ensures Total(l, k + 1) == Total(l, k) + BytesOf(l, Plan(l)[k])
  {
    hide Plan, BytesOf;
    assert Plan(l)[..k + 1][..k] == Plan(l)[..k];
  }

  lemma {:induction false} TotalMonotone(l: Launch, j: nat, k: nat)
    requires j <= k <= |Plan(l)|
    ensures Total(l, j) <= Total(l, k)
    decreases k - j
  {
    hide Total, Plan, BytesOf;
    if j < k {
      TotalMonotone(l, j, k - 1);
      TotalGrows(l, k - 1);
    }
  }

  // ----- states -----

  datatype Parent =
    | Starting | Working | Launched
    | Failing        // a stage failed; the child is to be killed
    | Waiting        // it was killed, or the attempt failed; it is to be waited for
    | Failed

  datatype Helper =
    | NotStarted | Reading | Configured | Spawned | AwaitingRelease | Cleared | Supervising | Reporting | Exited

  datatype Child = Absent | Alive | Dead | Reaped

  datatype Command = NoCommand | Stopped | Running | Gone

  datatype State = State(
    parent: Parent,
    stage: nat,                   // stages the parent has done
    log: seq<Entry>,              // what the parent has done
    helper: Helper,
    child: Child,
    command: Command,
    down: Bytes,                  // written by the parent so far
    downRead: nat,                // read by the helper so far
    up: Bytes,                    // written by the helper so far
    readySent: bool,
    ran: bool,                    // user code has executed
    reported: Option<StatusResult>)

  const INITIAL := State(Starting, 0, [], NotStarted, Absent, NoCommand, [], 0, [], false, false, None)

  function Kill(command: Command): (r: Command) { if command.NoCommand? then NoCommand else Gone }

  // ----- steps of the parent -----

  function ParentCreates(s: State, ok: bool): (r: State) {
    if !s.parent.Starting? then s
    else if ok then s.(parent := Working, child := Alive)
    else s.(parent := Failed)
  }

  /** Some more bytes of the current stage arrive. */
  function ParentWrites(l: Launch, s: State, n: nat): (r: State) {
    if s.parent.Working? && s.stage < |Plan(l)| && |s.down| + n <= |Total(l, s.stage + 1)| then
      s.(down := Total(l, s.stage + 1)[..|s.down| + n])
    else s
  }

  /** A stage that writes is done when its bytes have been written; the result is read when it is READY. */
  predicate CanComplete(l: Launch, s: State)
    requires s.stage < |Plan(l)|
  {
    && |s.down| == |Total(l, s.stage + 1)|
    && (Plan(l)[s.stage].ReadResult? ==> DecodeSetup(s.up).Success? && DecodeSetup(s.up).value.0.Ready?)
  }

  function ParentCompletes(l: Launch, s: State): (r: State) {
    if s.parent.Working? && s.stage < |Plan(l)| && CanComplete(l, s) then
      s.(stage := s.stage + 1, log := s.log + [Did(Plan(l)[s.stage])],
         parent := if s.stage + 1 == |Plan(l)| then Launched else Working)
    else s
  }

  /** The current stage fails: an error, a rejection, a malformed answer or a timeout. */
  function ParentBreaks(s: State): (r: State) {
    if s.parent.Working? then s.(parent := Failing) else s
  }

  function ParentKills(s: State, ok: bool): (r: State) {
    if s.parent.Failing? then s.(parent := Waiting, log := s.log + [Killed(ok)]) else s
  }

  /** A successful wait needs a dead child and reaps it; a failed one tells nothing. */
  function ParentWaits(s: State, ok: bool): (r: State) {
    if !s.parent.Waiting? then s
    else if !ok then s.(parent := Failed, log := s.log + [Waited(false)])
    else if s.child.Dead? then s.(parent := Failed, log := s.log + [Waited(true)], child := Reaped)
    else s
  }

  /** The child dies, of a signal or by itself, and its process namespace with it. */
  function ChildDies(s: State): (r: State) {
    if s.child.Alive? then s.(child := Dead, helper := Exited, command := Kill(s.command)) else s
  }

  // ----- steps of the helper -----

  function HelperStarts(s: State): (r: State) {
    if s.child.Alive? && s.helper.NotStarted? then s.(helper := Reading) else s
  }

  function HelperReceives(l: Launch, s: State, gateway: Gateway): (r: State) {
    if !s.helper.Reading? then s
    else
      match LaunchStream.Receive(ModeVariable(l.mode), gateway, s.down)
      case Success((_, rest)) =>
        if |rest| <= |s.down| then s.(helper := Configured, downRead := |s.down| - |rest|) else s
      case Failure(_) => s
  }

  /** A supervised command is created stopped, before the parent hears anything. */
  function HelperPrepares(l: Launch, s: State): (r: State) {
    if s.helper.Configured? then s.(helper := Spawned, command := if l.traced then Stopped else NoCommand) else s
  }

  function HelperSendsReady(s: State, n: nat): (r: State) {
    if s.helper.Spawned? && |s.up| + n <= |READY| then
      var up := READY[..|s.up| + n];
      if |up| == |READY| then s.(up := up, readySent := true, helper := AwaitingRelease) else s.(up := up)
    else s
  }

  function HelperReadsRelease(s: State): (r: State) {
    if s.helper.AwaitingRelease? && s.downRead + |RELEASE| <= |s.down| then
      if s.down[s.downRead..s.downRead + |RELEASE|] == RELEASE then
        s.(helper := Cleared, downRead := s.downRead + |RELEASE|)
      else s.(helper := Exited, command := Kill(s.command))
    else s
  }

  /** Resumes the stopped command, or creates it now. */
  function HelperRuns(s: State): (r: State) {
    if s.helper.Cleared? then s.(helper := Supervising, command := Running, ran := true) else s
  }

  function CommandExits(s: State): (r: State) {
    if s.helper.Supervising? then s.(helper := Reporting, command := Gone) else s
  }

  function HelperReports(s: State, result: StatusResult): (r: State) {
    if s.helper.Reporting? then s.(helper := Exited, up := s.up + EncodeStatus(result), reported := Some(result)) else s
  }

  /** A failure before READY is reported as a frame, of which any part may arrive. */
  function HelperRejects(s: State, kind: SetupKind, errno: Option<I32>, n: nat): (r: State) {
    if s.helper in {Reading, Configured, Spawned} && s.up == [] && n <= |EncodeSetup(Rejected(kind, errno))| then
      s.(helper := Exited, up := EncodeSetup(Rejected(kind, errno))[..n], command := Kill(s.command))
    else s
  }

  /** The command cannot be created, or waiting for it fails; a supervised one is then killed. */
  function HelperLosesCommand(l: Launch, s: State): (r: State) {
    if s.helper.Cleared? && !l.traced then s.(helper := Reporting)
    else if s.helper.Supervising? then s.(helper := Reporting, command := if l.traced then Gone else s.command)
    else s
  }

  /** The handshake or the final report fails: the helper ends, and with it a command it still holds. */
  function HelperQuits(s: State): (r: State) {
    if s.helper in {Spawned, AwaitingRelease} then s.(helper := Exited, command := Kill(s.command))
    else if s.helper.Reporting? then s.(helper := Exited)
    else s
  }

  // ----- runs -----

  datatype Step =
    | Create(ok: bool) | Write(n: nat) | Complete | Break | KillChild(killed: bool) | WaitChild(waited: bool) | Die
    | Start | Receive(gateway: Gateway) | Prepare | SendReady(n: nat) | ReadRelease | RunCommand | ExitCommand
    | LoseCommand | Report(result: StatusResult) | Reject(kind: SetupKind, errno: Option<I32>, n: nat) | Quit

  function Apply(l: Launch, s: State, step: Step): (r: State) {
    match step
    case Create(ok) => ParentCreates(s, ok)
    case Write(n) => ParentWrites(l, s, n)
    case Complete => ParentCompletes(l, s)
    case Break => ParentBreaks(s)
    case KillChild(ok) => ParentKills(s, ok)
    case WaitChild(ok) => ParentWaits(s, ok)
    case Die => ChildDies(s)
    case Start => HelperStarts(s)
    case Receive(gateway) => HelperReceives(l, s, gateway)
    case Prepare => HelperPrepares(l, s)
    case SendReady(n) => HelperSendsReady(s, n)
    case ReadRelease => HelperReadsRelease(s)
    case RunCommand => HelperRuns(s)
    case ExitCommand => CommandExits(s)
    case LoseCommand => HelperLosesCommand(l, s)
    case Report(result) => HelperReports(s, result)
    case Reject(kind, errno, n) => HelperRejects(s, kind, errno, n)
    case Quit => HelperQuits(s)
  }

  function Run(l: Launch, steps: seq<Step>): (s: State) {
    if steps == [] then INITIAL else Apply(l, Run(l, steps[..|steps| - 1]), steps[|steps| - 1])
  }

  // ----- what every step keeps -----

  /** What is written lies between what the done stages write and what the current one adds. */
  predicate Down(l: Launch, s: State) {
    && s.stage <= |Plan(l)| && s.down <= Whole(l)
    && |Total(l, s.stage)| <= |s.down|
    && (s.stage < |Plan(l)| ==> |s.down| <= |Total(l, s.stage + 1)|)
  }

  /** The parent's log: the done stages, and after a failure the two calls that end the child. */
  ghost predicate Logged(l: Launch, s: State) {
    && s.stage <= |Plan(l)|
    && (s.parent in {Starting, Working, Launched, Failing} ==> s.log == Dids(Plan(l)[..s.stage]))
    && (s.parent.Waiting? ==> exists killed :: s.log == Dids(Plan(l)[..s.stage]) + [Killed(killed)])
    && (s.parent.Failed? && s.child.Absent? ==> s.log == [])
    && (s.parent.Failed? && !s.child.Absent? ==> exists killed :: Ended(l, s, killed, s.child.Reaped?))
    && (s.parent in {Failing, Waiting, Failed} && !s.child.Absent? ==> s.stage < |Plan(l)|)
    && (s.parent.Working? ==> s.stage < |Plan(l)|)
    && (s.parent.Launched? <==> s.stage == |Plan(l)|)
  }

  predicate Ended(l: Launch, s: State, killed: bool, waited: bool) {
    && s.stage < |Plan(l)|
    && s.log == Dids(Plan(l)[..s.stage]) + [Killed(killed), Waited(waited)]
  }

  /** What the helper has written cannot be mistaken for READY before it is READY. */
  ghost predicate Up(l: Launch, s: State) {
    && (s.readySent ==> READY <= s.up)
    && (!s.readySent ==> Unready(s.up))
    && (s.helper in {NotStarted, Reading, Configured} ==> s.up == [])
    && (s.helper.Spawned? ==> s.up < READY)
    && (s.helper in {NotStarted, Reading, Configured, Spawned} ==> !s.readySent)
    && (s.helper in {AwaitingRelease, Cleared, Supervising, Reporting} ==> s.readySent && s.up == READY)
    && (s.reported.Some? ==> s.helper.Exited? && s.readySent && s.up == READY + EncodeStatus(s.reported.value))
    && (s.stage > ResultAt(l) ==> s.readySent)
  }

  ghost predicate Unready(up: Bytes) {
    up < READY || exists kind, errno :: up <= EncodeSetup(Rejected(kind, errno))
  }

  predicate Offsets(l: Launch, s: State) {
    && (s.helper in {Configured, Spawned, AwaitingRelease} ==> s.downRead == |Setup(l)|)
    && (s.helper in {Cleared, Supervising, Reporting} ==> s.down == Whole(l))
    && (s.ran ==> s.down == Whole(l))
  }

  predicate Processes(l: Launch, s: State) {
    && (s.child.Absent? <==> s.parent.Starting? || (s.parent.Failed? && s.log == []))
    && (s.child.Absent? ==> s.helper.NotStarted? && s.stage == 0)
    && (s.child.Reaped? ==> s.parent.Failed?)
    && (s.child in {Dead, Reaped} ==> s.helper.Exited? && s.command in {NoCommand, Gone})
    && (s.command.Stopped? ==> l.traced && s.helper in {Spawned, AwaitingRelease, Cleared})
    && (s.command.Running? ==> s.ran && (s.helper.Supervising? || (!l.traced && s.helper in {Reporting, Exited})))
    && (s.helper in {NotStarted, Reading, Configured} ==> s.command.NoCommand?)
  }

  ghost predicate Inv(l: Launch, s: State) {
    Down(l, s) && Logged(l, s) && Up(l, s) && Offsets(l, s) && Processes(l, s)
  }

  lemma ReadyIs()
    ensures READY == SETUP_MAGIC + [SETUP_READY] && |READY| == 9
  {
  }

  lemma ReadyIsNotUnready(up: Bytes)
    requires READY <= up
    ensures !Unready(up)
  {
    ReadyIs();
    forall kind, errno ensures !(up <= EncodeSetup(Rejected(kind, errno))) {
      assert up[8] == SETUP_READY;
      assert EncodeSetup(Rejected(kind, errno))[8] == SETUP_FAILURE;
    }
  }

  /** A stream that decodes as READY begins with READY, so the helper sent it. */
  lemma ReadyWasSent(l: Launch, s: State)
    requires Up(l, s) && DecodeSetup(s.up).Success? && DecodeSetup(s.up).value.0.Ready?
    ensures s.readySent
  {
    SetupRewrites(s.up);
    hide DecodeSetup;
    ReadyIsNotUnready(s.up);
  }

  lemma CreatesKeep(l: Launch, s: State, ok: bool)
    requires Inv(l, s)
    ensures Inv(l, ParentCreates(s, ok))
  {
    hide Setup, EncodeSetup, Plan, Total;
    assert s.parent.Starting? ==> s.log == [];
  }

  lemma WritesKeep(l: Launch, s: State, n: nat)
    requires Inv(l, s)
    ensures Inv(l, ParentWrites(l, s, n))
  {
    hide Setup, EncodeSetup, Plan, Total, BytesOf;
    if s.parent.Working? && s.stage < |Plan(l)| && |s.down| + n <= |Total(l, s.stage + 1)| {
      TotalAtRelease(l);
      TotalMonotone(l, s.stage + 1, |Plan(l)|);
      var down := Total(l, s.stage + 1)[..|s.down| + n];
      assert down <= Whole(l);
      assert s.down == Whole(l) ==> down == Whole(l);
    }
  }

  lemma DidsGrow(stages: seq<Stage>, k: nat)
    requires k < |stages|
    ensures Dids(stages[..k]) + [Did(stages[k])] == Dids(stages[..k + 1])
  {
  }

  lemma CompletesKeep(l: Launch, s: State)
    requires Inv(l, s)
    ensures Inv(l, ParentCompletes(l, s))
  {
    TotalAtRelease(l);
    hide Setup, EncodeSetup, DecodeSetup, Plan, Total, Unready, BytesOf;
    if s.parent.Working? && s.stage < |Plan(l)| && CanComplete(l, s) {
      if s.stage == ResultAt(l) {
        ReadyWasSent(l, s);
      }
      if s.stage + 1 < |Plan(l)| {
        TotalGrows(l, s.stage + 1);
      }
      DidsGrow(Plan(l), s.stage);
    }
  }

  /** What the parent does without writing or moving on leaves the helper's side alone. */
  lemma ParentKeepsHelper(l: Launch, s: State, r: State)
    requires Up(l, s) && Offsets(l, s) && Down(l, s)
    requires r == s.(parent := r.parent, log := r.log, child := r.child)
    ensures Up(l, r) && Offsets(l, r) && Down(l, r)
  {
    hide Setup, Whole, Plan, Total, ResultAt, READY, Unready, EncodeStatus;
  }

  lemma BreaksKeep(l: Launch, s: State)
    requires Inv(l, s)
    ensures Inv(l, ParentBreaks(s))
  {
    ParentKeepsHelper(l, s, ParentBreaks(s));
    hide Plan, Up, Offsets, Down;
  }

  lemma KillsKeep(l: Launch, s: State, ok: bool)
    requires Inv(l, s)
    ensures Inv(l, ParentKills(s, ok))
  {
    ParentKeepsHelper(l, s, ParentKills(s, ok));
    hide Plan, Up, Offsets, Down;
    if s.parent.Failing? {
      assert ParentKills(s, ok).log == Dids(Plan(l)[..s.stage]) + [Killed(ok)];
    }
  }

  lemma WaitsKeep(l: Launch, s: State, ok: bool)
    requires Inv(l, s)
    ensures Inv(l, ParentWaits(s, ok))
  {
    ParentKeepsHelper(l, s, ParentWaits(s, ok));
    WaitIsLogged(l, s, ok);
    hide Plan, Up, Offsets, Down, Logged;
  }

  lemma WaitIsLogged(l: Launch, s: State, ok: bool)
    requires Logged(l, s) && Processes(l, s)
    ensures Logged(l, ParentWaits(s, ok))
  {
    hide Plan;
    var r := ParentWaits(s, ok);
    if s.parent.Waiting? && r.parent.Failed? {
      var killed :| s.log == Dids(Plan(l)[..s.stage]) + [Killed(killed)];
      assert r.log == Dids(Plan(l)[..s.stage]) + [Killed(killed), Waited(ok)];
      assert Ended(l, r, killed, r.child.Reaped?);
    }
  }

  lemma DiesKeep(l: Launch, s: State)
    requires Inv(l, s)
    ensures Inv(l, ChildDies(s))
  {
    var r := ChildDies(s);
    hide Setup, Whole, Plan, Total, ResultAt, READY, Unready, EncodeStatus;
    if s.parent.Failed? && !s.child.Absent? {
      var killed :| Ended(l, s, killed, s.child.Reaped?);
      assert Ended(l, r, killed, r.child.Reaped?);
    }
  }

  /** Whatever the helper has read when it is configured ends exactly where RELEASE begins. */
  lemma ConfiguredAtRelease(l: Launch, down: Bytes, gateway: Gateway)
    requires WellFormed(l) && down <= Whole(l) && LaunchStream.Receive(ModeVariable(l.mode), gateway, down).Success?
    ensures var rest := LaunchStream.Receive(ModeVariable(l.mode), gateway, down).value.1;
      |rest| <= |down| && |down| - |rest| == |Setup(l)|
  {
    hide LaunchStream.Receive, Sent, Describes;
    var more := Whole(l)[|down|..];
    assert down + more == Whole(l);
    ReceiveExtends(ModeVariable(l.mode), gateway, down, more);
    GatewayOnlyRefuses(ModeVariable(l.mode), gateway, Whole(l));
    StreamAgreement(l.requirements, l.mode, l.token, l.ipc, l.entries, l.env, RELEASE);
    var rest := LaunchStream.Receive(ModeVariable(l.mode), gateway, down).value.1;
    assert rest + more == RELEASE;
    ReceivedIsSuffix(ModeVariable(l.mode), gateway, down);
  }

  lemma ReceivedIsSuffix(variable: Option<string>, gateway: Gateway, stream: Bytes)
    requires LaunchStream.Receive(variable, gateway, stream).Success?
    ensures |LaunchStream.Receive(variable, gateway, stream).value.1| <= |stream|
  {
    hide LocalIpc.DecodeBody, LocalIpc.Valid, EnvironmentFrame.DecodeEnvironment, HardeningMode;
    var mode := HardeningMode(variable).value;
    var afterToken := ReceiveToken(stream).value;
    var afterBridge := ReceiveBridge(mode, gateway, afterToken).value.1;
    if WithUnix(mode) {
      var (policy, rest) := LocalIpc.DecodeBody(afterBridge).value;
      LocalIpc.FrameRewrites(afterBridge, policy, rest);
    }
    var afterIpc := ReceiveIpc(mode, afterBridge).value.1;
    assert |afterIpc| <= |afterBridge| <= |afterToken| <= |stream|;
    var entries := EnvironmentFrame.EnvironmentRewrites(afterIpc);
  }

  /** What the helper does leaves the parent's side alone. */
  lemma HelperKeepsParent(l: Launch, s: State, r: State)
    requires Logged(l, s) && r.parent == s.parent && r.stage == s.stage && r.log == s.log && r.child == s.child
    requires Down(l, s) && r.down == s.down
    ensures Logged(l, r) && Down(l, r)
  {
    hide Plan, Setup, Total;
    if s.parent.Failed? && !s.child.Absent? {
      var killed :| Ended(l, s, killed, s.child.Reaped?);
      assert Ended(l, r, killed, r.child.Reaped?);
    }
  }

  /** What a configured helper has read ends where RELEASE begins. */
  lemma ReceivedOffset(l: Launch, s: State, gateway: Gateway)
    requires WellFormed(l) && s.down <= Whole(l)
    ensures var r := HelperReceives(l, s, gateway);
      r == s || r == s.(helper := Configured, downRead := |Setup(l)|)
    ensures !s.helper.Reading? ==> HelperReceives(l, s, gateway) == s
  {
    hide LaunchStream.Receive, WellFormed, Setup, Whole;
    if s.helper.Reading? && LaunchStream.Receive(ModeVariable(l.mode), gateway, s.down).Success? {
      ConfiguredAtRelease(l, s.down, gateway);
    }
  }

  lemma ConfiguredIsUp(l: Launch, s: State, read: nat)
    requires s.helper.Reading? && Up(l, s) && Offsets(l, s) && read == |Setup(l)|
    ensures Up(l, s.(helper := Configured, downRead := read)) && Offsets(l, s.(helper := Configured, downRead := read))
  {
    hide Setup, Whole, ResultAt, READY, Unready, EncodeStatus;
  }

  lemma ReceivesKeep(l: Launch, s: State, gateway: Gateway)
    requires WellFormed(l) && Inv(l, s)
    ensures Inv(l, HelperReceives(l, s, gateway))
  {
    hide WellFormed, HelperReceives, Up, Offsets, Logged, Plan, Total, Setup, Whole;
    assert s.down <= Whole(l);
    ReceivedOffset(l, s, gateway);
    var r := HelperReceives(l, s, gateway);
    if r != s {
      hide Down;
      HelperKeepsParent(l, s, r);
      ConfiguredIsUp(l, s, |Setup(l)|);
    }
  }

  lemma StartsKeep(l: Launch, s: State)
    requires Inv(l, s)
    ensures Inv(l, HelperStarts(s))
  {
    ReadyIs();
    HelperKeepsParent(l, s, HelperStarts(s));
    hide Setup, EncodeSetup, Plan, Total, Logged, Down, ResultAt, Whole, Unready;
  }

  lemma PreparesKeep(l: Launch, s: State)
    requires Inv(l, s)
    ensures Inv(l, HelperPrepares(l, s))
  {
    ReadyIs();
    HelperKeepsParent(l, s, HelperPrepares(l, s));
    hide Setup, EncodeSetup, Plan, Total, Logged, Down, ResultAt, Whole, Unready;
  }

  lemma RunsKeep(l: Launch, s: State)
    requires Inv(l, s)
    ensures Inv(l, HelperRuns(s))
  {
    HelperKeepsParent(l, s, HelperRuns(s));
    hide Setup, EncodeSetup, Plan, Total, Logged, Down, ResultAt, Whole, Unready, READY;
  }

  lemma ExitsKeep(l: Launch, s: State)
    requires Inv(l, s)
    ensures Inv(l, CommandExits(s))
  {
    HelperKeepsParent(l, s, CommandExits(s));
    hide Setup, EncodeSetup, Plan, Total, Logged, Down, ResultAt, Whole, Unready, READY;
  }

  lemma LosesKeep(l: Launch, s: State)
    requires Inv(l, s)
    ensures Inv(l, HelperLosesCommand(l, s))
  {
    HelperKeepsParent(l, s, HelperLosesCommand(l, s));
    hide Setup, EncodeSetup, Plan, Total, Logged, Down, ResultAt, Whole, Unready, READY;
  }

  lemma QuitsKeep(l: Launch, s: State)
    requires Inv(l, s)
    ensures Inv(l, HelperQuits(s))
  {
    HelperKeepsParent(l, s, HelperQuits(s));
    EndIsUp(l, s, HelperQuits(s).command);
    hide Plan, Logged, Down, Up, Offsets;
  }

  lemma EndIsUp(l: Launch, s: State, command: Command)
    requires Up(l, s) && Offsets(l, s)
    ensures Up(l, s.(helper := Exited, command := command)) && Offsets(l, s.(helper := Exited, command := command))
  {
    hide Setup, Whole, ResultAt, READY, Unready, EncodeStatus;
  }

  lemma SendsReadyKeeps(l: Launch, s: State, n: nat)
    requires Inv(l, s)
    ensures Inv(l, HelperSendsReady(s, n))
  {
    HelperKeepsParent(l, s, HelperSendsReady(s, n));
    ReadyIsUp(l, s, n);
    hide Plan, Logged, Down, Up, READY, Setup, Whole;
  }

  lemma ReadyIsUp(l: Launch, s: State, n: nat)
    requires Up(l, s)
    ensures Up(l, HelperSendsReady(s, n))
  {
    ReadyIs();
    hide EncodeSetup, EncodeStatus, ResultAt, READY;
    if s.helper.Spawned? && |s.up| + n <= |READY| {
      var up := READY[..|s.up| + n];
      assert |up| == |READY| ==> up == READY;
      assert |up| < |READY| ==> up < READY;
    }
  }

  lemma ReadsReleaseKeeps(l: Launch, s: State)
    requires Inv(l, s)
    ensures Inv(l, HelperReadsRelease(s))
  {
    HelperKeepsParent(l, s, HelperReadsRelease(s));
    assert s.down <= Whole(l);
    hide Setup, EncodeSetup, Plan, Total, Logged, Down, ResultAt, Unready, READY;
    if s.helper.AwaitingRelease? && s.downRead + |RELEASE| <= |s.down| {
      assert s.down == Whole(l);
    }
  }

  lemma ReportKeeps(l: Launch, s: State, result: StatusResult)
    requires Inv(l, s)
    ensures Inv(l, HelperReports(s, result))
  {
    HelperKeepsParent(l, s, HelperReports(s, result));
    hide Setup, EncodeSetup, EncodeStatus, Plan, Total, Logged, Down, ResultAt, Whole, Unready, READY;
  }

  lemma RejectsKeep(l: Launch, s: State, kind: SetupKind, errno: Option<I32>, n: nat)
    requires Inv(l, s)
    ensures Inv(l, HelperRejects(s, kind, errno, n))
  {
    HelperKeepsParent(l, s, HelperRejects(s, kind, errno, n));
    RejectionIsUp(l, s, kind, errno, n);
    hide Setup, EncodeSetup, Plan, Total, Logged, Down, Whole, Up;
  }

  lemma RejectionIsUp(l: Launch, s: State, kind: SetupKind, errno: Option<I32>, n: nat)
    requires Up(l, s)
    ensures Up(l, HelperRejects(s, kind, errno, n))
  {
    ReadyIs();
    hide EncodeSetup, ResultAt, READY;
    if n <= |EncodeSetup(Rejected(kind, errno))| {
      assert EncodeSetup(Rejected(kind, errno))[..n] <= EncodeSetup(Rejected(kind, errno));
    }
  }

  lemma StepKeeps(l: Launch, s: State, step: Step)
    requires WellFormed(l) && Inv(l, s)
    ensures Inv(l, Apply(l, s, step))
  {
    hide Inv, WellFormed;
    match step {
      case Create(ok) => CreatesKeep(l, s, ok);
      case Write(n) => WritesKeep(l, s, n);
      case Complete => CompletesKeep(l, s);
      case Break => BreaksKeep(l, s);
      case KillChild(ok) => KillsKeep(l, s, ok);
      case WaitChild(ok) => WaitsKeep(l, s, ok);
      case Die => DiesKeep(l, s);
      case Receive(gateway) => ReceivesKeep(l, s, gateway);
      case SendReady(n) => SendsReadyKeeps(l, s, n);
      case ReadRelease => ReadsReleaseKeeps(l, s);
      case Report(result) => ReportKeeps(l, s, result);
      case Reject(kind, errno, n) => RejectsKeep(l, s, kind, errno, n);
      case Start => StartsKeep(l, s);
      case Prepare => PreparesKeep(l, s);
      case RunCommand => RunsKeep(l, s);
      case ExitCommand => ExitsKeep(l, s);
      case LoseCommand => LosesKeep(l, s);
      case Quit => QuitsKeep(l, s);
    }
  }

  lemma InitialKeeps(l: Launch)
    ensures Inv(l, INITIAL)
  {
    ReadyIs();
    hide Setup, EncodeSetup;
    assert [] < READY;
    assert Plan(l)[..0] == [];
  }

  lemma {:induction false} RunKeeps(l: Launch, steps: seq<Step>)
    requires WellFormed(l)
    ensures Inv(l, Run(l, steps))
  {
    hide Inv, WellFormed, Apply;
    if steps == [] {
      InitialKeeps(l);
    } else {
      RunKeeps(l, steps[..|steps| - 1]);
      StepKeeps(l, Run(l, steps[..|steps| - 1]), steps[|steps| - 1]);
    }
  }

  // ----- the main results -----

  /** The stages that must be done before the command may run. */
  lemma BeforeRelease(l: Launch)
    ensures var before := Plan(l)[..ReleaseAt(l)];
      && ReadResult in before
      && (Proxied(l.mode) <==> DetachNames in before)
      && (l.timeout <==> StartWatchdog in before)
  {
    assert Plan(l)[..ReleaseAt(l)] == Writing(l) + Arming(l);
    assert ReadResult == Arming(l)[0];
    hide Plan, ReleaseAt;
  }

  /** In every run, user code executes only after READY was sent, the parent did every stage before the
      release (it accepted READY, detached its names where it proxies, and started the watchdog where a
      timeout applies), and RELEASE was sent. */
  lemma UserCodeRunsLast(l: Launch, steps: seq<Step>)
    requires WellFormed(l)
    ensures var s := Run(l, steps);
      s.ran ==>
        && s.readySent && s.down == Setup(l) + RELEASE
        && Dids(Plan(l)[..ReleaseAt(l)]) <= s.log
        && Did(ReadResult) in s.log
        && (Proxied(l.mode) ==> Did(DetachNames) in s.log)
        && (l.timeout ==> Did(StartWatchdog) in s.log)
  {
    var s := Run(l, steps);
    RunKeeps(l, steps);
    TotalAtRelease(l);
    BeforeRelease(l);
    if s.ran {
      hide Run, Setup, Plan, Total, BytesOf, Unready, Offsets;
      assert s.down == Whole(l);
      if s.stage < ReleaseAt(l) {
        TotalMonotone(l, s.stage + 1, ReleaseAt(l));
      }
      LogHolds(l, s);
    }
  }

  /** The log starts with every stage that was done. */
  lemma LogHolds(l: Launch, s: State)
    requires Logged(l, s) && Processes(l, s) && ReleaseAt(l) <= s.stage && ReleaseAt(l) > 0
    ensures Dids(Plan(l)[..ReleaseAt(l)]) <= s.log
    ensures forall stage :: stage in Plan(l)[..ReleaseAt(l)] ==> Did(stage) in s.log
  {
    hide Plan, ReleaseAt;
    var done, n := Dids(Plan(l)[..s.stage]), ReleaseAt(l);
    assert done <= s.log;
    assert done[..n] == Dids(Plan(l)[..n]);
    forall stage | stage in Plan(l)[..n] ensures Did(stage) in s.log {
      var i :| 0 <= i < n && Plan(l)[i] == stage;
      assert s.log[i] == Did(stage);
    }
  }

  /** In every run, a failed launch either never had a child, or did some stages, killed the child and waited
      for it. The child is gone exactly when that wait succeeded, and then so are its helper and its command. */
  lemma FailureKillsAndWaits(l: Launch, steps: seq<Step>)
    requires WellFormed(l)
    ensures var s := Run(l, steps);
      s.parent.Failed? ==>
        || (s.child.Absent? && s.log == [] && s.helper.NotStarted? && s.command.NoCommand?)
        || exists killed, waited ::
             && Ended(l, s, killed, waited)
             && (waited <==> s.child.Reaped?)
             && (waited ==> s.helper.Exited? && s.command in {NoCommand, Gone})
  {
    hide Run, Setup, Plan;
    RunKeeps(l, steps);
    var s := Run(l, steps);
    if s.parent.Failed? && !s.child.Absent? {
      var killed :| Ended(l, s, killed, s.child.Reaped?);
    }
  }

  /** A launch that succeeded did its whole plan and neither killed nor waited; a failing one that has not
      finished has still to make the calls it owes. */
  lemma LaunchedDidEverything(l: Launch, steps: seq<Step>)
    requires WellFormed(l)
    ensures var s := Run(l, steps);
      s.parent.Launched? ==> s.log == Dids(Plan(l)) && s.readySent && s.down == Setup(l) + RELEASE
  {
    RunKeeps(l, steps);
    TotalAtRelease(l);
    hide Run, Setup, Plan, Total, BytesOf;
    assert Plan(l)[..|Plan(l)|] == Plan(l);
  }

  /** What a finished run of the parent has done is what `Spawn` does for some outcomes of its calls. */
  lemma RunIsSpawn(l: Launch, steps: seq<Step>) returns (o: Outcomes)
    requires WellFormed(l)
    requires Run(l, steps).parent in {Launched, Failed}
    ensures var s := Run(l, steps);
      if o.created then s.log == RunStages(Plan(l), o, []).1 && (RunStages(Plan(l), o, []).0.Handle? <==> s.parent.Launched?)
      else s.parent.Failed? && s.log == []
  {
    RunKeeps(l, steps);
    PlanIsDistinct(l);
    var s := Run(l, steps);
    hide Run, Setup, Plan, Total, RunStages;
    var done := Plan(l)[..s.stage];
    if s.child.Absent? {
      o := Outcomes(false, _ => true, true, true);
    } else if s.parent.Launched? {
      o := Outcomes(true, _ => true, true, true);
      assert Plan(l)[..|Plan(l)|] == Plan(l);
      EveryErrorTerminates(l, o, s.stage);
    } else {
      var killed :| Ended(l, s, killed, s.child.Reaped?);
      o := Outcomes(true, stage => stage in done, killed, s.child.Reaped?);
      EveryErrorTerminates(l, o, s.stage);
    }
  }

  /** And the wait can fail: then the child may still be alive. */
  lemma FailedWaitLeavesChild(l: Launch)
    ensures exists steps :: Run(l, steps).parent.Failed? && Run(l, steps).child.Alive?
  {
    assert Run(l, []) == INITIAL;
    hide Run;
    StepReaches(l, INITIAL, Create(true));
    var created := Apply(l, INITIAL, Create(true));
    StepReaches(l, created, Break);
    var broken := Apply(l, created, Break);
    StepReaches(l, broken, KillChild(false));
    var killed := Apply(l, broken, KillChild(false));
    StepReaches(l, killed, WaitChild(false));
  }

  lemma ReachRejected(l: Launch, kind: SetupKind, errno: Option<I32>) returns (s: State)
    ensures Reaches(l, s)
    ensures s == INITIAL.(parent := Working, child := Alive, helper := Exited, up := EncodeSetup(Rejected(kind, errno)))
  {
    assert Run(l, []) == INITIAL;
    hide Run, EncodeSetup;
    var frame := EncodeSetup(Rejected(kind, errno));
    StepReaches(l, INITIAL, Create(true));
    s := Apply(l, INITIAL, Create(true));
    hide Reaches;
    StepReaches(l, s, Start);
    s := Apply(l, s, Start);
    assert frame[..|frame|] == frame;
    StepReaches(l, s, Reject(kind, errno, |frame|));
    s := Apply(l, s, Reject(kind, errno, |frame|));
  }

  lemma ReachReaped(l: Launch, s: State) returns (r: State)
    requires Reaches(l, s) && s.parent.Working? && s.child.Alive? && s.log == []
    ensures Reaches(l, r) && r.parent.Failed? && r.child.Reaped? && r.up == s.up && r.log == [Killed(true), Waited(true)]
  {
    hide Reaches;
    StepReaches(l, s, Break);
    r := Apply(l, s, Break);
    StepReaches(l, r, KillChild(true));
    r := Apply(l, r, KillChild(true));
    StepReaches(l, r, Die);
    r := Apply(l, r, Die);
    StepReaches(l, r, WaitChild(true));
    r := Apply(l, r, WaitChild(true));
  }

  /** Every rejection can reach the parent, which then kills and reaps the child. */
  lemma RejectionEnds(l: Launch, kind: SetupKind, errno: Option<I32>)
    ensures exists steps ::
      var s := Run(l, steps);
      s.up == EncodeSetup(Rejected(kind, errno)) && s.parent.Failed? && s.child.Reaped? && s.log == [Killed(true), Waited(true)]
  {
    hide Run, EncodeSetup;
    var s := ReachRejected(l, kind, errno);
    var r := ReachReaped(l, s);
    var steps :| Run(l, steps) == r;
  }

  /** A supervised command never outlives its helper. */
  lemma CommandDiesWithHelper(l: Launch, steps: seq<Step>)
    requires WellFormed(l)
    ensures var s := Run(l, steps);
      && (s.helper.Exited? ==> s.command in {NoCommand, Gone} || (!l.traced && s.ran))
      && (s.child in {Dead, Reaped} ==> s.command in {NoCommand, Gone})
  {
    hide Run, Setup, Plan;
    RunKeeps(l, steps);
  }

  /** The release check of the helper cannot fail: three bytes after its setup are always RELEASE. */
  lemma ReleaseIsNeverInvalid(l: Launch, steps: seq<Step>)
    requires WellFormed(l)
    ensures var s := Run(l, steps);
      s.helper.AwaitingRelease? && s.downRead + |RELEASE| <= |s.down| ==>
        s.down[s.downRead..s.downRead + |RELEASE|] == RELEASE
  {
    hide Run, Setup, Plan;
    RunKeeps(l, steps);
  }

  /** A reported result follows READY on the stream and reads back as itself, up to the errno sentinel. */
  lemma ReportIsDelivered(l: Launch, steps: seq<Step>)
    requires WellFormed(l)
    ensures var s := Run(l, steps);
      s.reported.Some? ==>
        && DecodeSetup(s.up).Success? && DecodeSetup(s.up).value.0 == Ready
        && DecodeStatus(DecodeSetup(s.up).value.1) == Success((CarriedStatus(s.reported.value), []))
  {
    hide Run, EncodeStatus, DecodeSetup, DecodeStatus, Plan;
    RunKeeps(l, steps);
    var s := Run(l, steps);
    if s.reported.Some? {
      var status := EncodeStatus(s.reported.value);
      SetupRoundTrip(Ready, status);
      StatusRoundTrip(s.reported.value, []);
      assert status + [] == status;
    }
  }

  // ----- launches do happen -----

  ghost predicate Reaches(l: Launch, s: State) { exists steps :: Run(l, steps) == s }

  lemma StepReaches(l: Launch, s: State, step: Step)
    requires Reaches(l, s)
    ensures Reaches(l, Apply(l, s, step))
  {
    var steps :| Run(l, steps) == s;
    assert (steps + [step])[..|steps|] == steps;
    assert Run(l, steps + [step]) == Apply(l, s, step);
  }

  /** Launches exist that use every optional part of the protocol. */
  lemma SomeLaunchIsWellFormed(timeout: bool, traced: bool) returns (l: Launch)
    ensures WellFormed(l) && EnvironmentFrame.Clean(l.entries)
    ensures l.timeout == timeout && l.traced == traced && l.mode == ProxyWithUnix && l.ipc.Some?
  {
    var requirements := Requirements(LocalIpc.Enabled, true, false, false, true, false);
    var policy := LocalIpc.Policy(false, [], []);
    var token: Bytes := seq(BRIDGE_TOKEN_BYTES, _ => 0);
    EnvironmentFrame.NothingListed();
    l := Launch(requirements, ProxyWithUnix, token, Some(policy), [], map[], timeout, traced);
  }

  /** From any stage whose bytes are written, the parent can go on by itself, past its wait once READY is there. */
  lemma {:induction false} Advance(l: Launch, s: State, k: nat)
    requires Reaches(l, s) && s.parent.Working? && s.stage <= k <= |Plan(l)| && s.stage < |Plan(l)|
    requires s.down == Total(l, s.stage) && s.log == Dids(Plan(l)[..s.stage])
    requires k <= ResultAt(l) || s.up == READY
    ensures Reaches(l, Advanced(l, s, k))
    decreases k
  {
    TotalAtRelease(l);
    hide Plan, Total, BytesOf, EncodeSetup, DecodeSetup, Run, Reaches, Dids, ReleaseAt, Setup, Whole;
    if s.stage == k {
      assert Advanced(l, s, k) == s;
    } else {
      var t := Advanced(l, s, k - 1);
      Advance(l, s, k - 1);
      AdvanceOne(l, t);
      DidsGrow(Plan(l), k - 1);
    }
  }

  function Advanced(l: Launch, s: State, k: nat): (r: State)
    requires k <= |Plan(l)|
  {
    s.(stage := k, down := Total(l, k), log := Dids(Plan(l)[..k]),
       parent := if k == |Plan(l)| then Launched else Working)
  }

  lemma AdvanceOne(l: Launch, t: State)
    requires Reaches(l, t) && t.parent.Working? && t.stage < |Plan(l)| && t.down == Total(l, t.stage)
    requires t.stage < ResultAt(l) || t.up == READY
    ensures Reaches(l, t.(stage := t.stage + 1, down := Total(l, t.stage + 1), log := t.log + [Did(Plan(l)[t.stage])],
                          parent := if t.stage + 1 == |Plan(l)| then Launched else Working))
  {
    hide Plan, Total, Reaches, Apply, CanComplete, ResultAt, READY;
    var w := t.(down := Total(l, t.stage + 1));
    WrittenCanComplete(l, w);
    WriteStage(l, t);
    CompletesTo(l, w);
    StepReaches(l, w, Complete);
  }

  lemma WrittenCanComplete(l: Launch, w: State)
    requires w.stage < |Plan(l)| && w.down == Total(l, w.stage + 1)
    requires w.stage < ResultAt(l) || w.up == READY
    ensures CanComplete(l, w)
  {
    ResultIsOnce(l, w.stage);
    ReadyIsRead();
    hide Plan, Total, DecodeSetup, ResultAt, READY;
  }

  lemma CompletesTo(l: Launch, w: State)
    requires w.parent.Working? && w.stage < |Plan(l)| && CanComplete(l, w)
    ensures Apply(l, w, Complete)
         == w.(stage := w.stage + 1, log := w.log + [Did(Plan(l)[w.stage])],
               parent := if w.stage + 1 == |Plan(l)| then Launched else Working)
  {
    hide Plan, Total, CanComplete;
  }

  lemma ReadyIsRead()
    ensures DecodeSetup(READY) == Success((Ready, []))
  {
    hide EncodeSetup, DecodeSetup;
    SetupRoundTrip(Ready, []);
    assert READY + [] == READY;
  }

  lemma WritesTo(l: Launch, t: State, n: nat)
    requires t.parent.Working? && t.stage < |Plan(l)| && |t.down| + n == |Total(l, t.stage + 1)|
    ensures Apply(l, t, Write(n)) == t.(down := Total(l, t.stage + 1))
  {
    hide Plan, Total;
    assert Total(l, t.stage + 1)[..|t.down| + n] == Total(l, t.stage + 1);
  }

  lemma WriteStage(l: Launch, t: State)
    requires Reaches(l, t) && t.parent.Working? && t.stage < |Plan(l)| && t.down == Total(l, t.stage)
    ensures Reaches(l, t.(down := Total(l, t.stage + 1)))
  {
    TotalGrows(l, t.stage);
    hide Plan, Total, Reaches, BytesOf, Apply;
    var n := |BytesOf(l, Plan(l)[t.stage])|;
    WritesTo(l, t, n);
    StepReaches(l, t, Write(n));
  }

  lemma ResultIsOnce(l: Launch, k: nat)
    requires k < |Plan(l)|
    ensures Plan(l)[k] == ReadResult <==> k == ResultAt(l)
  {
    TotalAtRelease(l);
    PlanIsDistinct(l);
  }

  /** Every launch with a clean environment has a run in which its command executes. */
  lemma LaunchCanRun(l: Launch)
    requires WellFormed(l) && EnvironmentFrame.Clean(l.entries)
    ensures exists steps :: Run(l, steps).ran && Run(l, steps).parent.Launched?
  {
    var ready := ReachReady(l);
    TotalAtRelease(l);
    hide Plan, Total, Run, Setup, Whole, Dids, WellFormed, ReleaseAt, Reaches;
    Advance(l, ready, |Plan(l)|);
    RunReleased(l, Advanced(l, ready, |Plan(l)|));
  }

  lemma RunReleased(l: Launch, s: State)
    requires Reaches(l, s) && s.parent.Launched? && s.helper.AwaitingRelease?
    requires s.down == Whole(l) && s.downRead == |Setup(l)|
    ensures exists steps :: Run(l, steps).ran && Run(l, steps).parent.Launched?
  {
    assert Whole(l)[|Setup(l)|..|Setup(l)| + |RELEASE|] == RELEASE;
    hide Run, Setup, Whole;
    StepReaches(l, s, ReadRelease);
    var cleared := Apply(l, s, ReadRelease);
    StepReaches(l, cleared, RunCommand);
  }

  lemma CleanIsReceived(l: Launch)
    requires WellFormed(l) && EnvironmentFrame.Clean(l.entries)
    ensures LaunchStream.Receive(ModeVariable(l.mode), Gateway(true, true), Setup(l)).Success?
  {
    hide LaunchStream.Receive, Describes, Sent, EnvironmentFrame.Clean;
    StreamAgreement(l.requirements, l.mode, l.token, l.ipc, l.entries, l.env, []);
    assert Setup(l) + [] == Setup(l);
  }

  lemma ReachAwaiting(l: Launch) returns (s: State)
    ensures Reaches(l, s)
    ensures s == INITIAL.(parent := Working, child := Alive, helper := Reading, stage := ResultAt(l),
                          down := Setup(l), log := Dids(Plan(l)[..ResultAt(l)]))
  {
    TotalAtRelease(l);
    TotalAtResult(l);
    assert Run(l, []) == INITIAL;
    assert Total(l, 0) == [] && Plan(l)[..0] == [];
    hide Plan, Total, EncodeSetup, DecodeSetup, Run, Setup;
    StepReaches(l, INITIAL, Create(true));
    s := Apply(l, INITIAL, Create(true));
    StepReaches(l, s, Start);
    s := Apply(l, s, Start);
    Advance(l, s, ResultAt(l));
    s := Advanced(l, s, ResultAt(l));
  }

  lemma TotalAtResult(l: Launch)
    ensures Total(l, ResultAt(l)) == Setup(l)
  {
    WritingIsSetup(l);
    assert Plan(l)[..ResultAt(l)] == Writing(l);
  }

  lemma ReachReady(l: Launch) returns (s: State)
    requires WellFormed(l) && EnvironmentFrame.Clean(l.entries)
    ensures Reaches(l, s) && s.parent.Working? && s.stage == ResultAt(l) && s.log == Dids(Plan(l)[..ResultAt(l)])
    ensures ResultAt(l) < |Plan(l)| && s.down == Total(l, ResultAt(l)) == Setup(l)
    ensures s.up == READY && s.helper.AwaitingRelease? && s.downRead == |Setup(l)|
  {
    ReadyIs();
    TotalAtRelease(l);
    TotalAtResult(l);
    hide Setup, EncodeSetup, LaunchStream.Receive, Run, EnvironmentFrame.Clean, WellFormed, Plan, Total;
    s := ReachAwaiting(l);
    CleanIsReceived(l);
    ConfiguredAtRelease(l, s.down, Gateway(true, true));
    StepReaches(l, s, Receive(Gateway(true, true)));
    s := Apply(l, s, Receive(Gateway(true, true)));
    StepReaches(l, s, Prepare);
    s := Apply(l, s, Prepare);
    StepReaches(l, s, SendReady(9));
    s := Apply(l, s, SendReady(9));
    assert READY[..9] == READY;
  }
}
