/**
 The setup stream of one launch: what the parent writes before it waits for the
 helper, what the helper reads before it answers, and why both reach the
 environment frame at the same offset.
 */
module LaunchStream {
  import opened Wrappers
  import opened Wire
  import LocalIpc
  import EnvironmentFrame

  const AUTH_TOKEN: Bytes :=     // cageforge-linux-helper-v1
    [99, 97, 103, 101, 102, 111, 114, 103, 101, 45, 108, 105, 110, 117, 120, 45, 104, 101, 108, 112, 101, 114, 45, 118, 49]
  const BRIDGE_TOKEN_BYTES := 32

  // ----- requirements of two composed network policies -----

  datatype NetworkPolicy = NetworkPolicy(layer: LocalIpc.Layer, restrictsDomains: bool, deniesLocalNetwork: bool)

  datatype Requirements = Requirements(
    mode: LocalIpc.NetworkMode,
    domainRules: bool,
    localAddressRestrictions: bool,
    localIpcIsolation: bool,
    localIpcRules: bool,
    localIpcDenyRules: bool)

  predicate LocalIpcRequired(r: Requirements) { r.localIpcRules || r.localIpcDenyRules }

  predicate ProxyRequired(r: Requirements) { r.domainRules || r.localAddressRestrictions }

  function EffectiveMode(left: LocalIpc.NetworkMode, right: LocalIpc.NetworkMode): (r: LocalIpc.NetworkMode) {
    if left.External? && right.External? then LocalIpc.External
    else if left.Enabled? && right.Enabled? then LocalIpc.Enabled
    else LocalIpc.Disabled
  }

  predicate HasRule(layer: LocalIpc.Layer, allow: bool) {
    exists k :: 0 <= k < |layer.rules| && layer.rules[k].allow == allow
  }

  predicate DeniesAllSockets(layer: LocalIpc.Layer) {
    layer.sockets.SocketsDisabled? || (layer.sockets.SocketsRestricted? && !HasRule(layer, true))
  }

  function RequirementsOf(requested: NetworkPolicy, ceiling: NetworkPolicy): (r: Requirements) {
    var mode := EffectiveMode(requested.layer.mode, ceiling.layer.mode);
    var enabled := mode.Enabled?;
    var isolation := enabled && (DeniesAllSockets(requested.layer) || DeniesAllSockets(ceiling.layer));
    Requirements(
      mode,
      enabled && (requested.restrictsDomains || ceiling.restrictsDomains),
      enabled && (requested.deniesLocalNetwork || ceiling.deniesLocalNetwork),
      isolation,
      enabled && !isolation && (requested.layer.sockets.SocketsRestricted? || ceiling.layer.sockets.SocketsRestricted?),
      enabled && !isolation && requested.layer.sockets.SocketsEnabled? && ceiling.layer.sockets.SocketsEnabled?
        && (HasRule(requested.layer, false) || HasRule(ceiling.layer, false)))
  }

  /** A launch that sends no local-IPC policy allows every socket path, or none of them. */
  lemma UnsentPolicyIsUniform(requested: NetworkPolicy, ceiling: NetworkPolicy, path: LocalIpc.SocketPath)
    requires !LocalIpcRequired(RequirementsOf(requested, ceiling))
    requires RequirementsOf(requested, ceiling).mode.Enabled?
    ensures LocalIpc.AllLayersAllow([requested.layer, ceiling.layer], path)
        <==> !RequirementsOf(requested, ceiling).localIpcIsolation
  {
    var layers := [requested.layer, ceiling.layer];
    assert layers[0] == requested.layer && layers[1] == ceiling.layer;
    SocketsOf(requested.layer, path);
    SocketsOf(ceiling.layer, path);
    if RequirementsOf(requested, ceiling).localIpcIsolation {
      var k := if DeniesAllSockets(requested.layer) then 0 else 1;
      assert !LocalIpc.LayerAllows(layers[k], path);
    }
  }

  lemma SocketsOf(layer: LocalIpc.Layer, path: LocalIpc.SocketPath)
    requires layer.mode.Enabled?
    ensures DeniesAllSockets(layer) ==> !LocalIpc.LayerAllows(layer, path)
    ensures layer.sockets.SocketsEnabled? && !HasRule(layer, false) ==> LocalIpc.LayerAllows(layer, path)
  {
  }

  // ----- the launch mode, and the variable that tells the helper -----

  datatype LaunchMode = Direct | DirectWithoutUnix | DirectWithUnix | Disabled | Proxy | ProxyWithUnix

  /** `None` where another component owns the network. */
  function NetworkMode(r: Requirements): (m: Option<LaunchMode>) {
    match r.mode
    case Disabled => Some(LaunchMode.Disabled)
    case External => None
    case Enabled =>
      if ProxyRequired(r) then Some(if LocalIpcRequired(r) then ProxyWithUnix else Proxy)
      else if LocalIpcRequired(r) then Some(DirectWithUnix)
      else if r.localIpcIsolation then Some(DirectWithoutUnix)
      else Some(Direct)
  }

  predicate Proxied(mode: LaunchMode) { mode.Proxy? || mode.ProxyWithUnix? }

  predicate WithUnix(mode: LaunchMode) { mode.DirectWithUnix? || mode.ProxyWithUnix? }

  predicate BothEnabled(requested: NetworkPolicy, ceiling: NetworkPolicy) {
    requested.layer.mode.Enabled? && ceiling.layer.mode.Enabled?
  }

  /** Either policy restricts where traffic may go. */
  predicate RestrictsTraffic(requested: NetworkPolicy, ceiling: NetworkPolicy) {
    || requested.restrictsDomains || ceiling.restrictsDomains
    || requested.deniesLocalNetwork || ceiling.deniesLocalNetwork
  }

  /** The layer leaves every socket path open. */
  predicate LeavesSocketsOpen(layer: LocalIpc.Layer) {
    layer.sockets.SocketsEnabled? && forall k :: 0 <= k < |layer.rules| ==> layer.rules[k].allow
  }

  /** The mode of a launch, from the two policies alone: none where both leave the network to others, disabled unless
      both enable it, and proxied exactly when both enable it and either restricts the traffic. */
  lemma ModeOfPolicies(requested: NetworkPolicy, ceiling: NetworkPolicy)
    ensures var mode := NetworkMode(RequirementsOf(requested, ceiling));
      && (mode.None? <==> requested.layer.mode.External? && ceiling.layer.mode.External?)
      && (mode == Some(LaunchMode.Disabled) <==> mode.Some? && !BothEnabled(requested, ceiling))
      && (mode.Some? && Proxied(mode.value) <==> BothEnabled(requested, ceiling) && RestrictsTraffic(requested, ceiling))
    ensures Launchable(RequirementsOf(requested, ceiling)) <==>
      && !(requested.layer.mode.External? && ceiling.layer.mode.External?)
      && !(BothEnabled(requested, ceiling) && RestrictsTraffic(requested, ceiling)
           && LeavesSocketsOpen(requested.layer) && LeavesSocketsOpen(ceiling.layer))
  {
    OpenSockets(requested.layer);
    OpenSockets(ceiling.layer);
    hide HasRule, LeavesSocketsOpen;
  }

  lemma OpenSockets(layer: LocalIpc.Layer)
    ensures LeavesSocketsOpen(layer) <==> layer.sockets.SocketsEnabled? && !HasRule(layer, false)
  {
  }

  function ModeVariable(mode: LaunchMode): (r: Option<string>) {
    match mode
    case Direct => None
    case DirectWithoutUnix => Some("direct-without-unix")
    case DirectWithUnix => Some("direct-with-unix")
    case Disabled => Some("disabled")
    case Proxy => Some("proxy")
    case ProxyWithUnix => Some("proxy-with-unix")
  }

  /** The helper's reading of the variable. */
  function HardeningMode(variable: Option<string>): (r: Option<LaunchMode>) {
    if variable.None? then Some(Direct)
    else if variable.value == "direct-without-unix" then Some(DirectWithoutUnix)
    else if variable.value == "direct-with-unix" then Some(DirectWithUnix)
    else if variable.value == "disabled" then Some(LaunchMode.Disabled)
    else if variable.value == "proxy" then Some(Proxy)
    else if variable.value == "proxy-with-unix" then Some(ProxyWithUnix)
    else None
  }

  lemma ModeIsCarried(mode: LaunchMode)
    ensures HardeningMode(ModeVariable(mode)) == Some(mode)
  {
    assert |"direct-without-unix"| == 19 && |"direct-with-unix"| == 16 && |"disabled"| == 8;
    assert |"proxy"| == 5 && |"proxy-with-unix"| == 15;
  }

  // ----- the parent's half -----

  /** The bytes written before the parent waits: each optional part follows from the mode or the lowered policy. */
  function Sent(mode: LaunchMode, token: Bytes, ipc: Option<LocalIpc.Policy>, entries: seq<EnvironmentFrame.Entry>)
    : (r: Bytes)
  {
    AUTH_TOKEN
    + (if Proxied(mode) then token else [])
    + (if ipc.Some? then LocalIpc.EncodeFrame(ipc.value) else [])
    + EnvironmentFrame.EncodeEnvironment(entries)
  }

  datatype SendError = IpcFrame(ipc: LocalIpc.FrameError) | EnvFrame(env: EnvironmentFrame.FrameError)

  method Send(mode: LaunchMode, token: Bytes, ipc: Option<LocalIpc.Policy>, entries: seq<EnvironmentFrame.Entry>)
    returns (r: Result<Bytes, SendError>)
    ensures r.Success? <==> (ipc.Some? ==> LocalIpc.Valid(ipc.value)) && EnvironmentFrame.Fits(entries)
    ensures r.Success? ==> r.value == Sent(mode, token, ipc, entries)
  {
    hide LocalIpc.Valid, EnvironmentFrame.Fits, LocalIpc.EncodeFrame, EnvironmentFrame.EncodeEnvironment;
    var out := AUTH_TOKEN;
    if Proxied(mode) {
      out := out + token;
    } else {
      assert out + [] == out;
    }
    if ipc.Some? {
      var frame := LocalIpc.WriteFrame(ipc.value);
      if frame.Failure? {
        return Failure(IpcFrame(frame.error));
      }
      out := out + frame.value;
    } else {
      assert out + [] == out;
    }
    var frame := EnvironmentFrame.WriteEnvironment(entries);
    if frame.Failure? {
      return Failure(EnvFrame(frame.error));
    }
    return Success(out + frame.value);
  }

  // ----- the helper's half -----

  datatype Received = Received(
    token: Option<Bytes>, ipc: Option<LocalIpc.Policy>, env: EnvironmentFrame.Variables)

  datatype ReceiveError =
    | TokenRead | TokenMismatch | UnknownNetworkMode | GatewayVariables | BridgeTokenRead | BridgeStart
    | IpcFrameRead | EnvFrameRead(error: EnvironmentFrame.FrameError)

  /** Outcomes the stream does not decide: usable gateway variables, and a bridge that starts. */
  datatype Gateway = Gateway(variables: bool, starts: bool)

  function ReceiveToken(stream: Bytes): (r: Result<Bytes, ReceiveError>) {
    var token := Take(stream, |AUTH_TOKEN|);
    if token.None? then Failure(TokenRead)
    else if token.value.0 != AUTH_TOKEN then Failure(TokenMismatch)
    else Success(token.value.1)
  }

  function ReceiveBridge(mode: LaunchMode, gateway: Gateway, stream: Bytes)
    : (r: Result<(Option<Bytes>, Bytes), ReceiveError>)
  {
    if !Proxied(mode) then Success((None, stream))
    else if !gateway.variables then Failure(GatewayVariables)
    else
      var token := Take(stream, BRIDGE_TOKEN_BYTES);
      if token.None? then Failure(BridgeTokenRead)
      else if !gateway.starts then Failure(BridgeStart)
      else Success((Some(token.value.0), token.value.1))
  }

  function ReceiveIpc(mode: LaunchMode, stream: Bytes): (r: Result<(Option<LocalIpc.Policy>, Bytes), ReceiveError>) {
    if !WithUnix(mode) then Success((None, stream))
    else
      var body := LocalIpc.DecodeBody(stream);
      if body.Failure? || !LocalIpc.Valid(body.value.0) then Failure(IpcFrameRead)
      else Success((Some(body.value.0), body.value.1))
  }

  function ReceiveEnv(stream: Bytes): (r: Result<(EnvironmentFrame.Variables, Bytes), ReceiveError>) {
    match EnvironmentFrame.DecodeEnvironment(stream)
    case Failure(error) => Failure(EnvFrameRead(error))
    case Success(value) => Success(value)
  }

  function Receive(variable: Option<string>, gateway: Gateway, stream: Bytes)
    : (r: Result<(Received, Bytes), ReceiveError>)
  {
    var afterToken :- ReceiveToken(stream);
    var mode := HardeningMode(variable);
    if mode.None? then Failure(UnknownNetworkMode)
    else
      var (token, afterBridge) :- ReceiveBridge(mode.value, gateway, afterToken);
      var (ipc, afterIpc) :- ReceiveIpc(mode.value, afterBridge);
      var (env, rest) :- ReceiveEnv(afterIpc);
      Success((Received(token, ipc, env), rest))
  }

  /** The helper's reads, in order, from one stream. */
  method ReceiveSetup(variable: Option<string>, gateway: Gateway, reader: Reader) returns (r: Result<Received, ReceiveError>)
    modifies reader
    ensures r.Success? ==> Receive(variable, gateway, old(reader.pending)) == Success((r.value, reader.pending))
    ensures r.Failure? ==> Receive(variable, gateway, old(reader.pending)) == Failure(r.error)
  {
    hide LocalIpc.DecodeBody, LocalIpc.Valid, EnvironmentFrame.DecodeEnvironment, HardeningMode;
    var token := reader.ReadExact(|AUTH_TOKEN|);
    if token.None? {
      return Failure(TokenRead);
    }
    if token.value != AUTH_TOKEN {
      return Failure(TokenMismatch);
    }
    var mode := HardeningMode(variable);
    if mode.None? {
      return Failure(UnknownNetworkMode);
    }
    var bridge :- StartBridge(mode.value, gateway, reader);
    var ipc: Option<LocalIpc.Policy> := None;
    if WithUnix(mode.value) {
      ghost var stream := reader.pending;
      var policy := LocalIpc.ReadFrame(reader);
      if policy.Failure? {
        assert forall p, rest :: !LocalIpc.Decodes(stream, p, rest);
        ghost var body := LocalIpc.DecodeBody(stream);
        assert body.Success? ==> !LocalIpc.Decodes(stream, body.value.0, body.value.1);
        return Failure(IpcFrameRead);
      }
      ipc := Some(policy.value);
    }
    var env := EnvironmentFrame.ReadEnvironment(reader);
    if env.Failure? {
      return Failure(EnvFrameRead(env.error));
    }
    return Success(Received(bridge, ipc, env.value));
  }

  method StartBridge(mode: LaunchMode, gateway: Gateway, reader: Reader) returns (r: Result<Option<Bytes>, ReceiveError>)
    modifies reader
    ensures r.Success? ==> ReceiveBridge(mode, gateway, old(reader.pending)) == Success((r.value, reader.pending))
    ensures r.Failure? ==> ReceiveBridge(mode, gateway, old(reader.pending)) == Failure(r.error)
  {
    if !Proxied(mode) {
      return Success(None);
    }
    if !gateway.variables {
      return Failure(GatewayVariables);
    }
    var token := reader.ReadExact(BRIDGE_TOKEN_BYTES);
    if token.None? {
      return Failure(BridgeTokenRead);
    }
    if !gateway.starts {
      return Failure(BridgeStart);
    }
    return Success(Some(token.value));
  }

  // ----- agreement -----

  /** The launch the parent described: what it wrote, it wrote from these. */
  ghost predicate Describes(r: Requirements, mode: LaunchMode, token: Bytes, ipc: Option<LocalIpc.Policy>,
                            entries: seq<EnvironmentFrame.Entry>, env: EnvironmentFrame.Variables) {
    && NetworkMode(r) == Some(mode)
    && |token| == BRIDGE_TOKEN_BYTES
    && (ipc.Some? <==> LocalIpcRequired(r))
    && (ipc.Some? ==> LocalIpc.Valid(ipc.value))
    && EnvironmentFrame.Fits(entries) && EnvironmentFrame.Lists(entries, env)
  }

  lemma TokenReceived(stream: Bytes, rest: Bytes)
    requires stream == AUTH_TOKEN + rest
    ensures ReceiveToken(stream) == Success(rest)
  {
    TakeWritten(AUTH_TOKEN, rest);
  }

  lemma BridgeReceived(mode: LaunchMode, token: Bytes, rest: Bytes)
    requires |token| == BRIDGE_TOKEN_BYTES
    ensures ReceiveBridge(mode, Gateway(true, true), (if Proxied(mode) then token else []) + rest)
         == Success((if Proxied(mode) then Some(token) else None, rest))
  {
    if Proxied(mode) {
      TakeWritten(token, rest);
    } else {
      assert [] + rest == rest;
    }
  }

  lemma IpcReceived(mode: LaunchMode, policy: LocalIpc.Policy, rest: Bytes)
    requires WithUnix(mode) && LocalIpc.Valid(policy)
    ensures ReceiveIpc(mode, LocalIpc.EncodeFrame(policy) + rest) == Success((Some(policy), rest))
  {
    LocalIpc.FrameRoundTrip(policy, rest);
    hide LocalIpc.EncodeFrame, LocalIpc.DecodeBody, LocalIpc.Valid;
  }

  /** A helper that does not expect a local-IPC frame takes it for a bad environment frame. */
  lemma UnexpectedIpcRefused(policy: LocalIpc.Policy, rest: Bytes)
    ensures ReceiveEnv(LocalIpc.EncodeFrame(policy) + rest) == Failure(EnvFrameRead(EnvironmentFrame.InvalidMagic))
  {
    hide LocalIpc.EncodeRules, EnvironmentFrame.DecodeEntries;
    var stream := LocalIpc.EncodeFrame(policy) + rest;
    assert stream[..6][2] == 73;
  }

  function SentAfterToken(ipc: Option<LocalIpc.Policy>, entries: seq<EnvironmentFrame.Entry>, rest: Bytes): (r: Bytes) {
    (if ipc.Some? then LocalIpc.EncodeFrame(ipc.value) else []) + (EnvironmentFrame.EncodeEnvironment(entries) + rest)
  }

  lemma SentSplits(mode: LaunchMode, token: Bytes, ipc: Option<LocalIpc.Policy>, entries: seq<EnvironmentFrame.Entry>,
                   rest: Bytes)
    ensures Sent(mode, token, ipc, entries) + rest
         == AUTH_TOKEN + ((if Proxied(mode) then token else []) + SentAfterToken(ipc, entries, rest))
  {
    hide LocalIpc.EncodeFrame, EnvironmentFrame.EncodeEnvironment;
  }

  /** The helper's reads consume exactly what the parent wrote, whatever follows, if and
      only if local-IPC rules are required only of an enabled network and the environment is clean. */
  lemma StreamAgreement(r: Requirements, mode: LaunchMode, token: Bytes, ipc: Option<LocalIpc.Policy>,
                        entries: seq<EnvironmentFrame.Entry>, env: EnvironmentFrame.Variables, rest: Bytes)
    requires Describes(r, mode, token, ipc, entries, env)
    ensures var received := Receive(ModeVariable(mode), Gateway(true, true), Sent(mode, token, ipc, entries) + rest);
      && (received.Success? <==> (LocalIpcRequired(r) ==> r.mode.Enabled?) && EnvironmentFrame.Clean(entries))
      && (received.Success? ==>
            received.value == (Received(if Proxied(mode) then Some(token) else None, ipc, env), rest))
  {
    hide LocalIpc.EncodeFrame, EnvironmentFrame.EncodeEnvironment, LocalIpc.Valid, EnvironmentFrame.Fits,
      EnvironmentFrame.Lists, EnvironmentFrame.Clean, EnvironmentFrame.DecodeEnvironment, LocalIpc.DecodeBody,
      HardeningMode, ModeVariable, ReceiveToken, ReceiveBridge, ReceiveIpc, Sent;
    var environment := EnvironmentFrame.EncodeEnvironment(entries) + rest;
    var afterToken := SentAfterToken(ipc, entries, rest);
    SentSplits(mode, token, ipc, entries, rest);
    TokenReceived(Sent(mode, token, ipc, entries) + rest, (if Proxied(mode) then token else []) + afterToken);
    ModeIsCarried(mode);
    BridgeReceived(mode, token, afterToken);
    EnvironmentFrame.EnvironmentRoundTrip(entries, env, rest);
    if ipc.None? {
      assert afterToken == environment;
      NoIpcReceived(mode, afterToken);
    } else if WithUnix(mode) {
      IpcReceived(mode, ipc.value, environment);
    } else {
      NoIpcReceived(mode, afterToken);
      UnexpectedIpcRefused(ipc.value, environment);
    }
  }

  lemma NoIpcReceived(mode: LaunchMode, stream: Bytes)
    requires !WithUnix(mode)
    ensures ReceiveIpc(mode, stream) == Success((None, stream))
  {
  }

  // ----- reading does not depend on what has not arrived yet -----

  lemma TakeExtends(stream: Bytes, n: nat, more: Bytes)
    requires Take(stream, n).Some?
    ensures Take(stream + more, n) == Some((Take(stream, n).value.0, Take(stream, n).value.1 + more))
  {
    assert (stream + more)[..n] == stream[..n];
    assert (stream + more)[n..] == stream[n..] + more;
  }

  lemma BridgeExtends(mode: LaunchMode, gateway: Gateway, stream: Bytes, more: Bytes)
    requires ReceiveBridge(mode, gateway, stream).Success?
    ensures var (token, rest) := ReceiveBridge(mode, gateway, stream).value;
      ReceiveBridge(mode, gateway, stream + more) == Success((token, rest + more))
  {
    hide Take;
    if Proxied(mode) {
      TakeExtends(stream, BRIDGE_TOKEN_BYTES, more);
    }
  }

  lemma IpcExtends(mode: LaunchMode, stream: Bytes, more: Bytes)
    requires ReceiveIpc(mode, stream).Success?
    ensures var (ipc, rest) := ReceiveIpc(mode, stream).value;
      ReceiveIpc(mode, stream + more) == Success((ipc, rest + more))
  {
    hide LocalIpc.EncodeFrame, LocalIpc.DecodeBody, LocalIpc.Valid;
    if WithUnix(mode) {
      var (policy, rest) := LocalIpc.DecodeBody(stream).value;
      LocalIpc.FrameRewrites(stream, policy, rest);
      assert stream + more == LocalIpc.EncodeFrame(policy) + (rest + more);
      LocalIpc.FrameRoundTrip(policy, rest + more);
    }
  }

  lemma EnvExtends(stream: Bytes, more: Bytes)
    requires ReceiveEnv(stream).Success?
    ensures var (env, rest) := ReceiveEnv(stream).value;
      ReceiveEnv(stream + more) == Success((env, rest + more))
  {
    hide EnvironmentFrame.EncodeEnvironment, EnvironmentFrame.DecodeEnvironment, EnvironmentFrame.Lists,
      EnvironmentFrame.Fits, EnvironmentFrame.Clean;
    var (env, rest) := EnvironmentFrame.DecodeEnvironment(stream).value;
    var entries := EnvironmentFrame.EnvironmentRewrites(stream);
    assert stream + more == EnvironmentFrame.EncodeEnvironment(entries) + (rest + more);
    EnvironmentFrame.EnvironmentRoundTrip(entries, env, rest + more);
  }

  /** What the helper has read stays read when more bytes arrive. */
  lemma ReceiveExtends(variable: Option<string>, gateway: Gateway, stream: Bytes, more: Bytes)
    requires Receive(variable, gateway, stream).Success?
    ensures var (received, rest) := Receive(variable, gateway, stream).value;
      Receive(variable, gateway, stream + more) == Success((received, rest + more))
  {
    var afterToken := ReceiveToken(stream).value;
    TakeExtends(stream, |AUTH_TOKEN|, more);
    assert ReceiveToken(stream + more) == Success(afterToken + more);
    hide ReceiveToken, ReceiveBridge, ReceiveIpc, ReceiveEnv, HardeningMode;
    var mode := HardeningMode(variable).value;
    BridgeExtends(mode, gateway, afterToken, more);
    var (token, afterBridge) := ReceiveBridge(mode, gateway, afterToken).value;
    IpcExtends(mode, afterBridge, more);
    var (ipc, afterIpc) := ReceiveIpc(mode, afterBridge).value;
    EnvExtends(afterIpc, more);
  }

  lemma GatewayOnlyRefuses(variable: Option<string>, gateway: Gateway, stream: Bytes)
    requires Receive(variable, gateway, stream).Success?
    ensures Receive(variable, Gateway(true, true), stream) == Receive(variable, gateway, stream)
  {
    hide ReceiveToken, ReceiveIpc, ReceiveEnv, HardeningMode;
  }

  /** Composed policies never require local-IPC rules of a network that is not enabled. */
  lemma ComposedRulesAreEnabled(requested: NetworkPolicy, ceiling: NetworkPolicy)
    ensures LocalIpcRequired(RequirementsOf(requested, ceiling)) ==> RequirementsOf(requested, ceiling).mode.Enabled?
  {
  }

  // ----- from two policies to what the helper enforces -----

  /** A launch is refused where another component owns the network, and where a proxied one
      neither isolates local sockets nor carries rules for them. */
  predicate Launchable(r: Requirements) {
    NetworkMode(r).Some? && (NetworkMode(r) == Some(Proxy) ==> r.localIpcIsolation)
  }

  /** The socket paths a configured helper lets its command use: all of them in direct mode, those its
      policy allows where it received one, and none in the modes whose filter refuses Unix sockets. */
  predicate HelperPermits(mode: LaunchMode, ipc: Option<LocalIpc.Policy>, path: LocalIpc.SocketPath) {
    match mode
    case Direct => true
    case DirectWithUnix => ipc.Some? && LocalIpc.Allows(ipc.value, path)
    case ProxyWithUnix => ipc.Some? && LocalIpc.Allows(ipc.value, path)
    case DirectWithoutUnix => false
    case Disabled => false
    case Proxy => false
  }

  ghost predicate Lowered(requested: NetworkPolicy, ceiling: NetworkPolicy, ipc: Option<LocalIpc.Policy>) {
    ipc.Some? ==> LocalIpc.Lists(ipc.value, LocalIpc.LowerLayers([requested.layer, ceiling.layer]))
  }

  lemma DisabledAllowsNothing(requested: NetworkPolicy, ceiling: NetworkPolicy, path: LocalIpc.SocketPath)
    requires RequirementsOf(requested, ceiling).mode.Disabled?
    ensures !LocalIpc.AllLayersAllow([requested.layer, ceiling.layer], path)
  {
    var layers := [requested.layer, ceiling.layer];
    var k := if requested.layer.mode.Enabled? then 1 else 0;
    assert !LocalIpc.LayerAllows(layers[k], path);
  }

  /** Whatever was lowered, or not sent at all, a helper in the mode of the launch permits a
      socket path exactly when both composed layers do. */
  lemma ModeAndPolicyPermit(requested: NetworkPolicy, ceiling: NetworkPolicy, ipc: Option<LocalIpc.Policy>,
                            path: LocalIpc.SocketPath)
    requires Launchable(RequirementsOf(requested, ceiling)) && Lowered(requested, ceiling, ipc)
    requires ipc.Some? <==> LocalIpcRequired(RequirementsOf(requested, ceiling))
    ensures HelperPermits(NetworkMode(RequirementsOf(requested, ceiling)).value, ipc, path)
        <==> LocalIpc.AllLayersAllow([requested.layer, ceiling.layer], path)
  {
    var r := RequirementsOf(requested, ceiling);
    ComposedRulesAreEnabled(requested, ceiling);
    hide RequirementsOf, LocalIpc.AllLayersAllow, LocalIpc.LowerLayers;
    if ipc.Some? {
      var layers := [requested.layer, ceiling.layer];
      LocalIpc.ListedAllows(ipc.value, LocalIpc.LowerLayers(layers), path);
      LocalIpc.LoweringIsConjunction(layers, path);
    } else if r.mode.Enabled? {
      UnsentPolicyIsUniform(requested, ceiling, path);
      IsolatedIsClosed(requested, ceiling);
    } else {
      DisabledAllowsNothing(requested, ceiling, path);
    }
  }

  /** On an enabled network without rules, a proxied or Unix-free mode is taken exactly when sockets are isolated. */
  lemma IsolatedIsClosed(requested: NetworkPolicy, ceiling: NetworkPolicy)
    requires var r := RequirementsOf(requested, ceiling); r.mode.Enabled? && !LocalIpcRequired(r) && Launchable(r)
    ensures var r := RequirementsOf(requested, ceiling);
      NetworkMode(r) == Some(Direct) <==> !r.localIpcIsolation
  {
  }

  /** For every pair of composed policies that can be launched, the helper reads exactly what the parent
      wrote, and permits every socket path exactly when both composed layers do. */
  lemma LaunchDelivers(requested: NetworkPolicy, ceiling: NetworkPolicy, mode: LaunchMode, token: Bytes,
                       ipc: Option<LocalIpc.Policy>, entries: seq<EnvironmentFrame.Entry>,
                       env: EnvironmentFrame.Variables, rest: Bytes)
    requires Describes(RequirementsOf(requested, ceiling), mode, token, ipc, entries, env)
    requires Launchable(RequirementsOf(requested, ceiling)) && Lowered(requested, ceiling, ipc)
    requires EnvironmentFrame.Clean(entries)
    ensures var r := Receive(ModeVariable(mode), Gateway(true, true), Sent(mode, token, ipc, entries) + rest);
      && r.Success? && r.value.1 == rest && r.value.0.env == env && HardeningMode(ModeVariable(mode)) == Some(mode)
      && forall path :: HelperPermits(mode, r.value.0.ipc, path)
           <==> LocalIpc.AllLayersAllow([requested.layer, ceiling.layer], path)
  {
    hide Receive, Sent, RequirementsOf, EnvironmentFrame.Fits, EnvironmentFrame.Lists, EnvironmentFrame.Clean,
      LocalIpc.Valid, Launchable, Lowered, HelperPermits, LocalIpc.AllLayersAllow, HardeningMode, ModeVariable;
    ComposedRulesAreEnabled(requested, ceiling);
    StreamAgreement(RequirementsOf(requested, ceiling), mode, token, ipc, entries, env, rest);
    ModeIsCarried(mode);
    forall path ensures HelperPermits(mode, ipc, path)
        <==> LocalIpc.AllLayersAllow([requested.layer, ceiling.layer], path)
    {
      ModeAndPolicyPermit(requested, ceiling, ipc, path);
    }
  }

  datatype LaunchError =
    | NotLaunchable | Lowering(lowering: LocalIpc.FrameError) | Sending(sending: SendError) | Receiving(receiving: ReceiveError)

  /** The limits that only the composed layers decide: usable rule paths, and not too many of them. */
  ghost predicate Lowerable(requested: NetworkPolicy, ceiling: NetworkPolicy) {
    var layers := [requested.layer, ceiling.layer];
    LocalIpcRequired(RequirementsOf(requested, ceiling)) ==>
      && LocalIpc.RelevantValid(layers)
      && |LocalIpc.AllowedSet(LocalIpc.LowerLayers(layers))| + |LocalIpc.LowerLayers(layers).denied| <= LocalIpc.MAX_RULES
  }

  /** One setup from end to end: the parent lowers its two policies and writes, the helper reads. It succeeds
      exactly when the launch is allowed, its rules can be lowered and its environment fits and is clean; the
      helper then holds the environment, nothing is left on the stream, and it permits what both layers allow. */
  method DeliverSetup(requested: NetworkPolicy, ceiling: NetworkPolicy, token: Bytes,
                      entries: seq<EnvironmentFrame.Entry>, ghost env: EnvironmentFrame.Variables)
    returns (r: Result<(LaunchMode, Received), LaunchError>)
    requires |token| == BRIDGE_TOKEN_BYTES && EnvironmentFrame.Lists(entries, env)
    ensures r.Success? <==>
      && Launchable(RequirementsOf(requested, ceiling)) && Lowerable(requested, ceiling)
      && EnvironmentFrame.Fits(entries) && EnvironmentFrame.Clean(entries)
    ensures r.Success? ==> r.value.1.env == env
    ensures r.Success? ==> r.value.1.token == if Proxied(r.value.0) then Some(token) else None
    ensures r.Success? ==>
      forall path ::
        HelperPermits(r.value.0, r.value.1.ipc, path) <==> LocalIpc.AllLayersAllow([requested.layer, ceiling.layer], path)
  {
    hide Receive, Sent, RequirementsOf, EnvironmentFrame.Fits, EnvironmentFrame.Lists, EnvironmentFrame.Clean,
      LocalIpc.Valid, HelperPermits, LocalIpc.AllLayersAllow, LocalIpc.Lists, LocalIpc.LowerLayers, LocalIpc.RelevantValid,
      LocalIpc.AllowedSet, HardeningMode, ModeVariable, LocalIpc.Allows;
    var requirements := RequirementsOf(requested, ceiling);
    if !Launchable(requirements) {
      return Failure(NotLaunchable);
    }
    var mode := NetworkMode(requirements).value;
    var lowered := LocalIpc.FromSandbox(LocalIpcRequired(requirements), [requested.layer, ceiling.layer]);
    if lowered.Failure? {
      return Failure(Lowering(lowered.error));
    }
    var ipc := lowered.value;
    var sent := Send(mode, token, ipc, entries);
    if sent.Failure? {
      return Failure(Sending(sent.error));
    }
    var reader := new Reader(sent.value);
    assert Describes(requirements, mode, token, ipc, entries, env);
    ComposedRulesAreEnabled(requested, ceiling);
    StreamAgreement(requirements, mode, token, ipc, entries, env, []);
    assert sent.value + [] == sent.value;
    var received := ReceiveSetup(ModeVariable(mode), Gateway(true, true), reader);
    if received.Failure? {
      return Failure(Receiving(received.error));
    }
    LaunchDelivers(requested, ceiling, mode, token, ipc, entries, env, []);
    return Success((mode, received.value));
  }
}
