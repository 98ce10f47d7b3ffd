/**
 The local-IPC policy of one launch: how layers lower to it, what it allows, and
 the frame that carries it to the helper.
 */
module LocalIpc {
  import opened Wrappers
  import opened Wire

  type SocketPath = Bytes

  const MAX_RULES := 64
  const MAX_PATH_BYTES := 107          // the smaller of 4096 and what `sun_path` holds before its NUL
  const SLASH: Byte := 47
  const MAGIC: Bytes := [67, 70, 73, 80, 67, 1]     // CFIPC\x01
  const DEFAULT_ALLOW: Byte := 0
  const DEFAULT_DENY: Byte := 1

  datatype FrameError =
    | Io | InvalidMagic | InvalidDefaultMode(mode: Byte)
    | RuleLimitExceeded(count: nat) | PathLengthExceeded(length: nat)
    | PathContainsNul | DuplicatePath | EmptyPath | PathNotAbsolute

  datatype Policy = Policy(defaultAllow: bool, allowed: seq<SocketPath>, denied: seq<SocketPath>)

  // ----- validity -----

  function ValidatePath(path: SocketPath): (r: Outcome<FrameError>) {
    if path == [] then Fail(EmptyPath)
    else if 0 in path then Fail(PathContainsNul)
    else if path[0] != SLASH then Fail(PathNotAbsolute)
    else if |path| > MAX_PATH_BYTES then Fail(PathLengthExceeded(|path|))
    else Pass
  }

  predicate ValidPath(path: SocketPath) {
    path != [] && 0 !in path && path[0] == SLASH && |path| <= MAX_PATH_BYTES
  }

  predicate Distinct(paths: seq<SocketPath>) {
    forall i, j :: 0 <= i < j < |paths| ==> paths[i] != paths[j]
  }

  predicate AllValid(paths: seq<SocketPath>) {
    forall i :: 0 <= i < |paths| ==> ValidPath(paths[i])
  }

  predicate Valid(policy: Policy) {
    var paths := policy.allowed + policy.denied;
    |paths| <= MAX_RULES && AllValid(paths) && Distinct(paths)
  }

  /** Accepts exactly the valid policies. */
  method Validate(policy: Policy) returns (r: Outcome<FrameError>)
    ensures r.Pass? <==> Valid(policy)
    ensures r.Fail? && r.error.RuleLimitExceeded? <==> |policy.allowed| + |policy.denied| > MAX_RULES
    ensures r == Fail(DuplicatePath) ==> !Distinct(policy.allowed + policy.denied)
  {
    var total := |policy.allowed| + |policy.denied|;
    if total > MAX_RULES {
      return Fail(RuleLimitExceeded(total));
    }
    var all := policy.allowed + policy.denied;
    var paths: set<SocketPath> := {};
    for k := 0 to |all|
      invariant forall p :: p in paths <==> p in all[..k]
      invariant AllValid(all[..k]) && Distinct(all[..k])
    {
      assert all[..k + 1] == all[..k] + [all[k]];
      var checked := ValidatePath(all[k]);
      if checked.Fail? {
        assert !ValidPath(all[k]);
        return checked;
      }
      if all[k] in paths {
        var j :| 0 <= j < k && all[..k][j] == all[k];
        assert all[j] == all[k];
        return Fail(DuplicatePath);
      }
      paths := paths + {all[k]};
    }
    assert all[..|all|] == all;
    return Pass;
  }

  // ----- what a policy allows -----

  predicate Allows(policy: Policy, path: SocketPath) {
    path in policy.allowed || (policy.defaultAllow && path !in policy.denied)
  }

  // ----- layers -----

  datatype NetworkMode = Disabled | Enabled | External

  datatype SocketMode = SocketsDisabled | SocketsEnabled | SocketsRestricted

  datatype SocketRule = SocketRule(path: SocketPath, allow: bool)

  datatype Layer = Layer(mode: NetworkMode, sockets: SocketMode, rules: seq<SocketRule>)

  function RulePaths(rules: seq<SocketRule>, allow: bool): (r: set<SocketPath>) {
    set k | 0 <= k < |rules| && rules[k].allow == allow :: rules[k].path
  }

  /** The rules of a layer that lowering reads. */
  function RelevantPaths(layer: Layer): (r: set<SocketPath>) {
    if layer.mode != Enabled || layer.sockets == SocketsDisabled then {}
    else RulePaths(layer.rules, layer.sockets == SocketsRestricted)
  }

  /** What one layer permits by itself. */
  predicate LayerAllows(layer: Layer, path: SocketPath) {
    && layer.mode == Enabled
    && match layer.sockets
       case SocketsDisabled => false
       case SocketsRestricted => path in RulePaths(layer.rules, true)
       case SocketsEnabled => path !in RulePaths(layer.rules, false)
  }

  predicate AllLayersAllow(layers: seq<Layer>, path: SocketPath) {
    forall k :: 0 <= k < |layers| ==> LayerAllows(layers[k], path)
  }

  predicate RelevantValid(layers: seq<Layer>) {
    forall k, p :: 0 <= k < |layers| && p in RelevantPaths(layers[k]) ==> ValidPath(p)
  }

  // ----- lowering -----

  /** The folded layers before they are listed: `None` allows every path not denied. */
  datatype Lowered = Lowered(allowed: Option<set<SocketPath>>, denied: set<SocketPath>)

  function LowerLayer(m: Lowered, layer: Layer): (r: Lowered) {
    if layer.mode != Enabled || layer.sockets == SocketsDisabled then m.(allowed := Some({}))
    else if layer.sockets == SocketsRestricted then
      var mine := RulePaths(layer.rules, true);
      m.(allowed := Some(if m.allowed.Some? then m.allowed.value * mine else mine))
    else m.(denied := m.denied + RulePaths(layer.rules, false))
  }

  function LowerLayers(layers: seq<Layer>): (r: Lowered) {
    if layers == [] then Lowered(None, {})
    else LowerLayer(LowerLayers(layers[..|layers| - 1]), layers[|layers| - 1])
  }

  predicate LoweredAllows(m: Lowered, path: SocketPath) {
    path !in m.denied && (m.allowed.None? || path in m.allowed.value)
  }

  /** Folding layers is taking their conjunction. */
  lemma {:induction false} LoweringIsConjunction(layers: seq<Layer>, path: SocketPath)
    ensures LoweredAllows(LowerLayers(layers), path) <==> AllLayersAllow(layers, path)
  {
    if layers != [] {
      var front, last := layers[..|layers| - 1], layers[|layers| - 1];
      LoweringIsConjunction(front, path);
      assert forall k :: 0 <= k < |front| ==> layers[k] == front[k];
      assert AllLayersAllow(layers, path) <==> AllLayersAllow(front, path) && LayerAllows(last, path) by {
        if AllLayersAllow(front, path) && LayerAllows(last, path) {
          forall k | 0 <= k < |layers| ensures LayerAllows(layers[k], path) {
            if k < |front| { assert LayerAllows(front[k], path); }
          }
        }
        if AllLayersAllow(layers, path) {
          forall k | 0 <= k < |front| ensures LayerAllows(front[k], path) {
            assert LayerAllows(layers[k], path);
          }
        }
      }
    }
  }

  function AllowedSet(m: Lowered): (r: set<SocketPath>) {
    (if m.allowed.Some? then m.allowed.value else {}) - m.denied
  }

  /** The lowered policy lists its sets without repetition. */
  ghost predicate Lists(policy: Policy, m: Lowered) {
    && policy.defaultAllow == m.allowed.None?
    && (forall p :: p in policy.allowed <==> p in AllowedSet(m))
    && (forall p :: p in policy.denied <==> p in m.denied)
    && Distinct(policy.allowed) && Distinct(policy.denied)
    && |policy.allowed| == |AllowedSet(m)| && |policy.denied| == |m.denied|
  }

  lemma ListedAllows(policy: Policy, m: Lowered, path: SocketPath)
    requires Lists(policy, m)
    ensures Allows(policy, path) <==> LoweredAllows(m, path)
    ensures Distinct(policy.allowed + policy.denied)
  {
    var all, n := policy.allowed + policy.denied, |policy.allowed|;
    forall i, j | 0 <= i < j < |all| ensures all[i] != all[j] {
      if i < n <= j {
        assert policy.allowed[i] in AllowedSet(m);
        assert policy.denied[j - n] in m.denied;
      }
    }
  }

  method ListSet(paths: set<SocketPath>) returns (r: seq<SocketPath>)
    ensures Distinct(r) && |r| == |paths| && forall p :: p in r <==> p in paths
  {
    r := [];
    var rest := paths;
    while rest != {}
      invariant rest <= paths && Distinct(r) && |r| + |rest| == |paths|
      invariant forall p :: p in r <==> p in paths - rest
      decreases rest
    {
      var p :| p in rest;
      assert forall i :: 0 <= i < |r| ==> r[i] in r;
      r := r + [p];
      rest := rest - {p};
    }
  }

  /** The paths of one layer's rules, unless one of them cannot be a socket path. */
  method CollectPaths(rules: seq<SocketRule>, allow: bool) returns (r: Result<set<SocketPath>, FrameError>)
    ensures r.Success? <==> forall p :: p in RulePaths(rules, allow) ==> ValidPath(p)
    ensures r.Success? ==> r.value == RulePaths(rules, allow)
    ensures r.Failure? ==> !r.error.DuplicatePath? && !r.error.RuleLimitExceeded?
  {
    var paths: set<SocketPath> := {};
    for k := 0 to |rules|
      invariant paths == RulePaths(rules[..k], allow)
      invariant forall p :: p in paths ==> ValidPath(p)
    {
      assert rules[..k + 1] == rules[..k] + [rules[k]];
      RulePathsStep(rules[..k], rules[k], allow);
      if rules[k].allow == allow {
        var checked := ValidatePath(rules[k].path);
        if checked.Fail? {
          assert rules[k].path in RulePaths(rules, allow);
          return Failure(checked.error);
        }
        paths := paths + {rules[k].path};
      }
    }
    assert rules[..|rules|] == rules;
    return Success(paths);
  }

  lemma RulePathsStep(rules: seq<SocketRule>, rule: SocketRule, allow: bool)
    ensures RulePaths(rules + [rule], allow) == RulePaths(rules, allow) + if rule.allow == allow then {rule.path} else {}
  {
    var all := rules + [rule];
    forall p | p in RulePaths(rules, allow) ensures p in RulePaths(all, allow) {
      var k :| 0 <= k < |rules| && rules[k].allow == allow && rules[k].path == p;
      assert all[k] == rules[k];
    }
    assert all[|rules|] == rule;
  }

  lemma RelevantStep(layers: seq<Layer>, k: nat)
    requires k < |layers|
    ensures RelevantValid(layers[..k + 1]) <==>
      RelevantValid(layers[..k]) && forall p :: p in RelevantPaths(layers[k]) ==> ValidPath(p)
    ensures !(forall p :: p in RelevantPaths(layers[k]) ==> ValidPath(p)) ==> !RelevantValid(layers)
    ensures LowerLayers(layers[..k + 1]) == LowerLayer(LowerLayers(layers[..k]), layers[k])
  {
    var front, longer := layers[..k], layers[..k + 1];
    assert longer[..k] == front && longer[k] == layers[k];
    forall j | 0 <= j < k ensures longer[j] == front[j] {
    }
  }

  /** Lowers the layers of a launch that needs local-IPC rules.  It fails only on
      an unusable path or on too many rules, never on a duplicate, and the policy
      allows a path exactly when every layer does. */
  method FromSandbox(required: bool, layers: seq<Layer>) returns (r: Result<Option<Policy>, FrameError>)
    ensures !required ==> r == Success(None)
    ensures required ==> (r.Success? <==>
      RelevantValid(layers) && |AllowedSet(LowerLayers(layers))| + |LowerLayers(layers).denied| <= MAX_RULES)
    ensures r.Failure? ==> !r.error.DuplicatePath?
    ensures required && r.Success? ==>
      && r.value.Some? && Valid(r.value.value) && Lists(r.value.value, LowerLayers(layers))
      && forall path :: Allows(r.value.value, path) <==> AllLayersAllow(layers, path)
  {
    if !required {
      return Success(None);
    }
    hide RulePaths, Distinct, AllValid, ValidPath;
    var allowed: Option<set<SocketPath>> := None;
    var denied: set<SocketPath> := {};
    for k := 0 to |layers|
      invariant Lowered(allowed, denied) == LowerLayers(layers[..k])
      invariant RelevantValid(layers[..k])
    {
      var layer := layers[k];
      RelevantStep(layers, k);
      if layer.mode != Enabled {
        allowed := Some({});
      } else {
        match layer.sockets
        case SocketsDisabled => allowed := Some({});
        case SocketsRestricted =>
          var mine := CollectPaths(layer.rules, true);
          if mine.Failure? {
            return Failure(mine.error);
          }
          allowed := Some(if allowed.Some? then allowed.value * mine.value else mine.value);
        case SocketsEnabled =>
          var mine := CollectPaths(layer.rules, false);
          if mine.Failure? {
            return Failure(mine.error);
          }
          denied := denied + mine.value;
      }
    }
    assert layers[..|layers|] == layers;
    r := ListLowered(layers, Lowered(allowed, denied));
  }

  lemma {:induction false} LoweredPathsAreRelevant(layers: seq<Layer>, p: SocketPath)
    ensures p in LowerLayers(layers).denied || p in AllowedSet(LowerLayers(layers)) ==>
      exists k :: 0 <= k < |layers| && p in RelevantPaths(layers[k])
  {
    if layers != [] {
      var front := layers[..|layers| - 1];
      LoweredPathsAreRelevant(front, p);
      var m := LowerLayers(layers);
      if p in m.denied || p in AllowedSet(m) {
        if p in RelevantPaths(layers[|layers| - 1]) {
        } else {
          var before := LowerLayers(front);
          assert p in before.denied || p in AllowedSet(before);
          var k :| 0 <= k < |front| && p in RelevantPaths(front[k]);
          assert layers[k] == front[k];
        }
      }
    }
  }

  method ListLowered(layers: seq<Layer>, m: Lowered) returns (r: Result<Option<Policy>, FrameError>)
    requires m == LowerLayers(layers) && RelevantValid(layers)
    ensures r.Success? <==> |AllowedSet(m)| + |m.denied| <= MAX_RULES
    ensures r.Failure? ==> !r.error.DuplicatePath?
    ensures r.Success? ==>
      && r.value.Some? && Valid(r.value.value) && Lists(r.value.value, LowerLayers(layers))
      && forall path :: Allows(r.value.value, path) <==> AllLayersAllow(layers, path)
  {
    hide LowerLayers, RelevantPaths, LayerAllows, ValidPath;
    var allowed := ListSet(AllowedSet(m));
    var denied := ListSet(m.denied);
    var policy := Policy(m.allowed.None?, allowed, denied);
    assert Lists(policy, m);
    forall path ensures Allows(policy, path) <==> AllLayersAllow(layers, path) {
      ListedAllows(policy, m, path);
      LoweringIsConjunction(layers, path);
    }
    ListedAllows(policy, m, []);
    assert AllValid(allowed + denied) by {
      forall i | 0 <= i < |allowed + denied| ensures ValidPath((allowed + denied)[i]) {
        LoweredPathsAreRelevant(layers, (allowed + denied)[i]);
      }
    }
    var checked := Validate(policy);
    if checked.Fail? {
      return Failure(checked.error);
    }
    return Success(Some(policy));
  }

  /** Layers in another order allow the same paths. */
  lemma OrderDoesNotMatter(layers: seq<Layer>, others: seq<Layer>, path: SocketPath)
    requires multiset(layers) == multiset(others)
    ensures LoweredAllows(LowerLayers(layers), path) <==> LoweredAllows(LowerLayers(others), path)
  {
    LoweringIsConjunction(layers, path);
    LoweringIsConjunction(others, path);
    forall k | 0 <= k < |layers| ensures layers[k] in others {
      assert layers[k] in multiset(layers);
    }
    forall k | 0 <= k < |others| ensures others[k] in layers {
      assert others[k] in multiset(others);
    }
  }

  // ----- the frame -----

  function EncodePaths(paths: seq<SocketPath>): (r: Bytes) {
    if paths == [] then [] else BigEndian(|paths[0]|, 2) + paths[0] + EncodePaths(paths[1..])
  }

  function EncodeRules(paths: seq<SocketPath>): (r: Bytes) {
    BigEndian(|paths|, 4) + EncodePaths(paths)
  }

  function EncodeFrame(policy: Policy): (r: Bytes) {
    MAGIC + [if policy.defaultAllow then DEFAULT_ALLOW else DEFAULT_DENY]
    + EncodeRules(policy.allowed) + EncodeRules(policy.denied)
  }

  function DecodePath(stream: Bytes): (r: Result<(SocketPath, Bytes), FrameError>)
    ensures r.Success? ==> |r.value.1| < |stream|
  {
    var head := Take(stream, 2);
    if head.None? then Failure(Io)
    else
      var length := FromBigEndian(head.value.0);
      if length > MAX_PATH_BYTES then Failure(PathLengthExceeded(length))
      else
        var body := Take(head.value.1, length);
        if body.None? then Failure(Io)
        else if ValidatePath(body.value.0).Fail? then Failure(ValidatePath(body.value.0).error)
        else Success(body.value)
  }

  function DecodePaths(stream: Bytes, count: nat): (r: Result<(seq<SocketPath>, Bytes), FrameError>)
    decreases count
  {
    if count == 0 then Success(([], stream))
    else
      var (path, afterPath) :- DecodePath(stream);
      var (paths, rest) :- DecodePaths(afterPath, count - 1);
      Success(([path] + paths, rest))
  }

  function DecodeRules(stream: Bytes): (r: Result<(seq<SocketPath>, Bytes), FrameError>) {
    var head := Take(stream, 4);
    if head.None? then Failure(Io)
    else
      var count := FromBigEndian(head.value.0);
      if count > MAX_RULES then Failure(RuleLimitExceeded(count))
      else DecodePaths(head.value.1, count)
  }

  function DecodeMode(stream: Bytes): (r: Result<(bool, Bytes), FrameError>) {
    var mode := Take(stream, 1);
    if mode.None? then Failure(Io)
    else if mode.value.0[0] == DEFAULT_ALLOW then Success((true, mode.value.1))
    else if mode.value.0[0] == DEFAULT_DENY then Success((false, mode.value.1))
    else Failure(InvalidDefaultMode(mode.value.0[0]))
  }

  function DecodeMagic(stream: Bytes): (r: Result<Bytes, FrameError>) {
    var magic := Take(stream, |MAGIC|);
    if magic.None? then Failure(Io)
    else if magic.value.0 != MAGIC then Failure(InvalidMagic)
    else Success(magic.value.1)
  }

  /** The body of a frame before the final validation. */
  function DecodeBody(stream: Bytes): (r: Result<(Policy, Bytes), FrameError>) {
    var afterMagic :- DecodeMagic(stream);
    var (defaultAllow, afterMode) :- DecodeMode(afterMagic);
    var (allowed, afterAllowed) :- DecodeRules(afterMode);
    var (denied, rest) :- DecodeRules(afterAllowed);
    Success((Policy(defaultAllow, allowed, denied), rest))
  }

  /** The policy in front of a stream; a body that is not valid is refused. */
  ghost predicate Decodes(stream: Bytes, policy: Policy, rest: Bytes) {
    DecodeBody(stream) == Success((policy, rest)) && Valid(policy)
  }

  // ----- the frame round-trips -----

  lemma PathRoundTrip(path: SocketPath, rest: Bytes)
    requires ValidPath(path)
    ensures DecodePath(BigEndian(|path|, 2) + path + rest) == Success((path, rest))
  {
    Power256Is();
    BigEndianReads(|path|, 2);
    assert BigEndian(|path|, 2) + path + rest == BigEndian(|path|, 2) + (path + rest);
    TakeWritten(BigEndian(|path|, 2), path + rest);
    TakeWritten(path, rest);
  }

  lemma {:induction false} PathsRoundTrip(paths: seq<SocketPath>, rest: Bytes)
    requires AllValid(paths)
    ensures DecodePaths(EncodePaths(paths) + rest, |paths|) == Success((paths, rest))
    decreases |paths|
  {
    hide DecodePath, ValidPath;
    if paths == [] {
      assert EncodePaths(paths) + rest == rest;
    } else {
      var path, others := paths[0], paths[1..];
      var after := EncodePaths(others) + rest;
      assert EncodePaths(paths) + rest == BigEndian(|path|, 2) + path + after;
      PathRoundTrip(path, after);
      PathsRoundTrip(others, rest);
      assert [path] + others == paths;
    }
  }

  lemma RulesRoundTrip(paths: seq<SocketPath>, rest: Bytes)
    requires AllValid(paths) && |paths| <= MAX_RULES
    ensures DecodeRules(EncodeRules(paths) + rest) == Success((paths, rest))
  {
    Power256Is();
    BigEndianReads(|paths|, 4);
    assert EncodeRules(paths) + rest == BigEndian(|paths|, 4) + (EncodePaths(paths) + rest);
    TakeWritten(BigEndian(|paths|, 4), EncodePaths(paths) + rest);
    PathsRoundTrip(paths, rest);
  }

  /** Reading a written policy returns it and leaves the suffix untouched. */
  lemma FrameRoundTrip(policy: Policy, rest: Bytes)
    requires Valid(policy)
    ensures Decodes(EncodeFrame(policy) + rest, policy, rest)
  {
    hide EncodeRules, DecodeRules, Take;
    var mode := [if policy.defaultAllow then DEFAULT_ALLOW else DEFAULT_DENY];
    var afterAllowed := EncodeRules(policy.denied) + rest;
    var afterMode := EncodeRules(policy.allowed) + afterAllowed;
    var afterMagic := mode + afterMode;
    assert EncodeFrame(policy) + rest == MAGIC + afterMagic;
    TakeWritten(MAGIC, afterMagic);
    TakeWritten(mode, afterMode);
    assert AllValid(policy.allowed) && AllValid(policy.denied) by {
      var all := policy.allowed + policy.denied;
      forall i | 0 <= i < |policy.allowed| ensures ValidPath(policy.allowed[i]) {
        assert all[i] == policy.allowed[i];
      }
      forall i | 0 <= i < |policy.denied| ensures ValidPath(policy.denied[i]) {
        assert all[|policy.allowed| + i] == policy.denied[i];
      }
    }
    RulesRoundTrip(policy.allowed, afterAllowed);
    RulesRoundTrip(policy.denied, rest);
  }

  lemma PathRewrites(stream: Bytes)
    requires DecodePath(stream).Success?
    ensures var (path, rest) := DecodePath(stream).value;
      stream == BigEndian(|path|, 2) + path + rest && ValidPath(path)
  {
    var head := Take(stream, 2).value;
    BigEndianWrites(head.0);
    var body := Take(head.1, FromBigEndian(head.0)).value;
    assert stream == head.0 + (body.0 + body.1);
    assert head.0 + (body.0 + body.1) == head.0 + body.0 + body.1;
  }

  lemma {:induction false} PathsRewrite(stream: Bytes, count: nat)
    requires DecodePaths(stream, count).Success?
    ensures var (paths, rest) := DecodePaths(stream, count).value;
      |paths| == count && stream == EncodePaths(paths) + rest
    decreases count
  {
    if count > 0 {
      hide DecodePath;
      var (path, afterPath) := DecodePath(stream).value;
      PathRewrites(stream);
      PathsRewrite(afterPath, count - 1);
      var (paths, rest) := DecodePaths(afterPath, count - 1).value;
      assert ([path] + paths)[1..] == paths;
      assert BigEndian(|path|, 2) + path + (EncodePaths(paths) + rest)
          == (BigEndian(|path|, 2) + path + EncodePaths(paths)) + rest;
    }
  }

  lemma RulesRewrite(stream: Bytes)
    requires DecodeRules(stream).Success?
    ensures var (paths, rest) := DecodeRules(stream).value; stream == EncodeRules(paths) + rest
  {
    hide DecodePaths, EncodePaths;
    var head := Take(stream, 4).value;
    BigEndianWrites(head.0);
    PathsRewrite(head.1, FromBigEndian(head.0));
    var (paths, rest) := DecodeRules(stream).value;
    assert head.0 + (EncodePaths(paths) + rest) == (head.0 + EncodePaths(paths)) + rest;
  }

  /** Re-writing an accepted frame reproduces its bytes: no policy has two frames. */
  lemma FrameRewrites(stream: Bytes, policy: Policy, rest: Bytes)
    requires Decodes(stream, policy, rest)
    ensures stream == EncodeFrame(policy) + rest
  {
    hide DecodeRules, EncodeRules, Valid;
    var afterMagic := DecodeMagic(stream).value;
    var (defaultAllow, afterMode) := DecodeMode(afterMagic).value;
    var (allowed, afterAllowed) := DecodeRules(afterMode).value;
    RulesRewrite(afterMode);
    RulesRewrite(afterAllowed);
    var mode := [if defaultAllow then DEFAULT_ALLOW else DEFAULT_DENY];
    assert afterMagic == mode + afterMode;
    assert stream == MAGIC + (mode + (EncodeRules(allowed) + (EncodeRules(policy.denied) + rest)));
  }

  // ----- reading and writing -----

  method WriteRules(out: Bytes, paths: seq<SocketPath>) returns (r: Bytes)
    requires |paths| <= MAX_RULES && AllValid(paths)
    ensures r == out + EncodeRules(paths)
  {
    r := out + BigEndian(|paths|, 4);
    ghost var head := r;
    assert paths[0..] == paths;
    for k := 0 to |paths|
      invariant head + EncodePaths(paths) == r + EncodePaths(paths[k..])
    {
      assert paths[k..][1..] == paths[k + 1..];
      r := r + BigEndian(|paths[k]|, 2) + paths[k];
    }
    assert r + [] == r;
  }

  /** Writes a policy that passes validation; nothing is written otherwise. */
  method WriteFrame(policy: Policy) returns (r: Result<Bytes, FrameError>)
    ensures r.Success? <==> Valid(policy)
    ensures r.Success? ==> r.value == EncodeFrame(policy)
  {
    var checked := Validate(policy);
    if checked.Fail? {
      return Failure(checked.error);
    }
    var all := policy.allowed + policy.denied;
    assert forall i :: 0 <= i < |policy.allowed| ==> policy.allowed[i] == all[i];
    assert forall i :: 0 <= i < |policy.denied| ==> policy.denied[i] == all[|policy.allowed| + i];
    hide EncodeRules;
    var out: Bytes := MAGIC + [if policy.defaultAllow then DEFAULT_ALLOW else DEFAULT_DENY];
    out := WriteRules(out, policy.allowed);
    out := WriteRules(out, policy.denied);
    return Success(out);
  }

  /** One length-prefixed path; the length limit is checked before the body is read. */
  method ReadPath(reader: Reader) returns (r: Result<SocketPath, FrameError>)
    modifies reader
    ensures r.Success? ==> DecodePath(old(reader.pending)) == Success((r.value, reader.pending))
    ensures r.Failure? ==> DecodePath(old(reader.pending)) == Failure(r.error)
  {
    var head := reader.ReadExact(2);
    if head.None? {
      return Failure(Io);
    }
    var length := FromBigEndian(head.value);
    if length > MAX_PATH_BYTES {
      return Failure(PathLengthExceeded(length));
    }
    var path := reader.ReadExact(length);
    if path.None? {
      return Failure(Io);
    }
    var checked := ValidatePath(path.value);
    if checked.Fail? {
      return Failure(checked.error);
    }
    return Success(path.value);
  }

  method ReadRules(reader: Reader) returns (r: Result<seq<SocketPath>, FrameError>)
    modifies reader
    ensures r.Success? ==> DecodeRules(old(reader.pending)) == Success((r.value, reader.pending))
    ensures r.Failure? ==> DecodeRules(old(reader.pending)) == Failure(r.error)
  {
    var head := reader.ReadExact(4);
    if head.None? {
      return Failure(Io);
    }
    var count := FromBigEndian(head.value);
    if count > MAX_RULES {
      return Failure(RuleLimitExceeded(count));
    }
    ghost var whole := DecodePaths(reader.pending, count);
    assert whole == DecodeRules(old(reader.pending));
    hide DecodePath, DecodeRules, FromBigEndian, Take;
    r := ReadPaths(reader, count);
  }

  method ReadPaths(reader: Reader, count: nat) returns (r: Result<seq<SocketPath>, FrameError>)
    modifies reader
    ensures r.Success? ==> DecodePaths(old(reader.pending), count) == Success((r.value, reader.pending))
    ensures r.Failure? ==> DecodePaths(old(reader.pending), count) == Failure(r.error)
  {
    hide DecodePath;
    var paths: seq<SocketPath> := [];
    ghost var whole := DecodePaths(reader.pending, count);
    assert whole.Success? ==> [] + whole.value.0 == whole.value.0;
    for k := 0 to count
      invariant Continues(whole, paths, DecodePaths(reader.pending, count - k))
    {
      ghost var rest := DecodePaths(reader.pending, count - k);
      var path :- ReadPath(reader);
      ghost var after := DecodePaths(reader.pending, count - k - 1);
      assert after.Success? ==> paths + ([path] + after.value.0) == (paths + [path]) + after.value.0;
      paths := paths + [path];
    }
    assert paths + [] == paths;
    return Success(paths);
  }

  /** The whole result is the paths read so far followed by the rest of the result. */
  ghost predicate Continues(whole: Result<(seq<SocketPath>, Bytes), FrameError>, paths: seq<SocketPath>,
                            rest: Result<(seq<SocketPath>, Bytes), FrameError>) {
    whole == if rest.Failure? then rest else Success((paths + rest.value.0, rest.value.1))
  }

  /** Reads one frame from a stream, refusing what validation refuses. */
  method ReadFrame(reader: Reader) returns (r: Result<Policy, FrameError>)
    modifies reader
    ensures r.Success? ==> Decodes(old(reader.pending), r.value, reader.pending)
    ensures r.Failure? ==> forall policy, rest :: !Decodes(old(reader.pending), policy, rest)
    ensures DecodeBody(old(reader.pending)).Failure? ==> r == Failure(DecodeBody(old(reader.pending)).error)
  {
    hide DecodeRules, Valid;
    ghost var stream := reader.pending;
    var magic := reader.ReadExact(|MAGIC|);
    if magic.None? {
      return Failure(Io);
    }
    if magic.value != MAGIC {
      return Failure(InvalidMagic);
    }
    var mode := reader.ReadExact(1);
    if mode.None? {
      return Failure(Io);
    }
    if mode.value[0] != DEFAULT_ALLOW && mode.value[0] != DEFAULT_DENY {
      return Failure(InvalidDefaultMode(mode.value[0]));
    }
    var defaultAllow := mode.value[0] == DEFAULT_ALLOW;
    var allowed :- ReadRules(reader);
    var denied :- ReadRules(reader);
    var policy := Policy(defaultAllow, allowed, denied);
    assert DecodeBody(stream) == Success((policy, reader.pending));
    var checked := Validate(policy);
    if checked.Fail? {
      return Failure(checked.error);
    }
    return Success(policy);
  }
}
