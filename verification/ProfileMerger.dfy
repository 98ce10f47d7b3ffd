/**
 Parent-to-child merging of profile sections.  `Fold` says what a list of
 sections means by linear scans; `SectionMerger.Merger` computes it with its indexes.
 */
module ProfileMerger {
  import opened Wrappers
  import opened LexicalPath
  import opened IndexedMerge

  // ----- sections -----

  datatype FilesystemMode = Restricted | Unrestricted | ExternalFilesystem

  datatype Target =
    | Absolute | Workspace | WorkspaceRoot | RootTarget | Minimal | Tmpdir | SlashTmp
    | AbsoluteGlob | WorkspaceGlob

  datatype FilesystemRule = FilesystemRule(target: Target, path: Option<string>, pattern: Option<string>, access: string)

  datatype Filesystem = Filesystem(
    mode: Option<FilesystemMode>,
    globScanMaxDepth: Option<nat>,
    protectedPaths: seq<string>,
    security: Option<Option<bool>>,
    rules: seq<FilesystemRule>)

  datatype NetworkMode = DisabledNetwork | EnabledNetwork | ExternalNetwork

  datatype DomainRule = DomainRule(pattern: string, allow: bool)

  datatype SocketRule = SocketRule(path: string, allow: bool)

  datatype Network = Network(
    mode: Option<NetworkMode>,
    domainMode: Option<string>,
    unixSocketMode: Option<string>,
    localAccess: Option<bool>,
    gateway: Option<map<string, nat>>,       // the gateway settings that are present
    domains: seq<DomainRule>,
    unixSockets: seq<SocketRule>)

  datatype LocalIpc = LocalIpc(unixSockets: seq<string>, namedPipes: seq<string>)

  datatype Environment = Environment(
    inherit: Option<string>,
    filters: seq<(string, bool)>,
    assignments: seq<(string, string)>,
    removals: seq<string>)

  datatype Section =
    | FilesystemSection(filesystem: Filesystem)
    | NetworkSection(network: Network)
    | LocalIpcSection(localIpc: LocalIpc)
    | RuntimeSection(executableRoots: seq<string>)
    | RootsSection(workspaceRoots: seq<(string, bool)>)
    | EnvironmentSection(environment: Environment)

  /** Identity rules that other crates own, and the dialect of the platform. */
  datatype Identities = Identities(
    dialect: Dialect,
    fold: string -> string,
    selector: (Target, string) -> Option<string>,
    validGlob: (Target, string) -> bool,
    domain: string -> string,
    filter: string -> string,
    variable: string -> string)

  // ----- keys -----

  datatype RuleKey =
    | ValidSelector(target: Target, id: string)
    | PlatformSelector(target: Target, key: seq<Component>)
    | NoSelector(target: Target)
    | ValidGlob(target: Target, key: seq<Component>)
    | RawGlob(target: Target, key: seq<Component>)
    | NoGlob(target: Target)

  function PathKey(ids: Identities, path: string): (k: seq<Component>) {
    Key(path, ids.dialect, ids.fold)
  }

  function FilesystemRuleKey(ids: Identities, rule: FilesystemRule): (k: RuleKey) {
    match rule.target
    case Absolute | Workspace =>
      if rule.path.None? then NoSelector(rule.target)
      else
        var id := ids.selector(rule.target, rule.path.value);
        if id.Some? then ValidSelector(rule.target, id.value)
        else PlatformSelector(rule.target, PathKey(ids, rule.path.value))
    case AbsoluteGlob | WorkspaceGlob =>
      if rule.pattern.None? then NoGlob(rule.target)
      else if ids.validGlob(rule.target, rule.pattern.value) then
        ValidGlob(rule.target, PathKey(ids, rule.pattern.value))
      else RawGlob(rule.target, PathKey(ids, rule.pattern.value))
    case _ => NoSelector(rule.target)
  }

  function RuleKeys(ids: Identities): (f: FilesystemRule -> RuleKey) {
    (rule: FilesystemRule) => FilesystemRuleKey(ids, rule)
  }

  function PathKeys(ids: Identities): (f: string -> seq<Component>) {
    path => PathKey(ids, path)
  }

  function DomainKeys(ids: Identities): (f: DomainRule -> string) {
    (rule: DomainRule) => ids.domain(rule.pattern)
  }

  function SocketKeys(ids: Identities): (f: SocketRule -> seq<Component>) {
    (rule: SocketRule) => PathKey(ids, rule.path)
  }

  function PipeKeys(): (f: string -> string) {
    name => AsciiLowered(name)
  }

  // ----- linear merging -----

  datatype Variable = Variable(name: string, value: Option<string>)

  datatype MergedEnvironment = MergedEnvironment(
    inherit: Option<string>,
    filters: map<string, bool>)

  /** A merged profile while sections are still being applied. */
  datatype Merged = Merged(
    filesystem: Option<Filesystem>,
    network: Option<Network>,
    localIpc: Option<LocalIpc>,
    runtime: Option<seq<string>>,
    workspaceRoots: map<string, bool>,
    environment: Option<MergedEnvironment>,
    overrides: map<string, Variable>)

  const EMPTY := Merged(None, None, None, None, map[], None, map[])

  function Newer<T>(child: Option<T>, parent: Option<T>): (r: Option<T>) {
    if child.Some? then child else parent
  }

  const NO_FILESYSTEM := Filesystem(None, None, [], None, [])
  const NO_NETWORK := Network(None, None, None, None, None, [], [])

  predicate ClearsFilesystem(child: Filesystem) {
    child.mode.Some? && child.mode.value != Restricted
  }

  function MergeSecurity(parent: Option<Option<bool>>, child: Option<Option<bool>>): (r: Option<Option<bool>>) {
    if child.None? then parent
    else Some(Newer(child.value, if parent.Some? then parent.value else None))
  }

  function MergeFilesystem(ids: Identities, parent: Option<Filesystem>, child: Filesystem): (r: Filesystem) {
    var kept := if parent.None? || ClearsFilesystem(child) then NO_FILESYSTEM else parent.value;
    Filesystem(
      Newer(child.mode, kept.mode),
      Newer(child.globScanMaxDepth, kept.globScanMaxDepth),
      AddAll(kept.protectedPaths, child.protectedPaths, PathKeys(ids)),
      MergeSecurity(kept.security, child.security),
      PutAll(kept.rules, child.rules, RuleKeys(ids)))
  }

  predicate ClearsNetwork(child: Network) {
    child.mode == Some(ExternalNetwork)
  }

  function MergeGateway(parent: Option<map<string, nat>>, child: Option<map<string, nat>>): (r: Option<map<string, nat>>) {
    if child.None? then parent
    else Some((if parent.Some? then parent.value else map[]) + child.value)
  }

  function MergeNetwork(ids: Identities, parent: Option<Network>, child: Network): (r: Network) {
    var before := if parent.None? then NO_NETWORK else parent.value;
    var kept := if ClearsNetwork(child) then NO_NETWORK.(gateway := before.gateway) else before;
    Network(
      Newer(child.mode, kept.mode),
      Newer(child.domainMode, kept.domainMode),
      Newer(child.unixSocketMode, kept.unixSocketMode),
      Newer(child.localAccess, kept.localAccess),
      MergeGateway(kept.gateway, child.gateway),
      PutAll(kept.domains, child.domains, DomainKeys(ids)),
      PutAll(kept.unixSockets, child.unixSockets, SocketKeys(ids)))
  }

  function MergeLocalIpc(ids: Identities, parent: Option<LocalIpc>, child: LocalIpc): (r: LocalIpc) {
    var kept := if parent.None? then LocalIpc([], []) else parent.value;
    LocalIpc(PutAll(kept.unixSockets, child.unixSockets, PathKeys(ids)),
             PutAll(kept.namedPipes, child.namedPipes, PipeKeys()))
  }

  function Override(ids: Identities, overrides: map<string, Variable>, v: Variable): (r: map<string, Variable>) {
    overrides[ids.variable(v.name) := v]
  }

  function Overrides(ids: Identities, overrides: map<string, Variable>, vs: seq<Variable>): (r: map<string, Variable>)
    decreases |vs|
  {
    if vs == [] then overrides else Overrides(ids, Override(ids, overrides, vs[0]), vs[1..])
  }

  /** A section's assignments come before its removals. */
  function Variables(child: Environment): (r: seq<Variable>) {
    seq(|child.assignments|, i requires 0 <= i < |child.assignments| =>
      Variable(child.assignments[i].0, Some(child.assignments[i].1)))
    + seq(|child.removals|, i requires 0 <= i < |child.removals| => Variable(child.removals[i], None))
  }

  function MergeEnvironment(ids: Identities, parent: Option<MergedEnvironment>, child: Environment)
    : (r: MergedEnvironment)
  {
    var kept := if parent.None? then MergedEnvironment(None, map[]) else parent.value;
    MergedEnvironment(Newer(child.inherit, kept.inherit), SpellAll(kept.filters, child.filters, ids.filter))
  }

  function ApplySection(ids: Identities, m: Merged, s: Section): (r: Merged) {
    match s
    case FilesystemSection(f) => m.(filesystem := Some(MergeFilesystem(ids, m.filesystem, f)))
    case NetworkSection(n) =>
      m.(network := Some(MergeNetwork(ids, m.network, n)), localIpc := if ClearsNetwork(n) then None else m.localIpc)
    case LocalIpcSection(l) => m.(localIpc := Some(MergeLocalIpc(ids, m.localIpc, l)))
    case RuntimeSection(roots) =>
      m.(runtime := Some(PutAll(if m.runtime.None? then [] else m.runtime.value, roots, PathKeys(ids))))
    case RootsSection(roots) => m.(workspaceRoots := SpellAll(m.workspaceRoots, roots, PathKeys(ids)))
    case EnvironmentSection(e) =>
      m.(environment := Some(MergeEnvironment(ids, m.environment, e)),
         overrides := Overrides(ids, m.overrides, Variables(e)))
  }

  function Fold(ids: Identities, m: Merged, sections: seq<Section>): (r: Merged)
    decreases |sections|
  {
    if sections == [] then m else Fold(ids, ApplySection(ids, m, sections[0]), sections[1..])
  }

  // ----- finishing -----

  /** Every override is stored under the identity of its own name. */
  ghost predicate KeyedByName(ids: Identities, overrides: map<string, Variable>) {
    forall k :: k in overrides ==> ids.variable(overrides[k].name) == k
  }

  predicate Assigned(ids: Identities, overrides: map<string, Variable>, name: string) {
    var k := ids.variable(name);
    k in overrides && overrides[k].name == name && overrides[k].value.Some?
  }

  predicate Removed(ids: Identities, overrides: map<string, Variable>, name: string) {
    var k := ids.variable(name);
    k in overrides && overrides[k].name == name && overrides[k].value.None?
  }

  /** The order of text: by the first difference, a proper prefix first. */
  predicate Precedes(a: string, b: string): (r: bool)
    ensures r ==> a != b
  {
    b != "" && (a == "" || a[0] < b[0] || (a[0] == b[0] && Precedes(a[1..], b[1..])))
  }

  lemma {:induction false} PrecedesIsTotal(a: string, b: string)
    ensures a == b || Precedes(a, b) || Precedes(b, a)
  {
    if a != "" && b != "" && a[0] == b[0] {
      PrecedesIsTotal(a[1..], b[1..]);
      assert a == [a[0]] + a[1..] && b == [b[0]] + b[1..];
    }
  }

  lemma {:induction false} PrecedesIsTransitive(a: string, b: string, c: string)
    requires Precedes(a, b) && Precedes(b, c)
    ensures Precedes(a, c)
  {
    if a != "" && a[0] == b[0] && b[0] == c[0] {
      PrecedesIsTransitive(a[1..], b[1..], c[1..]);
    }
  }

  ghost predicate IsLeast(keys: set<string>, k: string) {
    k in keys && forall o :: o in keys ==> o == k || Precedes(k, o)
  }

  lemma {:induction false} LeastExists(keys: set<string>) returns (k: string)
    requires keys != {}
    ensures IsLeast(keys, k)
    decreases |keys|
  {
    hide Precedes;
    var first :| first in keys;
    k := first;
    var others := keys - {first};
    assert forall x :: x in keys ==> x == first || x in others;
    if others != {} {
      var o := LeastExists(others);
      PrecedesIsTotal(first, o);
      if Precedes(o, first) {
        k := o;
      } else {
        forall x | x in others && x != o ensures Precedes(first, x) {
          PrecedesIsTransitive(first, o, x);
        }
      }
    }
  }

  /** The identities of a list of names ascend. */
  ghost predicate Ascending(ids: Identities, names: seq<string>) {
    forall i, j :: 0 <= i < j < |names| ==> Precedes(ids.variable(names[i]), ids.variable(names[j]))
  }

  /** The assignments and removals a finished environment carries; removals are listed by identity. */
  ghost predicate SplitsInto(ids: Identities, overrides: map<string, Variable>, assignments: map<string, string>,
                             removals: seq<string>) {
    && (forall name :: name in assignments <==> Assigned(ids, overrides, name))
    && (forall name :: name in assignments ==> assignments[name] == overrides[ids.variable(name)].value.value)
    && (forall name :: name in removals <==> Removed(ids, overrides, name))
    && Ascending(ids, removals)
  }

  // ----- folding -----

  lemma {:induction false} FoldLast(ids: Identities, m: Merged, sections: seq<Section>, s: Section)
    ensures Fold(ids, m, sections + [s]) == ApplySection(ids, Fold(ids, m, sections), s)
    decreases |sections|
  {
    if sections == [] {
      assert (sections + [s])[1..] == [];
    } else {
      assert (sections + [s])[1..] == sections[1..] + [s];
      FoldLast(ids, ApplySection(ids, m, sections[0]), sections[1..], s);
    }
  }

  lemma {:induction false} FoldAppends(ids: Identities, m: Merged, xs: seq<Section>, ys: seq<Section>)
    ensures Fold(ids, m, xs + ys) == Fold(ids, Fold(ids, m, xs), ys)
    decreases |xs|
  {
    if xs == [] {
      assert xs + ys == ys;
    } else {
      assert (xs + ys)[1..] == xs[1..] + ys;
      FoldAppends(ids, ApplySection(ids, m, xs[0]), xs[1..], ys);
    }
  }

  // ----- what each keyed list holds -----

  /** The rules a profile has been given since its filesystem was last cleared. */
  function RuleHistory(sections: seq<Section>): (r: seq<FilesystemRule>) {
    if sections == [] then []
    else
      var before := RuleHistory(sections[..|sections| - 1]);
      match sections[|sections| - 1]
      case FilesystemSection(f) => (if ClearsFilesystem(f) then [] else before) + f.rules
      case _ => before
  }

  function DomainHistory(sections: seq<Section>): (r: seq<DomainRule>) {
    if sections == [] then []
    else
      var before := DomainHistory(sections[..|sections| - 1]);
      match sections[|sections| - 1]
      case NetworkSection(n) => (if ClearsNetwork(n) then [] else before) + n.domains
      case _ => before
  }

  function SocketHistory(sections: seq<Section>): (r: seq<SocketRule>) {
    if sections == [] then []
    else
      var before := SocketHistory(sections[..|sections| - 1]);
      match sections[|sections| - 1]
      case NetworkSection(n) => (if ClearsNetwork(n) then [] else before) + n.unixSockets
      case _ => before
  }

  /** Local endpoints are forgotten when the network becomes external. */
  function EndpointHistory(sections: seq<Section>): (r: LocalIpc) {
    if sections == [] then LocalIpc([], [])
    else
      var before := EndpointHistory(sections[..|sections| - 1]);
      match sections[|sections| - 1]
      case NetworkSection(n) => if ClearsNetwork(n) then LocalIpc([], []) else before
      case LocalIpcSection(l) =>
        LocalIpc(before.unixSockets + l.unixSockets, before.namedPipes + l.namedPipes)
      case _ => before
  }

  function RuntimeHistory(sections: seq<Section>): (r: seq<string>) {
    if sections == [] then []
    else
      var before := RuntimeHistory(sections[..|sections| - 1]);
      match sections[|sections| - 1]
      case RuntimeSection(roots) => before + roots
      case _ => before
  }

  /** The protected paths a profile has been given since its filesystem was last cleared. */
  function ProtectedHistory(sections: seq<Section>): (r: seq<string>) {
    if sections == [] then []
    else
      var before := ProtectedHistory(sections[..|sections| - 1]);
      match sections[|sections| - 1]
      case FilesystemSection(f) => (if ClearsFilesystem(f) then [] else before) + f.protectedPaths
      case _ => before
  }

  function RootHistory(sections: seq<Section>): (r: seq<(string, bool)>) {
    if sections == [] then []
    else
      var before := RootHistory(sections[..|sections| - 1]);
      match sections[|sections| - 1]
      case RootsSection(roots) => before + roots
      case _ => before
  }

  function FilterHistory(sections: seq<Section>): (r: seq<(string, bool)>) {
    if sections == [] then []
    else
      var before := FilterHistory(sections[..|sections| - 1]);
      match sections[|sections| - 1]
      case EnvironmentSection(e) => before + e.filters
      case _ => before
  }

  function OrEmpty<T>(x: Option<T>, empty: T): (r: T) {
    if x.Some? then x.value else empty
  }

  ghost predicate FilesystemFaithful(ids: Identities, sections: seq<Section>, m: Merged) {
    && Merges(RuleHistory(sections), OrEmpty(m.filesystem, NO_FILESYSTEM).rules, RuleKeys(ids))
    && Collects(ProtectedHistory(sections), OrEmpty(m.filesystem, NO_FILESYSTEM).protectedPaths, PathKeys(ids))
  }

  ghost predicate NetworkFaithful(ids: Identities, sections: seq<Section>, m: Merged) {
    && Merges(DomainHistory(sections), OrEmpty(m.network, NO_NETWORK).domains, DomainKeys(ids))
    && Merges(SocketHistory(sections), OrEmpty(m.network, NO_NETWORK).unixSockets, SocketKeys(ids))
  }

  ghost predicate EndpointsFaithful(ids: Identities, sections: seq<Section>, m: Merged) {
    var endpoints := OrEmpty(m.localIpc, LocalIpc([], []));
    && Merges(EndpointHistory(sections).unixSockets, endpoints.unixSockets, PathKeys(ids))
    && Merges(EndpointHistory(sections).namedPipes, endpoints.namedPipes, PipeKeys())
  }

  ghost predicate RuntimeFaithful(ids: Identities, sections: seq<Section>, m: Merged) {
    Merges(RuntimeHistory(sections), OrEmpty(m.runtime, []), PathKeys(ids))
  }

  ghost predicate RootsFaithful(ids: Identities, sections: seq<Section>, m: Merged) {
    Spelled(RootHistory(sections), m.workspaceRoots, PathKeys(ids))
  }

  const NO_ENVIRONMENT := MergedEnvironment(None, map[])

  ghost predicate FiltersFaithful(ids: Identities, sections: seq<Section>, m: Merged) {
    Spelled(FilterHistory(sections), OrEmpty(m.environment, NO_ENVIRONMENT).filters, ids.filter)
  }

  /** What the keyed collections of a merged profile hold, each by its own history. */
  ghost predicate Faithful(ids: Identities, sections: seq<Section>, m: Merged) {
    && FilesystemFaithful(ids, sections, m) && NetworkFaithful(ids, sections, m)
    && EndpointsFaithful(ids, sections, m) && RuntimeFaithful(ids, sections, m)
    && RootsFaithful(ids, sections, m) && FiltersFaithful(ids, sections, m)
  }

  lemma EmptyMerges<V, K>(key: V -> K)
    ensures Merges([], [], key)
  {
    assert Keys([], key) == FirstSeen([], key);
  }

  lemma AppendMerges<V, K>(history: seq<V>, merged: seq<V>, clear: bool, vs: seq<V>, key: V -> K)
    requires Merges(history, merged, key)
    ensures Merges((if clear then [] else history) + vs, PutAll(if clear then [] else merged, vs, key), key)
  {
    EmptyMerges(key);
    PutAllMerges(if clear then [] else history, if clear then [] else merged, vs, key);
  }

  /** Every keyed list of a merged profile is its history since the last
      clearing section: keys in first-seen order, each with its last entry;
      protected paths keep their first entry instead, and workspace roots and
      filters the last spelling of each key. */
  lemma {:induction false} FoldFaithful(ids: Identities, sections: seq<Section>)
    ensures Faithful(ids, sections, Fold(ids, EMPTY, sections))
    decreases |sections|
  {
    hide Merges, Collects, Spelled, PutAll, AddAll, SpellAll, Overrides;
    if sections == [] {
      EmptyMerges(RuleKeys(ids));
      EmptyMerges(DomainKeys(ids));
      EmptyMerges(SocketKeys(ids));
      EmptyMerges(PathKeys(ids));
      EmptyMerges(PipeKeys());
      EmptyCollects(PathKeys(ids));
      EmptySpelled<bool, seq<Component>>(PathKeys(ids));
      EmptySpelled<bool, string>(ids.filter);
    } else {
      var front, s := sections[..|sections| - 1], sections[|sections| - 1];
      assert sections == front + [s];
      FoldLast(ids, EMPTY, front, s);
      FoldFaithful(ids, front);
      var m := Fold(ids, EMPTY, front);
      match s
      case FilesystemSection(f) => FilesystemStep(ids, front, m, f);
      case NetworkSection(n) => NetworkStep(ids, front, m, n);
      case LocalIpcSection(l) => EndpointStep(ids, front, m, l);
      case RuntimeSection(roots) =>
        AppendMerges(RuntimeHistory(front), OrEmpty(m.runtime, []), false, roots, PathKeys(ids));
      case RootsSection(roots) => SpellAllSpells(RootHistory(front), m.workspaceRoots, roots, PathKeys(ids));
      case EnvironmentSection(e) =>
        SpellAllSpells(FilterHistory(front), OrEmpty(m.environment, NO_ENVIRONMENT).filters, e.filters, ids.filter);
    }
  }

  lemma EmptyCollects<V, K>(key: V -> K)
    ensures Collects([], [], key)
  {
    assert Keys([], key) == FirstSeen([], key);
  }

  lemma EmptySpelled<V, K(!new)>(key: string -> K)
    ensures Spelled<V, K>([], map[], key)
  {
  }

  lemma FilesystemStep(ids: Identities, front: seq<Section>, m: Merged, f: Filesystem)
    requires FilesystemFaithful(ids, front, m)
    ensures FilesystemFaithful(ids, front + [FilesystemSection(f)], ApplySection(ids, m, FilesystemSection(f)))
  {
    hide Merges, Collects, PutAll, AddAll;
    assert (front + [FilesystemSection(f)])[..|front|] == front;
    var filesystem := OrEmpty(m.filesystem, NO_FILESYSTEM);
    AppendMerges(RuleHistory(front), filesystem.rules, ClearsFilesystem(f), f.rules, RuleKeys(ids));
    EmptyCollects(PathKeys(ids));
    AddAllCollects(if ClearsFilesystem(f) then [] else ProtectedHistory(front),
                   if ClearsFilesystem(f) then [] else filesystem.protectedPaths, f.protectedPaths, PathKeys(ids));
  }

  lemma NetworkStep(ids: Identities, front: seq<Section>, m: Merged, n: Network)
    requires NetworkFaithful(ids, front, m) && EndpointsFaithful(ids, front, m)
    ensures var after := ApplySection(ids, m, NetworkSection(n));
      NetworkFaithful(ids, front + [NetworkSection(n)], after) && EndpointsFaithful(ids, front + [NetworkSection(n)], after)
  {
    hide Merges, PutAll;
    assert (front + [NetworkSection(n)])[..|front|] == front;
    var network := OrEmpty(m.network, NO_NETWORK);
    AppendMerges(DomainHistory(front), network.domains, ClearsNetwork(n), n.domains, DomainKeys(ids));
    AppendMerges(SocketHistory(front), network.unixSockets, ClearsNetwork(n), n.unixSockets, SocketKeys(ids));
    EmptyMerges(PathKeys(ids));
    EmptyMerges(PipeKeys());
  }

  lemma EndpointStep(ids: Identities, front: seq<Section>, m: Merged, l: LocalIpc)
    requires EndpointsFaithful(ids, front, m)
    ensures EndpointsFaithful(ids, front + [LocalIpcSection(l)], ApplySection(ids, m, LocalIpcSection(l)))
  {
    hide Merges, PutAll;
    assert (front + [LocalIpcSection(l)])[..|front|] == front;
    var endpoints, history := OrEmpty(m.localIpc, LocalIpc([], [])), EndpointHistory(front);
    AppendMerges(history.unixSockets, endpoints.unixSockets, false, l.unixSockets, PathKeys(ids));
    AppendMerges(history.namedPipes, endpoints.namedPipes, false, l.namedPipes, PipeKeys());
  }

  // ----- clearing sections forget what came before -----

  lemma {:induction false} FilesystemDependsOnItself(ids: Identities, a: Merged, b: Merged, sections: seq<Section>)
    requires a.filesystem == b.filesystem
    ensures Fold(ids, a, sections).filesystem == Fold(ids, b, sections).filesystem
    decreases |sections|
  {
    if sections != [] {
      FilesystemDependsOnItself(ids, ApplySection(ids, a, sections[0]), ApplySection(ids, b, sections[0]), sections[1..]);
    }
  }

  /** A filesystem section that is not restricted discards every earlier one. */
  lemma FilesystemReset(ids: Identities, earlier: seq<Section>, f: Filesystem, later: seq<Section>)
    requires ClearsFilesystem(f)
    ensures Fold(ids, EMPTY, earlier + ([FilesystemSection(f)] + later)).filesystem
         == Fold(ids, EMPTY, [FilesystemSection(f)] + later).filesystem
  {
    var rest := [FilesystemSection(f)] + later;
    var m := Fold(ids, EMPTY, earlier);
    FoldAppends(ids, EMPTY, earlier, rest);
    assert rest[1..] == later;
    FilesystemDependsOnItself(ids, ApplySection(ids, m, rest[0]), ApplySection(ids, EMPTY, rest[0]), later);
  }

  ghost predicate SameOffGateway(x: Network, y: Network) {
    && x.mode == y.mode && x.domainMode == y.domainMode && x.unixSocketMode == y.unixSocketMode
    && x.localAccess == y.localAccess && x.domains == y.domains && x.unixSockets == y.unixSockets
  }

  /** Two merges agree on the network and local endpoints, gateway settings aside. */
  ghost predicate AgreeOffGateway(a: Merged, b: Merged) {
    && a.localIpc == b.localIpc
    && a.network.Some? == b.network.Some?
    && (a.network.Some? ==> SameOffGateway(a.network.value, b.network.value))
  }

  lemma MergeNetworkAgrees(ids: Identities, x: Option<Network>, y: Option<Network>, n: Network)
    requires ClearsNetwork(n) || (x.Some? == y.Some? && (x.Some? ==> SameOffGateway(x.value, y.value)))
    ensures SameOffGateway(MergeNetwork(ids, x, n), MergeNetwork(ids, y, n))
  {
    hide PutAll;
  }

  lemma AgreementStep(ids: Identities, a: Merged, b: Merged, s: Section)
    requires AgreeOffGateway(a, b) || (s.NetworkSection? && ClearsNetwork(s.network))
    ensures AgreeOffGateway(ApplySection(ids, a, s), ApplySection(ids, b, s))
  {
    hide MergeNetwork, MergeFilesystem, MergeEnvironment, MergeLocalIpc, SameOffGateway, PutAll, SpellAll, Overrides;
    if s.NetworkSection? {
      MergeNetworkAgrees(ids, a.network, b.network, s.network);
    }
  }

  lemma {:induction false} AgreementLasts(ids: Identities, a: Merged, b: Merged, sections: seq<Section>)
    requires AgreeOffGateway(a, b)
    ensures AgreeOffGateway(Fold(ids, a, sections), Fold(ids, b, sections))
    decreases |sections|
  {
    hide ApplySection, AgreeOffGateway;
    if sections != [] {
      AgreementStep(ids, a, b, sections[0]);
      AgreementLasts(ids, ApplySection(ids, a, sections[0]), ApplySection(ids, b, sections[0]), sections[1..]);
    }
  }

  /** An external network section discards every earlier network rule and every
      earlier local endpoint; only gateway settings survive it. */
  lemma NetworkReset(ids: Identities, earlier: seq<Section>, n: Network, later: seq<Section>)
    requires ClearsNetwork(n)
    ensures AgreeOffGateway(Fold(ids, EMPTY, earlier + ([NetworkSection(n)] + later)),
                            Fold(ids, EMPTY, [NetworkSection(n)] + later))
  {
    var rest := [NetworkSection(n)] + later;
    var m := Fold(ids, EMPTY, earlier);
    FoldAppends(ids, EMPTY, earlier, rest);
    assert rest[1..] == later;
    AgreementStep(ids, m, EMPTY, rest[0]);
    AgreementLasts(ids, ApplySection(ids, m, rest[0]), ApplySection(ids, EMPTY, rest[0]), later);
  }

  // ----- environment overrides -----

  function VariableHistory(sections: seq<Section>): (r: seq<Variable>) {
    if sections == [] then []
    else
      var before := VariableHistory(sections[..|sections| - 1]);
      match sections[|sections| - 1]
      case EnvironmentSection(e) => before + Variables(e)
      case _ => before
  }

  function VariableKeys(ids: Identities): (f: Variable -> string) {
    (v: Variable) => ids.variable(v.name)
  }

  /** Each variable identity has the last override given for it. */
  ghost predicate OverridesAre(ids: Identities, history: seq<Variable>, overrides: map<string, Variable>) {
    && (forall k :: k in overrides <==> HasKey(history, k, VariableKeys(ids)))
    && (forall k :: k in overrides ==> overrides[k] == LastWith(history, k, VariableKeys(ids)))
  }

  lemma OverrideStep(ids: Identities, history: seq<Variable>, overrides: map<string, Variable>, v: Variable)
    requires OverridesAre(ids, history, overrides)
    ensures OverridesAre(ids, history + [v], Override(ids, overrides, v))
  {
    var longer, key := history + [v], VariableKeys(ids);
    assert longer[..|history|] == history && longer[|history|] == v;
    forall k ensures HasKey(longer, k, key) <==> k == key(v) || HasKey(history, k, key) {
      if i :| 0 <= i < |history| && key(history[i]) == k {
        assert key(longer[i]) == k;
      }
      if i :| 0 <= i < |longer| && key(longer[i]) == k {
        if i < |history| { assert key(history[i]) == k; }
      }
      assert key(longer[|history|]) == key(v);
    }
  }

  lemma {:induction false} OverridesStep(ids: Identities, history: seq<Variable>, overrides: map<string, Variable>,
                                         vs: seq<Variable>)
    requires OverridesAre(ids, history, overrides)
    ensures OverridesAre(ids, history + vs, Overrides(ids, overrides, vs))
    decreases |vs|
  {
    if vs == [] {
      assert history + vs == history;
    } else {
      OverrideStep(ids, history, overrides, vs[0]);
      OverridesStep(ids, history + [vs[0]], Override(ids, overrides, vs[0]), vs[1..]);
      assert (history + [vs[0]]) + vs[1..] == history + vs;
    }
  }

  lemma {:induction false} FoldOverrides(ids: Identities, sections: seq<Section>)
    ensures OverridesAre(ids, VariableHistory(sections), Fold(ids, EMPTY, sections).overrides)
    decreases |sections|
  {
    if sections != [] {
      var front, s := sections[..|sections| - 1], sections[|sections| - 1];
      assert sections == front + [s];
      FoldLast(ids, EMPTY, front, s);
      FoldOverrides(ids, front);
      if s.EnvironmentSection? {
        OverridesStep(ids, VariableHistory(front), Fold(ids, EMPTY, front).overrides, Variables(s.environment));
      }
    }
  }

  /** The finished environment assigns a name exactly when the last override of
      its identity assigns it under that spelling, and removes it likewise. */
  lemma FinishedEnvironment(ids: Identities, sections: seq<Section>, name: string, assignments: map<string, string>,
                            removals: seq<string>)
    requires SplitsInto(ids, Fold(ids, EMPTY, sections).overrides, assignments, removals)
    ensures var history := VariableHistory(sections);
      var k := ids.variable(name);
      var given := HasKey(history, k, VariableKeys(ids));
      && (forall value :: name in assignments && assignments[name] == value <==>
            given && LastWith(history, k, VariableKeys(ids)) == Variable(name, Some(value)))
      && (name in removals <==> given && LastWith(history, k, VariableKeys(ids)) == Variable(name, None))
    ensures forall other :: ids.variable(other) == ids.variable(name) && other != name ==>
      (name !in assignments && name !in removals) || (other !in assignments && other !in removals)
  {
    hide Ascending;
    FoldOverrides(ids, sections);
  }
}
