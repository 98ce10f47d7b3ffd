/**
 The single settings of a merged profile: each is the one the last section gave,
 unless a later section cleared it.
 */
module ProfileSettings {
  import opened Wrappers
  import opened IndexedMerge
  import opened ProfileMerger

  // ----- the last section that says something -----

  /** Section `k` says this, and no later section says anything else or clears it. */
  ghost predicate SaysLast<T>(sections: seq<Section>, says: Section -> Option<T>, clears: Section -> bool, k: nat, v: T) {
    && k < |sections| && says(sections[k]) == Some(v)
    && forall i :: k < i < |sections| ==> says(sections[i]).None? && !clears(sections[i])
  }

  predicate ClearedAfter(sections: seq<Section>, clears: Section -> bool, k: nat) {
    exists i :: k < i < |sections| && clears(sections[i])
  }

  /** What the sections leave of a setting: what the last of them said, or nothing if none did or it was cleared since. */
  ghost predicate Leave<T>(sections: seq<Section>, says: Section -> Option<T>, clears: Section -> bool, r: Option<T>) {
    match r
    case Some(v) => exists k: nat :: SaysLast(sections, says, clears, k, v)
    case None =>
      forall k :: 0 <= k < |sections| && says(sections[k]).Some? ==> ClearedAfter(sections, clears, k)
  }

  function Next<T>(says: Section -> Option<T>, clears: Section -> bool, r: Option<T>, s: Section): (n: Option<T>) {
    if says(s).Some? then says(s) else if clears(s) then None else r
  }

  lemma LeaveNext<T>(front: seq<Section>, s: Section, says: Section -> Option<T>, clears: Section -> bool, r: Option<T>)
    requires Leave(front, says, clears, r)
    ensures Leave(front + [s], says, clears, Next(says, clears, r, s))
  {
    var all := front + [s];
    assert all[|front|] == s && forall i :: 0 <= i < |front| ==> all[i] == front[i];
    if says(s).Some? {
      assert SaysLast(all, says, clears, |front|, says(s).value);
    } else if clears(s) {
      forall k | 0 <= k < |all| && says(all[k]).Some? ensures ClearedAfter(all, clears, k) {
        assert clears(all[|front|]);
      }
    } else if r.Some? {
      var k: nat :| SaysLast(front, says, clears, k, r.value);
      assert SaysLast(all, says, clears, k, r.value);
    } else {
      forall k | 0 <= k < |all| && says(all[k]).Some? ensures ClearedAfter(all, clears, k) {
        assert ClearedAfter(front, clears, k);
        var i :| k < i < |front| && clears(front[i]);
        assert clears(all[i]);
      }
    }
  }

  /** A setting of the merged profile that every section moves on like this. */
  ghost predicate Tracks<T>(ids: Identities, says: Section -> Option<T>, clears: Section -> bool, read: Merged -> Option<T>) {
    && read(EMPTY).None?
    && forall m, s {:trigger read(ApplySection(ids, m, s))} ::
         read(ApplySection(ids, m, s)) == Next(says, clears, read(m), s)
  }

  lemma {:induction false} FoldLeaves<T>(ids: Identities, sections: seq<Section>, says: Section -> Option<T>,
                                         clears: Section -> bool, read: Merged -> Option<T>)
    requires Tracks(ids, says, clears, read)
    ensures Leave(sections, says, clears, read(Fold(ids, EMPTY, sections)))
    decreases |sections|
  {
    hide ApplySection, Leave;
    if sections == [] {
      LeaveNothing(says, clears);
    } else {
      var front, s := sections[..|sections| - 1], sections[|sections| - 1];
      assert sections == front + [s];
      FoldLast(ids, EMPTY, front, s);
      FoldLeaves(ids, front, says, clears, read);
      var m := Fold(ids, EMPTY, front);
      assert read(ApplySection(ids, m, s)) == Next(says, clears, read(m), s);
      LeaveNext(front, s, says, clears, read(m));
    }
  }

  lemma LeaveNothing<T>(says: Section -> Option<T>, clears: Section -> bool)
    ensures Leave([], says, clears, None)
  {
  }

  // ----- who clears -----

  function Never(): (f: Section -> bool) { (s: Section) => false }

  /** A filesystem section of any mode but the restricted one. */
  function OpensFilesystem(): (f: Section -> bool) {
    (s: Section) => s.FilesystemSection? && s.filesystem.mode in {Some(Unrestricted), Some(ExternalFilesystem)}
  }

  function LeavesNetwork(): (f: Section -> bool) {
    (s: Section) => s.NetworkSection? && s.network.mode == Some(ExternalNetwork)
  }

  // ----- what each section says -----

  function FilesystemSays<T>(f: Filesystem -> Option<T>): (r: Section -> Option<T>) {
    (s: Section) => if s.FilesystemSection? then f(s.filesystem) else None
  }

  function NetworkSays<T>(f: Network -> Option<T>): (r: Section -> Option<T>) {
    (s: Section) => if s.NetworkSection? then f(s.network) else None
  }

  function EnvironmentSays<T>(f: Environment -> Option<T>): (r: Section -> Option<T>) {
    (s: Section) => if s.EnvironmentSection? then f(s.environment) else None
  }

  /** The setting of a merged filesystem, and so for the others. */
  function OfFilesystem<T>(f: Filesystem -> Option<T>): (r: Merged -> Option<T>) {
    (m: Merged) => if m.filesystem.Some? then f(m.filesystem.value) else None
  }

  function OfNetwork<T>(f: Network -> Option<T>): (r: Merged -> Option<T>) {
    (m: Merged) => if m.network.Some? then f(m.network.value) else None
  }

  function OfEnvironment<T>(f: MergedEnvironment -> Option<T>): (r: Merged -> Option<T>) {
    (m: Merged) => if m.environment.Some? then f(m.environment.value) else None
  }

  // ----- the filesystem -----

  function Mode(): (f: Filesystem -> Option<FilesystemMode>) { (f: Filesystem) => f.mode }

  function ScanDepth(): (f: Filesystem -> Option<nat>) { (f: Filesystem) => f.globScanMaxDepth }

  function Security(): (f: Filesystem -> Option<bool>) {
    (f: Filesystem) => if f.security.Some? then f.security.value else None
  }

  function HasSecurity(): (f: Filesystem -> Option<bool>) {
    (f: Filesystem) => if f.security.Some? then Some(true) else None
  }

  function HasFilesystem(): (f: Filesystem -> Option<bool>) { (f: Filesystem) => Some(true) }

  lemma FilesystemTracks(ids: Identities)
    ensures Tracks(ids, FilesystemSays(Mode()), Never(), OfFilesystem(Mode()))
    ensures Tracks(ids, FilesystemSays(ScanDepth()), OpensFilesystem(), OfFilesystem(ScanDepth()))
    ensures Tracks(ids, FilesystemSays(Security()), OpensFilesystem(), OfFilesystem(Security()))
    ensures Tracks(ids, FilesystemSays(HasSecurity()), OpensFilesystem(), OfFilesystem(HasSecurity()))
    ensures Tracks(ids, FilesystemSays(HasFilesystem()), Never(), OfFilesystem(HasFilesystem()))
  {
    hide PutAll, AddAll, SpellAll, Overrides, MergeNetwork, MergeLocalIpc, MergeEnvironment;
  }

  /** After any sections, the filesystem mode is the last one given; scan depth and security settings are the last ones
      given since a section opened the filesystem; and there is a filesystem exactly when some section is one. */
  lemma FilesystemSettings(ids: Identities, sections: seq<Section>)
    ensures var m := Fold(ids, EMPTY, sections);
      && Leave(sections, FilesystemSays(Mode()), Never(), OfFilesystem(Mode())(m))
      && Leave(sections, FilesystemSays(ScanDepth()), OpensFilesystem(), OfFilesystem(ScanDepth())(m))
      && Leave(sections, FilesystemSays(Security()), OpensFilesystem(), OfFilesystem(Security())(m))
      && Leave(sections, FilesystemSays(HasSecurity()), OpensFilesystem(), OfFilesystem(HasSecurity())(m))
      && Leave(sections, FilesystemSays(HasFilesystem()), Never(), OfFilesystem(HasFilesystem())(m))
  {
    hide Tracks, Leave, Fold;
    FilesystemTracks(ids);
    FoldLeaves(ids, sections, FilesystemSays(Mode()), Never(), OfFilesystem(Mode()));
    FoldLeaves(ids, sections, FilesystemSays(ScanDepth()), OpensFilesystem(), OfFilesystem(ScanDepth()));
    FoldLeaves(ids, sections, FilesystemSays(Security()), OpensFilesystem(), OfFilesystem(Security()));
    FoldLeaves(ids, sections, FilesystemSays(HasSecurity()), OpensFilesystem(), OfFilesystem(HasSecurity()));
    FoldLeaves(ids, sections, FilesystemSays(HasFilesystem()), Never(), OfFilesystem(HasFilesystem()));
  }

  // ----- the network -----

  function TrafficMode(): (f: Network -> Option<NetworkMode>) { (n: Network) => n.mode }

  function DomainMode(): (f: Network -> Option<string>) { (n: Network) => n.domainMode }

  function SocketMode(): (f: Network -> Option<string>) { (n: Network) => n.unixSocketMode }

  function LocalAccess(): (f: Network -> Option<bool>) { (n: Network) => n.localAccess }

  function HasGateway(): (f: Network -> Option<bool>) { (n: Network) => if n.gateway.Some? then Some(true) else None }

  function GatewaySetting(name: string): (f: Network -> Option<nat>) {
    (n: Network) => if n.gateway.Some? && name in n.gateway.value then Some(n.gateway.value[name]) else None
  }

  lemma NetworkTracks(ids: Identities, name: string)
    ensures Tracks(ids, NetworkSays(TrafficMode()), Never(), OfNetwork(TrafficMode()))
    ensures Tracks(ids, NetworkSays(DomainMode()), LeavesNetwork(), OfNetwork(DomainMode()))
    ensures Tracks(ids, NetworkSays(SocketMode()), LeavesNetwork(), OfNetwork(SocketMode()))
    ensures Tracks(ids, NetworkSays(LocalAccess()), LeavesNetwork(), OfNetwork(LocalAccess()))
    ensures Tracks(ids, NetworkSays(HasGateway()), Never(), OfNetwork(HasGateway()))
    ensures Tracks(ids, NetworkSays(GatewaySetting(name)), Never(), OfNetwork(GatewaySetting(name)))
  {
    hide PutAll, AddAll, SpellAll, Overrides, MergeFilesystem, MergeLocalIpc, MergeEnvironment;
  }

  /** After any sections, the network mode is the last one given; domain mode, socket mode and local access are the last
      ones given since the network was left to others; and gateway settings are the last ones given, which nothing clears. */
  lemma NetworkSettings(ids: Identities, sections: seq<Section>, name: string)
    ensures var m := Fold(ids, EMPTY, sections);
      && Leave(sections, NetworkSays(TrafficMode()), Never(), OfNetwork(TrafficMode())(m))
      && Leave(sections, NetworkSays(DomainMode()), LeavesNetwork(), OfNetwork(DomainMode())(m))
      && Leave(sections, NetworkSays(SocketMode()), LeavesNetwork(), OfNetwork(SocketMode())(m))
      && Leave(sections, NetworkSays(LocalAccess()), LeavesNetwork(), OfNetwork(LocalAccess())(m))
      && Leave(sections, NetworkSays(HasGateway()), Never(), OfNetwork(HasGateway())(m))
      && Leave(sections, NetworkSays(GatewaySetting(name)), Never(), OfNetwork(GatewaySetting(name))(m))
  {
    hide Tracks, Leave, Fold;
    NetworkTracks(ids, name);
    FoldLeaves(ids, sections, NetworkSays(TrafficMode()), Never(), OfNetwork(TrafficMode()));
    FoldLeaves(ids, sections, NetworkSays(DomainMode()), LeavesNetwork(), OfNetwork(DomainMode()));
    FoldLeaves(ids, sections, NetworkSays(SocketMode()), LeavesNetwork(), OfNetwork(SocketMode()));
    FoldLeaves(ids, sections, NetworkSays(LocalAccess()), LeavesNetwork(), OfNetwork(LocalAccess()));
    FoldLeaves(ids, sections, NetworkSays(HasGateway()), Never(), OfNetwork(HasGateway()));
    FoldLeaves(ids, sections, NetworkSays(GatewaySetting(name)), Never(), OfNetwork(GatewaySetting(name)));
  }

  // ----- the other sections -----

  function HasNetwork(): (f: Network -> Option<bool>) { (n: Network) => Some(true) }

  function InheritSays(): (f: Section -> Option<string>) {
    (s: Section) => if s.EnvironmentSection? then s.environment.inherit else None
  }

  function InheritOf(): (f: Merged -> Option<string>) {
    (m: Merged) => if m.environment.Some? then m.environment.value.inherit else None
  }

  /** Whether a merged profile has a section, and which sections are of that kind. */
  function Given(kind: Section -> bool): (f: Section -> Option<bool>) {
    (s: Section) => if kind(s) then Some(true) else None
  }

  function HasEndpoints(): (f: Merged -> Option<bool>) { (m: Merged) => if m.localIpc.Some? then Some(true) else None }

  function HasRuntime(): (f: Merged -> Option<bool>) { (m: Merged) => if m.runtime.Some? then Some(true) else None }

  function HasEnvironment(): (f: Merged -> Option<bool>) { (m: Merged) => if m.environment.Some? then Some(true) else None }

  function IsEndpoints(): (f: Section -> bool) { (s: Section) => s.LocalIpcSection? }

  function IsRuntime(): (f: Section -> bool) { (s: Section) => s.RuntimeSection? }

  function IsEnvironment(): (f: Section -> bool) { (s: Section) => s.EnvironmentSection? }

  lemma OthersTrack(ids: Identities)
    ensures Tracks(ids, NetworkSays(HasNetwork()), Never(), OfNetwork(HasNetwork()))
    ensures Tracks(ids, Given(IsEndpoints()), LeavesNetwork(), HasEndpoints())
    ensures Tracks(ids, Given(IsRuntime()), Never(), HasRuntime())
    ensures Tracks(ids, Given(IsEnvironment()), Never(), HasEnvironment())
    ensures Tracks(ids, InheritSays(), Never(), InheritOf())
  {
    hide PutAll, AddAll, SpellAll, Overrides, MergeFilesystem, MergeNetwork, MergeLocalIpc;
  }

  /** Local endpoints are there when some section gave them since the network was left to others, the other sections when
      some section gave them; and what an environment inherits is the last thing said. */
  lemma OtherSettings(ids: Identities, sections: seq<Section>)
    ensures var m := Fold(ids, EMPTY, sections);
      && Leave(sections, NetworkSays(HasNetwork()), Never(), OfNetwork(HasNetwork())(m))
      && Leave(sections, Given(IsEndpoints()), LeavesNetwork(), HasEndpoints()(m))
      && Leave(sections, Given(IsRuntime()), Never(), HasRuntime()(m))
      && Leave(sections, Given(IsEnvironment()), Never(), HasEnvironment()(m))
      && Leave(sections, InheritSays(), Never(), InheritOf()(m))
  {
    hide Tracks, Leave, Fold;
    OthersTrack(ids);
    FoldLeaves(ids, sections, NetworkSays(HasNetwork()), Never(), OfNetwork(HasNetwork()));
    FoldLeaves(ids, sections, Given(IsEndpoints()), LeavesNetwork(), HasEndpoints());
    FoldLeaves(ids, sections, Given(IsRuntime()), Never(), HasRuntime());
    FoldLeaves(ids, sections, Given(IsEnvironment()), Never(), HasEnvironment());
    FoldLeaves(ids, sections, InheritSays(), Never(), InheritOf());
  }

  /** The sections that clear lists are the ones that clear settings. */
  lemma ClearingSections(s: Section)
    ensures s.FilesystemSection? ==> (ClearsFilesystem(s.filesystem) <==> OpensFilesystem()(s))
    ensures s.NetworkSection? ==> (ClearsNetwork(s.network) <==> LeavesNetwork()(s))
  {
  }

  /** A section that both assigns and removes a variable removes it. */
  lemma RemovalWins(ids: Identities, earlier: seq<Section>, e: Environment, i: nat)
    requires i < |e.removals| && forall j :: i < j < |e.removals| ==> ids.variable(e.removals[j]) != ids.variable(e.removals[i])
    ensures var k := ids.variable(e.removals[i]);
      var overrides := Fold(ids, EMPTY, earlier + [EnvironmentSection(e)]).overrides;
      k in overrides && overrides[k] == Variable(e.removals[i], None)
  {
    var sections := earlier + [EnvironmentSection(e)];
    FoldOverrides(ids, sections);
    assert sections[..|earlier|] == earlier;
    var history, given, key := VariableHistory(sections), Variables(e), VariableKeys(ids);
    var n := |VariableHistory(earlier)| + |e.assignments| + i;
    assert history == VariableHistory(earlier) + given;
    assert history[n] == Variable(e.removals[i], None);
    assert forall m :: n < m < |history| ==> key(history[m]) != key(history[n]);
    LastAt(history, n, key);
  }

  lemma {:induction false} LastAt<V, K>(history: seq<V>, n: nat, key: V -> K)
    requires n < |history| && forall m :: n < m < |history| ==> key(history[m]) != key(history[n])
    ensures HasKey(history, key(history[n]), key) && LastWith(history, key(history[n]), key) == history[n]
    decreases |history|
  {
    if n < |history| - 1 {
      LastAt(history[..|history| - 1], n, key);
    }
  }

  /** Two filesystem rules are the same rule exactly when they have the same kind of target and name the same place: by
      the selector's identity where both are valid, else by the path as it is spelled, and never across the two. */
  lemma SameRule(ids: Identities, a: FilesystemRule, b: FilesystemRule)
    ensures RuleKeys(ids)(a) == RuleKeys(ids)(b) <==> a.target == b.target && SamePlace(ids, a, b)
  {
  }

  predicate SamePlace(ids: Identities, a: FilesystemRule, b: FilesystemRule) {
    if a.target in {Absolute, Workspace} then
      if a.path.None? || b.path.None? then a.path == b.path
      else
        var x, y := ids.selector(a.target, a.path.value), ids.selector(a.target, b.path.value);
        if x.Some? || y.Some? then x == y else PathKey(ids, a.path.value) == PathKey(ids, b.path.value)
    else if a.target in {AbsoluteGlob, WorkspaceGlob} then
      if a.pattern.None? || b.pattern.None? then a.pattern == b.pattern
      else
        && ids.validGlob(a.target, a.pattern.value) == ids.validGlob(a.target, b.pattern.value)
        && PathKey(ids, a.pattern.value) == PathKey(ids, b.pattern.value)
    else true
  }
}
