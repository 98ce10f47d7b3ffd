/**
 The merger that inheritance runs: it keeps hash indexes beside the merged lists
 and edits both, one section at a time.
 */
module SectionMerger {
  import opened Wrappers
  import opened LexicalPath
  import opened IndexedMerge
  import opened ProfileMerger

  /** The sections a profile or one of its platform overlays may carry. */
  datatype Layer = Layer(
    workspaceRoots: seq<(string, bool)>,
    filesystem: Option<Filesystem>,
    network: Option<Network>,
    localIpc: Option<LocalIpc>,
    environment: Option<Environment>,
    executableRoots: Option<seq<string>>)

  function LayerSections(layer: Layer): (r: seq<Section>) {
    [RootsSection(layer.workspaceRoots)]
    + (if layer.filesystem.Some? then [FilesystemSection(layer.filesystem.value)] else [])
    + (if layer.network.Some? then [NetworkSection(layer.network.value)] else [])
    + (if layer.localIpc.Some? then [LocalIpcSection(layer.localIpc.value)] else [])
    + (if layer.environment.Some? then [EnvironmentSection(layer.environment.value)] else [])
    + (if layer.executableRoots.Some? then [RuntimeSection(layer.executableRoots.value)] else [])
  }

  // ----- the index of each section -----

  datatype FilesystemIndex = FilesystemIndex(rules: map<RuleKey, nat>, protectedPaths: set<seq<Component>>)

  ghost predicate FilesystemIndexed(ids: Identities, filesystem: Option<Filesystem>, index: FilesystemIndex) {
    && Indexes(index.rules, OrEmpty(filesystem, NO_FILESYSTEM).rules, RuleKeys(ids))
    && KeysOf(index.protectedPaths, OrEmpty(filesystem, NO_FILESYSTEM).protectedPaths, PathKeys(ids))
  }

  datatype NetworkIndex = NetworkIndex(domains: map<string, nat>, unixSockets: map<seq<Component>, nat>)

  ghost predicate NetworkIndexed(ids: Identities, network: Option<Network>, index: NetworkIndex) {
    && Indexes(index.domains, OrEmpty(network, NO_NETWORK).domains, DomainKeys(ids))
    && Indexes(index.unixSockets, OrEmpty(network, NO_NETWORK).unixSockets, SocketKeys(ids))
  }

  datatype EndpointIndex = EndpointIndex(unixSockets: map<seq<Component>, nat>, namedPipes: map<string, nat>)

  ghost predicate EndpointsIndexed(ids: Identities, localIpc: Option<LocalIpc>, index: EndpointIndex) {
    && Indexes(index.unixSockets, OrEmpty(localIpc, LocalIpc([], [])).unixSockets, PathKeys(ids))
    && Indexes(index.namedPipes, OrEmpty(localIpc, LocalIpc([], [])).namedPipes, PipeKeys())
  }

  ghost predicate RuntimeIndexed(ids: Identities, runtime: Option<seq<string>>, index: map<seq<Component>, nat>) {
    Indexes(index, OrEmpty(runtime, []), PathKeys(ids))
  }

  ghost predicate RootsIndexed(ids: Identities, roots: map<string, bool>, index: map<seq<Component>, string>) {
    Spells(index, roots, PathKeys(ids))
  }

  ghost predicate FiltersIndexed(ids: Identities, environment: Option<MergedEnvironment>, index: map<string, string>) {
    Spells(index, OrEmpty(environment, MergedEnvironment(None, map[])).filters, ids.filter)
  }

  lemma NoEndpointsIndexed(ids: Identities)
    ensures EndpointsIndexed(ids, None, EndpointIndex(map[], map[]))
  {
  }

  // ----- merging one section through its index -----

  method PutFilesystem(ids: Identities, current: Option<Filesystem>, index: FilesystemIndex, child: Filesystem)
    returns (merged: Filesystem, newIndex: FilesystemIndex)
    requires FilesystemIndexed(ids, current, index)
    ensures merged == MergeFilesystem(ids, current, child)
    ensures FilesystemIndexed(ids, Some(merged), newIndex)
  {
    merged, newIndex := OrEmpty(current, NO_FILESYSTEM), index;
    if child.mode.Some? {
      if child.mode.value != Restricted {
        merged := merged.(rules := [], protectedPaths := [], globScanMaxDepth := None, security := None);
        newIndex := FilesystemIndex(map[], {});
      }
      merged := merged.(mode := child.mode);
    }
    assert FilesystemIndexed(ids, Some(merged), newIndex);
    hide Indexes, KeysOf, PutAll, AddAll;
    if child.globScanMaxDepth.Some? {
      merged := merged.(globScanMaxDepth := child.globScanMaxDepth);
    }
    var paths, known := AddIndexed(merged.protectedPaths, newIndex.protectedPaths, child.protectedPaths, PathKeys(ids));
    if child.security.Some? {
      var gitWrite := OrEmpty(merged.security, None);
      merged := merged.(security := Some(if child.security.value.Some? then child.security.value else gitWrite));
    }
    var rules, places := PutIndexed(merged.rules, newIndex.rules, child.rules, RuleKeys(ids));
    merged := merged.(protectedPaths := paths, rules := rules);
    newIndex := FilesystemIndex(places, known);
  }

  /** Applies a section's mode, forgetting earlier rules when it hands the network over. */
  method BeginNetwork(ids: Identities, current: Option<Network>, index: NetworkIndex, mode: Option<NetworkMode>)
    returns (merged: Network, newIndex: NetworkIndex)
    requires NetworkIndexed(ids, current, index)
    ensures NetworkIndexed(ids, Some(merged), newIndex)
    ensures var before := OrEmpty(current, NO_NETWORK);
      merged == (if mode == Some(ExternalNetwork) then NO_NETWORK.(gateway := before.gateway) else before).(
        mode := if mode.Some? then mode else before.mode)
  {
    merged, newIndex := OrEmpty(current, NO_NETWORK), index;
    if mode.Some? {
      if mode.value == ExternalNetwork {
        merged := merged.(domainMode := None, unixSocketMode := None, localAccess := None, domains := [],
                          unixSockets := []);
        newIndex := NetworkIndex(map[], map[]);
      }
      merged := merged.(mode := mode);
    }
  }

  method PutNetwork(ids: Identities, current: Option<Network>, index: NetworkIndex, child: Network)
    returns (merged: Network, newIndex: NetworkIndex)
    requires NetworkIndexed(ids, current, index)
    ensures merged == MergeNetwork(ids, current, child)
    ensures NetworkIndexed(ids, Some(merged), newIndex)
  {
    hide Indexes, PutAll;
    merged, newIndex := BeginNetwork(ids, current, index, child.mode);
    if child.domainMode.Some? {
      merged := merged.(domainMode := child.domainMode);
    }
    if child.unixSocketMode.Some? {
      merged := merged.(unixSocketMode := child.unixSocketMode);
    }
    if child.localAccess.Some? {
      merged := merged.(localAccess := child.localAccess);
    }
    var domains, domainPlaces := PutIndexed(merged.domains, newIndex.domains, child.domains, DomainKeys(ids));
    var sockets, socketPlaces := PutIndexed(merged.unixSockets, newIndex.unixSockets, child.unixSockets, SocketKeys(ids));
    merged := merged.(gateway := MergeGateway(merged.gateway, child.gateway), domains := domains, unixSockets := sockets);
    newIndex := NetworkIndex(domainPlaces, socketPlaces);
  }

  method PutLocalIpc(ids: Identities, current: Option<LocalIpc>, index: EndpointIndex, child: LocalIpc)
    returns (merged: LocalIpc, newIndex: EndpointIndex)
    requires EndpointsIndexed(ids, current, index)
    ensures merged == MergeLocalIpc(ids, current, child)
    ensures EndpointsIndexed(ids, Some(merged), newIndex)
  {
    hide Indexes, PutAll;
    var before := OrEmpty(current, LocalIpc([], []));
    var sockets, socketPlaces := PutIndexed(before.unixSockets, index.unixSockets, child.unixSockets, PathKeys(ids));
    var pipes, pipePlaces := PutIndexed(before.namedPipes, index.namedPipes, child.namedPipes, PipeKeys());
    merged, newIndex := LocalIpc(sockets, pipes), EndpointIndex(socketPlaces, pipePlaces);
  }

  method PutOverrides(ids: Identities, current: map<string, Variable>, vs: seq<Variable>)
    returns (overrides: map<string, Variable>)
    requires KeyedByName(ids, current)
    ensures overrides == Overrides(ids, current, vs) && KeyedByName(ids, overrides)
  {
    overrides := current;
    assert vs[0..] == vs;
    for n := 0 to |vs|
      invariant KeyedByName(ids, overrides)
      invariant Overrides(ids, current, vs) == Overrides(ids, overrides, vs[n..])
    {
      assert vs[n..][1..] == vs[n + 1..];
      overrides := overrides[ids.variable(vs[n].name) := vs[n]];
    }
  }

  class Merger {
    const ids: Identities
    var filesystem: Option<Filesystem>
    var network: Option<Network>
    var localIpc: Option<LocalIpc>
    var runtime: Option<seq<string>>
    var workspaceRoots: map<string, bool>
    var environment: Option<MergedEnvironment>
    var environmentOverrides: map<string, Variable>

    var filesystemIndex: FilesystemIndex
    var networkIndex: NetworkIndex
    var endpointIndex: EndpointIndex
    var runtimeIndex: map<seq<Component>, nat>
    var rootIndex: map<seq<Component>, string>
    var filterIndex: map<string, string>

    /** The merged profile so far. */
    function Contents(): (m: Merged)
      reads this
    {
      Merged(filesystem, network, localIpc, runtime, workspaceRoots, environment, environmentOverrides)
    }

    /** Every index is a bijection between the keys and the places of its list. */
    ghost predicate Valid()
      reads this
    {
      && FilesystemIndexed(ids, filesystem, filesystemIndex)
      && NetworkIndexed(ids, network, networkIndex)
      && EndpointsIndexed(ids, localIpc, endpointIndex)
      && RuntimeIndexed(ids, runtime, runtimeIndex)
      && RootsIndexed(ids, workspaceRoots, rootIndex)
      && FiltersIndexed(ids, environment, filterIndex)
      && KeyedByName(ids, environmentOverrides)
    }

    constructor (ids: Identities)
      ensures Valid() && Contents() == EMPTY && this.ids == ids
    {
      this.ids := ids;
      filesystem, network, localIpc, runtime, environment := None, None, None, None, None;
      workspaceRoots, environmentOverrides := map[], map[];
      filesystemIndex, networkIndex := FilesystemIndex(map[], {}), NetworkIndex(map[], map[]);
      endpointIndex, runtimeIndex, rootIndex, filterIndex := EndpointIndex(map[], map[]), map[], map[], map[];
    }

    /** Merges one section into the profile and its index. */
    method Merge(s: Section)
      requires Valid()
      modifies this
      ensures Valid() && Contents() == ApplySection(ids, old(Contents()), s)
    {
      hide MergeFilesystem, MergeNetwork, MergeLocalIpc, KeyedByName, Overrides, Variables, Indexes, Spells, KeysOf,
        FilesystemIndexed, NetworkIndexed, PutAll, SpellAll;
      match s
      case FilesystemSection(child) =>
        var merged;
        merged, filesystemIndex := PutFilesystem(ids, filesystem, filesystemIndex, child);
        filesystem := Some(merged);
      case NetworkSection(child) =>
        MergeNetworkSection(child);
      case LocalIpcSection(child) =>
        var merged;
        merged, endpointIndex := PutLocalIpc(ids, localIpc, endpointIndex, child);
        localIpc := Some(merged);
      case RuntimeSection(roots) =>
        var merged;
        merged, runtimeIndex := PutIndexed(OrEmpty(runtime, []), runtimeIndex, roots, PathKeys(ids));
        runtime := Some(merged);
      case RootsSection(values) =>
        workspaceRoots, rootIndex := SpellIndexed(workspaceRoots, rootIndex, values, PathKeys(ids));
      case EnvironmentSection(child) =>
        MergeEnvironmentSection(child);
    }

    /** An external network drops the local endpoints together with their index. */
    method MergeNetworkSection(child: Network)
      requires Valid()
      modifies this`network, this`networkIndex, this`localIpc, this`endpointIndex
      ensures Valid() && Contents() == ApplySection(ids, old(Contents()), NetworkSection(child))
    {
      hide MergeNetwork, FilesystemIndexed, NetworkIndexed, EndpointsIndexed, RuntimeIndexed, RootsIndexed, FiltersIndexed,
        KeyedByName;
      NoEndpointsIndexed(ids);
      var merged;
      merged, networkIndex := PutNetwork(ids, network, networkIndex, child);
      if child.mode == Some(ExternalNetwork) {
        localIpc, endpointIndex := None, EndpointIndex(map[], map[]);
      }
      network := Some(merged);
    }

    method MergeEnvironmentSection(child: Environment)
      requires Valid()
      modifies this`environment, this`filterIndex, this`environmentOverrides
      ensures Valid() && Contents() == ApplySection(ids, old(Contents()), EnvironmentSection(child))
    {
      hide FilesystemIndexed, NetworkIndexed, EndpointsIndexed, RuntimeIndexed, RootsIndexed, KeyedByName, Overrides,
        Variables, Spells, SpellAll;
      var before := OrEmpty(environment, MergedEnvironment(None, map[]));
      var filters;
      filters, filterIndex := SpellIndexed(before.filters, filterIndex, child.filters, ids.filter);
      environment := Some(MergedEnvironment(if child.inherit.Some? then child.inherit else before.inherit, filters));
      environmentOverrides := PutOverrides(ids, environmentOverrides, Variables(child));
    }

    /** Applies the sections of one layer in their fixed order. */
    method ApplyLayer(layer: Layer)
      requires Valid()
      modifies this
      ensures Valid() && Contents() == Fold(ids, old(Contents()), LayerSections(layer))
    {
      hide Valid, Contents, ApplySection;
      var sections := LayerSections(layer);
      ghost var start := Contents();
      for n := 0 to |sections|
        invariant Valid() && Contents() == Fold(ids, start, sections[..n])
      {
        FoldLast(ids, start, sections[..n], sections[n]);
        assert sections[..n + 1] == sections[..n] + [sections[n]];
        Merge(sections[n]);
      }
      assert sections[..|sections|] == sections;
    }

    /** Applies a profile and then its overlay for the selected platform. */
    method Apply(profile: Layer, overlay: Option<Layer>)
      requires Valid()
      modifies this
      ensures Valid()
      ensures Contents() == Fold(ids, old(Contents()),
                                 LayerSections(profile) + if overlay.Some? then LayerSections(overlay.value) else [])
    {
      hide Valid, Contents, ApplySection, LayerSections;
      ghost var more := if overlay.Some? then LayerSections(overlay.value) else [];
      FoldAppends(ids, Contents(), LayerSections(profile), more);
      ApplyLayer(profile);
      if overlay.Some? {
        ApplyLayer(overlay.value);
      }
    }

    /** Splits the collected overrides into assignments and removals. */
    method Finish() returns (assignments: map<string, string>, removals: seq<string>)
      requires Valid()
      ensures SplitsInto(ids, environmentOverrides, assignments, removals)
    {
      assignments, removals := SplitOverrides(ids, environmentOverrides);
    }
  }

  /** Visits the overrides in the order of their identities. */
  method SplitOverrides(ids: Identities, overrides: map<string, Variable>)
    returns (assignments: map<string, string>, removals: seq<string>)
    requires KeyedByName(ids, overrides)
    ensures SplitsInto(ids, overrides, assignments, removals)
  {
    hide Precedes;
    assignments, removals := map[], [];
    var rest := overrides.Keys;
    while rest != {}
      invariant rest <= overrides.Keys
      invariant forall name :: name in assignments <==> Assigned(ids, overrides, name) && ids.variable(name) !in rest
      invariant forall name :: name in assignments ==> assignments[name] == overrides[ids.variable(name)].value.value
      invariant forall name :: name in removals <==> Removed(ids, overrides, name) && ids.variable(name) !in rest
      invariant forall k, o :: k in overrides && k !in rest && o in rest ==> Precedes(k, o)
      invariant Ascending(ids, removals)
      decreases rest
    {
      ghost var least := LeastExists(rest);
      var k :| k in rest && forall o :: o in rest ==> o == k || Precedes(k, o);
      var v := overrides[k];
      rest := rest - {k};
      if v.value.Some? {
        assignments := assignments[v.name := v.value.value];
      } else {
        removals := removals + [v.name];
      }
    }
  }
}
