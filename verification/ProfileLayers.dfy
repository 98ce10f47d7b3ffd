/** What one profile contributes: its own sections and those of its overlay. */
module ProfileLayers {
  import opened Wrappers
  import opened IndexedMerge
  import opened ProfileMerger
  import opened SectionMerger
  import opened ProfileResolution

  /** Every section of a layer merged into its own place. A network left to others drops the local endpoints that were
      there before, and not those of the layer itself. */
  function WithLayer(ids: Identities, m: Merged, layer: Layer): (r: Merged) {
    var endpoints :=
      if layer.network.Some? && layer.network.value.mode == Some(ExternalNetwork) then None else m.localIpc;
    Merged(
      if layer.filesystem.Some? then Some(MergeFilesystem(ids, m.filesystem, layer.filesystem.value)) else m.filesystem,
      if layer.network.Some? then Some(MergeNetwork(ids, m.network, layer.network.value)) else m.network,
      if layer.localIpc.Some? then Some(MergeLocalIpc(ids, endpoints, layer.localIpc.value)) else endpoints,
      if layer.executableRoots.Some?
      then Some(PutAll(OrEmpty(m.runtime, []), layer.executableRoots.value, PathKeys(ids))) else m.runtime,
      SpellAll(m.workspaceRoots, layer.workspaceRoots, PathKeys(ids)),
      if layer.environment.Some?
      then Some(MergeEnvironment(ids, m.environment, layer.environment.value)) else m.environment,
      if layer.environment.Some?
      then Overrides(ids, m.overrides, Variables(layer.environment.value)) else m.overrides)
  }

  function Maybe(given: bool, s: Section): (r: seq<Section>) { if given then [s] else [] }

  function Applied(ids: Identities, m: Merged, given: bool, s: Section): (r: Merged) {
    if given then ApplySection(ids, m, s) else m
  }

  lemma FoldMaybe(ids: Identities, m: Merged, given: bool, s: Section, rest: seq<Section>)
    ensures Fold(ids, m, Maybe(given, s) + rest) == Fold(ids, Applied(ids, m, given, s), rest)
  {
    if given {
      assert ([s] + rest)[1..] == rest;
    } else {
      assert [] + rest == rest;
    }
  }

  /** The sections a layer may have, in the order they are applied. */
  function Slots(layer: Layer): (r: seq<(bool, Section)>) {
    [(true, RootsSection(layer.workspaceRoots)),
     (layer.filesystem.Some?, FilesystemSection(OrEmpty(layer.filesystem, NO_FILESYSTEM))),
     (layer.network.Some?, NetworkSection(OrEmpty(layer.network, NO_NETWORK))),
     (layer.localIpc.Some?, LocalIpcSection(OrEmpty(layer.localIpc, LocalIpc([], [])))),
     (layer.environment.Some?, EnvironmentSection(OrEmpty(layer.environment, Environment(None, [], [], [])))),
     (layer.executableRoots.Some?, RuntimeSection(OrEmpty(layer.executableRoots, [])))]
  }

  function Filled(slots: seq<(bool, Section)>): (r: seq<Section>) {
    if slots == [] then [] else Maybe(slots[0].0, slots[0].1) + Filled(slots[1..])
  }

  function AppliedAll(ids: Identities, m: Merged, slots: seq<(bool, Section)>): (r: Merged)
    decreases |slots|
  {
    if slots == [] then m else AppliedAll(ids, Applied(ids, m, slots[0].0, slots[0].1), slots[1..])
  }

  lemma {:induction false} FoldFilled(ids: Identities, m: Merged, slots: seq<(bool, Section)>)
    ensures Fold(ids, m, Filled(slots)) == AppliedAll(ids, m, slots)
    decreases |slots|
  {
    hide Fold, Applied;
    if slots == [] {
      FoldNothing(ids, m);
    } else {
      FoldMaybe(ids, m, slots[0].0, slots[0].1, Filled(slots[1..]));
      FoldFilled(ids, Applied(ids, m, slots[0].0, slots[0].1), slots[1..]);
    }
  }

  lemma FillsOne(s: seq<(bool, Section)>, k: nat)
    requires k < |s|
    ensures Filled(s[k..]) == Maybe(s[k].0, s[k].1) + Filled(s[k + 1..])
  {
    assert s[k..][0] == s[k] && s[k..][1..] == s[k + 1..];
  }

  lemma Regroup(a: seq<Section>, b: seq<Section>, c: seq<Section>, d: seq<Section>, e: seq<Section>, f: seq<Section>)
    ensures a + b + c + d + e + f == a + (b + (c + (d + (e + (f + [])))))
  {
  }

  lemma SixFill(s: seq<(bool, Section)>)
    requires |s| == 6
    ensures Filled(s) == Maybe(s[0].0, s[0].1) + Maybe(s[1].0, s[1].1) + Maybe(s[2].0, s[2].1)
                       + Maybe(s[3].0, s[3].1) + Maybe(s[4].0, s[4].1) + Maybe(s[5].0, s[5].1)
  {
    hide Filled, Maybe;
    Regroup(Maybe(s[0].0, s[0].1), Maybe(s[1].0, s[1].1), Maybe(s[2].0, s[2].1),
            Maybe(s[3].0, s[3].1), Maybe(s[4].0, s[4].1), Maybe(s[5].0, s[5].1));
    FillsOne(s, 0);
    FillsOne(s, 1);
    FillsOne(s, 2);
    FillsOne(s, 3);
    FillsOne(s, 4);
    FillsOne(s, 5);
    FilledNothing();
    assert s[0..] == s && s[6..] == [];
  }

  lemma SectionsFill(layer: Layer)
    ensures LayerSections(layer) == Filled(Slots(layer))
  {
    hide Filled;
    SixFill(Slots(layer));
  }

  lemma FilledNothing()
    ensures Filled([]) == []
  {
  }

  lemma SlotsApply(ids: Identities, m: Merged, layer: Layer)
    ensures AppliedAll(ids, m, Slots(layer)) == WithLayer(ids, m, layer)
  {
    hide MergeFilesystem, MergeNetwork, MergeLocalIpc, MergeEnvironment, PutAll, SpellAll, Overrides, Variables;
    var s := Slots(layer);
    var m1 := Applied(ids, m, s[0].0, s[0].1);
    var m2 := Applied(ids, m1, s[1].0, s[1].1);
    var m3 := Applied(ids, m2, s[2].0, s[2].1);
    var m4 := Applied(ids, m3, s[3].0, s[3].1);
    var m5 := Applied(ids, m4, s[4].0, s[4].1);
    var m6 := Applied(ids, m5, s[5].0, s[5].1);
    assert m6 == WithLayer(ids, m, layer);
    hide Applied, WithLayer;
    assert s[1..][1..] == s[2..] && s[2..][1..] == s[3..] && s[3..][1..] == s[4..] && s[4..][1..] == s[5..] && s[5..][1..] == [];
    assert AppliedAll(ids, m5, s[5..]) == m6;
    assert AppliedAll(ids, m3, s[3..]) == AppliedAll(ids, m4, s[4..]) == AppliedAll(ids, m5, s[5..]);
    assert AppliedAll(ids, m, s) == AppliedAll(ids, m1, s[1..]) == AppliedAll(ids, m2, s[2..]) == AppliedAll(ids, m3, s[3..]);
  }

  /** Applying the sections of a layer one after the other does just that. */
  lemma LayerApplies(ids: Identities, m: Merged, layer: Layer)
    ensures Fold(ids, m, LayerSections(layer)) == WithLayer(ids, m, layer)
  {
    hide Fold, LayerSections, Slots, Filled, AppliedAll, WithLayer;
    SectionsFill(layer);
    FoldFilled(ids, m, Slots(layer));
    SlotsApply(ids, m, layer);
  }

  lemma FoldNothing(ids: Identities, m: Merged)
    ensures Fold(ids, m, []) == m
  {
  }

  /** A profile merges its own layer first, so what its overlay says comes last. */
  lemma ProfileApplies(ids: Identities, m: Merged, profile: Profile)
    ensures Fold(ids, m, OwnSections(profile))
         == if profile.overlay.Some? then WithLayer(ids, WithLayer(ids, m, profile.layer), profile.overlay.value)
            else WithLayer(ids, m, profile.layer)
  {
    hide Fold, WithLayer, LayerSections;
    LayerApplies(ids, m, profile.layer);
    var more := if profile.overlay.Some? then LayerSections(profile.overlay.value) else [];
    FoldAppends(ids, m, LayerSections(profile.layer), more);
    if profile.overlay.Some? {
      LayerApplies(ids, WithLayer(ids, m, profile.layer), profile.overlay.value);
    } else {
      FoldNothing(ids, WithLayer(ids, m, profile.layer));
    }
  }
}
