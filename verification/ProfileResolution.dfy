/**
 Resolution of one profile end to end: order the profiles it inherits, then
 merge them one after the other.
 */
module ProfileResolution {
  import opened Wrappers
  import opened IndexedMerge
  import opened ProfileMerger
  import opened SectionMerger
  import opened ProfileGraph
  import opened ProfileOrder
  import opened ProfileResolver

  /** One profile as declared, with its overlay for the selected platform. */
  datatype Profile = Profile(inherits: seq<string>, layer: Layer, overlay: Option<Layer>)

  type Profiles = map<string, Profile>

  function Graph(profiles: Profiles): (config: Config) {
    map name | name in profiles :: profiles[name].inherits
  }

  /** The sections of one profile: its own, then its overlay's. */
  function OwnSections(profile: Profile): (r: seq<Section>) {
    LayerSections(profile.layer) + if profile.overlay.Some? then LayerSections(profile.overlay.value) else []
  }

  /** The sections of several profiles, one profile after the other. */
  function SectionsOf(profiles: Profiles, order: seq<string>): (r: seq<Section>)
    requires forall n :: n in order ==> n in profiles
  {
    if order == [] then []
    else SectionsOf(profiles, order[..|order| - 1]) + OwnSections(profiles[order[|order| - 1]])
  }

  datatype Resolved = Resolved(merged: Merged, assignments: map<string, string>, removals: seq<string>)

  ghost predicate ResolvesTo(ids: Identities, profiles: Profiles, order: seq<string>, r: Resolved) {
    && (forall n :: n in order ==> n in profiles)
    && r.merged == Fold(ids, EMPTY, SectionsOf(profiles, order))
    && SplitsInto(ids, r.merged.overrides, r.assignments, r.removals)
  }

  lemma OrderIsDeclared(profiles: Profiles, name: string)
    requires PostOrder(Graph(profiles), name).Some?
    ensures forall n :: n in PostOrder(Graph(profiles), name).value ==> n in profiles
  {
    hide PostOrder;
    PostOrderIsMergeOrder(Graph(profiles), name);
  }

  // ----- what is merged, and in which order -----

  predicate Inherits(profiles: Profiles, child: string, parent: string) {
    child in profiles && parent in profiles[child].inherits
  }

  /** Each profile of the line inherits the next. */
  predicate IsLine(profiles: Profiles, line: seq<string>) {
    line != [] && forall i :: 0 <= i < |line| - 1 ==> Inherits(profiles, line[i], line[i + 1])
  }

  ghost predicate DescendsFrom(profiles: Profiles, name: string, other: string) {
    exists line :: IsLine(profiles, line) && line[0] == name && line[|line| - 1] == other
  }

  /** The profile and all it inherits, directly or not, are declared, and none of them inherits itself. */
  ghost predicate WellFounded(profiles: Profiles, name: string) {
    && (forall other :: DescendsFrom(profiles, name, other) ==> other in profiles)
    && (forall line :: IsLine(profiles, line) && |line| >= 2 && line[0] == line[|line| - 1] ==>
          !DescendsFrom(profiles, name, line[0]))
  }

  ghost predicate LinearizesAll(profiles: Profiles, names: seq<string>, orders: seq<seq<string>>, bound: nat)
    decreases bound, 0
  {
    && |orders| == |names|
    && forall k :: 0 <= k < |names| ==> |orders[k]| < bound && Linearizes(profiles, names[k], orders[k])
  }

  /** The order is that of the inherited profiles, one after the other as they are listed and each name where it
      comes first, and then the profile itself. */
  ghost predicate Linearizes(profiles: Profiles, name: string, order: seq<string>)
    decreases |order|, 1
  {
    name in profiles &&
    exists orders :: LinearizesAll(profiles, profiles[name].inherits, orders, |order|) && order == Gather(orders) + [name]
  }

  /** Succeeds exactly on closed, acyclic inheritance, and then merges each reachable profile once,
      after everything it inherits and the requested one last. */
  method Resolve(ids: Identities, profiles: Profiles, name: string) returns (r: Result<Resolved, ResolveError>)
    ensures r.Success? <==> WellFounded(profiles, name)
    ensures r.Success? ==> exists order :: Linearizes(profiles, name, order) && ResolvesTo(ids, profiles, order, r.value)
    ensures r.Success? ==>
      && PostOrder(Graph(profiles), name).Some?
      && ResolvesTo(ids, profiles, PostOrder(Graph(profiles), name).value, r.value)
  {
    hide PostOrder, Closed, Acyclic, Graph, OwnSections, Linearizes;
    var order := ResolveOrder(Graph(profiles), name);
    PostOrderSucceedsIff(Graph(profiles), name);
    SoundIsClosedAndAcyclic(profiles, name);
    if order.Failure? {
      return Failure(order.error);
    }
    OrderIsDeclared(profiles, name);
    OrderLinearizes(profiles, name);
    var resolved := MergeAll(ids, profiles, order.value);
    return Success(resolved);
  }

  lemma LinesAreWalks(profiles: Profiles, line: seq<string>)
    ensures IsLine(profiles, line) <==> IsWalk(Graph(profiles), line)
  {
    assert forall a, b :: Inherits(profiles, a, b) <==> Edge(Graph(profiles), a, b);
  }

  lemma DescentIsReach(profiles: Profiles, name: string, other: string)
    ensures DescendsFrom(profiles, name, other) <==> Reaches(Graph(profiles), name, other)
  {
    hide IsWalk;
    if line :| IsLine(profiles, line) && line[0] == name && line[|line| - 1] == other {
      LinesAreWalks(profiles, line);
      assert WalkBetween(Graph(profiles), line, name, other);
    }
    if line :| WalkBetween(Graph(profiles), line, name, other) {
      LinesAreWalks(profiles, line);
    }
  }

  lemma SoundIsClosedAndAcyclic(profiles: Profiles, name: string)
    ensures WellFounded(profiles, name) <==> Closed(Graph(profiles), name) && Acyclic(Graph(profiles), name)
  {
    hide IsLine, IsWalk, DescendsFrom, Reaches;
    var config := Graph(profiles);
    forall other ensures DescendsFrom(profiles, name, other) <==> Reaches(config, name, other) {
      DescentIsReach(profiles, name, other);
    }
    forall line ensures IsLine(profiles, line) <==> IsWalk(config, line) { LinesAreWalks(profiles, line); }
    if WellFounded(profiles, name) {
      forall walk | IsCycle(config, walk) ensures !Reaches(config, name, walk[0]) {
        assert IsLine(profiles, walk);
      }
    }
    if Acyclic(config, name) {
      forall line | IsLine(profiles, line) && |line| >= 2 && line[0] == line[|line| - 1]
        ensures !DescendsFrom(profiles, name, line[0])
      {
        assert IsCycle(config, line);
      }
    }
  }

  lemma {:induction false} OrderLinearizes(profiles: Profiles, name: string)
    requires PostOrder(Graph(profiles), name).Some?
    ensures Linearizes(profiles, name, PostOrder(Graph(profiles), name).value)
    decreases |PostOrder(Graph(profiles), name).value|
  {
    var config, order := Graph(profiles), PostOrder(Graph(profiles), name).value;
    PostOrderIsMergeOrder(config, name);
    hide PostOrder;
    assert name in config && config[name] == profiles[name].inherits;
    var parents := profiles[name].inherits;
    forall k | 0 <= k < |parents| ensures PostOrder(config, parents[k]).Some? {
      ParentHasOrder(config, name, parents[k]);
    }
    var orders := seq(|parents|, k requires 0 <= k < |parents| && PostOrder(config, parents[k]).Some? =>
      PostOrder(config, parents[k]).value);
    OrderGathers(config, name, orders);
    forall k | 0 <= k < |parents| ensures |orders[k]| < |order| && Linearizes(profiles, parents[k], orders[k]) {
      OrderIsShorter(config, name, orders, k);
      OrderLinearizes(profiles, parents[k]);
    }
    assert LinearizesAll(profiles, parents, orders, |order|);
  }

  lemma OrderIsShorter(config: Config, name: string, orders: seq<seq<string>>, k: nat)
    requires PostOrder(config, name).Some? && PostOrder(config, name).value == Gather(orders) + [name]
    requires k < |orders| && name in config && OrdersOf(config, config[name], orders)
    ensures |orders[k]| < |PostOrder(config, name).value|
  {
    hide PostOrder;
    PostOrderIsMergeOrder(config, config[name][k]);
    forall x | x in orders[k] ensures x in Gather(orders) {
      GatherHas(orders, x);
    }
    DistinctFits(orders[k], Gather(orders));
  }

  method MergeAll(ids: Identities, profiles: Profiles, order: seq<string>) returns (r: Resolved)
    requires forall n :: n in order ==> n in profiles
    ensures ResolvesTo(ids, profiles, order, r)
  {
    var merger := new Merger(ids);
    for k := 0 to |order|
      invariant fresh(merger) && merger.ids == ids && merger.Valid()
      invariant merger.Contents() == Fold(ids, EMPTY, SectionsOf(profiles, order[..k]))
    {
      hide LayerSections, ApplySection, merger.Valid;
      assert order[..k + 1][..k] == order[..k];
      FoldAppends(ids, EMPTY, SectionsOf(profiles, order[..k]), OwnSections(profiles[order[k]]));
      merger.Apply(profiles[order[k]].layer, profiles[order[k]].overlay);
    }
    assert order[..|order|] == order;
    var assignments, removals := merger.Finish();
    r := Resolved(merger.Contents(), assignments, removals);
  }

  // ----- what a child says last -----

  predicate Clears(sections: seq<Section>) {
    exists i :: 0 <= i < |sections| && sections[i].FilesystemSection? && ClearsFilesystem(sections[i].filesystem)
  }

  predicate ClearsOne(s: Section) {
    s.FilesystemSection? && ClearsFilesystem(s.filesystem)
  }

  lemma ClearsLast(front: seq<Section>, last: Section)
    ensures Clears(front + [last]) <==> Clears(front) || ClearsOne(last)
  {
    var all := front + [last];
    assert all[|front|] == last && forall i :: 0 <= i < |front| ==> all[i] == front[i];
    if i :| 0 <= i < |front| && front[i].FilesystemSection? && ClearsFilesystem(front[i].filesystem) {
      assert all[i] == front[i];
    }
  }

  lemma HistoryLast(front: seq<Section>, last: Section)
    ensures RuleHistory(front + [last]) == (if ClearsOne(last) then [] else RuleHistory(front))
                                           + if last.FilesystemSection? then last.filesystem.rules else []
  {
    assert (front + [last])[..|front|] == front;
    assert RuleHistory(front) + [] == RuleHistory(front);
  }

  /** The history of two runs of sections is that of the second, after the first unless the second clears it. */
  lemma {:induction false} HistoryAppends(xs: seq<Section>, ys: seq<Section>)
    ensures RuleHistory(xs + ys) == (if Clears(ys) then [] else RuleHistory(xs)) + RuleHistory(ys)
    decreases |ys|
  {
    if ys == [] {
      assert xs + ys == xs;
    } else {
      var front, last := ys[..|ys| - 1], ys[|ys| - 1];
      assert ys == front + [last] && xs + ys == (xs + front) + [last];
      hide RuleHistory, Clears, ClearsOne;
      HistoryAppends(xs, front);
      HistoryLast(xs + front, last);
      HistoryLast(front, last);
      ClearsLast(front, last);
      var kept := if Clears(front) then [] else RuleHistory(xs);
      var rules := if last.FilesystemSection? then last.filesystem.rules else [];
      assert (kept + RuleHistory(front)) + rules == kept + (RuleHistory(front) + rules);
      assert [] + ([] + rules) == [] + rules;
    }
  }

  lemma {:induction false} LastOfBoth<V, K>(xs: seq<V>, ys: seq<V>, k: K, key: V -> K)
    requires HasKey(ys, k, key)
    ensures HasKey(xs + ys, k, key) && LastWith(xs + ys, k, key) == LastWith(ys, k, key)
    decreases |ys|
  {
    var all, front := xs + ys, ys[..|ys| - 1];
    assert HasKey(all, k, key) by {
      var i :| 0 <= i < |ys| && key(ys[i]) == k;
      assert all[|xs| + i] == ys[i];
    }
    if key(ys[|ys| - 1]) != k {
      assert HasKey(front, k, key) by {
        var i :| 0 <= i < |ys| && key(ys[i]) == k;
        assert front[i] == ys[i];
      }
      LastOfBoth(xs, front, k, key);
      assert all[..|all| - 1] == xs + front;
    }
  }

  // ----- the one order -----

  lemma {:induction false} LinearizationIsUnique(profiles: Profiles, name: string, a: seq<string>, b: seq<string>)
    requires Linearizes(profiles, name, a) && Linearizes(profiles, name, b)
    ensures a == b
    decreases |a|
  {
    var parents := profiles[name].inherits;
    var x :| LinearizesAll(profiles, parents, x, |a|) && a == Gather(x) + [name];
    var y :| LinearizesAll(profiles, parents, y, |b|) && b == Gather(y) + [name];
    forall k | 0 <= k < |parents| ensures x[k] == y[k] {
      LinearizationIsUnique(profiles, parents[k], x[k], y[k]);
    }
    assert x == y;
  }

  /** Along a line of inheritance the orders get shorter. */
  lemma {:induction false} LineLinearizes(profiles: Profiles, line: seq<string>, order: seq<string>)
    returns (last: seq<string>)
    requires IsLine(profiles, line) && Linearizes(profiles, line[0], order)
    ensures Linearizes(profiles, line[|line| - 1], last) && |last| <= |order| && (|line| > 1 ==> |last| < |order|)
    decreases |line|
  {
    if |line| == 1 {
      last := order;
    } else {
      assert Inherits(profiles, line[0], line[1]);
      var parents := profiles[line[0]].inherits;
      var orders :| LinearizesAll(profiles, parents, orders, |order|) && order == Gather(orders) + [line[0]];
      var k :| 0 <= k < |parents| && parents[k] == line[1];
      var rest := line[1..];
      forall i | 0 <= i < |rest| - 1 ensures Inherits(profiles, rest[i], rest[i + 1]) {
        assert rest[i] == line[i + 1] && rest[i + 1] == line[i + 2];
      }
      last := LineLinearizes(profiles, rest, orders[k]);
    }
  }

  /** A profile has an order exactly when its inheritance is well founded, and it has only one. */
  lemma OneOrder(profiles: Profiles, name: string, order: seq<string>)
    ensures Linearizes(profiles, name, order) <==> PostOrder(Graph(profiles), name) == Some(order)
    ensures Linearizes(profiles, name, order) ==> WellFounded(profiles, name)
  {
    hide PostOrder, Graph;
    SoundIsClosedAndAcyclic(profiles, name);
    PostOrderSucceedsIff(Graph(profiles), name);
    if PostOrder(Graph(profiles), name).Some? {
      OrderLinearizes(profiles, name);
    }
    if Linearizes(profiles, name, order) {
      OrderIsWellFounded(profiles, name, order);
      LinearizationIsUnique(profiles, name, order, PostOrder(Graph(profiles), name).value);
    }
  }

  lemma OrderIsWellFounded(profiles: Profiles, name: string, order: seq<string>)
    requires Linearizes(profiles, name, order)
    ensures WellFounded(profiles, name)
  {
    hide Linearizes;
    forall other | DescendsFrom(profiles, name, other) ensures exists o :: Linearizes(profiles, other, o) {
      var line :| IsLine(profiles, line) && line[0] == name && line[|line| - 1] == other;
      var o := LineLinearizes(profiles, line, order);
    }
    forall other, o | Linearizes(profiles, other, o) ensures other in profiles { LinearizedIsDeclared(profiles, other, o); }
    forall line | IsLine(profiles, line) && |line| >= 2 && line[0] == line[|line| - 1]
      ensures !DescendsFrom(profiles, name, line[0])
    {
      if DescendsFrom(profiles, name, line[0]) {
        var o :| Linearizes(profiles, line[0], o);
        var p := LineLinearizes(profiles, line, o);
        LinearizationIsUnique(profiles, line[0], o, p);
      }
    }
  }

  lemma LinearizedIsDeclared(profiles: Profiles, name: string, order: seq<string>)
    requires Linearizes(profiles, name, order)
    ensures name in profiles
  {
  }

  /** Exactly the profile and everything it inherits is merged: each once, each after all it inherits, itself last. */
  lemma OrderMeans(profiles: Profiles, name: string, order: seq<string>)
    requires Linearizes(profiles, name, order)
    ensures forall other :: other in order <==> DescendsFrom(profiles, name, other)
    ensures forall i, j :: 0 <= i < j < |order| ==> order[i] != order[j]
    ensures forall i, parent :: 0 <= i < |order| && Inherits(profiles, order[i], parent) ==> parent in order[..i]
    ensures order != [] && order[|order| - 1] == name
  {
    hide PostOrder, Linearizes, DescendsFrom, Reaches;
    OneOrder(profiles, name, order);
    PostOrderIsMergeOrder(Graph(profiles), name);
    forall other ensures other in order <==> DescendsFrom(profiles, name, other) {
      DescentIsReach(profiles, name, other);
    }
    forall i, parent | 0 <= i < |order| && Inherits(profiles, order[i], parent) ensures parent in order[..i] {
      assert parent in Graph(profiles)[order[i]];
    }
  }

  /** What comes with one parent is merged before what comes only with later ones. */
  lemma LaterParentIsLater(profiles: Profiles, name: string, order: seq<string>, i: nat, a: string, b: string)
    requires Linearizes(profiles, name, order) && i < |profiles[name].inherits|
    requires DescendsFrom(profiles, profiles[name].inherits[i], a) && DescendsFrom(profiles, name, b)
    requires forall k :: 0 <= k <= i ==> !DescendsFrom(profiles, profiles[name].inherits[k], b)
    ensures Before(order, a, b)
  {
    var parents := profiles[name].inherits;
    var orders :| LinearizesAll(profiles, parents, orders, |order|) && order == Gather(orders) + [name];
    OrderMeans(profiles, name, order);
    hide Linearizes, DescendsFrom, Before, Gather;
    forall k | 0 <= k <= i ensures b !in orders[k] {
      OrderMeans(profiles, parents[k], orders[k]);
    }
    OrderMeans(profiles, parents[i], orders[i]);
    GatheredBefore(orders, [name], i, a, b);
  }

  /** A last parent that no other parent inherits is merged right before the profile itself. */
  lemma LastParentIsNext(profiles: Profiles, name: string, order: seq<string>, parent: string)
    requires Linearizes(profiles, name, order)
    requires var parents := profiles[name].inherits;
      && parents != [] && parents[|parents| - 1] == parent
      && forall k :: 0 <= k < |parents| - 1 ==> !DescendsFrom(profiles, parents[k], parent)
    ensures |order| >= 2 && order[|order| - 2] == parent
  {
    var parents := profiles[name].inherits;
    var orders :| LinearizesAll(profiles, parents, orders, |order|) && order == Gather(orders) + [name];
    hide Linearizes, DescendsFrom;
    var front, last := orders[..|orders| - 1], orders[|orders| - 1];
    forall k | 0 <= k < |front| ensures parent !in front[k] {
      OrderMeans(profiles, parents[k], orders[k]);
    }
    GatherHas(front, parent);
    OrderMeans(profiles, parent, last);
    assert last == last[..|last| - 1] + [parent];
  }

  // ----- whose rule it is -----

  predicate States(ids: Identities, profile: Profile, k: RuleKey) {
    HasKey(RuleHistory(OwnSections(profile)), k, RuleKeys(ids))
  }

  /** The last profile of the order that states a rule decides it, unless a later one clears the filesystem. */
  ghost predicate Decides(ids: Identities, profiles: Profiles, order: seq<string>, n: nat, k: RuleKey) {
    && (forall m :: 0 <= m < |order| ==> order[m] in profiles)
    && n < |order| && States(ids, profiles[order[n]], k)
    && forall m :: n < m < |order| ==> !States(ids, profiles[order[m]], k) && !Clears(OwnSections(profiles[order[m]]))
  }

  lemma {:induction false} HistoryOfOrder(ids: Identities, profiles: Profiles, order: seq<string>, n: nat, k: RuleKey)
    requires Decides(ids, profiles, order, n, k)
    ensures var history := RuleHistory(SectionsOf(profiles, order));
      && HasKey(history, k, RuleKeys(ids))
      && LastWith(history, k, RuleKeys(ids)) == LastWith(RuleHistory(OwnSections(profiles[order[n]])), k, RuleKeys(ids))
    decreases |order|
  {
    hide RuleHistory, OwnSections, LastWith, RuleKeys, Clears;
    var front, own := order[..|order| - 1], OwnSections(profiles[order[|order| - 1]]);
    HistoryAppends(SectionsOf(profiles, front), own);
    if n == |order| - 1 {
      LastOfBoth(if Clears(own) then [] else RuleHistory(SectionsOf(profiles, front)), RuleHistory(own), k, RuleKeys(ids));
    } else {
      assert Decides(ids, profiles, front, n, k);
      HistoryOfOrder(ids, profiles, front, n, k);
      LastOfFirst(RuleHistory(SectionsOf(profiles, front)), RuleHistory(own), k, RuleKeys(ids));
    }
  }

  lemma {:induction false} LastOfFirst<V, K>(xs: seq<V>, ys: seq<V>, k: K, key: V -> K)
    requires HasKey(xs, k, key) && !HasKey(ys, k, key)
    ensures HasKey(xs + ys, k, key) && LastWith(xs + ys, k, key) == LastWith(xs, k, key)
    decreases |ys|
  {
    var all := xs + ys;
    assert HasKey(all, k, key) by {
      var i :| 0 <= i < |xs| && key(xs[i]) == k;
      assert all[i] == xs[i];
    }
    if ys == [] {
      assert all == xs;
    } else {
      var front := ys[..|ys| - 1];
      assert key(ys[|ys| - 1]) != k;
      assert forall i :: 0 <= i < |front| ==> front[i] == ys[i];
      LastOfFirst(xs, front, k, key);
      assert all[..|all| - 1] == xs + front;
    }
  }

  /** The rule of a resolved profile is the last entry of the profile that decides it: its key occurs once. */
  lemma DecidedRule(ids: Identities, profiles: Profiles, name: string, order: seq<string>, r: Resolved, n: nat, k: RuleKey)
    requires Linearizes(profiles, name, order) && ResolvesTo(ids, profiles, order, r)
    requires Decides(ids, profiles, order, n, k)
    ensures var rules := OrEmpty(r.merged.filesystem, NO_FILESYSTEM).rules;
      && DistinctKeys(rules, RuleKeys(ids)) && HasKey(rules, k, RuleKeys(ids))
      && forall i :: 0 <= i < |rules| && RuleKeys(ids)(rules[i]) == k ==>
           rules[i] == LastWith(RuleHistory(OwnSections(profiles[order[n]])), k, RuleKeys(ids))
  {
    hide OwnSections, RuleHistory, Fold, LastWith, FirstSeen, RuleKeys, Decides, Linearizes, SectionsOf;
    var sections := SectionsOf(profiles, order);
    HistoryOfOrder(ids, profiles, order, n, k);
    FoldFaithful(ids, sections);
    RuleIsLast(ids, sections, OrEmpty(r.merged.filesystem, NO_FILESYSTEM).rules, k);
  }

  lemma RuleIsLast(ids: Identities, sections: seq<Section>, rules: seq<FilesystemRule>, k: RuleKey)
    requires Merges(RuleHistory(sections), rules, RuleKeys(ids)) && HasKey(RuleHistory(sections), k, RuleKeys(ids))
    ensures DistinctKeys(rules, RuleKeys(ids)) && HasKey(rules, k, RuleKeys(ids))
    ensures forall i :: 0 <= i < |rules| && RuleKeys(ids)(rules[i]) == k ==>
      rules[i] == LastWith(RuleHistory(sections), k, RuleKeys(ids))
  {
    hide RuleHistory, LastWith, FirstSeen, RuleKeys;
    var history := RuleHistory(sections);
    MergesDistinct(history, rules, RuleKeys(ids));
    FirstSeenKeys(history, k, RuleKeys(ids));
    var i :| 0 <= i < |FirstSeen(history, RuleKeys(ids))| && FirstSeen(history, RuleKeys(ids))[i] == k;
    assert Keys(rules, RuleKeys(ids))[i] == k;
    assert RuleKeys(ids)(rules[i]) == k;
  }

  /** A filesystem rule the requested profile states itself is the rule of the resolved profile, whatever
      it inherits and however: its key occurs once, with the profile's own last entry. */
  lemma OwnRuleWins(ids: Identities, profiles: Profiles, name: string, r: Resolved, k: RuleKey)
    requires PostOrder(Graph(profiles), name).Some?
    requires ResolvesTo(ids, profiles, PostOrder(Graph(profiles), name).value, r)
    requires name in profiles && HasKey(RuleHistory(OwnSections(profiles[name])), k, RuleKeys(ids))
    ensures var rules := OrEmpty(r.merged.filesystem, NO_FILESYSTEM).rules;
      && DistinctKeys(rules, RuleKeys(ids)) && HasKey(rules, k, RuleKeys(ids))
      && forall i :: 0 <= i < |rules| && RuleKeys(ids)(rules[i]) == k ==>
           rules[i] == LastWith(RuleHistory(OwnSections(profiles[name])), k, RuleKeys(ids))
  {
    hide PostOrder, OwnSections, RuleHistory, RuleKeys, LastWith, Linearizes, Fold, SectionsOf;
    var order := PostOrder(Graph(profiles), name).value;
    OneOrder(profiles, name, order);
    OrderMeans(profiles, name, order);
    assert Decides(ids, profiles, order, |order| - 1, k);
    DecidedRule(ids, profiles, name, order, r, |order| - 1, k);
  }

  /** Of all a profile inherits, its last parent has the last word: a rule that this parent states, and the profile
      itself does not, has the parent's entry, as long as no other parent inherits it and nothing is cleared. */
  lemma LastParentWins(ids: Identities, profiles: Profiles, name: string, order: seq<string>, r: Resolved,
                       parent: string, k: RuleKey)
    requires Linearizes(profiles, name, order) && ResolvesTo(ids, profiles, order, r)
    requires var parents := profiles[name].inherits;
      && parents != [] && parents[|parents| - 1] == parent
      && forall k :: 0 <= k < |parents| - 1 ==> !DescendsFrom(profiles, parents[k], parent)
    requires parent in profiles && States(ids, profiles[parent], k)
    requires !States(ids, profiles[name], k) && !Clears(OwnSections(profiles[name]))
    ensures var rules := OrEmpty(r.merged.filesystem, NO_FILESYSTEM).rules;
      && HasKey(rules, k, RuleKeys(ids))
      && forall i :: 0 <= i < |rules| && RuleKeys(ids)(rules[i]) == k ==>
           rules[i] == LastWith(RuleHistory(OwnSections(profiles[parent])), k, RuleKeys(ids))
  {
    hide Linearizes, DescendsFrom, OwnSections, RuleHistory, RuleKeys, LastWith, States, Clears, Fold, SectionsOf;
    LastParentIsNext(profiles, name, order, parent);
    OrderMeans(profiles, name, order);
    assert Decides(ids, profiles, order, |order| - 2, k);
    DecidedRule(ids, profiles, name, order, r, |order| - 2, k);
  }
}
