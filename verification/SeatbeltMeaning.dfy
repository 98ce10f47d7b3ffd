/**
 What the rules built from a filesystem plan decide, for every plan and every
 access.  `Unmatched` accesses are left to the fixed base policy.
 */
module SeatbeltMeaning {
  import opened Wrappers
  import opened LexicalPath
  import opened TextPath
  import opened Seatbelt
  import Glob
  import GlobMeaning

  // ----- what a plan means -----

  predicate RootMatches(root: Path, kind: RootKind, path: Path) {
    if kind == File then root == path else root <= path
  }

  ghost predicate InRoot(roots: seq<Path>, kinds: Path -> RootKind, path: Path) {
    exists k :: 0 <= k < |roots| && RootMatches(roots[k], kinds(roots[k]), path)
  }

  ghost predicate UnderFirst(paths: seq<Path>, n: nat, path: Path)
    requires n <= |paths|
  {
    exists k :: 0 <= k < n && paths[k] <= path
  }

  ghost predicate UnderSome(paths: seq<Path>, path: Path) {
    UnderFirst(paths, |paths|, path)
  }

  ghost predicate GlobDenies(pattern: string, path: Path) {
    Glob.Ordered(Glob.Parse(pattern)) && Glob.Covers(pattern, PathText(path))
  }

  ghost predicate GlobDenied(globs: seq<string>, path: Path) {
    exists k :: 0 <= k < |globs| && GlobDenies(globs[k], path)
  }

  /** The plan denies every access to the path. */
  ghost predicate Denied(plan: Plan, path: Path) {
    UnderSome(plan.deniedPaths, path) || GlobDenied(plan.deniedGlobs, path)
  }

  ghost predicate WriteDenied(plan: Plan, path: Path) {
    Denied(plan, path) || UnderSome(plan.writeDeniedPaths, path)
  }

  ghost predicate Readable(plan: Plan, kinds: Path -> RootKind, path: Path) {
    if plan.unrestricted then [Root] <= path else InRoot(plan.readRoots, kinds, path)
  }

  ghost predicate Writable(plan: Plan, kinds: Path -> RootKind, path: Path) {
    if plan.unrestricted then [Root] <= path else InRoot(plan.writeRoots, kinds, path)
  }

  /** Path is one of the listed paths or an ancestor of one, as a whole path. */
  predicate IsAncestor(path: Path, of: Path) {
    path <= of && (of != [] && of[0] == Root ==> path != [])
  }

  ghost predicate AncestorOfSome(path: Path, paths: seq<Path>, n: nat)
    requires n <= |paths|
  {
    exists k :: 0 <= k < n && IsAncestor(path, paths[k])
  }

  ghost predicate InsideSome(path: Path, roots: seq<Path>) {
    exists root :: root in roots && IsWithin(path, root)
  }

  lemma InsideIsWithin(path: Path, roots: seq<Path>)
    ensures InsideSome(path, roots) <==> WithinSome(path, roots)
  {
    hide IsWithin;
    if root :| root in roots && IsWithin(path, root) {
      var k :| 0 <= k < |roots| && roots[k] == root;
    }
  }

  /** A strict ancestor of a protected path that lies inside a writable root. */
  ghost predicate ProtectedAncestor(protectedPaths: seq<Path>, writeRoots: seq<Path>, n: nat, path: Path)
    requires n <= |protectedPaths|
  {
    && InsideSome(path, writeRoots)
    && exists k :: 0 <= k < n && path != protectedPaths[k] && IsAncestor(path, protectedPaths[k])
  }

  ghost predicate PlanProtectedAncestor(plan: Plan, path: Path) {
    var protectedPaths := plan.deniedPaths + plan.writeDeniedPaths;
    ProtectedAncestor(protectedPaths, plan.writeRoots, |protectedPaths|, path)
  }

  ghost predicate AncestorAccepts(ancestor: string, path: Path) {
    Glob.Ordered(Glob.Parse(ancestor)) && Glob.Accepted(Glob.Parse(ancestor), PathText(path))
  }

  ghost predicate SomeAncestorAccepts(ancestors: seq<string>, n: nat, path: Path)
    requires n <= |ancestors|
  {
    exists j :: 0 <= j < n && AncestorAccepts(ancestors[j], path)
  }

  /** The path is spelled by a pattern with trailing components removed. */
  ghost predicate GlobAncestor(pattern: string, path: Path) {
    exists ancestor :: IsAncestorText(pattern, ancestor) && AncestorAccepts(ancestor, path)
  }

  lemma AncestorsAreCuts(pattern: string, path: Path)
    ensures SomeAncestorAccepts(TextAncestors(pattern), |TextAncestors(pattern)|, path) <==> GlobAncestor(pattern, path)
  {
    hide TextAncestors, IsAncestorText, AncestorAccepts;
    TextAncestorsAreCuts(pattern);
    var ancestors := TextAncestors(pattern);
    if k :| 0 <= k < |ancestors| && AncestorAccepts(ancestors[k], path) {
      assert IsAncestorText(pattern, ancestors[k]);
    }
    if t :| IsAncestorText(pattern, t) && AncestorAccepts(t, path) {
      var k :| 0 <= k < |ancestors| && ancestors[k] == t;
    }
  }

  ghost predicate GlobPinned(globs: seq<string>, path: Path) {
    exists k :: 0 <= k < |globs| && GlobAncestor(globs[k], path)
  }

  /** A directory whose removal would move a root or a protected path away. */
  ghost predicate Pinned(plan: Plan, path: Path) {
    || (!plan.unrestricted && path in plan.writeRoots)
    || PlanProtectedAncestor(plan, path)
    || GlobPinned(plan.deniedGlobs, path)
  }

  // ----- allows, then denies -----

  ghost predicate SomeApplies(rules: seq<Rule>, definitions: seq<Definition>, op: Operation, a: Access) {
    exists r :: r in rules && Applies(r, definitions, op, a)
  }

  predicate AllAllow(rules: seq<Rule>) { forall r :: r in rules ==> r.allow }

  predicate AllDeny(rules: seq<Rule>) { forall r :: r in rules ==> !r.allow }

  lemma SomeAppliesAppend(x: seq<Rule>, y: seq<Rule>, definitions: seq<Definition>, op: Operation, a: Access)
    ensures SomeApplies(x + y, definitions, op, a)
       <==> SomeApplies(x, definitions, op, a) || SomeApplies(y, definitions, op, a)
  {
    assert forall r :: r in x + y <==> r in x || r in y;
  }

  lemma SomeAppliesOne(r: Rule, definitions: seq<Definition>, op: Operation, a: Access)
    ensures SomeApplies([r], definitions, op, a) <==> Applies(r, definitions, op, a)
  {
  }

  /** When every allow precedes every deny, a deny that applies wins. */
  lemma {:induction false} AllowsThenDenies(allows: seq<Rule>, denies: seq<Rule>, definitions: seq<Definition>,
                                            op: Operation, a: Access)
    requires AllAllow(allows) && AllDeny(denies)
    ensures Decide(allows + denies, definitions, op, a) ==
      if SomeApplies(denies, definitions, op, a) then Deny
      else if SomeApplies(allows, definitions, op, a) then Allow
      else Unmatched
    decreases |allows| + |denies|
  {
    var rules := allows + denies;
    if denies != [] {
      var last := denies[|denies| - 1];
      var front := denies[..|denies| - 1];
      assert denies == front + [last] && rules[..|rules| - 1] == allows + front;
      AllowsThenDenies(allows, front, definitions, op, a);
      SomeAppliesAppend(front, [last], definitions, op, a);
      SomeAppliesOne(last, definitions, op, a);
    } else if allows != [] {
      var last := allows[|allows| - 1];
      var front := allows[..|allows| - 1];
      assert allows == front + [last] && rules == allows && rules[..|rules| - 1] == front + [];
      AllowsThenDenies(front, [], definitions, op, a);
      SomeAppliesAppend(front, [last], definitions, op, a);
      SomeAppliesOne(last, definitions, op, a);
    }
  }

  // ----- parameters resolve -----

  lemma {:induction false} LookupAppend(x: seq<Definition>, y: seq<Definition>, name: string)
    ensures Lookup(x + y, name) == if Lookup(x, name).Some? then Lookup(x, name) else Lookup(y, name)
  {
    if x == [] {
      assert x + y == y;
    } else {
      assert (x + y)[1..] == x[1..] + y;
      LookupAppend(x[1..], y, name);
    }
  }

  lemma {:induction false} LookupAbsent(x: seq<Definition>, name: string)
    requires forall k :: 0 <= k < |x| ==> x[k].name != name
    ensures Lookup(x, name).None?
  {
    if x != [] { LookupAbsent(x[1..], name); }
  }

  lemma {:induction false} LookupAt(x: seq<Definition>, i: nat)
    requires i < |x| && forall k :: 0 <= k < i ==> x[k].name != x[i].name
    ensures Lookup(x, x[i].name) == Some(x[i].value)
  {
    if i > 0 { LookupAt(x[1..], i - 1); }
  }

  /** Looking a numbered name up in one block of definitions. */
  lemma LookupBlock(prefix: string, paths: seq<Path>, p: string, i: nat)
    ensures Lookup(Definitions(prefix, paths), Numbered(p, i))
         == if p == prefix && i < |paths| then Some(paths[i]) else None
  {
    var block := Definitions(prefix, paths);
    forall k | 0 <= k < |block| && block[k].name == Numbered(p, i) ensures p == prefix && k == i {
      NumberedInjective(prefix, k, p, i);
    }
    if p == prefix && i < |paths| {
      assert block[i].name == Numbered(p, i);
      LookupAt(block, i);
    } else {
      LookupAbsent(block, Numbered(p, i));
    }
  }

  /** The paths a plan defines under a prefix. */
  function Defined(plan: Plan, prefix: string): (r: seq<Path>) {
    if prefix == "DENIED_PATH" then plan.deniedPaths
    else if prefix == "WRITE_DENIED_PATH" then plan.writeDeniedPaths
    else if prefix == "READ_ROOT" && !plan.unrestricted then plan.readRoots
    else if prefix == "WRITE_ROOT" && !plan.unrestricted then plan.writeRoots
    else if prefix == "ROOT_METADATA_ANCESTOR" && !plan.unrestricted then MetadataPaths(plan)
    else if prefix == "EXECUTABLE_ROOT" then plan.executableRoots
    else if prefix == "PROTECTED_ANCESTOR" then ProtectedPaths(plan)
    else []
  }

  lemma DefinedNames(plan: Plan)
    ensures Defined(plan, "DENIED_PATH") == plan.deniedPaths
    ensures Defined(plan, "WRITE_DENIED_PATH") == plan.writeDeniedPaths
    ensures Defined(plan, "READ_ROOT") == if plan.unrestricted then [] else plan.readRoots
    ensures Defined(plan, "WRITE_ROOT") == if plan.unrestricted then [] else plan.writeRoots
    ensures Defined(plan, "ROOT_METADATA_ANCESTOR") == if plan.unrestricted then [] else MetadataPaths(plan)
    ensures Defined(plan, "EXECUTABLE_ROOT") == plan.executableRoots
    ensures Defined(plan, "PROTECTED_ANCESTOR") == ProtectedPaths(plan)
  {
    hide MetadataPaths, ProtectedPaths;
  }

  lemma LookupScope(plan: Plan, p: string, i: nat)
    ensures Lookup(ScopeDefinitions(plan), Numbered(p, i)) ==
      if p in ["READ_ROOT", "WRITE_ROOT", "ROOT_METADATA_ANCESTOR"] && i < |Defined(plan, p)|
      then Some(Defined(plan, p)[i]) else None
  {
    if !plan.unrestricted {
      var x, y, z := Definitions("READ_ROOT", plan.readRoots), Definitions("WRITE_ROOT", plan.writeRoots),
        Definitions("ROOT_METADATA_ANCESTOR", MetadataPaths(plan));
      LookupAppend(x + y, z, Numbered(p, i));
      LookupAppend(x, y, Numbered(p, i));
      LookupBlock("READ_ROOT", plan.readRoots, p, i);
      LookupBlock("WRITE_ROOT", plan.writeRoots, p, i);
      LookupBlock("ROOT_METADATA_ANCESTOR", MetadataPaths(plan), p, i);
    }
  }

  /** Every parameter resolves to the path it was defined with, and to nothing else. */
  lemma ParameterResolves(plan: Plan, p: string, i: nat)
    ensures Lookup(FilesystemDefinitions(plan), Numbered(p, i)) ==
      if i < |Defined(plan, p)| then Some(Defined(plan, p)[i]) else None
  {
    var name := Numbered(p, i);
    var x, y := Definitions("DENIED_PATH", plan.deniedPaths), Definitions("WRITE_DENIED_PATH", plan.writeDeniedPaths);
    var z := ScopeDefinitions(plan);
    var v, w := Definitions("EXECUTABLE_ROOT", plan.executableRoots),
      Definitions("PROTECTED_ANCESTOR", ProtectedPaths(plan));
    LookupAppend(x + y + z + v, w, name);
    LookupAppend(x + y + z, v, name);
    LookupAppend(x + y, z, name);
    LookupAppend(x, y, name);
    LookupBlock("DENIED_PATH", plan.deniedPaths, p, i);
    LookupBlock("WRITE_DENIED_PATH", plan.writeDeniedPaths, p, i);
    LookupScope(plan, p, i);
    LookupBlock("EXECUTABLE_ROOT", plan.executableRoots, p, i);
    LookupBlock("PROTECTED_ANCESTOR", ProtectedPaths(plan), p, i);
  }

  // ----- single filters -----

  lemma GlobFilterHolds(pattern: string, definitions: seq<Definition>, a: Access)
    ensures Holds(Matching(GlobRegex(pattern)), definitions, a) <==> GlobDenies(pattern, a.path)
  {
    GlobMeaning.TranslationPreservesMeaning(pattern, true, true, PathText(a.path));
  }

  lemma ExactGlobFilterHolds(pattern: string, definitions: seq<Definition>, a: Access)
    ensures Holds(Matching(ExactGlobRegex(pattern)), definitions, a)
       <==> AncestorAccepts(pattern, a.path)
  {
    GlobMeaning.TranslationPreservesMeaning(pattern, false, true, PathText(a.path));
  }

  /** Every index of the paths resolves under the prefix. */
  ghost predicate Resolves(definitions: seq<Definition>, prefix: string, paths: seq<Path>) {
    forall i :: 0 <= i < |paths| ==> Lookup(definitions, Numbered(prefix, i)) == Some(paths[i])
  }

  lemma PlanResolves(plan: Plan, prefix: string)
    ensures Resolves(FilesystemDefinitions(plan), prefix, Defined(plan, prefix))
  {
    forall i | 0 <= i < |Defined(plan, prefix)|
      ensures Lookup(FilesystemDefinitions(plan), Numbered(prefix, i)) == Some(Defined(plan, prefix)[i])
    {
      ParameterResolves(plan, prefix, i);
    }
  }

  ghost predicate AllHold(filters: seq<Filter>, definitions: seq<Definition>, a: Access) {
    forall f :: f in filters ==> Holds(f, definitions, a)
  }

  lemma AllHoldAppend(x: seq<Filter>, y: seq<Filter>, definitions: seq<Definition>, a: Access)
    ensures AllHold(x + y, definitions, a) <==> AllHold(x, definitions, a) && AllHold(y, definitions, a)
  {
    assert forall f :: f in x + y <==> f in x || f in y;
  }

  lemma PathExclusionHolds(definitions: seq<Definition>, prefix: string, paths: seq<Path>, i: nat, a: Access)
    requires Resolves(definitions, prefix, paths) && i < |paths|
    ensures AllHold(PathExclusion(prefix, i), definitions, a) <==> !(paths[i] <= a.path)
  {
    var x, y := PathExclusion(prefix, i)[0], PathExclusion(prefix, i)[1];
    assert Holds(x, definitions, a) <==> paths[i] != a.path;
    assert Holds(y, definitions, a) <==> !(paths[i] <= a.path);
    assert x in PathExclusion(prefix, i) && y in PathExclusion(prefix, i);
  }

  // ----- allow clauses -----

  /** None of the listed paths inside `root` contains the path. */
  ghost predicate ClearOf(excluded: seq<Path>, root: Path, n: nat, path: Path)
    requires n <= |excluded|
  {
    forall k :: 0 <= k < n && IsWithin(excluded[k], root) ==> !(excluded[k] <= path)
  }

  lemma {:induction false} ExclusionsHold(definitions: seq<Definition>, prefix: string, paths: seq<Path>, root: Path,
                                          n: nat, a: Access)
    requires Resolves(definitions, prefix, paths) && n <= |paths|
    ensures AllHold(Exclusions(prefix, paths, root, n), definitions, a) <==> ClearOf(paths, root, n, a.path)
  {
    if n > 0 {
      var last := if IsWithin(paths[n - 1], root) then PathExclusion(prefix, n - 1) else [];
      ExclusionsHold(definitions, prefix, paths, root, n - 1, a);
      PathExclusionHolds(definitions, prefix, paths, n - 1, a);
      AllHoldAppend(Exclusions(prefix, paths, root, n - 1), last, definitions, a);
    }
  }

  lemma {:induction false} FullExclusionsHold(definitions: seq<Definition>, prefix: string, paths: seq<Path>, n: nat,
                                              a: Access)
    requires Resolves(definitions, prefix, paths) && n <= |paths|
    ensures AllHold(FullExclusions(prefix, n), definitions, a)
       <==> forall k :: 0 <= k < n ==> !(paths[k] <= a.path)
  {
    if n > 0 {
      FullExclusionsHold(definitions, prefix, paths, n - 1, a);
      PathExclusionHolds(definitions, prefix, paths, n - 1, a);
      AllHoldAppend(FullExclusions(prefix, n - 1), PathExclusion(prefix, n - 1), definitions, a);
    }
  }

  lemma GlobExclusionsHold(globs: seq<string>, definitions: seq<Definition>, a: Access)
    ensures AllHold(GlobExclusions(globs), definitions, a) <==> !GlobDenied(globs, a.path)
  {
    var filters := GlobExclusions(globs);
    forall k | 0 <= k < |globs| ensures Holds(filters[k], definitions, a) <==> !GlobDenies(globs[k], a.path) {
      GlobFilterHolds(globs[k], definitions, a);
    }
    if GlobDenied(globs, a.path) {
      var k :| 0 <= k < |globs| && GlobDenies(globs[k], a.path);
      assert filters[k] in filters;
    }
  }

  ghost predicate Clear(plan: Plan, root: Path, writing: bool, path: Path) {
    && ClearOf(plan.deniedPaths, root, |plan.deniedPaths|, path)
    && !GlobDenied(plan.deniedGlobs, path)
    && (writing ==> ClearOf(plan.writeDeniedPaths, root, |plan.writeDeniedPaths|, path))
  }

  /** The denied and write-denied parameters of the plan resolve. */
  ghost predicate DenialsResolve(plan: Plan, definitions: seq<Definition>) {
    && Resolves(definitions, "DENIED_PATH", plan.deniedPaths)
    && Resolves(definitions, "WRITE_DENIED_PATH", plan.writeDeniedPaths)
  }

  lemma PlanDenialsResolve(plan: Plan)
    ensures DenialsResolve(plan, FilesystemDefinitions(plan))
  {
    DefinedNames(plan);
    hide FilesystemDefinitions, Defined, Resolves;
    PlanResolves(plan, "DENIED_PATH");
    PlanResolves(plan, "WRITE_DENIED_PATH");
  }

  lemma RequirementsHold(plan: Plan, definitions: seq<Definition>, root: Path, filter: Filter, writing: bool, a: Access)
    requires DenialsResolve(plan, definitions)
    ensures Holds(RequireAll(RootRequirements(plan, root, filter, writing)), definitions, a)
       <==> Holds(filter, definitions, a) && Clear(plan, root, writing, a.path)
  {
    var x := Exclusions("DENIED_PATH", plan.deniedPaths, root, |plan.deniedPaths|);
    var y := GlobExclusions(plan.deniedGlobs);
    var z := if writing then Exclusions("WRITE_DENIED_PATH", plan.writeDeniedPaths, root, |plan.writeDeniedPaths|)
             else [];
    var all := RootRequirements(plan, root, filter, writing);
    assert all == [filter] + x + y + z;
    assert Holds(RequireAll(all), definitions, a) <==> AllHold(all, definitions, a);
    AllHoldAppend([filter] + x + y, z, definitions, a);
    AllHoldAppend([filter] + x, y, definitions, a);
    AllHoldAppend([filter], x, definitions, a);
    assert AllHold([filter], definitions, a) <==> Holds(filter, definitions, a);
    ExclusionsHold(definitions, "DENIED_PATH", plan.deniedPaths, root, |plan.deniedPaths|, a);
    GlobExclusionsHold(plan.deniedGlobs, definitions, a);
    ExclusionsHold(definitions, "WRITE_DENIED_PATH", plan.writeDeniedPaths, root, |plan.writeDeniedPaths|, a);
  }

  lemma SomeHoldsAppend(x: seq<Filter>, f: Filter, definitions: seq<Definition>, a: Access)
    ensures SomeHolds(x + [f], definitions, a) <==> SomeHolds(x, definitions, a) || Holds(f, definitions, a)
  {
    assert forall g :: g in x + [f] <==> g in x || g == f;
  }

  ghost predicate ClearMatch(plan: Plan, root: Path, kind: RootKind, writing: bool, path: Path) {
    RootMatches(root, kind, path) && Clear(plan, root, writing, path)
  }

  ghost predicate ClearRoot(plan: Plan, roots: seq<Path>, kinds: Path -> RootKind, writing: bool, n: nat, path: Path)
    requires n <= |roots|
  {
    exists k :: 0 <= k < n && ClearMatch(plan, roots[k], kinds(roots[k]), writing, path)
  }

  lemma RootClauseHolds(plan: Plan, definitions: seq<Definition>, name: string, root: Path, kind: RootKind,
                        writing: bool, a: Access)
    requires DenialsResolve(plan, definitions) && Lookup(definitions, name) == Some(root)
    ensures Holds(RequireAll(RootRequirements(plan, root, RootFilter(name, kind), writing)), definitions, a)
       <==> ClearMatch(plan, root, kind, writing, a.path)
  {
    RequirementsHold(plan, definitions, root, RootFilter(name, kind), writing, a);
  }

  lemma {:induction false} RootClausesHold(plan: Plan, definitions: seq<Definition>, prefix: string, roots: seq<Path>,
                                           kinds: Path -> RootKind, writing: bool, n: nat, a: Access)
    requires DenialsResolve(plan, definitions) && Resolves(definitions, prefix, roots) && n <= |roots|
    ensures SomeHolds(RootClauses(plan, prefix, roots, kinds, writing, n), definitions, a)
       <==> ClearRoot(plan, roots, kinds, writing, n, a.path)
  {
    hide RootRequirements, ClearMatch, Holds, Lookup;
    if n > 0 {
      var root, name := roots[n - 1], Numbered(prefix, n - 1);
      var clause := RequireAll(RootRequirements(plan, root, RootFilter(name, kinds(root)), writing));
      RootClausesHold(plan, definitions, prefix, roots, kinds, writing, n - 1, a);
      RootClauseHolds(plan, definitions, name, root, kinds(root), writing, a);
      SomeHoldsAppend(RootClauses(plan, prefix, roots, kinds, writing, n - 1), clause, definitions, a);
    }
  }

  lemma FullClauseHolds(plan: Plan, definitions: seq<Definition>, writing: bool, a: Access)
    requires DenialsResolve(plan, definitions)
    ensures Holds(FullClause(plan, writing), definitions, a)
       <==> [Root] <= a.path && !UnderSome(plan.deniedPaths, a.path)
            && (writing ==> !UnderSome(plan.writeDeniedPaths, a.path))
  {
    var x := FullExclusions("DENIED_PATH", |plan.deniedPaths|);
    var y := if writing then FullExclusions("WRITE_DENIED_PATH", |plan.writeDeniedPaths|) else [];
    assert FullClause(plan, writing) == RequireAll([RootSubpath] + x + y);
    assert Holds(FullClause(plan, writing), definitions, a) <==> AllHold([RootSubpath] + x + y, definitions, a);
    AllHoldAppend([RootSubpath] + x, y, definitions, a);
    AllHoldAppend([RootSubpath], x, definitions, a);
    assert AllHold([RootSubpath], definitions, a) <==> [Root] <= a.path by {
      assert RootSubpath in [RootSubpath];
    }
    FullExclusionsHold(definitions, "DENIED_PATH", plan.deniedPaths, |plan.deniedPaths|, a);
    FullExclusionsHold(definitions, "WRITE_DENIED_PATH", plan.writeDeniedPaths, |plan.writeDeniedPaths|, a);
  }

  lemma AllowRuleApplies(actions: set<Action>, filters: seq<Filter>, definitions: seq<Definition>, op: Operation,
                         a: Access)
    ensures SomeApplies(AllowRule(actions, filters), definitions, op, a)
       <==> Concerns(Rule(true, actions, filters), op) && SomeHolds(filters, definitions, a)
  {
    if filters != [] {
      SomeAppliesOne(Rule(true, actions, filters), definitions, op, a);
    }
  }

  // ----- ancestor lists -----

  lemma {:induction false} AncestorsAre(p: Path, x: Path)
    ensures x in Ancestors(p) <==> IsAncestor(x, p)
    decreases |p|
  {
    if p == [] || p == [Root] {
      assert x <= p ==> x == p || x == [];
    } else {
      var up := p[..|p| - 1];
      AncestorsAre(up, x);
      assert x in Ancestors(p) <==> x == p || x in Ancestors(up);
      if x <= p && x != p {
        assert x == p[..|x|] == up[..|x|];
      }
      if x <= up {
        assert x == up[..|x|] == p[..|x|];
      }
      if p[0] == Root {
        assert up != [] && up[0] == Root;
      }
    }
  }

  lemma ParentAncestorsAre(p: Path, x: Path)
    ensures x in ParentAncestors(p) <==> x != p && IsAncestor(x, p)
  {
    AncestorsAre(p, x);
    if p == [] || p == [Root] {
      assert x <= p ==> x == p || x == [];
    } else {
      var up := p[..|p| - 1];
      AncestorsAre(up, x);
      assert x in Ancestors(p) <==> x == p || x in Ancestors(up);
    }
  }

  lemma {:induction false} AddNewAdds(known: seq<Path>, more: seq<Path>, x: Path)
    ensures x in AddNew(known, more) <==> x in known || x in more
    decreases |more|
  {
    if more != [] {
      AddNewAdds(if more[0] in known then known else known + [more[0]], more[1..], x);
      assert more == [more[0]] + more[1..];
    }
  }

  lemma {:induction false} KeepWithinKeeps(paths: seq<Path>, roots: seq<Path>, x: Path)
    ensures x in KeepWithin(paths, roots) <==> x in paths && InsideSome(x, roots)
  {
    hide InsideSome, WithinSome;
    if paths != [] {
      InsideIsWithin(paths[0], roots);
      KeepWithinKeeps(paths[1..], roots, x);
      assert paths == [paths[0]] + paths[1..];
    }
  }

  lemma {:induction false} MetadataAncestorsAre(roots: seq<Path>, n: nat, x: Path)
    requires n <= |roots|
    ensures x in MetadataAncestors(roots, n) <==> AncestorOfSome(x, roots, n)
  {
    hide AddNew, Ancestors, IsAncestor;
    if n > 0 {
      MetadataAncestorsAre(roots, n - 1, x);
      AddNewAdds(MetadataAncestors(roots, n - 1), Ancestors(roots[n - 1]), x);
      AncestorsAre(roots[n - 1], x);
    }
  }

  lemma {:induction false} ProtectedAncestorsAre(protectedPaths: seq<Path>, writeRoots: seq<Path>, n: nat, x: Path)
    requires n <= |protectedPaths|
    ensures x in ProtectedAncestors(protectedPaths, writeRoots, n)
       <==> ProtectedAncestor(protectedPaths, writeRoots, n, x)
  {
    hide AddNew, ParentAncestors, KeepWithin, IsAncestor, InsideSome;
    if n > 0 {
      var last := protectedPaths[n - 1];
      ProtectedAncestorsAre(protectedPaths, writeRoots, n - 1, x);
      AddNewAdds(ProtectedAncestors(protectedPaths, writeRoots, n - 1), KeepWithin(ParentAncestors(last), writeRoots), x);
      KeepWithinKeeps(ParentAncestors(last), writeRoots, x);
      ParentAncestorsAre(last, x);
    }
  }

  // ----- deny segments -----

  predicate IsRead(op: Operation) { op.ReadData? || op.ReadMetadata? }

  predicate IsWrite(op: Operation) { op.WriteData? || op.WriteCreate? || op.WriteUnlink? }

  lemma DenyRuleApplies(action: Action, filter: Filter, definitions: seq<Definition>, op: Operation, a: Access)
    ensures Applies(DenyRule(action, filter), definitions, op, a)
       <==> Includes(action, op) && Holds(filter, definitions, a)
  {
    var r := DenyRule(action, filter);
    assert Concerns(r, op) <==> Includes(action, op) by {
      assert action in r.actions;
    }
    assert SomeHolds(r.anyOf, definitions, a) <==> Holds(filter, definitions, a) by {
      assert filter in r.anyOf;
    }
  }

  lemma AppendDeny(rules: seq<Rule>, action: Action, filter: Filter, definitions: seq<Definition>, op: Operation,
                   a: Access)
    ensures SomeApplies(rules + [DenyRule(action, filter)], definitions, op, a)
       <==> SomeApplies(rules, definitions, op, a) || (Includes(action, op) && Holds(filter, definitions, a))
    ensures AllDeny(rules) ==> AllDeny(rules + [DenyRule(action, filter)])
  {
    SomeAppliesAppend(rules, [DenyRule(action, filter)], definitions, op, a);
    SomeAppliesOne(DenyRule(action, filter), definitions, op, a);
    DenyRuleApplies(action, filter, definitions, op, a);
  }

  lemma BothHold(f: Filter, g: Filter, definitions: seq<Definition>, a: Access)
    ensures Holds(RequireAll([f, g]), definitions, a) <==> Holds(f, definitions, a) && Holds(g, definitions, a)
  {
    assert f in [f, g] && g in [f, g];
  }

  lemma {:induction false} GlobAncestorRulesDeny(ancestors: seq<string>, n: nat, definitions: seq<Definition>,
                                                 op: Operation, a: Access)
    requires n <= |ancestors|
    ensures AllDeny(GlobAncestorRules(ancestors, n))
    ensures SomeApplies(GlobAncestorRules(ancestors, n), definitions, op, a)
       <==> op.WriteUnlink? && a.directory && SomeAncestorAccepts(ancestors, n, a.path)
  {
    if n > 0 {
      var regex := Matching(ExactGlobRegex(ancestors[n - 1]));
      GlobAncestorRulesDeny(ancestors, n - 1, definitions, op, a);
      AppendDeny(GlobAncestorRules(ancestors, n - 1), FileWriteUnlink, RequireAll([IsDirectory, regex]), definitions, op, a);
      BothHold(IsDirectory, regex, definitions, a);
      ExactGlobFilterHolds(ancestors[n - 1], definitions, a);
    }
  }

  ghost predicate GlobHits(pattern: string, op: Operation, a: Access) {
    || ((IsRead(op) || IsWrite(op)) && GlobDenies(pattern, a.path))
    || (op.WriteUnlink? && a.directory && GlobAncestor(pattern, a.path))
  }

  lemma GlobRulesDeny(pattern: string, definitions: seq<Definition>, op: Operation, a: Access)
    ensures AllDeny(GlobRules(pattern))
    ensures SomeApplies(GlobRules(pattern), definitions, op, a) <==> GlobHits(pattern, op, a)
  {
    hide TextAncestors, Holds, GlobDenies, Applies, SomeApplies, GlobAncestor, SomeAncestorAccepts;
    AncestorsAreCuts(pattern, a.path);
    var filter, ancestors := Matching(GlobRegex(pattern)), TextAncestors(pattern);
    var r0 := [DenyRule(FileRead, filter)];
    var r1 := r0 + [DenyRule(FileWrite, filter)];
    var r2 := r1 + [DenyRule(FileWriteCreate, filter)];
    var r3 := r2 + [DenyRule(FileWriteUnlink, filter)];
    SomeAppliesOne(DenyRule(FileRead, filter), definitions, op, a);
    DenyRuleApplies(FileRead, filter, definitions, op, a);
    AppendDeny(r0, FileWrite, filter, definitions, op, a);
    AppendDeny(r1, FileWriteCreate, filter, definitions, op, a);
    AppendDeny(r2, FileWriteUnlink, filter, definitions, op, a);
    GlobAncestorRulesDeny(ancestors, |ancestors|, definitions, op, a);
    SomeAppliesAppend(r3, GlobAncestorRules(ancestors, |ancestors|), definitions, op, a);
    assert GlobRules(pattern) == r3 + GlobAncestorRules(ancestors, |ancestors|);
    GlobFilterHolds(pattern, definitions, a);
  }

  lemma {:induction false} AllGlobRulesDeny(globs: seq<string>, n: nat, definitions: seq<Definition>, op: Operation,
                                            a: Access)
    requires n <= |globs|
    ensures AllDeny(AllGlobRules(globs, n))
    ensures SomeApplies(AllGlobRules(globs, n), definitions, op, a)
       <==> exists k :: 0 <= k < n && GlobHits(globs[k], op, a)
  {
    hide GlobRules, GlobHits, Applies;
    if n > 0 {
      AllGlobRulesDeny(globs, n - 1, definitions, op, a);
      GlobRulesDeny(globs[n - 1], definitions, op, a);
      SomeAppliesAppend(AllGlobRules(globs, n - 1), GlobRules(globs[n - 1]), definitions, op, a);
    }
  }

  ghost predicate LiteralHolds(definitions: seq<Definition>, prefix: string, i: nat, path: Path) {
    Lookup(definitions, Numbered(prefix, i)) == Some(path)
  }

  lemma {:induction false} AnchorRulesDeny(prefix: string, n: nat, definitions: seq<Definition>, op: Operation, a: Access)
    ensures AllDeny(AnchorRules(prefix, n))
    ensures SomeApplies(AnchorRules(prefix, n), definitions, op, a)
       <==> op.WriteUnlink? && a.directory && exists k :: 0 <= k < n && LiteralHolds(definitions, prefix, k, a.path)
  {
    if n > 0 {
      var root := Literal(Numbered(prefix, n - 1));
      AnchorRulesDeny(prefix, n - 1, definitions, op, a);
      AppendDeny(AnchorRules(prefix, n - 1), FileWriteUnlink, RequireAll([root, IsDirectory]), definitions, op, a);
      BothHold(root, IsDirectory, definitions, a);
      assert Holds(root, definitions, a) <==> LiteralHolds(definitions, prefix, n - 1, a.path);
    }
  }

  lemma {:induction false} ProtectedRulesDeny(prefix: string, n: nat, definitions: seq<Definition>, op: Operation, a: Access)
    ensures AllDeny(ProtectedRules(prefix, n))
    ensures SomeApplies(ProtectedRules(prefix, n), definitions, op, a)
       <==> op.WriteUnlink? && a.directory
            && exists k :: 0 <= k < n && LiteralHolds(definitions, prefix, k, a.path)
  {
    if n > 0 {
      var ancestor := Literal(Numbered(prefix, n - 1));
      ProtectedRulesDeny(prefix, n - 1, definitions, op, a);
      AppendDeny(ProtectedRules(prefix, n - 1), FileWriteUnlink, RequireAll([IsDirectory, ancestor]), definitions, op, a);
      BothHold(IsDirectory, ancestor, definitions, a);
      assert Holds(ancestor, definitions, a) <==> LiteralHolds(definitions, prefix, n - 1, a.path);
    }
  }

  lemma AppendDenied(rules: seq<Rule>, filter: Filter, definitions: seq<Definition>, op: Operation, a: Access)
    requires AllDeny(rules)
    ensures var all := rules + [DenyRule(FileRead, filter), DenyRule(FileWrite, filter), DenyRule(FileWriteUnlink, filter)];
      && AllDeny(all)
      && (SomeApplies(all, definitions, op, a) <==>
          SomeApplies(rules, definitions, op, a) || ((IsRead(op) || IsWrite(op)) && Holds(filter, definitions, a)))
  {
    var r1 := rules + [DenyRule(FileRead, filter)];
    var r2 := r1 + [DenyRule(FileWrite, filter)];
    AppendDeny(rules, FileRead, filter, definitions, op, a);
    AppendDeny(r1, FileWrite, filter, definitions, op, a);
    AppendDeny(r2, FileWriteUnlink, filter, definitions, op, a);
    assert rules + [DenyRule(FileRead, filter), DenyRule(FileWrite, filter), DenyRule(FileWriteUnlink, filter)]
        == r2 + [DenyRule(FileWriteUnlink, filter)];
  }

  lemma AppendWriteDenied(rules: seq<Rule>, filter: Filter, definitions: seq<Definition>, op: Operation, a: Access)
    requires AllDeny(rules)
    ensures var all := rules + [DenyRule(FileWrite, filter), DenyRule(FileWriteUnlink, filter)];
      && AllDeny(all)
      && (SomeApplies(all, definitions, op, a) <==>
          SomeApplies(rules, definitions, op, a) || (IsWrite(op) && Holds(filter, definitions, a)))
  {
    var r1 := rules + [DenyRule(FileWrite, filter)];
    AppendDeny(rules, FileWrite, filter, definitions, op, a);
    AppendDeny(r1, FileWriteUnlink, filter, definitions, op, a);
    assert rules + [DenyRule(FileWrite, filter), DenyRule(FileWriteUnlink, filter)]
        == r1 + [DenyRule(FileWriteUnlink, filter)];
  }

  lemma {:induction false} DeniedRulesDeny(prefix: string, paths: seq<Path>, n: nat, definitions: seq<Definition>, op: Operation,
                                           a: Access)
    requires Resolves(definitions, prefix, paths) && n <= |paths|
    ensures AllDeny(DeniedRules(prefix, n))
    ensures SomeApplies(DeniedRules(prefix, n), definitions, op, a)
       <==> (IsRead(op) || IsWrite(op)) && UnderFirst(paths, n, a.path)
  {
    hide Applies, Numbered, Lookup;
    if n > 0 {
      DeniedRulesDeny(prefix, paths, n - 1, definitions, op, a);
      AppendDenied(DeniedRules(prefix, n - 1), Subpath(Numbered(prefix, n - 1)), definitions, op, a);
    }
  }

  lemma {:induction false} WriteDeniedRulesDeny(prefix: string, paths: seq<Path>, n: nat, definitions: seq<Definition>, op: Operation,
                                                a: Access)
    requires Resolves(definitions, prefix, paths) && n <= |paths|
    ensures AllDeny(WriteDeniedRules(prefix, n))
    ensures SomeApplies(WriteDeniedRules(prefix, n), definitions, op, a) <==> IsWrite(op) && UnderFirst(paths, n, a.path)
  {
    hide Applies, Numbered, Lookup;
    if n > 0 {
      WriteDeniedRulesDeny(prefix, paths, n - 1, definitions, op, a);
      AppendWriteDenied(WriteDeniedRules(prefix, n - 1), Subpath(Numbered(prefix, n - 1)), definitions, op, a);
    }
  }

  // ----- the deny half of a profile -----

  /** Some listed path equals `path`, seen through its parameter. */
  lemma LiteralsResolve(plan: Plan, prefix: string, n: nat, path: Path)
    requires |Defined(plan, prefix)| <= n
    ensures (exists k :: 0 <= k < n && LiteralHolds(FilesystemDefinitions(plan), prefix, k, path))
       <==> path in Defined(plan, prefix)
  {
    var definitions, paths := FilesystemDefinitions(plan), Defined(plan, prefix);
    if k :| 0 <= k < n && LiteralHolds(definitions, prefix, k, path) {
      ParameterResolves(plan, prefix, k);
    }
    if path in paths {
      var k :| 0 <= k < |paths| && paths[k] == path;
      ParameterResolves(plan, prefix, k);
      assert LiteralHolds(definitions, prefix, k, path);
    }
  }

  /** The accesses a plan forbids, whatever it allows. */
  ghost predicate Forbidden(plan: Plan, op: Operation, a: Access) {
    || (IsRead(op) && Denied(plan, a.path))
    || (IsWrite(op) && WriteDenied(plan, a.path))
    || (op.WriteUnlink? && a.directory && Pinned(plan, a.path))
  }

  lemma GlobSegment(globs: seq<string>, definitions: seq<Definition>, op: Operation, a: Access)
    ensures AllDeny(AllGlobRules(globs, |globs|))
    ensures SomeApplies(AllGlobRules(globs, |globs|), definitions, op, a) <==>
      || ((IsRead(op) || IsWrite(op)) && GlobDenied(globs, a.path))
      || (op.WriteUnlink? && a.directory && GlobPinned(globs, a.path))
  {
    AllGlobRulesDeny(globs, |globs|, definitions, op, a);
    if (IsRead(op) || IsWrite(op)) && GlobDenied(globs, a.path) {
      var k :| 0 <= k < |globs| && GlobDenies(globs[k], a.path);
      assert GlobHits(globs[k], op, a);
    }
    if op.WriteUnlink? && a.directory && GlobPinned(globs, a.path) {
      var k :| 0 <= k < |globs| && GlobAncestor(globs[k], a.path);
      assert GlobHits(globs[k], op, a);
    }
  }

  lemma AnchorSegment(plan: Plan, op: Operation, a: Access)
    ensures var rules := AnchorRules("WRITE_ROOT", |plan.writeRoots|);
      && AllDeny(rules)
      && (SomeApplies(rules, FilesystemDefinitions(plan), op, a) <==>
          op.WriteUnlink? && a.directory && !plan.unrestricted && a.path in plan.writeRoots)
  {
    DefinedNames(plan);
    hide FilesystemDefinitions, Defined, AnchorRules, SomeApplies;
    AnchorRulesDeny("WRITE_ROOT", |plan.writeRoots|, FilesystemDefinitions(plan), op, a);
    LiteralsResolve(plan, "WRITE_ROOT", |plan.writeRoots|, a.path);
  }

  lemma ProtectedSegment(plan: Plan, op: Operation, a: Access)
    ensures var rules := ProtectedRules("PROTECTED_ANCESTOR", |ProtectedPaths(plan)|);
      && AllDeny(rules)
      && (SomeApplies(rules, FilesystemDefinitions(plan), op, a) <==>
          op.WriteUnlink? && a.directory && PlanProtectedAncestor(plan, a.path))
  {
    DefinedNames(plan);
    hide FilesystemDefinitions, Defined, ProtectedRules, ProtectedAncestors, ProtectedAncestor, SomeApplies;
    var protectedPaths := plan.deniedPaths + plan.writeDeniedPaths;
    ProtectedRulesDeny("PROTECTED_ANCESTOR", |ProtectedPaths(plan)|, FilesystemDefinitions(plan), op, a);
    LiteralsResolve(plan, "PROTECTED_ANCESTOR", |ProtectedPaths(plan)|, a.path);
    ProtectedAncestorsAre(protectedPaths, plan.writeRoots, |protectedPaths|, a.path);
  }

  lemma PathSegments(plan: Plan, op: Operation, a: Access)
    ensures var rules := DeniedRules("DENIED_PATH", |plan.deniedPaths|);
      && AllDeny(rules)
      && (SomeApplies(rules, FilesystemDefinitions(plan), op, a) <==>
          (IsRead(op) || IsWrite(op)) && UnderSome(plan.deniedPaths, a.path))
    ensures var rules := WriteDeniedRules("WRITE_DENIED_PATH", |plan.writeDeniedPaths|);
      && AllDeny(rules)
      && (SomeApplies(rules, FilesystemDefinitions(plan), op, a) <==>
          IsWrite(op) && UnderSome(plan.writeDeniedPaths, a.path))
  {
    var definitions := FilesystemDefinitions(plan);
    PlanResolves(plan, "DENIED_PATH");
    DeniedRulesDeny("DENIED_PATH", plan.deniedPaths, |plan.deniedPaths|, definitions, op, a);
    PlanResolves(plan, "WRITE_DENIED_PATH");
    WriteDeniedRulesDeny("WRITE_DENIED_PATH", plan.writeDeniedPaths, |plan.writeDeniedPaths|, definitions, op, a);
  }

  lemma FiveSegments(r0: seq<Rule>, r1: seq<Rule>, r2: seq<Rule>, r3: seq<Rule>, r4: seq<Rule>,
                     definitions: seq<Definition>, op: Operation, a: Access)
    ensures SomeApplies(r0 + r1 + r2 + r3 + r4, definitions, op, a) <==>
      || SomeApplies(r0, definitions, op, a) || SomeApplies(r1, definitions, op, a)
      || SomeApplies(r2, definitions, op, a) || SomeApplies(r3, definitions, op, a)
      || SomeApplies(r4, definitions, op, a)
  {
    SomeAppliesAppend(r0 + r1 + r2 + r3, r4, definitions, op, a);
    SomeAppliesAppend(r0 + r1 + r2, r3, definitions, op, a);
    SomeAppliesAppend(r0 + r1, r2, definitions, op, a);
    SomeAppliesAppend(r0, r1, definitions, op, a);
  }

  lemma DenyHalf(plan: Plan, op: Operation, a: Access)
    ensures AllDeny(DenyRules(plan))
    ensures SomeApplies(DenyRules(plan), FilesystemDefinitions(plan), op, a) <==> Forbidden(plan, op, a)
  {
    var definitions := FilesystemDefinitions(plan);
    GlobSegment(plan.deniedGlobs, definitions, op, a);
    AnchorSegment(plan, op, a);
    ProtectedSegment(plan, op, a);
    PathSegments(plan, op, a);
    FiveSegments(AllGlobRules(plan.deniedGlobs, |plan.deniedGlobs|), AnchorRules("WRITE_ROOT", |plan.writeRoots|),
                 ProtectedRules("PROTECTED_ANCESTOR", |ProtectedPaths(plan)|),
                 DeniedRules("DENIED_PATH", |plan.deniedPaths|),
                 WriteDeniedRules("WRITE_DENIED_PATH", |plan.writeDeniedPaths|), definitions, op, a);
  }

  // ----- the allow half of a profile -----

  /** A denied path that contains a root is not among the root's exclusions, so
      only a later deny can stop it; everything else is already excluded. */
  lemma UndeniedRootsAreClear(plan: Plan, roots: seq<Path>, kinds: Path -> RootKind, writing: bool, path: Path)
    requires if writing then !WriteDenied(plan, path) else !Denied(plan, path)
    ensures ClearRoot(plan, roots, kinds, writing, |roots|, path) <==> InRoot(roots, kinds, path)
  {
    forall root ensures Clear(plan, root, writing, path) {
    }
    if InRoot(roots, kinds, path) {
      var k :| 0 <= k < |roots| && RootMatches(roots[k], kinds(roots[k]), path);
      assert ClearMatch(plan, roots[k], kinds(roots[k]), writing, path);
    }
  }

  lemma SingleActionConcerns(action: Action, filters: seq<Filter>, op: Operation)
    ensures Concerns(Rule(true, {action}, filters), op) <==> Includes(action, op)
  {
    assert action in {action};
  }

  lemma RootSegment(plan: Plan, definitions: seq<Definition>, prefix: string, roots: seq<Path>,
                    kinds: Path -> RootKind, writing: bool, action: Action, op: Operation, a: Access)
    requires DenialsResolve(plan, definitions) && Resolves(definitions, prefix, roots)
    ensures SomeApplies(AllowRule({action}, RootClauses(plan, prefix, roots, kinds, writing, |roots|)), definitions, op, a)
       <==> Includes(action, op) && ClearRoot(plan, roots, kinds, writing, |roots|, a.path)
  {
    var filters := RootClauses(plan, prefix, roots, kinds, writing, |roots|);
    RootClausesHold(plan, definitions, prefix, roots, kinds, writing, |roots|, a);
    AllowRuleApplies({action}, filters, definitions, op, a);
    SingleActionConcerns(action, filters, op);
  }

  lemma LiteralsHold(prefix: string, n: nat, definitions: seq<Definition>, a: Access)
    ensures SomeHolds(Literals(prefix, n), definitions, a)
       <==> exists k :: 0 <= k < n && LiteralHolds(definitions, prefix, k, a.path)
  {
    var filters := Literals(prefix, n);
    if k :| 0 <= k < n && LiteralHolds(definitions, prefix, k, a.path) {
      assert filters[k] in filters && Holds(filters[k], definitions, a);
    }
    if SomeHolds(filters, definitions, a) {
      var f :| f in filters && Holds(f, definitions, a);
      var k :| 0 <= k < n && filters[k] == f;
      assert LiteralHolds(definitions, prefix, k, a.path);
    }
  }

  /** The path is a read or executable root of the plan, or above one. */
  ghost predicate RootAncestor(plan: Plan, path: Path) {
    var roots := plan.readRoots + plan.executableRoots;
    AncestorOfSome(path, roots, |roots|)
  }

  lemma MetadataSegment(plan: Plan, op: Operation, a: Access)
    requires !plan.unrestricted
    ensures SomeApplies(AllowRule({FileReadMetadata, FileTestExistence},
                                  Literals("ROOT_METADATA_ANCESTOR", |MetadataPaths(plan)|)),
                        FilesystemDefinitions(plan), op, a)
       <==> (op.ReadMetadata? || op.TestExistence?) && RootAncestor(plan, a.path)
  {
    DefinedNames(plan);
    hide FilesystemDefinitions, Defined, MetadataAncestors, Literals, SomeApplies, SomeHolds, LiteralHolds, AllowRule,
      AncestorOfSome;
    var definitions := FilesystemDefinitions(plan);
    var roots := plan.readRoots + plan.executableRoots;
    var actions := {FileReadMetadata, FileTestExistence};
    var filters := Literals("ROOT_METADATA_ANCESTOR", |MetadataPaths(plan)|);
    AllowRuleApplies(actions, filters, definitions, op, a);
    assert FileReadMetadata in actions && FileTestExistence in actions;
    LiteralsHold("ROOT_METADATA_ANCESTOR", |MetadataPaths(plan)|, definitions, a);
    LiteralsResolve(plan, "ROOT_METADATA_ANCESTOR", |MetadataPaths(plan)|, a.path);
    MetadataAncestorsAre(roots, |roots|, a.path);
  }

  lemma FullSegment(plan: Plan, op: Operation, a: Access)
    requires plan.unrestricted
    ensures SomeApplies(ScopeRules(plan, AlwaysDirectory), FilesystemDefinitions(plan), op, a) <==>
      && [Root] <= a.path && !UnderSome(plan.deniedPaths, a.path)
      && (IsRead(op) || (IsWrite(op) && !UnderSome(plan.writeDeniedPaths, a.path)))
  {
    hide FilesystemDefinitions, DenialsResolve, FullClause, UnderFirst, Holds;
    var definitions := FilesystemDefinitions(plan);
    var read := Rule(true, {FileRead}, [FullClause(plan, false)]);
    var write := Rule(true, {FileWrite}, [FullClause(plan, true)]);
    PlanDenialsResolve(plan);
    FullClauseHolds(plan, definitions, false, a);
    FullClauseHolds(plan, definitions, true, a);
    SomeAppliesAppend([read], [write], definitions, op, a);
    assert [read] + [write] == [read, write];
    SomeAppliesOne(read, definitions, op, a);
    SomeAppliesOne(write, definitions, op, a);
    SingleActionConcerns(FileRead, read.anyOf, op);
    SingleActionConcerns(FileWrite, write.anyOf, op);
    SomeHoldsAppend([], FullClause(plan, false), definitions, a);
    SomeHoldsAppend([], FullClause(plan, true), definitions, a);
    assert [] + [FullClause(plan, false)] == read.anyOf && [] + [FullClause(plan, true)] == write.anyOf;
  }

  lemma ScopeSegment(plan: Plan, kinds: Path -> RootKind, op: Operation, a: Access)
    requires !plan.unrestricted
    ensures SomeApplies(ScopeRules(plan, kinds), FilesystemDefinitions(plan), op, a) <==>
      || (IsRead(op) && ClearRoot(plan, plan.readRoots, kinds, false, |plan.readRoots|, a.path))
      || (IsWrite(op) && ClearRoot(plan, plan.writeRoots, kinds, true, |plan.writeRoots|, a.path))
      || ((op.ReadMetadata? || op.TestExistence?) && RootAncestor(plan, a.path))
  {
    DefinedNames(plan);
    hide FilesystemDefinitions, Defined, Resolves, DenialsResolve, RootClauses, AllowRule, SomeApplies, ClearRoot,
      RootAncestor, MetadataPaths;
    PlanDenialsResolve(plan);
    var definitions := FilesystemDefinitions(plan);
    var r0 := AllowRule({FileRead}, RootClauses(plan, "READ_ROOT", plan.readRoots, kinds, false, |plan.readRoots|));
    var r1 := AllowRule({FileWrite}, RootClauses(plan, "WRITE_ROOT", plan.writeRoots, kinds, true, |plan.writeRoots|));
    var r2 := AllowRule({FileReadMetadata, FileTestExistence},
                        Literals("ROOT_METADATA_ANCESTOR", |MetadataPaths(plan)|));
    PlanResolves(plan, "READ_ROOT");
    PlanResolves(plan, "WRITE_ROOT");
    RootSegment(plan, definitions, "READ_ROOT", plan.readRoots, kinds, false, FileRead, op, a);
    RootSegment(plan, definitions, "WRITE_ROOT", plan.writeRoots, kinds, true, FileWrite, op, a);
    MetadataSegment(plan, op, a);
    SomeAppliesAppend(r0 + r1, r2, definitions, op, a);
    SomeAppliesAppend(r0, r1, definitions, op, a);
  }

  /** Code under an executable root may be mapped unless a denied path inside
      that root contains it or a denied glob covers it. */
  ghost predicate Mappable(plan: Plan, path: Path) {
    ClearRoot(plan, plan.executableRoots, AlwaysDirectory, false, |plan.executableRoots|, path)
  }

  /** The accesses a plan grants, unless it forbids them. */
  ghost predicate Granted(plan: Plan, kinds: Path -> RootKind, op: Operation, a: Access) {
    || (IsRead(op) && Readable(plan, kinds, a.path))
    || (IsWrite(op) && Writable(plan, kinds, a.path))
    || ((op.ReadMetadata? || op.TestExistence?) && !plan.unrestricted && RootAncestor(plan, a.path))
    || (op.MapExecutable? && Mappable(plan, a.path))
  }

  lemma AllowRulesAllow(plan: Plan, kinds: Path -> RootKind)
    ensures AllAllow(AllowRules(plan, kinds))
  {
    hide FilesystemDefinitions, RootClauses, Literals, MetadataPaths, FullClause;
  }

  lemma AllowHalf(plan: Plan, kinds: Path -> RootKind, op: Operation, a: Access)
    requires !Forbidden(plan, op, a)
    ensures SomeApplies(AllowRules(plan, kinds), FilesystemDefinitions(plan), op, a) <==> Granted(plan, kinds, op, a)
  {
    DefinedNames(plan);
    hide FilesystemDefinitions, Defined, Resolves, DenialsResolve, RootClauses, AllowRule, SomeApplies, ClearRoot, InRoot, GlobDenied, UnderFirst, RootAncestor;
    var definitions := FilesystemDefinitions(plan);
    SomeAppliesAppend(ScopeRules(plan, kinds), ExecutableRules(plan), definitions, op, a);
    PlanDenialsResolve(plan);
    PlanResolves(plan, "EXECUTABLE_ROOT");
    RootSegment(plan, definitions, "EXECUTABLE_ROOT", plan.executableRoots, AlwaysDirectory, false, FileMapExecutable, op, a);
    if plan.unrestricted {
      FullSegment(plan, op, a);
      assert ScopeRules(plan, kinds) == ScopeRules(plan, AlwaysDirectory);
    } else {
      ScopeSegment(plan, kinds, op, a);
      if IsRead(op) {
        UndeniedRootsAreClear(plan, plan.readRoots, kinds, false, a.path);
      }
      if IsWrite(op) {
        UndeniedRootsAreClear(plan, plan.writeRoots, kinds, true, a.path);
      }
    }
  }

  // ----- the whole profile -----

  /** Last-match-wins evaluation of the profile is the plan: what it forbids is
      denied, what else it grants is allowed, and nothing more is decided. */
  lemma ProfileDecides(plan: Plan, kinds: Path -> RootKind, op: Operation, a: Access)
    ensures Decide(FilesystemRules(plan, kinds), FilesystemDefinitions(plan), op, a) ==
      if Forbidden(plan, op, a) then Deny
      else if Granted(plan, kinds, op, a) then Allow
      else Unmatched
  {
    hide AllowRules, DenyRules, FilesystemDefinitions, Forbidden, Granted, SomeApplies, Decide;
    DenyHalf(plan, op, a);
    AllowRulesAllow(plan, kinds);
    AllowsThenDenies(AllowRules(plan, kinds), DenyRules(plan), FilesystemDefinitions(plan), op, a);
    if !Forbidden(plan, op, a) {
      AllowHalf(plan, kinds, op, a);
    }
  }

  /** Reading file contents. */
  lemma ReadDataDecision(plan: Plan, kinds: Path -> RootKind, a: Access)
    requires !plan.unrestricted
    ensures Decide(FilesystemRules(plan, kinds), FilesystemDefinitions(plan), ReadData, a) == Allow
       <==> && InRoot(plan.readRoots, kinds, a.path)
            && !UnderSome(plan.deniedPaths, a.path)
            && !GlobDenied(plan.deniedGlobs, a.path)
  {
    hide FilesystemRules, FilesystemDefinitions, Decide, InRoot, GlobDenied, UnderFirst, Mappable;
    ProfileDecides(plan, kinds, ReadData, a);
  }

  /** Writing file contents. */
  lemma WriteDataDecision(plan: Plan, kinds: Path -> RootKind, a: Access)
    requires !plan.unrestricted
    ensures Decide(FilesystemRules(plan, kinds), FilesystemDefinitions(plan), WriteData, a) == Allow
       <==> && InRoot(plan.writeRoots, kinds, a.path)
            && !UnderSome(plan.deniedPaths, a.path)
            && !GlobDenied(plan.deniedGlobs, a.path)
            && !UnderSome(plan.writeDeniedPaths, a.path)
  {
    hide FilesystemRules, FilesystemDefinitions, Decide, InRoot, GlobDenied, UnderFirst, Mappable;
    ProfileDecides(plan, kinds, WriteData, a);
  }

  // ----- every referenced parameter is defined -----

  /** Every parameter the filter names has a definition. */
  predicate FilterDefined(f: Filter, definitions: seq<Definition>)
    decreases f
  {
    match f
    case Literal(param) => Lookup(definitions, param).Some?
    case Subpath(param) => Lookup(definitions, param).Some?
    case RequireNot(filter) => FilterDefined(filter, definitions)
    case RequireAll(filters) => forall g :: g in filters ==> FilterDefined(g, definitions)
    case _ => true
  }

  predicate FiltersDefined(filters: seq<Filter>, definitions: seq<Definition>) {
    forall f :: f in filters ==> FilterDefined(f, definitions)
  }

  predicate RulesDefined(rules: seq<Rule>, definitions: seq<Definition>) {
    forall r :: r in rules ==> FiltersDefined(r.anyOf, definitions)
  }

  lemma RulesDefinedAppend(x: seq<Rule>, y: seq<Rule>, definitions: seq<Definition>)
    ensures RulesDefined(x + y, definitions) <==> RulesDefined(x, definitions) && RulesDefined(y, definitions)
  {
    assert forall r :: r in x + y <==> r in x || r in y;
  }

  lemma {:induction false} ExclusionsDefined(definitions: seq<Definition>, prefix: string, paths: seq<Path>, root: Path,
                                             n: nat)
    requires Resolves(definitions, prefix, paths) && n <= |paths|
    ensures FiltersDefined(Exclusions(prefix, paths, root, n), definitions)
    ensures FiltersDefined(FullExclusions(prefix, n), definitions)
  {
    if n > 0 {
      ExclusionsDefined(definitions, prefix, paths, root, n - 1);
      assert Lookup(definitions, Numbered(prefix, n - 1)).Some?;
      var name := Numbered(prefix, n - 1);
      assert FilterDefined(Literal(name), definitions) && FilterDefined(Subpath(name), definitions);
      assert FiltersDefined(PathExclusion(prefix, n - 1), definitions);
    }
  }

  lemma RequirementsDefined(plan: Plan, definitions: seq<Definition>, root: Path, name: string, kind: RootKind,
                            writing: bool)
    requires DenialsResolve(plan, definitions) && Lookup(definitions, name).Some?
    ensures FilterDefined(RequireAll(RootRequirements(plan, root, RootFilter(name, kind), writing)), definitions)
  {
    hide Exclusions, Resolves, Lookup, IsWithin;
    ExclusionsDefined(definitions, "DENIED_PATH", plan.deniedPaths, root, |plan.deniedPaths|);
    ExclusionsDefined(definitions, "WRITE_DENIED_PATH", plan.writeDeniedPaths, root, |plan.writeDeniedPaths|);
    assert FilterDefined(RootFilter(name, kind), definitions);
    assert FiltersDefined(GlobExclusions(plan.deniedGlobs), definitions) by {
      forall k | 0 <= k < |plan.deniedGlobs| ensures FilterDefined(GlobExclusions(plan.deniedGlobs)[k], definitions) {
        assert FilterDefined(Matching(GlobRegex(plan.deniedGlobs[k])), definitions);
      }
    }
    assert FiltersDefined(RootRequirements(plan, root, RootFilter(name, kind), writing), definitions);
  }

  lemma {:induction false} RootClausesDefined(plan: Plan, definitions: seq<Definition>, prefix: string,
                                              roots: seq<Path>, kinds: Path -> RootKind, writing: bool, n: nat)
    requires DenialsResolve(plan, definitions) && Resolves(definitions, prefix, roots) && n <= |roots|
    ensures FiltersDefined(RootClauses(plan, prefix, roots, kinds, writing, n), definitions)
  {
    hide FilterDefined, RootRequirements, DenialsResolve;
    if n > 0 {
      RootClausesDefined(plan, definitions, prefix, roots, kinds, writing, n - 1);
      assert Lookup(definitions, Numbered(prefix, n - 1)).Some?;
      RequirementsDefined(plan, definitions, roots[n - 1], Numbered(prefix, n - 1), kinds(roots[n - 1]), writing);
    }
  }

  lemma FullClauseDefined(plan: Plan, definitions: seq<Definition>, writing: bool)
    requires DenialsResolve(plan, definitions)
    ensures FilterDefined(FullClause(plan, writing), definitions)
  {
    ExclusionsDefined(definitions, "DENIED_PATH", plan.deniedPaths, [], |plan.deniedPaths|);
    ExclusionsDefined(definitions, "WRITE_DENIED_PATH", plan.writeDeniedPaths, [], |plan.writeDeniedPaths|);
  }

  lemma PairDefined(f: Filter, g: Filter, definitions: seq<Definition>)
    requires FilterDefined(f, definitions) && FilterDefined(g, definitions)
    ensures FilterDefined(RequireAll([f, g]), definitions)
  {
  }

  lemma {:induction false} GlobRulesDefined(globs: seq<string>, n: nat, definitions: seq<Definition>)
    requires n <= |globs|
    ensures RulesDefined(AllGlobRules(globs, n), definitions)
  {
    hide TextAncestors, GlobAncestorRules, GlobRegex;
    if n > 0 {
      GlobRulesDefined(globs, n - 1, definitions);
      var ancestors := TextAncestors(globs[n - 1]);
      GlobAncestorRulesDefined(ancestors, |ancestors|, definitions);
      assert FilterDefined(Matching(GlobRegex(globs[n - 1])), definitions);
      assert RulesDefined(GlobRules(globs[n - 1]), definitions);
    }
  }

  lemma {:induction false} GlobAncestorRulesDefined(ancestors: seq<string>, n: nat, definitions: seq<Definition>)
    requires n <= |ancestors|
    ensures RulesDefined(GlobAncestorRules(ancestors, n), definitions)
  {
    if n > 0 {
      GlobAncestorRulesDefined(ancestors, n - 1, definitions);
      PairDefined(IsDirectory, Matching(ExactGlobRegex(ancestors[n - 1])), definitions);
    }
  }

  lemma RuleDefined(action: Action, filter: Filter, definitions: seq<Definition>)
    requires FilterDefined(filter, definitions)
    ensures FiltersDefined(DenyRule(action, filter).anyOf, definitions)
  {
  }

  lemma {:induction false} NumberedRulesDefined(definitions: seq<Definition>, prefix: string, paths: seq<Path>, n: nat)
    requires Resolves(definitions, prefix, paths) && n <= |paths|
    ensures RulesDefined(AnchorRules(prefix, n), definitions)
    ensures RulesDefined(ProtectedRules(prefix, n), definitions)
    ensures RulesDefined(DeniedRules(prefix, n), definitions)
    ensures RulesDefined(WriteDeniedRules(prefix, n), definitions)
  {
    hide Numbered, Lookup, FiltersDefined;
    if n > 0 {
      NumberedRulesDefined(definitions, prefix, paths, n - 1);
      var root, subpath := Literal(Numbered(prefix, n - 1)), Subpath(Numbered(prefix, n - 1));
      assert Lookup(definitions, Numbered(prefix, n - 1)).Some?;
      PairDefined(root, IsDirectory, definitions);
      PairDefined(IsDirectory, root, definitions);
      RuleDefined(FileWriteUnlink, RequireAll([root, IsDirectory]), definitions);
      RuleDefined(FileWriteUnlink, RequireAll([IsDirectory, root]), definitions);
      RuleDefined(FileRead, subpath, definitions);
      RuleDefined(FileWrite, subpath, definitions);
      RuleDefined(FileWriteUnlink, subpath, definitions);
    }
  }

  lemma LiteralsDefined(definitions: seq<Definition>, prefix: string, paths: seq<Path>)
    requires Resolves(definitions, prefix, paths)
    ensures FiltersDefined(Literals(prefix, |paths|), definitions)
  {
    hide Numbered, Lookup;
    forall k | 0 <= k < |paths| ensures FilterDefined(Literals(prefix, |paths|)[k], definitions) {
      assert Lookup(definitions, Numbered(prefix, k)).Some?;
    }
  }

  /** An anchor denial names its writable root. */
  lemma AnchorsNameTheirRoots(prefix: string, n: nat, definitions: seq<Definition>)
    requires n > 0 && RulesDefined(AnchorRules(prefix, n), definitions)
    ensures Lookup(definitions, Numbered(prefix, n - 1)).Some?
  {
    var root := Literal(Numbered(prefix, n - 1));
    var last := DenyRule(FileWriteUnlink, RequireAll([root, IsDirectory]));
    assert last in AnchorRules(prefix, n);
    assert last.anyOf[0] in last.anyOf;
    assert root in [root, IsDirectory];
    assert FilterDefined(root, definitions);
  }

  lemma AllowRulesDefined(plan: Plan, kinds: Path -> RootKind)
    ensures RulesDefined(AllowRules(plan, kinds), FilesystemDefinitions(plan))
  {
    DefinedNames(plan);
    hide FilesystemDefinitions, Defined, RootClauses, FullClause, FilterDefined, Literals, MetadataPaths, Resolves;
    var definitions := FilesystemDefinitions(plan);
    PlanResolves(plan, "DENIED_PATH");
    PlanResolves(plan, "WRITE_DENIED_PATH");
    PlanResolves(plan, "EXECUTABLE_ROOT");
    RootClausesDefined(plan, definitions, "EXECUTABLE_ROOT", plan.executableRoots, AlwaysDirectory, false,
                       |plan.executableRoots|);
    if plan.unrestricted {
      FullClauseDefined(plan, definitions, false);
      FullClauseDefined(plan, definitions, true);
    } else {
      PlanResolves(plan, "READ_ROOT");
      PlanResolves(plan, "WRITE_ROOT");
      PlanResolves(plan, "ROOT_METADATA_ANCESTOR");
      RootClausesDefined(plan, definitions, "READ_ROOT", plan.readRoots, kinds, false, |plan.readRoots|);
      RootClausesDefined(plan, definitions, "WRITE_ROOT", plan.writeRoots, kinds, true, |plan.writeRoots|);
      LiteralsDefined(definitions, "ROOT_METADATA_ANCESTOR", MetadataPaths(plan));
    }
  }

  lemma DenyRulesDefined(plan: Plan)
    ensures RulesDefined(DenyRules(plan), FilesystemDefinitions(plan))
       <==> RulesDefined(AnchorRules("WRITE_ROOT", |plan.writeRoots|), FilesystemDefinitions(plan))
  {
    hide FilesystemDefinitions, AllGlobRules, AnchorRules, ProtectedRules, DeniedRules, WriteDeniedRules, RulesDefined,
      ProtectedPaths;
    var definitions := FilesystemDefinitions(plan);
    var r0 := AllGlobRules(plan.deniedGlobs, |plan.deniedGlobs|);
    var r1 := AnchorRules("WRITE_ROOT", |plan.writeRoots|);
    var r2 := ProtectedRules("PROTECTED_ANCESTOR", |ProtectedPaths(plan)|);
    var r3 := DeniedRules("DENIED_PATH", |plan.deniedPaths|);
    var r4 := WriteDeniedRules("WRITE_DENIED_PATH", |plan.writeDeniedPaths|);
    PlanResolves(plan, "DENIED_PATH");
    PlanResolves(plan, "WRITE_DENIED_PATH");
    PlanResolves(plan, "PROTECTED_ANCESTOR");
    GlobRulesDefined(plan.deniedGlobs, |plan.deniedGlobs|, definitions);
    NumberedRulesDefined(definitions, "PROTECTED_ANCESTOR", ProtectedPaths(plan), |ProtectedPaths(plan)|);
    NumberedRulesDefined(definitions, "DENIED_PATH", plan.deniedPaths, |plan.deniedPaths|);
    NumberedRulesDefined(definitions, "WRITE_DENIED_PATH", plan.writeDeniedPaths, |plan.writeDeniedPaths|);
    RulesDefinedAppend(r0 + r1 + r2 + r3, r4, definitions);
    RulesDefinedAppend(r0 + r1 + r2, r3, definitions);
    RulesDefinedAppend(r0 + r1, r2, definitions);
    RulesDefinedAppend(r0, r1, definitions);
  }

  /** Every parameter a profile names is defined exactly when the plan is
      restricted or has no writable root: the anchor denials are written for any
      plan, but writable roots are defined only for a restricted one. */
  lemma ProfileIsClosed(plan: Plan, kinds: Path -> RootKind)
    ensures RulesDefined(FilesystemRules(plan, kinds), FilesystemDefinitions(plan))
       <==> !plan.unrestricted || plan.writeRoots == []
  {
    hide FilesystemDefinitions, AllowRules, DenyRules, RulesDefined;
    var definitions, n := FilesystemDefinitions(plan), |plan.writeRoots|;
    AllowRulesDefined(plan, kinds);
    DenyRulesDefined(plan);
    RulesDefinedAppend(AllowRules(plan, kinds), DenyRules(plan), definitions);
    PlanResolves(plan, "WRITE_ROOT");
    if !plan.unrestricted || n == 0 {
      NumberedRulesDefined(definitions, "WRITE_ROOT", plan.writeRoots, n);
    } else {
      ParameterResolves(plan, "WRITE_ROOT", n - 1);
      if RulesDefined(AnchorRules("WRITE_ROOT", n), definitions) {
        AnchorsNameTheirRoots("WRITE_ROOT", n, definitions);
      }
    }
  }
}
