/**
 Where the clauses of a profile stop short of its plan: which denied paths the
 exclusions inside an allow miss, what mapping executable code really depends
 on, and inputs at which each shows.
 */
module SeatbeltLimits {
  import opened LexicalPath
  import opened Seatbelt
  import opened SeatbeltMeaning

  /** An absolute path without traversal, as a filesystem plan holds them. */
  predicate Absolute(path: Path) {
    path != [] && path[0] == Root && TraversalFree(path)
  }

  predicate AllAbsolute(paths: seq<Path>) {
    forall k :: 0 <= k < |paths| ==> Absolute(paths[k])
  }

  /** Every listed path over `path` lies strictly above `root`. */
  predicate OnlyAbove(paths: seq<Path>, root: Path, path: Path) {
    forall k :: 0 <= k < |paths| && paths[k] <= path ==> paths[k] < root
  }

  lemma TwoAncestors(x: Path, y: Path, path: Path)
    requires x <= path && y <= path
    ensures x < y || y <= x
  {
    if |x| < |y| {
      assert x == path[..|x|] && y == path[..|y|];
      assert y[..|x|] == x;
    } else {
      assert x == path[..|x|] && y == path[..|y|];
      assert x[..|y|] == y;
    }
  }

  /** Inside a root, the exclusions let a path through exactly when every listed path over it strictly contains
      the root: those, and no others, are left to the denials that follow. */
  lemma ExclusionsMissContainers(excluded: seq<Path>, root: Path, path: Path)
    requires AllAbsolute(excluded) && Absolute(root) && root <= path
    ensures ClearOf(excluded, root, |excluded|, path) <==> OnlyAbove(excluded, root, path)
  {
    forall k | 0 <= k < |excluded| && excluded[k] <= path
      ensures IsWithin(excluded[k], root) <==> !(excluded[k] < root)
    {
      TwoAncestors(excluded[k], root, path);
    }
  }

  /** And there they are denied: a path under any denied path cannot be read or written, in whatever root it is. */
  lemma MissedPathsAreDenied(plan: Plan, kinds: Path -> RootKind, op: Operation, a: Access)
    requires (IsRead(op) || IsWrite(op)) && UnderSome(plan.deniedPaths, a.path)
    ensures Decide(FilesystemRules(plan, kinds), FilesystemDefinitions(plan), op, a) == Deny
  {
    hide FilesystemRules, FilesystemDefinitions, Decide, UnderFirst, Granted;
    ProfileDecides(plan, kinds, op, a);
  }

  // ----- mapping executable code -----

  predicate AbsolutePlan(plan: Plan) {
    AllAbsolute(plan.deniedPaths) && AllAbsolute(plan.executableRoots)
  }

  ghost predicate MapAllowed(plan: Plan, kinds: Path -> RootKind, a: Access) {
    Decide(FilesystemRules(plan, kinds), FilesystemDefinitions(plan), MapExecutable, a) == Allow
  }

  ghost predicate MappableIn(plan: Plan, k: nat, path: Path) {
    && k < |plan.executableRoots| && plan.executableRoots[k] <= path
    && OnlyAbove(plan.deniedPaths, plan.executableRoots[k], path)
  }

  /** No denial of mapping follows the allow, so mapping is decided by the exclusions: code may be mapped exactly in
      an executable root, outside denied globs, where every denied path over it strictly contains that root. */
  lemma MapExecutableDecision(plan: Plan, kinds: Path -> RootKind, a: Access)
    requires AbsolutePlan(plan)
    ensures MapAllowed(plan, kinds, a)
       <==> !GlobDenied(plan.deniedGlobs, a.path) && exists k: nat :: MappableIn(plan, k, a.path)
  {
    ProfileDecides(plan, kinds, MapExecutable, a);
    hide FilesystemRules, FilesystemDefinitions, Decide, GlobDenied, OnlyAbove, ClearOf;
    var roots := plan.executableRoots;
    forall k | 0 <= k < |roots|
      ensures ClearMatch(plan, roots[k], Directory, false, a.path)
         <==> !GlobDenied(plan.deniedGlobs, a.path) && MappableIn(plan, k, a.path)
    {
      if roots[k] <= a.path {
        ExclusionsMissContainers(plan.deniedPaths, roots[k], a.path);
      }
    }
    if ClearRoot(plan, roots, AlwaysDirectory, false, |roots|, a.path) {
      var k :| 0 <= k < |roots| && ClearMatch(plan, roots[k], AlwaysDirectory(roots[k]), false, a.path);
      assert MappableIn(plan, k, a.path);
    }
    if k: nat :| MappableIn(plan, k, a.path) {
      assert !GlobDenied(plan.deniedGlobs, a.path) ==> ClearMatch(plan, roots[k], AlwaysDirectory(roots[k]), false, a.path);
    }
  }

  /** What one would expect of mapping: inside an executable root and outside everything denied. */
  ghost predicate MapExpected(plan: Plan, path: Path) {
    && UnderSome(plan.executableRoots, path)
    && !UnderSome(plan.deniedPaths, path) && !GlobDenied(plan.deniedGlobs, path)
  }

  /** An executable root inside a denied path, some of which nothing else denies. */
  ghost predicate Reopens(plan: Plan, k: nat, d: nat, path: Path) {
    && MappableIn(plan, k, path) && !GlobDenied(plan.deniedGlobs, path)
    && d < |plan.deniedPaths| && plan.deniedPaths[d] < plan.executableRoots[k]
  }

  ghost predicate MappableSomewhere(plan: Plan, path: Path) {
    !GlobDenied(plan.deniedGlobs, path) && exists k: nat :: MappableIn(plan, k, path)
  }

  lemma ExpectedIsMappable(plan: Plan, path: Path)
    requires MapExpected(plan, path)
    ensures MappableSomewhere(plan, path)
  {
    hide GlobDenied;
    var k :| 0 <= k < |plan.executableRoots| && plan.executableRoots[k] <= path;
    assert MappableIn(plan, k, path);
  }

  lemma UnexpectedReopens(plan: Plan, path: Path) returns (k: nat, d: nat)
    requires MappableSomewhere(plan, path) && !MapExpected(plan, path)
    ensures Reopens(plan, k, d, path)
  {
    hide GlobDenied;
    k :| MappableIn(plan, k, path);
    assert UnderFirst(plan.executableRoots, |plan.executableRoots|, path);
    var n :| 0 <= n < |plan.deniedPaths| && plan.deniedPaths[n] <= path;
    d := n;
  }

  lemma ReopenedIsUnexpected(plan: Plan, k: nat, d: nat, path: Path)
    requires Reopens(plan, k, d, path)
    ensures MappableSomewhere(plan, path) && !MapExpected(plan, path)
  {
    hide GlobDenied;
    var denied, root := plan.deniedPaths[d], plan.executableRoots[k];
    assert denied == root[..|denied|] && root == path[..|root|];
    assert path[..|denied|] == denied;
    assert UnderFirst(plan.deniedPaths, |plan.deniedPaths|, path);
  }

  lemma MapExpectedAt(plan: Plan, kinds: Path -> RootKind, a: Access)
    requires AbsolutePlan(plan)
    ensures MapExpected(plan, a.path) ==> MapAllowed(plan, kinds, a)
    ensures MapAllowed(plan, kinds, a) && !MapExpected(plan, a.path) <==> exists k: nat, d: nat :: Reopens(plan, k, d, a.path)
  {
    MapExecutableDecision(plan, kinds, a);
    assert MapAllowed(plan, kinds, a) <==> MappableSomewhere(plan, a.path);
    hide MapAllowed, MapExpected, MappableSomewhere, Reopens;
    if MapExpected(plan, a.path) {
      ExpectedIsMappable(plan, a.path);
    } else if MappableSomewhere(plan, a.path) {
      var k, d := UnexpectedReopens(plan, a.path);
    }
    if k: nat, d: nat :| Reopens(plan, k, d, a.path) {
      ReopenedIsUnexpected(plan, k, d, a.path);
    }
  }

  /** Mapping is what one would expect, on every path, if and only if no executable root inside a denied path has
      a path that nothing else denies. */
  lemma MappingIsAsExpected(plan: Plan, kinds: Path -> RootKind)
    requires AbsolutePlan(plan)
    ensures (forall a: Access :: MapAllowed(plan, kinds, a) <==> MapExpected(plan, a.path))
       <==> forall k: nat, d: nat, path :: !Reopens(plan, k, d, path)
  {
    hide MapAllowed, MapExpected, Reopens;
    forall a: Access
      ensures MapExpected(plan, a.path) ==> MapAllowed(plan, kinds, a)
      ensures MapAllowed(plan, kinds, a) && !MapExpected(plan, a.path) <==> exists k: nat, d: nat :: Reopens(plan, k, d, a.path)
    {
      MapExpectedAt(plan, kinds, a);
    }
    if k: nat, d: nat, path :| Reopens(plan, k, d, path) {
      var a := Access(path, false);
      assert Reopens(plan, k, d, a.path);
      assert MapAllowed(plan, kinds, a) && !MapExpected(plan, a.path);
    }
  }

  predicate InsideDenied(plan: Plan, root: Path) {
    exists d :: 0 <= d < |plan.deniedPaths| && plan.deniedPaths[d] < root
  }

  /** Every executable root inside a denied path is denied itself. */
  predicate RootsInsideAreDenied(plan: Plan) {
    forall k :: 0 <= k < |plan.executableRoots| && InsideDenied(plan, plan.executableRoots[k]) ==>
      plan.executableRoots[k] in plan.deniedPaths
  }

  lemma DeniedRootsAreClosed(plan: Plan, k: nat, d: nat, path: Path)
    requires RootsInsideAreDenied(plan)
    ensures !Reopens(plan, k, d, path)
  {
    hide GlobDenied;
  }

  lemma OpenRootReopens(plan: Plan) returns (k: nat, d: nat)
    requires plan.deniedGlobs == [] && !RootsInsideAreDenied(plan)
    ensures k < |plan.executableRoots| && Reopens(plan, k, d, plan.executableRoots[k])
  {
    var n :| 0 <= n < |plan.executableRoots| && InsideDenied(plan, plan.executableRoots[n])
      && plan.executableRoots[n] !in plan.deniedPaths;
    var m :| 0 <= m < |plan.deniedPaths| && plan.deniedPaths[m] < plan.executableRoots[n];
    k, d := n, m;
    forall e | 0 <= e < |plan.deniedPaths| && plan.deniedPaths[e] <= plan.executableRoots[k]
      ensures plan.deniedPaths[e] < plan.executableRoots[k]
    {
      TwoAncestors(plan.deniedPaths[e], plan.executableRoots[k], plan.executableRoots[k]);
      assert plan.deniedPaths[e] != plan.executableRoots[k];
    }
  }

  /** Without globs the plan itself tells: mapping is as expected if and only if every executable root inside a
      denied path is denied itself. With globs that is still enough. */
  lemma RootsInsideDecide(plan: Plan, kinds: Path -> RootKind)
    requires AbsolutePlan(plan)
    ensures RootsInsideAreDenied(plan) ==> forall a: Access :: MapAllowed(plan, kinds, a) <==> MapExpected(plan, a.path)
    ensures plan.deniedGlobs == [] && (forall a: Access :: MapAllowed(plan, kinds, a) <==> MapExpected(plan, a.path)) ==>
      RootsInsideAreDenied(plan)
  {
    hide AbsolutePlan, MapAllowed, MapExpected, RootsInsideAreDenied, Reopens;
    MappingIsAsExpected(plan, kinds);
    if RootsInsideAreDenied(plan) {
      forall k: nat, d: nat, path ensures !Reopens(plan, k, d, path) {
        DeniedRootsAreClosed(plan, k, d, path);
      }
    } else if plan.deniedGlobs == [] {
      var k, d := OpenRootReopens(plan);
    }
  }

  // ----- inputs at which it shows -----

  const OUTER: Path := [Root, Normal("a")]
  const INNER: Path := [Root, Normal("a"), Normal("b")]
  const REOPENED := Plan([], [], [INNER], [OUTER], [], [], false)

  lemma InnerIsReopened()
    ensures AbsolutePlan(REOPENED) && MappableIn(REOPENED, 0, INNER)
    ensures UnderSome(REOPENED.deniedPaths, INNER) && !GlobDenied(REOPENED.deniedGlobs, INNER)
  {
    assert INNER[..2] == OUTER;
    assert REOPENED.executableRoots[0] == INNER && REOPENED.deniedPaths[0] == OUTER;
  }

  /** Here code under a denied path may be mapped. */
  lemma DeniedCodeMayBeMapped(kinds: Path -> RootKind)
    ensures MapAllowed(REOPENED, kinds, Access(INNER, false)) && UnderSome(REOPENED.deniedPaths, INNER)
  {
    hide MapAllowed, MappableIn, GlobDenied, UnderFirst, AbsolutePlan;
    InnerIsReopened();
    MapExecutableDecision(REOPENED, kinds, Access(INNER, false));
  }

  /** Here a profile names a parameter that nothing defines. */
  lemma UnrestrictedWriteRootIsUndefined(kinds: Path -> RootKind)
    ensures var plan := Plan([], [[Root]], [], [], [], [], true);
      !RulesDefined(FilesystemRules(plan, kinds), FilesystemDefinitions(plan))
  {
    var plan := Plan([], [[Root]], [], [], [], [], true);
    ProfileIsClosed(plan, kinds);
  }
}
