/**
 The profile builder: it checks a filesystem plan and appends its rules and path
 definitions step by step.
 */
module SeatbeltBuilder {
  import opened Wrappers
  import opened LexicalPath
  import opened TextPath
  import opened Seatbelt
  import GlobCompiler

  datatype ProfileError =
    | PathContainsNul(path: Path)
    | GlobContainsNul(pattern: string)
    | SymlinkedRoot(path: Path)
    | PathMetadata(path: Path)
    | InvalidDefinitionName(name: string)

  predicate ComponentHasNul(c: Component) {
    (c.Normal? && '\0' in c.name) || (c.Prefix? && '\0' in c.text)
  }

  predicate HasNul(path: Path) {
    exists k :: 0 <= k < |path| && ComponentHasNul(path[k])
  }

  predicate NulFree(definitions: seq<Definition>) {
    forall d :: d in definitions ==> !HasNul(d.value)
  }

  predicate UsableRoots(roots: seq<Path>, kinds: Path -> RootKind) {
    forall k :: 0 <= k < |roots| ==> kinds(roots[k]) != Symlink && kinds(roots[k]) != Unreadable
  }

  predicate GlobsNulFree(globs: seq<string>) {
    forall k :: 0 <= k < |globs| ==> '\0' !in globs[k]
  }

  /** The plans a profile can be built from. */
  predicate Buildable(plan: Plan, kinds: Path -> RootKind) {
    && NulFree(FilesystemDefinitions(plan))
    && GlobsNulFree(plan.deniedGlobs)
    && (!plan.unrestricted ==> UsableRoots(plan.readRoots, kinds) && UsableRoots(plan.writeRoots, kinds))
  }

  lemma NumberedIsValid(prefix: string, index: nat)
    requires '\0' !in prefix
    ensures Numbered(prefix, index) != "" && '\0' !in Numbered(prefix, index)
  {
  }

  /** The deny filter text of one glob, ready for a profile. */
  method GlobText(pattern: string, descendants: bool) returns (text: string)
    ensures text == GlobCompiler.EmitRegex(pattern, descendants, true)
  {
    var regex := GlobCompiler.GlobToSeatbeltRegex(pattern, descendants);
    text := GlobCompiler.EscapeRegexLiteral(regex);
    GlobCompiler.EscapeRegex(pattern, descendants);
  }

  /** Adds the exclusions of one group of paths to a root's requirements. */
  method PushExclusions(requirements: seq<Filter>, prefix: string, excluded: seq<Path>, root: Path)
    returns (r: seq<Filter>)
    ensures r == requirements + Exclusions(prefix, excluded, root, |excluded|)
  {
    r := requirements;
    for k := 0 to |excluded|
      invariant r == requirements + Exclusions(prefix, excluded, root, k)
    {
      var within := WithinRoot(excluded[k], root);
      if within {
        r := r + [RequireNot(Literal(Numbered(prefix, k)))];
        r := r + [RequireNot(Subpath(Numbered(prefix, k)))];
      }
    }
  }

  method PushGlobExclusions(requirements: seq<Filter>, globs: seq<string>) returns (r: seq<Filter>)
    ensures r == requirements + GlobExclusions(globs)
  {
    r := requirements;
    for k := 0 to |globs|
      invariant r == requirements + GlobExclusions(globs)[..k]
    {
      var text := GlobText(globs[k], true);
      r := r + [RequireNot(Matching(text))];
    }
  }

  method RequirementsOf(plan: Plan, root: Path, filter: Filter, writing: bool) returns (r: seq<Filter>)
    ensures r == RootRequirements(plan, root, filter, writing)
  {
    r := PushExclusions([filter], "DENIED_PATH", plan.deniedPaths, root);
    r := PushGlobExclusions(r, plan.deniedGlobs);
    if writing {
      r := PushExclusions(r, "WRITE_DENIED_PATH", plan.writeDeniedPaths, root);
    }
  }

  /** The distinct ancestors of some paths, each listed once. */
  method CollectAncestors(roots: seq<Path>) returns (ancestors: seq<Path>)
    ensures ancestors == MetadataAncestors(roots, |roots|)
  {
    ancestors := [];
    for k := 0 to |roots|
      invariant ancestors == MetadataAncestors(roots, k)
    {
      ancestors := InsertAll(ancestors, Ancestors(roots[k]));
    }
  }

  method InsertAll(known: seq<Path>, more: seq<Path>) returns (r: seq<Path>)
    ensures r == AddNew(known, more)
  {
    r := known;
    assert more[0..] == more;
    for k := 0 to |more|
      invariant AddNew(known, more) == AddNew(r, more[k..])
    {
      assert more[k..][1..] == more[k + 1..];
      if more[k] !in r {
        r := r + [more[k]];
      }
    }
  }

  method CollectWithin(paths: seq<Path>, roots: seq<Path>) returns (r: seq<Path>)
    ensures r == KeepWithin(paths, roots)
  {
    r := [];
    for k := 0 to |paths|
      invariant KeepWithin(paths, roots) == r + KeepWithin(paths[k..], roots)
    {
      assert paths[k..][1..] == paths[k + 1..];
      if WithinSome(paths[k], roots) {
        r := r + [paths[k]];
      }
    }
    assert r + [] == r;
  }

  method CollectProtected(plan: Plan) returns (r: seq<Path>)
    ensures r == ProtectedPaths(plan)
  {
    var protectedPaths := plan.deniedPaths + plan.writeDeniedPaths;
    r := [];
    for k := 0 to |protectedPaths|
      invariant r == ProtectedAncestors(protectedPaths, plan.writeRoots, k)
    {
      var kept := CollectWithin(ParentAncestors(protectedPaths[k]), plan.writeRoots);
      r := InsertAll(r, kept);
    }
  }

  class ProfileBuilder {
    var policy: seq<Rule>
    var definitions: seq<Definition>

    constructor ()
      ensures policy == [] && definitions == []
    {
      policy, definitions := [], [];
    }

    method AddDefinition(name: string, value: Path) returns (r: Outcome<ProfileError>)
      modifies this`definitions
      ensures r.Pass? <==> !HasNul(value) && name != "" && '\0' !in name
      ensures r.Pass? ==> definitions == old(definitions) + [Definition(name, value)]
      ensures r.Fail? ==> definitions == old(definitions)
      ensures r.Fail? ==> r.error == if HasNul(value) then PathContainsNul(value) else InvalidDefinitionName(name)
    {
      if HasNul(value) {
        return Fail(PathContainsNul(value));
      }
      if name == "" || '\0' in name {
        return Fail(InvalidDefinitionName(name));
      }
      definitions := definitions + [Definition(name, value)];
      return Pass;
    }

    /** Defines every path of one group. */
    method AddDefinitions(prefix: string, paths: seq<Path>) returns (r: Outcome<ProfileError>)
      requires '\0' !in prefix
      modifies this`definitions
      ensures r.Pass? <==> NulFree(Definitions(prefix, paths))
      ensures r.Pass? ==> definitions == old(definitions) + Definitions(prefix, paths)
    {
      ghost var all := Definitions(prefix, paths);
      for k := 0 to |paths|
        invariant definitions == old(definitions) + all[..k]
        invariant NulFree(all[..k])
      {
        assert all[k] in all && all[..k + 1] == all[..k] + [all[k]];
        :- AddDefinition(Numbered(prefix, k), paths[k]);
      }
      assert all[..|paths|] == all;
      return Pass;
    }

    /** Defines one root and builds its allow clause. */
    method AddRoot(plan: Plan, name: string, root: Path, kind: RootKind, writing: bool)
      returns (r: Result<Filter, ProfileError>)
      requires name != "" && '\0' !in name
      modifies this`definitions
      ensures r.Success? <==> !HasNul(root) && kind != Symlink && kind != Unreadable
      ensures r.Success? ==>
        && definitions == old(definitions) + [Definition(name, root)]
        && r.value == RequireAll(RootRequirements(plan, root, RootFilter(name, kind), writing))
      ensures r.Failure? ==>
        r.error == if HasNul(root) then PathContainsNul(root) else if kind == Symlink then SymlinkedRoot(root) else PathMetadata(root)
    {
      var defined := AddDefinition(name, root);
      if defined.Fail? {
        return Failure(defined.error);
      }
      if kind == Symlink {
        return Failure(SymlinkedRoot(root));
      }
      if kind == Unreadable {
        return Failure(PathMetadata(root));
      }
      var requirements := RequirementsOf(plan, root, if kind == File then Literal(name) else Subpath(name), writing);
      return Success(RequireAll(requirements));
    }

    /** Allows an action under every root, with its exclusions. */
    method AddRoots(plan: Plan, action: Action, prefix: string, roots: seq<Path>, kinds: Path -> RootKind, writing: bool)
      returns (r: Outcome<ProfileError>)
      requires '\0' !in prefix
      modifies this
      ensures r.Pass? <==> NulFree(Definitions(prefix, roots)) && UsableRoots(roots, kinds)
      ensures r.Pass? ==>
        && policy == old(policy) + AllowRule({action}, RootClauses(plan, prefix, roots, kinds, writing, |roots|))
        && definitions == old(definitions) + Definitions(prefix, roots)
    {
      hide RootRequirements, HasNul, Numbered, RootFilter;
      ghost var all := Definitions(prefix, roots);
      var clauses := [];
      for k := 0 to |roots|
        invariant policy == old(policy) && definitions == old(definitions) + all[..k]
        invariant NulFree(all[..k])
        invariant forall j :: 0 <= j < k ==> kinds(roots[j]) != Symlink && kinds(roots[j]) != Unreadable
        invariant clauses == RootClauses(plan, prefix, roots, kinds, writing, k)
      {
        NumberedIsValid(prefix, k);
        assert all[k] in all && all[..k + 1] == all[..k] + [all[k]];
        var clause := AddRoot(plan, Numbered(prefix, k), roots[k], kinds(roots[k]), writing);
        if clause.Failure? {
          return Fail(clause.error);
        }
        clauses := clauses + [clause.value];
      }
      assert all[..|roots|] == all;
      if roots != [] {
        policy := policy + [Rule(true, {action}, clauses)];
      } else {
        assert old(policy) + [] == old(policy);
      }
      return Pass;
    }

    method AddFullRoot(plan: Plan, action: Action, writing: bool)
      modifies this`policy
      ensures policy == old(policy) + [Rule(true, {action}, [FullClause(plan, writing)])]
    {
      var requirements := [RootSubpath];
      for k := 0 to |plan.deniedPaths|
        invariant policy == old(policy)
        invariant requirements == [RootSubpath] + FullExclusions("DENIED_PATH", k)
      {
        requirements := requirements + PathExclusion("DENIED_PATH", k);
      }
      ghost var before := requirements;
      assert before + [] == before;
      if writing {
        for k := 0 to |plan.writeDeniedPaths|
          invariant policy == old(policy)
          invariant requirements == before + FullExclusions("WRITE_DENIED_PATH", k)
        {
          requirements := requirements + PathExclusion("WRITE_DENIED_PATH", k);
        }
      }
      policy := policy + [Rule(true, {action}, [RequireAll(requirements)])];
    }

    method AddRootMetadataAncestors(plan: Plan) returns (r: Outcome<ProfileError>)
      modifies this
      ensures r.Pass? <==> NulFree(Definitions("ROOT_METADATA_ANCESTOR", MetadataPaths(plan)))
      ensures r.Pass? ==>
        && policy == old(policy) + AllowRule({FileReadMetadata, FileTestExistence},
                                             Literals("ROOT_METADATA_ANCESTOR", |MetadataPaths(plan)|))
        && definitions == old(definitions) + Definitions("ROOT_METADATA_ANCESTOR", MetadataPaths(plan))
    {
      var ancestors := CollectAncestors(plan.readRoots + plan.executableRoots);
      :- AddDefinitions("ROOT_METADATA_ANCESTOR", ancestors);
      if ancestors != [] {
        policy := policy + [Rule(true, {FileReadMetadata, FileTestExistence},
                                 Literals("ROOT_METADATA_ANCESTOR", |ancestors|))];
      } else {
        assert old(policy) + [] == old(policy);
      }
      return Pass;
    }

    /** Denies everything one glob covers, and the removal of its ancestors. */
    method AddGlobRules(pattern: string)
      modifies this`policy
      ensures policy == old(policy) + GlobRules(pattern)
    {
      var text := GlobText(pattern, true);
      var filter := Matching(text);
      policy := policy + [DenyRule(FileRead, filter), DenyRule(FileWrite, filter),
                          DenyRule(FileWriteCreate, filter), DenyRule(FileWriteUnlink, filter)];
      ghost var before := policy;
      var ancestors := TextAncestors(pattern);
      for k := 0 to |ancestors|
        invariant policy == before + GlobAncestorRules(ancestors, k)
      {
        var exact := GlobText(ancestors[k], false);
        policy := policy + [DenyRule(FileWriteUnlink, RequireAll([IsDirectory, Matching(exact)]))];
      }
    }

    method AddDeniedGlobRules(globs: seq<string>) returns (r: Outcome<ProfileError>)
      modifies this`policy
      ensures r.Pass? <==> GlobsNulFree(globs)
      ensures r.Pass? ==> policy == old(policy) + AllGlobRules(globs, |globs|)
      ensures r.Fail? ==> exists k :: 0 <= k < |globs| && '\0' in globs[k] && r.error == GlobContainsNul(globs[k])
    {
      for k := 0 to |globs|
        invariant policy == old(policy) + AllGlobRules(globs, k)
        invariant forall j :: 0 <= j < k ==> '\0' !in globs[j]
      {
        if '\0' in globs[k] {
          return Fail(GlobContainsNul(globs[k]));
        }
        AddGlobRules(globs[k]);
      }
      return Pass;
    }

    method AddWritableRootAnchorDenies(roots: seq<Path>)
      modifies this`policy
      ensures policy == old(policy) + AnchorRules("WRITE_ROOT", |roots|)
    {
      for k := 0 to |roots|
        invariant policy == old(policy) + AnchorRules("WRITE_ROOT", k)
      {
        policy := policy
        + [DenyRule(FileWriteUnlink, RequireAll([Literal(Numbered("WRITE_ROOT", k)), IsDirectory]))];
      }
    }

    method AddProtectedAncestorDenies(plan: Plan) returns (r: Outcome<ProfileError>)
      modifies this
      ensures r.Pass? <==> NulFree(Definitions("PROTECTED_ANCESTOR", ProtectedPaths(plan)))
      ensures r.Pass? ==>
        && policy == old(policy) + ProtectedRules("PROTECTED_ANCESTOR", |ProtectedPaths(plan)|)
        && definitions == old(definitions) + Definitions("PROTECTED_ANCESTOR", ProtectedPaths(plan))
    {
      var ancestors := CollectProtected(plan);
      :- AddDefinitions("PROTECTED_ANCESTOR", ancestors);
      for k := 0 to |ancestors|
        invariant definitions == old(definitions) + Definitions("PROTECTED_ANCESTOR", ancestors)
        invariant policy == old(policy) + ProtectedRules("PROTECTED_ANCESTOR", k)
      {
        policy := policy
        + [DenyRule(FileWriteUnlink, RequireAll([IsDirectory, Literal(Numbered("PROTECTED_ANCESTOR", k))]))];
      }
      return Pass;
    }

    method AddPathDenies(plan: Plan)
      modifies this`policy
      ensures policy == old(policy) + DeniedRules("DENIED_PATH", |plan.deniedPaths|)
                        + WriteDeniedRules("WRITE_DENIED_PATH", |plan.writeDeniedPaths|)
    {
      hide Numbered;
      for k := 0 to |plan.deniedPaths|
        invariant policy == old(policy) + DeniedRules("DENIED_PATH", k)
      {
        var filter := Subpath(Numbered("DENIED_PATH", k));
        policy := policy + [DenyRule(FileRead, filter), DenyRule(FileWrite, filter), DenyRule(FileWriteUnlink, filter)];
      }
      ghost var before := policy;
      for k := 0 to |plan.writeDeniedPaths|
        invariant policy == before + WriteDeniedRules("WRITE_DENIED_PATH", k)
      {
        var filter := Subpath(Numbered("WRITE_DENIED_PATH", k));
        policy := policy + [DenyRule(FileWrite, filter), DenyRule(FileWriteUnlink, filter)];
      }
    }

    /** The scope rules of the plan: full roots, or each root with its exclusions. */
    method AddScopes(plan: Plan, kinds: Path -> RootKind) returns (r: Outcome<ProfileError>)
      modifies this
      ensures r.Pass? <==> NulFree(ScopeDefinitions(plan))
                           && (!plan.unrestricted ==> UsableRoots(plan.readRoots, kinds) && UsableRoots(plan.writeRoots, kinds))
      ensures r.Pass? ==>
        && policy == old(policy) + ScopeRules(plan, kinds)
        && definitions == old(definitions) + ScopeDefinitions(plan)
    {
      hide RootClauses, FullClause, Literals, MetadataPaths, Definitions, AllowRule, UsableRoots;
      if plan.unrestricted {
        AddFullRoot(plan, FileRead, false);
        AddFullRoot(plan, FileWrite, true);
        assert definitions == old(definitions) + ScopeDefinitions(plan);
      } else {
        ghost var x, y := Definitions("READ_ROOT", plan.readRoots), Definitions("WRITE_ROOT", plan.writeRoots);
        ghost var z := Definitions("ROOT_METADATA_ANCESTOR", MetadataPaths(plan));
        assert forall d :: d in x + y + z <==> d in x || d in y || d in z;
        :- AddRoots(plan, FileRead, "READ_ROOT", plan.readRoots, kinds, false);
        :- AddRoots(plan, FileWrite, "WRITE_ROOT", plan.writeRoots, kinds, true);
        :- AddRootMetadataAncestors(plan);
      }
      return Pass;
    }

    method AddDenialDefinitions(plan: Plan) returns (r: Outcome<ProfileError>)
      modifies this`definitions
      ensures r.Pass? <==>
        && NulFree(Definitions("DENIED_PATH", plan.deniedPaths))
        && NulFree(Definitions("WRITE_DENIED_PATH", plan.writeDeniedPaths))
      ensures r.Pass? ==>
        definitions == old(definitions) + Definitions("DENIED_PATH", plan.deniedPaths)
                       + Definitions("WRITE_DENIED_PATH", plan.writeDeniedPaths)
    {
      hide Definitions, NulFree;
      :- AddDefinitions("DENIED_PATH", plan.deniedPaths);
      :- AddDefinitions("WRITE_DENIED_PATH", plan.writeDeniedPaths);
      return Pass;
    }

    /** The allow half: denied paths are only defined here, scopes and executables are allowed. */
    method AddAllows(plan: Plan, kinds: Path -> RootKind) returns (r: Outcome<ProfileError>)
      modifies this
      ensures r.Pass? <==>
        && NulFree(Definitions("DENIED_PATH", plan.deniedPaths))
        && NulFree(Definitions("WRITE_DENIED_PATH", plan.writeDeniedPaths))
        && NulFree(ScopeDefinitions(plan))
        && NulFree(Definitions("EXECUTABLE_ROOT", plan.executableRoots))
        && (!plan.unrestricted ==> UsableRoots(plan.readRoots, kinds) && UsableRoots(plan.writeRoots, kinds))
      ensures r.Pass? ==>
        && policy == old(policy) + AllowRules(plan, kinds)
        && definitions == old(definitions)
             + Definitions("DENIED_PATH", plan.deniedPaths)
             + Definitions("WRITE_DENIED_PATH", plan.writeDeniedPaths)
             + ScopeDefinitions(plan)
             + Definitions("EXECUTABLE_ROOT", plan.executableRoots)
    {
      assert UsableRoots(plan.executableRoots, AlwaysDirectory);
      hide ScopeRules, ScopeDefinitions, RootClauses, Definitions, UsableRoots, NulFree, AllowRule;
      :- AddDenialDefinitions(plan);
      :- AddScopes(plan, kinds);
      :- AddRoots(plan, FileMapExecutable, "EXECUTABLE_ROOT", plan.executableRoots, AlwaysDirectory, false);
      return Pass;
    }

    method AddDenies(plan: Plan) returns (r: Outcome<ProfileError>)
      modifies this
      ensures r.Pass? <==>
        GlobsNulFree(plan.deniedGlobs) && NulFree(Definitions("PROTECTED_ANCESTOR", ProtectedPaths(plan)))
      ensures r.Pass? ==>
        && policy == old(policy) + DenyRules(plan)
        && definitions == old(definitions) + Definitions("PROTECTED_ANCESTOR", ProtectedPaths(plan))
    {
      hide AllGlobRules, AnchorRules, ProtectedRules, DeniedRules, WriteDeniedRules, ProtectedPaths, Definitions,
        GlobsNulFree, NulFree;
      :- AddDeniedGlobRules(plan.deniedGlobs);
      AddWritableRootAnchorDenies(plan.writeRoots);
      :- AddProtectedAncestorDenies(plan);
      AddPathDenies(plan);
      return Pass;
    }

    /** Appends the rules and definitions of the whole plan, or fails if it cannot be built. */
    method AddFilesystem(plan: Plan, kinds: Path -> RootKind) returns (r: Outcome<ProfileError>)
      modifies this
      ensures r.Pass? <==> Buildable(plan, kinds)
      ensures r.Pass? ==>
        && policy == old(policy) + FilesystemRules(plan, kinds)
        && definitions == old(definitions) + FilesystemDefinitions(plan)
    {
      hide AllowRules, DenyRules, ScopeDefinitions, ProtectedPaths, Definitions, UsableRoots, GlobsNulFree;
      ghost var x, y := Definitions("DENIED_PATH", plan.deniedPaths), Definitions("WRITE_DENIED_PATH", plan.writeDeniedPaths);
      ghost var z := ScopeDefinitions(plan);
      ghost var v := Definitions("EXECUTABLE_ROOT", plan.executableRoots);
      ghost var w := Definitions("PROTECTED_ANCESTOR", ProtectedPaths(plan));
      assert forall d :: d in x + y + z + v + w <==> d in x || d in y || d in z || d in v || d in w;
      :- AddAllows(plan, kinds);
      :- AddDenies(plan);
      return Pass;
    }
  }
}
