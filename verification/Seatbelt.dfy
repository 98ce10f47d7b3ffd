/**
 Seatbelt filesystem profiles: the rules and path parameters built from a
 filesystem plan, how an ordered rule list decides an access, and what the list
 built from a plan decides.
 */
module Seatbelt {
  import opened Wrappers
  import opened LexicalPath
  import opened TextPath
  import Regex
  import GlobCompiler

  // ----- the profile language -----

  datatype Operation =
    | ReadData | ReadMetadata | TestExistence
    | WriteData | WriteCreate | WriteUnlink
    | MapExecutable

  datatype Action =
    | FileRead                 // file-read*
    | FileReadMetadata
    | FileTestExistence
    | FileWrite                // file-write*
    | FileWriteCreate
    | FileWriteUnlink
    | FileMapExecutable

  predicate Includes(action: Action, op: Operation) {
    match action
    case FileRead => op.ReadData? || op.ReadMetadata?
    case FileReadMetadata => op.ReadMetadata?
    case FileTestExistence => op.TestExistence?
    case FileWrite => op.WriteData? || op.WriteCreate? || op.WriteUnlink?
    case FileWriteCreate => op.WriteCreate?
    case FileWriteUnlink => op.WriteUnlink?
    case FileMapExecutable => op.MapExecutable?
  }

  datatype Filter =
    | Literal(param: string)
    | Subpath(param: string)
    | RootSubpath                          // (subpath "/")
    | Matching(regex: string)
    | IsDirectory                          // (vnode-type DIRECTORY)
    | RequireNot(filter: Filter)
    | RequireAll(filters: seq<Filter>)

  /** One rule applies when any of its filters holds. */
  datatype Rule = Rule(allow: bool, actions: set<Action>, anyOf: seq<Filter>)

  datatype Definition = Definition(name: string, value: Path)

  /** One access by the sandboxed process, as the kernel names it. */
  datatype Access = Access(path: Path, directory: bool)

  datatype Decision = Allow | Deny | Unmatched

  function PathTail(path: Path): (r: string) {
    if path == [] then ""
    else
      (match path[0]
       case Normal(name) => "/" + name
       case Prefix(text) => "/" + text
       case Parent => "/.."
       case Root => "") + PathTail(path[1..])
  }

  function PathText(path: Path): (r: string) {
    if PathTail(path) == "" then "/" else PathTail(path)
  }

  function Lookup(definitions: seq<Definition>, name: string): (r: Option<Path>) {
    if definitions == [] then None
    else if definitions[0].name == name then Some(definitions[0].value)
    else Lookup(definitions[1..], name)
  }

  ghost predicate Holds(f: Filter, definitions: seq<Definition>, a: Access)
    decreases f
  {
    match f
    case Literal(param) => Lookup(definitions, param) == Some(a.path)
    case Subpath(param) => var root := Lookup(definitions, param); root.Some? && root.value <= a.path
    case RootSubpath => [Root] <= a.path
    case Matching(regex) => Regex.Accepts(regex, PathText(a.path))
    case IsDirectory => a.directory
    case RequireNot(filter) => !Holds(filter, definitions, a)
    case RequireAll(filters) => forall g :: g in filters ==> Holds(g, definitions, a)
  }

  ghost predicate SomeHolds(filters: seq<Filter>, definitions: seq<Definition>, a: Access) {
    exists f :: f in filters && Holds(f, definitions, a)
  }

  predicate Concerns(r: Rule, op: Operation) {
    exists action :: action in r.actions && Includes(action, op)
  }

  ghost predicate Applies(r: Rule, definitions: seq<Definition>, op: Operation, a: Access) {
    Concerns(r, op) && SomeHolds(r.anyOf, definitions, a)
  }

  /** The last rule that applies decides. */
  ghost function Decide(rules: seq<Rule>, definitions: seq<Definition>, op: Operation, a: Access): (d: Decision) {
    if rules == [] then Unmatched
    else
      var last := rules[|rules| - 1];
      if Applies(last, definitions, op, a) then (if last.allow then Allow else Deny)
      else Decide(rules[..|rules| - 1], definitions, op, a)
  }

  // ----- parameter names -----

  function Digit(n: nat): (c: char)
    requires n < 10
  {
    "0123456789"[n]
  }

  function Decimal(n: nat): (r: string)
    ensures r != ""
    ensures forall k :: 0 <= k < |r| ==> r[k] != '_' && r[k] != '\0'
  {
    if n < 10 then [Digit(n)] else Decimal(n / 10) + [Digit(n % 10)]
  }

  function Numbered(prefix: string, index: nat): (r: string) {
    prefix + "_" + Decimal(index)
  }

  lemma {:induction false} DecimalInjective(i: nat, j: nat)
    requires Decimal(i) == Decimal(j)
    ensures i == j
  {
    var s := Decimal(i);
    assert s[|s| - 1] == Digit(i % 10) == Digit(j % 10);
    if i >= 10 && j >= 10 {
      assert s[..|s| - 1] == Decimal(i / 10) == Decimal(j / 10);
      DecimalInjective(i / 10, j / 10);
    }
  }

  /** No two parameters share a name. */
  lemma NumberedInjective(p: string, i: nat, q: string, j: nat)
    requires Numbered(p, i) == Numbered(q, j)
    ensures p == q && i == j
  {
    var (s, d, e) := (Numbered(p, i), Decimal(i), Decimal(j));
    assert s[|s| - |d| - 1] == '_' && s[|s| - |e| - 1] == '_';
    assert s[|s| - |d|..] == d && s[|s| - |e|..] == e;
    assert |d| >= |e|;
    assert |d| <= |e|;
    DecimalInjective(i, j);
    assert s[..|s| - |d| - 1] == p && s[..|s| - |e| - 1] == q;
  }

  // ----- the rules of a plan -----

  datatype Plan = Plan(
    readRoots: seq<Path>,
    writeRoots: seq<Path>,
    executableRoots: seq<Path>,
    deniedPaths: seq<Path>,
    writeDeniedPaths: seq<Path>,
    deniedGlobs: seq<string>,
    unrestricted: bool)

  /** What the filesystem says a root is when the profile is built. */
  datatype RootKind = Directory | File | Missing | Symlink | Unreadable

  function Definitions(prefix: string, paths: seq<Path>): (r: seq<Definition>)
    ensures |r| == |paths|
  {
    seq(|paths|, i requires 0 <= i < |paths| => Definition(Numbered(prefix, i), paths[i]))
  }

  function GlobRegex(pattern: string): (r: string) {
    GlobCompiler.EmitRegex(pattern, true, true)
  }

  function ExactGlobRegex(pattern: string): (r: string) {
    GlobCompiler.EmitRegex(pattern, false, true)
  }

  function PathExclusion(prefix: string, index: nat): (r: seq<Filter>) {
    [RequireNot(Literal(Numbered(prefix, index))), RequireNot(Subpath(Numbered(prefix, index)))]
  }

  /** Exclusions for those of the first `n` paths that lie within `root`. */
  function Exclusions(prefix: string, excluded: seq<Path>, root: Path, n: nat): (r: seq<Filter>)
    requires n <= |excluded|
  {
    if n == 0 then []
    else
      Exclusions(prefix, excluded, root, n - 1)
      + if IsWithin(excluded[n - 1], root) then PathExclusion(prefix, n - 1) else []
  }

  function GlobExclusions(globs: seq<string>): (r: seq<Filter>) {
    seq(|globs|, i requires 0 <= i < |globs| => RequireNot(Matching(GlobRegex(globs[i]))))
  }

  function RootFilter(name: string, kind: RootKind): (r: Filter) {
    if kind == File then Literal(name) else Subpath(name)
  }

  function RootRequirements(plan: Plan, root: Path, filter: Filter, writing: bool): (r: seq<Filter>) {
    [filter]
    + Exclusions("DENIED_PATH", plan.deniedPaths, root, |plan.deniedPaths|)
    + GlobExclusions(plan.deniedGlobs)
    + if writing then Exclusions("WRITE_DENIED_PATH", plan.writeDeniedPaths, root, |plan.writeDeniedPaths|) else []
  }

  function RootClauses(plan: Plan, prefix: string, roots: seq<Path>, kinds: Path -> RootKind, writing: bool, n: nat)
    : (r: seq<Filter>)
    requires n <= |roots|
    ensures |r| == n
  {
    if n == 0 then []
    else
      var filter := RootFilter(Numbered(prefix, n - 1), kinds(roots[n - 1]));
      RootClauses(plan, prefix, roots, kinds, writing, n - 1)
      + [RequireAll(RootRequirements(plan, roots[n - 1], filter, writing))]
  }

  function AllowRule(actions: set<Action>, filters: seq<Filter>): (r: seq<Rule>) {
    if filters == [] then [] else [Rule(true, actions, filters)]
  }

  /** Every path of a full root is excluded by name, whether or not it lies anywhere. */
  function FullExclusions(prefix: string, n: nat): (r: seq<Filter>) {
    if n == 0 then [] else FullExclusions(prefix, n - 1) + PathExclusion(prefix, n - 1)
  }

  function FullClause(plan: Plan, writing: bool): (r: Filter) {
    RequireAll([RootSubpath] + FullExclusions("DENIED_PATH", |plan.deniedPaths|)
               + if writing then FullExclusions("WRITE_DENIED_PATH", |plan.writeDeniedPaths|) else [])
  }

  // Ancestors are listed once each, in the order they are first met.

  function Ancestors(path: Path): (r: seq<Path>)
    decreases |path|
  {
    [path] + if path == [] || path == [Root] then [] else Ancestors(path[..|path| - 1])
  }

  function AddNew(known: seq<Path>, more: seq<Path>): (r: seq<Path>)
    decreases |more|
  {
    if more == [] then known
    else AddNew(if more[0] in known then known else known + [more[0]], more[1..])
  }

  function MetadataAncestors(roots: seq<Path>, n: nat): (r: seq<Path>)
    requires n <= |roots|
  {
    if n == 0 then [] else AddNew(MetadataAncestors(roots, n - 1), Ancestors(roots[n - 1]))
  }

  function Literals(prefix: string, n: nat): (r: seq<Filter>)
    ensures |r| == n
  {
    seq(n, i requires 0 <= i < n => Literal(Numbered(prefix, i)))
  }

  predicate WithinSome(path: Path, roots: seq<Path>) {
    exists k :: 0 <= k < |roots| && IsWithin(path, roots[k])
  }

  function KeepWithin(paths: seq<Path>, roots: seq<Path>): (r: seq<Path>) {
    if paths == [] then []
    else (if WithinSome(paths[0], roots) then [paths[0]] else []) + KeepWithin(paths[1..], roots)
  }

  /** The proper ancestors of a protected path. */
  function ParentAncestors(path: Path): (r: seq<Path>) {
    if path == [] || path == [Root] then [] else Ancestors(path[..|path| - 1])
  }

  function ProtectedAncestors(protectedPaths: seq<Path>, writeRoots: seq<Path>, n: nat): (r: seq<Path>)
    requires n <= |protectedPaths|
  {
    if n == 0 then []
    else
      AddNew(ProtectedAncestors(protectedPaths, writeRoots, n - 1),
             KeepWithin(ParentAncestors(protectedPaths[n - 1]), writeRoots))
  }

  function DenyRule(action: Action, filter: Filter): (r: Rule) {
    Rule(false, {action}, [filter])
  }

  function GlobAncestorRules(ancestors: seq<string>, n: nat): (r: seq<Rule>)
    requires n <= |ancestors|
  {
    if n == 0 then []
    else
      GlobAncestorRules(ancestors, n - 1)
      + [DenyRule(FileWriteUnlink, RequireAll([IsDirectory, Matching(ExactGlobRegex(ancestors[n - 1]))]))]
  }

  function GlobRules(pattern: string): (r: seq<Rule>) {
    var filter := Matching(GlobRegex(pattern));
    var ancestors := TextAncestors(pattern);
    [DenyRule(FileRead, filter), DenyRule(FileWrite, filter),
     DenyRule(FileWriteCreate, filter), DenyRule(FileWriteUnlink, filter)]
    + GlobAncestorRules(ancestors, |ancestors|)
  }

  function AllGlobRules(globs: seq<string>, n: nat): (r: seq<Rule>)
    requires n <= |globs|
  {
    if n == 0 then [] else AllGlobRules(globs, n - 1) + GlobRules(globs[n - 1])
  }

  function AnchorRules(prefix: string, n: nat): (r: seq<Rule>) {
    if n == 0 then []
    else
      AnchorRules(prefix, n - 1)
      + [DenyRule(FileWriteUnlink, RequireAll([Literal(Numbered(prefix, n - 1)), IsDirectory]))]
  }

  function ProtectedRules(prefix: string, n: nat): (r: seq<Rule>) {
    if n == 0 then []
    else
      ProtectedRules(prefix, n - 1)
      + [DenyRule(FileWriteUnlink, RequireAll([IsDirectory, Literal(Numbered(prefix, n - 1))]))]
  }

  function DeniedRules(prefix: string, n: nat): (r: seq<Rule>) {
    if n == 0 then []
    else
      var filter := Subpath(Numbered(prefix, n - 1));
      DeniedRules(prefix, n - 1)
      + [DenyRule(FileRead, filter), DenyRule(FileWrite, filter), DenyRule(FileWriteUnlink, filter)]
  }

  function WriteDeniedRules(prefix: string, n: nat): (r: seq<Rule>) {
    if n == 0 then []
    else
      var filter := Subpath(Numbered(prefix, n - 1));
      WriteDeniedRules(prefix, n - 1) + [DenyRule(FileWrite, filter), DenyRule(FileWriteUnlink, filter)]
  }

  function MetadataPaths(plan: Plan): (r: seq<Path>) {
    var roots := plan.readRoots + plan.executableRoots;
    MetadataAncestors(roots, |roots|)
  }

  function ProtectedPaths(plan: Plan): (r: seq<Path>) {
    var protectedPaths := plan.deniedPaths + plan.writeDeniedPaths;
    ProtectedAncestors(protectedPaths, plan.writeRoots, |protectedPaths|)
  }

  function ScopeRules(plan: Plan, kinds: Path -> RootKind): (r: seq<Rule>) {
    if plan.unrestricted then
      [Rule(true, {FileRead}, [FullClause(plan, false)]), Rule(true, {FileWrite}, [FullClause(plan, true)])]
    else
      AllowRule({FileRead}, RootClauses(plan, "READ_ROOT", plan.readRoots, kinds, false, |plan.readRoots|))
      + AllowRule({FileWrite}, RootClauses(plan, "WRITE_ROOT", plan.writeRoots, kinds, true, |plan.writeRoots|))
      + AllowRule({FileReadMetadata, FileTestExistence},
                  Literals("ROOT_METADATA_ANCESTOR", |MetadataPaths(plan)|))
  }

  function AlwaysDirectory(path: Path): (kind: RootKind) { Directory }

  /** Executable roots are always subpaths, whatever the filesystem says they are. */
  function ExecutableRules(plan: Plan): (r: seq<Rule>) {
    AllowRule({FileMapExecutable},
              RootClauses(plan, "EXECUTABLE_ROOT", plan.executableRoots, AlwaysDirectory, false,
                          |plan.executableRoots|))
  }

  function AllowRules(plan: Plan, kinds: Path -> RootKind): (r: seq<Rule>) {
    ScopeRules(plan, kinds) + ExecutableRules(plan)
  }

  function DenyRules(plan: Plan): (r: seq<Rule>) {
    AllGlobRules(plan.deniedGlobs, |plan.deniedGlobs|)
    + AnchorRules("WRITE_ROOT", |plan.writeRoots|)
    + ProtectedRules("PROTECTED_ANCESTOR", |ProtectedPaths(plan)|)
    + DeniedRules("DENIED_PATH", |plan.deniedPaths|)
    + WriteDeniedRules("WRITE_DENIED_PATH", |plan.writeDeniedPaths|)
  }

  function FilesystemRules(plan: Plan, kinds: Path -> RootKind): (r: seq<Rule>) {
    AllowRules(plan, kinds) + DenyRules(plan)
  }

  function ScopeDefinitions(plan: Plan): (r: seq<Definition>) {
    if plan.unrestricted then []
    else
      Definitions("READ_ROOT", plan.readRoots)
      + Definitions("WRITE_ROOT", plan.writeRoots)
      + Definitions("ROOT_METADATA_ANCESTOR", MetadataPaths(plan))
  }

  function FilesystemDefinitions(plan: Plan): (r: seq<Definition>) {
    Definitions("DENIED_PATH", plan.deniedPaths)
    + Definitions("WRITE_DENIED_PATH", plan.writeDeniedPaths)
    + ScopeDefinitions(plan)
    + Definitions("EXECUTABLE_ROOT", plan.executableRoots)
    + Definitions("PROTECTED_ANCESTOR", ProtectedPaths(plan))
  }
}
