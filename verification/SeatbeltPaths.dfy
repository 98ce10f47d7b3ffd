/** The text of a path names that path, and which plans a profile can be built from, said of texts. */
module SeatbeltPaths {
  import opened LexicalPath
  import opened Seatbelt
  import opened SeatbeltBuilder
  import opened SeatbeltMeaning
  import KeyMeaning

  /** A name that stands for itself between separators. */
  predicate IsName(name: string) {
    name !in ["", ".", ".."] && '/' !in name
  }

  function PathOf(names: seq<string>): (r: Path)
    ensures |r| == |names| + 1
  {
    [Root] + seq(|names|, i requires 0 <= i < |names| => Normal(names[i]))
  }

  function TextOf(names: seq<string>): (r: string) {
    if names == [] then "" else "/" + names[0] + TextOf(names[1..])
  }

  lemma {:induction false} TailIs(names: seq<string>)
    ensures PathTail(PathOf(names)[1..]) == TextOf(names)
  {
    if names != [] {
      TailIs(names[1..]);
      assert PathOf(names)[1..][1..] == PathOf(names[1..])[1..];
    }
  }

  /** The text of an absolute path is a slash before each of its names, and a slash where it has none. */
  lemma PathTextIs(names: seq<string>)
    ensures PathText(PathOf(names)) == if names == [] then "/" else TextOf(names)
  {
    TailIs(names);
    assert PathTail(PathOf(names)) == "" + PathTail(PathOf(names)[1..]);
  }

  lemma {:induction false} PiecesAre(names: seq<string>)
    requires forall k :: 0 <= k < |names| ==> IsName(names[k])
    ensures Split(TextOf(names)) == [""] + names
    decreases |names|
  {
    if names != [] {
      var text, rest := TextOf(names[1..]), names[0] + TextOf(names[1..]);
      PiecesAre(names[1..]);
      assert "/" + names[0] + text == "/" + rest;
      SplitPrepends(names[0], text);
      assert names[0] + "" == names[0];
      SplitSlash("", rest);
      assert "" + "/" + rest == "/" + rest;
      assert names == [names[0]] + names[1..];
    }
  }

  lemma RootReads()
    ensures PosixKey("/") == PathOf([])
  {
    SplitSlash("", "");
    assert "" + "/" + "" == "/" && Split("") == [""];
    assert PosixParts(["", ""]) == [];
    assert PathOf([]) == [Root];
  }

  lemma PathIs(names: seq<string>)
    requires forall k :: 0 <= k < |names| ==> IsName(names[k])
    ensures PathOf(names) == [Root] + KeyMeaning.PosixComponents(names)
  {
  }

  lemma TextReads(names: seq<string>)
    requires names != [] && forall k :: 0 <= k < |names| ==> IsName(names[k])
    ensures PosixKey(TextOf(names)) == PathOf(names)
  {
    assert TextOf(names)[0] == '/';
    hide TextOf, IsName, PosixParts, Split, PathOf;
    PiecesAre(names);
    KeyMeaning.PosixPartsAre([""] + names);
    NamesAre(names);
    PathIs(names);
  }

  /** Reading the text back gives the path: no two paths share a text. */
  lemma PathTextReads(names: seq<string>)
    requires forall k :: 0 <= k < |names| ==> IsName(names[k])
    ensures PosixKey(PathText(PathOf(names))) == PathOf(names)
  {
    hide PosixKey, PathText, PathOf, TextOf, IsName;
    PathTextIs(names);
    if names == [] {
      RootReads();
    } else {
      TextReads(names);
    }
  }

  lemma {:induction false} NamesKept(names: seq<string>)
    requires forall k :: 0 <= k < |names| ==> IsName(names[k])
    ensures KeyMeaning.Names(names, false) == names
  {
    if names != [] {
      NamesKept(names[1..]);
      assert names == [names[0]] + names[1..];
    }
  }

  lemma NamesAre(names: seq<string>)
    requires forall k :: 0 <= k < |names| ==> IsName(names[k])
    ensures KeyMeaning.Names([""] + names, false) == names
  {
    NamesKept(names);
    assert ([""] + names)[1..] == names;
  }

  // ----- plans that can be built -----

  lemma {:induction false} NulIsInTail(path: Path)
    ensures HasNul(path) <==> '\0' in PathTail(path)
  {
    if path != [] {
      NulIsInTail(path[1..]);
      assert path == [path[0]] + path[1..];
      if k :| 0 <= k < |path[1..]| && ComponentHasNul(path[1..][k]) {
        assert path[k + 1] == path[1..][k];
      }
      if k :| 0 <= k < |path| && ComponentHasNul(path[k]) {
        assert k > 0 ==> path[1..][k - 1] == path[k];
      }
    }
  }

  lemma NulIsInText(path: Path)
    ensures HasNul(path) <==> '\0' in PathText(path)
  {
    NulIsInTail(path);
  }

  predicate Clean(paths: seq<Path>) {
    forall p :: p in paths ==> '\0' !in PathText(p)
  }

  lemma DefinitionsClean(prefix: string, paths: seq<Path>)
    ensures NulFree(Definitions(prefix, paths)) <==> Clean(paths)
  {
    hide HasNul, PathText;
    var all := Definitions(prefix, paths);
    forall p ensures HasNul(p) <==> '\0' in PathText(p) { NulIsInText(p); }
    if NulFree(all) {
      forall p | p in paths ensures '\0' !in PathText(p) {
        var k :| 0 <= k < |paths| && paths[k] == p;
        assert all[k] in all;
      }
    }
  }

  lemma AncestorIsClean(path: Path, of: Path)
    requires path <= of && !HasNul(of)
    ensures !HasNul(path)
  {
    assert forall k :: 0 <= k < |path| ==> path[k] == of[k];
  }

  lemma AncestorsClean(paths: seq<Path>, ancestors: seq<Path>)
    requires Clean(paths) && forall x :: x in ancestors ==> exists p :: p in paths && x <= p
    ensures Clean(ancestors)
  {
    forall x | x in ancestors ensures '\0' !in PathText(x) {
      var p :| p in paths && x <= p;
      NulIsInText(p);
      AncestorIsClean(x, p);
      NulIsInText(x);
    }
  }

  lemma MetadataClean(plan: Plan)
    requires Clean(plan.readRoots) && Clean(plan.executableRoots)
    ensures Clean(MetadataPaths(plan))
  {
    hide PathText;
    var roots := plan.readRoots + plan.executableRoots;
    forall x | x in MetadataPaths(plan) ensures exists p :: p in roots && x <= p {
      MetadataAncestorsAre(roots, |roots|, x);
      var k :| 0 <= k < |roots| && IsAncestor(x, roots[k]);
      assert roots[k] in roots;
    }
    AncestorsClean(roots, MetadataPaths(plan));
  }

  lemma ProtectedClean(plan: Plan)
    requires Clean(plan.deniedPaths) && Clean(plan.writeDeniedPaths)
    ensures Clean(ProtectedPaths(plan))
  {
    hide PathText;
    var paths := plan.deniedPaths + plan.writeDeniedPaths;
    forall x | x in ProtectedPaths(plan) ensures exists p :: p in paths && x <= p {
      ProtectedAncestorsAre(paths, plan.writeRoots, |paths|, x);
      var k :| 0 <= k < |paths| && x != paths[k] && IsAncestor(x, paths[k]);
      assert paths[k] in paths;
    }
    AncestorsClean(paths, ProtectedPaths(plan));
  }

  predicate Known(roots: seq<Path>, kinds: Path -> RootKind) {
    forall root :: root in roots ==> kinds(root) in {Directory, File, Missing}
  }

  /** A profile can be built exactly from the plans in which no path and no glob that it uses holds a NUL and, where the
      plan is restricted, every read and write root is a directory, a file or missing. */
  lemma BuildableMeans(plan: Plan, kinds: Path -> RootKind)
    ensures Buildable(plan, kinds) <==>
      && Clean(plan.deniedPaths) && Clean(plan.writeDeniedPaths) && Clean(plan.executableRoots)
      && (forall g :: g in plan.deniedGlobs ==> '\0' !in g)
      && (!plan.unrestricted ==>
            && Clean(plan.readRoots) && Clean(plan.writeRoots)
            && Known(plan.readRoots, kinds) && Known(plan.writeRoots, kinds))
  {
    RootsKnown(plan.readRoots, kinds);
    RootsKnown(plan.writeRoots, kinds);
    DefinitionsOfPlan(plan);
    hide Clean, NulFree, FilesystemDefinitions, UsableRoots, Known;
  }

  lemma RootsKnown(roots: seq<Path>, kinds: Path -> RootKind)
    ensures UsableRoots(roots, kinds) <==> Known(roots, kinds)
  {
    if Known(roots, kinds) {
      forall k | 0 <= k < |roots| ensures kinds(roots[k]) != Symlink && kinds(roots[k]) != Unreadable {
        assert roots[k] in roots;
      }
    }
    if UsableRoots(roots, kinds) {
      forall root | root in roots ensures kinds(root) in {Directory, File, Missing} {
        var k :| 0 <= k < |roots| && roots[k] == root;
      }
    }
  }

  lemma NulFreeAppends(x: seq<Definition>, y: seq<Definition>)
    ensures NulFree(x + y) <==> NulFree(x) && NulFree(y)
  {
    assert forall d :: d in x + y <==> d in x || d in y;
  }

  lemma ScopesClean(plan: Plan)
    requires Clean(plan.executableRoots)
    ensures NulFree(ScopeDefinitions(plan)) <==> plan.unrestricted || (Clean(plan.readRoots) && Clean(plan.writeRoots))
  {
    hide Clean, NulFree, Definitions, MetadataPaths;
    if plan.unrestricted {
      NothingIsClean();
    } else {
      var x, y := Definitions("READ_ROOT", plan.readRoots), Definitions("WRITE_ROOT", plan.writeRoots);
      var z := Definitions("ROOT_METADATA_ANCESTOR", MetadataPaths(plan));
      NulFreeAppends(x + y, z);
      NulFreeAppends(x, y);
      DefinitionsClean("READ_ROOT", plan.readRoots);
      DefinitionsClean("WRITE_ROOT", plan.writeRoots);
      DefinitionsClean("ROOT_METADATA_ANCESTOR", MetadataPaths(plan));
      if Clean(plan.readRoots) {
        MetadataClean(plan);
      }
    }
  }

  lemma NothingIsClean()
    ensures NulFree([])
  {
  }

  lemma DefinitionsOfPlan(plan: Plan)
    ensures NulFree(FilesystemDefinitions(plan)) <==>
      && Clean(plan.deniedPaths) && Clean(plan.writeDeniedPaths) && Clean(plan.executableRoots)
      && (plan.unrestricted || (Clean(plan.readRoots) && Clean(plan.writeRoots)))
  {
    hide Clean, NulFree, Definitions, ScopeDefinitions, ProtectedPaths;
    var x, y := Definitions("DENIED_PATH", plan.deniedPaths), Definitions("WRITE_DENIED_PATH", plan.writeDeniedPaths);
    var z, v := ScopeDefinitions(plan), Definitions("EXECUTABLE_ROOT", plan.executableRoots);
    var w := Definitions("PROTECTED_ANCESTOR", ProtectedPaths(plan));
    NulFreeAppends(x + y + z + v, w);
    NulFreeAppends(x + y + z, v);
    NulFreeAppends(x + y, z);
    NulFreeAppends(x, y);
    DefinitionsClean("DENIED_PATH", plan.deniedPaths);
    DefinitionsClean("WRITE_DENIED_PATH", plan.writeDeniedPaths);
    DefinitionsClean("EXECUTABLE_ROOT", plan.executableRoots);
    DefinitionsClean("PROTECTED_ANCESTOR", ProtectedPaths(plan));
    if Clean(plan.executableRoots) {
      ScopesClean(plan);
    }
    if Clean(plan.deniedPaths) && Clean(plan.writeDeniedPaths) {
      ProtectedClean(plan);
    }
  }
}
