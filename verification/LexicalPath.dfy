/**
 Lexical path identity: the traversal scanner, the component keys of both path
 dialects, and containment by component.  Nothing here touches a filesystem.
 */
module LexicalPath {

  datatype Dialect = Posix | Windows

  datatype Component = Prefix(text: string) | Root | Parent | Normal(name: string)

  // ----- splitting -----

  /** The pieces between separators; a text with no separator is one piece. */
  function Split(value: string): (parts: seq<string>)
    ensures parts != []
  {
    if value == "" then [""]
    else
      var rest := Split(value[1..]);
      if value[0] == '/' then [""] + rest else [[value[0]] + rest[0]] + rest[1..]
  }

  predicate IsSeparator(c: char, dialect: Dialect) {
    c == '/' || (dialect == Windows && c == '\\')
  }

  /** The text with every separator of the dialect written as `/`. */
  function Slashed(value: string, dialect: Dialect): (r: string)
    ensures |r| == |value|
  {
    if value == "" then ""
    else [if IsSeparator(value[0], dialect) then '/' else value[0]] + Slashed(value[1..], dialect)
  }

  // ----- the traversal scanner -----

  lemma {:induction false} SplitPrepends(component: string, rest: string)
    requires '/' !in component
    ensures Split(component + rest) == [component + Split(rest)[0]] + Split(rest)[1..]
  {
    if component == "" {
      assert component + rest == rest && component + Split(rest)[0] == Split(rest)[0];
      assert Split(rest) == [Split(rest)[0]] + Split(rest)[1..];
    } else {
      assert (component + rest)[1..] == component[1..] + rest;
      SplitPrepends(component[1..], rest);
      assert [component[0]] + (component[1..] + Split(rest)[0]) == component + Split(rest)[0];
    }
  }

  lemma SlashedSplits(value: string, i: nat, dialect: Dialect)
    requires i < |value|
    ensures Slashed(value[i..], dialect)
         == [if IsSeparator(value[i], dialect) then '/' else value[i]] + Slashed(value[i + 1..], dialect)
  {
    assert value[i..][1..] == value[i + 1..];
  }

  /** Reports a `..` between separators, scanning once with a component buffer. */
  method ContainsParentTraversalText(value: string, dialect: Dialect) returns (found: bool)
    ensures found <==> ".." in Split(Slashed(value, dialect))
  {
    var component := "";
    assert value[0..] == value && "" + Slashed(value, dialect) == Slashed(value, dialect);
    for i := 0 to |value|
      invariant '/' !in component
      invariant ".." in Split(Slashed(value, dialect))
           <==> ".." in Split(component + Slashed(value[i..], dialect))
    {
      var rest := Slashed(value[i + 1..], dialect);
      SlashedSplits(value, i, dialect);
      if IsSeparator(value[i], dialect) {
        SplitPrepends(component, "/" + rest);
        assert ("/" + rest)[1..] == rest;
        assert component + "" == component;
        if component == ".." {
          return true;
        }
        component := "";
        assert "" + rest == rest;
      } else {
        assert component + ([value[i]] + rest) == (component + [value[i]]) + rest;
        component := component + [value[i]];
      }
    }
    SplitPrepends(component, "");
    assert component + "" == component && Split("") == [""];
    found := component == "..";
  }

  // ----- component keys -----

  function PosixPart(part: string): (r: seq<Component>) {
    if part == "" || part == "." then []
    else if part == ".." then [Parent]
    else [Normal(part)]
  }

  function PosixParts(parts: seq<string>): (r: seq<Component>) {
    if parts == [] then [] else PosixPart(parts[0]) + PosixParts(parts[1..])
  }

  function PosixKey(value: string): (r: seq<Component>) {
    (if value != "" && value[0] == '/' then [Root] else []) + PosixParts(Split(value))
  }

  function AsciiLower(c: char): (r: char) {
    if 'A' <= c <= 'Z' then (c as int + 32) as char else c
  }

  function AsciiLowered(s: string): (r: string)
    ensures |r| == |s|
  {
    seq(|s|, i requires 0 <= i < |s| => AsciiLower(s[i]))
  }

  predicate HasPrefix(value: string, lowered: string) {
    |value| >= |lowered| && AsciiLowered(value[..|lowered|]) == lowered
  }

  /** Verbatim and device prefixes in their ordinary spelling. */
  function StripDevice(value: string): (r: string) {
    if HasPrefix(value, "//?/unc/") || HasPrefix(value, "//./unc/") then "//" + value[8..]
    else if HasPrefix(value, "//?/") || HasPrefix(value, "//./") then value[4..]
    else value
  }

  predicate IsDrive(part: string) {
    |part| == 2 && part[1] == ':' && ('a' <= part[0] <= 'z' || 'A' <= part[0] <= 'Z')
  }

  predicate HasPrefixComponent(components: seq<Component>) {
    exists k :: 0 <= k < |components| && components[k].Prefix?
  }

  /** The components one part adds after those already found; `fold` lowers case. */
  function WindowsPart(part: string, before: seq<Component>, fold: string -> string): (r: seq<Component>) {
    if part == "" || part == "." then []
    else if IsDrive(part) && HasPrefixComponent(before) then []
    else if part == ".." then [Parent]
    else [Normal(fold(part))]
  }

  function WindowsParts(parts: seq<string>, before: seq<Component>, fold: string -> string): (r: seq<Component>)
    decreases |parts|
  {
    if parts == [] then before
    else WindowsParts(parts[1..], before + WindowsPart(parts[0], before, fold), fold)
  }

  function WindowsKey(text: string, fold: string -> string): (r: seq<Component>) {
    var value := StripDevice(Slashed(text, Windows));
    var parts := Split(value);
    if IsDrive(parts[0]) then
      var root := if |value| > 2 && value[2] == '/' then [Root] else [];
      WindowsParts(parts[1..], [Prefix(AsciiLowered(parts[0]))] + root, fold)
    else
      WindowsParts(parts, if "//" <= value then [Root, Prefix("unc")] else [], fold)
  }

  function Key(value: string, dialect: Dialect, fold: string -> string): (r: seq<Component>) {
    match dialect
    case Posix => PosixKey(value)
    case Windows => WindowsKey(value, fold)
  }

  method LexicalPosixComponents(value: string) returns (components: seq<Component>)
    ensures components == PosixKey(value)
  {
    components := [];
    if value != "" && value[0] == '/' {
      components := components + [Root];
    }
    var parts := Split(value);
    ghost var root := components;
    for k := 0 to |parts|
      invariant root + PosixParts(parts) == components + PosixParts(parts[k..])
    {
      assert parts[k..][1..] == parts[k + 1..];
      ghost var before := components;
      if parts[k] == ".." {
        components := components + [Parent];
      } else if parts[k] != "" && parts[k] != "." {
        components := components + [Normal(parts[k])];
      }
      assert components == before + PosixPart(parts[k]);
    }
    assert components + [] == components;
  }

  method LexicalWindowsComponents(text: string, fold: string -> string) returns (components: seq<Component>)
    ensures components == WindowsKey(text, fold)
  {
    var value := StripDevice(Slashed(text, Windows));
    var parts := Split(value);
    components := [];
    if IsDrive(parts[0]) {
      components := [Prefix(AsciiLowered(parts[0]))];
      assert components + [] == components;
      if |value| > 2 && value[2] == '/' {
        components := components + [Root];
      }
      parts := parts[1..];
    } else if "//" <= value {
      components := [Root, Prefix("unc")];
    }
    assert parts[0..] == parts;
    for k := 0 to |parts|
      invariant WindowsParts(parts[k..], components, fold) == WindowsKey(text, fold)
    {
      assert parts[k..][1..] == parts[k + 1..];
      var part := parts[k];
      ghost var before := components;
      if part == "" || part == "." {
      } else if IsDrive(part) && HasPrefixComponent(components) {
      } else if part == ".." {
        components := components + [Parent];
      } else {
        components := components + [Normal(fold(part))];
      }
      assert components == before + WindowsPart(part, before, fold);
    }
  }

  // ----- the scanner agrees with the keys -----

  lemma {:induction false} PosixPartsParent(parts: seq<string>)
    ensures Parent in PosixParts(parts) <==> ".." in parts
  {
    if parts != [] {
      PosixPartsParent(parts[1..]);
      assert parts == [parts[0]] + parts[1..];
    }
  }

  lemma {:induction false} WindowsPartsParent(parts: seq<string>, before: seq<Component>, fold: string -> string)
    ensures Parent in WindowsParts(parts, before, fold) <==> Parent in before || ".." in parts
    decreases |parts|
  {
    if parts != [] {
      WindowsPartsParent(parts[1..], before + WindowsPart(parts[0], before, fold), fold);
      assert parts == [parts[0]] + parts[1..];
    }
  }

  lemma {:induction false} PosixSlashed(value: string)
    ensures Slashed(value, Posix) == value
  {
    if value != "" { PosixSlashed(value[1..]); }
  }

  lemma SplitSlash(component: string, rest: string)
    requires '/' !in component
    ensures Split(component + "/" + rest) == [component] + Split(rest)
  {
    assert component + "/" + rest == component + ("/" + rest);
    assert ("/" + rest)[1..] == rest;
    SplitPrepends(component, "/" + rest);
    assert component + "" == component;
  }

  lemma SplitTwoSlashes(rest: string)
    ensures Split("//" + rest) == ["", ""] + Split(rest)
  {
    SplitSlash("", rest);
    SplitSlash("", "/" + rest);
    assert "" + "/" + ("/" + rest) == "//" + rest;
    assert "" + "/" + rest == "/" + rest;
  }

  /** The device prefixes drop no `..` and add none. */
  lemma StripDeviceKeepsParents(value: string)
    ensures ".." in Split(StripDevice(value)) <==> ".." in Split(value)
  {
    if HasPrefix(value, "//?/unc/") || HasPrefix(value, "//./unc/") {
      var lowered := AsciiLowered(value[..8]);
      assert forall k :: 0 <= k < 8 ==> lowered[k] == AsciiLower(value[k]);
      var unc, rest := value[4..7], value[8..];
      assert value == "//" + ([value[2]] + "/" + (unc + "/" + rest));
      SplitTwoSlashes([value[2]] + "/" + (unc + "/" + rest));
      SplitSlash([value[2]], unc + "/" + rest);
      SplitSlash(unc, rest);
      SplitTwoSlashes(rest);
    } else if HasPrefix(value, "//?/") || HasPrefix(value, "//./") {
      var lowered := AsciiLowered(value[..4]);
      assert forall k :: 0 <= k < 4 ==> lowered[k] == AsciiLower(value[k]);
      var rest := value[4..];
      assert value == "//" + ([value[2]] + "/" + rest);
      SplitTwoSlashes([value[2]] + "/" + rest);
      SplitSlash([value[2]], rest);
    }
  }

  /** A text scans as a traversal exactly when its key holds a parent component. */
  lemma ScannerAgreesWithKey(value: string, dialect: Dialect, fold: string -> string)
    ensures ".." in Split(Slashed(value, dialect)) <==> Parent in Key(value, dialect, fold)
  {
    if dialect == Posix {
      PosixSlashed(value);
      PosixPartsParent(Split(value));
    } else {
      var slashed := Slashed(value, Windows);
      var parts := Split(StripDevice(slashed));
      StripDeviceKeepsParents(slashed);
      if IsDrive(parts[0]) {
        var stripped := StripDevice(slashed);
        var root := if |stripped| > 2 && stripped[2] == '/' then [Root] else [];
        WindowsPartsParent(parts[1..], [Prefix(AsciiLowered(parts[0]))] + root, fold);
        assert parts == [parts[0]] + parts[1..];
      } else {
        WindowsPartsParent(parts, if "//" <= StripDevice(slashed) then [Root, Prefix("unc")] else [], fold);
      }
    }
  }

  // ----- containment -----

  /** A path given by the keys of its components; current-directory components have none. */
  type Path = seq<Component>

  predicate TraversalFree(p: Path) {
    Parent !in p
  }

  /** Containment by component; an empty root holds exactly the relative paths. */
  predicate IsWithin(path: Path, root: Path) {
    && TraversalFree(path) && TraversalFree(root)
    && if root == [] then path == [] || path[0] != Root else root <= path
  }

  method WithinRoot(path: Path, root: Path) returns (r: bool)
    ensures r <==> IsWithin(path, root)
  {
    if Parent in path || Parent in root {
      return false;
    }
    if root == [] {
      return path == [] || path[0] != Root;
    }
    for i := 0 to |root|
      invariant i <= |path| && root[..i] == path[..i]
    {
      if i == |path| || path[i] != root[i] {
        return false;
      }
    }
    return true;
  }
}
