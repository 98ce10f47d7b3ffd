/**
 Containment and equality of native paths on both platforms. A path is a text;
 how the platform splits it into components is a parameter. Current-directory
 components never count, and Windows folds names and rewrites device prefixes.
 */
module NativePath {
  import opened Wrappers
  import opened LexicalPath

  /** A component as the platform yields it. */
  datatype Part = PrefixPart(text: string) | RootDir | CurDir | ParentDir | Name(text: string)

  datatype Platform =
    | Unix(split: string -> seq<Part>)
    | Native(split: string -> seq<Part>, fold: string -> string)      // Windows

  // ----- device prefixes on Windows -----

  predicate IsSlash(c: char) { c == '\\' || c == '/' }

  predicate SameLetter(c: char, upper: char) {
    AsciiLower(c) == AsciiLower(upper)
  }

  predicate IsAlpha(c: char) { 'a' <= AsciiLower(c) <= 'z' }

  /** A drive and a separator: the start of an ordinary absolute path. */
  predicate StartsWithDrive(text: string) {
    |text| >= 3 && IsAlpha(text[0]) && text[1] == ':' && IsSlash(text[2])
  }

  predicate StartsWithUnc(text: string) {
    |text| >= 4 && SameLetter(text[0], 'U') && SameLetter(text[1], 'N') && SameLetter(text[2], 'C') && IsSlash(text[3])
  }

  predicate StartsWithDevice(text: string) {
    |text| >= 7 && IsSlash(text[0]) && IsSlash(text[1]) && text[2] in "?." && IsSlash(text[3])
  }

  /** Drive and share paths behind a device prefix, in their ordinary spelling; anything else unchanged. */
  function Ordinary(text: string): (r: string) {
    if !StartsWithDevice(text) then text
    else if StartsWithUnc(text[4..]) then "\\\\" + text[8..]
    else if StartsWithDrive(text[4..]) then text[4..]
    else text
  }

  /** One of the twenty-six ASCII letters, in either case. */
  predicate IsLetter(c: char) {
    0 <= c as int - 'a' as int < 26 || 0 <= c as int - 'A' as int < 26
  }

  /** A device prefix: two separators, a question mark or dot, and a separator, with at least three more characters. */
  predicate DevicePrefixed(text: string) {
    |text| >= 7 && text[0] in "\\/" && text[1] in "\\/" && text[2] in "?." && text[3] in "\\/"
  }

  predicate NamesShare(rest: string) {
    |rest| >= 4 && rest[0] in "uU" && rest[1] in "nN" && rest[2] in "cC" && rest[3] in "\\/"
  }

  predicate NamesDrive(rest: string) {
    |rest| >= 3 && IsLetter(rest[0]) && rest[1] == ':' && rest[2] in "\\/"
  }

  /** A device prefix is rewritten before a share or a drive, with separators of either kind and letters of either case;
      any other text stays as it is. */
  lemma OrdinaryMeans(text: string)
    ensures DevicePrefixed(text) && NamesShare(text[4..]) ==> Ordinary(text) == "\\\\" + text[8..]
    ensures DevicePrefixed(text) && NamesDrive(text[4..]) ==> Ordinary(text) == text[4..]
    ensures !(DevicePrefixed(text) && (NamesShare(text[4..]) || NamesDrive(text[4..]))) ==> Ordinary(text) == text
  {
    assert |text| >= 7 ==> text[4..][0] == text[4];
  }

  // ----- keys -----

  function Meaningful(parts: seq<Part>): (r: seq<Part>) {
    if parts == [] then []
    else (if parts[0].CurDir? then [] else [parts[0]]) + Meaningful(parts[1..])
  }

  function PartKey(platform: Platform, part: Part): (r: Component)
    requires !part.CurDir?
  {
    match part
    case PrefixPart(text) => Prefix(NameKey(platform, text))
    case RootDir => Root
    case ParentDir => Parent
    case Name(text) => Normal(NameKey(platform, text))
  }

  function NameKey(platform: Platform, text: string): (r: string) {
    if platform.Native? then platform.fold(text) else text
  }

  /** The key of some components: those that count, each by its identity. */
  function PartsKey(platform: Platform, parts: seq<Part>): (r: Path)
    ensures |r| <= |parts|
  {
    if parts == [] then []
    else (if parts[0].CurDir? then [] else [PartKey(platform, parts[0])]) + PartsKey(platform, parts[1..])
  }

  function Spelled(platform: Platform, path: string): (r: seq<Part>) { platform.split(path) }

  /** What is compared: on Windows, the components of the ordinary spelling. */
  function Compared(platform: Platform, path: string): (r: seq<Part>) {
    if platform.Native? then platform.split(Ordinary(path)) else platform.split(path)
  }

  function NativeKey(platform: Platform, path: string): (r: Path) {
    PartsKey(platform, Compared(platform, path))
  }

  // ----- what the comparisons mean -----

  /** Traversal is looked for in the path as it is spelled. */
  predicate Traverses(platform: Platform, path: string) {
    ParentDir in Spelled(platform, path)
  }

  predicate Equal(platform: Platform, left: string, right: string) {
    NativeKey(platform, left) == NativeKey(platform, right)
  }

  /** A key that names a place by itself. */
  predicate Anchored(platform: Platform, key: Path) {
    key != [] && (key[0].Root? || (platform.Native? && key[0].Prefix?))
  }

  predicate Within(platform: Platform, path: string, root: string) {
    && !Traverses(platform, path) && !Traverses(platform, root)
    && var inner, outer := NativeKey(platform, path), NativeKey(platform, root);
       if outer == [] then !Anchored(platform, inner) else outer <= inner
  }

  // ----- the loops -----

  /** The next component that counts, from a cursor; the cursor moves past it. */
  method NextPart(parts: seq<Part>, from: nat) returns (part: Option<Part>, next: nat)
    requires from <= |parts|
    ensures from <= next <= |parts|
    ensures part.None? ==> Meaningful(parts[from..]) == []
    ensures part.Some? ==>
      && !part.value.CurDir? && from < next
      && Meaningful(parts[from..]) == [part.value] + Meaningful(parts[next..])
  {
    next := from;
    while next < |parts| && parts[next].CurDir?
      invariant from <= next <= |parts|
      invariant Meaningful(parts[from..]) == Meaningful(parts[next..])
    {
      assert parts[next..][1..] == parts[next + 1..];
      next := next + 1;
    }
    if next == |parts| {
      return None, next;
    }
    assert parts[next..][1..] == parts[next + 1..];
    return Some(parts[next]), next + 1;
  }

  lemma {:induction false} KeyOfMeaningful(platform: Platform, parts: seq<Part>)
    ensures PartsKey(platform, parts) == PartsKey(platform, Meaningful(parts))
    ensures CurDir !in Meaningful(parts)
    ensures |PartsKey(platform, parts)| == |Meaningful(parts)|
  {
    if parts != [] {
      KeyOfMeaningful(platform, parts[1..]);
      if !parts[0].CurDir? {
        assert ([parts[0]] + Meaningful(parts[1..]))[1..] == Meaningful(parts[1..]);
      } else {
        assert Meaningful(parts) == Meaningful(parts[1..]);
        assert PartsKey(platform, parts) == PartsKey(platform, parts[1..]);
      }
    }
  }

  /** Where the part that counts next is known, so is the start of the key. */
  lemma KeyStep(platform: Platform, parts: seq<Part>, from: nat, part: Part, next: nat)
    requires from <= next <= |parts| && !part.CurDir?
    requires Meaningful(parts[from..]) == [part] + Meaningful(parts[next..])
    ensures PartsKey(platform, parts[from..]) == [PartKey(platform, part)] + PartsKey(platform, parts[next..])
  {
    KeyOfMeaningful(platform, parts[from..]);
    KeyOfMeaningful(platform, parts[next..]);
    assert ([part] + Meaningful(parts[next..]))[1..] == Meaningful(parts[next..]);
  }

  lemma KeyEnds(platform: Platform, parts: seq<Part>, from: nat)
    requires from <= |parts| && Meaningful(parts[from..]) == []
    ensures PartsKey(platform, parts[from..]) == []
  {
    KeyOfMeaningful(platform, parts[from..]);
  }

  /** Compares the components that count one by one, skipping current directories on either side. */
  method UnixPathsEqual(platform: Platform, left: string, right: string) returns (r: bool)
    requires platform.Unix?
    ensures r <==> Equal(platform, left, right)
  {
    hide Meaningful, PartsKey, PartKey;
    var ls, rs := Compared(platform, left), Compared(platform, right);
    var i, j := 0, 0;
    assert ls[0..] == ls && rs[0..] == rs;
    while true
      invariant i <= |ls| && j <= |rs|
      invariant Equal(platform, left, right) <==> PartsKey(platform, ls[i..]) == PartsKey(platform, rs[j..])
      decreases |ls| - i
    {
      var l, ni := NextPart(ls, i);
      var m, nj := NextPart(rs, j);
      if l.None? { KeyEnds(platform, ls, i); } else { KeyStep(platform, ls, i, l.value, ni); }
      if m.None? { KeyEnds(platform, rs, j); } else { KeyStep(platform, rs, j, m.value, nj); }
      if l.None? && m.None? {
        return true;
      }
      if l.None? || m.None? {
        return false;
      }
      HeadsAndTails(PartKey(platform, l.value), PartsKey(platform, ls[ni..]),
                    PartKey(platform, m.value), PartsKey(platform, rs[nj..]));
      if PartKey(platform, l.value) != PartKey(platform, m.value) {
        return false;
      }
      i, j := ni, nj;
    }
  }

  lemma HeadsAndTails(a: Component, rest: Path, b: Component, bs: Path)
    ensures [a] + rest == [b] + bs <==> a == b && rest == bs
    ensures [b] + bs <= [a] + rest <==> a == b && bs <= rest
  {
    var x, y := [a] + rest, [b] + bs;
    assert x[0] == a && x[1..] == rest && y[0] == b && y[1..] == bs;
    if a == b && bs <= rest {
      assert y == x[..|y|];
    }
    if y <= x {
      assert y[0] == x[0];
      assert bs == rest[..|bs|] by {
        forall k | 0 <= k < |bs| ensures bs[k] == rest[k] { assert y[k + 1] == x[k + 1]; }
      }
    }
  }

  method PathsEqual(platform: Platform, left: string, right: string) returns (r: bool)
    ensures r <==> Equal(platform, left, right)
  {
    if platform.Native? {
      return NativeKey(platform, left) == NativeKey(platform, right);
    }
    r := UnixPathsEqual(platform, left, right);
  }

  /** Walks the components of the root that count, and those of the path beside them. */
  method UnixWithin(platform: Platform, path: string, root: string) returns (r: bool)
    requires platform.Unix?
    ensures r <==> Within(platform, path, root)
  {
    hide Meaningful, PartsKey, PartKey;
    var ps, rs := Compared(platform, path), Compared(platform, root);
    if ParentDir in ps || ParentDir in rs {
      return false;
    }
    assert ps[0..] == ps && rs[0..] == rs;
    var first, start := NextPart(rs, 0);
    if first.None? {
      KeyEnds(platform, rs, 0);
      var part, n := NextPart(ps, 0);
      if part.None? { KeyEnds(platform, ps, 0); } else { KeyStep(platform, ps, 0, part.value, n); }
      RootKey(platform, part);
      return part != Some(RootDir);
    }
    KeyStep(platform, rs, 0, first.value, start);
    var i, j := 0, 0;
    while true
      invariant i <= |ps| && j <= |rs|
      invariant Within(platform, path, root) <==> PartsKey(platform, rs[j..]) <= PartsKey(platform, ps[i..])
      decreases |rs| - j
    {
      var m, nj := NextPart(rs, j);
      if m.None? {
        KeyEnds(platform, rs, j);
        return true;
      }
      KeyStep(platform, rs, j, m.value, nj);
      var l, ni := NextPart(ps, i);
      if l.None? {
        KeyEnds(platform, ps, i);
        return false;
      }
      KeyStep(platform, ps, i, l.value, ni);
      HeadsAndTails(PartKey(platform, l.value), PartsKey(platform, ps[ni..]),
                    PartKey(platform, m.value), PartsKey(platform, rs[nj..]));
      if PartKey(platform, l.value) != PartKey(platform, m.value) {
        return false;
      }
      i, j := ni, nj;
    }
  }

  lemma RootKey(platform: Platform, part: Option<Part>)
    requires part.Some? ==> !part.value.CurDir?
    ensures part.Some? ==> (PartKey(platform, part.value).Root? <==> part.value.RootDir?)
  {
  }

  method WithinRoot(platform: Platform, path: string, root: string) returns (r: bool)
    ensures r <==> Within(platform, path, root)
  {
    if platform.Unix? {
      r := UnixWithin(platform, path, root);
      return;
    }
    if Traverses(platform, path) || Traverses(platform, root) {
      return false;
    }
    var inner, outer := NativeKey(platform, path), NativeKey(platform, root);
    if outer == [] {
      return !(inner != [] && (inner[0].Prefix? || inner[0].Root?));
    }
    return outer <= inner;
  }

  // ----- containment is an order -----

  /** On both platforms containment is a partial order up to equality: reflexive exactly on paths that do not
      traverse, transitive, and mutual only between equal paths. */
  lemma WithinIsPartialOrder(platform: Platform, a: string, b: string, c: string)
    ensures Within(platform, a, a) <==> !Traverses(platform, a)
    ensures Within(platform, a, b) && Within(platform, b, c) ==> Within(platform, a, c)
    ensures Within(platform, a, b) && Within(platform, b, a) ==> Equal(platform, a, b)
  {
    hide PartsKey;
    var x, y, z := NativeKey(platform, a), NativeKey(platform, b), NativeKey(platform, c);
    if Within(platform, a, b) && Within(platform, b, c) && z != [] {
      assert z == y[..|z|] && y == x[..|y|];
      assert x[..|z|] == x[..|y|][..|z|];
    }
  }

  /** Containment does not see how its paths are spelled, as long as none of the spellings traverses. */
  lemma WithinRespectsEquality(platform: Platform, a: string, a': string, b: string, b': string)
    requires Equal(platform, a, a') && Equal(platform, b, b')
    requires !Traverses(platform, a') && !Traverses(platform, b')
    ensures Within(platform, a, b) ==> Within(platform, a', b')
  {
  }

  lemma {:induction false} ParentCounts(platform: Platform, parts: seq<Part>)
    ensures ParentDir in parts <==> Parent in PartsKey(platform, parts)
  {
    if parts != [] {
      ParentCounts(platform, parts[1..]);
      assert parts == [parts[0]] + parts[1..];
    }
  }

  /** On Unix equal paths traverse alike, so there containment is a property of the keys alone: that of `IsWithin`. */
  lemma UnixWithinIsOnKeys(platform: Platform, path: string, root: string)
    requires platform.Unix?
    ensures Within(platform, path, root) <==> IsWithin(NativeKey(platform, path), NativeKey(platform, root))
  {
    ParentCounts(platform, Compared(platform, path));
    ParentCounts(platform, Compared(platform, root));
  }

  // ----- spellings of one path -----

  lemma {:induction false} KeyAppends(platform: Platform, x: seq<Part>, y: seq<Part>)
    ensures PartsKey(platform, x + y) == PartsKey(platform, x) + PartsKey(platform, y)
  {
    if x == [] {
      assert x + y == y;
    } else {
      assert (x + y)[1..] == x[1..] + y;
      KeyAppends(platform, x[1..], y);
    }
  }

  /** Any suffix of a key is the key of a suffix. */
  lemma {:induction false} SuffixOfKey(platform: Platform, parts: seq<Part>, n: nat) returns (i: nat)
    requires n <= |PartsKey(platform, parts)|
    ensures i <= |parts| && PartsKey(platform, parts[i..]) == PartsKey(platform, parts)[n..]
    decreases |parts|
  {
    if n == 0 {
      i := 0;
      assert parts[0..] == parts;
    } else {
      var j := SuffixOfKey(platform, parts[1..], if parts[0].CurDir? then n else n - 1);
      i := j + 1;
      assert parts[1..][j..] == parts[i..];
    }
  }

  /** The path is spelled like the root followed by more components. */
  ghost predicate Extends(platform: Platform, path: string, root: string, tail: seq<Part>) {
    NativeKey(platform, path) == PartsKey(platform, Compared(platform, root) + tail)
  }

  /** What containment means: neither path traverses, and the path is the root followed by some components; a root
      that names no place contains what names none. */
  lemma WithinIsExtension(platform: Platform, path: string, root: string)
    ensures Within(platform, path, root) <==>
      && !Traverses(platform, path) && !Traverses(platform, root)
      && (exists tail :: Extends(platform, path, root, tail))
      && (NativeKey(platform, root) == [] ==> !Anchored(platform, NativeKey(platform, path)))
  {
    hide PartsKey, Compared, Traverses;
    var inner, outer := NativeKey(platform, path), NativeKey(platform, root);
    if outer <= inner {
      var i := SuffixOfKey(platform, Compared(platform, path), |outer|);
      var tail := Compared(platform, path)[i..];
      KeyAppends(platform, Compared(platform, root), tail);
      assert inner == outer + inner[|outer|..];
      assert Extends(platform, path, root, tail);
    }
    if tail :| Extends(platform, path, root, tail) {
      KeyAppends(platform, Compared(platform, root), tail);
      assert outer <= inner;
    }
  }

  /** Two spellings that differ by a current-directory component are equal. */
  lemma CurrentDirectoryDoesNotCount(platform: Platform, left: string, right: string, x: seq<Part>, y: seq<Part>)
    requires Compared(platform, left) == x + [CurDir] + y && Compared(platform, right) == x + y
    ensures Equal(platform, left, right)
  {
    assert PartsKey(platform, [CurDir]) == [];
    hide PartsKey, Compared;
    KeyAppends(platform, x, y);
    KeyAppends(platform, x + [CurDir], y);
    KeyAppends(platform, x, [CurDir]);
    assert PartsKey(platform, x) + [] == PartsKey(platform, x);
  }

  /** A drive path is equal to itself behind a device prefix, and a share path to itself behind the share prefix. */
  lemma DeviceSpellingsAreEqual(platform: Platform, mark: char, path: string, share: string)
    requires platform.Native? && mark in "?."
    requires StartsWithDrive(path) && (|share| > 0 ==> share[0] !in "?.")
    ensures Equal(platform, "\\\\" + [mark] + "\\" + path, path)
    ensures Equal(platform, "\\\\" + [mark] + "\\UNC\\" + share, "\\\\" + share)
  {
    var drive := "\\\\" + [mark] + "\\" + path;
    assert drive[4..] == path;
    assert !StartsWithUnc(path);
    assert Ordinary(drive) == path;
    assert Ordinary(path) == path;
    var unc := "\\\\" + [mark] + "\\UNC\\" + share;
    assert unc[4..][..4] == "UNC\\" && unc[8..] == share;
    assert StartsWithUnc(unc[4..]);
    assert Ordinary(unc) == "\\\\" + share;
    assert ("\\\\" + share)[2..] == share;
    assert Ordinary("\\\\" + share) == "\\\\" + share;
  }
}
