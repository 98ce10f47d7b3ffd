/** When two texts have one lexical key, said of their pieces between separators. */
module KeyMeaning {
  import opened LexicalPath

  // ----- pieces -----

  function Joined(parts: seq<string>): (r: string)
    requires parts != []
  {
    if |parts| == 1 then parts[0] else parts[0] + "/" + Joined(parts[1..])
  }

  /** The pieces of a text are the texts without a separator that it joins. */
  lemma {:induction false} SplitJoins(value: string)
    ensures Joined(Split(value)) == value && forall k :: 0 <= k < |Split(value)| ==> '/' !in Split(value)[k]
  {
    if value != "" {
      SplitJoins(value[1..]);
      var rest := Split(value[1..]);
      assert value == [value[0]] + value[1..];
      if value[0] == '/' {
        assert ([""] + rest)[1..] == rest;
      } else {
        assert ([[value[0]] + rest[0]] + rest[1..])[1..] == rest[1..];
      }
    }
  }

  lemma {:induction false} JoinSplits(parts: seq<string>)
    requires parts != [] && forall k :: 0 <= k < |parts| ==> '/' !in parts[k]
    ensures Split(Joined(parts)) == parts
    decreases |parts|
  {
    if |parts| == 1 {
      SplitPrepends(parts[0], "");
      assert parts[0] + "" == parts[0] && Split("") == [""];
    } else {
      JoinSplits(parts[1..]);
      SplitSlash(parts[0], Joined(parts[1..]));
      assert parts == [parts[0]] + parts[1..];
    }
  }

  /** The names among some pieces: neither empty nor a single dot, and where a prefix came before, no drive either. */
  function Names(parts: seq<string>, prefixed: bool): (r: seq<string>) {
    if parts == [] then []
    else
      (if parts[0] in ["", "."] || (prefixed && IsDrive(parts[0])) then [] else [parts[0]]) + Names(parts[1..], prefixed)
  }

  // ----- POSIX -----

  predicate IsAbsolute(value: string) { value != "" && value[0] == '/' }

  function PosixComponent(name: string): (r: Component) { if name == ".." then Parent else Normal(name) }

  function PosixComponents(names: seq<string>): (r: seq<Component>)
    ensures |r| == |names| && forall i :: 0 <= i < |r| ==> r[i] == PosixComponent(names[i])
  {
    seq(|names|, i requires 0 <= i < |names| => PosixComponent(names[i]))
  }

  lemma {:induction false} PosixPartsAre(parts: seq<string>)
    ensures PosixParts(parts) == PosixComponents(Names(parts, false))
  {
    if parts != [] {
      PosixPartsAre(parts[1..]);
    }
  }

  lemma PosixComponentsInjective(a: seq<string>, b: seq<string>)
    requires PosixComponents(a) == PosixComponents(b)
    ensures a == b
  {
    forall i | 0 <= i < |a| ensures a[i] == b[i] {
      assert PosixComponents(a)[i] == PosixComponents(b)[i];
    }
  }

  /** Two POSIX texts have one key exactly when both or neither is absolute and they have the same names. */
  lemma PosixKeyMeans(a: string, b: string)
    ensures PosixKey(a) == PosixKey(b) <==>
      IsAbsolute(a) == IsAbsolute(b) && Names(Split(a), false) == Names(Split(b), false)
  {
    var x, y := Names(Split(a), false), Names(Split(b), false);
    PosixPartsAre(Split(a));
    PosixPartsAre(Split(b));
    hide PosixParts, Split, Names;
    assert IsAbsolute(a) <==> PosixKey(a) != [] && PosixKey(a)[0] == Root;
    assert IsAbsolute(b) <==> PosixKey(b) != [] && PosixKey(b)[0] == Root;
    if PosixKey(a) == PosixKey(b) {
      var n := if IsAbsolute(a) then 1 else 0;
      assert PosixKey(a)[n..] == PosixComponents(x) && PosixKey(b)[n..] == PosixComponents(y);
      PosixComponentsInjective(x, y);
    }
  }

  // ----- Windows -----

  /** How a text starts once its separators and device prefixes have their ordinary spelling. */
  datatype Head = Drive(letter: char, rooted: bool) | Share | NoHead

  function HeadOf(value: string): (h: Head)
  {
    if IsDrive(Split(value)[0]) then Drive(AsciiLower(Split(value)[0][0]), |value| > 2 && value[2] == '/')
    else if "//" <= value then Share
    else NoHead
  }

  /** The names behind the head. */
  function NamesOf(value: string): (r: seq<string>) {
    match HeadOf(value)
    case Drive(_, _) => Names(Split(value)[1..], true)
    case Share => Names(Split(value), true)
    case NoHead => Names(Split(value), false)
  }

  function WindowsComponent(name: string, fold: string -> string): (r: Component) {
    if name == ".." then Parent else Normal(fold(name))
  }

  function WindowsComponents(names: seq<string>, fold: string -> string): (r: seq<Component>)
    ensures |r| == |names| && forall i :: 0 <= i < |r| ==> r[i] == WindowsComponent(names[i], fold)
  {
    seq(|names|, i requires 0 <= i < |names| => WindowsComponent(names[i], fold))
  }

  lemma {:induction false} WindowsPartsAre(parts: seq<string>, before: seq<Component>, fold: string -> string)
    ensures WindowsParts(parts, before, fold)
         == before + WindowsComponents(Names(parts, HasPrefixComponent(before)), fold)
    decreases |parts|
  {
    hide Names, WindowsPart, WindowsComponents, HasPrefixComponent;
    if parts != [] {
      var more, prefixed := WindowsPart(parts[0], before, fold), HasPrefixComponent(before);
      PrefixStays(parts[0], before, fold);
      WindowsPartsAre(parts[1..], before + more, fold);
      NamesStep(parts, before, fold);
      assert before + (more + WindowsComponents(Names(parts[1..], prefixed), fold))
          == (before + more) + WindowsComponents(Names(parts[1..], prefixed), fold);
    } else {
      NoNames(HasPrefixComponent(before), fold);
      assert before + [] == before;
    }
  }

  lemma NoNames(prefixed: bool, fold: string -> string)
    ensures WindowsComponents(Names([], prefixed), fold) == []
  {
  }

  lemma NamesStep(parts: seq<string>, before: seq<Component>, fold: string -> string)
    requires parts != []
    ensures var prefixed := HasPrefixComponent(before);
      WindowsComponents(Names(parts, prefixed), fold)
        == WindowsPart(parts[0], before, fold) + WindowsComponents(Names(parts[1..], prefixed), fold)
  {
    hide HasPrefixComponent;
    var prefixed := HasPrefixComponent(before);
    var names := Names(parts[1..], prefixed);
    var skipped := parts[0] in ["", "."] || (prefixed && IsDrive(parts[0]));
    assert Names(parts, prefixed) == (if skipped then [] else [parts[0]]) + names;
    assert WindowsPart(parts[0], before, fold) == if skipped then [] else [WindowsComponent(parts[0], fold)];
    hide Names, WindowsPart, IsDrive, WindowsComponent;
    if skipped {
      assert [] + names == names && [] + WindowsComponents(names, fold) == WindowsComponents(names, fold);
    } else {
      ComponentsCons(parts[0], names, fold);
    }
  }

  lemma ComponentsCons(name: string, names: seq<string>, fold: string -> string)
    ensures WindowsComponents([name] + names, fold) == [WindowsComponent(name, fold)] + WindowsComponents(names, fold)
  {
  }

  lemma PrefixStays(part: string, before: seq<Component>, fold: string -> string)
    ensures HasPrefixComponent(before + WindowsPart(part, before, fold)) == HasPrefixComponent(before)
  {
    var more := WindowsPart(part, before, fold);
    var after := before + more;
    assert forall k :: 0 <= k < |before| ==> after[k] == before[k];
    assert forall k :: |before| <= k < |after| ==> after[k] == more[k - |before|];
    if k :| 0 <= k < |before| && before[k].Prefix? {
      assert after[k].Prefix?;
    }
  }

  function HeadComponents(h: Head): (r: seq<Component>) {
    match h
    case Drive(letter, rooted) => [Prefix([letter, ':'])] + if rooted then [Root] else []
    case Share => [Root, Prefix("unc")]
    case NoHead => []
  }

  function Ordinary(text: string): (r: string) { StripDevice(Slashed(text, Windows)) }

  lemma WindowsKeyIs(text: string, fold: string -> string)
    ensures WindowsKey(text, fold)
         == HeadComponents(HeadOf(Ordinary(text))) + WindowsComponents(NamesOf(Ordinary(text)), fold)
  {
    var value := Ordinary(text);
    var parts := Split(value);
    hide Split, StripDevice, Slashed, WindowsParts, Names, WindowsComponents;
    if IsDrive(parts[0]) {
      var root := if |value| > 2 && value[2] == '/' then [Root] else [];
      var before := [Prefix(AsciiLowered(parts[0]))] + root;
      assert AsciiLowered(parts[0]) == [AsciiLower(parts[0][0]), ':'];
      assert before[0].Prefix?;
      WindowsPartsAre(parts[1..], before, fold);
    } else if "//" <= value {
      var before := [Root, Prefix("unc")];
      assert before[1].Prefix?;
      WindowsPartsAre(parts, before, fold);
    } else {
      WindowsPartsAre(parts, [], fold);
    }
  }

  /** Two names count as one when they fold alike; a parent step counts as nothing else. */
  predicate SameName(a: string, b: string, fold: string -> string) {
    if a == ".." || b == ".." then a == b else fold(a) == fold(b)
  }

  predicate SameNames(a: seq<string>, b: seq<string>, fold: string -> string) {
    |a| == |b| && forall i :: 0 <= i < |a| ==> SameName(a[i], b[i], fold)
  }

  lemma SameComponents(a: seq<string>, b: seq<string>, fold: string -> string)
    ensures WindowsComponents(a, fold) == WindowsComponents(b, fold) <==> SameNames(a, b, fold)
  {
    if WindowsComponents(a, fold) == WindowsComponents(b, fold) {
      forall i | 0 <= i < |a| ensures SameName(a[i], b[i], fold) {
        assert WindowsComponents(a, fold)[i] == WindowsComponents(b, fold)[i];
      }
    }
  }

  predicate InHead(c: Component) { c.Prefix? || c.Root? }

  /** How many components of a key belong to its head. */
  function HeadLength(key: seq<Component>): (n: nat)
    ensures n <= |key|
  {
    if key == [] || !InHead(key[0]) then 0 else if |key| == 1 || !InHead(key[1]) then 1 else 2
  }

  lemma HeadLengthIs(h: Head, x: seq<Component>)
    requires forall i :: 0 <= i < |x| ==> !InHead(x[i])
    ensures HeadLength(HeadComponents(h) + x) == |HeadComponents(h)|
  {
    var p := HeadComponents(h);
    assert forall i :: 0 <= i < |p| ==> (p + x)[i] == p[i];
    assert x != [] ==> (p + x)[|p|] == x[0];
  }

  lemma HeadsDiffer(g: Head, h: Head, x: seq<Component>, y: seq<Component>)
    requires forall i :: 0 <= i < |x| ==> !InHead(x[i])
    requires forall i :: 0 <= i < |y| ==> !InHead(y[i])
    ensures HeadComponents(g) + x == HeadComponents(h) + y <==> g == h && x == y
  {
    var p, q := HeadComponents(g), HeadComponents(h);
    HeadLengthIs(g, x);
    HeadLengthIs(h, y);
    if p + x == q + y {
      assert p == (p + x)[..|p|] == (q + y)[..|q|] == q && x == (p + x)[|p|..] == (q + y)[|q|..] == y;
      SameHead(g, h);
    }
  }

  lemma SameHead(g: Head, h: Head)
    requires HeadComponents(g) == HeadComponents(h)
    ensures g == h
  {
    assert g.Drive? <==> HeadComponents(g) != [] && HeadComponents(g)[0].Prefix?;
    assert h.Drive? <==> HeadComponents(h) != [] && HeadComponents(h)[0].Prefix?;
    assert |HeadComponents(g)| == |HeadComponents(h)|;
    if g.Drive? && h.Drive? {
      assert HeadComponents(g)[0] == HeadComponents(h)[0];
      assert [g.letter, ':'][0] == [h.letter, ':'][0];
    }
  }

  /** Two Windows texts have one key exactly when they start alike, drives in either case, and have the same names up
      to folding, whatever separators and device prefixes they are written with. */
  lemma WindowsKeyMeans(a: string, b: string, fold: string -> string)
    ensures WindowsKey(a, fold) == WindowsKey(b, fold) <==>
      && HeadOf(Ordinary(a)) == HeadOf(Ordinary(b))
      && SameNames(NamesOf(Ordinary(a)), NamesOf(Ordinary(b)), fold)
  {
    hide WindowsKey, HeadOf, NamesOf, Ordinary, HeadComponents, SameNames;
    WindowsKeyIs(a, fold);
    WindowsKeyIs(b, fold);
    HeadsDiffer(HeadOf(Ordinary(a)), HeadOf(Ordinary(b)),
                WindowsComponents(NamesOf(Ordinary(a)), fold), WindowsComponents(NamesOf(Ordinary(b)), fold));
    SameComponents(NamesOf(Ordinary(a)), NamesOf(Ordinary(b)), fold);
  }

  // ----- ordinary spelling -----

  /** Backslashes become slashes and nothing else changes. */
  lemma {:induction false} SlashedMeans(text: string, i: nat)
    requires i < |text|
    ensures Slashed(text, Windows)[i] == if text[i] == '\\' then '/' else text[i]
  {
    if i > 0 {
      SlashedMeans(text[1..], i - 1);
    }
  }

  predicate IsUnc(text: string) {
    |text| == 3 && text[0] in "uU" && text[1] in "nN" && text[2] in "cC"
  }

  predicate StartsWithUnc(rest: string) { |rest| >= 4 && IsUnc(rest[..3]) && rest[3] == '/' }

  /** A device prefix is taken off: before a share path two slashes stay, before anything else nothing does. */
  lemma StripDeviceMeans(mark: char, rest: string)
    requires mark in "?."
    ensures StripDevice("//" + [mark] + "/" + rest) == if StartsWithUnc(rest) then "//" + rest[4..] else rest
  {
    var value := "//" + [mark] + "/" + rest;
    assert value[4..] == rest && value[..4] == "//" + [mark] + "/";
    assert HasPrefix(value, "//" + [mark] + "/") by {
      LoweredIs(value[..4]);
      assert AsciiLowered(value[..4]) == value[..4];
    }
    assert HasPrefix(value, "//?/unc/") || HasPrefix(value, "//./unc/") <==> StartsWithUnc(rest) by {
      if |rest| >= 4 {
        UncLowered(value);
      }
    }
    assert |rest| >= 4 ==> value[8..] == rest[4..];
    hide HasPrefix, StartsWithUnc;
  }

  lemma LoweredIs(s: string)
    ensures forall i :: 0 <= i < |s| ==> AsciiLowered(s)[i] == AsciiLower(s[i])
  {
  }

  lemma UncLowered(value: string)
    requires |value| >= 8 && value[..2] == "//" && value[2] in "?." && value[3] == '/'
    ensures AsciiLowered(value[..8]) == "//" + [value[2]] + "/unc/" <==> StartsWithUnc(value[4..])
    ensures AsciiLowered(value[..8]) in ["//?/unc/", "//./unc/"] ==>
      AsciiLowered(value[..8]) == "//" + [value[2]] + "/unc/"
  {
    var head := value[..8];
    LoweredIs(head);
    assert forall i :: 0 <= i < 8 ==> head[i] == value[i];
    assert value[4..][..3] == value[4..7];
    assert AsciiLowered(head)[2] == value[2];
    if StartsWithUnc(value[4..]) {
      assert AsciiLowered(head) == "//" + [value[2]] + "/unc/";
    }
    if AsciiLowered(head) == "//" + [value[2]] + "/unc/" {
      assert AsciiLowered(head)[4] == 'u' && AsciiLowered(head)[5] == 'n' && AsciiLowered(head)[6] == 'c'
          && AsciiLowered(head)[7] == '/';
    }
  }

  /** Any other text is left alone. */
  lemma NoDevice(value: string)
    requires !(|value| >= 4 && value[..2] == "//" && value[2] in "?." && value[3] == '/')
    ensures StripDevice(value) == value
  {
    if |value| >= 4 {
      LoweredIs(value[..4]);
      assert forall i :: 0 <= i < 4 ==> value[..4][i] == value[i];
      if |value| >= 8 {
        LoweredIs(value[..8]);
        assert forall i :: 0 <= i < 4 ==> AsciiLowered(value[..8])[i] == AsciiLowered(value[..4])[i];
      }
    }
  }

  /** One of the twenty-six ASCII letters, in either case. */
  predicate IsLetter(c: char) {
    0 <= c as int - 'a' as int < 26 || 0 <= c as int - 'A' as int < 26
  }

  /** A drive is one letter and a colon. */
  lemma DrivesAre(part: string)
    ensures IsDrive(part) <==> exists c :: IsLetter(c) && part == [c, ':']
  {
    if IsDrive(part) {
      assert IsLetter(part[0]) && part == [part[0], ':'];
    }
  }

  /** Lowering identifies the two cases of a letter and nothing else. */
  lemma LoweringIdentifies(c: char, d: char)
    ensures AsciiLower(c) == AsciiLower(d) <==>
      || c == d
      || ('a' <= c <= 'z' && d as int == c as int - 32)
      || ('a' <= d <= 'z' && c as int == d as int - 32)
  {
  }
}
