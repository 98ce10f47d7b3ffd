/**
 Path globs as deny rules use them: the tree of a pattern, how the tree is read
 from text, and the paths it accepts.  Only character ranges are shared with `Regex`.
 */
module Glob {
  import opened Wrappers
  import opened Regex

  datatype Token =
    | Literal(c: char)
    | AnyChar                                  // ?
    | ComponentStar(count: nat)                // a run of stars inside one component
    | DeepPrefix                               // **/ at a component boundary
    | DeepTail                                 // ** that ends a pattern or a branch
    | Class(mark: string, body: string)        // [body], [!body] or [^body]
    | Alternation(branches: Branches)          // {a,b}

  datatype Pattern = Empty | Item(first: Token, rest: Pattern)

  datatype Branches = Last(branch: Pattern) | More(branch: Pattern, others: Branches)

  // ----- bracket classes -----

  /** The ranges of a class body read so far, and whether a dash waits for its end. */
  function ScanBody(body: string): (r: (seq<Range>, bool))
    ensures body != "" ==> r.0 != []
  {
    if body == "" then ([], false)
    else
      var c := body[|body| - 1];
      var (ranges, open) := ScanBody(body[..|body| - 1]);
      if |body| == 1 then ([Range(c, c)], false)
      else if open then (ranges[|ranges| - 1 := Range(ranges[|ranges| - 1].lo, c)], false)
      else if c == '-' then (ranges, true)
      else (ranges + [Range(c, c)], false)
  }

  /** A dash still open at the closing bracket stands for itself. */
  function ClassRanges(body: string): (r: seq<Range>)
    ensures body != "" ==> r != []
  {
    var (ranges, open) := ScanBody(body);
    if open then ranges + [Range('-', '-')] else ranges
  }

  // ----- the paths a pattern accepts -----

  ghost predicate Accepted(p: Pattern, s: string)
    decreases p
  {
    match p
    case Empty => s == ""
    case Item(first, rest) =>
      exists i :: 0 <= i <= |s| && TokenAccepted(first, s[..i]) && Accepted(rest, s[i..])
  }

  ghost predicate TokenAccepted(t: Token, s: string)
    decreases t
  {
    match t
    case Literal(c) => s == [c]
    case AnyChar => |s| == 1 && s[0] != '/'
    case ComponentStar(_) => '/' !in s
    case DeepPrefix => s == "" || s[|s| - 1] == '/'
    case DeepTail => true
    case Class(mark, body) => |s| == 1 && InRanges(ClassRanges(body), s[0]) == (mark == "")
    case Alternation(branches) =>
      if AllBlank(branches) then s == "" else SomeAccepted(branches, s)
  }

  /** Blank branches are dropped, so they accept nothing beside a live one. */
  ghost predicate SomeAccepted(bs: Branches, s: string)
    decreases bs
  {
    || (!Blank(bs.branch) && Accepted(bs.branch, s))
    || (bs.More? && SomeAccepted(bs.others, s))
  }

  /** A pattern that spells nothing: no token, or only alternations of blanks. */
  predicate Blank(p: Pattern) {
    match p
    case Empty => true
    case Item(first, rest) => first.Alternation? && AllBlank(first.branches) && Blank(rest)
  }

  predicate AllBlank(bs: Branches) {
    Blank(bs.branch) && (bs.More? ==> AllBlank(bs.others))
  }

  // ----- ordered class ranges -----

  predicate OrderedRanges(ranges: seq<Range>) {
    forall k :: 0 <= k < |ranges| ==> ranges[k].lo <= ranges[k].hi
  }

  predicate Ordered(p: Pattern) {
    p.Item? ==> TokenOrdered(p.first) && Ordered(p.rest)
  }

  predicate TokenOrdered(t: Token) {
    && (t.Class? ==> OrderedRanges(ClassRanges(t.body)))
    && (t.Alternation? ==> BranchesOrdered(t.branches))
  }

  predicate BranchesOrdered(bs: Branches) {
    Ordered(bs.branch) && (bs.More? ==> BranchesOrdered(bs.others))
  }

  // ----- reading a pattern -----

  /** The first closing bracket at or after `i`. */
  function FindClose(characters: string, i: nat): (r: Option<nat>)
    requires i <= |characters|
    ensures r.Some? ==> i <= r.value < |characters| && characters[r.value] == ']'
    ensures r.Some? ==> ']' !in characters[i..r.value]
    ensures r.None? ==> ']' !in characters[i..]
    decreases |characters| - i
  {
    if i == |characters| then None
    else if characters[i] == ']' then Some(i)
    else FindClose(characters, i + 1)
  }

  function ClassStart(characters: string, i: nat): (r: nat)
    requires i < |characters|
    ensures i < r <= |characters|
  {
    if i + 1 < |characters| && characters[i + 1] in "!^" then i + 2 else i + 1
  }

  /** The class opened at `i`: its body holds at least one character. */
  function ReadClass(characters: string, i: nat): (r: Option<(Token, nat)>)
    requires i < |characters|
    ensures r.Some? ==> i < r.value.1 <= |characters| && r.value.0.Class? && r.value.0.body != ""
  {
    var start := ClassStart(characters, i);
    if start == |characters| then None
    else
      var close :- FindClose(characters, start + 1);
      Some((Class(characters[i + 1..start], characters[start..close]), close + 1))
  }

  function StarsEnd(characters: string, i: nat): (r: nat)
    requires i <= |characters|
    ensures i <= r <= |characters|
    ensures i < |characters| && characters[i] == '*' ==> i < r
    ensures forall k :: i <= k < r ==> characters[k] == '*'
    ensures r < |characters| ==> characters[r] != '*'
    decreases |characters| - i
  {
    if i < |characters| && characters[i] == '*' then StarsEnd(characters, i + 1) else i
  }

  predicate AtBoundary(characters: string, i: nat)
    requires i <= |characters|
  {
    i == 0 || characters[i - 1] in "/{,"
  }

  function ReadStars(characters: string, i: nat): (r: (Token, nat))
    requires i < |characters| && characters[i] == '*'
    ensures i < r.1 <= |characters|
  {
    var end := StarsEnd(characters, i);
    if end - i == 2 && AtBoundary(characters, i) && end < |characters| && characters[end] == '/' then
      (DeepPrefix, end + 1)
    else if end - i == 2 && AtBoundary(characters, i)
            && (end == |characters| || characters[end] in "},") then
      (DeepTail, end)
    else (ComponentStar(end - i), end)
  }

  predicate StopsBranch(characters: string, i: nat, nested: bool)
    requires i < |characters|
  {
    nested && characters[i] in "},"
  }

  /** The pattern from `i` to the end, or to the end of its branch when nested. */
  function ReadPattern(characters: string, i: nat, nested: bool): (r: (Pattern, nat))
    requires i <= |characters|
    ensures i <= r.1 <= |characters|
    ensures r.1 < |characters| ==> StopsBranch(characters, r.1, nested)
    decreases |characters| - i, 2
  {
    if i == |characters| || StopsBranch(characters, i, nested) then (Empty, i)
    else
      var (token, next) := ReadToken(characters, i);
      var (rest, end) := ReadPattern(characters, next, nested);
      (Item(token, rest), end)
  }

  /** One token; an opening that never closes is a literal character. */
  function ReadToken(characters: string, i: nat): (r: (Token, nat))
    requires i < |characters|
    ensures i < r.1 <= |characters|
    decreases |characters| - i, 1
  {
    match characters[i]
    case '*' => ReadStars(characters, i)
    case '?' => (AnyChar, i + 1)
    case '[' =>
      var bracket := ReadClass(characters, i);
      if bracket.Some? then bracket.value else (Literal('['), i + 1)
    case '{' =>
      var branches := ReadBranches(characters, i + 1);
      if branches.Some? then (Alternation(branches.value.0), branches.value.1)
      else (Literal('{'), i + 1)
    case c => (Literal(c), i + 1)
  }

  /** The branches after an opening brace, unless no brace closes them. */
  function ReadBranches(characters: string, i: nat): (r: Option<(Branches, nat)>)
    requires i <= |characters|
    ensures r.Some? ==> i < r.value.1 <= |characters|
    decreases |characters| - i, 3
  {
    var (branch, end) := ReadPattern(characters, i, true);
    if end == |characters| then None
    else if characters[end] == '}' then Some((Last(branch), end + 1))
    else
      var (others, close) :- ReadBranches(characters, end + 1);
      Some((More(branch, others), close))
  }

  function Parse(pattern: string): (p: Pattern) {
    ReadPattern(pattern, 0, false).0
  }

  // ----- a tree spells the text it was read from -----

  function Stars(count: nat): (r: string) {
    seq(count, _ => '*')
  }

  function Render(p: Pattern): (r: string) {
    match p
    case Empty => ""
    case Item(first, rest) => RenderToken(first) + Render(rest)
  }

  function RenderToken(t: Token): (r: string) {
    match t
    case Literal(c) => [c]
    case AnyChar => "?"
    case ComponentStar(count) => Stars(count)
    case DeepPrefix => "**/"
    case DeepTail => "**"
    case Class(mark, body) => "[" + mark + body + "]"
    case Alternation(branches) => "{" + RenderBranches(branches)
  }

  function RenderBranches(bs: Branches): (r: string) {
    match bs
    case Last(branch) => Render(branch) + "}"
    case More(branch, others) => Render(branch) + "," + RenderBranches(others)
  }

  lemma {:induction false} ReadPatternSpells(characters: string, i: nat, nested: bool)
    requires i <= |characters|
    ensures var (p, end) := ReadPattern(characters, i, nested); Render(p) == characters[i..end]
    decreases |characters| - i, 2
  {
    hide ReadToken, ReadBranches, RenderToken;
    if i == |characters| || StopsBranch(characters, i, nested) {
    } else {
      var (token, next) := ReadToken(characters, i);
      var (rest, end) := ReadPattern(characters, next, nested);
      ReadTokenSpells(characters, i);
      ReadPatternSpells(characters, next, nested);
      assert characters[i..end] == characters[i..next] + characters[next..end];
    }
  }

  lemma ReadClassSpells(characters: string, i: nat)
    requires i < |characters| && characters[i] == '[' && ReadClass(characters, i).Some?
    ensures var (t, end) := ReadClass(characters, i).value; RenderToken(t) == characters[i..end]
  {
    hide FindClose;
    var start := ClassStart(characters, i);
    var (t, end) := ReadClass(characters, i).value;
    assert t.mark == characters[i + 1..start] && t.body == characters[start..end - 1];
    assert characters[start..end] == t.body + "]";
    hide ReadClass, ClassStart;
    assert characters[i + 1..end] == t.mark + (t.body + "]");
    assert characters[i..end] == "[" + characters[i + 1..end];
  }

  lemma {:induction false} ReadTokenSpells(characters: string, i: nat)
    requires i < |characters|
    ensures var (t, end) := ReadToken(characters, i); RenderToken(t) == characters[i..end]
    decreases |characters| - i, 1
  {
    hide ReadPattern, Render, ReadClass, ReadBranches, RenderBranches;
    match characters[i]
    case '*' =>
    case '[' =>
      if ReadClass(characters, i).Some? {
        ReadClassSpells(characters, i);
      }
    case '{' =>
      var branches := ReadBranches(characters, i + 1);
      if branches.Some? {
        ReadBranchesSpell(characters, i + 1);
        assert characters[i..branches.value.1] == "{" + characters[i + 1..branches.value.1];
      }
    case _ =>
  }

  lemma {:induction false} ReadBranchesSpell(characters: string, i: nat)
    requires i <= |characters|
    requires ReadBranches(characters, i).Some?
    ensures var (bs, end) := ReadBranches(characters, i).value; RenderBranches(bs) == characters[i..end]
    decreases |characters| - i, 3
  {
    hide ReadToken, ReadPattern, Render;
    var (branch, end) := ReadPattern(characters, i, true);
    ReadPatternSpells(characters, i, true);
    if characters[end] == '}' {
      assert characters[i..end + 1] == characters[i..end] + "}";
    } else {
      ReadBranchesSpell(characters, end + 1);
      var close := ReadBranches(characters, end + 1).value.1;
      assert characters[i..close] == characters[i..end] + "," + characters[end + 1..close];
    }
  }

  /** Reading loses, adds and reorders no character of the pattern. */
  lemma ParseSpells(pattern: string)
    ensures Render(Parse(pattern)) == pattern
  {
    ReadPatternSpells(pattern, 0, false);
    assert pattern[0..] == pattern;
  }

  // ----- whole patterns -----

  /** The characters that make a pattern a glob rather than a plain path. */
  predicate HasMeta(pattern: string) {
    exists k :: 0 <= k < |pattern| && pattern[k] in "*?[{}"
  }

  ghost predicate DescendantAccepted(p: Pattern, s: string, i: nat) {
    i < |s| && s[i] == '/' && Accepted(p, s[..i])
  }

  /** A deny glob covers what it accepts; a plain path covers its descendants too. */
  ghost predicate Covers(pattern: string, s: string) {
    || Accepted(Parse(pattern), s)
    || (!HasMeta(pattern) && exists i: nat :: DescendantAccepted(Parse(pattern), s, i))
  }

  lemma {:induction false} PlainPatternFrom(pattern: string, i: nat, s: string)
    requires i <= |pattern|
    requires !HasMeta(pattern)
    ensures Accepted(ReadPattern(pattern, i, false).0, s) <==> s == pattern[i..]
    ensures Ordered(ReadPattern(pattern, i, false).0)
    decreases |pattern| - i
  {
    if i < |pattern| {
      var (token, next) := ReadToken(pattern, i);
      assert token == Literal(pattern[i]) && next == i + 1;
      var rest := ReadPattern(pattern, i + 1, false).0;
      if s != "" {
        PlainPatternFrom(pattern, i + 1, s[1..]);
        assert s[..1] == [s[0]];
        if Accepted(rest, s[1..]) && s[0] == pattern[i] {
          assert 0 <= 1 <= |s| && TokenAccepted(token, s[..1]) && Accepted(rest, s[1..]);
        }
      } else {
        PlainPatternFrom(pattern, i + 1, s);
      }
      assert pattern[i..] == [pattern[i]] + pattern[i + 1..];
    }
  }

  ghost predicate IsOrUnder(s: string, root: string) {
    s == root || root + "/" <= s
  }

  /** A pattern without metacharacters covers exactly itself and its `/`-descendants. */
  lemma PlainPatternCovers(pattern: string, s: string)
    requires !HasMeta(pattern)
    ensures Covers(pattern, s) <==> IsOrUnder(s, pattern)
  {
    var p := Parse(pattern);
    assert pattern[0..] == pattern;
    PlainPatternFrom(pattern, 0, s);
    if i: nat :| DescendantAccepted(p, s, i) {
      PlainPatternFrom(pattern, 0, s[..i]);
      assert s[..i + 1] == pattern + "/";
    }
    if pattern + "/" <= s {
      var i := |pattern|;
      assert (pattern + "/")[i] == '/';
      assert s[..i] == pattern;
      PlainPatternFrom(pattern, 0, s[..i]);
      assert DescendantAccepted(p, s, i);
    }
  }
}
