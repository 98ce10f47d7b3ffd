/**
 The texts of pattern trees. Which tree a text stands for is said by conditions on
 neighbouring tokens and on the text that follows, without reading anything; the
 reader of `Glob` finds exactly that tree.
 */
module GlobSyntax {
  import opened Wrappers
  import opened Glob

  // ----- canonical trees -----

  /** After this character, as at the start of a pattern, two stars may span components. */
  predicate Edge(c: char) { c in "/{," }

  /** No class opens before this text: it holds no closing bracket behind the first character of a body. */
  predicate Unclosed(follow: string) {
    var mark := if follow != "" && follow[0] in "!^" then 1 else 0;
    mark == |follow| || ']' !in follow[mark + 1..]
  }

  /** Nothing follows, or the end of a branch does. */
  predicate EndsHere(follow: string) { follow == "" || follow[0] in "}," }

  /** The tree is the one its text stands for, between a start that may be an edge and the text after it. */
  ghost predicate Canonical(p: Pattern, edge: bool, nested: bool, after: string)
    decreases |Render(p)| + |after|, 2
  {
    match p
    case Empty => true
    case Item(first, rest) =>
      var text := RenderToken(first);
      && text != ""
      && CanonicalToken(first, edge, nested, Render(rest) + after)
      && Canonical(rest, Edge(text[|text| - 1]), nested, after)
  }

  ghost predicate CanonicalToken(t: Token, edge: bool, nested: bool, follow: string)
    decreases |RenderToken(t)| + |follow|, 1
  {
    match t
    case Literal(c) =>
      && c !in "*?" && !(nested && c in "},")
      && (c == '[' ==> Unclosed(follow))
      && (c == '{' ==> forall bs, rest :: follow == RenderBranches(bs) + rest ==> !CanonicalBranches(bs, rest))
    case AnyChar => true
    case ComponentStar(count) =>
      && count > 0 && (follow == "" || follow[0] != '*')
      && !(count == 2 && edge && (EndsHere(follow) || follow[0] == '/'))
    case DeepPrefix => edge
    case DeepTail => edge && EndsHere(follow)
    case Class(mark, body) =>
      && mark in ["", "!", "^"] && body != "" && (mark == "" ==> body[0] !in "!^") && ']' !in body[1..]
    case Alternation(branches) => CanonicalBranches(branches, follow)
  }

  ghost predicate CanonicalBranches(bs: Branches, after: string)
    decreases |RenderBranches(bs)| + |after|, 3
  {
    match bs
    case Last(branch) => Canonical(branch, true, true, "}" + after)
    case More(branch, others) =>
      Canonical(branch, true, true, "," + (RenderBranches(others) + after)) && CanonicalBranches(others, after)
  }

  // ----- what is read is canonical -----

  lemma StarsSpell(characters: string, i: nat, n: nat, follow: string)
    requires i <= |characters| && characters[i..] == Stars(n) + follow && (follow == "" || follow[0] != '*')
    ensures StarsEnd(characters, i) == i + n
    decreases n
  {
    if n > 0 {
      assert characters[i] == (Stars(n) + follow)[0] == '*';
      assert characters[i + 1..] == characters[i..][1..] == Stars(n - 1) + follow;
      StarsSpell(characters, i + 1, n - 1, follow);
    } else if follow != "" {
      assert characters[i] == (Stars(n) + follow)[0];
    }
  }

  lemma ReadStarsCanonical(characters: string, i: nat, nested: bool)
    requires i < |characters| && characters[i] == '*'
    ensures var (t, next) := ReadStars(characters, i);
      CanonicalToken(t, AtBoundary(characters, i), nested, characters[next..])
  {
  }

  lemma ReadClassCanonical(characters: string, i: nat, edge: bool, nested: bool)
    requires i < |characters| && characters[i] == '['
    ensures var bracket := ReadClass(characters, i);
      if bracket.Some? then CanonicalToken(bracket.value.0, edge, nested, characters[bracket.value.1..])
      else Unclosed(characters[i + 1..])
  {
    hide FindClose;
    var start := ClassStart(characters, i);
    var follow := characters[i + 1..];
    var mark := start - (i + 1);
    assert follow != "" ==> follow[0] == characters[i + 1];
    assert characters[i + 1..start] == if mark == 0 then "" else [characters[i + 1]];
    if start < |characters| {
      assert follow[mark + 1..] == characters[start + 1..];
      if FindClose(characters, start + 1).Some? {
        var close := FindClose(characters, start + 1).value;
        assert characters[start..close][1..] == characters[start + 1..close];
      }
    }
  }

  lemma {:induction false} ReadPatternCanonical(characters: string, i: nat, nested: bool)
    requires i <= |characters|
    ensures var (p, end) := ReadPattern(characters, i, nested);
      Canonical(p, AtBoundary(characters, i), nested, characters[end..])
    decreases |characters| - i, 2
  {
    hide ReadToken, ReadBranches, CanonicalToken, RenderToken;
    if i < |characters| && !StopsBranch(characters, i, nested) {
      var (token, next) := ReadToken(characters, i);
      var (rest, end) := ReadPattern(characters, next, nested);
      ReadTokenCanonical(characters, i, nested);
      ReadTokenSpells(characters, i);
      ReadPatternCanonical(characters, next, nested);
      ReadPatternSpells(characters, next, nested);
      assert characters[next..] == characters[next..end] + characters[end..];
      assert characters[i..next][next - i - 1] == characters[next - 1];
    }
  }

  lemma {:induction false} ReadTokenCanonical(characters: string, i: nat, nested: bool)
    requires i < |characters| && !StopsBranch(characters, i, nested)
    ensures var (t, next) := ReadToken(characters, i);
      CanonicalToken(t, AtBoundary(characters, i), nested, characters[next..])
    decreases |characters| - i, 1
  {
    hide ReadPattern, ReadStars, ReadClass, ReadBranches, CanonicalBranches, RenderBranches;
    match characters[i]
    case '*' => ReadStarsCanonical(characters, i, nested);
    case '[' => ReadClassCanonical(characters, i, AtBoundary(characters, i), nested);
    case '{' =>
      var branches := ReadBranches(characters, i + 1);
      if branches.Some? {
        ReadBranchesCanonical(characters, i + 1);
      } else {
        forall bs, rest | characters[i + 1..] == RenderBranches(bs) + rest ensures !CanonicalBranches(bs, rest) {
          if CanonicalBranches(bs, rest) {
            CanonicalBranchesRead(characters, i + 1, bs, rest);
          }
        }
      }
    case _ =>
  }

  lemma {:induction false} ReadBranchesCanonical(characters: string, i: nat)
    requires 0 < i <= |characters| && characters[i - 1] in "{," && ReadBranches(characters, i).Some?
    ensures var (bs, close) := ReadBranches(characters, i).value; CanonicalBranches(bs, characters[close..])
    decreases |characters| - i, 3
  {
    hide ReadPattern, Canonical;
    var (branch, end) := ReadPattern(characters, i, true);
    ReadPatternCanonical(characters, i, true);
    if characters[end] == '}' {
      assert characters[end..] == "}" + characters[end + 1..];
    } else {
      ReadBranchesCanonical(characters, end + 1);
      ReadBranchesSpell(characters, end + 1);
      var close := ReadBranches(characters, end + 1).value.1;
      assert characters[end..] == "," + (characters[end + 1..close] + characters[close..]);
    }
  }

  // ----- a canonical tree is read from its text -----

  lemma CanonicalStarsRead(characters: string, i: nat, t: Token, nested: bool, follow: string)
    requires i < |characters| && (t.ComponentStar? || t.DeepPrefix? || t.DeepTail?)
    requires characters[i..] == RenderToken(t) + follow
    requires CanonicalToken(t, AtBoundary(characters, i), nested, follow)
    ensures ReadToken(characters, i) == (t, i + |RenderToken(t)|)
  {
    var count := if t.ComponentStar? then t.count else 2;
    var after := if t.DeepPrefix? then "/" + follow else follow;
    assert RenderToken(t) + follow == Stars(count) + after;
    assert characters[i] == characters[i..][0] == '*';
    StarsSpell(characters, i, count, after);
    assert characters[i + count..] == characters[i..][count..] == after;
    assert i + count < |characters| ==> characters[i + count] == after[0];
  }

  lemma ClassSplits(characters: string, i: nat, mark: string, body: string, follow: string)
    requires i <= |characters| && characters[i..] == RenderToken(Class(mark, body)) + follow
    ensures var start := i + 1 + |mark|;
      var close := start + |body|;
      && close < |characters| && characters[i] == '[' && characters[close] == ']'
      && characters[i + 1..start] == mark && characters[start..close] == body
  {
    var text := characters[i..];
    var start := 1 + |mark|;
    assert text == "[" + mark + body + "]" + follow;
    assert text[0] == '[' && text[1..start] == mark && text[start..start + |body|] == body && text[start + |body|] == ']';
    assert characters[i + 1..i + start] == text[1..start];
    assert characters[i + start..i + start + |body|] == text[start..start + |body|];
  }

  lemma ClassStartIs(characters: string, i: nat, mark: string, body: string, start: nat, close: nat)
    requires i < start == i + 1 + |mark| < close < |characters|
    requires characters[i + 1..start] == mark && characters[start..close] == body
    requires mark in ["", "!", "^"] && body != "" && (mark == "" ==> body[0] !in "!^")
    ensures ClassStart(characters, i) == start
  {
    if mark == "" {
      assert characters[i + 1] == characters[start..close][0];
    } else {
      assert characters[i + 1] == characters[i + 1..start][0];
    }
  }

  lemma ClassIsRead(characters: string, i: nat, start: nat, close: nat)
    requires i < start < close < |characters| && characters[i] == '[' && characters[close] == ']'
    requires ClassStart(characters, i) == start && ']' !in characters[start + 1..close]
    ensures ReadToken(characters, i) == (Class(characters[i + 1..start], characters[start..close]), close + 1)
  {
    hide ReadStars, ReadBranches, ClassStart, FindClose;
    FirstClose(characters, start + 1, close);
  }

  lemma CanonicalClassRead(characters: string, i: nat, mark: string, body: string, nested: bool, follow: string)
    requires i < |characters| && characters[i..] == RenderToken(Class(mark, body)) + follow
    requires CanonicalToken(Class(mark, body), AtBoundary(characters, i), nested, follow)
    ensures ReadToken(characters, i) == (Class(mark, body), i + |RenderToken(Class(mark, body))|)
  {
    assert mark in ["", "!", "^"] && body != "" && (mark == "" ==> body[0] !in "!^") && ']' !in body[1..];
    assert |RenderToken(Class(mark, body))| == |mark| + |body| + 2;
    hide CanonicalToken, RenderToken, ReadToken, AtBoundary, ClassStart;
    ClassSplits(characters, i, mark, body, follow);
    var start, close := i + 1 + |mark|, i + 1 + |mark| + |body|;
    ClassStartIs(characters, i, mark, body, start, close);
    assert characters[start + 1..close] == body[1..];
    ClassIsRead(characters, i, start, close);
  }

  lemma {:induction false} FirstClose(characters: string, i: nat, close: nat)
    requires i <= close < |characters| && characters[close] == ']' && ']' !in characters[i..close]
    ensures FindClose(characters, i) == Some(close)
    decreases close - i
  {
    if i < close {
      assert characters[i] == characters[i..close][0];
      assert characters[i + 1..close] == characters[i..close][1..];
      FirstClose(characters, i + 1, close);
    }
  }

  lemma {:induction false} CanonicalReads(characters: string, i: nat, p: Pattern, nested: bool, after: string)
    requires i <= |characters| && characters[i..] == Render(p) + after
    requires Canonical(p, AtBoundary(characters, i), nested, after)
    requires after == "" || (nested && after[0] in "},")
    ensures ReadPattern(characters, i, nested) == (p, i + |Render(p)|)
    decreases |characters| - i, 2
  {
    hide ReadToken, ReadBranches, CanonicalToken, RenderToken, CanonicalBranches;
    match p
    case Empty =>
      assert after != "" ==> characters[i] == after[0];
    case Item(first, rest) =>
      var text, follow := RenderToken(first), Render(rest) + after;
      assert characters[i..] == text + follow;
      assert characters[i] == text[0];
      CanonicalStart(first, AtBoundary(characters, i), nested, follow);
      CanonicalTokenReads(characters, i, first, nested, follow);
      var next := i + |text|;
      assert characters[next..] == characters[i..][|text|..] == follow;
      assert characters[next - 1] == characters[i..][|text| - 1] == text[|text| - 1];
      CanonicalReads(characters, next, rest, nested, after);
  }

  lemma CanonicalStart(t: Token, edge: bool, nested: bool, follow: string)
    requires CanonicalToken(t, edge, nested, follow) && RenderToken(t) != ""
    ensures !(nested && RenderToken(t)[0] in "},")
  {
    hide CanonicalBranches;
  }

  /** What stands behind a text that starts at `i`. */
  lemma Skip(characters: string, i: nat, x: string, y: string)
    requires i <= |characters| && characters[i..] == x + y
    ensures |characters| == i + |x| + |y| && characters[i + |x|..] == y
    ensures forall k :: 0 <= k < |x| ==> characters[i + k] == x[k]
  {
    assert characters[i + |x|..] == characters[i..][|x|..];
    assert forall k :: 0 <= k < |x| ==> characters[i + k] == characters[i..][k];
  }

  lemma LiteralReads(characters: string, i: nat, c: char, follow: string)
    requires i <= |characters| && characters[i..] == [c] + follow && c !in "*?[{"
    ensures i < |characters| && ReadToken(characters, i) == (Literal(c), i + 1)
  {
    hide ReadStars, ReadClass, ReadBranches;
    Skip(characters, i, [c], follow);
  }

  lemma AnyCharReads(characters: string, i: nat, follow: string)
    requires i <= |characters| && characters[i..] == "?" + follow
    ensures i < |characters| && ReadToken(characters, i) == (AnyChar, i + 1)
  {
    hide ReadStars, ReadClass, ReadBranches;
    Skip(characters, i, "?", follow);
  }

  lemma BracketReads(characters: string, i: nat, follow: string)
    requires i <= |characters| && characters[i..] == "[" + follow && Unclosed(follow)
    ensures i < |characters| && ReadToken(characters, i) == (Literal('['), i + 1)
  {
    hide ReadStars, ReadClass, ReadBranches, Unclosed;
    Skip(characters, i, "[", follow);
    UnclosedIsNone(characters, i);
  }

  lemma BraceReads(characters: string, i: nat, follow: string, branches: Option<(Branches, nat)>)
    requires i <= |characters| && characters[i..] == "{" + follow
    requires i < |characters| && branches == ReadBranches(characters, i + 1)
    ensures ReadToken(characters, i)
         == if branches.Some? then (Alternation(branches.value.0), branches.value.1) else (Literal('{'), i + 1)
  {
    hide ReadStars, ReadClass, ReadBranches;
    Skip(characters, i, "{", follow);
  }

  lemma {:induction false} CanonicalTokenReads(characters: string, i: nat, t: Token, nested: bool, follow: string)
    requires i < |characters| && characters[i..] == RenderToken(t) + follow && RenderToken(t) != ""
    requires CanonicalToken(t, AtBoundary(characters, i), nested, follow)
    ensures ReadToken(characters, i) == (t, i + |RenderToken(t)|)
    decreases |characters| - i, 1
  {
    hide ReadToken, ReadBranches, CanonicalBranches, RenderBranches, Unclosed;
    match t
    case Literal(c) =>
      if c == '[' {
        BracketReads(characters, i, follow);
      } else if c == '{' {
        UnbracedReads(characters, i, nested, follow);
      } else {
        LiteralReads(characters, i, c, follow);
      }
    case AnyChar => AnyCharReads(characters, i, follow);
    case ComponentStar(_) => CanonicalStarsRead(characters, i, t, nested, follow);
    case DeepPrefix => CanonicalStarsRead(characters, i, t, nested, follow);
    case DeepTail => CanonicalStarsRead(characters, i, t, nested, follow);
    case Class(mark, body) => CanonicalClassRead(characters, i, mark, body, nested, follow);
    case Alternation(branches) =>
      var text := RenderBranches(branches);
      assert "{" + text + follow == "{" + (text + follow);
      Skip(characters, i, "{", text + follow);
      CanonicalBranchesRead(characters, i + 1, branches, follow);
      BraceReads(characters, i, text + follow, ReadBranches(characters, i + 1));
  }

  lemma {:induction false} UnbracedReads(characters: string, i: nat, nested: bool, follow: string)
    requires i < |characters| && characters[i..] == "{" + follow
    requires CanonicalToken(Literal('{'), AtBoundary(characters, i), nested, follow)
    ensures ReadToken(characters, i) == (Literal('{'), i + 1)
    decreases |characters| - i, 0
  {
    hide ReadToken, ReadBranches, CanonicalBranches, RenderBranches, Unclosed;
    Skip(characters, i, "{", follow);
    var branches := ReadBranches(characters, i + 1);
    BraceReads(characters, i, follow, branches);
    if branches.Some? {
      var (bs, close) := branches.value;
      ReadBranchesSpell(characters, i + 1);
      assert follow == characters[i + 1..close] + characters[close..];
      ReadBranchesCanonical(characters, i + 1);
    }
  }

  lemma UnclosedIsNone(characters: string, i: nat)
    requires i < |characters| && characters[i] == '[' && Unclosed(characters[i + 1..])
    ensures ReadClass(characters, i).None?
  {
    hide FindClose;
    var start, follow := ClassStart(characters, i), characters[i + 1..];
    assert follow != "" ==> follow[0] == characters[i + 1];
    if start < |characters| {
      assert follow[start - i..] == characters[start + 1..];
    }
  }

  function AfterBranch(bs: Branches, after: string): (r: string) {
    if bs.Last? then "}" + after else "," + (RenderBranches(bs.others) + after)
  }

  lemma {:induction false} BranchesSplit(bs: Branches, after: string)
    ensures RenderBranches(bs) + after == Render(bs.branch) + AfterBranch(bs, after)
    ensures |RenderBranches(bs)| == |Render(bs.branch)| + 1 + if bs.More? then |RenderBranches(bs.others)| else 0
  {
    hide Render;
    var text := Render(bs.branch);
    if bs.More? {
      hide RenderBranches;
      var others := RenderBranches(bs.others);
      assert (text + "," + others) + after == text + ("," + (others + after));
    } else {
      assert (text + "}") + after == text + ("}" + after);
    }
  }

  lemma ReadOne(characters: string, i: nat)
    requires i <= |characters|
    ensures var (branch, end) := ReadPattern(characters, i, true);
      && (end < |characters| && characters[end] == '}' ==> ReadBranches(characters, i) == Some((Last(branch), end + 1)))
      && (end < |characters| && characters[end] == ',' && ReadBranches(characters, end + 1).Some? ==>
            var (others, close) := ReadBranches(characters, end + 1).value;
            ReadBranches(characters, i) == Some((More(branch, others), close)))
  {
    hide ReadPattern;
  }

  lemma {:induction false} CanonicalBranchesRead(characters: string, i: nat, bs: Branches, after: string)
    requires 0 < i <= |characters| && characters[i - 1] in "{,"
    requires characters[i..] == RenderBranches(bs) + after && CanonicalBranches(bs, after)
    ensures ReadBranches(characters, i) == Some((bs, i + |RenderBranches(bs)|))
    decreases |characters| - i, 3
  {
    hide ReadPattern, ReadBranches, Canonical, Render, RenderBranches;
    var text, follow := Render(bs.branch), AfterBranch(bs, after);
    BranchesSplit(bs, after);
    Skip(characters, i, text, follow);
    CanonicalReads(characters, i, bs.branch, true, follow);
    ReadOne(characters, i);
    var end := i + |text|;
    if bs.More? {
      var rest := RenderBranches(bs.others) + after;
      Skip(characters, end, ",", rest);
      assert characters[end] == ","[0];
      CanonicalBranchesRead(characters, end + 1, bs.others, after);
    } else {
      Skip(characters, end, "}", after);
      assert characters[end] == "}"[0];
    }
  }

  // ----- one tree for each text -----

  ghost predicate StandsFor(p: Pattern, text: string) {
    Render(p) == text && Canonical(p, true, false, "")
  }

  /** Every text stands for exactly one tree, and reading finds it: a round trip in both directions. */
  lemma ParseIsCanonical(pattern: string, p: Pattern)
    ensures StandsFor(Parse(pattern), pattern)
    ensures StandsFor(p, pattern) <==> p == Parse(pattern)
  {
    hide Canonical;
    ParseSpells(pattern);
    ReadPatternCanonical(pattern, 0, false);
    var end := ReadPattern(pattern, 0, false).1;
    assert pattern[end..] == "";
    if StandsFor(p, pattern) {
      assert pattern[0..] == Render(p) + "";
      CanonicalReads(pattern, 0, p, false, "");
    }
  }
}
