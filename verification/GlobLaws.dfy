/**
 What patterns mean, said of their texts alone: how the paths that fit a text
 follow from the paths that fit its parts.
 */
module GlobLaws {
  import opened Wrappers
  import opened Glob
  import opened GlobSyntax
  import Regex

  /** The path fits the pattern as a whole. */
  ghost predicate Fits(pattern: string, s: string) {
    Accepted(Parse(pattern), s)
  }

  predicate IsPlain(pattern: string) {
    forall k :: 0 <= k < |pattern| ==> pattern[k] !in "*?[{}"
  }

  /** A deny glob covers the paths that fit it; a plain path fits itself and covers what lies under it too. */
  lemma CoversFitting(pattern: string, s: string)
    ensures !IsPlain(pattern) ==> (Covers(pattern, s) <==> Fits(pattern, s))
    ensures IsPlain(pattern) ==> (Fits(pattern, s) <==> s == pattern) && (Covers(pattern, s) <==> IsOrUnder(s, pattern))
  {
    assert IsPlain(pattern) <==> !HasMeta(pattern);
    if IsPlain(pattern) {
      PlainPatternCovers(pattern, s);
      PlainPatternFrom(pattern, 0, s);
      assert pattern[0..] == pattern;
    }
  }

  // ----- trees of composed texts -----

  function Append(p: Pattern, q: Pattern): (r: Pattern) {
    match p
    case Empty => q
    case Item(first, rest) => Item(first, Append(rest, q))
  }

  lemma {:induction false} AppendRenders(p: Pattern, q: Pattern)
    ensures Render(Append(p, q)) == Render(p) + Render(q)
  {
    hide RenderToken, RenderBranches;
    if p.Item? {
      AppendRenders(p.rest, q);
      assert RenderToken(p.first) + (Render(p.rest) + Render(q)) == (RenderToken(p.first) + Render(p.rest)) + Render(q);
    }
  }

  ghost predicate Splits(p: Pattern, q: Pattern, s: string, i: nat) {
    i <= |s| && Accepted(p, s[..i]) && Accepted(q, s[i..])
  }

  lemma {:induction false} AppendAccepts(p: Pattern, q: Pattern, s: string)
    ensures Accepted(Append(p, q), s) <==> exists i: nat :: Splits(p, q, s, i)
    decreases p
  {
    match p
    case Empty =>
      assert s[..0] == "" && s[0..] == s;
      if Accepted(q, s) {
        assert Splits(p, q, s, 0);
      }
      if i: nat :| Splits(p, q, s, i) {
        assert s[i..] == s;
      }
    case Item(first, rest) =>
      if Accepted(Append(p, q), s) {
        var i :| 0 <= i <= |s| && TokenAccepted(first, s[..i]) && Accepted(Append(rest, q), s[i..]);
        AppendAccepts(rest, q, s[i..]);
        var j: nat :| Splits(rest, q, s[i..], j);
        assert s[..i + j][..i] == s[..i] && s[..i + j][i..] == s[i..][..j] && s[i + j..] == s[i..][j..];
        assert Splits(p, q, s, i + j);
      }
      if j: nat :| Splits(p, q, s, j) {
        var t := s[..j];
        var i :| 0 <= i <= |t| && TokenAccepted(first, t[..i]) && Accepted(rest, t[i..]);
        assert t[..i] == s[..i] && t[i..] == s[i..][..j - i] && s[i..][j - i..] == s[j..];
        assert Splits(rest, q, s[i..], j - i);
        AppendAccepts(rest, q, s[i..]);
      }
  }

  /** Where no star stands first, it does not matter whether the text starts at an edge. */
  lemma EdgeDoesNotMatter(p: Pattern, nested: bool, after: string)
    requires Canonical(p, true, nested, after) && (Render(p) == "" || Render(p)[0] != '*')
    ensures Canonical(p, false, nested, after)
  {
    hide CanonicalBranches;
    if p.Item? {
      assert Render(p)[0] == RenderToken(p.first)[0];
    }
  }

  /** A token whose text holds no opening bracket or brace only looks at the first character behind it. */
  lemma TokenLooksAtNext(t: Token, edge: bool, nested: bool, follow: string, other: string)
    requires CanonicalToken(t, edge, nested, follow) && '[' !in RenderToken(t) && '{' !in RenderToken(t)
    requires follow != "" && other != "" && follow[0] == other[0]
    ensures CanonicalToken(t, edge, nested, other)
  {
    hide CanonicalBranches, RenderBranches;
    NoOpening(t);
  }

  lemma LastTokenExtends(t: Token, edge: bool, other: string)
    requires CanonicalToken(t, edge, false, "") && '[' !in RenderToken(t) && '{' !in RenderToken(t)
    requires RenderToken(t) != "" && RenderToken(t)[|RenderToken(t)| - 1] != '*'
    ensures CanonicalToken(t, edge, false, other)
  {
    hide CanonicalBranches, RenderBranches;
    NoOpening(t);
  }

  lemma NoOpening(t: Token)
    requires '[' !in RenderToken(t) && '{' !in RenderToken(t)
    ensures !t.Class? && !t.Alternation? && t != Literal('[') && t != Literal('{')
  {
    hide RenderBranches;
    if t.Literal? {
      assert RenderToken(t)[0] == t.c;
    }
  }

  lemma PartOf(x: string, y: string, c: char)
    requires c !in x + y
    ensures c !in x && c !in y
  {
    assert forall d :: d in x || d in y ==> d in x + y;
  }

  /** What follows does not change a tree whose text holds no opening bracket or brace and does not end in a star. */
  lemma {:induction false} CanonicalExtends(p: Pattern, edge: bool, follow: string)
    requires Canonical(p, edge, false, "") && '[' !in Render(p) && '{' !in Render(p)
    requires Render(p) == "" || Render(p)[|Render(p)| - 1] != '*'
    ensures Canonical(p, edge, false, follow)
  {
    hide CanonicalToken, RenderToken, CanonicalBranches;
    if p.Item? {
      var text, rest := RenderToken(p.first), Render(p.rest);
      PartOf(text, rest, '[');
      PartOf(text, rest, '{');
      assert rest + "" == rest;
      if rest == "" {
        assert text + rest == text && rest + follow == follow;
        LastTokenExtends(p.first, edge, follow);
      } else {
        assert (text + rest)[|text + rest| - 1] == rest[|rest| - 1];
        TokenLooksAtNext(p.first, edge, false, rest, rest + follow);
      }
      CanonicalExtends(p.rest, Edge(text[|text| - 1]), follow);
    }
  }

  /** Whether what stands behind a text stands at an edge. */
  predicate EdgeAfter(text: string, edge: bool) {
    if text == "" then edge else Edge(text[|text| - 1])
  }

  lemma {:induction false} CanonicalAppends(p: Pattern, q: Pattern, edge: bool)
    requires Canonical(p, edge, false, Render(q)) && Canonical(q, EdgeAfter(Render(p), edge), false, "")
    ensures Canonical(Append(p, q), edge, false, "")
    decreases p
  {
    hide CanonicalToken, RenderToken;
    if p.Item? {
      var text := RenderToken(p.first);
      AppendRenders(p.rest, q);
      assert Render(Append(p.rest, q)) + "" == Render(p.rest) + Render(q);
      if Render(p.rest) == "" {
        assert Render(p) == text;
      } else {
        assert Render(p)[|Render(p)| - 1] == Render(p.rest)[|Render(p.rest)| - 1];
      }
      CanonicalAppends(p.rest, q, Edge(text[|text| - 1]));
    }
  }

  /** The two texts do not meet in a run of stars, nor in stars that the first one takes off their edge. */
  predicate Apart(x: string, y: string) {
    x == "" || (x[|x| - 1] != '*' && (Edge(x[|x| - 1]) || y == "" || y[0] != '*'))
  }

  /** A text without opening brackets and braces is read by itself, unless stars meet where it ends. */
  lemma ParseAppends(x: string, y: string)
    requires '[' !in x && '{' !in x && Apart(x, y)
    ensures Parse(x + y) == Append(Parse(x), Parse(y))
  {
    hide Canonical, Parse;
    var p, q := Parse(x), Parse(y);
    ParseIsCanonical(x, p);
    ParseIsCanonical(y, q);
    CanonicalExtends(p, true, y);
    if !EdgeAfter(x, true) {
      EdgeDoesNotMatter(q, false, "");
    }
    CanonicalAppends(p, q, true);
    AppendRenders(p, q);
    ParseIsCanonical(x + y, Append(p, q));
  }

  // ----- one text after the other -----

  ghost predicate FitsInTwo(x: string, y: string, s: string, i: nat) {
    i <= |s| && Fits(x, s[..i]) && Fits(y, s[i..])
  }

  lemma NothingFits(s: string)
    ensures Fits("", s) <==> s == ""
  {
  }

  /** A path fits two texts one after the other exactly when it is a path that fits the first and one that fits the second. */
  lemma ConcatenationFits(x: string, y: string, s: string)
    requires '[' !in x && '{' !in x && Apart(x, y)
    ensures Fits(x + y, s) <==> exists i: nat :: FitsInTwo(x, y, s, i)
  {
    hide Parse, Accepted;
    ParseAppends(x, y);
    AppendAccepts(Parse(x), Parse(y), s);
    if i: nat :| Splits(Parse(x), Parse(y), s, i) {
      assert FitsInTwo(x, y, s, i);
    }
    if i: nat :| FitsInTwo(x, y, s, i) {
      assert Splits(Parse(x), Parse(y), s, i);
    }
  }

  // ----- stars off an edge -----

  /** How many stars a text starts with. */
  function Run(text: string): (n: nat)
    ensures n <= |text| && text == Stars(n) + text[n..] && (text[n..] == "" || text[n..][0] != '*')
  {
    if text != "" && text[0] == '*' then
      var n := 1 + Run(text[1..]);
      assert text[n..] == text[1..][n - 1..];
      n
    else 0
  }

  /** The path fits the text where that does not stand at an edge: there any run of stars fits any text within one
      component, two stars as well. */
  ghost predicate Behind(y: string, s: string) {
    var n := Run(y);
    if n == 0 then Fits(y, s) else exists i: nat :: i <= |s| && '/' !in s[..i] && Fits(y[n..], s[i..])
  }

  lemma StarItem(n: nat, q: Pattern)
    requires n > 0 && Canonical(q, false, false, "") && (Render(q) == "" || Render(q)[0] != '*')
    ensures Canonical(Item(ComponentStar(n), q), false, false, "")
    ensures Render(Item(ComponentStar(n), q)) == Stars(n) + Render(q)
  {
    assert Render(q) + "" == Render(q);
    assert !Edge(Stars(n)[n - 1]);
  }

  lemma StarAccepts(n: nat, q: Pattern, s: string)
    ensures Accepted(Item(ComponentStar(n), q), s) <==> exists k: nat :: k <= |s| && '/' !in s[..k] && Accepted(q, s[k..])
  {
    if k: nat :| k <= |s| && '/' !in s[..k] && Accepted(q, s[k..]) {
      assert TokenAccepted(ComponentStar(n), s[..k]) && Accepted(q, s[k..]);
    }
  }

  /** The tree of a text that does not stand at an edge. */
  lemma TreeBehind(y: string) returns (q: Pattern)
    ensures Render(q) == y && Canonical(q, false, false, "")
    ensures forall s :: Accepted(q, s) <==> Behind(y, s)
  {
    hide Canonical, Parse, Accepted, Run;
    var n := Run(y);
    var z := y[n..];
    q := Parse(z);
    ParseIsCanonical(z, q);
    EdgeDoesNotMatter(q, false, "");
    if n == 0 {
      assert z == y;
    } else {
      StarItem(n, q);
      forall s ensures Accepted(Item(ComponentStar(n), q), s) <==> Behind(y, s) {
        StarAccepts(n, q, s);
      }
      q := Item(ComponentStar(n), q);
    }
  }

  // ----- single characters -----

  lemma CanonicalFirst(t: Token, q: Pattern)
    requires RenderToken(t) != "" && CanonicalToken(t, true, false, Render(q))
    requires Canonical(q, EdgeAfter(RenderToken(t), true), false, "")
    ensures StandsFor(Item(t, q), RenderToken(t) + Render(q))
  {
    hide CanonicalToken, RenderToken;
    assert Render(q) + "" == Render(q);
  }

  /** The path fits what stands behind a token, at an edge or not. */
  ghost predicate Follows(t: Token, y: string, s: string) {
    if EdgeAfter(RenderToken(t), true) then Fits(y, s) else Behind(y, s)
  }

  ghost predicate TokenThenFits(t: Token, y: string, s: string, i: nat) {
    i <= |s| && TokenAccepted(t, s[..i]) && Follows(t, y, s[i..])
  }

  /** The tree behind a token. */
  lemma TreeAfter(t: Token, y: string) returns (q: Pattern)
    requires RenderToken(t) != "" && CanonicalToken(t, true, false, y)
    ensures Parse(RenderToken(t) + y) == Item(t, q)
    ensures forall s :: Accepted(q, s) <==> Follows(t, y, s)
  {
    hide Parse, CanonicalToken, RenderToken, Canonical, Behind, Accepted;
    if EdgeAfter(RenderToken(t), true) {
      q := Parse(y);
      ParseIsCanonical(y, q);
    } else {
      q := TreeBehind(y);
    }
    CanonicalFirst(t, q);
    ParseIsCanonical(RenderToken(t) + y, Item(t, q));
  }

  ghost predicate TokenSplits(t: Token, q: Pattern, s: string, i: nat) {
    i <= |s| && TokenAccepted(t, s[..i]) && Accepted(q, s[i..])
  }

  lemma ItemSplits(t: Token, q: Pattern, s: string)
    ensures Accepted(Item(t, q), s) <==> exists i: nat :: TokenSplits(t, q, s, i)
  {
    hide TokenAccepted;
    if Accepted(Item(t, q), s) {
      var i :| 0 <= i <= |s| && TokenAccepted(t, s[..i]) && Accepted(q, s[i..]);
      assert TokenSplits(t, q, s, i);
    }
  }

  lemma TokenThen(t: Token, y: string, s: string)
    requires RenderToken(t) != "" && CanonicalToken(t, true, false, y)
    ensures Fits(RenderToken(t) + y, s) <==> exists i: nat :: TokenThenFits(t, y, s, i)
  {
    hide Parse, TokenAccepted, CanonicalToken, RenderToken, Follows, Accepted;
    var q := TreeAfter(t, y);
    ItemSplits(t, q, s);
    assert forall i: nat :: TokenSplits(t, q, s, i) <==> TokenThenFits(t, y, s, i);
  }

  lemma FirstThen(t: Token, y: string, s: string)
    requires RenderToken(t) != "" && CanonicalToken(t, true, false, y)
    requires forall u :: TokenAccepted(t, u) ==> |u| == 1
    ensures Fits(RenderToken(t) + y, s) <==> s != "" && TokenAccepted(t, [s[0]]) && Follows(t, y, s[1..])
  {
    hide Fits, TokenAccepted, CanonicalToken, RenderToken, Follows;
    TokenThen(t, y, s);
    if s != "" {
      assert s[..1] == [s[0]];
      assert TokenThenFits(t, y, s, 1) <==> TokenAccepted(t, [s[0]]) && Follows(t, y, s[1..]);
    }
    if i: nat :| TokenThenFits(t, y, s, i) {
      assert i == 1;
    }
  }

  /** A character that is no metacharacter fits itself. */
  lemma CharacterFits(c: char, y: string, s: string)
    requires c !in "*?[{"
    ensures c in "/," ==> (Fits([c] + y, s) <==> s != "" && s[0] == c && Fits(y, s[1..]))
    ensures c !in "/," ==> (Fits([c] + y, s) <==> s != "" && s[0] == c && Behind(y, s[1..]))
  {
    hide Fits, Behind;
    FirstThen(Literal(c), y, s);
  }

  /** A question mark fits one character, and no separator. */
  lemma QuestionMarkFits(y: string, s: string)
    ensures Fits("?" + y, s) <==> s != "" && s[0] != '/' && Behind(y, s[1..])
  {
    hide Fits, Behind;
    FirstThen(AnyChar, y, s);
  }

  // ----- stars at an edge -----

  lemma NoRun(y: string)
    requires y == "" || y[0] != '*'
    ensures forall s :: Behind(y, s) <==> Fits(y, s)
  {
  }

  /** At a start, two stars and a separator fit nothing, or any text that ends in a separator. */
  lemma DeepPrefixFits(y: string, s: string)
    ensures Fits("**/" + y, s) <==> exists i: nat :: i <= |s| && (i == 0 || s[i - 1] == '/') && Fits(y, s[i..])
  {
    hide Fits;
    TokenThen(DeepPrefix, y, s);
    if i: nat :| TokenThenFits(DeepPrefix, y, s, i) {
      assert i == 0 || s[..i][i - 1] == s[i - 1];
    }
    if i: nat :| i <= |s| && (i == 0 || s[i - 1] == '/') && Fits(y, s[i..]) {
      assert TokenThenFits(DeepPrefix, y, s, i);
    }
  }

  /** At a start, two stars that end a pattern or a branch fit anything. */
  lemma DeepTailFits(y: string, s: string)
    requires y == "" || y[0] in "},"
    ensures Fits("**" + y, s) <==> exists i: nat :: i <= |s| && Fits(y, s[i..])
  {
    NoRun(y);
    hide Fits;
    TokenThen(DeepTail, y, s);
    if i: nat :| i <= |s| && Fits(y, s[i..]) {
      assert TokenThenFits(DeepTail, y, s, i);
    }
  }

  /** Any other run of stars fits any text within one component. */
  lemma StarsFit(n: nat, y: string, s: string)
    requires n > 0 && (y == "" || y[0] != '*') && !(n == 2 && (y == "" || y[0] in "/},"))
    ensures Fits(Stars(n) + y, s) <==> exists i: nat :: i <= |s| && '/' !in s[..i] && Fits(y, s[i..])
  {
    NoRun(y);
    hide Fits;
    TokenThen(ComponentStar(n), y, s);
    if i: nat :| i <= |s| && '/' !in s[..i] && Fits(y, s[i..]) {
      assert TokenThenFits(ComponentStar(n), y, s, i);
    }
  }

  // ----- brackets -----

  /** What a class body lists: single characters and ranges. A dash at either end stands for itself, and of several
      dashes in a row of ends only the last end counts. */
  predicate Lists(body: string, c: char)
    decreases |body|
  {
    if body == "" then false
    else if |body| >= 5 && body[1] == '-' && body[3] == '-' then Lists([body[0], '-'] + body[4..], c)
    else if |body| >= 3 && body[1] == '-' then body[0] <= c <= body[2] || Lists(body[3..], c)
    else c == body[0] || Lists(body[1..], c)
  }

  /** The same from inside a body: a range that may still grow, and the text behind it. */
  predicate ListsOn(lo: char, hi: char, rest: string, c: char)
    decreases |rest|
  {
    if rest == "" then lo <= c <= hi
    else if rest == "-" then lo <= c <= hi || c == '-'
    else if rest[0] == '-' then ListsOn(lo, rest[1], rest[2..], c)
    else lo <= c <= hi || ListsOn(rest[0], rest[0], rest[1..], c)
  }

  lemma {:induction false} ListsContinues(body: string, c: char)
    requires body != ""
    ensures Lists(body, c) <==> ListsOn(body[0], body[0], body[1..], c)
    decreases |body|
  {
    var rest := body[1..];
    if |body| >= 3 && body[1] == '-' {
      assert rest[0] == '-' && rest[1] == body[2] && rest[2..] == body[3..];
      if |body| >= 5 && body[3] == '-' {
        var shorter := [body[0], '-'] + body[4..];
        ListsContinues(shorter, c);
        assert shorter[1..][0] == '-' && shorter[1..][1] == body[4] && shorter[1..][2..] == body[5..];
        assert body[3..][1] == body[4] && body[3..][2..] == body[5..];
      } else if |body| == 4 && body[3] == '-' {
        assert body[3..] == "-" && Lists("-", c) == (c == '-');
      } else if |body| > 3 {
        ListsContinues(body[3..], c);
        assert body[3..][1..] == body[4..];
      }
    } else if |body| == 2 && body[1] == '-' {
      assert rest == "-" && Lists("-", c) == (c == '-');
    } else if |body| > 1 {
      ListsContinues(rest, c);
    }
  }

  /** A body read up to a range, and the text behind that range. */
  lemma {:induction false} ScanContinues(front: string, rest: string, ranges: seq<Regex.Range>, lo: char, hi: char, c: char)
    requires front != "" && ScanBody(front) == (ranges + [Regex.Range(lo, hi)], false)
    ensures Regex.InRanges(ClassRanges(front + rest), c) <==> Regex.InRanges(ranges, c) || ListsOn(lo, hi, rest, c)
    decreases |rest|
  {
    if rest == "" {
      assert front + rest == front;
      InMore(ranges, Regex.Range(lo, hi), c);
    } else {
      var more, next := front + [rest[0]], front + rest;
      assert more[..|front|] == front && more[|front|] == rest[0];
      assert next == more + rest[1..];
      if rest[0] != '-' {
        assert ScanBody(more) == (ranges + [Regex.Range(lo, hi)] + [Regex.Range(rest[0], rest[0])], false);
        ScanContinues(more, rest[1..], ranges + [Regex.Range(lo, hi)], rest[0], rest[0], c);
        InMore(ranges, Regex.Range(lo, hi), c);
        assert rest != "-";
      } else if rest == "-" {
        assert more == next;
        assert ScanBody(next) == (ranges + [Regex.Range(lo, hi)], true);
        InMore(ranges, Regex.Range(lo, hi), c);
        InMore(ranges + [Regex.Range(lo, hi)], Regex.Range('-', '-'), c);
      } else {
        ScanDash(front, rest[1], ranges, lo, hi);
        assert next == (front + ['-', rest[1]]) + rest[2..];
        ScanContinues(front + ['-', rest[1]], rest[2..], ranges, lo, rest[1], c);
      }
    }
  }

  lemma ScanDash(front: string, end: char, ranges: seq<Regex.Range>, lo: char, hi: char)
    requires front != "" && ScanBody(front) == (ranges + [Regex.Range(lo, hi)], false)
    ensures ScanBody(front + ['-', end]) == (ranges + [Regex.Range(lo, end)], false)
  {
    var open := front + ['-'];
    var closed := front + ['-', end];
    assert open[..|front|] == front && closed[..|open|] == open;
    assert ScanBody(open) == (ranges + [Regex.Range(lo, hi)], true);
    assert (ranges + [Regex.Range(lo, hi)])[|ranges| := Regex.Range(lo, end)] == ranges + [Regex.Range(lo, end)];
  }

  lemma InMore(ranges: seq<Regex.Range>, r: Regex.Range, c: char)
    ensures Regex.InRanges(ranges + [r], c) <==> Regex.InRanges(ranges, c) || r.lo <= c <= r.hi
  {
    var more := ranges + [r];
    if k :| 0 <= k < |ranges| && ranges[k].lo <= c <= ranges[k].hi {
      assert more[k] == ranges[k];
    }
    assert more[|ranges|] == r;
  }

  lemma ClassLists(body: string, c: char)
    requires body != ""
    ensures Regex.InRanges(ClassRanges(body), c) <==> Lists(body, c)
  {
    var front := [body[0]];
    assert front[..0] == "" && front + body[1..] == body;
    assert ScanBody("") == ([], false);
    assert [] + [Regex.Range(body[0], body[0])] == [Regex.Range(body[0], body[0])];
    ScanContinues(front, body[1..], [], body[0], body[0], c);
    ListsContinues(body, c);
  }

  predicate ClassText(mark: string, body: string) {
    mark in ["", "!", "^"] && body != "" && (mark == "" ==> body[0] !in "!^") && ']' !in body[1..]
  }

  /** A closed class fits one character: one that its body lists, or with a mark one that it does not. */
  lemma ClassFits(mark: string, body: string, y: string, s: string)
    requires ClassText(mark, body)
    ensures Fits("[" + mark + body + "]" + y, s) <==> s != "" && (Lists(body, s[0]) <==> mark == "") && Behind(y, s[1..])
  {
    hide Fits, Behind, Lists, ClassRanges, Regex.InRanges;
    var t := Class(mark, body);
    assert !EdgeAfter(RenderToken(t), true);
    FirstThen(t, y, s);
    if s != "" {
      ClassLists(body, s[0]);
    }
  }

  /** A bracket that nothing closes fits itself. */
  lemma OpenBracketFits(y: string, s: string)
    requires Unclosed(y)
    ensures Fits("[" + y, s) <==> s != "" && s[0] == '[' && Behind(y, s[1..])
  {
    hide Fits, Behind, Unclosed;
    FirstThen(Literal('['), y, s);
  }

  // ----- braces -----

  /** A brace that nothing closes fits itself. */
  lemma OpenBraceFits(y: string, s: string)
    requires '}' !in y
    ensures Fits("{" + y, s) <==> s != "" && s[0] == '{' && Fits(y, s[1..])
  {
    forall bs, rest ensures '}' in RenderBranches(bs) + rest {
      BranchesClose(bs);
    }
    hide Fits, CanonicalBranches, RenderBranches;
    FirstThen(Literal('{'), y, s);
  }

  lemma {:induction false} BranchesClose(bs: Branches)
    ensures '}' in RenderBranches(bs)
  {
    hide Render;
    if bs.More? {
      BranchesClose(bs.others);
    }
  }

  function Joined(texts: seq<string>): (r: string)
    requires texts != []
  {
    if |texts| == 1 then texts[0] else texts[0] + "," + Joined(texts[1..])
  }

  /** Texts without braces, commas and brackets. */
  predicate Flat(text: string) {
    forall k :: 0 <= k < |text| ==> text[k] !in "{},["
  }

  function TreesOf(texts: seq<string>): (bs: Branches)
    requires texts != []
  {
    if |texts| == 1 then Last(Parse(texts[0])) else More(Parse(texts[0]), TreesOf(texts[1..]))
  }

  lemma {:induction false} TreesRender(texts: seq<string>)
    requires texts != []
    ensures RenderBranches(TreesOf(texts)) == Joined(texts) + "}"
    decreases |texts|
  {
    hide Parse;
    ParseSpells(texts[0]);
    if |texts| > 1 {
      TreesRender(texts[1..]);
    }
  }

  lemma {:induction false} FlatNests(p: Pattern, edge: bool, after: string)
    requires Canonical(p, edge, false, "") && Flat(Render(p)) && after != "" && after[0] in "},"
    ensures Canonical(p, edge, true, after)
  {
    hide CanonicalToken, RenderToken, CanonicalBranches;
    if p.Item? {
      var text, rest := RenderToken(p.first), Render(p.rest);
      FlatParts(text, rest);
      assert rest + "" == rest;
      FlatTokenNests(p.first, edge, rest, after);
      FlatNests(p.rest, Edge(text[|text| - 1]), after);
    }
  }

  lemma FlatParts(x: string, y: string)
    requires Flat(x + y)
    ensures Flat(x) && Flat(y)
  {
    assert forall k :: 0 <= k < |x| ==> x[k] == (x + y)[k];
    assert forall k :: 0 <= k < |y| ==> y[k] == (x + y)[|x| + k];
  }

  lemma FlatTokenNests(t: Token, edge: bool, rest: string, after: string)
    requires CanonicalToken(t, edge, false, rest) && Flat(RenderToken(t)) && RenderToken(t) != ""
    requires after != "" && after[0] in "},"
    ensures CanonicalToken(t, edge, true, rest + after)
  {
    hide CanonicalBranches, RenderBranches;
    assert RenderToken(t)[0] !in "{},[";
    NoOpening(t);
    assert (rest + after)[0] == if rest == "" then after[0] else rest[0];
  }

  lemma {:induction false} TreesAreCanonical(texts: seq<string>, after: string)
    requires texts != [] && forall k :: 0 <= k < |texts| ==> Flat(texts[k])
    ensures CanonicalBranches(TreesOf(texts), after)
    decreases |texts|
  {
    hide Parse, Canonical, Flat;
    ParseIsCanonical(texts[0], Parse(texts[0]));
    if |texts| == 1 {
      FlatNests(Parse(texts[0]), true, "}" + after);
    } else {
      TreesAreCanonical(texts[1..], after);
      FlatNests(Parse(texts[0]), true, "," + (RenderBranches(TreesOf(texts[1..])) + after));
    }
  }

  lemma FlatBlank(text: string)
    requires Flat(text)
    ensures Blank(Parse(text)) <==> text == ""
  {
    hide Parse;
    var p := Parse(text);
    ParseSpells(text);
    if p.Item? {
      ParseIsCanonical(text, p);
      FlatParts(RenderToken(p.first), Render(p.rest));
      assert RenderToken(p.first)[0] !in "{},[";
      NoOpening(p.first);
    }
  }

  ghost predicate FitsSome(texts: seq<string>, s: string) {
    exists k :: 0 <= k < |texts| && texts[k] != "" && Fits(texts[k], s)
  }

  lemma {:induction false} TreesAccept(texts: seq<string>, s: string)
    requires texts != [] && forall k :: 0 <= k < |texts| ==> Flat(texts[k])
    ensures AllBlank(TreesOf(texts)) <==> forall k :: 0 <= k < |texts| ==> texts[k] == ""
    ensures SomeAccepted(TreesOf(texts), s) <==> FitsSome(texts, s)
    decreases |texts|
  {
    hide Parse, Flat;
    FlatBlank(texts[0]);
    if |texts| > 1 {
      var rest := texts[1..];
      TreesAccept(rest, s);
      assert texts == [texts[0]] + rest;
      if k :| 0 <= k < |rest| && rest[k] != "" && Fits(rest[k], s) {
        assert texts[k + 1] == rest[k];
      }
      if k :| 0 <= k < |texts| && texts[k] != "" && Fits(texts[k], s) {
        assert k > 0 ==> rest[k - 1] == texts[k];
      }
    }
  }

  ghost predicate FitsBraces(texts: seq<string>, s: string) {
    if forall k :: 0 <= k < |texts| ==> texts[k] == "" then s == "" else FitsSome(texts, s)
  }

  /** Braces fit what any of their texts fits, except the empty ones, which count only where all are empty. */
  lemma BracesFit(texts: seq<string>, y: string, s: string)
    requires texts != [] && (forall k :: 0 <= k < |texts| ==> Flat(texts[k]))
    ensures Fits("{" + Joined(texts) + "}" + y, s) <==>
      exists i: nat :: i <= |s| && FitsBraces(texts, s[..i]) && Behind(y, s[i..])
  {
    hide Fits, Behind, CanonicalBranches, RenderBranches, TreesOf, Joined, SomeAccepted, AllBlank, Flat, FitsSome;
    var t := Alternation(TreesOf(texts));
    TreesRender(texts);
    TreesAreCanonical(texts, y);
    assert RenderToken(t) == "{" + Joined(texts) + "}";
    assert !EdgeAfter(RenderToken(t), true);
    TokenThen(t, y, s);
    forall i: nat | i <= |s| ensures TokenThenFits(t, y, s, i) <==> FitsBraces(texts, s[..i]) && Behind(y, s[i..]) {
      TreesAccept(texts, s[..i]);
    }
  }
}
