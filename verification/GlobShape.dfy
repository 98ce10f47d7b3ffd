/**
 The shape of translated globs, for every pattern at all: brackets and groups
 balance, and no class, group or alternative is empty. A one-pass scanner that
 knows only brackets, groups, bars and escapes is the judge.
 */
module GlobShape {
  import opened Regex
  import opened Glob
  import opened GlobCompiler
  import opened GlobMeaning

  datatype Scan =
    | Outside(depth: nat, bare: bool)      // bare: nothing yet since a group or an alternative began
    | Escape(depth: nat)
    | OpenClass(depth: nat, negated: bool)  // nothing yet in the class
    | InClass(depth: nat)
    | EscapeInClass(depth: nat)
    | Malformed

  function Next(s: Scan, c: char): (r: Scan) {
    match s
    case Outside(d, bare) =>
      if c == '\\' then Escape(d)
      else if c == '[' then OpenClass(d, false)
      else if c == ']' then Malformed
      else if c == '(' then Outside(d + 1, true)
      else if c == ')' then (if d == 0 || bare then Malformed else Outside(d - 1, false))
      else if c == '|' then (if d == 0 || bare then Malformed else Outside(d, true))
      else Outside(d, false)
    case Escape(d) => Outside(d, false)
    case OpenClass(d, negated) =>
      if c == '^' && !negated then OpenClass(d, true)
      else if c == '\\' then EscapeInClass(d)
      else if c == '[' || c == ']' then Malformed
      else InClass(d)
    case InClass(d) =>
      if c == '\\' then EscapeInClass(d)
      else if c == ']' then Outside(d, false)
      else if c == '[' then Malformed
      else InClass(d)
    case EscapeInClass(d) => InClass(d)
    case Malformed => Malformed
  }

  function ScanText(s: Scan, text: string): (r: Scan)
    decreases |text|
  {
    if text == "" then s else ScanText(Next(s, text[0]), text[1..])
  }

  lemma {:induction false} ScanAppends(s: Scan, x: string, y: string)
    ensures ScanText(s, x + y) == ScanText(ScanText(s, x), y)
    decreases |x|
  {
    if x == "" {
      assert x + y == y;
    } else {
      assert (x + y)[1..] == x[1..] + y;
      ScanAppends(Next(s, x[0]), x[1..], y);
    }
  }

  lemma ScanOne(s: Scan, c: char)
    ensures ScanText(s, [c]) == Next(s, c)
  {
    assert [c][1..] == "";
  }

  lemma ScanTwo(s: Scan, c: char, d: char)
    ensures ScanText(s, [c, d]) == Next(Next(s, c), d)
  {
    assert [c, d][1..] == [d];
    ScanOne(Next(s, c), d);
  }

  // ----- classes -----

  lemma ScanSetChar(s: Scan, c: char, quoted: bool)
    requires s.OpenClass? || s.InClass?
    ensures ScanText(s, EmitSetChar(c, quoted)) == InClass(s.depth)
  {
    ScanOne(s, c);
    ScanTwo(s, '\\', c);
  }

  lemma ScanRange(s: Scan, range: Range, quoted: bool)
    requires s.OpenClass? || s.InClass?
    ensures ScanText(s, EmitRange(range, quoted)) == InClass(s.depth)
  {
    hide EmitSetChar;
    var lo, hi := EmitSetChar(range.lo, quoted), EmitSetChar(range.hi, quoted);
    ScanSetChar(s, range.lo, quoted);
    ScanSetChar(InClass(s.depth), range.hi, quoted);
    ScanOne(InClass(s.depth), '-');
    ScanAppends(InClass(s.depth), "-", hi);
    ScanAppends(s, lo, "-" + hi);
    assert lo + "" == lo;
  }

  lemma {:induction false} ScanRanges(s: Scan, ranges: seq<Range>, quoted: bool)
    requires s.OpenClass? || s.InClass?
    ensures ScanText(s, EmitRanges(ranges, quoted)) == if ranges == [] then s else InClass(s.depth)
    decreases |ranges|
  {
    hide EmitRange;
    if ranges != [] {
      ScanRange(s, ranges[0], quoted);
      ScanRanges(InClass(s.depth), ranges[1..], quoted);
      ScanAppends(s, EmitRange(ranges[0], quoted), EmitRanges(ranges[1..], quoted));
    }
  }

  lemma ScanClass(d: nat, bare: bool, mark: string, body: string, quoted: bool)
    requires body != ""
    ensures ScanText(Outside(d, bare), EmitToken(Class(mark, body), quoted)) == Outside(d, false)
  {
    var ranges := EmitRanges(ClassRanges(body), quoted);
    var start := Outside(d, bare);
    var opening := if mark == "" then "[" else "[" + "^";
    assert EmitToken(Class(mark, body), quoted) == opening + (ranges + "]");
    hide EmitToken, EmitRanges, ClassRanges;
    var inside := OpenClass(d, mark != "");
    assert ScanText(start, opening) == inside by {
      ScanOne(start, '[');
      ScanTwo(start, '[', '^');
    }
    ScanOne(InClass(d), ']');
    hide ScanText;
    ScanRanges(inside, ClassRanges(body), quoted);
    ScanAppends(start, opening, ranges + "]");
    ScanAppends(inside, ranges, "]");
  }

  // ----- tokens and patterns -----

  /** A text that leaves the scanner where it was, except that something was there. */
  ghost predicate Closed(text: string) {
    forall d: nat, bare :: ScanText(Outside(d, bare), text) == Outside(d, if text == "" then bare else false)
  }

  lemma ClosedAppends(x: string, y: string)
    requires Closed(x) && Closed(y)
    ensures Closed(x + y)
  {
    hide ScanText;
    forall d, bare
      ensures ScanText(Outside(d, bare), x + y) == Outside(d, if x + y == "" then bare else false)
    {
      ScanAppends(Outside(d, bare), x, y);
      assert x == "" ==> x + y == y;
    }
  }

  lemma LiteralClosed(c: char, quoted: bool)
    ensures Closed(EmitLiteral(c, quoted))
  {
    forall d: nat, bare ensures ScanText(Outside(d, bare), EmitLiteral(c, quoted)) == Outside(d, false) {
      ScanOne(Outside(d, bare), c);
      ScanTwo(Outside(d, bare), '\\', c);
    }
  }

  lemma NotSlashClosed()
    ensures Closed("[^/]") && Closed("")
  {
    forall d: nat, bare ensures ScanText(Outside(d, bare), "[^/]") == Outside(d, false) {
      ScanTwo(Outside(d, bare), '[', '^');
      ScanTwo(OpenClass(d, true), '/', ']');
      ScanAppends(Outside(d, bare), ['[', '^'], ['/', ']']);
      assert "[^/]" == ['[', '^'] + ['/', ']'];
    }
  }

  lemma StarredClosed()
    ensures Closed("[^/]*") && Closed(".*") && Closed(".*/") && Closed("/.*")
  {
    hide Closed;
    PlainClosed('*');
    PlainClosed('.');
    PlainClosed('/');
    NotSlashClosed();
    ClosedAppends("[^/]", "*");
    ClosedAppends(".", "*");
    assert "[^/]*" == "[^/]" + "*" && ".*" == "." + "*";
    ClosedAppends(".*", "/");
    ClosedAppends("/", ".*");
    assert ".*/" == ".*" + "/" && "/.*" == "/" + ".*";
  }

  /** The texts that do not depend on the pattern. */
  lemma FixedClosed()
    ensures Closed("[^/]") && Closed("[^/]*") && Closed("(.*/)?") && Closed(".*") && Closed("(/.*)?")
    ensures Closed("^") && Closed("$") && Closed("")
  {
    hide Closed;
    PlainClosed('^');
    PlainClosed('$');
    PlainClosed('?');
    NotSlashClosed();
    StarredClosed();
    GroupClosed(".*/");
    GroupClosed("/.*");
    ClosedAppends("(" + ".*/" + ")", "?");
    ClosedAppends("(" + "/.*" + ")", "?");
    assert "(.*/)?" == "(" + ".*/" + ")" + "?" && "(/.*)?" == "(" + "/.*" + ")" + "?";
  }

  lemma PlainClosed(c: char)
    requires c !in "\\[]()|"
    ensures Closed([c])
  {
    forall d: nat, bare ensures ScanText(Outside(d, bare), [c]) == Outside(d, false) {
      ScanOne(Outside(d, bare), c);
    }
  }

  /** The inside of a group: closed parts between bars, none of them empty. */
  ghost predicate ClosedInside(text: string) {
    forall d: nat :: d > 0 ==> ScanText(Outside(d, true), text) == Outside(d, false)
  }

  lemma GroupClosed(text: string)
    requires (Closed(text) && text != "") || ClosedInside(text)
    ensures Closed("(" + text + ")")
  {
    hide ScanText;
    forall d: nat, bare ensures ScanText(Outside(d, bare), "(" + text + ")") == Outside(d, false) {
      ScanOne(Outside(d, bare), '(');
      ScanOne(Outside(d + 1, false), ')');
      ScanAppends(Outside(d, bare), "(", text);
      ScanAppends(Outside(d, bare), "(" + text, ")");
      assert ScanText(Outside(d + 1, true), text) == Outside(d + 1, false);
    }
  }

  lemma {:induction false} JoinClosed(parts: seq<string>)
    requires parts != [] && forall k :: 0 <= k < |parts| ==> Closed(parts[k]) && parts[k] != ""
    ensures ClosedInside(Join(parts))
  {
    hide ScanText;
    if |parts| == 1 {
    } else {
      JoinClosed(parts[1..]);
      forall d: nat | d > 0 ensures ScanText(Outside(d, true), Join(parts)) == Outside(d, false) {
        ScanAppends(Outside(d, true), parts[0], "|" + Join(parts[1..]));
        ScanAppends(Outside(d, false), "|", Join(parts[1..]));
        ScanOne(Outside(d, false), '|');
        assert Join(parts) == parts[0] + ("|" + Join(parts[1..]));
        assert ScanText(Outside(d, true), parts[0]) == Outside(d, false);
      }
    }
  }

  lemma {:induction false} PatternClosed(p: Pattern, quoted: bool)
    requires WellFormed(p)
    ensures Closed(Emit(p, quoted))
    decreases p
  {
    hide Closed, EmitToken;
    FixedClosed();
    if p.Item? {
      TokenClosed(p.first, quoted);
      PatternClosed(p.rest, quoted);
      ClosedAppends(EmitToken(p.first, quoted), Emit(p.rest, quoted));
    }
  }

  lemma {:induction false} TokenClosed(t: Token, quoted: bool)
    requires TokenWellFormed(t)
    ensures Closed(EmitToken(t, quoted))
    decreases t
  {
    FixedClosed();
    match t
    case Literal(c) => LiteralClosed(c, quoted);
    case Class(mark, body) =>
      forall d: nat, bare ensures ScanText(Outside(d, bare), EmitToken(t, quoted)) == Outside(d, false) {
        ScanClass(d, bare, mark, body, quoted);
      }
    case Alternation(branches) =>
      hide Closed;
      var parts := EmitLive(branches, quoted);
      LiveClosed(branches, quoted);
      if |parts| >= 2 {
        JoinClosed(parts);
        GroupClosed(Join(parts));
      }
    case _ =>
  }

  lemma {:induction false} LiveClosed(bs: Branches, quoted: bool)
    requires BranchesWellFormed(bs)
    ensures forall k :: 0 <= k < |EmitLive(bs, quoted)| ==>
      Closed(EmitLive(bs, quoted)[k]) && EmitLive(bs, quoted)[k] != ""
    decreases bs
  {
    hide Closed;
    PatternClosed(bs.branch, quoted);
    if bs.More? {
      LiveClosed(bs.others, quoted);
    }
  }

  /** The filter of every pattern is balanced, and none of its classes, groups or alternatives is empty. */
  lemma TranslationIsBalanced(pattern: string, descendants: bool, quoted: bool)
    ensures ScanText(Outside(0, true), EmitRegex(pattern, descendants, quoted)) == Outside(0, false)
  {
    var p := Parse(pattern);
    var tail := if descendants && !HasMeta(pattern) then "(/.*)?" else "";
    ReadPatternWellFormed(pattern, 0, false);
    PatternClosed(p, quoted);
    FixedClosed();
    ClosedAppends("^", Emit(p, quoted));
    ClosedAppends("^" + Emit(p, quoted), tail);
    ClosedAppends("^" + Emit(p, quoted) + tail, "$");
  }
}
