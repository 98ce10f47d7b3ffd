/**
 The meaning of translated globs.  Reading the emitted text back as a regular
 expression succeeds exactly when every class range is ordered, and the
 expression then matches exactly the paths the glob covers.
 */
module GlobMeaning {
  import opened Wrappers
  import opened Regex
  import opened Glob
  import opened GlobCompiler

  // ----- the expression a tree stands for -----

  const NOT_SLASH := Node.Set(true, [Range('/', '/')])
  const DEEP_PREFIX := Node.Maybe(Group(One(Cons(Node.Star(Any), Cons(Char('/'), Nil)))))
  const DESCENDANTS := Node.Maybe(Group(One(Cons(Char('/'), Cons(Node.Star(Any), Nil)))))

  function Compile(p: Pattern): (q: Sequence) {
    match p
    case Empty => Nil
    case Item(first, rest) => Append(CompileToken(first), Compile(rest))
  }

  function CompileToken(t: Token): (q: Sequence) {
    match t
    case Literal(c) => Cons(Char(c), Nil)
    case AnyChar => Cons(NOT_SLASH, Nil)
    case ComponentStar(_) => Cons(Node.Star(NOT_SLASH), Nil)
    case DeepPrefix => Cons(DEEP_PREFIX, Nil)
    case DeepTail => Cons(Node.Star(Any), Nil)
    case Class(mark, body) => Cons(Node.Set(mark != "", ClassRanges(body)), Nil)
    case Alternation(branches) => CompileGroup(CompileLive(branches))
  }

  function CompileLive(bs: Branches): (r: seq<Sequence>) {
    var live := if Blank(bs.branch) then [] else [Compile(bs.branch)];
    live + if bs.More? then CompileLive(bs.others) else []
  }

  function ToAlternatives(parts: seq<Sequence>): (a: Alternatives)
    requires parts != []
  {
    if |parts| == 1 then One(parts[0]) else Or(parts[0], ToAlternatives(parts[1..]))
  }

  function CompileGroup(parts: seq<Sequence>): (q: Sequence) {
    if parts == [] then Nil
    else if |parts| == 1 then parts[0]
    else Cons(Group(ToAlternatives(parts)), Nil)
  }

  // ----- trees that reading produces -----

  ghost predicate WellFormed(p: Pattern) {
    p.Item? ==> TokenWellFormed(p.first) && WellFormed(p.rest)
  }

  ghost predicate TokenWellFormed(t: Token) {
    && (t.Literal? ==> t.c != '*' && t.c != '?')
    && (t.Class? ==> t.body != "")
    && (t.Alternation? ==> BranchesWellFormed(t.branches))
  }

  ghost predicate BranchesWellFormed(bs: Branches) {
    WellFormed(bs.branch) && (bs.More? ==> BranchesWellFormed(bs.others))
  }

  lemma {:induction false} ReadPatternWellFormed(characters: string, i: nat, nested: bool)
    requires i <= |characters|
    ensures WellFormed(ReadPattern(characters, i, nested).0)
    decreases |characters| - i, 2
  {
    if i == |characters| || StopsBranch(characters, i, nested) {
    } else {
      var (token, next) := ReadToken(characters, i);
      if characters[i] == '{' && ReadBranches(characters, i + 1).Some? {
        ReadBranchesWellFormed(characters, i + 1);
      }
      ReadPatternWellFormed(characters, next, nested);
    }
  }

  lemma {:induction false} ReadBranchesWellFormed(characters: string, i: nat)
    requires i <= |characters| && ReadBranches(characters, i).Some?
    ensures BranchesWellFormed(ReadBranches(characters, i).value.0)
    decreases |characters| - i, 3
  {
    var (branch, end) := ReadPattern(characters, i, true);
    ReadPatternWellFormed(characters, i, true);
    if characters[end] != '}' {
      ReadBranchesWellFormed(characters, end + 1);
    }
  }

  // ----- blank trees have no text, and conversely -----

  lemma {:induction false} BlankText(p: Pattern, quoted: bool)
    ensures Blank(p) <==> Emit(p, quoted) == ""
    ensures Blank(p) <==> Compile(p) == Nil
    ensures Blank(p) ==> Ordered(p)
  {
    if p.Item? {
      BlankText(p.rest, quoted);
      if p.first.Alternation? {
        AllBlankText(p.first.branches, quoted);
      }
    }
  }

  lemma {:induction false} AllBlankText(bs: Branches, quoted: bool)
    ensures |EmitLive(bs, quoted)| == |CompileLive(bs)|
    ensures AllBlank(bs) <==> EmitLive(bs, quoted) == []
    ensures AllBlank(bs) ==> BranchesOrdered(bs)
    ensures forall k :: 0 <= k < |EmitLive(bs, quoted)| ==> EmitLive(bs, quoted)[k] != ""
    ensures forall k :: 0 <= k < |CompileLive(bs)| ==> CompileLive(bs)[k] != Nil
  {
    BlankText(bs.branch, quoted);
    if bs.More? {
      AllBlankText(bs.others, quoted);
    }
  }

  // ----- reading bracket expressions back -----

  lemma ReadsSetChar(c: char, quoted: bool, t: string)
    ensures ReadSetChar(EmitSetChar(c, quoted) + t) == Some((c, t))
  {
    var text := EmitSetChar(c, quoted) + t;
    if |EmitSetChar(c, quoted)| == 1 {
      assert text[1..] == t;
    } else {
      assert text[2..] == t;
    }
  }

  /** A dash starts a range only as the final range, where it stands for itself. */
  ghost predicate Tame(ranges: seq<Range>) {
    forall k :: 0 <= k < |ranges| && ranges[k].lo == '-' ==>
      k == |ranges| - 1 && ranges[k].hi == '-'
  }

  lemma {:induction false} ScanBodyTame(body: string)
    ensures forall k :: 1 <= k < |ScanBody(body).0| ==> ScanBody(body).0[k].lo != '-'
    decreases |body|
  {
    if body != "" {
      ScanBodyTame(body[..|body| - 1]);
    }
  }

  lemma ClassRangesTame(body: string)
    requires body != ""
    ensures ClassRanges(body) != [] && Tame(ClassRanges(body)[1..])
  {
    ScanBodyTame(body);
  }

  /** The text after a range never looks like the dash of a longer range. */
  lemma RangesDoNotExtend(ranges: seq<Range>, quoted: bool, t: string)
    requires Tame(ranges)
    ensures var text := EmitRanges(ranges, quoted) + "]" + t;
      text[0] == '-' ==> |text| >= 2 && text[1] == ']'
  {
    var text := EmitRanges(ranges, quoted) + "]" + t;
    if ranges != [] && text[0] == '-' {
      assert ranges[0].lo == '-';
      assert ranges == [Range('-', '-')];
      assert text == "-" + "]" + t;
    }
  }

  /** What reading ranges yields when one more range stood before them. */
  function ConsRange(range: Range, r: Option<(seq<Range>, string)>): (x: Option<(seq<Range>, string)>) {
    if r.None? || range.lo > range.hi then None else Some(([range] + r.value.0, r.value.1))
  }

  lemma ReadsSingle(lo: char, quoted: bool, rest: string)
    requires rest != "" && (rest[0] == '-' ==> |rest| >= 2 && rest[1] == ']')
    ensures ReadRanges(EmitSetChar(lo, quoted) + rest) == ConsRange(Range(lo, lo), ReadRanges(rest))
  {
    ReadsSetChar(lo, quoted, rest);
    assert (EmitSetChar(lo, quoted) + rest)[0] != ']';
  }

  lemma ReadsPair(lo: char, hi: char, quoted: bool, rest: string)
    requires rest != ""
    ensures ReadRanges(EmitSetChar(lo, quoted) + ("-" + EmitSetChar(hi, quoted) + rest))
         == ConsRange(Range(lo, hi), ReadRanges(rest))
  {
    var afterLo := "-" + EmitSetChar(hi, quoted) + rest;
    ReadsSetChar(lo, quoted, afterLo);
    ReadsSetChar(hi, quoted, rest);
    assert afterLo[1..] == EmitSetChar(hi, quoted) + rest;
    assert (EmitSetChar(lo, quoted) + afterLo)[0] != ']';
    assert afterLo[1] != ']';
  }

  lemma OrderedSplit(ranges: seq<Range>)
    requires ranges != []
    ensures OrderedRanges(ranges) <==> ranges[0].lo <= ranges[0].hi && OrderedRanges(ranges[1..])
  {
    assert ranges == [ranges[0]] + ranges[1..];
    if ranges[0].lo <= ranges[0].hi && OrderedRanges(ranges[1..]) {
      forall k | 0 <= k < |ranges| ensures ranges[k].lo <= ranges[k].hi {
        if k > 0 { assert ranges[k] == ranges[1..][k - 1]; }
      }
    }
  }

  lemma EmitRangesSplit(ranges: seq<Range>, quoted: bool, t: string)
    requires ranges != []
    ensures var (lo, hi) := (ranges[0].lo, ranges[0].hi);
      var rest := EmitRanges(ranges[1..], quoted) + "]" + t;
      EmitRanges(ranges, quoted) + "]" + t ==
        EmitSetChar(lo, quoted) + if lo == hi then rest else "-" + EmitSetChar(hi, quoted) + rest
  {
    hide EmitSetChar;
    var lo, hi := EmitSetChar(ranges[0].lo, quoted), EmitSetChar(ranges[0].hi, quoted);
    var others := EmitRanges(ranges[1..], quoted);
    if ranges[0].lo == ranges[0].hi {
      assert ((lo + "") + others) + "]" + t == lo + (others + "]" + t);
    } else {
      assert ((lo + ("-" + hi)) + others) + "]" + t == lo + ("-" + hi + (others + "]" + t));
    }
  }

  /** The ranges of a class re-read exactly, and only ordered ones are accepted. */
  lemma {:induction false} ReadsRanges(ranges: seq<Range>, quoted: bool, t: string)
    requires ranges == [] || Tame(ranges[1..])
    ensures ReadRanges(EmitRanges(ranges, quoted) + "]" + t)
         == if OrderedRanges(ranges) then Some((ranges, t)) else None
    decreases |ranges|
  {
    if ranges == [] {
      assert (EmitRanges(ranges, quoted) + "]" + t)[1..] == t;
    } else {
      var range, others := ranges[0], ranges[1..];
      var rest := EmitRanges(others, quoted) + "]" + t;
      OrderedSplit(ranges);
      EmitRangesSplit(ranges, quoted, t);
      ReadsRanges(others, quoted, t);
      assert [range] + others == ranges;
      if range.lo == range.hi {
        RangesDoNotExtend(others, quoted, t);
        ReadsSingle(range.lo, quoted, rest);
      } else {
        ReadsPair(range.lo, range.hi, quoted, rest);
      }
    }
  }

  // ----- reading tokens back -----

  /** What reading `t` yields when `q` has been read just before it. */
  function Extend(ok: bool, q: Sequence, r: Option<(Sequence, string)>): (x: Option<(Sequence, string)>) {
    if !ok || r.None? then None else Some((Append(q, r.value.0), r.value.1))
  }

  ghost predicate NoPostfix(t: string) {
    t == "" || (t[0] != '*' && t[0] != '?')
  }

  lemma ReadsNode(text: string, atom: Node, afterAtom: string, n: Node, t: string)
    requires !EndsSequence(text) && ReadAtom(text) == Some((atom, afterAtom))
    requires ReadPostfix(atom, afterAtom) == (n, t)
    ensures ReadSequence(text) == Extend(true, Cons(n, Nil), ReadSequence(t))
  {
    var rest := ReadSequence(t);
    if rest.Some? {
      assert Append(Cons(n, Nil), rest.value.0) == Cons(n, Append(Nil, rest.value.0)) == Cons(n, rest.value.0);
    }
  }

  lemma ReadsAtom(text: string, n: Node, t: string)
    requires !EndsSequence(text) && ReadAtom(text) == Some((n, t)) && NoPostfix(t)
    ensures ReadSequence(text) == Extend(true, Cons(n, Nil), ReadSequence(t))
  {
    ReadsNode(text, n, t, n, t);
  }

  lemma ReadsStarred(text: string, n: Node, t: string)
    requires !EndsSequence(text) && ReadAtom(text) == Some((n, "*" + t)) && NoPostfix(t)
    ensures ReadSequence(text) == Extend(true, Cons(Node.Star(n), Nil), ReadSequence(t))
  {
    assert ("*" + t)[1..] == t;
    assert ReadPostfix(n, "*" + t) == ReadPostfix(Node.Star(n), t);
    ReadsNode(text, n, "*" + t, Node.Star(n), t);
  }

  lemma ReadsMaybe(text: string, n: Node, t: string)
    requires !EndsSequence(text) && ReadAtom(text) == Some((n, "?" + t)) && NoPostfix(t)
    ensures ReadSequence(text) == Extend(true, Cons(Node.Maybe(n), Nil), ReadSequence(t))
  {
    assert ("?" + t)[1..] == t;
    assert ReadPostfix(n, "?" + t) == ReadPostfix(Node.Maybe(n), t);
    ReadsNode(text, n, "?" + t, Node.Maybe(n), t);
  }

  lemma ReadsNotSlash(t: string)
    ensures ReadAtom("[^/]" + t) == Some((NOT_SLASH, t))
  {
    var text := "[^/]" + t;
    assert text[1..] == "^/]" + t && text[1..][1..] == "/]" + t;
    var ranges := [Range('/', '/')];
    assert ranges[1..] == [];
    assert EmitRanges(ranges, false) == "/";
    assert EmitRanges(ranges, false) + "]" + t == "/]" + t;
    ReadsRanges(ranges, false, t);
  }

  lemma ReadsChar(c: char, t: string)
    requires !IsMeta(c)
    ensures ReadAtom([c] + t) == Some((Char(c), t))
  {
    assert ([c] + t)[1..] == t;
  }

  lemma ReadsDot(t: string)
    ensures ReadAtom("." + t) == Some((Any, t))
  {
    assert ("." + t)[1..] == t;
  }

  lemma ReadsDots(t: string)
    requires NoPostfix(t)
    ensures ReadSequence(".*" + t) == Extend(true, Cons(Node.Star(Any), Nil), ReadSequence(t))
  {
    var text := ".*" + t;
    assert text == "." + ("*" + t);
    ReadsDot("*" + t);
    ReadsStarred(text, Any, t);
  }

  lemma ReadsOneGroup(body: string, q: Sequence, t: string)
    requires ReadSequence(body + ")" + t) == Some((q, ")" + t)) && q != Nil
    ensures ReadAtom("(" + body + ")" + t) == Some((Group(One(q)), t))
  {
    var text := "(" + body + ")" + t;
    assert text[1..] == body + ")" + t;
    assert (")" + t)[1..] == t;
    assert ReadAlternatives(text[1..]) == Some((One(q), ")" + t));
  }

  lemma ReadsDeepPrefix(t: string)
    requires NoPostfix(t)
    ensures ReadSequence("(.*/)?" + t) == Extend(true, Cons(DEEP_PREFIX, Nil), ReadSequence(t))
  {
    var text, after := "(.*/)?" + t, "?" + t;
    var slash := Cons(Char('/'), Nil);
    assert "/" + (")" + after) == "/)" + after;
    ReadsChar('/', ")" + after);
    ReadsAtom("/)" + after, Char('/'), ")" + after);
    ReadsDots("/)" + after);
    assert ".*" + ("/)" + after) == ".*/" + ")" + after;
    ReadsOneGroup(".*/", Cons(Node.Star(Any), slash), after);
    assert text == "(" + ".*/" + ")" + after;
    ReadsMaybe(text, DEEP_PREFIX.body, t);
  }

  lemma ReadsDescendants(t: string)
    requires NoPostfix(t)
    ensures ReadSequence("(/.*)?" + t) == Extend(true, Cons(DESCENDANTS, Nil), ReadSequence(t))
  {
    var text, after := "(/.*)?" + t, "?" + t;
    var dots := Cons(Node.Star(Any), Nil);
    ReadsDots(")" + after);
    assert "/" + (".*" + (")" + after)) == "/.*" + ")" + after;
    ReadsChar('/', ".*" + (")" + after));
    ReadsAtom("/.*" + ")" + after, Char('/'), ".*" + (")" + after));
    ReadsOneGroup("/.*", Cons(Char('/'), dots), after);
    assert text == "(" + "/.*" + ")" + after;
    ReadsMaybe(text, DESCENDANTS.body, t);
  }

  lemma ReadsLiteral(c: char, quoted: bool, t: string)
    requires c != '*' && c != '?' && NoPostfix(t)
    ensures ReadSequence(EmitLiteral(c, quoted) + t) == Extend(true, Cons(Char(c), Nil), ReadSequence(t))
  {
    var text := EmitLiteral(c, quoted) + t;
    if |EmitLiteral(c, quoted)| == 1 {
      assert text == [c] + t;
      ReadsChar(c, t);
    } else {
      assert text[2..] == t;
    }
    ReadsAtom(text, Char(c), t);
  }

  lemma RangesDoNotNegate(ranges: seq<Range>, quoted: bool)
    requires ranges != []
    ensures EmitRanges(ranges, quoted) != "" && EmitRanges(ranges, quoted)[0] != '^'
  {
    assert EmitRanges(ranges, quoted)[0] == EmitSetChar(ranges[0].lo, quoted)[0];
  }

  lemma ReadsSet(negated: bool, ranges: seq<Range>, quoted: bool, t: string)
    requires ranges != [] && Tame(ranges[1..])
    ensures ReadSet((if negated then "^" else "") + EmitRanges(ranges, quoted) + "]" + t)
         == if OrderedRanges(ranges) then Some((Node.Set(negated, ranges), t)) else None
  {
    hide ReadRanges, ReadSetChar, EmitRanges;
    RangesDoNotNegate(ranges, quoted);
    var inner := EmitRanges(ranges, quoted) + "]" + t;
    var text := (if negated then "^" else "") + EmitRanges(ranges, quoted) + "]" + t;
    ReadsRanges(ranges, quoted, t);
    if negated {
      assert text[1..] == inner;
    } else {
      assert text == inner;
    }
  }

  lemma ReadsClass(mark: string, body: string, quoted: bool, t: string)
    requires body != "" && NoPostfix(t)
    ensures ReadSequence(EmitToken(Class(mark, body), quoted) + t)
         == Extend(OrderedRanges(ClassRanges(body)), CompileToken(Class(mark, body)), ReadSequence(t))
  {
    hide EmitRanges, ReadSet, ScanBody;
    var ranges := ClassRanges(body);
    var text := EmitToken(Class(mark, body), quoted) + t;
    ClassRangesTame(body);
    ReadsSet(mark != "", ranges, quoted, t);
    assert text[1..] == (if mark != "" then "^" else "") + EmitRanges(ranges, quoted) + "]" + t;
    assert ReadAtom(text) == ReadSet(text[1..]);
    if OrderedRanges(ranges) {
      ReadsAtom(text, Node.Set(mark != "", ranges), t);
    }
  }

  // ----- reading whole trees back -----

  lemma TokenStart(token: Token, quoted: bool)
    requires TokenWellFormed(token) && EmitToken(token, quoted) != ""
    ensures EmitToken(token, quoted)[0] !in "*?)|$"
    decreases token
  {
    if token.Alternation? {
      LiveStart(token.branches, quoted);
    }
  }

  lemma PatternStart(p: Pattern, quoted: bool)
    requires WellFormed(p) && Emit(p, quoted) != ""
    ensures Emit(p, quoted)[0] !in "*?)|$"
    decreases p
  {
    if EmitToken(p.first, quoted) != "" {
      TokenStart(p.first, quoted);
    } else {
      assert Emit(p, quoted) == Emit(p.rest, quoted);
      PatternStart(p.rest, quoted);
    }
  }

  lemma LiveStart(bs: Branches, quoted: bool)
    requires BranchesWellFormed(bs)
    ensures forall k :: 0 <= k < |EmitLive(bs, quoted)| ==>
      EmitLive(bs, quoted)[k] != "" && EmitLive(bs, quoted)[k][0] !in "*?)|$"
    decreases bs
  {
    if Emit(bs.branch, quoted) != "" {
      PatternStart(bs.branch, quoted);
    }
    if bs.More? {
      LiveStart(bs.others, quoted);
    }
  }

  lemma PatternNoPostfix(p: Pattern, quoted: bool, t: string)
    requires WellFormed(p) && NoPostfix(t)
    ensures NoPostfix(Emit(p, quoted) + t)
  {
    if Emit(p, quoted) != "" {
      PatternStart(p, quoted);
    } else {
      assert Emit(p, quoted) + t == t;
    }
  }

  lemma ExtendTwice(a: Sequence, okA: bool, b: Sequence, okB: bool, r: Option<(Sequence, string)>)
    ensures Extend(okA, a, Extend(okB, b, r)) == Extend(okA && okB, Append(a, b), r)
  {
    if r.Some? {
      AppendAssociative(a, b, r.value.0);
    }
  }

  /** The text of a tree reads back as its expression, exactly when its ranges are ordered. */
  lemma {:induction false} ReadsPattern(p: Pattern, quoted: bool, t: string)
    requires WellFormed(p) && NoPostfix(t)
    ensures ReadSequence(Emit(p, quoted) + t) == Extend(Ordered(p), Compile(p), ReadSequence(t))
    decreases p
  {
    match p
    case Empty =>
      assert Emit(p, quoted) + t == t;
    case Item(first, rest) =>
      var after := Emit(rest, quoted) + t;
      assert Emit(p, quoted) + t == EmitToken(first, quoted) + after;
      PatternNoPostfix(rest, quoted, t);
      ReadsToken(first, quoted, after);
      ReadsPattern(rest, quoted, t);
      ExtendTwice(CompileToken(first), TokenOrdered(first), Compile(rest), Ordered(rest), ReadSequence(t));
  }

  lemma {:induction false} ReadsToken(token: Token, quoted: bool, t: string)
    requires TokenWellFormed(token) && NoPostfix(t)
    ensures ReadSequence(EmitToken(token, quoted) + t)
         == Extend(TokenOrdered(token), CompileToken(token), ReadSequence(t))
    decreases token
  {
    match token
    case Literal(c) => ReadsLiteral(c, quoted, t);
    case AnyChar =>
      ReadsNotSlash(t);
      ReadsAtom("[^/]" + t, NOT_SLASH, t);
    case ComponentStar(_) =>
      ReadsNotSlash("*" + t);
      assert "[^/]*" + t == "[^/]" + ("*" + t);
      ReadsStarred("[^/]*" + t, NOT_SLASH, t);
    case DeepPrefix => ReadsDeepPrefix(t);
    case DeepTail => ReadsDots(t);
    case Class(mark, body) => ReadsClass(mark, body, quoted, t);
    case Alternation(branches) => ReadsAlternation(branches, quoted, t);
  }

  lemma {:induction false} ReadsAlternation(bs: Branches, quoted: bool, t: string)
    requires BranchesWellFormed(bs) && NoPostfix(t)
    ensures ReadSequence(EmitGroup(EmitLive(bs, quoted)) + t)
         == Extend(BranchesOrdered(bs), CompileGroup(CompileLive(bs)), ReadSequence(t))
    decreases bs, 2
  {
    hide EmitLive, CompileLive, BranchesOrdered, BranchesWellFormed, AllBlank;
    AllBlankText(bs, quoted);
    var parts := EmitLive(bs, quoted);
    if parts == [] {
      assert EmitGroup(parts) + t == t;
    } else if |parts| == 1 {
      ReadsOnlyBranch(bs, quoted, t);
    } else {
      var text := "(" + Join(parts) + ")" + t;
      var after := ")" + t;
      ReadsBranches(bs, quoted, t);
      assert text[1..] == Join(parts) + after && after[1..] == t;
      if BranchesOrdered(bs) {
        ReadsAtom(text, Group(ToAlternatives(CompileLive(bs))), t);
      }
    }
  }

  lemma {:induction false} ReadsOnlyBranch(bs: Branches, quoted: bool, t: string)
    requires BranchesWellFormed(bs) && NoPostfix(t) && |EmitLive(bs, quoted)| == 1
    ensures |CompileLive(bs)| == 1
    ensures ReadSequence(EmitLive(bs, quoted)[0] + t)
         == Extend(BranchesOrdered(bs), CompileLive(bs)[0], ReadSequence(t))
    decreases bs, 1
  {
    AllBlankText(bs, quoted);
    BlankText(bs.branch, quoted);
    if bs.More? {
      AllBlankText(bs.others, quoted);
    }
    if Blank(bs.branch) {
      ReadsOnlyBranch(bs.others, quoted, t);
    } else {
      ReadsPattern(bs.branch, quoted, t);
    }
  }

  lemma JoinMore(first: string, others: seq<string>, after: string)
    requires others != []
    ensures Join([first] + others) + after == first + ("|" + (Join(others) + after))
  {
    assert ([first] + others)[1..] == others;
  }

  /** The joined branches of a group read back one by one up to its end. */
  lemma {:induction false} ReadsBranches(bs: Branches, quoted: bool, t: string)
    requires BranchesWellFormed(bs) && EmitLive(bs, quoted) != []
    ensures CompileLive(bs) != []
    ensures ReadAlternatives(Join(EmitLive(bs, quoted)) + (")" + t))
         == if BranchesOrdered(bs) then Some((ToAlternatives(CompileLive(bs)), ")" + t)) else None
    decreases bs, 1
  {
    hide Emit, Compile, Ordered, Blank, WellFormed;
    AllBlankText(bs, quoted);
    BlankText(bs.branch, quoted);
    var parts, after := EmitLive(bs, quoted), ")" + t;
    if bs.More? {
      AllBlankText(bs.others, quoted);
    }
    if Blank(bs.branch) {
      assert parts == EmitLive(bs.others, quoted);
      assert CompileLive(bs) == CompileLive(bs.others);
      ReadsBranches(bs.others, quoted, t);
    } else if |parts| == 1 {
      AppendNil(Compile(bs.branch));
      ReadsPattern(bs.branch, quoted, after);
    } else {
      var others := EmitLive(bs.others, quoted);
      var bar := "|" + (Join(others) + after);
      assert parts == [Emit(bs.branch, quoted)] + others;
      assert CompileLive(bs)[1..] == CompileLive(bs.others);
      JoinMore(Emit(bs.branch, quoted), others, after);
      assert bar[1..] == Join(others) + after;
      hide EmitLive, Join, CompileLive;
      AppendNil(Compile(bs.branch));
      ReadsPattern(bs.branch, quoted, bar);
      ReadsBranches(bs.others, quoted, t);
    }
  }

  // ----- the expression matches what the tree accepts -----

  lemma NotSlashMatches(s: string)
    ensures Matches(NOT_SLASH, s) <==> |s| == 1 && s[0] != '/'
  {
    if |s| == 1 {
      var ranges := [Range('/', '/')];
      assert InRanges(ranges, s[0]) <==> ranges[0].lo <= s[0] <= ranges[0].hi;
    }
  }

  lemma StarNotSlashMatches(s: string)
    ensures Matches(Node.Star(NOT_SLASH), s) <==> '/' !in s
  {
    StarOfOneChar(NOT_SLASH, s);
    forall k | 0 <= k < |s| ensures Matches(NOT_SLASH, [s[k]]) <==> s[k] != '/' {
      NotSlashMatches([s[k]]);
    }
  }

  lemma StarAnyMatches(s: string)
    ensures Matches(Node.Star(Any), s)
  {
    StarOfOneChar(Any, s);
  }

  lemma DeepPrefixMatches(s: string)
    ensures Matches(DEEP_PREFIX, s) <==> s == "" || s[|s| - 1] == '/'
  {
    var q := Cons(Node.Star(Any), Cons(Char('/'), Nil));
    assert Matches(DEEP_PREFIX, s) <==> s == "" || Matches(Group(One(q)), s);
    assert Matches(Group(One(q)), s) <==> AnyMatches(One(q), s);
    if AllMatch(q, s) {
      var i :| 0 <= i <= |s| && Matches(Node.Star(Any), s[..i]) && AllMatch(Cons(Char('/'), Nil), s[i..]);
      SingleMatches(Char('/'), s[i..]);
    }
    if s != "" && s[|s| - 1] == '/' {
      var i := |s| - 1;
      assert s[i..] == "/";
      SingleMatches(Char('/'), s[i..]);
      StarAnyMatches(s[..i]);
      assert AllMatch(q, s);
    }
  }

  lemma DescendantsMatches(s: string)
    ensures Matches(DESCENDANTS, s) <==> s == "" || s[0] == '/'
  {
    var dots := Cons(Node.Star(Any), Nil);
    var q := Cons(Char('/'), dots);
    assert Matches(DESCENDANTS, s) <==> s == "" || Matches(Group(One(q)), s);
    assert Matches(Group(One(q)), s) <==> AnyMatches(One(q), s);
    if AllMatch(q, s) {
      var i :| 0 <= i <= |s| && Matches(Char('/'), s[..i]) && AllMatch(dots, s[i..]);
      assert s[..i][0] == s[0];
    }
    if s != "" && s[0] == '/' {
      assert s[..1] == "/";
      StarAnyMatches(s[1..]);
      SingleMatches(Node.Star(Any), s[1..]);
      assert 0 <= 1 <= |s| && Matches(Char('/'), s[..1]) && AllMatch(dots, s[1..]);
      assert AllMatch(q, s);
    }
  }

  ghost predicate SomeMatches(parts: seq<Sequence>, s: string) {
    exists k :: 0 <= k < |parts| && AllMatch(parts[k], s)
  }

  lemma {:induction false} AlternativesMatch(parts: seq<Sequence>, s: string)
    requires parts != []
    ensures AnyMatches(ToAlternatives(parts), s) <==> SomeMatches(parts, s)
    decreases |parts|
  {
    if |parts| > 1 {
      AlternativesMatch(parts[1..], s);
      if k :| 0 <= k < |parts[1..]| && AllMatch(parts[1..][k], s) {
        assert AllMatch(parts[k + 1], s);
      }
      if k :| 0 <= k < |parts| && AllMatch(parts[k], s) {
        if k > 0 { assert AllMatch(parts[1..][k - 1], s); }
      }
    }
  }

  /** The expression of a tree matches exactly the paths the tree accepts. */
  lemma {:induction false} CompileMatches(p: Pattern, s: string)
    ensures AllMatch(Compile(p), s) <==> Accepted(p, s)
    decreases p
  {
    match p
    case Empty =>
    case Item(first, rest) =>
      AppendMatches(CompileToken(first), Compile(rest), s);
      forall i | 0 <= i <= |s|
        ensures SplitMatch(CompileToken(first), Compile(rest), s, i)
           <==> TokenAccepted(first, s[..i]) && Accepted(rest, s[i..])
      {
        TokenMatches(first, s[..i]);
        CompileMatches(rest, s[i..]);
      }
  }

  lemma {:induction false} TokenMatches(token: Token, s: string)
    ensures AllMatch(CompileToken(token), s) <==> TokenAccepted(token, s)
    decreases token
  {
    if !token.Alternation? {
      SingleMatches(CompileToken(token).head, s);
    }
    match token
    case Literal(_) =>
    case AnyChar => NotSlashMatches(s);
    case ComponentStar(_) => StarNotSlashMatches(s);
    case DeepPrefix => DeepPrefixMatches(s);
    case DeepTail => StarAnyMatches(s);
    case Class(_, _) =>
    case Alternation(branches) =>
      var parts := CompileLive(branches);
      AllBlankText(branches, false);
      LiveMatches(branches, s);
      if |parts| >= 2 {
        AlternativesMatch(parts, s);
        SingleMatches(Group(ToAlternatives(parts)), s);
      }
  }

  lemma SomeMatchesAppends(xs: seq<Sequence>, ys: seq<Sequence>, s: string)
    ensures SomeMatches(xs + ys, s) <==> SomeMatches(xs, s) || SomeMatches(ys, s)
  {
    hide AllMatch;
    if k :| 0 <= k < |xs| && AllMatch(xs[k], s) {
      assert AllMatch((xs + ys)[k], s);
    }
    if k :| 0 <= k < |ys| && AllMatch(ys[k], s) {
      assert AllMatch((xs + ys)[|xs| + k], s);
    }
  }

  lemma OneMatches(x: Sequence, s: string)
    ensures SomeMatches([x], s) <==> AllMatch(x, s)
  {
    hide AllMatch;
    assert AllMatch([x][0], s) <==> AllMatch(x, s);
  }

  lemma {:induction false} LiveMatches(bs: Branches, s: string)
    ensures SomeAccepted(bs, s) <==> SomeMatches(CompileLive(bs), s)
    decreases bs
  {
    var mine := if Blank(bs.branch) then [] else [Compile(bs.branch)];
    var others := if bs.More? then CompileLive(bs.others) else [];
    assert CompileLive(bs) == mine + others;
    CompileMatches(bs.branch, s);
    hide Compile, Accepted, Blank, AllMatch, CompileLive;
    SomeMatchesAppends(mine, others, s);
    OneMatches(Compile(bs.branch), s);
    if bs.More? {
      LiveMatches(bs.others, s);
    }
  }

  // ----- the whole translation -----

  /** The expression of a whole filter. */
  function CompileRegex(pattern: string, descendants: bool): (q: Sequence) {
    Append(Compile(Parse(pattern)),
           if descendants && !HasMeta(pattern) then Cons(DESCENDANTS, Nil) else Nil)
  }

  function RegexTail(pattern: string, descendants: bool): (t: string) {
    (if descendants && !HasMeta(pattern) then "(/.*)?" else "") + "$"
  }

  lemma ReadsTail(pattern: string, descendants: bool)
    ensures NoPostfix(RegexTail(pattern, descendants))
    ensures ReadSequence(RegexTail(pattern, descendants)) ==
      Some((if descendants && !HasMeta(pattern) then Cons(DESCENDANTS, Nil) else Nil, "$"))
  {
    assert ReadSequence("$") == Some((Nil, "$"));
    if descendants && !HasMeta(pattern) {
      ReadsDescendants("$");
      assert Append(Cons(DESCENDANTS, Nil), Nil) == Cons(DESCENDANTS, Append(Nil, Nil));
    } else {
      assert RegexTail(pattern, descendants) == "$";
    }
  }

  /** The emitted filter is readable exactly when every class range is ordered. */
  lemma RegexReads(pattern: string, descendants: bool, quoted: bool)
    ensures ReadRegex(EmitRegex(pattern, descendants, quoted))
         == if Ordered(Parse(pattern)) then Some(CompileRegex(pattern, descendants)) else None
  {
    hide Emit, Compile, Ordered, WellFormed, ReadSequence, ReadPattern, HasMeta;
    var p, tail := Parse(pattern), RegexTail(pattern, descendants);
    assert EmitRegex(pattern, descendants, quoted)[1..] == Emit(p, quoted) + tail;
    ReadPatternWellFormed(pattern, 0, false);
    ReadsTail(pattern, descendants);
    ReadsPattern(p, quoted, tail);
  }

  ghost predicate Intended(pattern: string, descendants: bool, s: string) {
    if descendants then Covers(pattern, s) else Accepted(Parse(pattern), s)
  }

  lemma CompileRegexMatches(pattern: string, descendants: bool, s: string)
    ensures AllMatch(CompileRegex(pattern, descendants), s) <==> Intended(pattern, descendants, s)
  {
    var p := Parse(pattern);
    CompileMatches(p, s);
    if descendants && !HasMeta(pattern) {
      var last := Cons(DESCENDANTS, Nil);
      AppendMatches(Compile(p), last, s);
      forall i: nat | i <= |s|
        ensures SplitMatch(Compile(p), last, s, i) <==>
          Accepted(p, s[..i]) && (i == |s| || s[i] == '/')
      {
        CompileMatches(p, s[..i]);
        SingleMatches(DESCENDANTS, s[i..]);
        DescendantsMatches(s[i..]);
      }
      assert s[..|s|] == s;
      if Accepted(p, s) {
        assert SplitMatch(Compile(p), last, s, |s|);
      }
      if i: nat :| DescendantAccepted(p, s, i) {
        assert SplitMatch(Compile(p), last, s, i);
      }
      if i: nat :| SplitMatch(Compile(p), last, s, i) {
        if i < |s| { assert DescendantAccepted(p, s, i); }
      }
    } else {
      AppendNil(Compile(p));
    }
  }

  /** Translation preserves meaning: the emitted filter accepts a path exactly
      when the pattern's ranges are ordered and the pattern covers the path. */
  lemma TranslationPreservesMeaning(pattern: string, descendants: bool, quoted: bool, s: string)
    ensures Regex.Accepts(EmitRegex(pattern, descendants, quoted), s)
       <==> Ordered(Parse(pattern)) && Intended(pattern, descendants, s)
  {
    RegexReads(pattern, descendants, quoted);
    CompileRegexMatches(pattern, descendants, s);
  }

  /** A class written backwards, such as `[z-a]`, yields a filter nothing can read. */
  lemma DescendingRangeIsUnreadable()
    ensures ReadRegex(EmitRegex("[z-a]", true, false)) == None
  {
    var pattern := "[z-a]";
    var body := pattern[1..4];
    assert body[..2][..1] == "z" && body[..2][1] == '-' && body[2] == 'a';
    assert ScanBody(body[..2]) == ([Range('z', 'z')], true);
    assert ClassRanges(body)[0] == Range('z', 'a');
    assert FindClose(pattern, 2) == FindClose(pattern, 3) == FindClose(pattern, 4) == Some(4);
    assert ReadClass(pattern, 0).value.0.body == body;
    assert !TokenOrdered(ReadToken(pattern, 0).0);
    RegexReads(pattern, true, false);
  }
}
