/**
 The translation of a path glob into Seatbelt regular-expression text: the text
 each tree stands for, and the translators that scan a pattern with a cursor and
 append to a buffer, proved to produce that text.
 */
module GlobCompiler {
  import opened Wrappers
  import opened Regex
  import opened Glob

  // ----- the text of a tree -----
  // `quoted` tells whether double quotes are escaped for a `#"..."` literal.

  function EmitLiteral(c: char, quoted: bool): (r: string) {
    if c in "[].+()|^${}\\" || (quoted && c == '"') then ['\\', c] else [c]
  }

  function EmitSetChar(c: char, quoted: bool): (r: string) {
    if c in "\\][^" || (quoted && c == '"') then ['\\', c] else [c]
  }

  function EmitRange(range: Range, quoted: bool): (r: string) {
    EmitSetChar(range.lo, quoted)
    + if range.lo == range.hi then "" else "-" + EmitSetChar(range.hi, quoted)
  }

  function EmitRanges(ranges: seq<Range>, quoted: bool): (r: string) {
    if ranges == [] then "" else EmitRange(ranges[0], quoted) + EmitRanges(ranges[1..], quoted)
  }

  function Emit(p: Pattern, quoted: bool): (r: string) {
    match p
    case Empty => ""
    case Item(first, rest) => EmitToken(first, quoted) + Emit(rest, quoted)
  }

  function EmitToken(t: Token, quoted: bool): (r: string) {
    match t
    case Literal(c) => EmitLiteral(c, quoted)
    case AnyChar => "[^/]"
    case ComponentStar(_) => "[^/]*"
    case DeepPrefix => "(.*/)?"
    case DeepTail => ".*"
    case Class(mark, body) =>
      "[" + (if mark == "" then "" else "^") + EmitRanges(ClassRanges(body), quoted) + "]"
    case Alternation(branches) => EmitGroup(EmitLive(branches, quoted))
  }

  function Live(text: string): (r: seq<string>) {
    if text == "" then [] else [text]
  }

  /** The text of every branch that has any. */
  function EmitLive(bs: Branches, quoted: bool): (r: seq<string>) {
    match bs
    case Last(branch) => Live(Emit(branch, quoted))
    case More(branch, others) => Live(Emit(branch, quoted)) + EmitLive(others, quoted)
  }

  function Join(parts: seq<string>): (r: string) {
    if parts == [] then "" else if |parts| == 1 then parts[0] else parts[0] + "|" + Join(parts[1..])
  }

  function EmitGroup(parts: seq<string>): (r: string) {
    if |parts| <= 1 then Join(parts) else "(" + Join(parts) + ")"
  }

  function EmitRegex(pattern: string, descendants: bool, quoted: bool): (r: string) {
    "^" + Emit(Parse(pattern), quoted)
    + (if descendants && !HasMeta(pattern) then "(/.*)?" else "") + "$"
  }

  // ----- the translators -----

  method PushRegexLiteral(regex: string, character: char) returns (r: string)
    ensures r == regex + EmitLiteral(character, false)
  {
    r := regex;
    if character in "[].+()|^${}\\" {
      r := r + "\\";
    }
    r := r + [character];
  }

  method PushRegexClassCharacter(regex: string, character: char) returns (r: string)
    ensures r == regex + EmitSetChar(character, false)
  {
    r := regex;
    if character in "\\][^" {
      r := r + "\\";
    }
    r := r + [character];
  }

  lemma EmitRangesAppends(ranges: seq<Range>, k: nat)
    requires k < |ranges|
    ensures EmitRanges(ranges[..k], false) + EmitRange(ranges[k], false) == EmitRanges(ranges[..k + 1], false)
    decreases k
  {
    if k > 0 {
      EmitRangesAppends(ranges[1..], k - 1);
      assert ranges[..k][1..] == ranges[1..][..k - 1] && ranges[..k + 1][1..] == ranges[1..][..k];
    } else {
      assert ranges[..1][1..] == [];
    }
  }

  /** Writes the ranges of a closed class between its brackets. */
  method PushRanges(regex: string, ranges: seq<Range>) returns (r: string)
    ensures r == regex + EmitRanges(ranges, false)
  {
    hide EmitSetChar;
    r := regex;
    for k := 0 to |ranges|
      invariant r == regex + EmitRanges(ranges[..k], false)
    {
      EmitRangesAppends(ranges, k);
      r := PushRegexClassCharacter(r, ranges[k].lo);
      if ranges[k].lo != ranges[k].hi {
        r := r + "-";
        r := PushRegexClassCharacter(r, ranges[k].hi);
      }
    }
    assert ranges[..|ranges|] == ranges;
  }

  /** Takes one more character of a class body into account. */
  method ScanClassCharacter(body: string, soFar: seq<Range>, wasOpen: bool, character: char)
    returns (ranges: seq<Range>, inRange: bool)
    requires (soFar, wasOpen) == ScanBody(body)
    ensures (ranges, inRange) == ScanBody(body + [character])
  {
    ghost var next := body + [character];
    assert next[..|body|] == body && next[|body|] == character;
    ranges, inRange := soFar, false;
    if body == "" {
      ranges := [Range(character, character)];
    } else if wasOpen {
      ranges := ranges[|ranges| - 1 := Range(ranges[|ranges| - 1].lo, character)];
    } else if character == '-' {
      inRange := true;
    } else {
      ranges := ranges + [Range(character, character)];
    }
  }

  /** Where the body that starts at `content` ends: at the first closing bracket after one character, or never. */
  function BodyEnd(characters: string, content: nat): (r: nat)
    requires content <= |characters|
    ensures content <= r <= |characters|
  {
    if content == |characters| then content
    else if FindClose(characters, content + 1).Some? then FindClose(characters, content + 1).value
    else |characters|
  }

  /** Scans a class body up to its closing bracket or the end of the text. */
  method ScanClassBody(characters: string, content: nat) returns (ranges: seq<Range>, inRange: bool, classIndex: nat)
    requires content <= |characters|
    ensures classIndex == BodyEnd(characters, content)
    ensures (ranges, inRange) == ScanBody(characters[content..classIndex])
  {
    ranges, inRange, classIndex := [], false, content;
    assert ScanBody("") == ([], false);
    hide ScanBody;
    while classIndex < |characters| && (classIndex == content || characters[classIndex] != ']')
      invariant content <= classIndex <= |characters|
      invariant (ranges, inRange) == ScanBody(characters[content..classIndex])
      invariant classIndex > content ==>
        FindClose(characters, content + 1) == FindClose(characters, classIndex)
    {
      ranges, inRange :=
        ScanClassCharacter(characters[content..classIndex], ranges, inRange, characters[classIndex]);
      assert characters[content..classIndex] + [characters[classIndex]] == characters[content..classIndex + 1];
      classIndex := classIndex + 1;
    }
  }

  /** Scans the class opened at `start` up to its closing bracket. */
  method ScanClass(characters: string, start: nat) returns (negated: bool, ranges: seq<Range>, close: Option<nat>)
    requires start < |characters|
    ensures close.Some? <==> ReadClass(characters, start).Some?
    ensures close.Some? ==>
      var (token, end) := ReadClass(characters, start).value;
      end == close.value + 1 && negated == (token.mark != "") && ranges == ClassRanges(token.body)
  {
    var content := start + 1;
    negated := content < |characters| && characters[content] in "!^";
    if negated {
      content := content + 1;
    }
    assert content == ClassStart(characters, start) && |characters[start + 1..content]| == if negated then 1 else 0;
    hide FindClose, ScanBody, ClassStart;
    var body, inRange, classIndex := ScanClassBody(characters, content);
    ranges, close := body, None;
    if classIndex < |characters| {
      close := Some(classIndex);
      if inRange {
        ranges := ranges + [Range('-', '-')];
      }
    }
  }

  /** Translates the class opened at `start`; an unclosed class is a literal bracket. */
  method TranslateClass(characters: string, start: nat, prefix: string) returns (index: nat, regex: string)
    requires start < |characters| && characters[start] == '['
    ensures index == ReadToken(characters, start).1
    ensures regex == prefix + EmitToken(ReadToken(characters, start).0, false)
  {
    hide ReadBranches, ReadStars, ScanBody, FindClose, ClassRanges, EmitRanges, EmitLive;
    var negated, ranges, close := ScanClass(characters, start);
    if close.None? {
      regex := PushRegexLiteral(prefix, '[');
      return start + 1, regex;
    }
    var opening := if negated then "[^" else "[";
    var body := PushRanges("", ranges);
    regex := prefix + (opening + body + "]");
    index := close.value + 1;
  }

  method TranslateStars(characters: string, start: nat, prefix: string) returns (index: nat, regex: string)
    requires start < |characters| && characters[start] == '*'
    ensures index == ReadToken(characters, start).1
    ensures regex == prefix + EmitToken(ReadToken(characters, start).0, false)
  {
    index := start;
    while index < |characters| && characters[index] == '*'
      invariant start <= index <= |characters|
      invariant StarsEnd(characters, start) == StarsEnd(characters, index)
    {
      index := index + 1;
    }
    var count := index - start;
    var atComponentBoundary := start == 0 || characters[start - 1] in "/{,";
    if count == 2 && atComponentBoundary && index < |characters| && characters[index] == '/' {
      index := index + 1;
      regex := prefix + "(.*/)?";
    } else if count == 2 && atComponentBoundary && (index == |characters| || characters[index] in "},") {
      regex := prefix + ".*";
    } else {
      regex := prefix + "[^/]*";
    }
  }

  /** Translates the one token at `start`. */
  method TranslateToken(characters: string, start: nat, prefix: string) returns (index: nat, regex: string)
    requires start < |characters|
    ensures index == ReadToken(characters, start).1
    ensures regex == prefix + EmitToken(ReadToken(characters, start).0, false)
    decreases |characters| - start, 1
  {
    var character := characters[start];
    if character == '*' {
      index, regex := TranslateStars(characters, start, prefix);
    } else if character == '?' {
      index, regex := start + 1, prefix + "[^/]";
    } else if character == '[' {
      index, regex := TranslateClass(characters, start, prefix);
    } else if character == '{' {
      index, regex := TranslateAlternation(characters, start, prefix);
    } else {
      index := start + 1;
      regex := PushRegexLiteral(prefix, character);
    }
  }

  lemma ReadStep(characters: string, i: nat, nested: bool, prefix: string)
    requires i < |characters| && !StopsBranch(characters, i, nested)
    ensures var (token, next) := ReadToken(characters, i);
      && ReadPattern(characters, i, nested).1 == ReadPattern(characters, next, nested).1
      && prefix + Emit(ReadPattern(characters, i, nested).0, false)
      == (prefix + EmitToken(token, false)) + Emit(ReadPattern(characters, next, nested).0, false)
  {
  }

  /** Scans tokens up to the end of the text, or of the branch when nested. */
  method TranslateSequence(characters: string, start: nat, nested: bool, prefix: string)
    returns (index: nat, regex: string)
    requires start <= |characters|
    ensures index == ReadPattern(characters, start, nested).1
    ensures regex == prefix + Emit(ReadPattern(characters, start, nested).0, false)
    decreases |characters| - start, 2
  {
    index, regex := start, prefix;
    while index < |characters|
      invariant start <= index <= |characters|
      invariant ReadPattern(characters, start, nested).1 == ReadPattern(characters, index, nested).1
      invariant prefix + Emit(ReadPattern(characters, start, nested).0, false)
             == regex + Emit(ReadPattern(characters, index, nested).0, false)
    {
      var character := characters[index];
      if nested && (character == '}' || character == ',') {
        return;
      }
      ReadStep(characters, index, nested, regex);
      index, regex := TranslateToken(characters, index, regex);
    }
  }

  /** What the branches from `i` add to the branches already collected. */
  ghost function Collected(characters: string, i: nat, branches: seq<string>): (r: Option<(seq<string>, nat)>)
    requires i <= |characters|
  {
    var rest := ReadBranches(characters, i);
    if rest.None? then None else Some((branches + EmitLive(rest.value.0, false), rest.value.1))
  }

  lemma CollectStep(characters: string, i: nat, branches: seq<string>)
    requires i <= |characters|
    ensures var (branch, end) := ReadPattern(characters, i, true);
      var more := branches + Live(Emit(branch, false));
      Collected(characters, i, branches) ==
        if end == |characters| then None
        else if characters[end] == '}' then Some((more, end + 1))
        else Collected(characters, end + 1, more)
  {
    var (branch, end) := ReadPattern(characters, i, true);
    if end < |characters| && characters[end] != '}' {
      var rest := ReadBranches(characters, end + 1);
      if rest.Some? {
        assert branches + (Live(Emit(branch, false)) + EmitLive(rest.value.0, false))
            == (branches + Live(Emit(branch, false))) + EmitLive(rest.value.0, false);
      }
    }
  }

  /** Scans the branches opened at `opening`; unclosed braces are literal. */
  method TranslateAlternation(characters: string, opening: nat, prefix: string)
    returns (index: nat, regex: string)
    requires opening < |characters| && characters[opening] == '{'
    ensures index == ReadToken(characters, opening).1
    ensures regex == prefix + EmitToken(ReadToken(characters, opening).0, false)
    decreases |characters| - opening, 0
  {
    index := opening + 1;
    var branches: seq<string> := [];
    var closed := false;
    while !closed
      invariant opening < index <= |characters|
      invariant !closed ==>
        Collected(characters, opening + 1, []) == Collected(characters, index, branches)
      invariant closed ==> Collected(characters, opening + 1, []) == Some((branches, index))
      decreases !closed, |characters| - index
    {
      CollectStep(characters, index, branches);
      var branch;
      ghost var p := ReadPattern(characters, index, true).0;
      index, branch := TranslateSequence(characters, index, true, "");
      assert branch == Emit(p, false);
      if index >= |characters| {
        regex := PushRegexLiteral(prefix, '{');
        return opening + 1, regex;
      }
      assert branches + [] == branches;
      if branch != "" {
        branches := branches + [branch];
      }
      // the cursor stands on a separator or on the closing brace, never on anything else
      assert characters[index] == ',' || characters[index] == '}';
      closed := characters[index] == '}';
      index := index + 1;
    }
    ghost var all := ReadBranches(characters, opening + 1).value.0;
    assert [] + EmitLive(all, false) == EmitLive(all, false);
    if |branches| == 1 {
      regex := prefix + branches[0];
    } else if branches != [] {
      regex := prefix + ("(" + Join(branches) + ")");
    } else {
      regex := prefix;
    }
  }

  method PatternHasGlobMeta(pattern: string) returns (r: bool)
    ensures r <==> HasMeta(pattern)
  {
    for k := 0 to |pattern|
      invariant forall j :: 0 <= j < k ==> pattern[j] !in "*?[{}"
    {
      if pattern[k] in "*?[{}" {
        return true;
      }
    }
    return false;
  }

  /** The anchored expression for a deny glob, optionally with its descendants. */
  method GlobToSeatbeltRegex(pattern: string, descendants: bool) returns (regex: string)
    ensures regex == EmitRegex(pattern, descendants, false)
  {
    var index;
    index, regex := TranslateSequence(pattern, 0, false, "^");
    var meta := PatternHasGlobMeta(pattern);
    if descendants && !meta {
      regex := regex + "(/.*)?";
    }
    regex := regex + "$";
  }

  // ----- quoting for a `#"..."` literal -----

  function EscapeQuotes(text: string): (r: string) {
    if text == "" then "" else (if text[0] == '"' then ['\\', '"'] else [text[0]]) + EscapeQuotes(text[1..])
  }

  method EscapeRegexLiteral(value: string) returns (r: string)
    ensures r == EscapeQuotes(value)
  {
    r := "";
    for k := 0 to |value|
      invariant EscapeQuotes(value) == r + EscapeQuotes(value[k..])
    {
      assert value[k..][1..] == value[k + 1..];
      if value[k] == '"' {
        r := r + ['\\', '"'];
      } else {
        r := r + [value[k]];
      }
    }
    assert r + "" == r;
  }

  lemma {:induction false} EscapeAppends(x: string, y: string)
    ensures EscapeQuotes(x + y) == EscapeQuotes(x) + EscapeQuotes(y)
  {
    if x == "" {
      assert x + y == y;
    } else {
      assert (x + y)[1..] == x[1..] + y;
      EscapeAppends(x[1..], y);
    }
  }

  lemma {:induction false} EscapeNothing(text: string)
    requires '"' !in text
    ensures EscapeQuotes(text) == text
  {
    if text != "" {
      EscapeNothing(text[1..]);
      assert text == [text[0]] + text[1..];
    }
  }

  lemma EscapeSetChar(c: char)
    ensures EscapeQuotes(EmitSetChar(c, false)) == EmitSetChar(c, true)
  {
    var text := EmitSetChar(c, false);
    if c == '"' {
      assert text[1..] == "";
    } else {
      EscapeNothing(text);
    }
  }

  lemma EscapeLiteral(c: char)
    ensures EscapeQuotes(EmitLiteral(c, false)) == EmitLiteral(c, true)
  {
    var text := EmitLiteral(c, false);
    if c == '"' {
      assert text[1..] == "";
    } else {
      EscapeNothing(text);
    }
  }

  lemma {:induction false} EscapeRanges(ranges: seq<Range>)
    ensures EscapeQuotes(EmitRanges(ranges, false)) == EmitRanges(ranges, true)
  {
    if ranges != [] {
      var range := ranges[0];
      var lo, hi := EmitSetChar(range.lo, false), EmitSetChar(range.hi, false);
      EscapeRanges(ranges[1..]);
      EscapeAppends(EmitRange(range, false), EmitRanges(ranges[1..], false));
      EscapeSetChar(range.lo);
      EscapeSetChar(range.hi);
      EscapeNothing("-");
      EscapeNothing("");
      EscapeAppends(lo, if range.lo == range.hi then "" else "-" + hi);
      EscapeAppends("-", hi);
    }
  }

  lemma {:induction false} EscapePattern(p: Pattern)
    ensures EscapeQuotes(Emit(p, false)) == Emit(p, true)
  {
    if p.Item? {
      EscapeToken(p.first);
      EscapePattern(p.rest);
      EscapeAppends(EmitToken(p.first, false), Emit(p.rest, false));
    }
  }

  lemma {:induction false} EscapeToken(t: Token)
    ensures EscapeQuotes(EmitToken(t, false)) == EmitToken(t, true)
  {
    match t
    case Literal(c) => EscapeLiteral(c);
    case Class(mark, body) =>
      var opening, ranges := if mark == "" then "[" else "[" + "^", EmitRanges(ClassRanges(body), false);
      EscapeRanges(ClassRanges(body));
      EscapeNothing(opening);
      EscapeNothing("]");
      EscapeAppends(opening, ranges);
      EscapeAppends(opening + ranges, "]");
      assert EmitToken(t, false) == opening + ranges + "]";
      assert EmitToken(t, true) == opening + EmitRanges(ClassRanges(body), true) + "]";
    case Alternation(branches) => EscapeGroup(branches);
    case _ => EscapeNothing(EmitToken(t, false));
  }

  lemma {:induction false} EscapeGroup(bs: Branches)
    ensures EscapeQuotes(EmitGroup(EmitLive(bs, false))) == EmitGroup(EmitLive(bs, true))
    decreases bs, 1
  {
    var parts := EmitLive(bs, false);
    EscapeLive(bs);
    EscapeJoin(parts, EmitLive(bs, true));
    EscapeNothing("(");
    EscapeNothing(")");
    EscapeAppends("(", Join(parts));
    EscapeAppends("(" + Join(parts), ")");
  }

  ghost predicate EscapedEach(parts: seq<string>, escaped: seq<string>) {
    |parts| == |escaped| && forall k :: 0 <= k < |parts| ==> EscapeQuotes(parts[k]) == escaped[k]
  }

  lemma {:induction false} EscapeLive(bs: Branches)
    ensures EscapedEach(EmitLive(bs, false), EmitLive(bs, true))
    decreases bs, 0
  {
    EscapePattern(bs.branch);
    if bs.More? {
      EscapeLive(bs.others);
    }
  }

  lemma {:induction false} EscapeJoin(parts: seq<string>, escaped: seq<string>)
    requires EscapedEach(parts, escaped)
    ensures EscapeQuotes(Join(parts)) == Join(escaped)
  {
    if |parts| > 1 {
      EscapeJoin(parts[1..], escaped[1..]);
      EscapeNothing("|");
      EscapeAppends(parts[0], "|");
      EscapeAppends(parts[0] + "|", Join(parts[1..]));
    }
  }

  /** Escaping the finished text is escaping each literal as it is emitted. */
  lemma EscapeRegex(pattern: string, descendants: bool)
    ensures EscapeQuotes(EmitRegex(pattern, descendants, false)) == EmitRegex(pattern, descendants, true)
  {
    var p := Parse(pattern);
    var tail := if descendants && !HasMeta(pattern) then "(/.*)?" else "";
    EscapePattern(p);
    EscapeNothing("^");
    EscapeNothing("$");
    EscapeNothing(tail);
    EscapeAppends("^", Emit(p, false));
    EscapeAppends("^" + Emit(p, false), tail);
    EscapeAppends("^" + Emit(p, false) + tail, "$");
  }
}
