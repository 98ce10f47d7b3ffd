/**
 The regular-expression language of a Seatbelt `(regex #"...")` filter: its
 syntax trees, a total reader from text, and the strings a tree matches.
 The reader knows nothing about globs; it is the independent judge of the text
 that the glob translator emits.
 */
module Regex {
  import opened Wrappers

  datatype Range = Range(lo: char, hi: char)

  datatype Node =
    | Char(c: char)
    | Any
    | Set(negated: bool, ranges: seq<Range>)
    | Star(body: Node)
    | Maybe(body: Node)
    | Group(alternatives: Alternatives)

  datatype Sequence = Nil | Cons(head: Node, tail: Sequence)

  datatype Alternatives = One(only: Sequence) | Or(first: Sequence, others: Alternatives)

  // ----- meaning -----

  predicate InRanges(ranges: seq<Range>, c: char) {
    exists k :: 0 <= k < |ranges| && ranges[k].lo <= c <= ranges[k].hi
  }

  ghost predicate Matches(n: Node, s: string)
    decreases n, |s|
  {
    match n
    case Char(c) => s == [c]
    case Any => |s| == 1
    case Set(negated, ranges) => |s| == 1 && InRanges(ranges, s[0]) != negated
    case Star(body) =>
      s == "" || exists i :: 0 < i <= |s| && Matches(body, s[..i]) && Matches(n, s[i..])
    case Maybe(body) => s == "" || Matches(body, s)
    case Group(alternatives) => AnyMatches(alternatives, s)
  }

  ghost predicate AllMatch(q: Sequence, s: string)
    decreases q, |s|
  {
    match q
    case Nil => s == ""
    case Cons(head, tail) =>
      exists i :: 0 <= i <= |s| && Matches(head, s[..i]) && AllMatch(tail, s[i..])
  }

  ghost predicate AnyMatches(a: Alternatives, s: string)
    decreases a, |s|
  {
    match a
    case One(q) => AllMatch(q, s)
    case Or(q, others) => AllMatch(q, s) || AnyMatches(others, s)
  }

  // ----- reading text -----

  /** Characters that mean something outside a bracket expression. */
  predicate IsMeta(c: char) {
    c in "[].+()|^${}\\*?"
  }

  /** One possibly escaped character of a bracket expression. */
  function ReadSetChar(t: string): (r: Option<(char, string)>)
    ensures r.Some? ==> |r.value.1| < |t|
  {
    if t == "" then None
    else if t[0] == '\\' then (if |t| < 2 then None else Some((t[1], t[2..])))
    else if t[0] == '[' || t[0] == ']' then None
    else Some((t[0], t[1..]))
  }

  /** The ranges up to the closing bracket; a descending range is an error. */
  function ReadRanges(t: string): (r: Option<(seq<Range>, string)>)
    ensures r.Some? ==> |r.value.1| < |t|
    decreases |t|
  {
    if t == "" then None
    else if t[0] == ']' then Some(([], t[1..]))
    else
      var (lo, afterLo) :- ReadSetChar(t);
      if |afterLo| >= 2 && afterLo[0] == '-' && afterLo[1] != ']' then
        var (hi, afterHi) :- ReadSetChar(afterLo[1..]);
        var (ranges, rest) :- ReadRanges(afterHi);
        if lo <= hi then Some(([Range(lo, hi)] + ranges, rest)) else None
      else
        var (ranges, rest) :- ReadRanges(afterLo);
        Some(([Range(lo, lo)] + ranges, rest))
  }

  /** A bracket expression after its opening bracket; it must not be empty. */
  function ReadSet(t: string): (r: Option<(Node, string)>)
    ensures r.Some? ==> |r.value.1| < |t|
  {
    var negated := t != "" && t[0] == '^';
    var (ranges, rest) :- ReadRanges(if negated then t[1..] else t);
    if ranges == [] then None else Some((Set(negated, ranges), rest))
  }

  function ReadAtom(t: string): (r: Option<(Node, string)>)
    ensures r.Some? ==> |r.value.1| < |t|
    decreases |t|, 0
  {
    if t == "" then None
    else if t[0] == '(' then
      var (alternatives, rest) :- ReadAlternatives(t[1..]);
      if rest != "" && rest[0] == ')' then Some((Group(alternatives), rest[1..])) else None
    else if t[0] == '[' then ReadSet(t[1..])
    else if t[0] == '.' then Some((Any, t[1..]))
    else if t[0] == '\\' then (if |t| < 2 then None else Some((Char(t[1]), t[2..])))
    else if IsMeta(t[0]) then None
    else Some((Char(t[0]), t[1..]))
  }

  function ReadPostfix(n: Node, t: string): (r: (Node, string))
    ensures |r.1| <= |t|
    decreases |t|
  {
    if t != "" && t[0] == '*' then ReadPostfix(Star(n), t[1..])
    else if t != "" && t[0] == '?' then ReadPostfix(Maybe(n), t[1..])
    else (n, t)
  }

  predicate EndsSequence(t: string) {
    t == "" || t[0] in ")|$"
  }

  function ReadSequence(t: string): (r: Option<(Sequence, string)>)
    ensures r.Some? ==> |r.value.1| <= |t| && EndsSequence(r.value.1)
    decreases |t|, 1
  {
    if EndsSequence(t) then Some((Nil, t))
    else
      var (atom, afterAtom) :- ReadAtom(t);
      var (node, afterNode) := ReadPostfix(atom, afterAtom);
      var (tail, rest) :- ReadSequence(afterNode);
      Some((Cons(node, tail), rest))
  }

  /** Alternatives separated by bars; an empty alternative is an error. */
  function ReadAlternatives(t: string): (r: Option<(Alternatives, string)>)
    ensures r.Some? ==> |r.value.1| <= |t|
    decreases |t|, 2
  {
    var (first, rest) :- ReadSequence(t);
    if first.Nil? then None
    else if rest != "" && rest[0] == '|' then
      var (others, final) :- ReadAlternatives(rest[1..]);
      Some((Or(first, others), final))
    else Some((One(first), rest))
  }

  /** A whole filter: anchored at both ends, nothing left over. */
  function ReadRegex(t: string): (r: Option<Sequence>) {
    if t == "" || t[0] != '^' then None
    else
      var (q, rest) :- ReadSequence(t[1..]);
      if rest == "$" then Some(q) else None
  }

  /** A text is a filter for `s` when it reads as an expression that matches `s`. */
  ghost predicate Accepts(t: string, s: string) {
    ReadRegex(t).Some? && AllMatch(ReadRegex(t).value, s)
  }

  // ----- laws of matching -----

  function Append(a: Sequence, b: Sequence): (r: Sequence) {
    match a
    case Nil => b
    case Cons(head, tail) => Cons(head, Append(tail, b))
  }

  lemma {:induction false} AppendNil(a: Sequence)
    ensures Append(a, Nil) == a
  {
    if a.Cons? { AppendNil(a.tail); }
  }

  lemma {:induction false} AppendAssociative(a: Sequence, b: Sequence, c: Sequence)
    ensures Append(Append(a, b), c) == Append(a, Append(b, c))
  {
    if a.Cons? { AppendAssociative(a.tail, b, c); }
  }

  ghost predicate SplitMatch(a: Sequence, b: Sequence, s: string, i: nat) {
    i <= |s| && AllMatch(a, s[..i]) && AllMatch(b, s[i..])
  }

  lemma {:induction false} SplitMatchAppends(a: Sequence, b: Sequence, s: string, i: nat)
    requires SplitMatch(a, b, s, i)
    ensures AllMatch(Append(a, b), s)
    decreases a
  {
    if a.Nil? {
      assert s[i..] == s;
    } else {
      var j :| 0 <= j <= i && Matches(a.head, s[..i][..j]) && AllMatch(a.tail, s[..i][j..]);
      assert s[..i][..j] == s[..j] && s[..i][j..] == s[j..][..i - j] && s[i..] == s[j..][i - j..];
      SplitMatchAppends(a.tail, b, s[j..], i - j);
    }
  }

  lemma {:induction false} AppendSplits(a: Sequence, b: Sequence, s: string) returns (i: nat)
    requires AllMatch(Append(a, b), s)
    ensures SplitMatch(a, b, s, i)
    decreases a
  {
    if a.Nil? {
      i := 0;
      assert s[0..] == s;
    } else {
      var j :| 0 <= j <= |s| && Matches(a.head, s[..j]) && AllMatch(Append(a.tail, b), s[j..]);
      var k := AppendSplits(a.tail, b, s[j..]);
      i := j + k;
      assert s[..i][..j] == s[..j] && s[..i][j..] == s[j..][..k] && s[j..][k..] == s[i..];
    }
  }

  /** Appended sequences match exactly the concatenations of their matches. */
  lemma AppendMatches(a: Sequence, b: Sequence, s: string)
    ensures AllMatch(Append(a, b), s) <==> exists i: nat :: SplitMatch(a, b, s, i)
  {
    if AllMatch(Append(a, b), s) {
      var i := AppendSplits(a, b, s);
    }
    if i: nat :| SplitMatch(a, b, s, i) {
      SplitMatchAppends(a, b, s, i);
    }
  }

  /** A node whose matches are all one character long. */
  ghost predicate OneChar(n: Node) {
    n.Char? || n.Any? || n.Set?
  }

  lemma {:induction false} StarOfOneChar(n: Node, s: string)
    requires OneChar(n)
    ensures Matches(Star(n), s) <==> forall k :: 0 <= k < |s| ==> Matches(n, [s[k]])
    decreases |s|
  {
    if s != "" {
      StarOfOneChar(n, s[1..]);
      assert s[..1] == [s[0]];
      if Matches(Star(n), s) {
        var i :| 0 < i <= |s| && Matches(n, s[..i]) && Matches(Star(n), s[i..]);
        assert i == 1;
        forall k | 0 <= k < |s| ensures Matches(n, [s[k]]) {
          if k > 0 { assert s[k] == s[1..][k - 1]; }
        }
      }
      if forall k :: 0 <= k < |s| ==> Matches(n, [s[k]]) {
        forall k | 0 <= k < |s[1..]| ensures Matches(n, [s[1..][k]]) {
          assert s[1..][k] == s[k + 1];
        }
        assert 0 < 1 <= |s| && Matches(n, s[..1]) && Matches(Star(n), s[1..]);
      }
    }
  }

  /** A one-node sequence matches what the node matches. */
  lemma SingleMatches(n: Node, s: string)
    ensures AllMatch(Cons(n, Nil), s) <==> Matches(n, s)
  {
    if AllMatch(Cons(n, Nil), s) {
      var i :| 0 <= i <= |s| && Matches(n, s[..i]) && AllMatch(Nil, s[i..]);
      assert s[..i] == s;
    }
    if Matches(n, s) {
      assert s[..|s|] == s && AllMatch(Nil, s[|s|..]);
    }
  }
}
