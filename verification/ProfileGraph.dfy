/**
 The inheritance graph of a configuration: walks along `inherits`, and the
 recursive first-visit post-order that says in which order profiles are merged.
 */
module ProfileGraph {
  import opened Wrappers

  /** Each profile with the profiles it inherits from, in declaration order. */
  type Config = map<string, seq<string>>

  predicate Edge(config: Config, child: string, parent: string) {
    child in config && parent in config[child]
  }

  predicate IsWalk(config: Config, walk: seq<string>) {
    walk != [] && forall i :: 0 <= i < |walk| - 1 ==> Edge(config, walk[i], walk[i + 1])
  }

  predicate WalkBetween(config: Config, walk: seq<string>, from: string, to: string) {
    IsWalk(config, walk) && walk[0] == from && walk[|walk| - 1] == to
  }

  ghost predicate Reaches(config: Config, from: string, to: string) {
    exists walk :: WalkBetween(config, walk, from, to)
  }

  /** A walk that returns to where it started. */
  predicate IsCycle(config: Config, walk: seq<string>) {
    IsWalk(config, walk) && |walk| >= 2 && walk[0] == walk[|walk| - 1]
  }

  /** Everything reachable from the profile is declared. */
  ghost predicate Closed(config: Config, name: string) {
    forall x :: Reaches(config, name, x) ==> x in config
  }

  ghost predicate Acyclic(config: Config, name: string) {
    forall walk :: IsCycle(config, walk) ==> !Reaches(config, name, walk[0])
  }

  // ----- recursive post-order -----

  function Unvisited(config: Config, path: seq<string>): (r: set<string>) {
    set x | x in config && x !in path
  }

  lemma UnvisitedShrinks(config: Config, path: seq<string>, x: string)
    requires x in config && x !in path
    ensures |Unvisited(config, path + [x])| < |Unvisited(config, path)|
  {
    assert Unvisited(config, path + [x]) == Unvisited(config, path) - {x};
    assert x in Unvisited(config, path);
  }

  /** The names done after visiting `x` from the end of `path`, unless a cycle
      or an undeclared profile is met. */
  function Visit(config: Config, path: seq<string>, done: seq<string>, x: string): (r: Option<seq<string>>)
    decreases |Unvisited(config, path)|, 0, 0
  {
    if x in done then Some(done)
    else if x in path || x !in config then None
    else
      UnvisitedShrinks(config, path, x);
      var all :- VisitParents(config, path + [x], done, config[x], 0);
      Some(all + [x])
  }

  function VisitParents(config: Config, path: seq<string>, done: seq<string>, parents: seq<string>, next: nat)
    : (r: Option<seq<string>>)
    requires next <= |parents|
    decreases |Unvisited(config, path)|, 1, |parents| - next
  {
    if next == |parents| then Some(done)
    else
      var more :- Visit(config, path, done, parents[next]);
      VisitParents(config, path, more, parents, next + 1)
  }

  function PostOrder(config: Config, name: string): (r: Option<seq<string>>) {
    Visit(config, [], [], name)
  }

  // ----- the order is a merge order -----

  /** Distinct names, each declared and after everything it inherits. */
  ghost predicate MergeOrder(config: Config, done: seq<string>) {
    && (forall i, j :: 0 <= i < j < |done| ==> done[i] != done[j])
    && (forall i :: 0 <= i < |done| ==> done[i] in config)
    && (forall i, p :: 0 <= i < |done| && p in config[done[i]] ==> p in done[..i])
  }

  lemma MergeOrderExtends(config: Config, done: seq<string>, x: string)
    requires MergeOrder(config, done) && x in config && x !in done
    requires forall p :: p in config[x] ==> p in done
    ensures MergeOrder(config, done + [x])
  {
    var all := done + [x];
    forall i, p | 0 <= i < |all| && p in config[all[i]] ensures p in all[..i] {
      if i < |done| {
        assert all[..i] == done[..i];
      } else {
        assert all[..i] == done;
      }
    }
  }

  lemma {:induction false} VisitExtends(config: Config, path: seq<string>, done: seq<string>, x: string)
    requires MergeOrder(config, done) && Visit(config, path, done, x).Some?
    requires forall y :: y in path ==> y !in done
    ensures var all := Visit(config, path, done, x).value;
      MergeOrder(config, all) && done <= all && x in all && forall y :: y in path ==> y !in all
    ensures var all := Visit(config, path, done, x).value; x !in done ==> all[|all| - 1] == x
    decreases |Unvisited(config, path)|, 0, 0
  {
    if x !in done {
      UnvisitedShrinks(config, path, x);
      VisitParentsExtends(config, path + [x], done, config[x], 0);
      var all := VisitParents(config, path + [x], done, config[x], 0).value;
      assert x in path + [x];
      MergeOrderExtends(config, all, x);
      assert forall y :: y in path ==> y in path + [x];
    }
  }

  lemma {:induction false} VisitParentsExtends(config: Config, path: seq<string>, done: seq<string>,
                                               parents: seq<string>, next: nat)
    requires next <= |parents| && MergeOrder(config, done)
    requires VisitParents(config, path, done, parents, next).Some?
    requires forall y :: y in path ==> y !in done
    ensures var all := VisitParents(config, path, done, parents, next).value;
      && MergeOrder(config, all) && done <= all
      && (forall y :: y in path ==> y !in all)
      && (forall k :: next <= k < |parents| ==> parents[k] in all)
    decreases |Unvisited(config, path)|, 1, |parents| - next
  {
    if next < |parents| {
      VisitExtends(config, path, done, parents[next]);
      var more := Visit(config, path, done, parents[next]).value;
      VisitParentsExtends(config, path, more, parents, next + 1);
    }
  }

  // ----- everything visited is reachable -----

  lemma WalkExtends(config: Config, walk: seq<string>, x: string)
    requires IsWalk(config, walk) && Edge(config, walk[|walk| - 1], x)
    ensures IsWalk(config, walk + [x])
  {
  }

  lemma ReachesFurther(config: Config, from: string, via: string, to: string)
    requires Reaches(config, from, via) && Edge(config, via, to)
    ensures Reaches(config, from, to)
  {
    var walk :| WalkBetween(config, walk, from, via);
    assert WalkBetween(config, walk + [to], from, to);
  }

  ghost predicate OnlyReachable(config: Config, root: string, done: seq<string>, all: seq<string>) {
    forall y :: y in all ==> y in done || Reaches(config, root, y)
  }

  lemma {:induction false} VisitReaches(config: Config, path: seq<string>, done: seq<string>, x: string, root: string)
    requires Visit(config, path, done, x).Some? && Reaches(config, root, x)
    ensures OnlyReachable(config, root, done, Visit(config, path, done, x).value)
    decreases |Unvisited(config, path)|, 0, 0
  {
    if x !in done {
      UnvisitedShrinks(config, path, x);
      forall k | 0 <= k < |config[x]| ensures Reaches(config, root, config[x][k]) {
        ReachesFurther(config, root, x, config[x][k]);
      }
      VisitParentsReaches(config, path + [x], done, config[x], 0, root);
    }
  }

  lemma {:induction false} VisitParentsReaches(config: Config, path: seq<string>, done: seq<string>,
                                               parents: seq<string>, next: nat, root: string)
    requires next <= |parents| && VisitParents(config, path, done, parents, next).Some?
    requires forall k :: 0 <= k < |parents| ==> Reaches(config, root, parents[k])
    ensures OnlyReachable(config, root, done, VisitParents(config, path, done, parents, next).value)
    decreases |Unvisited(config, path)|, 1, |parents| - next
  {
    if next < |parents| {
      VisitReaches(config, path, done, parents[next], root);
      VisitParentsReaches(config, path, Visit(config, path, done, parents[next]).value, parents, next + 1, root);
    }
  }

  lemma SuffixIsWalk(config: Config, walk: seq<string>, i: nat)
    requires IsWalk(config, walk) && i < |walk|
    ensures IsWalk(config, walk[i..]) && IsWalk(config, walk[..i + 1])
  {
    var suffix := walk[i..];
    forall k | 0 <= k < |suffix| - 1 ensures Edge(config, suffix[k], suffix[k + 1]) {
      assert suffix[k] == walk[i + k] && suffix[k + 1] == walk[i + k + 1];
    }
  }

  /** A merge order is closed under inheritance, with parents strictly earlier. */
  lemma {:induction false} WalkStaysInOrder(config: Config, order: seq<string>, walk: seq<string>, i: nat)
    requires MergeOrder(config, order) && IsWalk(config, walk)
    requires i < |order| && walk[0] == order[i]
    ensures walk[|walk| - 1] in order[..i + 1]
    ensures |walk| > 1 ==> walk[|walk| - 1] in order[..i]
    decreases |walk|
  {
    if |walk| > 1 {
      assert Edge(config, walk[0], walk[1]);
      var j :| 0 <= j < i && order[..i][j] == walk[1];
      var rest := walk[1..];
      SuffixIsWalk(config, walk, 1);
      WalkStaysInOrder(config, order, rest, j);
      assert order[..j + 1] == order[..i][..j + 1];
    } else {
      assert order[..i + 1][i] == order[i];
    }
  }

  /** A successful post-order lists the reachable profiles, each once, each after
      all its parents, the requested one last; and nothing is wrong with the graph. */
  lemma PostOrderIsMergeOrder(config: Config, name: string)
    requires PostOrder(config, name).Some?
    ensures var order := PostOrder(config, name).value;
      && MergeOrder(config, order)
      && order != [] && order[|order| - 1] == name
      && (forall x :: x in order <==> Reaches(config, name, x))
    ensures Closed(config, name) && Acyclic(config, name)
  {
    var order := PostOrder(config, name).value;
    VisitExtends(config, [], [], name);
    assert WalkBetween(config, [name], name, name);
    VisitReaches(config, [], [], name, name);
    var last := |order| - 1;
    forall x | Reaches(config, name, x) ensures x in order {
      var walk :| WalkBetween(config, walk, name, x);
      WalkStaysInOrder(config, order, walk, last);
    }
    forall walk | IsCycle(config, walk) ensures !Reaches(config, name, walk[0]) {
      if Reaches(config, name, walk[0]) {
        var i :| 0 <= i < |order| && order[i] == walk[0];
        WalkStaysInOrder(config, order, walk, i);
      }
    }
  }

  // ----- a failing post-order has a reason -----

  /** The graph below the root has a cycle or an undeclared profile. */
  ghost predicate Broken(config: Config, root: string) {
    !Closed(config, root) || !Acyclic(config, root)
  }

  /** A walk that comes back to an earlier name contains a reachable cycle. */
  lemma ReturningWalkIsCycle(config: Config, path: seq<string>, i: nat, x: string)
    requires IsWalk(config, path + [x]) && i < |path| && path[i] == x
    ensures IsCycle(config, path[i..] + [x])
    ensures WalkBetween(config, path[..i + 1], path[0], x)
  {
    var walk := path + [x];
    SuffixIsWalk(config, walk, i);
    assert walk[i..] == path[i..] + [x] && walk[..i + 1] == path[..i + 1];
  }

  lemma {:induction false} VisitFails(config: Config, path: seq<string>, done: seq<string>, x: string)
    requires IsWalk(config, path + [x]) && Visit(config, path, done, x).None?
    ensures Broken(config, (path + [x])[0])
    decreases |Unvisited(config, path)|, 0, 0
  {
    var walk := path + [x];
    if x in path {
      var i :| 0 <= i < |path| && path[i] == x;
      ReturningWalkIsCycle(config, path, i, x);
      assert Reaches(config, walk[0], (path[i..] + [x])[0]);
    } else if x !in config {
      assert WalkBetween(config, walk, walk[0], x);
      assert Reaches(config, walk[0], x);
    } else {
      UnvisitedShrinks(config, path, x);
      VisitParentsFails(config, walk, done, config[x], 0);
    }
  }

  lemma {:induction false} VisitParentsFails(config: Config, path: seq<string>, done: seq<string>,
                                             parents: seq<string>, next: nat)
    requires IsWalk(config, path) && next <= |parents|
    requires path[|path| - 1] in config && config[path[|path| - 1]] == parents
    requires VisitParents(config, path, done, parents, next).None?
    ensures Broken(config, path[0])
    decreases |Unvisited(config, path)|, 1, |parents| - next
  {
    var first := Visit(config, path, done, parents[next]);
    if first.None? {
      WalkExtends(config, path, parents[next]);
      VisitFails(config, path, done, parents[next]);
    } else {
      VisitParentsFails(config, path, first.value, parents, next + 1);
    }
  }

  /** Resolution succeeds exactly on closed acyclic inheritance. */
  lemma PostOrderSucceedsIff(config: Config, name: string)
    ensures PostOrder(config, name).Some? <==> Closed(config, name) && Acyclic(config, name)
  {
    if PostOrder(config, name).Some? {
      PostOrderIsMergeOrder(config, name);
    } else {
      assert [] + [name] == [name];
      VisitFails(config, [], [], name);
    }
  }
}
