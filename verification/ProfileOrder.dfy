/**
 The merge order without a search: the orders of the inherited profiles, one after
 the other as they are listed and without repetition, and then the profile itself.
 */
module ProfileOrder {
  import opened Wrappers
  import opened ProfileGraph

  /** The names of a list that are not known yet, in their order. */
  function Without(names: seq<string>, known: seq<string>): (r: seq<string>) {
    if names == [] then []
    else
      var front, last := names[..|names| - 1], names[|names| - 1];
      Without(front, known) + if last in known then [] else [last]
  }

  /** Several orders, one after the other, each name where it comes first. */
  function Gather(orders: seq<seq<string>>): (r: seq<string>) {
    if orders == [] then []
    else
      var before := Gather(orders[..|orders| - 1]);
      before + Without(orders[|orders| - 1], before)
  }

  lemma {:induction false} WithoutHas(names: seq<string>, known: seq<string>, x: string)
    ensures x in Without(names, known) <==> x in names && x !in known
  {
    if names != [] {
      var front, last := names[..|names| - 1], names[|names| - 1];
      assert names == front + [last];
      WithoutHas(front, known, x);
    }
  }

  lemma {:induction false} WithoutAppends(names: seq<string>, more: seq<string>, known: seq<string>)
    ensures Without(names + more, known) == Without(names, known) + Without(more, known)
    decreases |more|
  {
    if more == [] {
      assert names + more == names;
    } else {
      var all := names + more;
      assert all[..|all| - 1] == names + more[..|more| - 1];
      WithoutAppends(names, more[..|more| - 1], known);
    }
  }

  lemma {:induction false} WithoutKnown(names: seq<string>, known: seq<string>)
    requires forall x :: x in names ==> x in known
    ensures Without(names, known) == []
  {
    if names != [] {
      assert forall x :: x in names[..|names| - 1] ==> x in names;
      WithoutKnown(names[..|names| - 1], known);
    }
  }

  lemma {:induction false} GatherHas(orders: seq<seq<string>>, x: string)
    ensures x in Gather(orders) <==> exists k :: 0 <= k < |orders| && x in orders[k]
  {
    if orders != [] {
      var front, last := orders[..|orders| - 1], orders[|orders| - 1];
      GatherHas(front, x);
      WithoutHas(last, Gather(front), x);
      if k :| 0 <= k < |front| && x in front[k] {
        assert orders[k] == front[k];
      }
      if k :| 0 <= k < |orders| && x in orders[k] {
        assert k < |front| ==> front[k] == orders[k];
      }
    }
  }

  lemma {:induction false} GatherPrefix(orders: seq<seq<string>>, n: nat)
    requires n <= |orders|
    ensures Gather(orders[..n]) <= Gather(orders)
    decreases |orders| - n
  {
    if n == |orders| {
      assert orders[..n] == orders;
    } else {
      GatherPrefix(orders, n + 1);
      assert orders[..n + 1][..n] == orders[..n];
      assert Gather(orders[..n]) <= Gather(orders[..n + 1]);
    }
  }

  ghost predicate Before(order: seq<string>, a: string, b: string) {
    exists m, n :: 0 <= m < n < |order| && order[m] == a && order[n] == b
  }

  /** A name of one order comes before a name that neither that order nor an earlier one has. */
  lemma GatheredBefore(orders: seq<seq<string>>, rest: seq<string>, i: nat, a: string, b: string)
    requires i < |orders| && a in orders[i] && b in Gather(orders) + rest
    requires forall k :: 0 <= k <= i ==> b !in orders[k]
    ensures Before(Gather(orders) + rest, a, b)
  {
    hide Gather;
    var first, order := Gather(orders[..i + 1]), Gather(orders) + rest;
    assert orders[..i + 1][i] == orders[i];
    GatherHas(orders[..i + 1], a);
    GatherHas(orders[..i + 1], b);
    GatherPrefix(orders, i + 1);
    assert forall m :: 0 <= m < |first| ==> first[m] == order[m];
    var m :| 0 <= m < |first| && first[m] == a;
    var n :| 0 <= n < |order| && order[n] == b;
  }

  // ----- visiting past what is done -----

  lemma {:induction false} ClosedUnderWalks(config: Config, done: seq<string>, walk: seq<string>)
    requires MergeOrder(config, done) && IsWalk(config, walk) && walk[0] in done
    ensures walk[|walk| - 1] in done
  {
    var i :| 0 <= i < |done| && done[i] == walk[0];
    WalkStaysInOrder(config, done, walk, i);
    assert forall x :: x in done[..i + 1] ==> x in done;
  }

  /** Visiting a name that is done adds nothing new. */
  lemma VisitDone(config: Config, path: seq<string>, seen: seq<string>, done: seq<string>, x: string)
    requires MergeOrder(config, done) && x in done && Visit(config, path, seen, x).Some?
    requires MergeOrder(config, seen) && forall y :: y in path ==> y !in seen
    ensures Without(Visit(config, path, seen, x).value, done) == Without(seen, done)
  {
    var all := Visit(config, path, seen, x).value;
    VisitExtends(config, path, seen, x);
    assert WalkBetween(config, [x], x, x);
    VisitReaches(config, path, seen, x, x);
    var more := all[|seen|..];
    assert all == seen + more;
    forall y | y in more ensures y in done {
      var i :| 0 <= i < |more| && more[i] == y;
      assert all[|seen| + i] == y;
      assert Reaches(config, x, y);
      var walk :| WalkBetween(config, walk, x, y);
      ClosedUnderWalks(config, done, walk);
    }
    WithoutAppends(seen, more, done);
    WithoutKnown(more, done);
  }

  ghost predicate Fresh(path: seq<string>, seen: seq<string>) {
    forall y :: y in path ==> y !in seen
  }

  /** A visit that starts with more names done lists the same names in the same order, without those. */
  lemma {:induction false} VisitPast(config: Config, path: seq<string>, seen: seq<string>, other: seq<string>,
                                     done: seq<string>, x: string)
    requires MergeOrder(config, done) && MergeOrder(config, seen) && Fresh(path, seen)
    requires Visit(config, path, seen, x).Some? && Visit(config, other, done + Without(seen, done), x).Some?
    ensures Visit(config, other, done + Without(seen, done), x).value
         == done + Without(Visit(config, path, seen, x).value, done)
    decreases |Unvisited(config, path)|, 0, 0
  {
    WithoutHas(seen, done, x);
    if x in done {
      VisitDone(config, path, seen, done, x);
    } else if x !in seen {
      UnvisitedShrinks(config, path, x);
      assert Fresh(path + [x], seen);
      ParentsPast(config, path + [x], seen, other + [x], done, config[x], 0);
      var all := VisitParents(config, path + [x], seen, config[x], 0).value;
      WithoutAppends(all, [x], done);
      assert Without([x], done) == [x] by { assert [x][..0] == []; }
      assert done + (Without(all, done) + [x]) == (done + Without(all, done)) + [x];
    }
  }

  lemma {:induction false} ParentsPast(config: Config, path: seq<string>, seen: seq<string>, other: seq<string>,
                                       done: seq<string>, parents: seq<string>, next: nat)
    requires MergeOrder(config, done) && MergeOrder(config, seen) && Fresh(path, seen) && next <= |parents|
    requires VisitParents(config, path, seen, parents, next).Some?
    requires VisitParents(config, other, done + Without(seen, done), parents, next).Some?
    ensures VisitParents(config, other, done + Without(seen, done), parents, next).value
         == done + Without(VisitParents(config, path, seen, parents, next).value, done)
    decreases |Unvisited(config, path)|, 1, |parents| - next
  {
    if next < |parents| {
      VisitPast(config, path, seen, other, done, parents[next]);
      VisitExtends(config, path, seen, parents[next]);
      ParentsPast(config, path, Visit(config, path, seen, parents[next]).value, other, done, parents, next + 1);
    }
  }

  // ----- the order of a profile from those it inherits -----

  lemma ParentHasOrder(config: Config, name: string, parent: string)
    requires PostOrder(config, name).Some? && Edge(config, name, parent)
    ensures PostOrder(config, parent).Some?
  {
    hide PostOrder;
    PostOrderSucceedsIff(config, name);
    PostOrderSucceedsIff(config, parent);
    forall x | Reaches(config, parent, x) ensures Reaches(config, name, x) {
      var walk :| WalkBetween(config, walk, parent, x);
      var longer := [name] + walk;
      assert forall i :: 0 <= i < |longer| - 1 ==> Edge(config, longer[i], longer[i + 1]);
      assert WalkBetween(config, longer, name, x);
    }
  }

  ghost predicate OrdersOf(config: Config, parents: seq<string>, orders: seq<seq<string>>) {
    |orders| == |parents| && forall k :: 0 <= k < |parents| ==> PostOrder(config, parents[k]) == Some(orders[k])
  }

  lemma {:induction false} ParentsGather(config: Config, path: seq<string>, parents: seq<string>,
                                         orders: seq<seq<string>>, next: nat)
    requires OrdersOf(config, parents, orders) && next <= |parents|
    requires MergeOrder(config, Gather(orders[..next])) && Fresh(path, Gather(orders[..next]))
    requires VisitParents(config, path, Gather(orders[..next]), parents, next).Some?
    ensures VisitParents(config, path, Gather(orders[..next]), parents, next).value == Gather(orders)
    decreases |parents| - next
  {
    if next == |parents| {
      assert orders[..next] == orders;
    } else {
      var done := Gather(orders[..next]);
      assert orders[..next + 1][..next] == orders[..next];
      assert done + Without([], done) == done;
      VisitPast(config, [], [], path, done, parents[next]);
      VisitExtends(config, path, done, parents[next]);
      ParentsGather(config, path, parents, orders, next + 1);
    }
  }

  /** The order of a profile is made of those of the profiles it inherits, as they are listed. */
  lemma OrderGathers(config: Config, name: string, orders: seq<seq<string>>)
    requires PostOrder(config, name).Some? && name in config && OrdersOf(config, config[name], orders)
    ensures PostOrder(config, name).value == Gather(orders) + [name]
  {
    assert orders[..0] == [] && [] + [name] == [name];
    ParentsGather(config, [name], config[name], orders, 0);
  }

  // ----- counting names -----

  lemma DistinctFits(xs: seq<string>, ys: seq<string>)
    requires forall i, j :: 0 <= i < j < |xs| ==> xs[i] != xs[j]
    requires forall x :: x in xs ==> x in ys
    ensures |xs| <= |ys|
  {
    var s, t := set x | x in xs, set y | y in ys;
    DistinctCount(xs);
    AtMost(ys);
    assert s <= t;
    SubsetCount(s, t);
  }

  lemma {:induction false} DistinctCount(xs: seq<string>)
    requires forall i, j :: 0 <= i < j < |xs| ==> xs[i] != xs[j]
    ensures |set x | x in xs| == |xs|
  {
    if xs != [] {
      var front, last := xs[..|xs| - 1], xs[|xs| - 1];
      DistinctCount(front);
      assert (set x | x in xs) == (set x | x in front) + {last};
    }
  }

  lemma {:induction false} AtMost(ys: seq<string>)
    ensures |set y | y in ys| <= |ys|
  {
    if ys != [] {
      var front, last := ys[..|ys| - 1], ys[|ys| - 1];
      AtMost(front);
      assert (set y | y in ys) == (set y | y in front) + {last};
    }
  }

  lemma SubsetCount(s: set<string>, t: set<string>)
    requires s <= t
    ensures |s| <= |t|
  {
    assert t == s + (t - s);
  }
}
