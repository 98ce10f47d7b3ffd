/**
 Profile resolution as the configuration runs it: an explicit stack of frames,
 an index of the names on the stack, and the completed names in merge order.
 */
module ProfileResolver {
  import opened Wrappers
  import opened ProfileGraph

  datatype Frame = Frame(name: string, nextParent: nat)

  datatype ResolveError =
    | UnknownProfile(name: string)
    | ProfileCycle(chain: seq<string>)
    | ResolutionInvariant

  function Names(frames: seq<Frame>): (r: seq<string>)
    ensures |r| == |frames|
    ensures forall i :: 0 <= i < |r| ==> r[i] == frames[i].name
  {
    if frames == [] then [] else Names(frames[..|frames| - 1]) + [frames[|frames| - 1].name]
  }

  predicate InBounds(config: Config, frames: seq<Frame>) {
    forall i :: 0 <= i < |frames| ==> frames[i].name in config && frames[i].nextParent <= |config[frames[i].name]|
  }

  // ----- the stack as the rest of a recursion -----

  /** What the recursive post-order still has to do below these frames. */
  function Resume(config: Config, frames: seq<Frame>, done: seq<string>): (r: Option<seq<string>>)
    requires InBounds(config, frames)
    decreases |frames|
  {
    if frames == [] then Some(done)
    else
      var top := frames[|frames| - 1];
      var all :- VisitParents(config, Names(frames), done, config[top.name], top.nextParent);
      Resume(config, frames[..|frames| - 1], all + [top.name])
  }

  function Advance(frames: seq<Frame>): (r: seq<Frame>)
    requires frames != []
    ensures |r| == |frames| && Names(r) == Names(frames)
  {
    var last := |frames| - 1;
    var r := frames[..last] + [Frame(frames[last].name, frames[last].nextParent + 1)];
    assert r[..last] == frames[..last];
    r
  }

  lemma VisitParentsSteps(config: Config, path: seq<string>, done: seq<string>, parents: seq<string>, next: nat)
    requires next < |parents|
    ensures var visited := Visit(config, path, done, parents[next]);
      VisitParents(config, path, done, parents, next) ==
        if visited.None? then None else VisitParents(config, path, visited.value, parents, next + 1)
  {
  }

  lemma VisitNew(config: Config, path: seq<string>, done: seq<string>, x: string)
    requires x !in done && x !in path && x in config
    ensures var inner := VisitParents(config, path + [x], done, config[x], 0);
      Visit(config, path, done, x) == if inner.None? then None else Some(inner.value + [x])
  {
  }

  lemma ResumeTop(config: Config, frames: seq<Frame>, done: seq<string>)
    requires frames != [] && InBounds(config, frames)
    ensures var top := frames[|frames| - 1];
      var inner := VisitParents(config, Names(frames), done, config[top.name], top.nextParent);
      Resume(config, frames, done) ==
        if inner.None? then None else Resume(config, frames[..|frames| - 1], inner.value + [top.name])
  {
  }

  /** Taking one parent of the top frame keeps what remains to be done. */
  lemma ResumeSteps(config: Config, frames: seq<Frame>, done: seq<string>)
    requires frames != [] && InBounds(config, frames)
    requires var top := frames[|frames| - 1]; top.nextParent < |config[top.name]|
    ensures InBounds(config, Advance(frames))
    ensures var top := frames[|frames| - 1];
      var parent := config[top.name][top.nextParent];
      Resume(config, frames, done) ==
        if parent in done then Resume(config, Advance(frames), done)
        else if parent in Names(frames) || parent !in config then None
        else Resume(config, Advance(frames) + [Frame(parent, 0)], done)
  {
    hide Resume, VisitParents, Names;
    var last := |frames| - 1;
    var top, advanced, path := frames[last], Advance(frames), Names(frames);
    var parent := config[top.name][top.nextParent];
    assert advanced[..last] == frames[..last];
    VisitParentsSteps(config, path, done, config[top.name], top.nextParent);
    ResumeTop(config, frames, done);
    var visited := Visit(config, path, done, parent);
    if visited.Some? {
      ResumeTop(config, advanced, visited.value);
    }
    if parent !in done && parent !in path && parent in config {
      var pushed := advanced + [Frame(parent, 0)];
      assert pushed[..last + 1] == advanced;
      assert Names(pushed) == path + [parent];
      VisitNew(config, path, done, parent);
      ResumeTop(config, pushed, done);
    }
  }

  lemma ResumeStarts(config: Config, name: string)
    requires name in config
    ensures PostOrder(config, name) == Resume(config, [Frame(name, 0)], [])
  {
    var frames := [Frame(name, 0)];
    assert frames[..0] == [] && Names(frames) == [] + [name];
  }

  lemma ResumeEnds(config: Config, done: seq<string>)
    ensures Resume(config, [], done) == Some(done)
  {
  }

  /** Completing the top frame keeps what remains to be done. */
  lemma ResumePops(config: Config, frames: seq<Frame>, done: seq<string>)
    requires frames != [] && InBounds(config, frames)
    requires var top := frames[|frames| - 1]; top.nextParent == |config[top.name]|
    ensures Resume(config, frames, done)
         == Resume(config, frames[..|frames| - 1], done + [frames[|frames| - 1].name])
  {
  }

  // ----- the measure of the loop -----

  function Unread(config: Config, frames: seq<Frame>): (r: nat)
    requires InBounds(config, frames)
  {
    if frames == [] then 0
    else
      var top := frames[|frames| - 1];
      Unread(config, frames[..|frames| - 1]) + (|config[top.name]| - top.nextParent)
  }

  lemma AdvanceReads(config: Config, frames: seq<Frame>)
    requires frames != [] && InBounds(config, frames) && InBounds(config, Advance(frames))
    ensures Unread(config, Advance(frames)) < Unread(config, frames)
  {
    assert Advance(frames)[..|frames| - 1] == frames[..|frames| - 1];
  }

  lemma PopReadsNothing(config: Config, frames: seq<Frame>)
    requires frames != [] && InBounds(config, frames)
    requires var top := frames[|frames| - 1]; top.nextParent == |config[top.name]|
    ensures Unread(config, frames[..|frames| - 1]) == Unread(config, frames)
  {
  }

  // ----- the bookkeeping -----

  /** Frames, the index and the active names describe the same stack. */
  ghost predicate Lockstep(frames: seq<Frame>, active: map<string, nat>, activeNames: seq<string>) {
    && activeNames == Names(frames)
    && (forall i :: 0 <= i < |activeNames| ==> activeNames[i] in active && active[activeNames[i]] == i)
    && (forall x :: x in active ==> active[x] < |activeNames| && activeNames[active[x]] == x)
  }

  lemma LockstepStarts(name: string)
    ensures Lockstep([Frame(name, 0)], map[name := 0], [name])
  {
    assert [Frame(name, 0)][..0] == [];
  }

  lemma LockstepMeans(frames: seq<Frame>, active: map<string, nat>, activeNames: seq<string>, x: string)
    requires Lockstep(frames, active, activeNames)
    ensures activeNames == Names(frames)
    ensures x in active <==> x in activeNames
    ensures x in active ==> active[x] < |activeNames| && activeNames[active[x]] == x
  {
  }

  lemma LockstepAdvances(frames: seq<Frame>, active: map<string, nat>, activeNames: seq<string>)
    requires frames != [] && Lockstep(frames, active, activeNames)
    ensures Lockstep(Advance(frames), active, activeNames)
  {
  }

  lemma LockstepPushes(frames: seq<Frame>, active: map<string, nat>, activeNames: seq<string>, x: string)
    requires Lockstep(frames, active, activeNames) && x !in active
    ensures Lockstep(frames + [Frame(x, 0)], active[x := |activeNames|], activeNames + [x])
  {
    assert (frames + [Frame(x, 0)])[..|frames|] == frames;
  }

  lemma LockstepPops(frames: seq<Frame>, active: map<string, nat>, activeNames: seq<string>)
    requires frames != [] && Lockstep(frames, active, activeNames)
    ensures Lockstep(frames[..|frames| - 1], active - {frames[|frames| - 1].name}, activeNames[..|activeNames| - 1])
  {
  }

  ghost predicate Seen(frames: seq<Frame>, order: seq<string>, x: string) {
    x in Names(frames) || x in order
  }

  ghost function Fresh(config: Config, frames: seq<Frame>, order: seq<string>): (r: set<string>) {
    set x | x in config && !Seen(frames, order, x)
  }

  lemma FreshShrinks(config: Config, frames: seq<Frame>, order: seq<string>, x: string)
    requires frames != [] && x in config && !Seen(frames, order, x)
    ensures |Fresh(config, Advance(frames) + [Frame(x, 0)], order)| < |Fresh(config, frames, order)|
  {
    var pushed := Advance(frames) + [Frame(x, 0)];
    assert pushed[..|frames|] == Advance(frames) && Names(pushed) == Names(frames) + [x];
    assert Fresh(config, pushed, order) == Fresh(config, frames, order) - {x};
    assert x in Fresh(config, frames, order);
  }

  lemma FreshUnchanged(config: Config, frames: seq<Frame>, order: seq<string>)
    requires frames != []
    ensures Fresh(config, Advance(frames), order) == Fresh(config, frames, order)
    ensures Fresh(config, frames[..|frames| - 1], order + [frames[|frames| - 1].name]) == Fresh(config, frames, order)
  {
    var front, name := frames[..|frames| - 1], frames[|frames| - 1].name;
    assert Names(frames) == Names(front) + [name];
    forall x ensures Seen(front, order + [name], x) <==> Seen(frames, order, x) {
    }
  }

  lemma UndeclaredHasNoOrder(config: Config, name: string)
    requires name !in config
    ensures PostOrder(config, name).None?
    ensures Reaches(config, name, name)
  {
    assert WalkBetween(config, [name], name, name);
  }

  /** The state of the search between two turns of its loop. */
  datatype Search = Search(
    frames: seq<Frame>,
    active: map<string, nat>,
    activeNames: seq<string>,
    completed: set<string>,
    order: seq<string>)

  ghost predicate Sound(config: Config, name: string, s: Search) {
    && InBounds(config, s.frames)
    && Lockstep(s.frames, s.active, s.activeNames)
    && (forall x :: x in s.completed <==> x in s.order)
    && PostOrder(config, name) == Resume(config, s.frames, s.order)
    && (s.frames != [] ==> IsWalk(config, s.activeNames) && s.activeNames[0] == name)
  }

  lemma SoundStart(config: Config, name: string)
    requires name in config
    ensures Sound(config, name, Search([Frame(name, 0)], map[name := 0], [name], {}, []))
  {
    hide Resume, PostOrder, Lockstep;
    ResumeStarts(config, name);
    LockstepStarts(name);
  }

  function Parent(config: Config, s: Search): (p: string)
    requires s.frames != [] && InBounds(config, s.frames)
    requires var top := s.frames[|s.frames| - 1]; top.nextParent < |config[top.name]|
  {
    var top := s.frames[|s.frames| - 1];
    config[top.name][top.nextParent]
  }

  ghost predicate HasParent(config: Config, s: Search) {
    && s.frames != [] && InBounds(config, s.frames)
    && var top := s.frames[|s.frames| - 1]; top.nextParent < |config[top.name]|
  }

  /** A parent already merged is skipped. */
  lemma SkipParent(config: Config, name: string, s: Search)
    requires Sound(config, name, s) && HasParent(config, s) && Parent(config, s) in s.completed
    ensures var t := s.(frames := Advance(s.frames));
      && Sound(config, name, t)
      && Fresh(config, t.frames, t.order) == Fresh(config, s.frames, s.order)
      && Unread(config, t.frames) < Unread(config, s.frames)
  {
    hide Resume, PostOrder, Lockstep, Unread, Fresh, IsWalk;
    ResumeSteps(config, s.frames, s.order);
    LockstepAdvances(s.frames, s.active, s.activeNames);
    AdvanceReads(config, s.frames);
    FreshUnchanged(config, s.frames, s.order);
  }

  lemma TopEdge(config: Config, name: string, s: Search)
    requires Sound(config, name, s) && HasParent(config, s)
    ensures IsWalk(config, s.activeNames + [Parent(config, s)])
    ensures s.activeNames == Names(s.frames)
  {
    hide Resume, PostOrder;
    LockstepMeans(s.frames, s.active, s.activeNames, name);
    assert Edge(config, s.activeNames[|s.activeNames| - 1], Parent(config, s));
    WalkExtends(config, s.activeNames, Parent(config, s));
  }

  lemma ParentIsReached(config: Config, name: string, s: Search)
    requires Sound(config, name, s) && HasParent(config, s)
    ensures Reaches(config, name, Parent(config, s))
  {
    hide Resume, PostOrder, Lockstep, IsWalk;
    TopEdge(config, name, s);
    assert WalkBetween(config, s.activeNames + [Parent(config, s)], name, Parent(config, s));
  }

  lemma ParentOnStack(config: Config, name: string, s: Search)
    requires Sound(config, name, s) && HasParent(config, s)
    requires Parent(config, s) !in s.completed && Parent(config, s) in s.active
    ensures PostOrder(config, name).None?
    ensures s.active[Parent(config, s)] < |s.activeNames| && s.activeNames[s.active[Parent(config, s)]] == Parent(config, s)
  {
    hide Resume, PostOrder, Lockstep, IsWalk;
    TopEdge(config, name, s);
    LockstepMeans(s.frames, s.active, s.activeNames, Parent(config, s));
    ResumeSteps(config, s.frames, s.order);
  }

  /** A parent on the stack closes a real, reachable cycle. */
  lemma CyclicParent(config: Config, name: string, s: Search)
    requires Sound(config, name, s) && HasParent(config, s)
    requires Parent(config, s) !in s.completed && Parent(config, s) in s.active
    ensures PostOrder(config, name).None?
    ensures var parent := Parent(config, s);
      && s.active[parent] < |s.activeNames|
      && IsCycle(config, s.activeNames[s.active[parent]..] + [parent])
      && Reaches(config, name, parent)
      && s.activeNames[s.active[parent]] == parent
  {
    hide Resume, PostOrder, Lockstep, IsWalk, Reaches;
    var parent := Parent(config, s);
    TopEdge(config, name, s);
    ParentOnStack(config, name, s);
    ParentIsReached(config, name, s);
    hide Sound, HasParent, Parent;
    ReturningWalkIsCycle(config, s.activeNames, s.active[parent], parent);
  }

  lemma UndeclaredParent(config: Config, name: string, s: Search)
    requires Sound(config, name, s) && HasParent(config, s)
    requires Parent(config, s) !in s.completed && Parent(config, s) !in config
    ensures PostOrder(config, name).None? && Reaches(config, name, Parent(config, s))
  {
    hide Resume, PostOrder, Lockstep, IsWalk, Reaches;
    TopEdge(config, name, s);
    ResumeSteps(config, s.frames, s.order);
    ParentIsReached(config, name, s);
  }

  function Pushed(s: Search, parent: string): (t: Search)
    requires s.frames != []
  {
    Search(Advance(s.frames) + [Frame(parent, 0)], s.active[parent := |s.activeNames|], s.activeNames + [parent],
           s.completed, s.order)
  }

  /** A new declared parent is visited first. */
  lemma PushParent(config: Config, name: string, s: Search)
    requires Sound(config, name, s) && HasParent(config, s)
    requires var parent := Parent(config, s); parent !in s.completed && parent !in s.active && parent in config
    ensures var t := Pushed(s, Parent(config, s));
      && Sound(config, name, t)
      && |Fresh(config, t.frames, t.order)| < |Fresh(config, s.frames, s.order)|
  {
    hide Resume, PostOrder, Lockstep, Fresh, IsWalk, Names, Advance;
    var parent := Parent(config, s);
    TopEdge(config, name, s);
    LockstepMeans(s.frames, s.active, s.activeNames, parent);
    LockstepAdvances(s.frames, s.active, s.activeNames);
    LockstepPushes(Advance(s.frames), s.active, s.activeNames, parent);
    ResumeSteps(config, s.frames, s.order);
    FreshShrinks(config, s.frames, s.order, parent);
  }

  function Popped(s: Search): (t: Search)
    requires s.frames != [] && s.activeNames != []
  {
    var name := s.frames[|s.frames| - 1].name;
    Search(s.frames[..|s.frames| - 1], s.active - {name}, s.activeNames[..|s.activeNames| - 1],
           s.completed + {name}, s.order + [name])
  }

  lemma CompletedTracks(completed: set<string>, order: seq<string>, name: string)
    requires forall x :: x in completed <==> x in order
    ensures forall x :: x in completed + {name} <==> x in order + [name]
  {
  }

  /** A profile whose parents are all merged is merged next. */
  lemma CompleteTop(config: Config, name: string, s: Search)
    requires Sound(config, name, s) && s.frames != [] && !HasParent(config, s)
    ensures s.activeNames != []
    ensures var t := Popped(s);
      && Sound(config, name, t)
      && Fresh(config, t.frames, t.order) == Fresh(config, s.frames, s.order)
      && Unread(config, t.frames) == Unread(config, s.frames)
  {
    hide Resume, PostOrder, Lockstep, Fresh, Unread, IsWalk, Names;
    LockstepMeans(s.frames, s.active, s.activeNames, name);
    CompletedTracks(s.completed, s.order, s.frames[|s.frames| - 1].name);
    LockstepPops(s.frames, s.active, s.activeNames);
    ResumePops(config, s.frames, s.order);
    PopReadsNothing(config, s.frames);
    FreshUnchanged(config, s.frames, s.order);
    if |s.activeNames| > 1 {
      SuffixIsWalk(config, s.activeNames, |s.activeNames| - 2);
    }
  }

  /** Orders the profiles to merge, or explains why the profile has no order. */
  method ResolveOrder(config: Config, name: string) returns (r: Result<seq<string>, ResolveError>)
    ensures r.Success? <==> PostOrder(config, name).Some?
    ensures r.Success? ==> r.value == PostOrder(config, name).value
    ensures r.Failure? ==> !r.error.ResolutionInvariant?
    ensures r.Failure? && r.error.UnknownProfile? ==> r.error.name !in config && Reaches(config, name, r.error.name)
    ensures r.Failure? && r.error.ProfileCycle? ==>
      IsCycle(config, r.error.chain) && Reaches(config, name, r.error.chain[0])
  {
    hide Resume, PostOrder, Lockstep, Fresh, Unread, IsWalk, Advance;
    if name !in config {
      UndeclaredHasNoOrder(config, name);
      return Failure(UnknownProfile(name));
    }
    var frames := [Frame(name, 0)];
    var active: map<string, nat> := map[name := 0];
    var activeNames := [name];
    var completed: set<string> := {};
    var order: seq<string> := [];
    SoundStart(config, name);
    while true
      invariant frames != [] && Sound(config, name, Search(frames, active, activeNames, completed, order))
      decreases |Fresh(config, frames, order)|, Unread(config, frames), |frames|
    {
      ghost var s := Search(frames, active, activeNames, completed, order);
      var frameIndex := |frames| - 1;
      var frameName := frames[frameIndex].name;
      var inherits := config[frameName];
      if frames[frameIndex].nextParent < |inherits| {
        var parentName := inherits[frames[frameIndex].nextParent];
        frames := Advance(frames);
        if parentName in completed {
          SkipParent(config, name, s);
          continue;
        }
        if parentName in active {
          CyclicParent(config, name, s);
          var chain := activeNames[active[parentName]..] + [parentName];
          return Failure(ProfileCycle(chain));
        }
        if parentName !in config {
          UndeclaredParent(config, name, s);
          return Failure(UnknownProfile(parentName));
        }
        PushParent(config, name, s);
        active := active[parentName := |activeNames|];
        activeNames := activeNames + [parentName];
        frames := frames + [Frame(parentName, 0)];
        continue;
      }
      CompleteTop(config, name, s);
      frames := frames[..frameIndex];
      active := active - {frameName};
      activeNames := activeNames[..|activeNames| - 1];
      completed := completed + {frameName};
      order := order + [frameName];
      if frames == [] {
        ResumeEnds(config, order);
        return Success(order);
      }
    }
  }
}
