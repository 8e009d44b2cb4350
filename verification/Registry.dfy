/** `FileWatch::reconcile`: directory registrations follow the declared files. */
module Registry {
  import opened Basics
  import opened WatchEvents
  import opened Routing

  type Parent = Path -> Option<Path>

  /** The parent directories of the declared files. */
  ghost function Directories(targets: WatchTargets, parent: Parent): set<Path> {
    set i | 0 <= i < |targets.entries| && parent(targets.entries[i].path).Some? :: parent(targets.entries[i].path).value
  }

  /** A directory is wanted exactly when some declared file has it for its parent. */
  lemma DirectoriesAreParents(targets: WatchTargets, parent: Parent, dir: Path)
    ensures dir in Directories(targets, parent) <==>
            exists i :: 0 <= i < |targets.entries| && parent(targets.entries[i].path) == Some(dir)
  {
  }

  /** A call the reconciler made to the platform watcher. */
  datatype Call = Watch(dir: Path) | Unwatch(dir: Path)

  /** The platform watcher: its live registrations and the calls it has received. */
  class PlatformWatcher {
    var registered: set<Path>
    var calls: seq<Call>

    constructor ()
      ensures registered == {} && calls == []
    {
      registered, calls := {}, [];
    }

    /** Fails for a directory in `refused`. */
    method WatchDirectory(dir: Path, refused: set<Path>)
      modifies this
      ensures calls == old(calls) + [Watch(dir)]
      ensures registered == if dir in refused then old(registered) else old(registered) + {dir}
    {
      calls := calls + [Watch(dir)];
      if dir !in refused {
        registered := registered + {dir};
      }
    }

    /** Fails for a directory in `stuck`, which stays registered; a vanished directory is not registered any more. */
    method UnwatchDirectory(dir: Path, stuck: set<Path>)
      modifies this
      ensures calls == old(calls) + [Unwatch(dir)]
      ensures registered == if dir in stuck then old(registered) else old(registered) - {dir}
    {
      calls := calls + [Unwatch(dir)];
      if dir !in stuck {
        registered := registered - {dir};
      }
    }
  }

  /** What the watch has declared, registered and asked for so far. */
  datatype State = State(targets: WatchTargets, directories: set<Path>, registered: set<Path>, calls: seq<Call>)

  const EMPTY: State := State(WatchTargets([]), {}, {}, [])

  /** The calls mention each directory of `dirs` exactly once, all of them as `Watch` or all as `Unwatch`. */
  ghost predicate CallsOnceEach(calls: seq<Call>, dirs: set<Path>, watch: bool) {
    && (forall i :: 0 <= i < |calls| ==> calls[i].dir in dirs && calls[i].Watch? == watch)
    && (forall i, j :: 0 <= i < j < |calls| ==> calls[i].dir != calls[j].dir)
    && (forall dir :: dir in dirs ==> exists i :: 0 <= i < |calls| && calls[i].dir == dir)
  }

  /** `reconcile` touches only directories that enter or leave the set, each once, unwatching first. */
  ghost predicate Reconciled(before: State, targets: WatchTargets, refused: set<Path>, stuck: set<Path>, parent: Parent,
                             gone: seq<Call>, come: seq<Call>, after: State)
  {
    var next := Directories(targets, parent);
    && after.targets == targets && after.directories == next
    && CallsOnceEach(gone, before.directories - next, false)
    && CallsOnceEach(come, next - before.directories, true)
    && after.calls == before.calls + gone + come
    && after.registered ==
       before.registered - (before.directories - next - stuck) + (next - before.directories - refused)
  }

  class FileWatch {
    const parent: Parent
    const watcher: PlatformWatcher
    var targets: WatchTargets
    var directories: set<Path>

    ghost function Now(): State
      reads this, watcher
    {
      State(targets, directories, watcher.registered, watcher.calls)
    }

    constructor (parent: Parent)
      ensures fresh(watcher) && this.parent == parent && Now() == EMPTY
    {
      this.parent := parent;
      watcher := new PlatformWatcher();
      targets := WatchTargets([]);
      directories := {};
    }

    method DirectoriesOf(next: WatchTargets) returns (dirs: set<Path>)
      ensures dirs == Directories(next, parent)
    {
      dirs := {};
      for i := 0 to |next.entries|
        invariant dirs == set k | 0 <= k < i && parent(next.entries[k].path).Some? :: parent(next.entries[k].path).value
      {
        var directory := parent(next.entries[i].path);
        if directory.Some? {
          dirs := dirs + {directory.value};
        }
      }
    }

    /** The first loop: unwatch what is no longer declared. */
    method Release(leaving: set<Path>, stuck: set<Path>) returns (ghost gone: seq<Call>)
      modifies watcher
      ensures CallsOnceEach(gone, leaving, false)
      ensures watcher.calls == old(watcher.calls) + gone
      ensures watcher.registered == old(watcher.registered) - (leaving - stuck)
    {
      gone := [];
      var rest := leaving;
      while rest != {}
        invariant rest <= leaving
        invariant CallsOnceEach(gone, leaving - rest, false)
        invariant watcher.calls == old(watcher.calls) + gone
        invariant watcher.registered == old(watcher.registered) - (leaving - rest - stuck)
        decreases rest
      {
        var dir :| dir in rest;
        watcher.UnwatchDirectory(dir, stuck);
        OneMoreCall(gone, leaving - rest, Unwatch(dir));
        assert leaving - (rest - {dir}) == leaving - rest + {dir};
        gone := gone + [Unwatch(dir)];
        rest := rest - {dir};
      }
      assert leaving - rest == leaving;
    }

    /** The second loop: watch what is newly declared; a refusal only costs that directory. */
    method Register(joining: set<Path>, refused: set<Path>) returns (ghost come: seq<Call>)
      modifies watcher
      ensures CallsOnceEach(come, joining, true)
      ensures watcher.calls == old(watcher.calls) + come
      ensures watcher.registered == old(watcher.registered) + (joining - refused)
    {
      come := [];
      var rest := joining;
      while rest != {}
        invariant rest <= joining
        invariant CallsOnceEach(come, joining - rest, true)
        invariant watcher.calls == old(watcher.calls) + come
        invariant watcher.registered == old(watcher.registered) + (joining - rest - refused)
        decreases rest
      {
        var dir :| dir in rest;
        watcher.WatchDirectory(dir, refused);
        OneMoreCall(come, joining - rest, Watch(dir));
        assert joining - (rest - {dir}) == joining - rest + {dir};
        come := come + [Watch(dir)];
        rest := rest - {dir};
      }
      assert joining - rest == joining;
    }

    method Reconcile(next: WatchTargets, refused: set<Path>, stuck: set<Path>)
      returns (ghost gone: seq<Call>, ghost come: seq<Call>)
      modifies this, watcher
      ensures if old(targets) == next then Now() == old(Now())
              else Reconciled(old(Now()), next, refused, stuck, parent, gone, come, Now())
    {
      gone, come := [], [];
      if targets == next {
        return;
      }
      var dirs := DirectoriesOf(next);
      gone := Release(directories - dirs, stuck);
      come := Register(dirs - directories, refused);
      directories := dirs;
      targets := next;
    }
  }

  lemma OneMoreCall(calls: seq<Call>, dirs: set<Path>, call: Call)
    requires CallsOnceEach(calls, dirs, call.Watch?) && call.dir !in dirs
    ensures CallsOnceEach(calls + [call], dirs + {call.dir}, call.Watch?)
  {
    var all := calls + [call];
    assert all[|calls|] == call;
    forall dir | dir in dirs + {call.dir}
      ensures exists i :: 0 <= i < |all| && all[i].dir == dir
    {
      if dir in dirs {
        var i :| 0 <= i < |calls| && calls[i].dir == dir;
        assert all[i].dir == dir;
      }
    }
  }

  // ----- every run -----

  datatype Action = Reconcile(targets: WatchTargets, refused: set<Path>, stuck: set<Path>) | Vanish(dir: Path)

  /** One step of a run: a reconcile, or a directory disappearing from the file system. */
  ghost predicate Next(before: State, action: Action, parent: Parent, after: State) {
    match action
    case Reconcile(targets, refused, stuck) =>
      if before.targets == targets then after == before
      else exists gone, come :: Reconciled(before, targets, refused, stuck, parent, gone, come, after)
    case Vanish(dir) => after == before.(registered := before.registered - {dir})
  }

  /** The calls about `dir` alternate, starting with a `Watch`, and the last one leaves it watched as `on` says. */
  ghost predicate Alternating(calls: seq<Call>, dir: Path, on: bool) {
    if calls == [] then !on
    else
      var init, last := calls[..|calls| - 1], calls[|calls| - 1];
      if last.dir != dir then Alternating(init, dir, on)
      else on == last.Watch? && Alternating(init, dir, !on)
  }

  /** The directories an unwatch failed on while they stayed registered. */
  function Stuck(actions: seq<Action>): set<Path> {
    if actions == [] then {}
    else (if actions[0].Reconcile? then actions[0].stuck else {}) + Stuck(actions[1..])
  }

  ghost predicate Run(states: seq<State>, actions: seq<Action>, parent: Parent) {
    && |states| == |actions| + 1 && states[0] == EMPTY
    && forall i :: 0 <= i < |actions| ==> Next(states[i], actions[i], parent, states[i + 1])
  }

  /** What holds in every state: the directories are the parents of the declared files, every live registration is
      one of them or an unwatch failed on it, and no directory is watched twice without being unwatched between. */
  ghost predicate Consistent(s: State, parent: Parent, stuck: set<Path>) {
    && s.directories == Directories(s.targets, parent)
    && s.registered <= s.directories + stuck
    && forall dir :: Alternating(s.calls, dir, dir in s.directories)
  }

  lemma {:induction false} OtherCalls(calls: seq<Call>, more: seq<Call>, dir: Path, on: bool)
    requires forall i :: 0 <= i < |more| ==> more[i].dir != dir
    ensures Alternating(calls + more, dir, on) == Alternating(calls, dir, on)
  {
    if more == [] {
      assert calls + more == calls;
    } else {
      var n := |more| - 1;
      assert (calls + more)[..|calls| + n] == calls + more[..n];
      OtherCalls(calls, more[..n], dir, on);
    }
  }

  lemma OneCallFlips(calls: seq<Call>, call: Call, on: bool)
    requires Alternating(calls, call.dir, !on) && on == call.Watch?
    ensures Alternating(calls + [call], call.dir, on)
  {
    assert (calls + [call])[..|calls|] == calls;
  }

  lemma OnlyMention(calls: seq<Call>, dirs: set<Path>, watch: bool, dir: Path) returns (i: nat)
    requires CallsOnceEach(calls, dirs, watch) && dir in dirs
    ensures i < |calls| && calls[i].dir == dir && calls[i].Watch? == watch
    ensures forall j :: 0 <= j < |calls| && j != i ==> calls[j].dir != dir
  {
    i :| 0 <= i < |calls| && calls[i].dir == dir;
  }

  /** A batch of calls of one kind flips exactly the directories it mentions. */
  lemma CallsFlip(calls: seq<Call>, more: seq<Call>, dirs: set<Path>, watch: bool, dir: Path)
    requires CallsOnceEach(more, dirs, watch)
    requires Alternating(calls, dir, if dir in dirs then !watch else watch)
    ensures Alternating(calls + more, dir, watch)
  {
    hide Alternating;
    if dir in dirs {
      var i := OnlyMention(more, dirs, watch, dir);
      OtherCalls(calls, more[..i], dir, !watch);
      OneCallFlips(calls + more[..i], more[i], watch);
      OtherCalls(calls + more[..i] + [more[i]], more[i + 1..], dir, watch);
      assert calls + more[..i] + [more[i]] + more[i + 1..] == calls + more;
    } else {
      OtherCalls(calls, more, dir, watch);
    }
  }

  lemma ReconcileAlternates(before: State, targets: WatchTargets, refused: set<Path>, stuck: set<Path>, parent: Parent,
                            gone: seq<Call>, come: seq<Call>, after: State, dir: Path)
    requires Reconciled(before, targets, refused, stuck, parent, gone, come, after)
    requires Alternating(before.calls, dir, dir in before.directories)
    ensures Alternating(after.calls, dir, dir in after.directories)
  {
    var next := Directories(targets, parent);
    if dir in before.directories {
      if dir in next {
        OtherCalls(before.calls, gone, dir, true);
        OtherCalls(before.calls + gone, come, dir, true);
      } else {
        CallsFlip(before.calls, gone, before.directories - next, false, dir);
        OtherCalls(before.calls + gone, come, dir, false);
      }
    } else {
      OtherCalls(before.calls, gone, dir, false);
      if dir in next {
        CallsFlip(before.calls + gone, come, next - before.directories, true, dir);
      } else {
        OtherCalls(before.calls + gone, come, dir, false);
      }
    }
  }

  lemma StepConsistent(before: State, action: Action, parent: Parent, after: State, stuck: set<Path>)
    requires Consistent(before, parent, stuck) && Next(before, action, parent, after)
    ensures Consistent(after, parent, stuck + if action.Reconcile? then action.stuck else {})
  {
    match action
    case Vanish(_) =>
    case Reconcile(targets, refused, stuck') =>
      if before.targets != targets {
        var gone, come :| Reconciled(before, targets, refused, stuck', parent, gone, come, after);
        forall dir
          ensures Alternating(after.calls, dir, dir in after.directories)
        {
          ReconcileAlternates(before, targets, refused, stuck', parent, gone, come, after, dir);
        }
      }
  }

  lemma {:induction false} StuckAppend(actions: seq<Action>, last: Action)
    ensures Stuck(actions + [last]) == Stuck(actions) + if last.Reconcile? then last.stuck else {}
  {
    if actions == [] {
    } else {
      assert (actions + [last])[1..] == actions[1..] + [last];
      StuckAppend(actions[1..], last);
    }
  }

  /** Every state of every run from the empty watch is consistent, whatever registrations fail or vanish. */
  lemma {:induction false} RunConsistent(states: seq<State>, actions: seq<Action>, parent: Parent)
    requires Run(states, actions, parent)
    ensures Consistent(states[|actions|], parent, Stuck(actions))
    decreases |actions|
  {
    if actions == [] {
      assert EMPTY.directories == Directories(EMPTY.targets, parent);
    } else {
      var n := |actions| - 1;
      assert Run(states[..n + 1], actions[..n], parent) by {
        forall i | 0 <= i < n
          ensures Next(states[..n + 1][i], actions[..n][i], parent, states[..n + 1][i + 1])
        {
          assert Next(states[i], actions[i], parent, states[i + 1]);
        }
      }
      RunConsistent(states[..n + 1], actions[..n], parent);
      StepConsistent(states[n], actions[n], parent, states[n + 1], Stuck(actions[..n]));
      StuckAppend(actions[..n], actions[n]);
      assert actions == actions[..n] + [actions[n]];
    }
  }

  /** When every unwatch either works or finds the directory gone, no registration outlives the last declared file
      of its directory. */
  lemma NothingOutlives(states: seq<State>, actions: seq<Action>, parent: Parent)
    requires Run(states, actions, parent) && Stuck(actions) == {}
    ensures states[|actions|].registered <= Directories(states[|actions|].targets, parent)
  {
    RunConsistent(states, actions, parent);
  }

  /** When moreover nothing is refused and nothing vanishes, the registrations are exactly the parents. */
  lemma {:induction false} RegistrationsExact(states: seq<State>, actions: seq<Action>, parent: Parent)
    requires Run(states, actions, parent)
    requires forall i :: 0 <= i < |actions| ==>
               actions[i].Reconcile? && actions[i].refused == {} && actions[i].stuck == {}
    ensures var last := states[|actions|];
            last.registered == last.directories == Directories(last.targets, parent)
    decreases |actions|
  {
    RunConsistent(states, actions, parent);
    if actions == [] {
    } else {
      var n := |actions| - 1;
      assert Run(states[..n + 1], actions[..n], parent) by {
        forall i | 0 <= i < n
          ensures Next(states[..n + 1][i], actions[..n][i], parent, states[..n + 1][i + 1])
        {
          assert Next(states[i], actions[i], parent, states[i + 1]);
        }
      }
      RegistrationsExact(states[..n + 1], actions[..n], parent);
      assert Next(states[n], actions[n], parent, states[n + 1]);
    }
  }

  /** In such a run the parent of every declared file is registered. */
  lemma DeclaredFilesWatched(states: seq<State>, actions: seq<Action>, parent: Parent, i: nat)
    requires Run(states, actions, parent)
    requires forall k :: 0 <= k < |actions| ==>
               actions[k].Reconcile? && actions[k].refused == {} && actions[k].stuck == {}
    requires i < |states[|actions|].targets.entries|
    ensures var up := parent(states[|actions|].targets.entries[i].path);
            up.Some? ==> up.value in states[|actions|].registered
  {
    RegistrationsExact(states, actions, parent);
    var targets := states[|actions|].targets;
    if parent(targets.entries[i].path).Some? {
      DirectoriesAreParents(targets, parent, parent(targets.entries[i].path).value);
    }
  }

  /** After a reconcile the watch declares what it was told. */
  lemma ReconcileDeclares(before: State, targets: WatchTargets, refused: set<Path>, stuck: set<Path>, parent: Parent,
                          after: State)
    requires Next(before, Action.Reconcile(targets, refused, stuck), parent, after)
    ensures after.targets == targets
  {
  }
}
