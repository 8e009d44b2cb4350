/** Raw file events and the settled batch a burst of them collapses into: `absorb` and `send_settled`. */
module WatchEvents {
  import opened Basics

  datatype EventKind = AccessOpen | AccessCloseRead | AccessOther | Create | Modify | Remove | Any | Other

  /** What the platform watcher delivers: an error, or a kind with the paths it concerns. */
  datatype RawEvent = Failed | Event(kind: EventKind, paths: seq<Path>)

  datatype Kind = Changed | Removed

  datatype WatchEvent = WatchEvent(path: Path, kind: Kind)

  /** What an event says about the content of its paths; opening and closing for reading says nothing. */
  function Effect(kind: EventKind): Option<Kind> {
    match kind
    case AccessOpen | AccessCloseRead => None
    case Remove => Some(Removed)
    case _ => Some(Changed)
  }

  /** The event reports `kind` for `path`; the empty path is never reported. */
  predicate Names(event: RawEvent, path: Path, kind: Kind) {
    event.Event? && Effect(event.kind) == Some(kind) && path in event.paths && path != ""
  }

  ghost predicate Mentions(burst: seq<RawEvent>, path: Path, kind: Kind) {
    exists event | event in burst :: Names(event, path, kind)
  }

  ghost function PathsOf(burst: seq<RawEvent>): set<Path> {
    set event, path | event in burst && event.Event? && path in event.paths :: path
  }

  /** The settled meaning of a burst: a path that some content event names is `Changed` if any of them says so,
      and `Removed` when all of them are removals. */
  ghost function Summary(burst: seq<RawEvent>): map<Path, Kind> {
    map path | path in PathsOf(burst) && (Mentions(burst, path, Changed) || Mentions(burst, path, Removed)) ::
      if Mentions(burst, path, Changed) then Changed else Removed
  }

  lemma SummaryAt(burst: seq<RawEvent>, path: Path)
    ensures path in Summary(burst) <==> Mentions(burst, path, Changed) || Mentions(burst, path, Removed)
    ensures path in Summary(burst) ==> (Summary(burst)[path] == Changed <==> Mentions(burst, path, Changed))
  {
  }

  /** What one event settles: reading says nothing, a removal removes, anything else changes every path it names. */
  lemma SummaryOfOne(kind: EventKind, paths: seq<Path>, path: Path)
    ensures var summary := Summary([Event(kind, paths)]);
            && (path in summary <==> path in paths && path != "" && kind != AccessOpen && kind != AccessCloseRead)
            && (path in summary ==> (summary[path] == Removed <==> kind == Remove))
    ensures Summary([Failed]) == map[]
  {
    var burst := [Event(kind, paths)];
    SummaryAt(burst, path);
    assert burst[0] in burst;
    MentionsOne(Event(kind, paths), path, Changed);
    MentionsOne(Event(kind, paths), path, Removed);
  }

  lemma MentionsOne(event: RawEvent, path: Path, kind: Kind)
    ensures Mentions([event], path, kind) <==> Names(event, path, kind)
  {
    assert event in [event];
  }

  lemma EmptySummary()
    ensures Summary([]) == map[]
  {
  }

  lemma MentionsNext(burst: seq<RawEvent>, event: RawEvent, path: Path, kind: Kind)
    ensures Mentions(burst + [event], path, kind) <==> Mentions(burst, path, kind) || Names(event, path, kind)
  {
    if Mentions(burst, path, kind) {
      var e :| e in burst && Names(e, path, kind);
      assert e in burst + [event];
    }
    if Names(event, path, kind) {
      assert event in burst + [event];
    }
  }

  lemma SilentEvent(burst: seq<RawEvent>, event: RawEvent)
    requires event.Failed? || Effect(event.kind).None?
    ensures Summary(burst + [event]) == Summary(burst)
  {
    forall path, kind {
      MentionsNext(burst, event, path, kind);
    }
    forall path | path in Summary(burst) || path in Summary(burst + [event])
      ensures path in Summary(burst) && path in Summary(burst + [event])
      ensures Summary(burst)[path] == Summary(burst + [event])[path]
    {
      SummaryAt(burst, path);
      SummaryAt(burst + [event], path);
    }
  }

  /** Merging one report into what a batch already says: a change is never weakened to a removal. */
  function Merged(batch: map<Path, Kind>, path: Path, kind: Kind): Kind {
    if path in batch && batch[path] == Changed then Changed else if kind == Changed then Changed
    else Removed
  }

  /** `merged` is `batch` with `kind` reported for every non-empty path seen. */
  ghost predicate Absorbed(merged: map<Path, Kind>, batch: map<Path, Kind>, seen: seq<Path>, kind: Kind) {
    && (forall path :: path in merged <==> path in batch || (path in seen && path != ""))
    && (forall path :: path in merged ==>
          merged[path] == if path in seen && path != "" then Merged(batch, path, kind) else batch[path])
  }

  lemma AbsorbedIsSummary(merged: map<Path, Kind>, burst: seq<RawEvent>, event: RawEvent, kind: Kind)
    requires event.Event? && Effect(event.kind) == Some(kind)
    requires Absorbed(merged, Summary(burst), event.paths, kind)
    ensures merged == Summary(burst + [event])
  {
    forall path | path in merged || path in Summary(burst + [event])
      ensures path in merged && path in Summary(burst + [event]) && merged[path] == Summary(burst + [event])[path]
    {
      MentionsNext(burst, event, path, Changed);
      MentionsNext(burst, event, path, Removed);
      SummaryAt(burst, path);
      SummaryAt(burst + [event], path);
    }
  }

  method Absorb(event: RawEvent, batch: map<Path, Kind>, ghost burst: seq<RawEvent>) returns (merged: map<Path, Kind>)
    requires batch == Summary(burst)
    ensures merged == Summary(burst + [event])
  {
    hide Summary;
    merged := batch;
    if event.Failed? || Effect(event.kind).None? {
      SilentEvent(burst, event);
      return;
    }
    var kind := Effect(event.kind).value;
    for i := 0 to |event.paths|
      invariant Absorbed(merged, batch, event.paths[..i], kind)
    {
      var path := event.paths[i];
      assert event.paths[..i + 1] == event.paths[..i] + [path];
      if path == "" {
        continue;
      }
      if path !in merged {
        merged := merged[path := kind];
      }
      if merged[path] == Removed && kind == Changed {
        merged := merged[path := Changed];
      }
    }
    assert event.paths[..|event.paths|] == event.paths;
    AbsorbedIsSummary(merged, burst, event, kind);
  }

  /** Order and repetition of the raw events do not matter. */
  lemma SummaryIgnoresOrder(a: seq<RawEvent>, b: seq<RawEvent>)
    requires forall event :: event in a <==> event in b
    ensures Summary(a) == Summary(b)
  {
    forall path, kind
      ensures Mentions(a, path, kind) <==> Mentions(b, path, kind)
    {
      if Mentions(a, path, kind) { var e :| e in a && Names(e, path, kind); assert e in b; }
      if Mentions(b, path, kind) { var e :| e in b && Names(e, path, kind); assert e in a; }
    }
    forall path | path in Summary(a) || path in Summary(b)
      ensures path in Summary(a) && path in Summary(b) && Summary(a)[path] == Summary(b)[path]
    {
      SummaryAt(a, path);
      SummaryAt(b, path);
    }
  }

  /** The events list the batch: each path once, with its kind. */
  ghost predicate Lists(events: seq<WatchEvent>, batch: map<Path, Kind>) {
    && (forall i, j :: 0 <= i < j < |events| ==> events[i].path != events[j].path)
    && (forall i :: 0 <= i < |events| ==> events[i].path in batch && batch[events[i].path] == events[i].kind)
    && (forall path :: path in batch ==> WatchEvent(path, batch[path]) in events)
  }

  /** A strict order of paths: the order in which the batch's map yields its keys. */
  type PathOrder = (Path, Path) -> bool

  ghost predicate TotalOrder(before: PathOrder) {
    && (forall p :: !before(p, p))
    && (forall p, q, r :: before(p, q) && before(q, r) ==> before(p, r))
    && (forall p, q :: p != q ==> before(p, q) || before(q, p))
  }

  ghost predicate Ascending(events: seq<WatchEvent>, before: PathOrder) {
    forall i, j :: 0 <= i < j < |events| ==> before(events[i].path, events[j].path)
  }

  ghost predicate IsLeast(path: Path, paths: set<Path>, before: PathOrder) {
    path in paths && forall other :: other in paths && other != path ==> before(path, other)
  }

  lemma {:induction false} LeastOf(paths: set<Path>, before: PathOrder) returns (least: Path)
    requires paths != {} && TotalOrder(before)
    ensures IsLeast(least, paths, before)
    decreases |paths|
  {
    var some :| some in paths;
    var rest := paths - {some};
    assert paths == rest + {some};
    if rest == {} {
      least := some;
    } else {
      least := LeastOf(rest, before);
      if before(some, least) {
        least := some;
      }
    }
  }

  /** The events list the batch in path order, up to the paths in `rest`, which all come later. */
  ghost predicate ListsUpTo(events: seq<WatchEvent>, batch: map<Path, Kind>, rest: set<Path>, before: PathOrder) {
    && rest <= batch.Keys && Lists(events, batch - rest) && Ascending(events, before)
    && forall i, path :: 0 <= i < |events| && path in rest ==> before(events[i].path, path)
  }

  lemma ListedNext(events: seq<WatchEvent>, batch: map<Path, Kind>, rest: set<Path>, before: PathOrder, path: Path)
    requires ListsUpTo(events, batch, rest, before) && IsLeast(path, rest, before)
    ensures ListsUpTo(events + [WatchEvent(path, batch[path])], batch, rest - {path}, before)
  {
    var next := events + [WatchEvent(path, batch[path])];
    assert next[|events|].path == path;
    forall other | other in batch - (rest - {path})
      ensures WatchEvent(other, batch[other]) in next
    {
      if other != path {
        assert other in batch - rest;
      }
    }
  }

  /** The vector `send_settled` sends: the batch in path order. */
  method Settled(batch: map<Path, Kind>, before: PathOrder) returns (events: seq<WatchEvent>)
    requires TotalOrder(before)
    ensures Lists(events, batch) && Ascending(events, before)
  {
    hide TotalOrder, Lists, ListsUpTo;
    events := [];
    var rest := batch.Keys;
    NothingListed(batch, before);
    while rest != {}
      invariant rest <= batch.Keys && ListsUpTo(events, batch, rest, before)
      decreases rest
    {
      ghost var least := LeastOf(rest, before);
      var path :| path in rest && forall other :: other in rest && other != path ==> before(path, other);
      ListedNext(events, batch, rest, before, path);
      events := events + [WatchEvent(path, batch[path])];
      rest := rest - {path};
    }
    AllListed(events, batch, before);
  }

  lemma NothingListed(batch: map<Path, Kind>, before: PathOrder)
    ensures ListsUpTo([], batch, batch.Keys, before)
  {
  }

  lemma AllListed(events: seq<WatchEvent>, batch: map<Path, Kind>, before: PathOrder)
    requires ListsUpTo(events, batch, {}, before)
    ensures Lists(events, batch) && Ascending(events, before)
  {
    assert batch - {} == batch;
  }

  lemma EmptyListing(x: seq<WatchEvent>, batch: map<Path, Kind>)
    requires Lists(x, batch)
    ensures x == [] <==> batch == map[]
  {
    if x != [] {
      assert x[0].path in batch;
    } else {
      assert forall path :: path !in batch;
    }
  }

  /** A batch has one vector: its content and the path order leave no choice. */
  lemma {:induction false} OneListing(x: seq<WatchEvent>, y: seq<WatchEvent>, batch: map<Path, Kind>, before: PathOrder)
    requires TotalOrder(before)
    requires Lists(x, batch) && Ascending(x, before) && Lists(y, batch) && Ascending(y, before)
    ensures x == y
    decreases |x|
  {
    hide TotalOrder, Lists;
    EmptyListing(x, batch);
    EmptyListing(y, batch);
    if batch == map[] {
    } else {
      SameFirst(x, y, batch, before);
      WithoutFirst(x, batch);
      WithoutFirst(y, batch);
      OneListing(x[1..], y[1..], batch - {x[0].path}, before);
    }
  }

  lemma SameFirst(x: seq<WatchEvent>, y: seq<WatchEvent>, batch: map<Path, Kind>, before: PathOrder)
    requires TotalOrder(before) && x != [] && y != []
    requires Lists(x, batch) && Ascending(x, before) && Lists(y, batch) && Ascending(y, before)
    ensures x[0] == y[0]
  {
    assert WatchEvent(y[0].path, batch[y[0].path]) in x && WatchEvent(x[0].path, batch[x[0].path]) in y;
    var i :| 0 <= i < |x| && x[i].path == y[0].path;
    var j :| 0 <= j < |y| && y[j].path == x[0].path;
  }

  lemma WithoutFirst(x: seq<WatchEvent>, batch: map<Path, Kind>)
    requires x != [] && Lists(x, batch)
    ensures Lists(x[1..], batch - {x[0].path})
  {
    var rest := batch - {x[0].path};
    forall path | path in rest
      ensures WatchEvent(path, rest[path]) in x[1..]
    {
      assert WatchEvent(path, batch[path]) in x;
      var i :| 0 <= i < |x| && x[i] == WatchEvent(path, batch[path]);
      assert x[1..][i - 1] == x[i];
    }
  }
}
