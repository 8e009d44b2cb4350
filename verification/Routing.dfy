/** `WatchTargets` and `route`: from reported paths back to editor keys. */
module Routing {
  import opened Basics
  import opened WatchEvents

  /** One declared file: its editor key and its normalized path. */
  datatype Target = Target(key: string, path: Path)

  /** The declared files in key order; keys are distinct, as in the map they come from. */
  datatype WatchTargets = WatchTargets(entries: seq<Target>) {
    ghost predicate Valid() {
      forall i, j :: 0 <= i < j < |entries| ==> entries[i].key != entries[j].key
    }

    /** No two keys declare the same file. */
    ghost predicate DistinctPaths() {
      forall i, j :: 0 <= i < j < |entries| ==> entries[i].path != entries[j].path
    }

    /** The first key, in key order, whose path is the reported one. */
    function KeyFor(path: Path): Option<string> { FirstKey(entries, path) }
  }

  function FirstKey(entries: seq<Target>, path: Path): Option<string> {
    if entries == [] then None
    else if entries[0].path == path then Some(entries[0].key)
    else FirstKey(entries[1..], path)
  }

  lemma {:induction false} FirstKeyFound(entries: seq<Target>, path: Path)
    ensures FirstKey(entries, path).None? <==> forall i :: 0 <= i < |entries| ==> entries[i].path != path
    ensures FirstKey(entries, path).Some? ==>
      exists i :: 0 <= i < |entries| && entries[i] == Target(FirstKey(entries, path).value, path)
        && forall j :: 0 <= j < i ==> entries[j].path != path
  {
    if entries == [] || entries[0].path == path {
    } else {
      var rest := entries[1..];
      FirstKeyFound(rest, path);
      if FirstKey(entries, path).Some? {
        var i :| 0 <= i < |rest| && rest[i] == Target(FirstKey(rest, path).value, path)
          && forall j :: 0 <= j < i ==> rest[j].path != path;
        assert entries[i + 1] == rest[i];
      } else {
        forall i | 0 <= i < |entries|
          ensures entries[i].path != path
        {
          if i > 0 { assert entries[i] == rest[i - 1]; }
        }
      }
    }
  }

  /** With distinct declared paths, the key of a path is the one that declares it. */
  lemma KeyIsDeclared(targets: WatchTargets, i: nat, path: Path)
    requires targets.Valid() && targets.DistinctPaths() && i < |targets.entries|
    ensures targets.KeyFor(path) == Some(targets.entries[i].key) <==> targets.entries[i].path == path
  {
    FirstKeyFound(targets.entries, path);
  }

  /** When several keys declare one file, only the first of them can ever be reached. */
  lemma OnlyFirstKeyReachable(targets: WatchTargets, j: nat)
    requires targets.Valid() && j < |targets.entries|
    ensures (exists path :: targets.KeyFor(path) == Some(targets.entries[j].key))
            <==> forall i :: 0 <= i < j ==> targets.entries[i].path != targets.entries[j].path
  {
    FirstKeyFound(targets.entries, targets.entries[j].path);
    if path :| targets.KeyFor(path) == Some(targets.entries[j].key) {
      FirstKeyFound(targets.entries, path);
    }
    if forall i :: 0 <= i < j ==> targets.entries[i].path != targets.entries[j].path {
      assert targets.KeyFor(targets.entries[j].path) == Some(targets.entries[j].key);
    }
  }

  /** Canonical spelling of a path, as the file system answers it. */
  type Normalize = Path -> Path

  function Hit(targets: WatchTargets, event: WatchEvent, normalize: Normalize): Option<string> {
    targets.KeyFor(normalize(event.path))
  }

  /** The map `route` builds: events insert in order, a later one overwriting an earlier one. */
  function Routed(targets: WatchTargets, batch: seq<WatchEvent>, normalize: Normalize): map<string, Kind> {
    if batch == [] then map[]
    else
      var earlier, last := Routed(targets, batch[..|batch| - 1], normalize), batch[|batch| - 1];
      match Hit(targets, last, normalize)
      case None => earlier
      case Some(key) => earlier[key := last.kind]
  }

  method Route(targets: WatchTargets, batch: seq<WatchEvent>, normalize: Normalize) returns (routed: map<string, Kind>)
    ensures routed == Routed(targets, batch, normalize)
  {
    routed := map[];
    for i := 0 to |batch|
      invariant routed == Routed(targets, batch[..i], normalize)
    {
      var event := batch[i];
      assert batch[..i + 1][..i] == batch[..i];
      var key := targets.KeyFor(normalize(event.path));
      if key.Some? {
        routed := routed[key.value := event.kind];
      }
    }
    assert batch[..|batch|] == batch;
  }

  /** Event `i` of the batch is the last one for its key. */
  ghost predicate LastFor(targets: WatchTargets, batch: seq<WatchEvent>, normalize: Normalize, i: nat, key: string) {
    && i < |batch| && Hit(targets, batch[i], normalize) == Some(key)
    && forall j :: i < j < |batch| ==> Hit(targets, batch[j], normalize) != Some(key)
  }

  ghost predicate AnyFor(targets: WatchTargets, batch: seq<WatchEvent>, normalize: Normalize, key: string) {
    exists i: nat :: i < |batch| && Hit(targets, batch[i], normalize) == Some(key)
  }

  /** An event that does not hit `key` leaves its last event and whether it has one as they were. */
  lemma MissKeepsLast(targets: WatchTargets, batch: seq<WatchEvent>, normalize: Normalize, key: string)
    requires batch != [] && Hit(targets, batch[|batch| - 1], normalize) != Some(key)
    ensures AnyFor(targets, batch, normalize, key) <==> AnyFor(targets, batch[..|batch| - 1], normalize, key)
    ensures forall i: nat :: LastFor(targets, batch[..|batch| - 1], normalize, i, key) ==>
              LastFor(targets, batch, normalize, i, key)
  {
    hide Hit;
    var init := batch[..|batch| - 1];
    if i: nat :| i < |batch| && Hit(targets, batch[i], normalize) == Some(key) {
      assert init[i] == batch[i];
    }
    if i: nat :| i < |init| && Hit(targets, init[i], normalize) == Some(key) {
      assert batch[i] == init[i];
    }
    forall i: nat | LastFor(targets, init, normalize, i, key)
      ensures LastFor(targets, batch, normalize, i, key)
    {
      forall j | i < j < |batch|
        ensures Hit(targets, batch[j], normalize) != Some(key)
      {
        if j < |init| { assert batch[j] == init[j]; }
      }
    }
  }

  /** Routing is last-wins: a key is routed exactly when some event hits it, with the kind of the last such event. */
  lemma {:induction false} LastWins(targets: WatchTargets, batch: seq<WatchEvent>, normalize: Normalize, key: string)
    ensures key in Routed(targets, batch, normalize) <==> AnyFor(targets, batch, normalize, key)
    ensures key in Routed(targets, batch, normalize) ==>
            exists i: nat :: LastFor(targets, batch, normalize, i, key)
              && Routed(targets, batch, normalize)[key] == batch[i].kind
    decreases |batch|
  {
    hide Hit;
    if batch == [] {
    } else {
      var n := |batch| - 1;
      if Hit(targets, batch[n], normalize) == Some(key) {
        assert LastFor(targets, batch, normalize, n, key);
      } else {
        LastWins(targets, batch[..n], normalize, key);
        MissKeepsLast(targets, batch, normalize, key);
        if key in Routed(targets, batch, normalize) {
          var i: nat :| LastFor(targets, batch[..n], normalize, i, key)
            && Routed(targets, batch[..n], normalize)[key] == batch[..n][i].kind;
          assert LastFor(targets, batch, normalize, i, key);
        }
      }
    }
  }

  /** What the documentation of `route` promises: each key hit gets the strongest kind reported for it. */
  ghost predicate KeepsStrongest(targets: WatchTargets, batch: seq<WatchEvent>, normalize: Normalize) {
    forall i: nat :: i < |batch| ==>
      var key := Hit(targets, batch[i], normalize);
      key.Some? && batch[i].kind == Changed ==>
        key.value in Routed(targets, batch, normalize) && Routed(targets, batch, normalize)[key.value] == Changed
  }

  /** No two events of the batch hit the same key. */
  ghost predicate HitsDistinct(targets: WatchTargets, batch: seq<WatchEvent>, normalize: Normalize) {
    forall i, j :: 0 <= i < j < |batch| && Hit(targets, batch[i], normalize).Some? ==>
      Hit(targets, batch[j], normalize) != Hit(targets, batch[i], normalize)
  }

  ghost predicate SamePaths(a: seq<WatchEvent>, b: seq<WatchEvent>) {
    |a| == |b| && forall i :: 0 <= i < |a| ==> a[i].path == b[i].path
  }

  /** For every key that an event of the batch reports as changed, the last event of that key says so too. */
  ghost predicate LastIsStrongest(targets: WatchTargets, batch: seq<WatchEvent>, normalize: Normalize) {
    forall i: nat, j: nat ::
      && i < j && j < |batch| && Hit(targets, batch[i], normalize).Some?
      && LastFor(targets, batch, normalize, j, Hit(targets, batch[i], normalize).value)
      && batch[i].kind == Changed
      ==> batch[j].kind == Changed
  }

  /** For the batch at hand, last-wins keeps the strongest kind of every key if and only if no key that an event reports
      as changed has a removal for its last event. */
  lemma StrongestIffLast(targets: WatchTargets, batch: seq<WatchEvent>, normalize: Normalize)
    ensures KeepsStrongest(targets, batch, normalize) <==> LastIsStrongest(targets, batch, normalize)
  {
    hide Hit, Routed;
    forall i: nat | i < |batch| && Hit(targets, batch[i], normalize).Some?
      ensures var key, routed := Hit(targets, batch[i], normalize).value, Routed(targets, batch, normalize);
              && key in routed
              && forall j: nat :: LastFor(targets, batch, normalize, j, key) ==> routed[key] == batch[j].kind
    {
      LastIsRouted(targets, batch, normalize, i);
    }
    if KeepsStrongest(targets, batch, normalize) {
      forall i: nat, j: nat |
        && i < j && j < |batch| && Hit(targets, batch[i], normalize).Some?
        && LastFor(targets, batch, normalize, j, Hit(targets, batch[i], normalize).value)
        && batch[i].kind == Changed
        ensures batch[j].kind == Changed
      {
        assert Routed(targets, batch, normalize)[Hit(targets, batch[i], normalize).value] == Changed;
      }
    }
    if LastIsStrongest(targets, batch, normalize) {
      forall i: nat | i < |batch| && Hit(targets, batch[i], normalize).Some? && batch[i].kind == Changed
        ensures var key, routed := Hit(targets, batch[i], normalize).value, Routed(targets, batch, normalize);
                key in routed && routed[key] == Changed
      {
        var key := Hit(targets, batch[i], normalize).value;
        LastWins(targets, batch, normalize, key);
        var j: nat :| LastFor(targets, batch, normalize, j, key)
          && Routed(targets, batch, normalize)[key] == batch[j].kind;
      }
    }
  }

  lemma LastIsRouted(targets: WatchTargets, batch: seq<WatchEvent>, normalize: Normalize, i: nat)
    requires i < |batch| && Hit(targets, batch[i], normalize).Some?
    ensures var key, routed := Hit(targets, batch[i], normalize).value, Routed(targets, batch, normalize);
            && key in routed
            && forall j: nat :: LastFor(targets, batch, normalize, j, key) ==> routed[key] == batch[j].kind
  {
    hide Hit, Routed;
    var key := Hit(targets, batch[i], normalize).value;
    LastWins(targets, batch, normalize, key);
    var k: nat :| LastFor(targets, batch, normalize, k, key) && Routed(targets, batch, normalize)[key] == batch[k].kind;
    forall j: nat | LastFor(targets, batch, normalize, j, key)
      ensures j == k
    {
    }
  }

  lemma DistinctHitsKeep(targets: WatchTargets, batch: seq<WatchEvent>, normalize: Normalize, i: nat)
    requires HitsDistinct(targets, batch, normalize) && i < |batch| && Hit(targets, batch[i], normalize).Some?
    ensures var key := Hit(targets, batch[i], normalize).value;
            key in Routed(targets, batch, normalize) && Routed(targets, batch, normalize)[key] == batch[i].kind
  {
    var key := Hit(targets, batch[i], normalize).value;
    LastWins(targets, batch, normalize, key);
    var k: nat :| LastFor(targets, batch, normalize, k, key) && Routed(targets, batch, normalize)[key] == batch[k].kind;
    assert k == i;
  }

  lemma DistinctKeepsStrongest(targets: WatchTargets, batch: seq<WatchEvent>, normalize: Normalize)
    requires HitsDistinct(targets, batch, normalize)
    ensures KeepsStrongest(targets, batch, normalize)
  {
    hide Hit, Routed;
    forall i: nat | i < |batch| && Hit(targets, batch[i], normalize).Some? {
      DistinctHitsKeep(targets, batch, normalize, i);
    }
  }

  /** Whenever two of the paths lead to one key, some choice of kinds lets the weaker one win. */
  lemma SharedKeyLoses(targets: WatchTargets, batch: seq<WatchEvent>, normalize: Normalize, i: nat, j: nat)
    returns (other: seq<WatchEvent>)
    requires i < j < |batch| && Hit(targets, batch[i], normalize).Some?
    requires Hit(targets, batch[j], normalize) == Hit(targets, batch[i], normalize)
    ensures SamePaths(batch, other) && !KeepsStrongest(targets, other, normalize)
  {
    hide Routed, FirstKey;
    other := seq(|batch|, k requires 0 <= k < |batch| =>
      WatchEvent(batch[k].path, if k == i then Changed else Removed));
    var key := Hit(targets, other[i], normalize).value;
    LastWins(targets, other, normalize, key);
    assert Hit(targets, other[j], normalize) == Some(key);
    assert other[i].kind == Changed;
  }

  /** Last-wins keeps the strongest kind for every choice of kinds on these paths exactly when no two of the paths
      lead to the same key. */
  lemma StrongestIffDistinct(targets: WatchTargets, batch: seq<WatchEvent>, normalize: Normalize)
    ensures (forall other | SamePaths(batch, other) :: KeepsStrongest(targets, other, normalize))
            <==> HitsDistinct(targets, batch, normalize)
  {
    hide FirstKey, KeepsStrongest;
    if HitsDistinct(targets, batch, normalize) {
      forall other | SamePaths(batch, other)
        ensures KeepsStrongest(targets, other, normalize)
      {
        assert HitsDistinct(targets, other, normalize);
        DistinctKeepsStrongest(targets, other, normalize);
      }
    } else {
      var i, j :| 0 <= i < j < |batch| && Hit(targets, batch[i], normalize).Some?
        && Hit(targets, batch[j], normalize) == Hit(targets, batch[i], normalize);
      var other := SharedKeyLoses(targets, batch, normalize, i, j);
    }
  }

  /** Two spellings of one file, changed and then removed: the key is routed as removed. */
  lemma WeakerKindCanWin()
    ensures var targets := WatchTargets([Target("lib.rs", "/a/lib.rs")]);
            var batch := [WatchEvent("/a/lib.rs", Changed), WatchEvent("/link/lib.rs", Removed)];
            var normalize := (path: Path) => "/a/lib.rs";
            Routed(targets, batch, normalize) == map["lib.rs" := Removed]
  {
    var targets := WatchTargets([Target("lib.rs", "/a/lib.rs")]);
    var normalize := (path: Path) => "/a/lib.rs";
    var batch := [WatchEvent("/a/lib.rs", Changed), WatchEvent("/link/lib.rs", Removed)];
    assert batch[..1] == [WatchEvent("/a/lib.rs", Changed)] && batch[..1][..0] == [];
    assert Routed(targets, batch[..1], normalize) == map["lib.rs" := Changed];
  }

  // ----- from a burst of raw events to editor keys -----

  /** The burst reports the declared file under at most one spelling. */
  ghost predicate OneSpelling(burst: seq<RawEvent>, normalize: Normalize, target: Path) {
    forall p, q :: p in Summary(burst) && q in Summary(burst) && normalize(p) == target && normalize(q) == target ==>
      p == q
  }

  /** The declared file is reported with the kind, under some spelling. */
  ghost predicate Reported(burst: seq<RawEvent>, normalize: Normalize, target: Path, kind: Kind) {
    exists path :: Mentions(burst, path, kind) && normalize(path) == target
  }

  /** An event that hits a declared key carries a reported path of the declared file. */
  lemma HitIsReported(targets: WatchTargets, burst: seq<RawEvent>, batch: seq<WatchEvent>, normalize: Normalize,
                      i: nat, k: nat)
    requires targets.Valid() && targets.DistinctPaths() && i < |targets.entries|
    requires Lists(batch, Summary(burst)) && k < |batch|
    requires Hit(targets, batch[k], normalize) == Some(targets.entries[i].key)
    ensures normalize(batch[k].path) == targets.entries[i].path
    ensures Mentions(burst, batch[k].path, batch[k].kind)
    ensures batch[k].path in Summary(burst) && Summary(burst)[batch[k].path] == batch[k].kind
  {
    KeyIsDeclared(targets, i, normalize(batch[k].path));
    SummaryAt(burst, batch[k].path);
  }

  /** A reported path of the declared file becomes an event that hits its key. */
  lemma ReportedHits(targets: WatchTargets, burst: seq<RawEvent>, batch: seq<WatchEvent>, normalize: Normalize,
                     i: nat, path: Path, kind: Kind)
    returns (k: nat)
    requires targets.Valid() && targets.DistinctPaths() && i < |targets.entries|
    requires Lists(batch, Summary(burst))
    requires Mentions(burst, path, kind) && normalize(path) == targets.entries[i].path
    ensures k < |batch| && batch[k].path == path && Hit(targets, batch[k], normalize) == Some(targets.entries[i].key)
    ensures kind == Changed ==> batch[k].kind == Changed
  {
    SummaryAt(burst, path);
    assert WatchEvent(path, Summary(burst)[path]) in batch;
    k :| 0 <= k < |batch| && batch[k] == WatchEvent(path, Summary(burst)[path]);
    KeyIsDeclared(targets, i, normalize(path));
  }

  /** A burst, settled and routed in any order, gives each declared key `Changed` when some report of its file is a
      change, `Removed` when all of them are removals, and nothing when there is none. */
  lemma BurstReachesKeys(targets: WatchTargets, burst: seq<RawEvent>, batch: seq<WatchEvent>, normalize: Normalize,
                         i: nat)
    requires targets.Valid() && targets.DistinctPaths() && i < |targets.entries|
    requires Lists(batch, Summary(burst)) && OneSpelling(burst, normalize, targets.entries[i].path)
    ensures var routed, target := Routed(targets, batch, normalize), targets.entries[i];
            && (target.key in routed <==>
                  Reported(burst, normalize, target.path, Changed) || Reported(burst, normalize, target.path, Removed))
            && (target.key in routed ==>
                  (routed[target.key] == Changed <==> Reported(burst, normalize, target.path, Changed)))
  {
    hide Routed, Hit, Summary, Mentions;
    var routed, target := Routed(targets, batch, normalize), targets.entries[i];
    LastWins(targets, batch, normalize, target.key);
    if kind, path :| Mentions(burst, path, kind) && normalize(path) == target.path {
      var _ := ReportedHits(targets, burst, batch, normalize, i, path, kind);
    }
    if target.key in routed {
      var k: nat :| LastFor(targets, batch, normalize, k, target.key) && routed[target.key] == batch[k].kind;
      HitIsReported(targets, burst, batch, normalize, i, k);
      if path :| Mentions(burst, path, Changed) && normalize(path) == target.path {
        var j := ReportedHits(targets, burst, batch, normalize, i, path, Changed);
        HitIsReported(targets, burst, batch, normalize, i, j);
        assert batch[j].path == batch[k].path;
      }
      assert Reported(burst, normalize, target.path, batch[k].kind);
    }
  }

  lemma SameEvents(a: seq<RawEvent>, b: seq<RawEvent>)
    requires multiset(a) == multiset(b)
    ensures forall event :: event in a <==> event in b
  {
    forall event
      ensures event in a <==> event in b
    {
      assert event in a <==> event in multiset(a);
      assert event in b <==> event in multiset(b);
    }
  }

  /** Bursts of the same events in any order, settled in any order, route alike. */
  lemma RoutingIgnoresOrder(targets: WatchTargets, a: seq<RawEvent>, b: seq<RawEvent>,
                            x: seq<WatchEvent>, y: seq<WatchEvent>, normalize: Normalize, i: nat)
    requires targets.Valid() && targets.DistinctPaths() && i < |targets.entries|
    requires multiset(a) == multiset(b) && OneSpelling(a, normalize, targets.entries[i].path)
    requires Lists(x, Summary(a)) && Lists(y, Summary(b))
    ensures var key, r, s := targets.entries[i].key, Routed(targets, x, normalize), Routed(targets, y, normalize);
            (key in r <==> key in s) && (key in r ==> r[key] == s[key])
  {
    SameEvents(a, b);
    SummaryIgnoresOrder(a, b);
    BurstReachesKeys(targets, a, x, normalize, i);
    BurstReachesKeys(targets, a, y, normalize, i);
  }

  /** Settled in path order, bursts of the same events route alike whatever they report: last-wins is decided by the
      order of the paths, never by the order of the events. */
  lemma SettledRoutingIgnoresOrder(targets: WatchTargets, a: seq<RawEvent>, b: seq<RawEvent>,
                                   x: seq<WatchEvent>, y: seq<WatchEvent>, normalize: Normalize, before: PathOrder)
    requires multiset(a) == multiset(b) && TotalOrder(before)
    requires Lists(x, Summary(a)) && Ascending(x, before) && Lists(y, Summary(b)) && Ascending(y, before)
    ensures Routed(targets, x, normalize) == Routed(targets, y, normalize)
  {
    SameEvents(a, b);
    SummaryIgnoresOrder(a, b);
    OneListing(x, y, Summary(a), before);
  }
}
