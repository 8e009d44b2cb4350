/** Texture ownership of the browser surfaces: the sprite atlas has no eviction, so every image must reach
    `Window::drop_image` exactly once. */
module Textures {
  import opened Basics

  /** One `RenderImage`, named by the order of its creation. */
  type ImageId = nat

  function Listed(image: Option<ImageId>): seq<ImageId> { if image.Some? then [image.value] else [] }

  /** How often an image is listed. */
  function Occurs(images: seq<ImageId>, image: ImageId): nat {
    if images == [] then 0
    else Occurs(images[..|images| - 1], image) + if images[|images| - 1] == image then 1 else 0
  }

  lemma {:induction false} OccursConcat(a: seq<ImageId>, b: seq<ImageId>, image: ImageId)
    ensures Occurs(a + b, image) == Occurs(a, image) + Occurs(b, image)
    decreases |b|
  {
    if b == [] {
      assert a + b == a;
    } else {
      assert (a + b)[..|a + b| - 1] == a + b[..|b| - 1];
      OccursConcat(a, b[..|b| - 1], image);
    }
  }

  /** The textures of one surface: the painted frame, the favicon, and what the next paint releases.
      `queued` says whether it was given the workbench's orphan queue. */
  datatype Surface = Surface(frame: Option<ImageId>, favicon: Option<ImageId>, pending: seq<ImageId>, queued: bool) {
    /** In how many of its places the surface holds an image, and how many images it holds in all. */
    function Holds(image: ImageId): nat {
      Occurs(pending, image) + (if frame == Some(image) then 1 else 0) + (if favicon == Some(image) then 1 else 0)
    }
    function Size(): nat { |pending| + |Listed(frame)| + |Listed(favicon)| }

    /** A new frame, a new favicon and a tab change park what they displace. */
    function WithFrame(image: ImageId): Surface { this.(frame := Some(image), pending := pending + Listed(frame)) }
    function WithFavicon(image: ImageId): Surface {
      this.(favicon := Some(image), pending := pending + Listed(favicon))
    }
    function WithoutFrame(): Surface { this.(frame := None, pending := pending + Listed(frame)) }

    /** A paint releases what is parked. */
    function Painted(): Surface { this.(pending := []) }

    /** All a retired surface gives up, and what is left of it: nothing, unless it has no queue to give to. */
    function All(): seq<ImageId> { pending + Listed(frame) + Listed(favicon) }
    function Retired(): Surface { Surface(None, None, if queued then [] else All(), queued) }
  }

  class OrphanQueue {
    var images: seq<ImageId>

    constructor ()
      ensures images == []
    {
      images := [];
    }

    /** The workbench's paint: `mem::take` the queue and drop every image. */
    method Drain(window: Window)
      modifies this, window
      ensures images == [] && window.released == old(window.released) + old(images)
    {
      var orphans := images;
      images := [];
      for i := 0 to |orphans|
        invariant images == [] && window.released == old(window.released) + orphans[..i]
      {
        window.DropImage(orphans[i]);
      }
    }
  }

  class Window {
    var released: seq<ImageId>

    constructor ()
      ensures released == []
    {
      released := [];
    }

    method DropImage(image: ImageId)
      modifies this
      ensures released == old(released) + [image]
    {
      released := released + [image];
    }
  }

  class BrowserSurface {
    var frameImage: Option<ImageId>
    var favicon: Option<ImageId>
    var pendingDrop: seq<ImageId>
    var orphans: OrphanQueue?

    ghost function Value(): Surface
      reads this
    {
      Surface(frameImage, favicon, pendingDrop, orphans != null)
    }

    constructor ()
      ensures Value() == Surface(None, None, [], false)
    {
      frameImage, favicon, pendingDrop, orphans := None, None, [], null;
    }

    /** The workbench hands its queue to a surface it has just made. */
    method SetOrphanTextures(queue: OrphanQueue)
      modifies this`orphans
      ensures orphans == queue && Value() == old(Value()).(queued := true)
    {
      orphans := queue;
    }

    /** A decoded frame replaces the painted one, which is parked. */
    method AcceptFrame(image: ImageId)
      modifies this`frameImage, this`pendingDrop
      ensures Value() == old(Value()).WithFrame(image)
    {
      if frameImage.Some? {
        pendingDrop := pendingDrop + [frameImage.value];
      }
      frameImage := Some(image);
    }

    /** A decoded favicon replaces the shown one, which is parked. */
    method ReplaceFavicon(image: ImageId)
      modifies this`favicon, this`pendingDrop
      ensures Value() == old(Value()).WithFavicon(image)
    {
      var previous := favicon;
      favicon := Some(image);
      if previous.Some? {
        pendingDrop := pendingDrop + [previous.value];
      }
    }

    /** The texture side of `set_tab` when the tab changes. */
    method ParkFrame()
      modifies this`frameImage, this`pendingDrop
      ensures Value() == old(Value()).WithoutFrame()
    {
      if frameImage.Some? {
        pendingDrop := pendingDrop + [frameImage.value];
        frameImage := None;
      }
    }

    /** The top of `render`: every parked texture is released; only the frame and the favicon stay. */
    method Paint(window: Window)
      modifies this`pendingDrop, window
      ensures Value() == old(Value()).Painted() && window.released == old(window.released) + old(pendingDrop)
      ensures Value().Size() <= 2
    {
      var stale := pendingDrop;
      pendingDrop := [];
      for i := 0 to |stale|
        invariant pendingDrop == [] && window.released == old(window.released) + stale[..i]
      {
        window.DropImage(stale[i]);
      }
      assert stale[..|stale|] == stale;
    }

    /** Everything still owned goes to the queue; without a queue it stays parked. */
    method RetireTextures()
      modifies this`frameImage, this`favicon, this`pendingDrop, orphans
      ensures Value() == old(Value()).Retired()
      ensures orphans != null ==> orphans.images == old(orphans.images) + old(Value()).All()
    {
      var images := pendingDrop;
      pendingDrop := [];
      if frameImage.Some? {
        images := images + [frameImage.value];
        frameImage := None;
      }
      if favicon.Some? {
        images := images + [favicon.value];
        favicon := None;
      }
      if images == [] {
        return;
      }
      if orphans != null {
        orphans.images := orphans.images + images;
      } else {
        pendingDrop := pendingDrop + images;
      }
    }
  }

  // ----- every run of any number of surfaces -----

  datatype World = World(surfaces: seq<Surface>, closed: set<nat>, orphans: seq<ImageId>, released: seq<ImageId>,
                         minted: nat) {
    predicate Open(i: nat) { i < |surfaces| && i !in closed }
  }

  const START: World := World([], {}, [], [], 0)

  /** A new surface, with or without the queue; a frame, a favicon, a tab change or a paint of one surface; a surface
      retired but still alive; a surface closed, that is retired and dropped, so that nothing reaches it any more; and a
      paint of the workbench. */
  datatype Event = Create(queued: bool) | Frame(i: nat) | Favicon(i: nat) | ChangeTab(i: nat) | Paint(i: nat)
                 | Retire(i: nat) | Close(i: nat) | PaintWorkbench

  /** `retire_textures` of surface `i`: what it gives up goes to the queue it has. */
  function Retirement(w: World, i: nat): World
    requires i < |w.surfaces|
  {
    var s := w.surfaces[i];
    w.(surfaces := w.surfaces[i := s.Retired()], orphans := if s.queued then w.orphans + s.All() else w.orphans)
  }

  function Step(w: World, e: Event): World {
    match e
    case Create(queued) => w.(surfaces := w.surfaces + [Surface(None, None, [], queued)])
    case Frame(i) =>
      if !w.Open(i) then w
      else w.(surfaces := w.surfaces[i := w.surfaces[i].WithFrame(w.minted)], minted := w.minted + 1)
    case Favicon(i) =>
      if !w.Open(i) then w
      else w.(surfaces := w.surfaces[i := w.surfaces[i].WithFavicon(w.minted)], minted := w.minted + 1)
    case ChangeTab(i) =>
      if !w.Open(i) then w
      else w.(surfaces := w.surfaces[i := w.surfaces[i].WithoutFrame()])
    case Paint(i) =>
      if !w.Open(i) then w
      else w.(surfaces := w.surfaces[i := w.surfaces[i].Painted()], released := w.released + w.surfaces[i].pending)
    case Retire(i) => if !w.Open(i) then w else Retirement(w, i)
    case Close(i) => if !w.Open(i) then w else Retirement(w, i).(closed := w.closed + {i})
    case PaintWorkbench => w.(orphans := [], released := w.released + w.orphans)
  }

  function Run(w: World, events: seq<Event>): World
    decreases |events|
  {
    if events == [] then w else Run(Step(w, events[0]), events[1..])
  }

  function HeldBy(surfaces: seq<Surface>, image: ImageId): nat {
    if surfaces == [] then 0 else surfaces[0].Holds(image) + HeldBy(surfaces[1..], image)
  }

  function SizeOf(surfaces: seq<Surface>): nat {
    if surfaces == [] then 0 else surfaces[0].Size() + SizeOf(surfaces[1..])
  }

  /** In how many places of the world an image is, and how many places are taken in all. */
  function Places(w: World, image: ImageId): nat {
    HeldBy(w.surfaces, image) + Occurs(w.orphans, image) + Occurs(w.released, image)
  }
  function Taken(w: World): nat { SizeOf(w.surfaces) + |w.orphans| + |w.released| }

  lemma {:induction false} SurfacesAppend(surfaces: seq<Surface>, s: Surface, image: ImageId)
    ensures HeldBy(surfaces + [s], image) == HeldBy(surfaces, image) + s.Holds(image)
    ensures SizeOf(surfaces + [s]) == SizeOf(surfaces) + s.Size()
  {
    if surfaces == [] {
      assert surfaces + [s] == [s] && [s][1..] == [];
    } else {
      assert (surfaces + [s])[1..] == surfaces[1..] + [s];
      SurfacesAppend(surfaces[1..], s, image);
    }
  }

  lemma {:induction false} SurfacesUpdate(surfaces: seq<Surface>, i: nat, s: Surface, image: ImageId)
    requires i < |surfaces|
    ensures HeldBy(surfaces[i := s], image) + surfaces[i].Holds(image) == HeldBy(surfaces, image) + s.Holds(image)
    ensures SizeOf(surfaces[i := s]) + surfaces[i].Size() == SizeOf(surfaces) + s.Size()
  {
    if i == 0 {
      assert surfaces[i := s][1..] == surfaces[1..];
    } else {
      assert surfaces[i := s][1..] == surfaces[1..][i - 1 := s];
      SurfacesUpdate(surfaces[1..], i - 1, s, image);
    }
  }

  lemma ListedOnce(o: Option<ImageId>, image: ImageId)
    ensures Occurs(Listed(o), image) == if o == Some(image) then 1 else 0
  {
    if o.Some? { assert Listed(o)[..0] == []; }
  }

  /** On one surface: a frame or a favicon adds the new image and loses none; a tab change keeps all; a paint and a
      retirement give up exactly what they hand out. */
  lemma SurfaceConserves(s: Surface, minted: ImageId, image: ImageId)
    ensures s.WithFrame(minted).Holds(image) == s.Holds(image) + (if image == minted then 1 else 0)
    ensures s.WithFavicon(minted).Holds(image) == s.Holds(image) + (if image == minted then 1 else 0)
    ensures s.WithoutFrame().Holds(image) == s.Holds(image)
    ensures s.Painted().Holds(image) + Occurs(s.pending, image) == s.Holds(image)
    ensures s.Holds(image) == s.Retired().Holds(image) + if s.queued then Occurs(s.All(), image) else 0
  {
    ListedOnce(s.frame, image);
    ListedOnce(s.favicon, image);
    OccursConcat(s.pending, Listed(s.frame), image);
    OccursConcat(s.pending, Listed(s.favicon), image);
    OccursConcat(s.pending + Listed(s.frame), Listed(s.favicon), image);
  }

  /** A step moves images between places; a frame or a favicon adds exactly the image it mints. */
  lemma StepConserves(w: World, e: Event, image: ImageId)
    ensures var v := Step(w, e);
            && w.minted <= v.minted <= w.minted + 1
            && Places(v, image) == Places(w, image) + (if w.minted <= image < v.minted then 1 else 0)
            && Taken(v) == Taken(w) + (v.minted - w.minted)
  {
    hide Occurs, HeldBy, SizeOf;
    var v := Step(w, e);
    match e
    case Create(queued) =>
      EmptySurface(queued, image);
      SurfacesAppend(w.surfaces, Surface(None, None, [], queued), image);
    case PaintWorkbench => EmptyList(image); OccursConcat(w.released, w.orphans, image);
    case _ =>
      if w.Open(e.i) {
        var s := w.surfaces[e.i];
        SurfaceConserves(s, w.minted, image);
        SurfacesUpdate(w.surfaces, e.i, v.surfaces[e.i], image);
        OccursConcat(w.released, s.pending, image);
        OccursConcat(w.orphans, s.All(), image);
      }
  }

  lemma EmptyList(image: ImageId)
    ensures Occurs([], image) == 0
  {
  }

  lemma EmptySurface(queued: bool, image: ImageId)
    ensures Surface(None, None, [], queued).Holds(image) == 0
  {
  }

  /** Each minted image is in exactly one place, nothing else is anywhere; closed surfaces with a queue hold none. */
  ghost predicate Conserved(w: World) {
    && (forall image: ImageId :: Places(w, image) == if image < w.minted then 1 else 0)
    && Taken(w) == w.minted
    && forall i :: i in w.closed && i < |w.surfaces| && w.surfaces[i].queued ==> w.surfaces[i].Size() == 0
  }

  lemma StepKeepsConserved(w: World, e: Event)
    requires Conserved(w) && forall i :: i in w.closed ==> i < |w.surfaces|
    ensures Conserved(Step(w, e)) && forall i :: i in Step(w, e).closed ==> i < |Step(w, e).surfaces|
  {
    hide Places, Taken;
    StepConserves(w, e, 0);
    forall image: ImageId
      ensures Places(Step(w, e), image) == if image < Step(w, e).minted then 1 else 0
    {
      StepConserves(w, e, image);
    }
  }

  lemma {:induction false} RunKeepsConserved(w: World, events: seq<Event>)
    requires Conserved(w) && forall i :: i in w.closed ==> i < |w.surfaces|
    ensures Conserved(Run(w, events))
    decreases |events|
  {
    hide Conserved;
    if events == [] {
    } else {
      StepKeepsConserved(w, events[0]);
      RunKeepsConserved(Step(w, events[0]), events[1..]);
    }
  }

  /** Over every interleaving, each minted image is in exactly one place. */
  lemma RunConserves(events: seq<Event>)
    ensures Conserved(Run(START, events))
  {
    RunKeepsConserved(START, events);
  }

  lemma {:induction false} OccursAt(images: seq<ImageId>, i: nat)
    requires i < |images|
    ensures Occurs(images, images[i]) >= 1
    decreases |images|
  {
    if i == |images| - 1 {
    } else {
      OccursAt(images[..|images| - 1], i);
    }
  }

  lemma {:induction false} OccursTwice(images: seq<ImageId>, i: nat, j: nat)
    requires i < j < |images| && images[i] == images[j]
    ensures Occurs(images, images[i]) >= 2
    decreases |images|
  {
    var init := images[..|images| - 1];
    if j == |images| - 1 {
      OccursAt(init, i);
    } else {
      OccursTwice(init, i, j);
    }
  }

  /** No image is released twice, and a released image is neither shown, parked nor queued any more. */
  lemma ReleasedOnce(events: seq<Event>, a: nat)
    requires a < |Run(START, events).released|
    ensures var w := Run(START, events);
            && (forall b :: 0 <= b < |w.released| && b != a ==> w.released[b] != w.released[a])
            && HeldBy(w.surfaces, w.released[a]) == 0 && Occurs(w.orphans, w.released[a]) == 0
  {
    var w := Run(START, events);
    RunConserves(events);
    OccursAt(w.released, a);
    assert Places(w, w.released[a]) <= 1;
    forall b | 0 <= b < |w.released| && b != a
      ensures w.released[b] != w.released[a]
    {
      if w.released[b] == w.released[a] { OccursTwice(w.released, if a < b then a else b, if a < b then b else a); }
    }
  }

  // ----- the atlas stays small -----

  /** Every surface has the queue and has been painted since it last parked something, and the workbench has been
      painted since the last close. */
  predicate Settled(w: World) {
    && w.orphans == []
    && forall i :: 0 <= i < |w.surfaces| ==> w.surfaces[i].queued && (w.Open(i) ==> w.surfaces[i].pending == [])
  }

  function OpenCount(w: World, n: nat): nat
    requires n <= |w.surfaces|
  {
    if n == 0 then 0 else OpenCount(w, n - 1) + if w.Open(n - 1) then 1 else 0
  }

  lemma {:induction false} HeldPerSurface(w: World, n: nat)
    requires Conserved(w) && Settled(w) && n <= |w.surfaces|
    ensures SizeOf(w.surfaces[..n]) <= 2 * OpenCount(w, n)
  {
    if n == 0 {
    } else {
      HeldPerSurface(w, n - 1);
      SurfacesAppend(w.surfaces[..n - 1], w.surfaces[n - 1], 0);
      assert w.surfaces[..n] == w.surfaces[..n - 1] + [w.surfaces[n - 1]];
    }
  }

  /** In a run where every surface has the queue, once everything has been painted the atlas holds at most two
      textures per open surface: closed surfaces leave nothing behind. */
  lemma AtlasBounded(events: seq<Event>)
    requires Settled(Run(START, events))
    ensures var w := Run(START, events); w.minted - |w.released| <= 2 * OpenCount(w, |w.surfaces|)
  {
    var w := Run(START, events);
    RunConserves(events);
    HeldPerSurface(w, |w.surfaces|);
    assert w.surfaces[..|w.surfaces|] == w.surfaces;
  }

  // ----- what a closed surface leaves behind -----

  lemma {:induction false} ClosedStays(w: World, i: nat, later: seq<Event>)
    requires i < |w.surfaces| && i in w.closed
    ensures i < |Run(w, later).surfaces| && Run(w, later).surfaces[i] == w.surfaces[i]
    decreases |later|
  {
    if later == [] {
    } else {
      ClosedStaysOneStep(w, i, later[0]);
      ClosedStays(Step(w, later[0]), i, later[1..]);
    }
  }

  lemma ClosedStaysOneStep(w: World, i: nat, e: Event)
    requires i < |w.surfaces| && i in w.closed
    ensures var v := Step(w, e); i < |v.surfaces| && i in v.closed && v.surfaces[i] == w.surfaces[i]
  {
  }

  /** Whatever happens afterwards, a closed surface holds nothing if and only if it had the queue or was empty. */
  lemma ClosedEmptyIff(w: World, i: nat, later: seq<Event>)
    requires w.Open(i)
    ensures var v := Run(Step(w, Close(i)), later);
            && i < |v.surfaces|
            && (v.surfaces[i].Size() == 0 <==> w.surfaces[i].queued || w.surfaces[i].Size() == 0)
            && v.surfaces[i].Size() == (if w.surfaces[i].queued then 0 else w.surfaces[i].Size())
  {
    ClosedStays(Step(w, Close(i)), i, later);
  }

  lemma RunTwo(w: World, e: Event, f: Event)
    ensures Run(w, [e, f]) == Step(Step(w, e), f)
  {
    assert [e, f][1..] == [f] && [f][1..] == [];
    assert Run(Step(w, e), [f]) == Run(Step(Step(w, e), f), []);
  }

  /** A closed surface that had no queue keeps its image whatever is painted afterwards. */
  lemma WithoutQueueLeaks()
    ensures var w := Run(Run(START, [Create(false), Frame(0)]), [Close(0), PaintWorkbench]);
            Step(w, Event.Paint(0)) == w && w.released == [] && HeldBy(w.surfaces, 0) == 1
  {
    RunTwo(START, Create(false), Frame(0));
    var w := Run(START, [Create(false), Frame(0)]);
    assert Step(START, Create(false)).surfaces == [Surface(None, None, [], false)];
    assert Surface(None, None, [], false).WithFrame(0) == Surface(Some(0), None, [], false);
    assert w.surfaces == [Surface(Some(0), None, [], false)];
    RunTwo(w, Close(0), PaintWorkbench);
    var s := Surface(None, None, [0], false);
    assert w.surfaces[0].All() == [0];
    assert Run(w, [Close(0), PaintWorkbench]).surfaces == [s];
    assert HeldBy([s], 0) == s.Holds(0) + HeldBy([], 0) by { assert [s][1..] == []; }
    assert [0][..0] == [];
  }
}
