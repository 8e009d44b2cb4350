/** Which image is where: what each step does to a surface, what a surface shows after any run, and that painting
    everything settles the atlas. */
module TextureLaws {
  import opened Basics
  import opened Textures

  // ----- one step -----

  /** A frame is shown and the one before it parked; nothing else moves. */
  lemma FrameMeans(w: World, i: nat)
    requires w.Open(i)
    ensures var v, s := Step(w, Frame(i)), w.surfaces[i];
            && |v.surfaces| == |w.surfaces| && v.surfaces == w.surfaces[i := v.surfaces[i]]
            && v.surfaces[i].frame == Some(w.minted) && v.surfaces[i].favicon == s.favicon
            && v.surfaces[i].pending == (if s.frame.Some? then s.pending + [s.frame.value] else s.pending)
            && v.orphans == w.orphans && v.released == w.released && v.minted == w.minted + 1 && v.Open(i)
  {
  }

  /** A favicon is shown and the one before it parked; nothing else moves. */
  lemma FaviconMeans(w: World, i: nat)
    requires w.Open(i)
    ensures var v, s := Step(w, Favicon(i)), w.surfaces[i];
            && |v.surfaces| == |w.surfaces| && v.surfaces == w.surfaces[i := v.surfaces[i]]
            && v.surfaces[i].favicon == Some(w.minted) && v.surfaces[i].frame == s.frame
            && v.surfaces[i].pending == (if s.favicon.Some? then s.pending + [s.favicon.value] else s.pending)
            && v.orphans == w.orphans && v.released == w.released && v.minted == w.minted + 1 && v.Open(i)
  {
  }

  /** A tab change parks the frame and keeps the favicon. */
  lemma ChangeTabMeans(w: World, i: nat)
    requires w.Open(i)
    ensures var v, s := Step(w, ChangeTab(i)), w.surfaces[i];
            && |v.surfaces| == |w.surfaces| && v.surfaces == w.surfaces[i := v.surfaces[i]]
            && v.surfaces[i].frame == None && v.surfaces[i].favicon == s.favicon
            && v.surfaces[i].pending == (if s.frame.Some? then s.pending + [s.frame.value] else s.pending)
            && v.orphans == w.orphans && v.released == w.released && v.minted == w.minted && v.Open(i)
  {
  }

  /** A paint releases what is parked, in order, and keeps showing frame and favicon; a paint of the workbench releases
      the queue. */
  lemma PaintMeans(w: World, i: nat)
    requires w.Open(i)
    ensures var v, s := Step(w, Event.Paint(i)), w.surfaces[i];
            && |v.surfaces| == |w.surfaces| && v.surfaces == w.surfaces[i := v.surfaces[i]]
            && v.surfaces[i] == s.(pending := []) && v.released == w.released + s.pending
            && v.orphans == w.orphans && v.minted == w.minted && v.closed == w.closed
    ensures var v := Step(w, PaintWorkbench);
            v.orphans == [] && v.released == w.released + w.orphans && v.surfaces == w.surfaces
  {
  }

  /** A retired surface shows nothing; with the queue it holds nothing and the queue has all it held. Closing does the
      same and ends the surface. */
  lemma RetireMeans(w: World, i: nat)
    requires w.Open(i)
    ensures var v, s, c := Step(w, Retire(i)), w.surfaces[i], Step(w, Close(i));
            && |v.surfaces| == |w.surfaces| && v.surfaces == w.surfaces[i := v.surfaces[i]]
            && v.surfaces[i].frame == None && v.surfaces[i].favicon == None && v.Open(i)
            && (if s.queued then v.surfaces[i].pending == [] && v.orphans == w.orphans + s.All()
                else v.surfaces[i].pending == s.All() && v.orphans == w.orphans)
            && c == v.(closed := w.closed + {i}) && !c.Open(i)
    ensures forall image :: image in w.surfaces[i].All() <==>
              || image in w.surfaces[i].pending
              || w.surfaces[i].frame == Some(image) || w.surfaces[i].favicon == Some(image)
  {
  }

  // ----- what is shown after a run -----

  lemma {:induction false} RunConcat(w: World, a: seq<Event>, b: seq<Event>)
    ensures Run(w, a + b) == Run(Run(w, a), b)
    decreases |a|
  {
    if a == [] {
      assert a + b == b;
    } else {
      assert (a + b)[1..] == a[1..] + b;
      RunConcat(Step(w, a[0]), a[1..], b);
    }
  }

  predicate TouchesFrame(e: Event, i: nat) {
    e == Frame(i) || e == ChangeTab(i) || e == Retire(i) || e == Close(i)
  }

  predicate TouchesFavicon(e: Event, i: nat) {
    e == Favicon(i) || e == Retire(i) || e == Close(i)
  }

  lemma {:induction false} FrameStays(w: World, i: nat, later: seq<Event>)
    requires i < |w.surfaces| && forall e :: e in later ==> !TouchesFrame(e, i)
    ensures i < |Run(w, later).surfaces| && Run(w, later).surfaces[i].frame == w.surfaces[i].frame
    decreases |later|
  {
    if later == [] {
    } else {
      assert later[0] in later;
      FrameStays(Step(w, later[0]), i, later[1..]);
    }
  }

  lemma {:induction false} FaviconStays(w: World, i: nat, later: seq<Event>)
    requires i < |w.surfaces| && forall e :: e in later ==> !TouchesFavicon(e, i)
    ensures i < |Run(w, later).surfaces| && Run(w, later).surfaces[i].favicon == w.surfaces[i].favicon
    decreases |later|
  {
    if later == [] {
    } else {
      assert later[0] in later;
      FaviconStays(Step(w, later[0]), i, later[1..]);
    }
  }

  lemma RunOneMore(w: World, earlier: seq<Event>, e: Event, later: seq<Event>)
    ensures Run(w, earlier + [e] + later) == Run(Step(Run(w, earlier), e), later)
  {
    RunConcat(w, earlier + [e], later);
    RunConcat(w, earlier, [e]);
    assert [e][1..] == [];
    assert Run(Run(w, earlier), [e]) == Run(Step(Run(w, earlier), e), []);
  }

  /** In every run a surface shows the image of its latest frame, and none after a tab change or a retirement, until the
      next of these. */
  lemma LatestFrameShown(w: World, earlier: seq<Event>, e: Event, later: seq<Event>, i: nat)
    requires Run(w, earlier).Open(i) && TouchesFrame(e, i)
    requires forall x :: x in later ==> !TouchesFrame(x, i)
    ensures var v := Run(w, earlier + [e] + later);
            && i < |v.surfaces|
            && v.surfaces[i].frame == if e == Frame(i) then Some(Run(w, earlier).minted) else None
  {
    RunOneMore(w, earlier, e, later);
    FrameStays(Step(Run(w, earlier), e), i, later);
  }

  /** In every run a surface shows the image of its latest favicon, and none after a retirement, until the next. */
  lemma LatestFaviconShown(w: World, earlier: seq<Event>, e: Event, later: seq<Event>, i: nat)
    requires Run(w, earlier).Open(i) && TouchesFavicon(e, i)
    requires forall x :: x in later ==> !TouchesFavicon(x, i)
    ensures var v := Run(w, earlier + [e] + later);
            && i < |v.surfaces|
            && v.surfaces[i].favicon == if e == Favicon(i) then Some(Run(w, earlier).minted) else None
  {
    RunOneMore(w, earlier, e, later);
    FaviconStays(Step(Run(w, earlier), e), i, later);
  }

  // ----- painting everything -----

  /** A paint of each of the first `n` surfaces. */
  function PaintEach(n: nat): (events: seq<Event>)
    ensures |events| == n
  {
    if n == 0 then [] else PaintEach(n - 1) + [Event.Paint(n - 1)]
  }

  lemma {:induction false} EachPainted(w: World, n: nat)
    requires n <= |w.surfaces|
    ensures var v := Run(w, PaintEach(n));
            && |v.surfaces| == |w.surfaces| && v.closed == w.closed
            && (forall i :: 0 <= i < |w.surfaces| ==> v.surfaces[i].queued == w.surfaces[i].queued)
            && (forall i :: 0 <= i < n && w.Open(i) ==> v.surfaces[i].pending == [])
  {
    if n == 0 {
    } else {
      EachPainted(w, n - 1);
      RunOneMore(w, PaintEach(n - 1), Event.Paint(n - 1), []);
      assert PaintEach(n - 1) + [Event.Paint(n - 1)] + [] == PaintEach(n);
    }
  }

  /** After any run in which every surface has the queue, painting every surface and the workbench leaves at most two
      textures per open surface in the atlas. */
  lemma PaintingSettles(events: seq<Event>)
    requires forall s :: s in Run(START, events).surfaces ==> s.queued
    ensures var w := Run(START, events);
            var v := Run(START, events + (PaintEach(|w.surfaces|) + [PaintWorkbench]));
            Settled(v) && v.minted - |v.released| <= 2 * OpenCount(v, |v.surfaces|)
  {
    var w := Run(START, events);
    var paints := PaintEach(|w.surfaces|) + [PaintWorkbench];
    RunConcat(START, events, paints);
    EachPainted(w, |w.surfaces|);
    RunOneMore(w, PaintEach(|w.surfaces|), PaintWorkbench, []);
    assert paints + [] == paints;
    AtlasBounded(events + paints);
  }
}
