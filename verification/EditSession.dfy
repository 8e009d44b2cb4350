/** `ImageEditSession`: a bounded undo/redo history, refining a timeline with a cursor. */
module EditSession {
  import opened Basics
  import opened Images

  const MAX_EDIT_HISTORY: nat := 64

  // ----- the timeline -----

  /** Every image the session can show by undoing and redoing, oldest first, and which one it shows. */
  datatype Timeline = Timeline(entries: seq<Picture>, cursor: nat) {
    predicate Valid() { cursor < |entries| <= MAX_EDIT_HISTORY + 1 }

    function Current(): Picture
      requires Valid()
    {
      entries[cursor]
    }

    /** The newest `MAX_EDIT_HISTORY + 1` of the images, standing at the last. */
    static function Newest(images: seq<Picture>): (t: Timeline)
      requires |images| > 0
      ensures t.Valid()
    {
      var kept := Min(|images|, MAX_EDIT_HISTORY + 1);
      Timeline(images[|images| - kept..], kept - 1)
    }
  }

  datatype Edit = Preview(image: Picture) | Commit(image: Picture) | CommitGesture(base: Picture) | Undo | Redo

  function Step(t: Timeline, e: Edit): (r: Timeline)
    requires t.Valid()
    ensures r.Valid()
  {
    match e
    case Preview(image) => t.(entries := t.entries[t.cursor := image])
    case Commit(image) =>
      if t.Current() == image then t else Timeline.Newest(t.entries[..t.cursor + 1] + [image])
    case CommitGesture(base) =>
      if base == t.Current() then t else Timeline.Newest(t.entries[..t.cursor] + [base, t.Current()])
    case Undo => if t.cursor == 0 then t else t.(cursor := t.cursor - 1)
    case Redo => if t.cursor + 1 == |t.entries| then t else t.(cursor := t.cursor + 1)
  }

  /** What the operation reports: whether it did anything. A preview reports nothing. */
  predicate Reports(t: Timeline, e: Edit)
    requires t.Valid()
  {
    match e
    case Preview(_) => false
    case Commit(image) => t.Current() != image
    case CommitGesture(base) => t.Current() != base
    case Undo => t.cursor > 0
    case Redo => t.cursor + 1 < |t.entries|
  }

  function Run(t: Timeline, edits: seq<Edit>): (r: Timeline)
    requires t.Valid()
    ensures r.Valid()
    decreases |edits|
  {
    if edits == [] then t else Run(Step(t, edits[0]), edits[1..])
  }

  function Reversed(s: seq<Picture>): (r: seq<Picture>)
    ensures |r| == |s|
    ensures forall i :: 0 <= i < |s| ==> r[i] == s[|s| - 1 - i]
  {
    if s == [] then [] else Reversed(s[1..]) + [s[0]]
  }

  /** The timeline behind the three fields of a session. */
  function TimelineOf(current: Picture, undo: seq<Picture>, redo: seq<Picture>): Timeline {
    Timeline(undo + [current] + Reversed(redo), |undo|)
  }

  /** The timeline loses nothing: it determines all three fields. */
  lemma TimelineDetermines(c: Picture, u: seq<Picture>, r: seq<Picture>,
                           c': Picture, u': seq<Picture>, r': seq<Picture>)
    requires TimelineOf(c, u, r) == TimelineOf(c', u', r')
    ensures c == c' && u == u' && r == r'
  {
    var t, t' := TimelineOf(c, u, r), TimelineOf(c', u', r');
    assert u == t.entries[..t.cursor] && u' == t'.entries[..t'.cursor];
    assert c == t.entries[t.cursor] && c' == t'.entries[t'.cursor];
    assert Reversed(r) == t.entries[t.cursor + 1..] && Reversed(r') == t'.entries[t'.cursor + 1..];
    assert forall i :: 0 <= i < |r| ==> r[i] == Reversed(r)[|r| - 1 - i];
  }

  // ----- the session -----

  class ImageEditSession {
    var current: Picture
    var undo: seq<Picture>
    var redo: seq<Picture>

    ghost function History(): Timeline
      reads this
    {
      TimelineOf(current, undo, redo)
    }

    /** Undo and redo entries together never exceed the bound. */
    ghost predicate Valid()
      reads this
    {
      |undo| + |redo| <= MAX_EDIT_HISTORY
    }

    constructor (image: Picture)
      ensures Valid() && History() == Timeline([image], 0)
    {
      current := image;
      undo := [];
      redo := [];
    }

    method ShowPreview(image: Picture)
      requires Valid()
      modifies this
      ensures Valid() && History() == Step(old(History()), Preview(image))
    {
      current := image;
    }

    method CommitImage(image: Picture) returns (changed: bool)
      requires Valid()
      modifies this
      ensures Valid() && History() == Step(old(History()), Commit(image))
      ensures changed == Reports(old(History()), Commit(image))
    {
      ghost var before := History();
      var previous := current;
      if previous == image {
        return false;
      }
      current := image;
      PushUndo(previous);
      redo := [];
      assert before.entries[..before.cursor + 1] + [image] == old(undo) + [previous, image];
      return true;
    }

    method CommitGestureFrom(base: Picture) returns (changed: bool)
      requires Valid()
      modifies this
      ensures Valid() && History() == Step(old(History()), CommitGesture(base))
      ensures changed == Reports(old(History()), CommitGesture(base))
    {
      ghost var before := History();
      if base == current {
        return false;
      }
      PushUndo(base);
      redo := [];
      assert before.entries[..before.cursor] + [base, current] == old(undo) + [base, current];
      return true;
    }

    method UndoEdit() returns (changed: bool)
      requires Valid()
      modifies this
      ensures Valid() && History() == Step(old(History()), Undo)
      ensures changed == Reports(old(History()), Undo)
    {
      if undo == [] {
        return false;
      }
      var previous := undo[|undo| - 1];
      undo := undo[..|undo| - 1];
      var shown := current;
      current := previous;
      redo := redo + [shown];
      return true;
    }

    method RedoEdit() returns (changed: bool)
      requires Valid()
      modifies this
      ensures Valid() && History() == Step(old(History()), Redo)
      ensures changed == Reports(old(History()), Redo)
    {
      if redo == [] {
        return false;
      }
      var next := redo[|redo| - 1];
      redo := redo[..|redo| - 1];
      var shown := current;
      current := next;
      PushUndo(shown);
      return true;
    }

    method PushUndo(image: Picture)
      requires |undo| <= MAX_EDIT_HISTORY
      modifies this`undo
      ensures var all := old(undo) + [image]; undo == all[|all| - Min(|all|, MAX_EDIT_HISTORY)..]
    {
      if |undo| == MAX_EDIT_HISTORY {
        undo := undo[1..];
      }
      undo := undo + [image];
    }
  }

  // ----- laws of every run -----

  function Repeat(e: Edit, n: nat): (s: seq<Edit>)
    ensures |s| == n && forall i :: 0 <= i < n ==> s[i] == e
  {
    seq(n, _ => e)
  }

  lemma {:induction false} RunConcat(t: Timeline, a: seq<Edit>, b: seq<Edit>)
    requires t.Valid()
    ensures Run(t, a + b) == Run(Run(t, a), b)
    decreases |a|
  {
    if a == [] {
      assert a + b == b;
    } else {
      assert (a + b)[1..] == a[1..] + b;
      RunConcat(Step(t, a[0]), a[1..], b);
    }
  }

  lemma {:induction false} UndosMoveBack(t: Timeline, n: nat)
    requires t.Valid() && n <= t.cursor
    ensures Run(t, Repeat(Undo, n)) == t.(cursor := t.cursor - n)
    decreases n
  {
    if n == 0 {
    } else {
      assert Repeat(Undo, n)[1..] == Repeat(Undo, n - 1);
      UndosMoveBack(Step(t, Undo), n - 1);
    }
  }

  lemma {:induction false} RedosMoveOn(t: Timeline, n: nat)
    requires t.Valid() && t.cursor + n < |t.entries|
    ensures Run(t, Repeat(Redo, n)) == t.(cursor := t.cursor + n)
    decreases n
  {
    if n == 0 {
    } else {
      assert Repeat(Redo, n)[1..] == Repeat(Redo, n - 1);
      RedosMoveOn(Step(t, Redo), n - 1);
    }
  }

  /** As many redos as undos restore the whole state: no redo ever evicts an undo entry. */
  lemma UndoRedoRestores(t: Timeline, n: nat)
    requires t.Valid() && n <= t.cursor
    ensures Run(t, Repeat(Undo, n) + Repeat(Redo, n)) == t
  {
    RunConcat(t, Repeat(Undo, n), Repeat(Redo, n));
    UndosMoveBack(t, n);
    RedosMoveOn(t.(cursor := t.cursor - n), n);
  }

  /** Committing the image already shown does nothing and says so: redo stays. */
  lemma NoChangeKeeps(t: Timeline)
    requires t.Valid()
    ensures Step(t, Commit(t.Current())) == t == Step(t, CommitGesture(t.Current()))
    ensures !Reports(t, Commit(t.Current())) && !Reports(t, CommitGesture(t.Current()))
  {
  }

  /** Undoing as far as one likes, committing the image then shown, by either operation, and redoing gives back the
      whole state. */
  lemma NoChangeBetween(t: Timeline, n: nat, gesture: bool)
    requires t.Valid() && n <= t.cursor
    ensures var shown := t.entries[t.cursor - n];
            var nothing := if gesture then CommitGesture(shown) else Commit(shown);
            Run(t, Repeat(Undo, n) + [nothing] + Repeat(Redo, n)) == t
  {
    var back := t.(cursor := t.cursor - n);
    var nothing := if gesture then CommitGesture(back.Current()) else Commit(back.Current());
    RunConcat(t, Repeat(Undo, n) + [nothing], Repeat(Redo, n));
    RunConcat(t, Repeat(Undo, n), [nothing]);
    UndosMoveBack(t, n);
    NoChangeKeeps(back);
    RunOne(back, nothing);
    RedosMoveOn(back, n);
  }

  lemma RunOne(t: Timeline, e: Edit)
    requires t.Valid()
    ensures Run(t, [e]) == Step(t, e)
  {
    assert [e][1..] == [];
  }

  /** A commit of another image shows it, drops redo, and one undo shows what was shown before. */
  lemma CommitMeans(t: Timeline, image: Picture)
    requires t.Valid() && image != t.Current()
    ensures var r := Step(t, Commit(image));
            && Reports(t, Commit(image)) && r.Current() == image && !Reports(r, Redo)
            && r.cursor == Min(t.cursor + 1, MAX_EDIT_HISTORY) && Step(r, Undo).Current() == t.Current()
  {
  }

  /** A gesture that changed the image keeps showing it, drops redo, and one undo shows the base. */
  lemma GestureMeans(t: Timeline, base: Picture)
    requires t.Valid() && base != t.Current()
    ensures var r := Step(t, CommitGesture(base));
            && Reports(t, CommitGesture(base)) && r.Current() == t.Current() && !Reports(r, Redo)
            && r.cursor == Min(t.cursor + 1, MAX_EDIT_HISTORY) && Step(r, Undo).Current() == base
  {
  }

  /** A preview shows its image and changes nothing else. */
  lemma PreviewMeans(t: Timeline, image: Picture)
    requires t.Valid()
    ensures var r := Step(t, Preview(image));
            && r.Current() == image && r.cursor == t.cursor && |r.entries| == |t.entries|
            && forall i :: 0 <= i < |t.entries| && i != t.cursor ==> r.entries[i] == t.entries[i]
  {
  }

  /** Undo and redo report exactly whether there is somewhere to go, and otherwise do nothing. */
  lemma UndoRedoReport(t: Timeline)
    requires t.Valid()
    ensures Reports(t, Undo) <==> t.cursor > 0
    ensures Reports(t, Redo) <==> t.cursor + 1 < |t.entries|
    ensures t.cursor == 0 ==> Step(t, Undo) == t
    ensures t.cursor + 1 == |t.entries| ==> Step(t, Redo) == t
  {
  }

  lemma {:induction false} PreviewsShowTheLast(t: Timeline, images: seq<Picture>)
    requires t.Valid()
    ensures Run(t, seq(|images|, i requires 0 <= i < |images| => Preview(images[i]))) ==
            if images == [] then t else Step(t, Preview(images[|images| - 1]))
    decreases |images|
  {
    if images == [] {
    } else {
      var edits := seq(|images|, i requires 0 <= i < |images| => Preview(images[i]));
      var rest := images[1..];
      assert edits[1..] == seq(|rest|, i requires 0 <= i < |rest| => Preview(rest[i]));
      PreviewsShowTheLast(Step(t, edits[0]), rest);
    }
  }

  /** Previewing any images and committing the gesture from the image it started on is one commit of the last
      preview: same history, same report, and when nothing changed the redo entries stay. */
  lemma GestureIsOneCommit(t: Timeline, images: seq<Picture>)
    requires t.Valid()
    ensures var shown := Run(t, seq(|images|, i requires 0 <= i < |images| => Preview(images[i])));
            var commit := Commit(if images == [] then t.Current() else images[|images| - 1]);
            && Step(shown, CommitGesture(t.Current())) == Step(t, commit)
            && Reports(shown, CommitGesture(t.Current())) == Reports(t, commit)
  {
    PreviewsShowTheLast(t, images);
    if images != [] {
      var last := images[|images| - 1];
      var shown := Step(t, Preview(last));
      assert shown.entries[..t.cursor] + [t.Current(), last] == t.entries[..t.cursor + 1] + [last];
      if last == t.Current() { assert shown.entries == t.entries; }
    }
  }

  /** Each image differs from the one before it, the first from `shown`. */
  predicate AllChange(shown: Picture, images: seq<Picture>)
    decreases |images|
  {
    images == [] || (images[0] != shown && AllChange(images[0], images[1..]))
  }

  /** A run of commits, each a change, keeps exactly the newest 65 images of the whole past. */
  lemma {:induction false} CommitsKeepNewest(t: Timeline, images: seq<Picture>)
    requires t.Valid() && images != [] && AllChange(t.Current(), images)
    ensures Run(t, seq(|images|, i requires 0 <= i < |images| => Commit(images[i]))) ==
            Timeline.Newest(t.entries[..t.cursor + 1] + images)
    decreases |images|
  {
    var edits := seq(|images|, i requires 0 <= i < |images| => Commit(images[i]));
    var rest := images[1..];
    var next := Step(t, edits[0]);
    var past := t.entries[..t.cursor + 1] + [images[0]];
    assert edits[0] == Commit(images[0]) && next == Timeline.Newest(past);
    assert edits[1..] == seq(|rest|, i requires 0 <= i < |rest| => Commit(rest[i]));
    assert past + rest == t.entries[..t.cursor + 1] + images;
    if rest == [] {
      assert past == past + rest;
    } else {
      CommitsKeepNewest(next, rest);
      NewestOfNewest(past, rest);
    }
  }

  lemma NewestOfNewest(past: seq<Picture>, more: seq<Picture>)
    requires past != []
    ensures var t := Timeline.Newest(past);
            Timeline.Newest(t.entries[..t.cursor + 1] + more) == Timeline.Newest(past + more)
  {
    var t := Timeline.Newest(past);
    assert t.entries[..t.cursor + 1] == t.entries;
    var a, b := Timeline.Newest(t.entries + more), Timeline.Newest(past + more);
    assert a.entries == b.entries;
  }

  /** After those commits, `n` undos show the image `n` steps before the last, for every `n` the bound keeps. */
  lemma UndosWalkThePast(t: Timeline, images: seq<Picture>, n: nat)
    requires t.Valid() && images != [] && AllChange(t.Current(), images)
    requires n <= MAX_EDIT_HISTORY && n <= t.cursor + |images|
    ensures var committed := seq(|images|, i requires 0 <= i < |images| => Commit(images[i]));
            var past := t.entries[..t.cursor + 1] + images;
            Run(t, committed + Repeat(Undo, n)).Current() == past[|past| - 1 - n]
  {
    var committed := seq(|images|, i requires 0 <= i < |images| => Commit(images[i]));
    RunConcat(t, committed, Repeat(Undo, n));
    CommitsKeepNewest(t, images);
    UndosMoveBack(Run(t, committed), n);
  }
}
