/** What strokes mean, and the shapes built from them: `apply_brush` and `apply_rectangle`. */
module Shapes {
  import opened Arithmetic
  import opened Basics
  import opened Images
  import opened Line
  import opened Raster

  // ----- what the strokes mean -----

  /** Recolouring twice with one colour recolours the union. */
  lemma RecoloredTwice(p: Picture, a: (int, int) -> bool, b: (int, int) -> bool, both: (int, int) -> bool, color: Rgba)
    requires forall u, v :: p.Inside(u, v) ==> both(u, v) == (a(u, v) || b(u, v))
    ensures Recolored(Recolored(p, a, color), b, color) == Recolored(p, both, color)
  {
    SamePixels(Recolored(Recolored(p, a, color), b, color), Recolored(p, both, color));
  }

  /** A stroked pixel has the stroke colour exactly when the stroke touches it or it had that colour before,
      and otherwise keeps what it had. */
  lemma StrokePixel(p: Picture, from: Point, to: Point, color: Rgba, width: U32, u: int, v: int)
    requires p.Inside(u, v)
    ensures var q := Stroked(p, from, to, color, width);
            && q.width == p.width && q.height == p.height
            && (q.At(u, v) == color <==> Touched(from, to, Radius(width), u, v) || p.At(u, v) == color)
            && (q.At(u, v) != p.At(u, v) ==> q.At(u, v) == color)
  {
    var q := Stroked(p, from, to, color, width);
    assert q.Inside(u, v);
  }

  /** Strokes of one colour commute. */
  lemma StrokesCommute(p: Picture, a: Point, b: Point, c: Point, d: Point, color: Rgba, w1: U32, w2: U32)
    ensures Stroked(Stroked(p, a, b, color, w1), c, d, color, w2) ==
            Stroked(Stroked(p, c, d, color, w2), a, b, color, w1)
  {
    var first := (u, v) => Touched(a, b, Radius(w1), u, v);
    var second := (u, v) => Touched(c, d, Radius(w2), u, v);
    var either := (u, v) => first(u, v) || second(u, v);
    RecoloredTwice(p, first, second, either, color);
    RecoloredTwice(p, second, first, either, color);
  }

  /** Repeating a stroke changes nothing. */
  lemma StrokeIdempotent(p: Picture, from: Point, to: Point, color: Rgba, width: U32)
    ensures Stroked(Stroked(p, from, to, color, width), from, to, color, width) == Stroked(p, from, to, color, width)
  {
    var touched := (u, v) => Touched(from, to, Radius(width), u, v);
    RecoloredTwice(p, touched, touched, touched, color);
  }

  // ----- the overhang past 2^32 -----

  /** The shortest offset from coordinate `c` to one whose cast to `u32` is below `size`. */
  function Nearest(c: U32, size: U32): nat
    requires size > 0
  {
    if c < size then 0 else Min(c - (size - 1), U32_SIZE - c)
  }

  /** The brush at `(x, y)` overhangs the coordinate range far enough for a cast to land back in the image. */
  predicate Overhangs(x: U32, y: U32, radius: int, width: U32, height: U32) {
    && width > 0 && height > 0
    && (InDisc(U32_SIZE - x, Nearest(y, height), radius) || InDisc(Nearest(x, width), U32_SIZE - y, radius))
  }

  lemma SquaresOrdered(a: int, b: int)
    requires 0 <= a <= Abs(b)
    ensures a * a <= b * b
  {
    SquareBound(a, Abs(b));
  }

  lemma CloserIsInDisc(a: int, b: int, dx: int, dy: int, radius: int)
    requires 0 <= a <= Abs(dx) && 0 <= b <= Abs(dy) && InDisc(dx, dy, radius)
    ensures InDisc(a, b, radius)
  {
    SquaresOrdered(a, dx);
    SquaresOrdered(b, dy);
  }

  lemma NearestIsNear(c: U32, size: U32, u: int, m: int)
    requires 0 <= u < size && (m == 0 || m == 1)
    ensures Nearest(c, size) <= Abs(u + m * U32_SIZE - c)
  {
  }

  lemma NearestReached(c: U32, size: U32) returns (u: int, m: int)
    requires size > 0
    ensures 0 <= u < size && (m == 0 || m == 1) && Abs(u + m * U32_SIZE - c) == Nearest(c, size)
  {
    if c < size { u, m := c, 0; }
    else if c - (size - 1) <= U32_SIZE - c { u, m := size - 1, 0; }
    else { u, m := 0, 1; }
  }

  lemma OffImageReach(x: U32, y: U32, radius: int, u: int, v: int, m: int, n: int, width: U32, height: U32)
    requires 0 <= u < width && 0 <= v < height && (m == 0 || m == 1) && (n == 0 || n == 1) && m + n > 0
    requires Reaches(x, y, radius, u, v, m, n)
    ensures Overhangs(x, y, radius, width, height)
  {
    var dx, dy := u + m * U32_SIZE - x, v + n * U32_SIZE - y;
    NearestIsNear(x, width, u, m);
    NearestIsNear(y, height, v, n);
    if m == 1 {
      CloserIsInDisc(U32_SIZE - x, Nearest(y, height), dx, dy, radius);
    } else {
      CloserIsInDisc(Nearest(x, width), U32_SIZE - y, dx, dy, radius);
    }
  }

  lemma SquareOfAbs(z: int)
    ensures z * z == Abs(z) * Abs(z)
  {
  }

  /** The far side of the coordinate range is outside every disc of a radius below 2^31. */
  lemma FarSideOutside(c: U32, radius: int, other: int)
    requires 0 <= radius < 0x8000_0000 && U32_SIZE - c <= radius
    ensures !InDisc(0 - c, other, radius) && !InDisc(other, 0 - c, radius)
  {
    SquareGrows(c, radius);
    SquareOfAbs(0 - c);
  }

  /** An overhanging brush stamps an image pixel on the far side of the coordinate it overhangs in. */
  lemma OverhangStamps(x: U32, y: U32, radius: int, width: U32, height: U32) returns (u: int, v: int)
    requires 0 <= radius && Overhangs(x, y, radius, width, height)
    ensures 0 <= u < width && 0 <= v < height && Stamped(x, y, radius, u, v)
    ensures (u == 0 && U32_SIZE - x <= radius) || (v == 0 && U32_SIZE - y <= radius)
  {
    if InDisc(U32_SIZE - x, Nearest(y, height), radius) {
      var n;
      u := 0;
      v, n := NearestReached(y, height);
      SquareOfAbs(v + n * U32_SIZE - y);
      assert Reaches(x, y, radius, 0, v, 1, n);
      DiscInBox(U32_SIZE - x, Nearest(y, height), radius);
    } else {
      var m;
      u, m := NearestReached(x, width);
      v := 0;
      SquareOfAbs(u + m * U32_SIZE - x);
      assert Reaches(x, y, radius, u, 0, m, 1);
      DiscInBox(Nearest(x, width), U32_SIZE - y, radius);
    }
  }

  lemma NoOverhangIsDisc(x: U32, y: U32, radius: int, width: U32, height: U32, u: int, v: int)
    requires !Overhangs(x, y, radius, width, height) && 0 <= u < width && 0 <= v < height
    ensures Stamped(x, y, radius, u, v) <==> InDisc(u - x, v - y, radius)
  {
    if Reaches(x, y, radius, u, v, 1, 0) { OffImageReach(x, y, radius, u, v, 1, 0, width, height); }
    if Reaches(x, y, radius, u, v, 0, 1) { OffImageReach(x, y, radius, u, v, 0, 1, width, height); }
    if Reaches(x, y, radius, u, v, 1, 1) { OffImageReach(x, y, radius, u, v, 1, 1, width, height); }
  }

  /** A brush paints exactly its disc, clipped to the image, if and only if it does not overhang. */
  lemma BrushIsDisc(x: U32, y: U32, radius: int, width: U32, height: U32)
    requires 0 <= radius < 0x8000_0000
    ensures (forall u, v | 0 <= u < width && 0 <= v < height ::
               Stamped(x, y, radius, u, v) <==> InDisc(u - x, v - y, radius))
            <==> !Overhangs(x, y, radius, width, height)
  {
    hide Overhangs, Stamped;
    if Overhangs(x, y, radius, width, height) {
      var u, v := OverhangStamps(x, y, radius, width, height);
      if u == 0 && U32_SIZE - x <= radius {
        FarSideOutside(x, radius, v - y);
      } else {
        FarSideOutside(y, radius, u - x);
      }
      assert !InDisc(u - x, v - y, radius);
    } else {
      forall u, v | 0 <= u < width && 0 <= v < height {
        NoOverhangIsDisc(x, y, radius, width, height, u, v);
      }
    }
  }

  // ----- the same for whole strokes -----

  /** Some centre of the line lies within `radius` of `(u, v)`. */
  ghost predicate NearLine(from: Point, to: Point, radius: int, u: int, v: int) {
    exists k: nat | k <= Span(from, to) :: InDisc(u - CentreX(from, to, k), v - CentreY(from, to, k), radius)
  }

  /** Some brush of the stroke overhangs the coordinate range onto the image. */
  ghost predicate StrokeOverhangs(from: Point, to: Point, radius: int, width: U32, height: U32) {
    exists k: nat | k <= Span(from, to) ::
      var x, y := CentreX(from, to, k), CentreY(from, to, k);
      0 <= x < U32_SIZE && 0 <= y < U32_SIZE && Overhangs(x, y, radius, width, height)
  }

  lemma CentreIsPoint(from: Point, to: Point, k: nat)
    requires k <= Span(from, to)
    ensures 0 <= CentreX(from, to, k) < U32_SIZE && 0 <= CentreY(from, to, k) < U32_SIZE
  {
    WalkInBox(from, to, k);
  }

  /** Far from both ends of the coordinate range at once: no centre is near the far side of another. */
  lemma FarSideOfLine(from: Point, to: Point, radius: int, u: int, v: int, k: nat, j: nat)
    requires 0 <= radius && k <= Span(from, to) && j <= Span(from, to) && Span(from, to) + 2 * radius < U32_SIZE
    requires || (u == 0 && U32_SIZE - CentreX(from, to, k) <= radius)
             || (v == 0 && U32_SIZE - CentreY(from, to, k) <= radius)
    ensures !InDisc(u - CentreX(from, to, j), v - CentreY(from, to, j), radius)
  {
    hide CentreX, CentreY, InDisc;
    WalkInBox(from, to, k);
    WalkInBox(from, to, j);
    var dx, dy := u - CentreX(from, to, j), v - CentreY(from, to, j);
    if InDisc(dx, dy, radius) {
      DiscInBox(dx, dy, radius);
    }
  }

  lemma OverhangingCentreShows(from: Point, to: Point, radius: int, width: U32, height: U32, k: nat)
    returns (u: int, v: int)
    requires 0 <= radius && k <= Span(from, to) && Span(from, to) + 2 * radius < U32_SIZE
    requires var x, y := CentreX(from, to, k), CentreY(from, to, k);
             0 <= x < U32_SIZE && 0 <= y < U32_SIZE && Overhangs(x, y, radius, width, height)
    ensures 0 <= u < width && 0 <= v < height
    ensures Touched(from, to, radius, u, v) && !NearLine(from, to, radius, u, v)
  {
    hide Overhangs, Stamped, InDisc, CentreX, CentreY;
    u, v := OverhangStamps(CentreX(from, to, k), CentreY(from, to, k), radius, width, height);
    assert k < Span(from, to) + 1;
    forall j: nat | j <= Span(from, to)
      ensures !InDisc(u - CentreX(from, to, j), v - CentreY(from, to, j), radius)
    {
      FarSideOfLine(from, to, radius, u, v, k, j);
    }
  }

  lemma SoundCentres(from: Point, to: Point, radius: int, width: U32, height: U32, u: int, v: int)
    requires !StrokeOverhangs(from, to, radius, width, height) && 0 <= u < width && 0 <= v < height
    ensures Touched(from, to, radius, u, v) <==> NearLine(from, to, radius, u, v)
  {
    hide Overhangs, Stamped, InDisc, CentreX, CentreY;
    forall k: nat | k <= Span(from, to)
      ensures Stamped(CentreX(from, to, k), CentreY(from, to, k), radius, u, v) <==>
              InDisc(u - CentreX(from, to, k), v - CentreY(from, to, k), radius)
    {
      CentreIsPoint(from, to, k);
      NoOverhangIsDisc(CentreX(from, to, k), CentreY(from, to, k), radius, width, height, u, v);
    }
  }

  /** A stroke recolours exactly the image pixels within the radius of some centre if and only if none of its brushes
      overhangs, for every line that together with its brush spans less than the coordinate range. */
  lemma StrokeIsDiscsIff(from: Point, to: Point, radius: int, width: U32, height: U32)
    requires 0 <= radius && Span(from, to) + 2 * radius < U32_SIZE
    ensures (forall u, v | 0 <= u < width && 0 <= v < height ::
               Touched(from, to, radius, u, v) <==> NearLine(from, to, radius, u, v))
            <==> !StrokeOverhangs(from, to, radius, width, height)
  {
    hide Touched, NearLine;
    if StrokeOverhangs(from, to, radius, width, height) {
      var k: nat :| k <= Span(from, to) && (
        var x, y := CentreX(from, to, k), CentreY(from, to, k);
        0 <= x < U32_SIZE && 0 <= y < U32_SIZE && Overhangs(x, y, radius, width, height));
      var u, v := OverhangingCentreShows(from, to, radius, width, height, k);
    } else {
      forall u, v | 0 <= u < width && 0 <= v < height {
        SoundCentres(from, to, radius, width, height, u, v);
      }
    }
  }

  /** A cast of some brush of the stroke wraps around onto an image pixel that no centre is near. */
  ghost predicate StrayCast(from: Point, to: Point, radius: int, width: U32, height: U32) {
    exists k: nat, u, v, m, n | k <= Span(from, to) && 0 <= u < width && 0 <= v < height ::
      && (m == 0 || m == 1) && (n == 0 || n == 1) && m + n > 0
      && Reaches(CentreX(from, to, k), CentreY(from, to, k), radius, u, v, m, n)
      && !NearLine(from, to, radius, u, v)
  }

  /** For every line whatsoever, a stroke recolours exactly the image pixels within the radius of some centre if and
      only if none of its casts goes astray. */
  lemma StrokeExactIff(from: Point, to: Point, radius: int, width: U32, height: U32)
    ensures (forall u, v | 0 <= u < width && 0 <= v < height ::
               Touched(from, to, radius, u, v) <==> NearLine(from, to, radius, u, v))
            <==> !StrayCast(from, to, radius, width, height)
  {
    hide CentreX, CentreY, InDisc;
    forall u, v | 0 <= u < width && 0 <= v < height
      ensures NearLine(from, to, radius, u, v) ==> Touched(from, to, radius, u, v)
    {
      if NearLine(from, to, radius, u, v) { NearIsTouched(from, to, radius, u, v); }
    }
    if StrayCast(from, to, radius, width, height) {
      var k: nat, u, v, m, n :| k <= Span(from, to) && 0 <= u < width && 0 <= v < height
        && (m == 0 || m == 1) && (n == 0 || n == 1) && m + n > 0
        && Reaches(CentreX(from, to, k), CentreY(from, to, k), radius, u, v, m, n)
        && !NearLine(from, to, radius, u, v);
      assert k < Span(from, to) + 1 && Stamped(CentreX(from, to, k), CentreY(from, to, k), radius, u, v);
      assert Touched(from, to, radius, u, v);
    } else {
      forall u, v | 0 <= u < width && 0 <= v < height && Touched(from, to, radius, u, v)
        ensures NearLine(from, to, radius, u, v)
      {
        TouchedIsNear(from, to, radius, width, height, u, v);
      }
    }
  }

  lemma NearIsTouched(from: Point, to: Point, radius: int, u: int, v: int)
    requires NearLine(from, to, radius, u, v)
    ensures Touched(from, to, radius, u, v)
  {
    hide CentreX, CentreY, InDisc;
    var k: nat :| k <= Span(from, to) && InDisc(u - CentreX(from, to, k), v - CentreY(from, to, k), radius);
    assert Reaches(CentreX(from, to, k), CentreY(from, to, k), radius, u, v, 0, 0);
    assert k < Span(from, to) + 1 && Stamped(CentreX(from, to, k), CentreY(from, to, k), radius, u, v);
  }

  lemma TouchedIsNear(from: Point, to: Point, radius: int, width: U32, height: U32, u: int, v: int)
    requires !StrayCast(from, to, radius, width, height) && 0 <= u < width && 0 <= v < height
    requires Touched(from, to, radius, u, v)
    ensures NearLine(from, to, radius, u, v)
  {
    hide CentreX, CentreY, InDisc, NearLine;
    var k: nat :| k < Span(from, to) + 1 && Stamped(CentreX(from, to, k), CentreY(from, to, k), radius, u, v);
    var x, y := CentreX(from, to, k), CentreY(from, to, k);
    if Reaches(x, y, radius, u, v, 0, 0) {
      CentreNear(from, to, radius, u, v, k);
    }
  }

  lemma CentreNear(from: Point, to: Point, radius: int, u: int, v: int, k: nat)
    requires k <= Span(from, to) && Reaches(CentreX(from, to, k), CentreY(from, to, k), radius, u, v, 0, 0)
    ensures NearLine(from, to, radius, u, v)
  {
    hide CentreX, CentreY, InDisc;
  }

  /** Whatever its length, a stroke whose coordinates plus radius stay below 2^32 is the union of plain discs. */
  lemma StrokeIsDiscs(from: Point, to: Point, radius: int, u: int, v: int)
    requires 0 <= radius && 0 <= u && 0 <= v
    requires Max(from.x, to.x) + radius < U32_SIZE && Max(from.y, to.y) + radius < U32_SIZE
    ensures Touched(from, to, radius, u, v) <==> NearLine(from, to, radius, u, v)
  {
    hide Stamped, InDisc, CentreX, CentreY;
    forall k: nat | k <= Span(from, to)
      ensures Stamped(CentreX(from, to, k), CentreY(from, to, k), radius, u, v) <==>
              InDisc(u - CentreX(from, to, k), v - CentreY(from, to, k), radius)
    {
      WalkInBox(from, to, k);
      NoOverhang(CentreX(from, to, k), CentreY(from, to, k), radius, u, v);
    }
  }

  lemma NoOverhang(x: int, y: int, radius: int, u: int, v: int)
    requires 0 <= radius && 0 <= u && 0 <= v && x + radius < U32_SIZE && y + radius < U32_SIZE
    ensures Stamped(x, y, radius, u, v) <==> InDisc(u - x, v - y, radius)
  {
    if Reaches(x, y, radius, u, v, 1, 0) { DiscInBox(u + U32_SIZE - x, v - y, radius); }
    if Reaches(x, y, radius, u, v, 0, 1) { DiscInBox(u - x, v + U32_SIZE - y, radius); }
    if Reaches(x, y, radius, u, v, 1, 1) { DiscInBox(u + U32_SIZE - x, v + U32_SIZE - y, radius); }
  }

  /** A brush of radius 1 at x = 2^32 - 1 paints the far corner of a one-pixel image. */
  lemma OverhangExample()
    ensures Stamped(0xffff_ffff, 0, 1, 0, 0) && !InDisc(0 - 0xffff_ffff, 0, 1)
  {
    assert Reaches(0xffff_ffff, 0, 1, 0, 0, 1, 0);
  }

  // ----- brush strokes and rectangles -----

  method ApplyBrush(image: array2<Rgba>, from: Point, to: Point)
    requires IsBuffer(image)
    modifies image
    ensures var width := Max(Min(image.Length1, image.Length0), 1) / 140 + 2;
            View(image) == Stroked(old(View(image)), from, to, MARK_COLOR, width)
  {
    var width: U32 := Max(Min(image.Length1, image.Length0), 1) / 140 + 2;
    ghost var _ := DrawLine(image, from, to, MARK_COLOR, width);
  }

  /** `(x, y)` lies on the outline of the rectangle. */
  predicate OnOutline(left: int, top: int, right: int, bottom: int, x: int, y: int) {
    && left <= x <= right && top <= y <= bottom
    && (x == left || x == right || y == top || y == bottom)
  }

  ghost predicate OutlineTouched(left: int, top: int, right: int, bottom: int, radius: int, u: int, v: int) {
    exists x, y | left <= x <= right && top <= y <= bottom ::
      OnOutline(left, top, right, bottom, x, y) && Stamped(x, y, radius, u, v)
  }

  lemma HorizontalCentre(a: U32, b: U32, y: U32, k: nat)
    requires k <= Abs(b - a)
    ensures var from, to := Point(a, y), Point(b, y);
            && Span(from, to) == Abs(b - a)
            && CentreX(from, to, k) == (if a < b then a + k else a - k) && CentreY(from, to, k) == y
  {
    AxisStep(k, Abs(b - a));
  }

  lemma VerticalCentre(x: U32, a: U32, b: U32, k: nat)
    requires k <= Abs(b - a)
    ensures var from, to := Point(x, a), Point(x, b);
            && Span(from, to) == Abs(b - a)
            && CentreY(from, to, k) == (if a < b then a + k else a - k) && CentreX(from, to, k) == x
  {
    AxisStep(k, Abs(b - a));
  }

  /** A horizontal line passes through exactly the points between its ends. */
  lemma HorizontalTouched(a: U32, b: U32, y: U32, radius: int, u: int, v: int)
    ensures Touched(Point(a, y), Point(b, y), radius, u, v) <==>
            exists x | Min(a, b) <= x <= Max(a, b) :: Stamped(x, y, radius, u, v)
  {
    hide Stamped, CentreX, CentreY;
    var from, to := Point(a, y), Point(b, y);
    if Touched(from, to, radius, u, v) {
      var k: nat :| k < Span(from, to) + 1 && Stamped(CentreX(from, to, k), CentreY(from, to, k), radius, u, v);
      HorizontalCentre(a, b, y, k);
    }
    if x :| Min(a, b) <= x <= Max(a, b) && Stamped(x, y, radius, u, v) {
      HorizontalCentre(a, b, y, Abs(x - a));
      assert Stamped(CentreX(from, to, Abs(x - a)), CentreY(from, to, Abs(x - a)), radius, u, v);
    }
  }

  lemma VerticalTouched(x: U32, a: U32, b: U32, radius: int, u: int, v: int)
    ensures Touched(Point(x, a), Point(x, b), radius, u, v) <==>
            exists y | Min(a, b) <= y <= Max(a, b) :: Stamped(x, y, radius, u, v)
  {
    hide Stamped, CentreX, CentreY;
    var from, to := Point(x, a), Point(x, b);
    if Touched(from, to, radius, u, v) {
      var k: nat :| k < Span(from, to) + 1 && Stamped(CentreX(from, to, k), CentreY(from, to, k), radius, u, v);
      VerticalCentre(x, a, b, k);
    }
    if y :| Min(a, b) <= y <= Max(a, b) && Stamped(x, y, radius, u, v) {
      VerticalCentre(x, a, b, Abs(y - a));
      assert Stamped(CentreX(from, to, Abs(y - a)), CentreY(from, to, Abs(y - a)), radius, u, v);
    }
  }

  lemma AxisStep(k: nat, n: nat)
    requires k <= n
    ensures Travelled(k, n, n) == k && Travelled(k, 0, n) == 0
  {
    if n > 0 {
      RoundExact(k, n);
      assert k * 0 == 0;
    }
  }

  /** The four sides together touch what some outline point's brush touches. */
  lemma OutlineIsFourSides(left: U32, top: U32, right: U32, bottom: U32, radius: int, u: int, v: int)
    requires left <= right && top <= bottom
    ensures OutlineTouched(left, top, right, bottom, radius, u, v) <==>
            || Touched(Point(left, top), Point(right, top), radius, u, v)
            || Touched(Point(right, top), Point(right, bottom), radius, u, v)
            || Touched(Point(right, bottom), Point(left, bottom), radius, u, v)
            || Touched(Point(left, bottom), Point(left, top), radius, u, v)
  {
    hide Touched, Stamped;
    HorizontalTouched(left, right, top, radius, u, v);
    VerticalTouched(right, top, bottom, radius, u, v);
    HorizontalTouched(right, left, bottom, radius, u, v);
    VerticalTouched(left, bottom, top, radius, u, v);
  }

  method ApplyRectangle(image: array2<Rgba>, from: Point, to: Point)
    requires IsBuffer(image)
    modifies image
    ensures var radius := Radius(Max(Min(image.Length1, image.Length0), 1) / 180 + 2);
            View(image) == Recolored(old(View(image)), (u, v) =>
              OutlineTouched(Min(from.x, to.x), Min(from.y, to.y), Max(from.x, to.x), Max(from.y, to.y), radius, u, v),
              MARK_COLOR)
  {
    var left: U32, right: U32 := Min(from.x, to.x), Max(from.x, to.x);
    var top: U32, bottom: U32 := Min(from.y, to.y), Max(from.y, to.y);
    var width: U32 := Max(Min(image.Length1, image.Length0), 1) / 180 + 2;
    ghost var p := View(image);
    ghost var _ := DrawLine(image, Point(left, top), Point(right, top), MARK_COLOR, width);
    ghost var _ := DrawLine(image, Point(right, top), Point(right, bottom), MARK_COLOR, width);
    ghost var _ := DrawLine(image, Point(right, bottom), Point(left, bottom), MARK_COLOR, width);
    ghost var _ := DrawLine(image, Point(left, bottom), Point(left, top), MARK_COLOR, width);
    FourSides(p, left, top, right, bottom, width);
  }

  lemma FourSides(p: Picture, left: U32, top: U32, right: U32, bottom: U32, width: U32)
    requires left <= right && top <= bottom
    ensures var q1 := Stroked(p, Point(left, top), Point(right, top), MARK_COLOR, width);
            var q2 := Stroked(q1, Point(right, top), Point(right, bottom), MARK_COLOR, width);
            var q3 := Stroked(q2, Point(right, bottom), Point(left, bottom), MARK_COLOR, width);
            var q4 := Stroked(q3, Point(left, bottom), Point(left, top), MARK_COLOR, width);
            q4 == Recolored(p, (u, v) => OutlineTouched(left, top, right, bottom, Radius(width), u, v), MARK_COLOR)
  {
    hide Touched, OutlineTouched, Recolored;
    var r := Radius(width);
    var t1 := (u, v) => Touched(Point(left, top), Point(right, top), r, u, v);
    var t2 := (u, v) => Touched(Point(right, top), Point(right, bottom), r, u, v);
    var t3 := (u, v) => Touched(Point(right, bottom), Point(left, bottom), r, u, v);
    var t4 := (u, v) => Touched(Point(left, bottom), Point(left, top), r, u, v);
    var t12 := (u, v) => t1(u, v) || t2(u, v);
    var t123 := (u, v) => t12(u, v) || t3(u, v);
    RecoloredTwice(p, t1, t2, t12, MARK_COLOR);
    RecoloredTwice(p, t12, t3, t123, MARK_COLOR);
    var outline := (u, v) => OutlineTouched(left, top, right, bottom, r, u, v);
    forall u, v | p.Inside(u, v)
      ensures outline(u, v) == (t123(u, v) || t4(u, v))
    {
      OutlineIsFourSides(left, top, right, bottom, r, u, v);
    }
    RecoloredTwice(p, t123, t4, outline, MARK_COLOR);
  }
}
