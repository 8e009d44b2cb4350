/** Drawing on a pixel buffer: `paint_brush` and `draw_line`. */
module Raster {
  import opened Arithmetic
  import opened Basics
  import opened Images
  import opened Line

  const MARK_COLOR := Rgba(235, 67, 67, 255)

  /** An image buffer: width and height are `u32`. */
  predicate IsBuffer(image: array2<Rgba>) { image.Length0 < U32_SIZE && image.Length1 < U32_SIZE }

  // ----- which pixels a brush reaches -----

  predicate InDisc(dx: int, dy: int, radius: int) { dx * dx + dy * dy <= radius * radius }

  /** The disc pixel reached by offset `(u + m * 2^32 - x, v + n * 2^32 - y)`: casting it to `u32` lands on `(u, v)`. */
  predicate Reaches(x: int, y: int, radius: int, u: int, v: int, m: int, n: int) {
    InDisc(u + m * U32_SIZE - x, v + n * U32_SIZE - y, radius)
  }

  /** The pixels `paint_brush` writes around `(x, y)`: the disc, and what its overhang past 2^32 wraps to. */
  predicate Stamped(x: int, y: int, radius: int, u: int, v: int) {
    || Reaches(x, y, radius, u, v, 0, 0)
    || Reaches(x, y, radius, u, v, 1, 0)
    || Reaches(x, y, radius, u, v, 0, 1)
    || Reaches(x, y, radius, u, v, 1, 1)
  }

  /** The picture with the chosen pixels recoloured. */
  ghost function Recolored(p: Picture, chosen: (int, int) -> bool, color: Rgba): (q: Picture) {
    Build(p.width, p.height, (u, v) requires p.Inside(u, v) => if chosen(u, v) then color else p.At(u, v))
  }

  // ----- paint_brush -----

  /** `(u, v)` is reached through the wrap `(m, n)` by an offset that comes before `(ox, oy)` in row order. */
  predicate ReachesBefore(x: int, y: int, radius: int, u: int, v: int, m: int, n: int, ox: int, oy: int) {
    && Reaches(x, y, radius, u, v, m, n)
    && (v + n * U32_SIZE - y < oy || (v + n * U32_SIZE - y == oy && u + m * U32_SIZE - x < ox))
  }

  predicate StampedBefore(x: int, y: int, radius: int, u: int, v: int, ox: int, oy: int) {
    || ReachesBefore(x, y, radius, u, v, 0, 0, ox, oy)
    || ReachesBefore(x, y, radius, u, v, 1, 0, ox, oy)
    || ReachesBefore(x, y, radius, u, v, 0, 1, ox, oy)
    || ReachesBefore(x, y, radius, u, v, 1, 1, ox, oy)
  }

  lemma SquareBound(o: int, radius: int)
    requires -radius <= o <= radius
    ensures 0 <= o * o <= radius * radius
  {
    if o >= 0 { MulMonotone(o, radius, o); MulMonotone(o, radius, radius); }
    else { MulMonotone(-o, radius, -o); MulMonotone(-o, radius, radius); }
  }

  lemma DiscInBox(dx: int, dy: int, radius: int)
    requires radius >= 0 && InDisc(dx, dy, radius)
    ensures -radius <= dx <= radius && -radius <= dy <= radius
  {
    if Abs(dx) > radius { SquareGrows(Abs(dx), radius); }
    if Abs(dy) > radius { SquareGrows(Abs(dy), radius); }
  }

  lemma SquareGrows(o: int, radius: int)
    requires 0 <= radius < o
    ensures o * o > radius * radius
  {
    MulMonotone(radius, o, radius);
    assert o * o == o * radius + o * (o - radius);
  }

  /** Visiting one more offset adds the one pixel its cast lands on. */
  lemma StampOffset(x: U32, y: U32, radius: int, u: U32, v: U32, ox: int, oy: int)
    requires 0 <= radius < 0x8000_0000 && -radius <= ox <= radius && -radius <= oy <= radius
    ensures StampedBefore(x, y, radius, u, v, ox + 1, oy) <==>
            || StampedBefore(x, y, radius, u, v, ox, oy)
            || (&& InDisc(ox, oy, radius) && x + ox >= 0 && y + oy >= 0
                && u == (x + ox) % U32_SIZE && v == (y + oy) % U32_SIZE)
  {
  }

  lemma StampRow(x: U32, y: U32, radius: int, u: U32, v: U32, oy: int)
    requires 0 <= radius
    ensures StampedBefore(x, y, radius, u, v, radius + 1, oy) <==> StampedBefore(x, y, radius, u, v, -radius, oy + 1)
  {
    StampBounds(x, y, radius, u, v, 0, 0);
    StampBounds(x, y, radius, u, v, 1, 0);
    StampBounds(x, y, radius, u, v, 0, 1);
    StampBounds(x, y, radius, u, v, 1, 1);
  }

  lemma StampAll(x: U32, y: U32, radius: int, u: U32, v: U32)
    requires 0 <= radius
    ensures !StampedBefore(x, y, radius, u, v, -radius, -radius)
    ensures StampedBefore(x, y, radius, u, v, -radius, radius + 1) <==> Stamped(x, y, radius, u, v)
  {
    StampBounds(x, y, radius, u, v, 0, 0);
    StampBounds(x, y, radius, u, v, 1, 0);
    StampBounds(x, y, radius, u, v, 0, 1);
    StampBounds(x, y, radius, u, v, 1, 1);
  }

  lemma StampBounds(x: U32, y: U32, radius: int, u: U32, v: U32, m: int, n: int)
    requires 0 <= radius
    ensures Reaches(x, y, radius, u, v, m, n) ==>
              && -radius <= u + m * U32_SIZE - x <= radius
              && -radius <= v + n * U32_SIZE - y <= radius
  {
    if Reaches(x, y, radius, u, v, m, n) {
      DiscInBox(u + m * U32_SIZE - x, v + n * U32_SIZE - y, radius);
    }
  }

  /** The buffer shows `before` with every pixel stamped by an offset before `(ox, oy)` recoloured. */
  ghost predicate BrushProgress(image: array2<Rgba>, before: Picture, x: int, y: int, radius: int, color: Rgba,
                                ox: int, oy: int)
    requires before.width == image.Length1 && before.height == image.Length0
    reads image
  {
    forall u, v :: before.Inside(u, v) ==>
      image[v, u] == if StampedBefore(x, y, radius, u, v, ox, oy) then color else before.At(u, v)
  }

  method PaintOffset(image: array2<Rgba>, x: U32, y: U32, offsetX: I64, offsetY: I64, radius: I64, color: Rgba,
                     ghost before: Picture)
    requires IsBuffer(image) && 0 <= radius < 0x8000_0000
    requires -radius <= offsetX <= radius && -radius <= offsetY <= radius
    requires before.width == image.Length1 && before.height == image.Length0
    requires BrushProgress(image, before, x, y, radius, color, offsetX, offsetY)
    modifies image
    ensures BrushProgress(image, before, x, y, radius, color, offsetX + 1, offsetY)
  {
    SquareBound(offsetX, radius);
    SquareBound(offsetY, radius);
    SquareBound(radius, 0x7fff_ffff);
    var distance: I64, reach: I64 := offsetX * offsetX + offsetY * offsetY, radius * radius;
    forall u: U32, v: U32 {
      StampOffset(x, y, radius, u, v, offsetX, offsetY);
    }
    if distance > reach {
      return;
    }
    var pixelX: I64, pixelY: I64 := x + offsetX, y + offsetY;
    if pixelX >= 0 && pixelY >= 0 {
      var castX: U32, castY: U32 := pixelX % U32_SIZE, pixelY % U32_SIZE;
      if castX < image.Length1 && castY < image.Length0 {
        image[castY, castX] := color;
      }
    }
  }

  lemma BrushStart(image: array2<Rgba>, x: U32, y: U32, radius: int, color: Rgba)
    requires IsBuffer(image) && 0 <= radius
    ensures BrushProgress(image, View(image), x, y, radius, color, -radius, -radius)
  {
    forall u, v | View(image).Inside(u, v)
      ensures image[v, u] == View(image).At(u, v) && !StampedBefore(x, y, radius, u, v, -radius, -radius)
    {
      StampAll(x, y, radius, u, v);
    }
  }

  lemma BrushRow(image: array2<Rgba>, before: Picture, x: U32, y: U32, radius: int, color: Rgba, oy: int)
    requires IsBuffer(image) && 0 <= radius && before.width == image.Length1 && before.height == image.Length0
    requires BrushProgress(image, before, x, y, radius, color, radius + 1, oy)
    ensures BrushProgress(image, before, x, y, radius, color, -radius, oy + 1)
  {
    forall u, v | before.Inside(u, v) {
      StampRow(x, y, radius, u, v, oy);
    }
  }

  lemma BrushDone(image: array2<Rgba>, before: Picture, x: U32, y: U32, radius: int, color: Rgba)
    requires IsBuffer(image) && 0 <= radius && before.width == image.Length1 && before.height == image.Length0
    requires BrushProgress(image, before, x, y, radius, color, -radius, radius + 1)
    ensures View(image) == Recolored(before, (u, v) => Stamped(x, y, radius, u, v), color)
  {
    forall u, v | before.Inside(u, v) {
      StampAll(x, y, radius, u, v);
    }
    SamePixels(View(image), Recolored(before, (u, v) => Stamped(x, y, radius, u, v), color));
  }

  method PaintBrush(image: array2<Rgba>, x: U32, y: U32, radius: I64, color: Rgba)
    requires IsBuffer(image) && 0 <= radius < 0x8000_0000
    modifies image
    ensures View(image) == Recolored(old(View(image)), (u, v) => Stamped(x, y, radius, u, v), color)
  {
    hide BrushProgress, Recolored, Stamped;
    ghost var before := View(image);
    BrushStart(image, x, y, radius, color);
    var offsetY: I64 := -radius;
    while offsetY <= radius
      invariant -radius <= offsetY <= radius + 1
      invariant BrushProgress(image, before, x, y, radius, color, -radius, offsetY)
    {
      var offsetX: I64 := -radius;
      while offsetX <= radius
        invariant -radius <= offsetX <= radius + 1
        invariant BrushProgress(image, before, x, y, radius, color, offsetX, offsetY)
      {
        PaintOffset(image, x, y, offsetX, offsetY, radius, color, before);
        offsetX := offsetX + 1;
      }
      BrushRow(image, before, x, y, radius, color, offsetY);
      offsetY := offsetY + 1;
    }
    BrushDone(image, before, x, y, radius, color);
  }

  // ----- draw_line -----

  /** The brush radius of a line width: `(width.max(1) / 2)`. */
  function Radius(width: U32): (r: I64)
    ensures 0 <= r < 0x8000_0000
    ensures 2 * r <= Max(width, 1) < 2 * r + 2
  {
    Max(width, 1) / 2
  }

  /** Some of the first `count` centres of the ideal line stamps `(u, v)`. */
  ghost predicate TouchedBy(from: Point, to: Point, radius: int, u: int, v: int, count: nat) {
    exists k: nat | k < count :: Stamped(CentreX(from, to, k), CentreY(from, to, k), radius, u, v)
  }

  ghost predicate Touched(from: Point, to: Point, radius: int, u: int, v: int) {
    TouchedBy(from, to, radius, u, v, Span(from, to) + 1)
  }

  /** The picture after a stroke along the ideal line. */
  ghost function Stroked(p: Picture, from: Point, to: Point, color: Rgba, width: U32): (q: Picture) {
    Recolored(p, (u, v) => Touched(from, to, Radius(width), u, v), color)
  }

  lemma TouchedNext(from: Point, to: Point, radius: int, u: int, v: int, k: nat)
    ensures TouchedBy(from, to, radius, u, v, k + 1) <==>
            TouchedBy(from, to, radius, u, v, k) || Stamped(CentreX(from, to, k), CentreY(from, to, k), radius, u, v)
  {
  }

  /** The walk's coordinates and error after `k` steps. */
  ghost predicate AtStep(from: Point, to: Point, k: nat, x: int, y: int, error: int) {
    var a, b := Abs(to.x - from.x), Abs(to.y - from.y);
    && x == CentreX(from, to, k) && y == CentreY(from, to, k)
    && error == ErrorTerm(a, b, k)
  }

  lemma FirstStep(from: Point, to: Point)
    ensures AtStep(from, to, 0, from.x, from.y, Abs(to.x - from.x) - Abs(to.y - from.y))
  {
    WalkEnds(from, to, 0);
    assert 0 * Abs(to.x - from.x) == 0 == 0 * Abs(to.y - from.y);
  }

  /** Where the walk is after `k` moves: at a centre inside the image plane, and at `to` exactly at the end. */
  lemma OnTheWalk(from: Point, to: Point, k: nat, x: int, y: int, error: int)
    requires AtStep(from, to, k, x, y, error) && k <= Span(from, to)
    ensures x == CentreX(from, to, k) && y == CentreY(from, to, k)
    ensures 0 <= x < U32_SIZE && 0 <= y < U32_SIZE
    ensures (x == to.x && y == to.y) <==> k == Span(from, to)
  {
    WalkInBox(from, to, k);
    WalkEnds(from, to, k);
  }

  /** One pass through the loop body of `draw_line` moves to the next centre. */
  lemma NextStep(from: Point, to: Point, k: nat, x: int, y: int, error: int)
    requires AtStep(from, to, k, x, y, error) && Span(from, to) > 0
    ensures -3 * Span(from, to) <= 2 * error <= 3 * Span(from, to)
    ensures var a, b := Abs(to.x - from.x), Abs(to.y - from.y);
            var stepX, stepY := 2 * error + b >= 0, 2 * error <= a;
            AtStep(from, to, k + 1,
                   if stepX then x + (if from.x < to.x then 1 else -1) else x,
                   if stepY then y + (if from.y < to.y then 1 else -1) else y,
                   error + (if stepX then -b else 0) + (if stepY then a else 0))
  {
    StepRefines(Abs(to.x - from.x), Abs(to.y - from.y), k);
  }

  /** The second half of the loop body: the two tests on the doubled error. */
  method Advance(ghost from: Point, ghost to: Point, x0: I64, y0: I64, error0: I64, dx: I64, dy: I64, sx: int, sy: int,
                 ghost k: nat)
    returns (x: I64, y: I64, error: I64)
    requires k < Span(from, to) && AtStep(from, to, k, x0, y0, error0)
    requires dx == Abs(to.x - from.x) && sx == if from.x < to.x then 1 else -1
    requires dy == -Abs(to.y - from.y) && sy == if from.y < to.y then 1 else -1
    ensures AtStep(from, to, k + 1, x, y, error)
  {
    hide AtStep;
    OnTheWalk(from, to, k, x0, y0, error0);
    NextStep(from, to, k, x0, y0, error0);
    x, y, error := x0, y0, error0;
    var doubleError: I64 := 2 * error;
    if doubleError >= dy {
      error := error + dy;
      x := x + sx;
    }
    if doubleError <= dx {
      error := error + dx;
      y := y + sy;
    }
  }

  /** The buffer shows `before` with the first `count` brush marks of the line in place. */
  ghost predicate LineProgress(image: array2<Rgba>, before: Picture, from: Point, to: Point, radius: int, color: Rgba,
                               count: nat)
    requires before.width == image.Length1 && before.height == image.Length0
    reads image
  {
    forall u, v :: before.Inside(u, v) ==>
      image[v, u] == if TouchedBy(from, to, radius, u, v, count) then color else before.At(u, v)
  }

  method PaintCentre(image: array2<Rgba>, from: Point, to: Point, x: U32, y: U32, radius: I64, color: Rgba,
                     ghost before: Picture, ghost k: nat)
    requires IsBuffer(image) && 0 <= radius < 0x8000_0000
    requires before.width == image.Length1 && before.height == image.Length0
    requires x == CentreX(from, to, k) && y == CentreY(from, to, k)
    requires LineProgress(image, before, from, to, radius, color, k)
    modifies image
    ensures LineProgress(image, before, from, to, radius, color, k + 1)
  {
    ghost var previous := View(image);
    PaintBrush(image, x, y, radius, color);
    forall u, v | before.Inside(u, v)
      ensures image[v, u] == if TouchedBy(from, to, radius, u, v, k + 1) then color else before.At(u, v)
    {
      TouchedNext(from, to, radius, u, v, k);
      assert previous.Inside(u, v) && View(image).At(u, v) == image[v, u];
    }
  }

  method DrawLine(image: array2<Rgba>, from: Point, to: Point, color: Rgba, width: U32) returns (ghost moves: nat)
    requires IsBuffer(image)
    modifies image
    ensures View(image) == Stroked(old(View(image)), from, to, color, width)
    ensures moves == Span(from, to)
  {
    hide AtStep, CentreX, CentreY, LineProgress, Stroked;
    ghost var before := View(image);
    var x0: I64, y0: I64, x1: I64, y1: I64 := from.x, from.y, to.x, to.y;
    var dx: I64, dy: I64 := Abs(x1 - x0), -Abs(y1 - y0);
    var sx, sy := if x0 < x1 then 1 else -1, if y0 < y1 then 1 else -1;
    var error: I64 := dx + dy;
    var radius: I64 := Max(width, 1) / 2;
    moves := 0;
    FirstStep(from, to);
    StrokeStart(image, from, to, radius, color);
    while true
      invariant moves <= Span(from, to)
      invariant AtStep(from, to, moves, x0, y0, error)
      invariant LineProgress(image, before, from, to, radius, color, moves)
      decreases Span(from, to) - moves
    {
      OnTheWalk(from, to, moves, x0, y0, error);
      PaintCentre(image, from, to, x0, y0, radius, color, before, moves);
      if x0 == x1 && y0 == y1 {
        break;
      }
      x0, y0, error := Advance(from, to, x0, y0, error, dx, dy, sx, sy, moves);
      moves := moves + 1;
    }
    StrokeDone(image, before, from, to, color, width);
  }

  lemma StrokeStart(image: array2<Rgba>, from: Point, to: Point, radius: int, color: Rgba)
    ensures LineProgress(image, View(image), from, to, radius, color, 0)
  {
    forall u, v | View(image).Inside(u, v)
      ensures image[v, u] == View(image).At(u, v) && !TouchedBy(from, to, radius, u, v, 0)
    {
    }
  }

  lemma StrokeDone(image: array2<Rgba>, before: Picture, from: Point, to: Point, color: Rgba, width: U32)
    requires before.width == image.Length1 && before.height == image.Length0
    requires LineProgress(image, before, from, to, Radius(width), color, Span(from, to) + 1)
    ensures View(image) == Stroked(before, from, to, color, width)
  {
    SamePixels(View(image), Stroked(before, from, to, color, width));
  }
}
