/** `apply_mosaic`: every block of the selection becomes its per-channel mean, in place. */
module Mosaic {
  import opened Arithmetic
  import opened Basics
  import opened Images
  import opened Line
  import opened Raster

  // ----- the specification -----

  /** The selected rectangle, both corners included. */
  datatype Selection = Selection(left: int, top: int, right: int, bottom: int) {
    predicate Empty() { left >= right || top >= bottom }

    predicate Selects(u: int, v: int) { left <= u <= right && top <= v <= bottom }
  }

  function Select(from: Point, to: Point, width: nat, height: nat): Selection {
    Selection(Min(from.x, to.x), Min(from.y, to.y),
              Min(Max(from.x, to.x), Pred(width)), Min(Max(from.y, to.y), Pred(height)))
  }

  /** The side of a block: `min(width, height).clamp(1, 24) / 8 + 2`, at least 3. */
  function BlockSize(width: nat, height: nat): (b: U32)
    ensures b == if Min(width, height) < 16 then 3 else if Min(width, height) < 24 then 4 else 5
  {
    Max(Min(Max(Min(width, height), 1), 24) / 8 + 2, 3)
  }

  /** The start of the block that coordinate `c` falls in, counting blocks from `start`. */
  function BlockStart(start: int, block: nat, c: int): (s: int)
    requires block > 0 && start <= c
    ensures start <= s <= c < s + block
    decreases c - start
  {
    if c < start + block then start else BlockStart(start + block, block, c)
  }

  function RowSum(p: Picture, c: nat, y: int, x0: int, x1: int): nat
    requires c < 4 && 0 <= x0 && x1 <= p.width && 0 <= y < p.height
    decreases x1 - x0
  {
    if x1 <= x0 then 0 else RowSum(p, c, y, x0, x1 - 1) + p.At(x1 - 1, y).Channel(c)
  }

  /** The sum of channel `c` over the pixels `x0 <= x < x1`, `y0 <= y < y1`. */
  function Sum(p: Picture, c: nat, x0: int, x1: int, y0: int, y1: int): nat
    requires c < 4 && 0 <= x0 && x1 <= p.width && 0 <= y0 && y1 <= p.height
    decreases y1 - y0
  {
    if y1 <= y0 then 0 else Sum(p, c, x0, x1, y0, y1 - 1) + RowSum(p, c, y1 - 1, x0, x1)
  }

  lemma {:induction false} RowSumBound(p: Picture, c: nat, y: int, x0: int, x1: int)
    requires c < 4 && 0 <= x0 <= x1 <= p.width && 0 <= y < p.height
    ensures RowSum(p, c, y, x0, x1) <= 255 * (x1 - x0)
    decreases x1 - x0
  {
    if x1 <= x0 {
    } else {
      RowSumBound(p, c, y, x0, x1 - 1);
    }
  }

  lemma {:induction false} SumBound(p: Picture, c: nat, x0: int, x1: int, y0: int, y1: int)
    requires c < 4 && 0 <= x0 <= x1 <= p.width && 0 <= y0 <= y1 <= p.height
    ensures Sum(p, c, x0, x1, y0, y1) <= 255 * ((x1 - x0) * (y1 - y0))
    decreases y1 - y0
  {
    if y1 <= y0 {
    } else {
      SumBound(p, c, x0, x1, y0, y1 - 1);
      RowSumBound(p, c, y1 - 1, x0, x1);
      assert (x1 - x0) * (y1 - y0) == (x1 - x0) * (y1 - 1 - y0) + (x1 - x0);
    }
  }

  /** The floor of a mean of bytes, as a byte. */
  function Mean(sum: nat, count: nat): U8
    requires count > 0 && sum <= 255 * count
  {
    MeanFits(sum, count);
    sum / count
  }

  lemma MeanFits(sum: nat, count: nat)
    requires count > 0 && sum <= 255 * count
    ensures 0 <= sum / count <= 255
    ensures sum - count < (sum / count) * count <= sum
  {
    var q := sum / count;
    assert q * count + sum % count == sum;
    if q > 255 { MulMonotone(256, q, count); }
  }

  /** The per-channel floor mean over a rectangle of pixels. */
  function MeanColor(p: Picture, x0: int, x1: int, y0: int, y1: int): Rgba
    requires 0 <= x0 < x1 <= p.width && 0 <= y0 < y1 <= p.height
  {
    var count := (x1 - x0) * (y1 - y0);
    SumBound(p, 0, x0, x1, y0, y1); SumBound(p, 1, x0, x1, y0, y1);
    SumBound(p, 2, x0, x1, y0, y1); SumBound(p, 3, x0, x1, y0, y1);
    MulMonotone(1, x1 - x0, y1 - y0);
    Rgba(Mean(Sum(p, 0, x0, x1, y0, y1), count), Mean(Sum(p, 1, x0, x1, y0, y1), count),
         Mean(Sum(p, 2, x0, x1, y0, y1), count), Mean(Sum(p, 3, x0, x1, y0, y1), count))
  }

  predicate Fits(p: Picture, s: Selection) {
    0 <= s.left <= s.right < p.width && 0 <= s.top <= s.bottom < p.height
  }

  /** The mean over the block of the selection that holds `(u, v)`. */
  function BlockMean(p: Picture, s: Selection, block: nat, u: int, v: int): Rgba
    requires Fits(p, s) && s.Selects(u, v) && block > 0
  {
    var x, y := BlockStart(s.left, block, u), BlockStart(s.top, block, v);
    MeanColor(p, x, Min(x + block, s.right + 1), y, Min(y + block, s.bottom + 1))
  }

  /** Every selected pixel becomes the mean of the original pixels of its block; the others stay. */
  ghost function Pixelated(p: Picture, s: Selection, block: nat): (q: Picture)
    requires Fits(p, s) && block > 0
    ensures q.width == p.width && q.height == p.height
  {
    Build(p.width, p.height, (u, v) requires p.Inside(u, v) =>
      if s.Selects(u, v) then BlockMean(p, s, block, u, v) else p.At(u, v))
  }

  ghost function Mosaicked(p: Picture, from: Point, to: Point): (q: Picture) {
    var s := Select(from, to, p.width, p.height);
    if s.Empty() then p else Pixelated(p, s, BlockSize(p.width, p.height))
  }

  // ----- blocks -----

  /** From an aligned coordinate `x`, the next `block` coordinates share its block and the one after starts another. */
  lemma {:induction false} AlignedBlock(start: int, block: nat, x: int, u: int)
    requires block > 0 && start <= x && BlockStart(start, block, x) == x && x <= u < x + block
    ensures BlockStart(start, block, u) == x
    ensures BlockStart(start, block, x + block) == x + block
    decreases x - start
  {
    if x < start + block {
    } else {
      AlignedBlock(start + block, block, x, u);
    }
  }

  /** Blocks start at whole multiples of the block size from the start of the selection. */
  lemma {:induction false} BlockIndex(start: int, block: nat, c: int) returns (k: nat)
    requires block > 0 && start <= c
    ensures BlockStart(start, block, c) == start + k * block
    decreases c - start
  {
    if c < start + block {
      k := 0;
    } else {
      var j := BlockIndex(start + block, block, c);
      k := j + 1;
      assert k * block == j * block + block;
    }
  }

  lemma BlockStartIs(start: int, block: nat, c: int)
    requires block > 0 && start <= c
    ensures BlockStart(start, block, c) == c - (c - start) % block
  {
    var k := BlockIndex(start, block, c);
    QuotientIs(c - start, block, k, c - BlockStart(start, block, c));
  }

  lemma {:induction false} StartAligned(start: int, block: nat, c: int)
    requires block > 0 && start <= c
    ensures BlockStart(start, block, BlockStart(start, block, c)) == BlockStart(start, block, c)
    decreases c - start
  {
    if c < start + block {
    } else {
      StartAligned(start + block, block, c);
    }
  }

  /** Blocks partition: two coordinates lie in one block exactly when their blocks overlap. */
  lemma BlocksPartition(start: int, block: nat, c: int, d: int)
    requires block > 0 && start <= c && start <= d
    ensures var s, t := BlockStart(start, block, c), BlockStart(start, block, d);
            s == t <==> s < t + block && t < s + block
  {
    var s, t := BlockStart(start, block, c), BlockStart(start, block, d);
    StartAligned(start, block, c);
    StartAligned(start, block, d);
    if s <= t < s + block { AlignedBlock(start, block, s, t); }
    if t <= s < t + block { AlignedBlock(start, block, t, s); }
  }

  // ----- the method -----

  /** The blocks before `(x, y)` in block order are averaged; everything else is as in `p`. */
  ghost predicate Progress(image: array2<Rgba>, p: Picture, s: Selection, block: nat, x: int, y: int)
    requires p.width == image.Length1 && p.height == image.Length0 && Fits(p, s) && block > 0
    reads image
  {
    forall u, v :: p.Inside(u, v) ==>
      image[v, u] ==
        if s.Selects(u, v) && (v < y || (v < y + block && u < x)) then BlockMean(p, s, block, u, v) else p.At(u, v)
  }

  ghost predicate Unchanged(image: array2<Rgba>, p: Picture, x0: int, x1: int, y0: int, y1: int)
    requires p.width == image.Length1 && p.height == image.Length0
    requires 0 <= x0 && x1 <= p.width && 0 <= y0 && y1 <= p.height
    reads image
  {
    forall u, v :: x0 <= u < x1 && y0 <= v < y1 ==> image[v, u] == p.At(u, v)
  }

  /** Four running sums of at most `count` bytes each. */
  predicate Sums(sum: seq<U32>, count: int) { |sum| == 4 && forall c: nat :: c < 4 ==> sum[c] <= 255 * count }

  /** The inner sampling loop: one row of a block, read from the buffer. */
  method SampleRow(image: array2<Rgba>, ghost p: Picture, x: U32, xEnd: U32, y: U32, sum0: seq<U32>, count0: U32)
    returns (sum: seq<U32>, count: U32)
    requires p.width == image.Length1 && p.height == image.Length0
    requires x < xEnd <= image.Length1 && y < image.Length0 && xEnd <= x + 5
    requires Unchanged(image, p, x, xEnd, y, y + 1)
    requires Sums(sum0, count0) && count0 <= 20
    ensures count == count0 + (xEnd - x) && Sums(sum, count)
    ensures forall c: nat :: c < 4 ==> sum[c] == sum0[c] + RowSum(p, c, y, x, xEnd)
  {
    sum, count := sum0, count0;
    var sampleX: U32 := x;
    while sampleX < xEnd
      invariant x <= sampleX <= xEnd
      invariant count == count0 + (sampleX - x) && Sums(sum, count)
      invariant forall c: nat :: c < 4 ==> sum[c] == sum0[c] + RowSum(p, c, y, x, sampleX)
    {
      var pixel := image[y, sampleX];
      assert pixel == p.At(sampleX, y);
      ghost var before := sum;
      sum := [sum[0] + pixel.r, sum[1] + pixel.g, sum[2] + pixel.b, sum[3] + pixel.a];
      assert forall c: nat :: c < 4 ==> sum[c] == before[c] + pixel.Channel(c);
      count := count + 1;
      sampleX := sampleX + 1;
    }
  }

  /** The sampling loops: the mean over one block, read from the buffer. */
  method SampleBlock(image: array2<Rgba>, ghost p: Picture, x: U32, xEnd: U32, y: U32, yEnd: U32)
    returns (color: Option<Rgba>)
    requires p.width == image.Length1 && p.height == image.Length0
    requires x < xEnd <= image.Length1 && y < yEnd <= image.Length0 && xEnd <= x + 5 && yEnd <= y + 5
    requires Unchanged(image, p, x, xEnd, y, yEnd)
    ensures color == Some(MeanColor(p, x, xEnd, y, yEnd))
  {
    var sum: seq<U32>, count: U32 := [0, 0, 0, 0], 0;
    var sampleY: U32 := y;
    while sampleY < yEnd
      invariant y <= sampleY <= yEnd
      invariant Sums(sum, count) && count <= 5 * (sampleY - y)
      invariant count == (xEnd - x) * (sampleY - y)
      invariant forall c: nat :: c < 4 ==> sum[c] == Sum(p, c, x, xEnd, y, sampleY)
    {
      assert (xEnd - x) * (sampleY + 1 - y) == (xEnd - x) * (sampleY - y) + (xEnd - x);
      sum, count := SampleRow(image, p, x, xEnd, sampleY, sum, count);
      sampleY := sampleY + 1;
    }
    MulMonotone(1, xEnd - x, yEnd - y);
    if count == 0 {
      return None;
    }
    color := Some(Rgba(Mean(sum[0], count), Mean(sum[1], count), Mean(sum[2], count), Mean(sum[3], count)));
  }

  /** The writing loops: one colour over one block. */
  method FillBlock(image: array2<Rgba>, x: U32, xEnd: U32, y: U32, yEnd: U32, color: Rgba)
    requires x < xEnd <= image.Length1 && y < yEnd <= image.Length0
    modifies image
    ensures forall u, v :: 0 <= u < image.Length1 && 0 <= v < image.Length0 ==>
      image[v, u] == if x <= u < xEnd && y <= v < yEnd then color else old(image[v, u])
  {
    var writeY: U32 := y;
    while writeY < yEnd
      invariant y <= writeY <= yEnd
      invariant forall u, v :: 0 <= u < image.Length1 && 0 <= v < image.Length0 ==>
        image[v, u] == if x <= u < xEnd && y <= v < writeY then color else old(image[v, u])
    {
      var writeX: U32 := x;
      while writeX < xEnd
        invariant x <= writeX <= xEnd
        invariant forall u, v :: 0 <= u < image.Length1 && 0 <= v < image.Length0 ==>
          image[v, u] ==
            if (x <= u < xEnd && y <= v < writeY) || (v == writeY && x <= u < writeX) then color else old(image[v, u])
      {
        image[writeY, writeX] := color;
        writeX := writeX + 1;
      }
      writeY := writeY + 1;
    }
  }

  /** One pass through the body of the block loops. */
  method PixelateBlock(image: array2<Rgba>, ghost p: Picture, ghost s: Selection, block: U32,
                       x: U32, xEnd: U32, y: U32, yEnd: U32)
    requires IsBuffer(image) && p.width == image.Length1 && p.height == image.Length0 && Fits(p, s) && 3 <= block <= 5
    requires s.left <= x <= s.right && BlockStart(s.left, block, x) == x && xEnd == Min(x + block, s.right + 1)
    requires s.top <= y <= s.bottom && BlockStart(s.top, block, y) == y && yEnd == Min(y + block, s.bottom + 1)
    requires Progress(image, p, s, block, x, y)
    modifies image
    ensures Progress(image, p, s, block, x + block, y)
  {
    hide MeanColor;
    var color := SampleBlock(image, p, x, xEnd, y, yEnd);
    if color.Some? {
      FillBlock(image, x, xEnd, y, yEnd, color.value);
    }
    forall u, v | x <= u < xEnd && y <= v < yEnd
      ensures BlockMean(p, s, block, u, v) == MeanColor(p, x, xEnd, y, yEnd)
    {
      AlignedBlock(s.left, block, x, u);
      AlignedBlock(s.top, block, y, v);
    }
  }

  lemma RowOfBlocksDone(image: array2<Rgba>, p: Picture, s: Selection, block: nat, x: int, y: int)
    requires p.width == image.Length1 && p.height == image.Length0 && Fits(p, s) && block > 0
    requires x > s.right && Progress(image, p, s, block, x, y)
    ensures Progress(image, p, s, block, s.left, y + block)
  {
    hide BlockMean;
  }

  lemma MosaicDone(image: array2<Rgba>, p: Picture, s: Selection, block: nat, y: int)
    requires p.width == image.Length1 && p.height == image.Length0 && Fits(p, s) && block > 0
    requires y > s.bottom && Progress(image, p, s, block, s.left, y)
    ensures View(image) == Pixelated(p, s, block)
  {
    hide BlockMean;
    SamePixels(View(image), Pixelated(p, s, block));
  }

  lemma MosaicStart(image: array2<Rgba>, s: Selection, block: nat)
    requires Fits(View(image), s) && block > 0
    ensures Progress(image, View(image), s, block, s.left, s.top)
  {
    hide BlockMean;
    forall u, v | View(image).Inside(u, v)
      ensures image[v, u] == View(image).At(u, v)
    {
    }
  }

  method ApplyMosaic(image: array2<Rgba>, from: Point, to: Point)
    requires IsBuffer(image)
    modifies image
    ensures View(image) == Mosaicked(old(View(image)), from, to)
  {
    hide Progress, Pixelated;
    var left: U32, right: U32 := Min(from.x, to.x), Min(Max(from.x, to.x), Pred(image.Length1));
    var top: U32, bottom: U32 := Min(from.y, to.y), Min(Max(from.y, to.y), Pred(image.Length0));
    if left >= right || top >= bottom {
      return;
    }
    ghost var p, s := View(image), Selection(left, top, right, bottom);
    var block: U32 := BlockSize(image.Length1, image.Length0);
    MosaicStart(image, s, block);
    var y: U32 := top;
    ghost var rows: int := y;
    while y <= bottom
      invariant top <= y && BlockStart(s.top, block, y) == y && rows == y
      invariant Progress(image, p, s, block, left, y)
    {
      var x: U32 := left;
      ghost var columns: int := x;
      while x <= right
        invariant left <= x && BlockStart(s.left, block, x) == x && columns == x
        invariant Progress(image, p, s, block, columns, y)
      {
        var xEnd: U32 := Min(SaturatingAdd(x, block), SaturatingAdd(right, 1));
        var yEnd: U32 := Min(SaturatingAdd(y, block), SaturatingAdd(bottom, 1));
        PixelateBlock(image, p, s, block, x, xEnd, y, yEnd);
        columns := x + block;
        if xEnd > right {
          break;
        }
        AlignedBlock(s.left, block, x, x);
        x := xEnd;
      }
      RowOfBlocksDone(image, p, s, block, columns, y);
      rows := y + block;
      if SaturatingAdd(y, block) > bottom {
        break;
      }
      AlignedBlock(s.top, block, y, y);
      y := SaturatingAdd(y, block);
    }
    MosaicDone(image, p, s, block, rows);
  }
}
