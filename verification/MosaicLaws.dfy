/** What pixelating keeps: repeating it changes nothing, and each channel's total drops by less than one per
    selected pixel. */
module MosaicLaws {
  import opened Arithmetic
  import opened Basics
  import opened Images
  import opened Line
  import opened Mosaic

  // ----- sums -----

  lemma {:induction false} RowSumSame(p: Picture, q: Picture, c: nat, y: int, x0: int, x1: int)
    requires p.width == q.width && p.height == q.height
    requires c < 4 && 0 <= x0 <= x1 <= p.width && 0 <= y < p.height
    requires forall u :: x0 <= u < x1 ==> p.At(u, y) == q.At(u, y)
    ensures RowSum(p, c, y, x0, x1) == RowSum(q, c, y, x0, x1)
    decreases x1 - x0
  {
    if x1 <= x0 {
    } else {
      RowSumSame(p, q, c, y, x0, x1 - 1);
    }
  }

  lemma {:induction false} SumSame(p: Picture, q: Picture, c: nat, x0: int, x1: int, y0: int, y1: int)
    requires p.width == q.width && p.height == q.height
    requires c < 4 && 0 <= x0 <= x1 <= p.width && 0 <= y0 <= y1 <= p.height
    requires forall u, v :: x0 <= u < x1 && y0 <= v < y1 ==> p.At(u, v) == q.At(u, v)
    ensures Sum(p, c, x0, x1, y0, y1) == Sum(q, c, x0, x1, y0, y1)
    decreases y1 - y0
  {
    if y1 <= y0 {
    } else {
      SumSame(p, q, c, x0, x1, y0, y1 - 1);
      RowSumSame(p, q, c, y1 - 1, x0, x1);
    }
  }

  lemma {:induction false} RowSumFlat(p: Picture, c: nat, y: int, x0: int, x1: int, color: Rgba)
    requires c < 4 && 0 <= x0 <= x1 <= p.width && 0 <= y < p.height
    requires forall u :: x0 <= u < x1 ==> p.At(u, y) == color
    ensures RowSum(p, c, y, x0, x1) == color.Channel(c) * (x1 - x0)
    decreases x1 - x0
  {
    if x1 <= x0 {
    } else {
      RowSumFlat(p, c, y, x0, x1 - 1, color);
      assert color.Channel(c) * (x1 - x0) == color.Channel(c) * (x1 - 1 - x0) + color.Channel(c);
    }
  }

  lemma {:induction false} SumFlat(p: Picture, c: nat, x0: int, x1: int, y0: int, y1: int, color: Rgba)
    requires c < 4 && 0 <= x0 <= x1 <= p.width && 0 <= y0 <= y1 <= p.height
    requires forall u, v :: x0 <= u < x1 && y0 <= v < y1 ==> p.At(u, v) == color
    ensures Sum(p, c, x0, x1, y0, y1) == color.Channel(c) * ((x1 - x0) * (y1 - y0))
    decreases y1 - y0
  {
    if y1 <= y0 {
      assert (x1 - x0) * (y1 - y0) == 0;
    } else {
      SumFlat(p, c, x0, x1, y0, y1 - 1, color);
      RowSumFlat(p, c, y1 - 1, x0, x1, color);
      AddRow(color.Channel(c), x1 - x0, y1 - 1 - y0);
    }
  }

  lemma AddRow(k: int, w: int, h: int)
    ensures k * (w * (h + 1)) == k * (w * h) + k * w
  {
    assert w * (h + 1) == w * h + w;
  }

  lemma {:induction false} RowSumSplit(p: Picture, c: nat, y: int, x0: int, xm: int, x1: int)
    requires c < 4 && 0 <= x0 <= xm <= x1 <= p.width && 0 <= y < p.height
    ensures RowSum(p, c, y, x0, x1) == RowSum(p, c, y, x0, xm) + RowSum(p, c, y, xm, x1)
    decreases x1 - xm
  {
    if x1 <= xm {
    } else {
      RowSumSplit(p, c, y, x0, xm, x1 - 1);
    }
  }

  lemma {:induction false} SumSplitX(p: Picture, c: nat, x0: int, xm: int, x1: int, y0: int, y1: int)
    requires c < 4 && 0 <= x0 <= xm <= x1 <= p.width && 0 <= y0 <= y1 <= p.height
    ensures Sum(p, c, x0, x1, y0, y1) == Sum(p, c, x0, xm, y0, y1) + Sum(p, c, xm, x1, y0, y1)
    decreases y1 - y0
  {
    if y1 <= y0 {
    } else {
      SumSplitX(p, c, x0, xm, x1, y0, y1 - 1);
      RowSumSplit(p, c, y1 - 1, x0, xm, x1);
    }
  }

  lemma {:induction false} SumSplitY(p: Picture, c: nat, x0: int, x1: int, y0: int, ym: int, y1: int)
    requires c < 4 && 0 <= x0 <= x1 <= p.width && 0 <= y0 <= ym <= y1 <= p.height
    ensures Sum(p, c, x0, x1, y0, y1) == Sum(p, c, x0, x1, y0, ym) + Sum(p, c, x0, x1, ym, y1)
    decreases y1 - ym
  {
    if y1 <= ym {
    } else {
      SumSplitY(p, c, x0, x1, y0, ym, y1 - 1);
    }
  }

  // ----- one block -----

  ghost predicate Aligned(s: Selection, block: nat, x: int, y: int)
    requires block > 0
  {
    && s.left <= x <= s.right && BlockStart(s.left, block, x) == x
    && s.top <= y <= s.bottom && BlockStart(s.top, block, y) == y
  }

  lemma PixelatedAt(p: Picture, s: Selection, block: nat, u: int, v: int)
    requires Fits(p, s) && block > 0 && p.Inside(u, v)
    ensures Pixelated(p, s, block).At(u, v) == if s.Selects(u, v) then BlockMean(p, s, block, u, v) else p.At(u, v)
  {
    hide BlockMean;
    assert Pixelated(p, s, block).Inside(u, v);
  }

  /** A pixelated block is flat: every pixel is the mean of the original block. */
  lemma BlockIsFlat(p: Picture, s: Selection, block: nat, x: int, y: int)
    requires Fits(p, s) && block > 0 && Aligned(s, block, x, y)
    ensures var x1, y1 := Min(x + block, s.right + 1), Min(y + block, s.bottom + 1);
            forall u, v :: x <= u < x1 && y <= v < y1 ==>
              Pixelated(p, s, block).At(u, v) == MeanColor(p, x, x1, y, y1)
  {
    hide MeanColor, Pixelated;
    var x1, y1 := Min(x + block, s.right + 1), Min(y + block, s.bottom + 1);
    forall u, v | x <= u < x1 && y <= v < y1
      ensures Pixelated(p, s, block).At(u, v) == MeanColor(p, x, x1, y, y1)
    {
      AlignedBlock(s.left, block, x, u);
      AlignedBlock(s.top, block, y, v);
      PixelatedAt(p, s, block, u, v);
    }
  }

  lemma MeanOfFlat(q: Picture, x0: int, x1: int, y0: int, y1: int, color: Rgba)
    requires 0 <= x0 < x1 <= q.width && 0 <= y0 < y1 <= q.height
    requires forall u, v :: x0 <= u < x1 && y0 <= v < y1 ==> q.At(u, v) == color
    ensures MeanColor(q, x0, x1, y0, y1) == color
  {
    var count := (x1 - x0) * (y1 - y0);
    MulMonotone(1, x1 - x0, y1 - y0);
    forall c: nat | c < 4
      ensures Sum(q, c, x0, x1, y0, y1) == color.Channel(c) * count
      ensures (color.Channel(c) * count) / count == color.Channel(c)
    {
      SumFlat(q, c, x0, x1, y0, y1, color);
      QuotientIs(color.Channel(c) * count, count, color.Channel(c), 0);
    }
    assert color == Rgba(color.Channel(0), color.Channel(1), color.Channel(2), color.Channel(3));
  }

  lemma MeanChannel(p: Picture, c: nat, x0: int, x1: int, y0: int, y1: int)
    requires 0 <= x0 < x1 <= p.width && 0 <= y0 < y1 <= p.height && c < 4
    ensures var count := (x1 - x0) * (y1 - y0);
            && count > 0
            && MeanColor(p, x0, x1, y0, y1).Channel(c) == Sum(p, c, x0, x1, y0, y1) / count
  {
    MulMonotone(1, x1 - x0, y1 - y0);
  }

  // ----- every pixel -----

  lemma SelectedPixel(p: Picture, s: Selection, block: nat, u: int, v: int, c: nat)
    requires Fits(p, s) && block > 0 && s.Selects(u, v) && c < 4
    ensures var x0, y0 := u - (u - s.left) % block, v - (v - s.top) % block;
            var x1, y1 := Min(x0 + block, s.right + 1), Min(y0 + block, s.bottom + 1);
            && 0 <= x0 <= u < x1 <= p.width && 0 <= y0 <= v < y1 <= p.height
            && (x1 - x0) * (y1 - y0) > 0
            && BlockMean(p, s, block, u, v).Channel(c) == Sum(p, c, x0, x1, y0, y1) / ((x1 - x0) * (y1 - y0))
  {
    hide MeanColor, Sum;
    BlockStartIs(s.left, block, u);
    BlockStartIs(s.top, block, v);
    var x0, y0 := BlockStart(s.left, block, u), BlockStart(s.top, block, v);
    MeanChannel(p, c, x0, Min(x0 + block, s.right + 1), y0, Min(y0 + block, s.bottom + 1));
  }

  /** What a mosaic makes of each pixel: inside a selection at least two pixels wide and high, the floor mean of the
      original pixels of its block of the grid laid from the selection's corner; anywhere else, the pixel itself. */
  lemma MosaicPixel(p: Picture, from: Point, to: Point, u: int, v: int, c: nat)
    requires p.Inside(u, v) && c < 4
    ensures var q, block := Mosaicked(p, from, to), BlockSize(p.width, p.height);
            var left, right := Min(from.x, to.x), Min(Max(from.x, to.x), p.width - 1);
            var top, bottom := Min(from.y, to.y), Min(Max(from.y, to.y), p.height - 1);
            && q.Inside(u, v)
            && if left < right && top < bottom && left <= u <= right && top <= v <= bottom then
                 var x0, y0 := u - (u - left) % block, v - (v - top) % block;
                 var x1, y1 := Min(x0 + block, right + 1), Min(y0 + block, bottom + 1);
                 && 0 <= x0 <= u < x1 <= p.width && 0 <= y0 <= v < y1 <= p.height
                 && (x1 - x0) * (y1 - y0) > 0
                 && q.At(u, v).Channel(c) == Sum(p, c, x0, x1, y0, y1) / ((x1 - x0) * (y1 - y0))
               else q.At(u, v) == p.At(u, v)
  {
    hide BlockMean, Pixelated, Sum;
    var s, block := Select(from, to, p.width, p.height), BlockSize(p.width, p.height);
    if !s.Empty() {
      PixelatedAt(p, s, block, u, v);
      if s.Selects(u, v) {
        SelectedPixel(p, s, block, u, v, c);
      }
    }
  }

  // ----- idempotence -----

  /** Pixelating a second time changes nothing. */
  lemma MosaicIdempotent(p: Picture, from: Point, to: Point)
    ensures Mosaicked(Mosaicked(p, from, to), from, to) == Mosaicked(p, from, to)
  {
    var s, block := Select(from, to, p.width, p.height), BlockSize(p.width, p.height);
    if !s.Empty() {
      PixelatedTwice(p, s, block);
    }
  }

  lemma PixelatedTwice(p: Picture, s: Selection, block: nat)
    requires Fits(p, s) && block > 0
    ensures Pixelated(Pixelated(p, s, block), s, block) == Pixelated(p, s, block)
  {
    hide MeanColor, Pixelated;
    var q := Pixelated(p, s, block);
    forall u, v | q.Inside(u, v)
      ensures Pixelated(q, s, block).At(u, v) == q.At(u, v)
    {
      PixelatedAt(p, s, block, u, v);
      PixelatedAt(q, s, block, u, v);
      if s.Selects(u, v) {
        var x, y := BlockStart(s.left, block, u), BlockStart(s.top, block, v);
        StartAligned(s.left, block, u);
        StartAligned(s.top, block, v);
        var x1, y1 := Min(x + block, s.right + 1), Min(y + block, s.bottom + 1);
        BlockIsFlat(p, s, block, x, y);
        MeanOfFlat(q, x, x1, y, y1, MeanColor(p, x, x1, y, y1));
      }
    }
    SamePixels(Pixelated(q, s, block), q);
  }

  // ----- conservation -----

  /** `q` has at most as much of channel `c` in the rectangle as `p`, and less than one per pixel less. */
  ghost predicate SmallLoss(p: Picture, q: Picture, c: nat, x0: int, x1: int, y0: int, y1: int)
    requires p.width == q.width && p.height == q.height
    requires c < 4 && 0 <= x0 <= x1 <= p.width && 0 <= y0 <= y1 <= p.height
  {
    0 <= Sum(p, c, x0, x1, y0, y1) - Sum(q, c, x0, x1, y0, y1) < (x1 - x0) * (y1 - y0)
  }

  lemma BlockLoss(p: Picture, s: Selection, block: nat, c: nat, x: int, y: int)
    requires Fits(p, s) && block > 0 && Aligned(s, block, x, y) && c < 4
    ensures SmallLoss(p, Pixelated(p, s, block), c, x, Min(x + block, s.right + 1), y, Min(y + block, s.bottom + 1))
  {
    hide MeanColor, Pixelated, Sum;
    var x1, y1 := Min(x + block, s.right + 1), Min(y + block, s.bottom + 1);
    var color := MeanColor(p, x, x1, y, y1);
    BlockIsFlat(p, s, block, x, y);
    SumFlat(Pixelated(p, s, block), c, x, x1, y, y1, color);
    MeanChannel(p, c, x, x1, y, y1);
    SumBound(p, c, x, x1, y, y1);
    MeanFits(Sum(p, c, x, x1, y, y1), (x1 - x) * (y1 - y));
  }

  lemma {:induction false} BlockRowLoss(p: Picture, s: Selection, block: nat, c: nat, x: int, y: int)
    requires Fits(p, s) && block > 0 && Aligned(s, block, x, y) && c < 4
    ensures SmallLoss(p, Pixelated(p, s, block), c, x, s.right + 1, y, Min(y + block, s.bottom + 1))
    decreases s.right - x
  {
    hide Pixelated, Sum;
    BlockLoss(p, s, block, c, x, y);
    if x + block > s.right {
    } else {
      AlignedBlock(s.left, block, x, x);
      BlockRowLoss(p, s, block, c, x + block, y);
      var q, y1 := Pixelated(p, s, block), Min(y + block, s.bottom + 1);
      SumSplitX(p, c, x, x + block, s.right + 1, y, y1);
      SumSplitX(q, c, x, x + block, s.right + 1, y, y1);
      assert (s.right + 1 - x) * (y1 - y) == block * (y1 - y) + (s.right + 1 - (x + block)) * (y1 - y);
    }
  }

  lemma {:induction false} BlockRowsLoss(p: Picture, s: Selection, block: nat, c: nat, y: int)
    requires Fits(p, s) && block > 0 && Aligned(s, block, s.left, y) && c < 4
    ensures SmallLoss(p, Pixelated(p, s, block), c, s.left, s.right + 1, y, s.bottom + 1)
    decreases s.bottom - y
  {
    hide Pixelated, Sum;
    BlockRowLoss(p, s, block, c, s.left, y);
    if y + block > s.bottom {
    } else {
      AlignedBlock(s.top, block, y, y);
      BlockRowsLoss(p, s, block, c, y + block);
      var q, w := Pixelated(p, s, block), s.right + 1 - s.left;
      SumSplitY(p, c, s.left, s.right + 1, y, y + block, s.bottom + 1);
      SumSplitY(q, c, s.left, s.right + 1, y, y + block, s.bottom + 1);
      assert w * (s.bottom + 1 - y) == w * block + w * (s.bottom + 1 - (y + block));
    }
  }

  /** A sum over the image is the sum over a selection plus the four strips around it. */
  lemma Strips(p: Picture, s: Selection, c: nat)
    requires Fits(p, s) && c < 4
    ensures Sum(p, c, 0, p.width, 0, p.height) ==
            Sum(p, c, 0, p.width, 0, s.top) + Sum(p, c, 0, p.width, s.bottom + 1, p.height)
            + Sum(p, c, 0, s.left, s.top, s.bottom + 1) + Sum(p, c, s.right + 1, p.width, s.top, s.bottom + 1)
            + Sum(p, c, s.left, s.right + 1, s.top, s.bottom + 1)
  {
    hide Sum;
    SumSplitY(p, c, 0, p.width, 0, s.top, p.height);
    SumSplitY(p, c, 0, p.width, s.top, s.bottom + 1, p.height);
    SumSplitX(p, c, 0, s.left, p.width, s.top, s.bottom + 1);
    SumSplitX(p, c, s.left, s.right + 1, p.width, s.top, s.bottom + 1);
  }

  lemma StripsKept(p: Picture, s: Selection, block: nat, c: nat, x0: int, x1: int, y0: int, y1: int)
    requires Fits(p, s) && block > 0 && c < 4 && 0 <= x0 <= x1 <= p.width && 0 <= y0 <= y1 <= p.height
    requires x1 <= s.left || s.right < x0 || y1 <= s.top || s.bottom < y0
    ensures Sum(p, c, x0, x1, y0, y1) == Sum(Pixelated(p, s, block), c, x0, x1, y0, y1)
  {
    hide Sum, MeanColor, Pixelated;
    var q := Pixelated(p, s, block);
    forall u, v | x0 <= u < x1 && y0 <= v < y1
      ensures p.At(u, v) == q.At(u, v)
    {
      PixelatedAt(p, s, block, u, v);
    }
    SumSame(p, q, c, x0, x1, y0, y1);
  }

  /** A mosaic never adds to a channel's total over the image, and takes less than one per selected pixel. */
  lemma MosaicTotals(p: Picture, from: Point, to: Point, c: nat)
    requires c < 4
    ensures var s, q := Select(from, to, p.width, p.height), Mosaicked(p, from, to);
            var before, after := Sum(p, c, 0, p.width, 0, p.height), Sum(q, c, 0, q.width, 0, q.height);
            if s.Empty() then after == before
            else before - (s.right + 1 - s.left) * (s.bottom + 1 - s.top) < after <= before
  {
    hide Sum, Pixelated;
    var s, block := Select(from, to, p.width, p.height), BlockSize(p.width, p.height);
    if !s.Empty() {
      Strips(p, s, c);
      Strips(Pixelated(p, s, block), s, c);
      StripsKept(p, s, block, c, 0, p.width, 0, s.top);
      StripsKept(p, s, block, c, 0, p.width, s.bottom + 1, p.height);
      StripsKept(p, s, block, c, 0, s.left, s.top, s.bottom + 1);
      StripsKept(p, s, block, c, s.right + 1, p.width, s.top, s.bottom + 1);
      BlockRowsLoss(p, s, block, c, s.top);
    }
  }
}
