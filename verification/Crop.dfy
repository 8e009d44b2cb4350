/** `apply_crop`: the selected rectangle as an image of its own. */
module Crop {
  import opened Basics
  import opened Images

  /** One corner of a selection, moved onto the image. */
  function Clamped(c: U32, size: nat): nat { Min(c, Pred(size)) }

  /** `crop_imm(left, top, width, height).to_image()` of a rectangle inside the image. */
  function Cut(image: Picture, left: nat, top: nat, right: nat, bottom: nat): (r: Picture)
    requires left <= right < image.width && top <= bottom < image.height
    ensures r.width == right - left + 1 && r.height == bottom - top + 1
    ensures forall x, y :: r.Inside(x, y) ==> r.At(x, y) == image.At(left + x, top + y)
  {
    var height := bottom - top + 1;
    Raw(right - left + 1, height,
        seq(height, y requires 0 <= y < height => image.rows[top + y][left..right + 1]))
  }

  /** The ends of the selection in one coordinate: `a.min(b).min(size - 1)` and `a.max(b).min(size - 1)`. */
  function Low(a: U32, b: U32, size: nat): nat { Min(Min(a, b), Pred(size)) }
  function High(a: U32, b: U32, size: nat): nat { Min(Max(a, b), Pred(size)) }

  function ApplyCrop(image: Picture, from: Point, to: Point): Option<Picture> {
    var left, right := Low(from.x, to.x, image.width), High(from.x, to.x, image.width);
    var top, bottom := Low(from.y, to.y, image.height), High(from.y, to.y, image.height);
    if right <= left || bottom <= top then None else Some(Cut(image, left, top, right, bottom))
  }

  /** A crop succeeds exactly when the two corners, moved onto the image, differ in both coordinates; its pixels are
      those of the rectangle they span. */
  lemma CropPixels(image: Picture, from: Point, to: Point)
    ensures var w, h, r := image.width - 1, image.height - 1, ApplyCrop(image, from, to);
            && (r.Some? <==> w >= 0 && h >= 0 && Min(from.x, w) != Min(to.x, w) && Min(from.y, h) != Min(to.y, h))
            && (r.Some? ==>
                  var left, top := Min(Min(from.x, to.x), w), Min(Min(from.y, to.y), h);
                  && r.value.width == Min(Max(from.x, to.x), w) - left + 1
                  && r.value.height == Min(Max(from.y, to.y), h) - top + 1
                  && forall x, y :: r.value.Inside(x, y) ==> r.value.At(x, y) == image.At(left + x, top + y))
  {
  }

  /** Swapping the corners, in one coordinate or both, selects the same rectangle. */
  lemma CornersSwap(image: Picture, from: Point, to: Point)
    ensures ApplyCrop(image, to, from) == ApplyCrop(image, from, to)
    ensures ApplyCrop(image, Point(to.x, from.y), Point(from.x, to.y)) == ApplyCrop(image, from, to)
  {
  }

  /** A coordinate of the inner selection, in the coordinates of the outer image. */
  function Shifted(a: U32, b: U32, size: nat, c: U32): U32
    requires size < U32_SIZE && Low(a, b, size) < High(a, b, size)
  {
    Low(a, b, size) + Clamped(c, High(a, b, size) - Low(a, b, size) + 1)
  }

  function Translated(image: Picture, from: Point, to: Point, corner: Point): Point
    requires image.width < U32_SIZE && image.height < U32_SIZE
    requires ApplyCrop(image, from, to).Some?
  {
    Point(Shifted(from.x, to.x, image.width, corner.x), Shifted(from.y, to.y, image.height, corner.y))
  }

  lemma CutOfCut(image: Picture, left: nat, top: nat, right: nat, bottom: nat, l: nat, t: nat, r: nat, b: nat)
    requires left <= right < image.width && top <= bottom < image.height
    requires l <= r <= right - left && t <= b <= bottom - top
    ensures Cut(Cut(image, left, top, right, bottom), l, t, r, b) == Cut(image, left + l, top + t, left + r, top + b)
  {
    var inner := Cut(Cut(image, left, top, right, bottom), l, t, r, b);
    var whole := Cut(image, left + l, top + t, left + r, top + b);
    forall x, y | inner.Inside(x, y)
      ensures inner.At(x, y) == whole.At(x, y)
    {
      assert Cut(image, left, top, right, bottom).Inside(l + x, t + y);
      assert whole.Inside(x, y);
    }
    SamePixels(inner, whole);
  }

  /** In one coordinate: the selection inside a selection is the selection of the shifted corners. */
  lemma SelectionOfSelection(a: U32, b: U32, size: nat, c: U32, d: U32)
    requires size < U32_SIZE && Low(a, b, size) < High(a, b, size)
    ensures var low, length := Low(a, b, size), High(a, b, size) - Low(a, b, size) + 1;
            var c', d' := Shifted(a, b, size, c), Shifted(a, b, size, d);
            && Low(c', d', size) == low + Low(c, d, length)
            && High(c', d', size) == low + High(c, d, length)
            && High(c, d, length) < length && High(a, b, size) < size
  {
  }

  /** Cropping a crop is one crop of the original at the translated corners: both fail or both give the same image. */
  lemma CropOfCrop(image: Picture, from: Point, to: Point, from': Point, to': Point)
    requires image.width < U32_SIZE && image.height < U32_SIZE
    requires ApplyCrop(image, from, to).Some?
    ensures ApplyCrop(ApplyCrop(image, from, to).value, from', to') ==
            ApplyCrop(image, Translated(image, from, to, from'), Translated(image, from, to, to'))
  {
    hide Cut, Low, High, Shifted;
    var left, right := Low(from.x, to.x, image.width), High(from.x, to.x, image.width);
    var top, bottom := Low(from.y, to.y, image.height), High(from.y, to.y, image.height);
    var width, height := right - left + 1, bottom - top + 1;
    SelectionOfSelection(from.x, to.x, image.width, from'.x, to'.x);
    SelectionOfSelection(from.y, to.y, image.height, from'.y, to'.y);
    var l, r := Low(from'.x, to'.x, width), High(from'.x, to'.x, width);
    var t, b := Low(from'.y, to'.y, height), High(from'.y, to'.y, height);
    if l < r && t < b {
      CutOfCut(image, left, top, right, bottom, l, t, r, b);
    }
  }
}
