/** Machine integers, pixels and images of the editor.

    The source's `u32`, `i64` and `u8` are subset types of `int`: every value stored in a
    variable of such a type is checked to fit, so a verified method never overflows.
    A buffer that is drawn on is an `array2<Rgba>` indexed `[y, x]`; `Picture` is its value. */
module Images {
  import opened Basics

  const U32_SIZE: int := 0x1_0000_0000

  type U32 = x: int | 0 <= x < 0x1_0000_0000
  type I64 = x: int | -0x8000_0000_0000_0000 <= x < 0x8000_0000_0000_0000
  type U8 = x: int | 0 <= x < 256

  datatype Rgba = Rgba(r: U8, g: U8, b: U8, a: U8) {
    function Channel(c: nat): U8
      requires c < 4
    {
      if c == 0 then r else if c == 1 then g else if c == 2 then b else a
    }
  }

  datatype Point = Point(x: U32, y: U32)

  /** `u32::saturating_sub(1)`. */
  function Pred(n: nat): nat { if n == 0 then 0 else n - 1 }

  /** `u32::saturating_add`. */
  function SaturatingAdd(a: U32, b: U32): U32 { Min(a + b, U32_SIZE - 1) }

  /** The value of an image: a rectangle of pixels, row by row. */
  datatype Raw = Raw(width: nat, height: nat, rows: seq<seq<Rgba>>) {
    predicate WellFormed() {
      |rows| == height && forall y :: 0 <= y < height ==> |rows[y]| == width
    }

    predicate Inside(x: int, y: int) { 0 <= x < width && 0 <= y < height }

    function At(x: int, y: int): Rgba
      requires WellFormed() && Inside(x, y)
    {
      rows[y][x]
    }
  }

  type Picture = p: Raw | p.WellFormed() witness Raw(0, 0, [])

  /** The picture of the given size whose pixel at `(x, y)` is `f(x, y)`. */
  function Build(width: nat, height: nat, f: (int, int) --> Rgba): (p: Picture)
    requires forall x, y :: 0 <= x < width && 0 <= y < height ==> f.requires(x, y)
    ensures p.width == width && p.height == height
    ensures forall x, y :: p.Inside(x, y) ==> p.At(x, y) == f(x, y)
  {
    Raw(width, height,
        seq(height, y requires 0 <= y < height => seq(width, x requires 0 <= x < width => f(x, y))))
  }

  /** Two pictures of one size with the same pixels are the same picture. */
  lemma SamePixels(p: Picture, q: Picture)
    requires p.width == q.width && p.height == q.height
    requires forall x, y :: p.Inside(x, y) ==> p.At(x, y) == q.At(x, y)
    ensures p == q
  {
    forall y | 0 <= y < p.height
      ensures p.rows[y] == q.rows[y]
    {
      assert |p.rows[y]| == |q.rows[y]| == p.width;
      forall x | 0 <= x < p.width
        ensures p.rows[y][x] == q.rows[y][x]
      {
        assert p.At(x, y) == q.At(x, y);
      }
    }
  }

  /** The picture a buffer currently shows. */
  ghost function View(image: array2<Rgba>): (p: Picture)
    reads image
    ensures p.width == image.Length1 && p.height == image.Length0
    ensures forall x, y :: p.Inside(x, y) ==> p.At(x, y) == image[y, x]
  {
    Raw(image.Length1, image.Length0,
        seq(image.Length0, y requires 0 <= y < image.Length0 reads image =>
          seq(image.Length1, x requires 0 <= x < image.Length1 reads image => image[y, x])))
  }
}
