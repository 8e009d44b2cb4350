/** The integer line walk of `draw_line`, against the ideal line rounded half up. */
module Line {
  import opened Arithmetic
  import opened Basics
  import opened Images

  /** p/q rounded to the nearest integer, ties upwards, by repeated subtraction. */
  function RoundHalfUp(p: int, q: nat): nat
    requires q > 0 && 2 * p + q >= 0
    decreases 2 * p + q
  {
    if 2 * p < q then 0 else 1 + RoundHalfUp(p - q, q)
  }

  /** What rounding leaves over: `p - RoundHalfUp(p, q) * q`. */
  function Residue(p: int, q: nat): int
    requires q > 0 && 2 * p + q >= 0
    decreases 2 * p + q
  {
    if 2 * p < q then p else Residue(p - q, q)
  }

  /** The number of moves from one end to the other. */
  function Span(from: Point, to: Point): nat { Max(Abs(to.x - from.x), Abs(to.y - from.y)) }

  /** How far a coordinate that covers `d` in `n` steps has moved after `k` of them: `k * d / n`, rounded half up. */
  function Travelled(k: nat, d: nat, n: nat): nat {
    if n == 0 then 0 else RoundHalfUp(k * d, n)
  }

  /** One coordinate of the ideal line `k` of `n` steps along, rounded half up in the direction of travel. */
  function Along(a: int, b: int, k: nat, n: nat): int {
    var moved := Travelled(k, Abs(b - a), n);
    if a < b then a + moved else a - moved
  }

  /** The `k`-th centre of the ideal line. */
  function CentreX(from: Point, to: Point, k: nat): int { Along(from.x, to.x, k, Span(from, to)) }
  function CentreY(from: Point, to: Point, k: nat): int { Along(from.y, to.y, k, Span(from, to)) }

  /** The error term `draw_line` carries after `k` steps of a line spanning `a` by `b`: the drift off the ideal
      line, in units of 1/max(a, b) of a pixel. */
  function ErrorTerm(a: nat, b: nat, k: nat): int {
    if a == 0 && b == 0 then 0
    else if a >= b then a - b - Residue(k * b, a)
    else a - b + Residue(k * a, b)
  }

  // ----- rounding -----

  lemma {:induction false} ResidueBand(p: int, q: nat)
    requires q > 0 && 2 * p + q >= 0
    ensures 0 <= 2 * Residue(p, q) + q < 2 * q
    decreases 2 * p + q
  {
    if 2 * p < q {
    } else {
      ResidueBand(p - q, q);
    }
  }

  lemma {:induction false} RoundSplits(p: int, q: nat)
    requires q > 0 && 2 * p + q >= 0
    ensures p == RoundHalfUp(p, q) * q + Residue(p, q)
    decreases 2 * p + q
  {
    if 2 * p < q {
    } else {
      RoundSplits(p - q, q);
      var r := RoundHalfUp(p - q, q);
      assert (r + 1) * q == r * q + q;
    }
  }

  /** Rounding half up is the floor of p/q + 1/2. */
  lemma RoundIsFloor(p: nat, q: nat)
    requires q > 0
    ensures RoundHalfUp(p, q) == (2 * p + q) / (2 * q)
    ensures 2 * Residue(p, q) + q == (2 * p + q) % (2 * q)
  {
    var r := RoundHalfUp(p, q);
    RoundSplits(p, q);
    ResidueBand(p, q);
    assert r * (2 * q) == 2 * (r * q);
    QuotientIs(2 * p + q, 2 * q, r, 2 * Residue(p, q) + q);
  }

  /** Adding `m` whole units. */
  lemma {:induction false} RoundShift(p: int, m: nat, q: nat)
    requires q > 0 && 2 * p + q >= 0
    ensures m * q >= 0 && RoundHalfUp(p + m * q, q) == RoundHalfUp(p, q) + m
    ensures Residue(p + m * q, q) == Residue(p, q)
  {
    if m == 0 {
    } else {
      RoundShift(p, m - 1, q);
      assert m * q == (m - 1) * q + q;
    }
  }

  /** Adding `b <= q` moves the rounded value by one exactly when the band is left. */
  lemma {:induction false} RoundNext(p: int, b: nat, q: nat)
    requires b <= q && q > 0 && 2 * p + q >= 0
    ensures var up := 2 * Residue(p, q) + 2 * b >= q;
            && RoundHalfUp(p + b, q) == RoundHalfUp(p, q) + (if up then 1 else 0)
            && Residue(p + b, q) == Residue(p, q) + b - (if up then q else 0)
    decreases 2 * p + q
  {
    if 2 * p >= q {
      RoundNext(p - q, b, q);
      assert p + b - q == p - q + b;
    } else if 2 * (p + b) >= q {
      assert 2 * (p + b - q) < q;
    }
  }

  lemma {:induction false} RoundMonotone(p: int, p': int, q: nat)
    requires q > 0 && 0 <= 2 * p + q && p <= p'
    ensures RoundHalfUp(p, q) <= RoundHalfUp(p', q)
    decreases 2 * p + q
  {
    if 2 * p < q {
    } else {
      RoundMonotone(p - q, p' - q, q);
    }
  }

  lemma RoundExact(k: nat, n: nat)
    requires n > 0
    ensures k * n >= 0 && RoundHalfUp(k * n, n) == k && Residue(k * n, n) == 0
  {
    RoundShift(0, k, n);
  }

  // ----- the loop body -----

  /** One more step of the minor coordinate, with the product kept out of sight. */
  lemma MinorStep(k: nat, b: nat, n: nat)
    requires b <= n && n > 0
    ensures var rest := Residue(k * b, n);
            var up := 2 * rest + 2 * b >= n;
            && 0 <= 2 * rest + n < 2 * n
            && Travelled(k + 1, b, n) == Travelled(k, b, n) + (if up then 1 else 0)
            && Residue((k + 1) * b, n) == rest + b - (if up then n else 0)
            && Travelled(k, n, n) == k && Travelled(k + 1, n, n) == k + 1
  {
    assert (k + 1) * b == k * b + b;
    ResidueBand(k * b, n);
    RoundNext(k * b, b, n);
    RoundExact(k, n);
    RoundExact(k + 1, n);
  }

  /** The two tests of the loop body take exactly the steps that reach the next centre, keep the error term,
      and the doubled error stays within three spans. */
  lemma StepRefines(a: nat, b: nat, k: nat)
    requires Max(a, b) > 0
    ensures var n, e := Max(a, b), ErrorTerm(a, b, k);
            var stepX, stepY := 2 * e + b >= 0, 2 * e <= a;
            && Travelled(k + 1, a, n) == Travelled(k, a, n) + (if stepX then 1 else 0)
            && Travelled(k + 1, b, n) == Travelled(k, b, n) + (if stepY then 1 else 0)
            && ErrorTerm(a, b, k + 1) == e - (if stepX then b else 0) + (if stepY then a else 0)
            && -3 * n <= 2 * e <= 3 * n
  {
    if a >= b {
      MinorStep(k, b, a);
    } else {
      MinorStep(k, a, b);
    }
  }

  // ----- the whole walk -----

  lemma AlongEnds(a: int, b: int, k: nat, n: nat)
    requires k <= n && Abs(b - a) <= n
    ensures Along(a, b, 0, n) == a && Along(a, b, n, n) == b
    ensures Abs(b - a) == n && Along(a, b, k, n) == b ==> k == n
  {
    if n > 0 {
      RoundExact(k, n);
      RoundExact(Abs(b - a), n);
      assert n * Abs(b - a) == Abs(b - a) * n && 0 * Abs(b - a) == 0;
    }
  }

  /** The walk starts at `from` and, after exactly `Span` moves and no earlier, stands at `to`. */
  lemma WalkEnds(from: Point, to: Point, k: nat)
    requires k <= Span(from, to)
    ensures CentreX(from, to, 0) == from.x && CentreY(from, to, 0) == from.y
    ensures (CentreX(from, to, k) == to.x && CentreY(from, to, k) == to.y) <==> k == Span(from, to)
  {
    AlongEnds(from.x, to.x, k, Span(from, to));
    AlongEnds(from.y, to.y, k, Span(from, to));
  }

  /** Consecutive centres are distinct 8-neighbours. */
  lemma WalkConnected(from: Point, to: Point, k: nat)
    requires k < Span(from, to)
    ensures Max(Abs(CentreX(from, to, k + 1) - CentreX(from, to, k)),
                Abs(CentreY(from, to, k + 1) - CentreY(from, to, k))) == 1
  {
    MinorStep(k, Abs(to.x - from.x), Span(from, to));
    MinorStep(k, Abs(to.y - from.y), Span(from, to));
  }

  lemma AlongBetween(a: int, b: int, k: nat, n: nat)
    requires k <= n && Abs(b - a) <= n
    ensures Min(a, b) <= Along(a, b, k, n) <= Max(a, b)
  {
    if n > 0 {
      var d := Abs(b - a);
      MulMonotone(k, n, d);
      RoundMonotone(k * d, n * d, n);
      RoundExact(d, n);
      assert n * d == d * n;
    }
  }

  /** Every centre stays in the bounding box of the end points. */
  lemma WalkInBox(from: Point, to: Point, k: nat)
    requires k <= Span(from, to)
    ensures Min(from.x, to.x) <= CentreX(from, to, k) <= Max(from.x, to.x)
    ensures Min(from.y, to.y) <= CentreY(from, to, k) <= Max(from.y, to.y)
  {
    AlongBetween(from.x, to.x, k, Span(from, to));
    AlongBetween(from.y, to.y, k, Span(from, to));
  }

  /** The closed form: the longer coordinate moves one pixel a step, and a coordinate covering `d` in `n` steps has
      moved `floor(k * d / n + 1/2)` after `k` of them. */
  lemma WalkIsRoundedLine(k: nat, d: nat, n: nat)
    requires n > 0
    ensures Travelled(k, n, n) == k
    ensures Travelled(k, d, n) == (2 * (k * d) + n) / (2 * n)
  {
    RoundExact(k, n);
    RoundIsFloor(k * d, n);
  }

  // ----- reversing a line -----

  /** Step `k` of a coordinate that covers `d` in `n` steps falls exactly halfway between two pixels. */
  predicate Tie(k: nat, d: nat, n: nat) { n > 0 && (2 * (k * d) + n) % (2 * n) == 0 }

  /** Mirroring a rounded value: the remainder of the way rounds to the remainder, one more on a tie. */
  lemma MirroredRound(p: nat, m: nat, q: nat)
    requires q > 0 && p <= m * q
    ensures RoundHalfUp(p, q) <= m
    ensures RoundHalfUp(m * q - p, q) ==
            m - RoundHalfUp(p, q) + if 2 * Residue(p, q) + q == 0 then 1 else 0
  {
    var r, rest := RoundHalfUp(p, q), Residue(p, q);
    ResidueBand(p, q);
    RoundSplits(p, q);
    RoundExact(m, q);
    RoundMonotone(p, m * q, q);
    assert (m - r) * q == m * q - r * q;
    RoundShift(-rest, m - r, q);
    assert m * q - p == -rest + (m - r) * q;
    assert 2 * (-rest - q) < q;
  }

  lemma MirroredTravel(k: nat, d: nat, n: nat)
    requires k <= n && n > 0
    ensures Travelled(k, d, n) <= d
    ensures Travelled(n - k, d, n) == d - Travelled(k, d, n) + if Tie(k, d, n) then 1 else 0
  {
    MulMonotone(k, n, d);
    assert n * d == d * n && (n - k) * d == n * d - k * d;
    RoundIsFloor(k * d, n);
    MirroredRound(k * d, d, n);
  }

  /** Ties round towards the end point, so the reversed walk retraces the walk exactly when neither
      coordinate meets a tie on the way. */
  lemma ReversedWalk(from: Point, to: Point)
    ensures var n, a, b := Span(from, to), Abs(to.x - from.x), Abs(to.y - from.y);
            (forall k: nat | k <= n ::
               && CentreX(to, from, n - k) == CentreX(from, to, k)
               && CentreY(to, from, n - k) == CentreY(from, to, k))
            <==>
            (forall k: nat | k <= n :: !Tie(k, a, n) && !Tie(k, b, n))
  {
    var n, a, b := Span(from, to), Abs(to.x - from.x), Abs(to.y - from.y);
    forall k: nat | k <= n
      ensures (&& CentreX(to, from, n - k) == CentreX(from, to, k)
               && CentreY(to, from, n - k) == CentreY(from, to, k))
              <==> (!Tie(k, a, n) && !Tie(k, b, n))
    {
      if n > 0 {
        MirroredTravel(k, a, n);
        MirroredTravel(k, b, n);
        NoTieAtRest(k, n);
      }
    }
  }

  lemma NoTieAtRest(k: nat, n: nat)
    requires n > 0
    ensures !Tie(k, 0, n)
  {
    assert k * 0 == 0;
    QuotientIs(n, 2 * n, 0, n);
  }

  /** A line from (0,0) to (2,1) passes (1,1); reversed it passes (1,0). */
  lemma ReversedLineDiffers()
    ensures CentreY(Point(0, 0), Point(2, 1), 1) == 1
    ensures CentreY(Point(2, 1), Point(0, 0), 1) == 0
  {
    assert Span(Point(0, 0), Point(2, 1)) == 2 == Span(Point(2, 1), Point(0, 0));
    assert RoundHalfUp(1, 2) == 1;
  }
}
