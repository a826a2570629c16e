/**
 * Positions, the playing field and distances. Coordinates are integers (the
 * source draws them with `random.randint` and moves them by the integer
 * speed), so the source's `math.hypot` comparisons are decided exactly by
 * comparing squared distances.
 */
module Geometry {
  import opened Kinds

  /** The window size of the simulation. */
  const SCREEN_WIDTH: int := 800
  const SCREEN_HEIGHT: int := 600

  /** Every unit's per-axis step and its size (sprite side and touch radius). */
  const SPEED: int := 2
  const SIZE: int := 40

  /** The part of a unit the simulation reads and writes: its type and position. */
  datatype Agent = Agent(kind: Kind, x: int, y: int)

  /** The square of the Euclidean distance between two units. */
  function DistanceSq(a: Agent, b: Agent): (d: int)
    ensures d >= 0
    ensures d == 0 <==> a.x == b.x && a.y == b.y
  {
    (a.x - b.x) * (a.x - b.x) + (a.y - b.y) * (a.y - b.y)
  }

  /** `h` is the Euclidean distance whose square is `sq`, as `math.hypot` gives it. */
  ghost predicate IsEuclidean(h: real, sq: int)
  {
    h >= 0.0 && h * h == sq as real
  }

  lemma ProductPositive(u: real, v: real)
    requires u > 0.0 && v > 0.0
    ensures u * v > 0.0
  {
  }

  lemma SquareStrictlyMonotone(a: real, b: real)
    requires 0.0 <= a < b
    ensures a * a < b * b
  {
    ProductPositive(b - a, b + a);
    assert (b - a) * (b + a) == b * b - a * a;
  }

  /**
   * Comparing two Euclidean distances is the same as comparing their squares,
   * so `dist < min_dist` in `find_closest` is decided by squared distances.
   */
  lemma {:induction false} HypotOrder(h1: real, sq1: int, h2: real, sq2: int)
    requires IsEuclidean(h1, sq1) && IsEuclidean(h2, sq2)
    ensures h1 < h2 <==> sq1 < sq2
  {
    if h1 < h2 {
      SquareStrictlyMonotone(h1, h2);
    } else if h2 < h1 {
      SquareStrictlyMonotone(h2, h1);
    }
  }

  /**
   * A Euclidean distance is below a non-negative integer bound exactly when
   * its square is below the bound's square: `dist < self.size` in
   * `check_collision` is decided by squared distances.
   */
  lemma {:induction false} HypotBelow(sq: int, bound: int)
    requires bound >= 0
    ensures forall h :: IsEuclidean(h, sq) ==> (h < bound as real <==> sq < bound * bound)
  {
    forall h | IsEuclidean(h, sq)
      ensures h < bound as real <==> sq < bound * bound
    {
      var b := bound as real;
      assert (bound * bound) as real == b * b;
      HypotOrder(h, sq, b, bound * bound);
    }
  }

  /** The bounds invariant: the unit's whole sprite lies inside the window. */
  predicate InBounds(a: Agent)
  {
    0 <= a.x <= SCREEN_WIDTH - SIZE && 0 <= a.y <= SCREEN_HEIGHT - SIZE
  }

  /**
   * `check_collision` of a unit of size SIZE at `a` against a unit at `b`.
   * Every unit has the same size, so the test is symmetric.
   */
  function Collides(a: Agent, b: Agent): (hit: bool)
    ensures a.x == b.x && a.y == b.y ==> hit
  {
    DistanceSq(a, b) < SIZE * SIZE
  }

  /** Units at the same place touch, and touching does not depend on the order. */
  lemma CollisionSymmetric(a: Agent, b: Agent)
    ensures Collides(a, b) == Collides(b, a)
    ensures a.x == b.x && a.y == b.y ==> Collides(a, b)
  {
  }
}
