/** The numeric and geometric vocabulary of the car simulation: the track map,
    the heading trigonometry, Python's int() truncation, the position clamp and
    the integer square root behind the radar distance. */
module Geometry {

  /** The heading trigonometry, left uninterpreted. For a heading of d degrees
      and a whole length l, dx(d, l) and dy(d, l) stand for
      math.cos(math.radians(360 - d)) * l and math.sin(math.radians(360 - d)) * l:
      the two components of a step of length l along that heading. Every length
      the simulation steps by (a speed, a radar length, half the car's width) is
      a whole number. */
  datatype Trig = Trig(dx: (int, int) -> real, dy: (int, int) -> real)

  /** A point in screen coordinates, and a pixel (a point with integer coordinates). */
  type Point = (real, real)
  type Pixel = (int, int)

  /** The track bitmap, reduced to the one question the simulation asks of it:
      is the pixel at (x, y) the border colour (255, 255, 255, 255)? */
  type GameMap = Pixel -> bool

  /** Python's int() on a float: truncation toward zero. */
  function Trunc(r: real): int
  {
    if r >= 0.0 then r.Floor else -((-r).Floor)
  }

  /** Trunc drops the fractional part, toward zero on both sides. */
  lemma TruncTowardZero(r: real)
    ensures r >= 0.0 ==> 0 <= Trunc(r) && Trunc(r) as real <= r < Trunc(r) as real + 1.0
    ensures r < 0.0 ==> Trunc(r) <= 0 && Trunc(r) as real - 1.0 < r <= Trunc(r) as real
  {
  }

  /** The pixel a point falls on: both coordinates passed through int(), so
      each lies less than one unit from the point's, on the side of zero. */
  function PixelOf(p: Point): (q: Pixel)
    ensures p.0 >= 0.0 ==> 0 <= q.0 && q.0 as real <= p.0 < q.0 as real + 1.0
    ensures p.0 < 0.0 ==> q.0 <= 0 && q.0 as real - 1.0 < p.0 <= q.0 as real
    ensures p.1 >= 0.0 ==> 0 <= q.1 && q.1 as real <= p.1 < q.1 as real + 1.0
    ensures p.1 < 0.0 ==> q.1 <= 0 && q.1 as real - 1.0 < p.1 <= q.1 as real
  {
    (Trunc(p.0), Trunc(p.1))
  }

  /** Python's two-argument max and min on numbers. */
  function Max(a: real, b: real): real { if b > a then b else a }
  function Min(a: real, b: real): real { if b < a then b else a }

  /** min(max(v, lo), hi): the clamp applied to each coordinate of the car. */
  function Clamp(v: real, lo: real, hi: real): (r: real)
    requires lo <= hi
    ensures lo <= r <= hi
    ensures lo <= v <= hi ==> r == v
    ensures v < lo ==> r == lo
    ensures v > hi ==> r == hi
  {
    Min(Max(v, lo), hi)
  }

  /** int(math.sqrt(n)) for a non-negative integer n, computed by halving:
      the root of n is twice the root of n / 4, or one more. */
  function ISqrt(n: nat): nat
  {
    if n < 4 then (if n == 0 then 0 else 1)
    else
      var s := 2 * ISqrt(n / 4);
      if (s + 1) * (s + 1) <= n then s + 1 else s
  }

  /** ISqrt(n) is the largest r with r * r <= n. */
  lemma {:induction false} ISqrtIsRoot(n: nat)
    ensures ISqrt(n) * ISqrt(n) <= n < (ISqrt(n) + 1) * (ISqrt(n) + 1)
  {
    if n >= 4 {
      ISqrtIsRoot(n / 4);
      HalvedRoot(n, ISqrt(n / 4));
    }
  }

  /** If t is the integer root of n / 4, then 2 * t and 2 * t + 2 bracket the root of n. */
  lemma HalvedRoot(n: nat, t: nat)
    requires t * t <= n / 4 < (t + 1) * (t + 1)
    ensures (2 * t) * (2 * t) <= n < (2 * t + 2) * (2 * t + 2)
  {
    var q := n / 4;
    assert n == 4 * q + n % 4;
    assert (2 * t) * (2 * t) == 4 * (t * t);
    assert (2 * t + 2) * (2 * t + 2) == 4 * ((t + 1) * (t + 1));
    assert q + 1 <= (t + 1) * (t + 1);
  }

  /** The square of an integer, as a natural number. */
  function Square(z: int): nat
  {
    if z < 0 then (-z) * (-z) else z * z
  }
}
