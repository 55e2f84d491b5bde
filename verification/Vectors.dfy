/** Exact vectors in three dimensions. A square root is a non-negative number with the right square. */
module Vectors {
  datatype Vec = Vec(x: real, y: real, z: real)

  function Plus(a: Vec, b: Vec): Vec { Vec(a.x + b.x, a.y + b.y, a.z + b.z) }

  function Minus(a: Vec, b: Vec): Vec { Vec(a.x - b.x, a.y - b.y, a.z - b.z) }

  function Times(a: Vec, s: real): Vec { Vec(a.x * s, a.y * s, a.z * s) }

  function Dot(a: Vec, b: Vec): real { a.x * b.x + a.y * b.y + a.z * b.z }

  function Norm2(a: Vec): real { Dot(a, a) }

  /** len is the square root of the squared length of a. */
  predicate IsNorm(len: real, a: Vec) {
    len >= 0.0 && len * len == Norm2(a)
  }

  lemma MulMono(x: real, y: real, k: real)
    requires x <= y && k >= 0.0
    ensures x * k <= y * k
  {
  }

  lemma MulStrict(x: real, y: real, k: real)
    requires x < y && k > 0.0
    ensures x * k < y * k
  {
  }

  /** Squares are ordered as the numbers are, from zero on. */
  lemma SquareOrder(a: real, b: real)
    requires a >= 0.0 && b >= 0.0
    ensures a <= b <==> a * a <= b * b
  {
    if a <= b {
    } else {
      MulStrict(0.0, a - b, a + b);
    }
  }

  /** Comparing a square root with a radius is comparing the squares. */
  lemma RootCompare(dist: real, v: Vec, radius: real)
    requires IsNorm(dist, v) && radius >= 0.0
    ensures dist <= radius <==> Norm2(v) <= radius * radius
  {
    SquareOrder(dist, radius);
  }

  lemma NonNegativeSquare(a: real)
    ensures a * a >= 0.0
  {
  }

  lemma CauchySchwarz(a: Vec, b: Vec)
    ensures Dot(a, b) * Dot(a, b) <= Norm2(a) * Norm2(b)
  {
    NonNegativeSquare(a.x * b.y - a.y * b.x);
    NonNegativeSquare(a.y * b.z - a.z * b.y);
    NonNegativeSquare(a.z * b.x - a.x * b.z);
  }

  lemma SumBound(p: real, q: real, d: real, m: real, n: real)
    requires m >= 0.0 && n >= 0.0 && 0.0 <= p <= m * m && 0.0 <= q <= n * n && d * d <= p * q
    ensures p + 2.0 * d + q <= (m + n) * (m + n)
  {
    MulMono(p, m * m, q);
    if d >= 0.0 {
      SquareOrder(d, m * n);
    }
  }

  /** Two vectors of bounded length add up to at most the sum of the bounds. */
  lemma Triangle(a: Vec, b: Vec, m: real, n: real)
    requires m >= 0.0 && n >= 0.0 && Norm2(a) <= m * m && Norm2(b) <= n * n
    ensures Norm2(Plus(a, b)) <= (m + n) * (m + n)
  {
    CauchySchwarz(a, b);
    SumBound(Norm2(a), Norm2(b), Dot(a, b), m, n);
  }
}
