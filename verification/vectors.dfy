/**
 Three-dimensional vectors over the reals, standing in for CGL's `Vector3D`.

 Euclidean length needs a square root, which the reals of Dafny do not provide.
 Every operation that measures a length therefore takes the length function
 `norm` as a parameter, constrained by `IsNorm`: it is non-negative and its
 square is the dot product of a vector with itself. That determines `norm`
 uniquely (`NormUnique`), so nothing here depends on which function the caller
 passes.

 The solver is weak at strict inequalities over products, so the sign facts
 below are proved in small steps over plain reals and then lifted to vectors.
 */
module Vectors {

  datatype Vec = Vec(x: real, y: real, z: real)

  const Zero: Vec := Vec(0.0, 0.0, 0.0)

  function Add(u: Vec, v: Vec): Vec {
    Vec(u.x + v.x, u.y + v.y, u.z + v.z)
  }

  function Sub(u: Vec, v: Vec): Vec {
    Vec(u.x - v.x, u.y - v.y, u.z - v.z)
  }

  function Scale(k: real, v: Vec): Vec {
    Vec(k * v.x, k * v.y, k * v.z)
  }

  function Dot(u: Vec, v: Vec): real {
    u.x * v.x + u.y * v.y + u.z * v.z
  }

  /** `norm` is the Euclidean length. */
  ghost predicate IsNorm(norm: Vec -> real) {
    forall v :: norm(v) >= 0.0 && norm(v) * norm(v) == Dot(v, v)
  }

  /**
   CGL's `unit()` and `normalize()`: the vector divided by its length. The zero
   vector, where CGL divides by zero, is mapped to `Zero`.
   */
  function Unit(norm: Vec -> real, v: Vec): (u: Vec)
    requires IsNorm(norm)
    ensures v == Zero ==> u == Zero
    ensures v != Zero ==> norm(u) == 1.0 && Scale(norm(v), u) == v
  {
    NormZeroIff(norm, v);
    if norm(v) == 0.0 then
      Zero
    else
      UnitOfNonZero(norm, v);
      Scale(1.0 / norm(v), v)
  }

  lemma UnitOfNonZero(norm: Vec -> real, v: Vec)
    requires IsNorm(norm) && norm(v) != 0.0
    ensures norm(Scale(1.0 / norm(v), v)) == 1.0
    ensures Scale(norm(v), Scale(1.0 / norm(v), v)) == v
  {
    var n := norm(v);
    NormSquare(norm, v);
    assert 1.0 / n >= 0.0;
    NormScale(norm, 1.0 / n, v);
    assert (1.0 / n) * n == 1.0;
    var w := Scale(1.0 / n, v);
    assert n * w.x == v.x && n * w.y == v.y && n * w.z == v.z;
  }

  lemma NormSquare(norm: Vec -> real, v: Vec)
    requires IsNorm(norm)
    ensures norm(v) >= 0.0 && norm(v) * norm(v) == Dot(v, v)
  {
  }

  /** Any two length functions agree. */
  lemma NormUnique(norm: Vec -> real, norm': Vec -> real, v: Vec)
    requires IsNorm(norm) && IsNorm(norm')
    ensures norm(v) == norm'(v)
  {
    NormSquare(norm, v);
    NormSquare(norm', v);
    SquareRootUnique(norm(v), norm'(v));
  }

  /** Only the zero vector has length zero. */
  lemma NormZeroIff(norm: Vec -> real, v: Vec)
    requires IsNorm(norm)
    ensures norm(v) == 0.0 <==> v == Zero
  {
    NormOfZero(norm);
    if norm(v) == 0.0 {
      NormZeroOnlyAtZero(norm, v);
    }
  }

  lemma NormOfZero(norm: Vec -> real)
    requires IsNorm(norm)
    ensures norm(Zero) == 0.0
  {
    NormSquare(norm, Zero);
    SquareRootUnique(norm(Zero), 0.0);
  }

  lemma NormZeroOnlyAtZero(norm: Vec -> real, v: Vec)
    requires IsNorm(norm) && norm(v) == 0.0
    ensures v == Zero
  {
    NormSquare(norm, v);
    DotSelfZero(v);
  }

  lemma DotSelfNonNegative(v: Vec)
    ensures Dot(v, v) >= 0.0
  {
    SquareNonNegative(v.x);
    SquareNonNegative(v.y);
    SquareNonNegative(v.z);
  }

  lemma DotSelfZero(v: Vec)
    requires Dot(v, v) == 0.0
    ensures v == Zero
  {
    SquareNonNegative(v.x);
    SquareNonNegative(v.y);
    SquareNonNegative(v.z);
    assert v.x * v.x <= 0.0 && v.y * v.y <= 0.0 && v.z * v.z <= 0.0;
    SquareZero(v.x);
    SquareZero(v.y);
    SquareZero(v.z);
  }

  /** Scaling by a non-negative factor scales the length by that factor. */
  lemma NormScale(norm: Vec -> real, k: real, v: Vec)
    requires IsNorm(norm) && k >= 0.0
    ensures norm(Scale(k, v)) == k * norm(v)
  {
    DotScale(k, v);
    NormSquare(norm, v);
    NormSquare(norm, Scale(k, v));
    var n := norm(v);
    assert (k * n) * (k * n) == (k * k) * (n * n);
    MulNonNegative(k, n);
    SquareRootUnique(norm(Scale(k, v)), k * n);
  }

  /** The length of a vector is determined by its squared length. */
  lemma NormFromSquare(norm: Vec -> real, v: Vec, len: real)
    requires IsNorm(norm) && len >= 0.0 && Dot(v, v) == len * len
    ensures norm(v) == len
  {
    NormSquare(norm, v);
    SquareRootUnique(norm(v), len);
  }

  /** A vector of unit length is its own unit vector. */
  lemma UnitOfUnit(norm: Vec -> real, n: Vec)
    requires IsNorm(norm) && Dot(n, n) == 1.0
    ensures Unit(norm, n) == n
  {
    NormFromSquare(norm, n, 1.0);
  }

  lemma DotScale(k: real, v: Vec)
    ensures Dot(Scale(k, v), Scale(k, v)) == (k * k) * Dot(v, v)
  {
  }

  // Linearity of the dot product and of scaling.

  lemma DotComm(u: Vec, v: Vec)
    ensures Dot(u, v) == Dot(v, u)
  {
  }

  lemma DotAddLeft(u: Vec, v: Vec, w: Vec)
    ensures Dot(Add(u, v), w) == Dot(u, w) + Dot(v, w)
  {
  }

  lemma DotSubLeft(u: Vec, v: Vec, w: Vec)
    ensures Dot(Sub(u, v), w) == Dot(u, w) - Dot(v, w)
  {
  }

  lemma DotScaleLeft(k: real, u: Vec, w: Vec)
    ensures Dot(Scale(k, u), w) == k * Dot(u, w)
  {
  }

  lemma ScaleDifference(a: real, b: real, v: Vec)
    ensures Sub(Scale(a, v), Scale(b, v)) == Scale(a - b, v)
  {
  }

  // Sign facts over plain reals.

  lemma MulPositive(a: real, b: real)
    requires a > 0.0 && b > 0.0
    ensures a * b > 0.0
  {
  }

  lemma MulNonNegative(a: real, b: real)
    requires a >= 0.0 && b >= 0.0
    ensures a * b >= 0.0
  {
  }

  lemma SquareNonNegative(a: real)
    ensures a * a >= 0.0
  {
    if a < 0.0 {
      MulNonNegative(-a, -a);
      assert (-a) * (-a) == a * a;
    }
  }

  lemma DifferenceOfSquares(a: real, b: real)
    ensures (a - b) * (a + b) == a * a - b * b
  {
  }

  /** Two non-negative reals with equal squares are equal. */
  lemma SquareRootUnique(a: real, b: real)
    requires a >= 0.0 && b >= 0.0 && a * a == b * b
    ensures a == b
  {
    if a < b {
      MulPositive(b - a, b + a);
      DifferenceOfSquares(b, a);
    } else if b < a {
      MulPositive(a - b, a + b);
      DifferenceOfSquares(a, b);
    }
  }

  lemma SquareZero(a: real)
    requires a * a == 0.0
    ensures a == 0.0
  {
    if a >= 0.0 {
      SquareRootUnique(a, 0.0);
    } else {
      assert (-a) * (-a) == a * a;
      SquareRootUnique(-a, 0.0);
    }
  }
}
