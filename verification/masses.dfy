/**
 The records the cloth is made of: point masses, springs between them, and the
 cloth that owns both. Springs refer to their endpoints by index into the
 cloth's point-mass sequence, where the C++ code holds raw pointers into the
 same `std::vector`.
 */
module Masses {
  import opened Vectors

  /**
   A point mass. `forces` is the accumulator `simulate` fills before the
   integration step; `startPosition` is what `reset` returns to.
   */
  datatype PointMass = PointMass(
    position: Vec,
    lastPosition: Vec,
    startPosition: Vec,
    forces: Vec,
    pinned: bool)

  /**
   A freshly constructed point mass: at rest at `pos`, with no force yet.
   (pointMass.h is not part of this model; this is the constructor the grid
   builder calls.)
   */
  function NewPointMass(pos: Vec, pinned: bool): PointMass {
    PointMass(pos, pos, pos, Zero, pinned)
  }

  /**
   `q` has the start position and the pin flag of `p`: nothing in a simulation
   step or in `reset` changes either.
   */
  predicate SameOrigin(p: PointMass, q: PointMass) {
    q.startPosition == p.startPosition && q.pinned == p.pinned
  }

  /** `SameOrigin`, point mass by point mass. */
  predicate SameOrigins(ms: seq<PointMass>, ns: seq<PointMass>) {
    |ms| == |ns| && forall k :: 0 <= k < |ms| ==> SameOrigin(ms[k], ns[k])
  }

  /**
   `q` is `p` with at most its position history changed: besides the start
   position and the pin flag, the force accumulator is the same. Every
   position pass of a simulation step keeps this relation.
   */
  predicate SameBody(p: PointMass, q: PointMass) {
    SameOrigin(p, q) && q.forces == p.forces
  }

  /** `SameBody`, point mass by point mass. */
  predicate SameBodies(ms: seq<PointMass>, ns: seq<PointMass>) {
    |ms| == |ns| && forall k :: 0 <= k < |ms| ==> SameBody(ms[k], ns[k])
  }

  datatype SpringType = Structural | Shearing | Bending

  /**
   A spring between the point masses at indices `a` and `b`. Its rest length is
   fixed when the spring is built.
   */
  datatype Spring = Spring(a: nat, b: nat, restLength: real, kind: SpringType)

  /** Both endpoints `a` and `b` are indices of a sequence of `n` point masses. */
  predicate EndsWithin(a: nat, b: nat, n: nat) {
    a < n && b < n
  }

  /** Every spring's endpoints are indices of a sequence of `n` point masses. */
  predicate SpringsWithin(springs: seq<Spring>, n: nat) {
    forall k :: 0 <= k < |springs| ==> EndsWithin(springs[k].a, springs[k].b, n)
  }

  datatype Cloth = Cloth(
    numWidthPoints: nat,
    numHeightPoints: nat,
    thickness: real,
    pointMasses: seq<PointMass>,
    springs: seq<Spring>)

  /** The springs of the cloth refer only to its own point masses. */
  predicate WellFormed(c: Cloth) {
    SpringsWithin(c.springs, |c.pointMasses|)
  }
}
