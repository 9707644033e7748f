/**
 One substep of `Cloth::simulate` as the composition of its passes, in the
 order the C++ code runs them: the force accumulation, the Verlet advance, the
 collision loop, then the strain-limit pass. The spatial map is rebuilt in
 `simulate` but only read by the self-collision loop, which the C++ code has
 commented out, so it does not appear in a substep.
 */
module Simulate {
  import opened Vectors
  import opened Masses
  import opened Forces
  import opened Integrate
  import opened StrainLimit
  import opened Collision

  /**
   What one substep reads besides the cloth: the cloth's width and height
   (whose midpoint is the centre of the inflation push), the external
   accelerations, the mass of one point mass, the damping percentage, the time
   step and the collision primitives.
   */
  datatype StepParameters = StepParameters(
    width: real,
    height: real,
    accelerations: seq<Vec>,
    mass: real,
    damping: real,
    dt: real,
    objects: seq<CollisionObject>)

  /** The point the inflation push points away from. */
  function Centre(ps: StepParameters): Vec {
    Vec(ps.width / 2.0, ps.height / 2.0, 0.0)
  }

  /** Every pinned point mass of `ms` has the same position and last position in `ns`. */
  predicate PinnedKept(ms: seq<PointMass>, ns: seq<PointMass>)
    requires |ms| == |ns|
  {
    forall k :: 0 <= k < |ms| && ms[k].pinned ==>
      ns[k].position == ms[k].position && ns[k].lastPosition == ms[k].lastPosition
  }

  /**
   One substep. The springs and the dimensions of the cloth are kept, and so
   are start positions and pins; the force accumulators hold the forces at the
   positions the substep started from. Without collision primitives, pinned
   point masses do not move.
   */
  function Substep(norm: Vec -> real, c: Cloth, ps: StepParameters): (r: Cloth)
    requires IsNorm(norm) && WellFormed(c) && ps.mass != 0.0
    ensures r == c.(pointMasses := r.pointMasses)
    ensures WellFormed(r)
    ensures SameOrigins(c.pointMasses, r.pointMasses)
    ensures forall k :: 0 <= k < |c.pointMasses| ==>
      r.pointMasses[k].forces
        == ForceAt(norm, Centre(ps), ExternalForce(ps.accelerations, ps.mass), c.pointMasses[k].position)
    ensures ps.objects == [] ==> PinnedKept(c.pointMasses, r.pointMasses)
  {
    var external := ExternalForce(ps.accelerations, ps.mass);
    var charged := AccumulateForces(norm, c.pointMasses, Centre(ps), external);
    var advanced := VerletPass(charged, ps.damping, ps.mass, ps.dt);
    var collided := CollisionPass(norm, ps.objects, advanced);
    c.(pointMasses := LimitAll(norm, collided, c.springs))
  }

  /** `n` substeps in a row, with the guarantees of one. */
  function Run(norm: Vec -> real, c: Cloth, ps: StepParameters, n: nat): (r: Cloth)
    requires IsNorm(norm) && WellFormed(c) && ps.mass != 0.0
    ensures r == c.(pointMasses := r.pointMasses)
    ensures WellFormed(r)
    ensures SameOrigins(c.pointMasses, r.pointMasses)
    ensures ps.objects == [] ==> PinnedKept(c.pointMasses, r.pointMasses)
    decreases n
  {
    if n == 0 then c else Run(norm, Substep(norm, c, ps), ps, n - 1)
  }

  /** `Cloth::reset` on a cloth. */
  function ResetCloth(c: Cloth): (r: Cloth)
    ensures r == c.(pointMasses := r.pointMasses)
    ensures SameBodies(c.pointMasses, r.pointMasses)
  {
    c.(pointMasses := Reset(c.pointMasses))
  }

  /**
   Resetting after any number of substeps restores the state a reset gives
   before them, except that the force accumulators keep the forces of the
   last substep.
   */
  lemma ResetAfterRun(norm: Vec -> real, c: Cloth, ps: StepParameters, n: nat)
    requires IsNorm(norm) && WellFormed(c) && ps.mass != 0.0
    ensures var after, before := ResetCloth(Run(norm, c, ps, n)), ResetCloth(c);
      after == before.(pointMasses := after.pointMasses)
      && |after.pointMasses| == |before.pointMasses|
      && forall k :: 0 <= k < |before.pointMasses| ==>
        after.pointMasses[k] == before.pointMasses[k].(forces := Run(norm, c, ps, n).pointMasses[k].forces)
  {
    ResetDeterminedByOrigin(c.pointMasses, Run(norm, c, ps, n).pointMasses);
  }
}
