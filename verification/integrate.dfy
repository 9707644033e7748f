/**
 The two passes of `Cloth` that move point masses one at a time, without
 looking at springs: the Verlet advance inside `simulate` and `reset`.
 */
module Integrate {
  import opened Vectors
  import opened Masses

  /**
   The position Verlet integration gives a free point mass:
   `position + (1 - damping / 100) (position - last) + (forces / mass) dt²`.
   `damping` is a percentage, as in the C++ parameters.
   */
  function VerletPosition(p: PointMass, damping: real, mass: real, dt: real): Vec
    requires mass != 0.0
  {
    Add(Add(p.position, Scale(1.0 - damping / 100.0, Sub(p.position, p.lastPosition))),
        Scale(dt * dt, Scale(1.0 / mass, p.forces)))
  }

  /**
   Without force, the step repeats the previous displacement, shrunk by the
   damping percentage: velocity lives in the position history.
   */
  lemma VerletInertia(p: PointMass, damping: real, mass: real, dt: real)
    requires mass != 0.0 && p.forces == Zero
    ensures Sub(VerletPosition(p, damping, mass, dt), p.position)
      == Scale(1.0 - damping / 100.0, Sub(p.position, p.lastPosition))
  {
    var v := VerletPosition(p, damping, mass, dt);
    assert Scale(1.0 / mass, p.forces) == Zero;
    assert Scale(dt * dt, Zero) == Zero;
  }

  /** A point mass at rest with no force on it stays where it is. */
  lemma VerletAtRest(p: PointMass, damping: real, mass: real, dt: real)
    requires mass != 0.0 && p.forces == Zero && p.position == p.lastPosition
    ensures VerletPosition(p, damping, mass, dt) == p.position
  {
    VerletInertia(p, damping, mass, dt);
    assert Sub(p.position, p.lastPosition) == Zero;
  }

  /** One iteration of the Verlet loop: pinned point masses are skipped. */
  function VerletStep(p: PointMass, damping: real, mass: real, dt: real): (q: PointMass)
    requires mass != 0.0
    ensures SameBody(p, q)
    ensures p.pinned ==> q == p
    ensures !p.pinned ==> q.lastPosition == p.position
  {
    if p.pinned then p
    else p.(lastPosition := p.position, position := VerletPosition(p, damping, mass, dt))
  }

  /**
   The Verlet loop of `simulate`. Pinned point masses keep both positions;
   every other one moves to its Verlet position and remembers where it was.
   */
  function VerletPass(masses: seq<PointMass>, damping: real, mass: real, dt: real): (r: seq<PointMass>)
    requires mass != 0.0
    ensures SameBodies(masses, r)
    ensures forall k :: 0 <= k < |masses| && masses[k].pinned ==> r[k] == masses[k]
    ensures forall k :: 0 <= k < |masses| && !masses[k].pinned ==>
      r[k].lastPosition == masses[k].position
      && r[k].position == VerletPosition(masses[k], damping, mass, dt)
  {
    seq(|masses|, k requires 0 <= k < |masses| => VerletStep(masses[k], damping, mass, dt))
  }

  /** Without forces, a cloth at rest stays at rest. */
  lemma VerletPassAtRest(masses: seq<PointMass>, damping: real, mass: real, dt: real)
    requires mass != 0.0
    requires forall k :: 0 <= k < |masses| ==>
      masses[k].forces == Zero && masses[k].position == masses[k].lastPosition
    ensures VerletPass(masses, damping, mass, dt) == masses
  {
    var r := VerletPass(masses, damping, mass, dt);
    forall k | 0 <= k < |masses|
      ensures r[k] == masses[k]
    {
      if !masses[k].pinned {
        VerletAtRest(masses[k], damping, mass, dt);
      }
    }
  }

  /** `reset` for one point mass. */
  function ResetPoint(p: PointMass): PointMass {
    p.(position := p.startPosition, lastPosition := p.startPosition)
  }

  /**
   `Cloth::reset`: every point mass back at its start position, at rest; the
   pin flags, the forces and the count are kept.
   */
  function Reset(masses: seq<PointMass>): (r: seq<PointMass>)
    ensures SameBodies(masses, r)
    ensures forall k :: 0 <= k < |r| ==>
      r[k].position == masses[k].startPosition && r[k].lastPosition == masses[k].startPosition
  {
    seq(|masses|, k requires 0 <= k < |masses| => ResetPoint(masses[k]))
  }

  /**
   What `reset` produces depends only on what no pass changes, so any two
   states related by `SameBodies` reset to the same state.
   */
  lemma ResetDeterminedByBody(ms: seq<PointMass>, ns: seq<PointMass>)
    requires SameBodies(ms, ns)
    ensures Reset(ms) == Reset(ns)
  {
    var r, s := Reset(ms), Reset(ns);
    forall k | 0 <= k < |r|
      ensures r[k] == s[k]
    {
      assert SameBody(ms[k], r[k]) && SameBody(ns[k], s[k]) && SameBody(ms[k], ns[k]);
    }
  }

  /**
   States with the same start positions and pin flags reset to the same
   positions and pins. Only the force accumulators, which `reset` keeps, can
   differ.
   */
  lemma ResetDeterminedByOrigin(ms: seq<PointMass>, ns: seq<PointMass>)
    requires SameOrigins(ms, ns)
    ensures |Reset(ns)| == |Reset(ms)|
    ensures forall k :: 0 <= k < |ms| ==> Reset(ns)[k] == Reset(ms)[k].(forces := ns[k].forces)
  {
    var r, s := Reset(ms), Reset(ns);
    forall k | 0 <= k < |ms|
      ensures s[k] == r[k].(forces := ns[k].forces)
    {
      assert SameBody(ms[k], r[k]) && SameBody(ns[k], s[k]) && SameOrigin(ms[k], ns[k]);
    }
  }

  /** Resetting twice is resetting once. */
  lemma ResetIdempotent(masses: seq<PointMass>)
    ensures Reset(Reset(masses)) == Reset(masses)
  {
    ResetDeterminedByBody(Reset(masses), masses);
  }

  /** Resetting after a Verlet step restores the state before it. */
  lemma ResetAfterVerlet(masses: seq<PointMass>, damping: real, mass: real, dt: real)
    requires mass != 0.0
    ensures Reset(VerletPass(masses, damping, mass, dt)) == Reset(masses)
  {
    ResetDeterminedByBody(VerletPass(masses, damping, mass, dt), masses);
  }
}
