/**
 The force accumulation that opens `Cloth::simulate`: the external
 accelerations times the point mass give one external force, and every point
 mass's accumulator is overwritten with it plus an outward push of fixed
 strength away from the centre of the cloth. No spring force is computed.
 */
module Forces {
  import opened Vectors
  import opened Masses

  /** The strength of the outward push (`inflation_force`). */
  const InflationForce: real := 1.0

  /** `F = m a`, summed over the external accelerations in order. */
  function ExternalForce(accelerations: seq<Vec>, mass: real): Vec {
    if accelerations == [] then Zero
    else
      var n := |accelerations| - 1;
      Add(ExternalForce(accelerations[..n], mass), Scale(mass, accelerations[n]))
  }

  /** The plain sum of a sequence of vectors, front first. */
  function Sum(vs: seq<Vec>): Vec {
    if vs == [] then Zero else Add(vs[0], Sum(vs[1..]))
  }

  lemma {:induction false} SumAppend(vs: seq<Vec>, v: Vec)
    ensures Sum(vs + [v]) == Add(Sum(vs), v)
  {
    if vs != [] {
      assert (vs + [v])[1..] == vs[1..] + [v];
      SumAppend(vs[1..], v);
    }
  }

  /** The external force is the total external acceleration times the mass. */
  lemma {:induction false} ExternalForceIsScaledSum(accelerations: seq<Vec>, mass: real)
    ensures ExternalForce(accelerations, mass) == Scale(mass, Sum(accelerations))
  {
    if accelerations != [] {
      var n := |accelerations| - 1;
      ExternalForceIsScaledSum(accelerations[..n], mass);
      assert accelerations == accelerations[..n] + [accelerations[n]];
      SumAppend(accelerations[..n], accelerations[n]);
    }
  }

  /**
   The force on a point mass at `p`: the external force plus the unit vector
   from `centre` to `p`, times `InflationForce`. At the centre itself, where
   CGL's `normalize` divides by zero, the push is zero.
   */
  function ForceAt(norm: Vec -> real, centre: Vec, external: Vec, p: Vec): Vec
    requires IsNorm(norm)
  {
    Add(external, Scale(InflationForce, Unit(norm, Sub(p, centre))))
  }

  /** A vector at distance `n` along the unit vector `u` has dot product `n` with it. */
  lemma AlongUnit(u: Vec, d: Vec, n: real)
    requires Dot(u, u) == 1.0 && d == Scale(n, u)
    ensures Dot(u, d) == n
  {
    DotComm(u, d);
    DotScaleLeft(n, u, u);
  }

  /**
   Away from the centre, the push has length `InflationForce` and points from
   the centre toward `p`: its dot product with the offset is the offset's length.
   */
  lemma InflationPush(norm: Vec -> real, centre: Vec, external: Vec, p: Vec)
    requires IsNorm(norm) && Sub(p, centre) != Zero
    ensures norm(Sub(ForceAt(norm, centre, external, p), external)) == InflationForce
    ensures Dot(Sub(ForceAt(norm, centre, external, p), external), Sub(p, centre)) == norm(Sub(p, centre))
  {
    var d := Sub(p, centre);
    var u := Unit(norm, d);
    assert Sub(ForceAt(norm, centre, external, p), external) == u;
    NormSquare(norm, u);
    AlongUnit(u, d, norm(d));
  }

  /**
   The force loop of `simulate`: every accumulator is overwritten with the
   force at its point mass's current position; nothing else changes.
   */
  function AccumulateForces(norm: Vec -> real, masses: seq<PointMass>, centre: Vec, external: Vec)
    : (r: seq<PointMass>)
    requires IsNorm(norm)
    ensures |r| == |masses|
    ensures forall k :: 0 <= k < |masses| ==> r[k] == masses[k].(forces := r[k].forces)
    ensures forall k :: 0 <= k < |masses| ==> r[k].forces == ForceAt(norm, centre, external, masses[k].position)
  {
    seq(|masses|, k requires 0 <= k < |masses| =>
      masses[k].(forces := ForceAt(norm, centre, external, masses[k].position)))
  }

  /**
   After the force loop, a point mass away from the centre carries the
   external force plus a push of length `InflationForce` pointing outward, and
   one at the centre carries the external force alone.
   */
  lemma AccumulatedForce(norm: Vec -> real, masses: seq<PointMass>, centre: Vec, external: Vec, k: nat)
    requires IsNorm(norm) && k < |masses|
    ensures var f := AccumulateForces(norm, masses, centre, external)[k].forces;
      var d := Sub(masses[k].position, centre);
      (d == Zero ==> f == external)
      && (d != Zero ==> norm(Sub(f, external)) == InflationForce && Dot(Sub(f, external), d) == norm(d))
  {
    var p := masses[k].position;
    assert AccumulateForces(norm, masses, centre, external)[k].forces == ForceAt(norm, centre, external, p);
    if Sub(p, centre) == Zero {
      PushAtCentre(norm, centre, external, p);
    } else {
      InflationPush(norm, centre, external, p);
    }
  }

  /** At the centre the push vanishes. */
  lemma PushAtCentre(norm: Vec -> real, centre: Vec, external: Vec, p: Vec)
    requires IsNorm(norm) && Sub(p, centre) == Zero
    ensures ForceAt(norm, centre, external, p) == external
  {
    NoPush(external, Unit(norm, Sub(p, centre)));
  }

  lemma NoPush(external: Vec, u: Vec)
    requires u == Zero
    ensures Add(external, Scale(InflationForce, u)) == external
  {
  }
}
