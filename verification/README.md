# Cloth/balloon mass-spring simulation core, in Dafny

This project models the core of a mass-spring cloth simulator (the
`balloon-simulation` project, C++ with CGL vectors). A cloth is a grid of
point masses joined by structural, shearing and bending springs. One
simulation substep runs these passes in order:

- force accumulation: the external force plus an outward inflation push;
- Verlet integration, which pinned point masses skip;
- collision response against planes and spheres;
- a strain-limit pass after Provot, which pulls overstretched springs back to
  110% of their rest length.

A spatial hash buckets point masses by box for self-collision. `reset`
returns every point mass to its starting position.

Modules, one file each:

- `Vectors` (`vectors.dfy`): vectors over `real`, and the Euclidean length as
  a parameter `norm` constrained by `IsNorm`, which fixes it uniquely.
- `Masses` (`masses.dfy`): point masses, springs, the cloth record, and the
  frame relations `SameBodies` ("only positions changed") and
  `SameOrigins` ("start positions and pins unchanged").
- `Topology` (`topology.dfy`): `Cloth::buildGrid`'s index arithmetic, pins,
  spring emission, and a reference description of the spring network.
- `Forces` (`forces.dfy`): the force accumulation at the start of a substep.
- `Integrate` (`integrate.dfy`): the Verlet pass and `reset`.
- `StrainLimit` (`strain.dfy`): the strain-limit pass.
- `SpatialHash` (`spatial.dfy`): `build_spatial_map` and `self_collide`.
- `Collision` (`collision.dfy`): `Plane::collide`, `Sphere::collide`, and
  the collision loop.
- `Simulate` (`simulate.dfy`): a substep as the composition of the passes,
  repeated substeps, and `reset` of a cloth.

Springs refer to point masses by index, where the C++ code holds pointers
into the same vector. Lengths use the `norm` parameter. `Unit` (CGL's
`unit`/`normalize`) divides by it and maps the zero vector to the zero
vector.

## Model

| member | source | states |
|---|---|---|
| Topology.IndexFormula | src/cloth.cpp:87-89 | the row-major index of cell `(x, y)` is `y * w + x` |
| Topology.IndexCoordinates | src/cloth.cpp:63-85 | column and row recover a cell from its index, so distinct cells get distinct indices |
| Topology.CoordinatesIndex | src/cloth.cpp:63-85 | every index is the index of the cell at its column and row |
| Topology.PinnedCell | src/cloth.cpp:76-81 | a cell is pinned exactly when its coordinates occur in the pin list |
| Topology.BuildPoints | src/cloth.cpp:63-85 | exactly `w * h` point masses; the one at `y * w + x` is a fresh point mass at `place(x, y)`, pinned iff `(x, y)` is in the pin list |
| Topology.PointLinksAsEmits | src/cloth.cpp:91-113 | the six guarded emissions of one point are exactly its on-grid forward neighbours in the order right, down, down-right, down-left, two right, two down |
| Topology.EmitUpToMembers | src/cloth.cpp:91-113 | a link is emitted for a point iff it goes to one of the point's neighbour offsets whose cell is on the grid |
| Topology.GridLinksExact | src/cloth.cpp:87-115 | a link is in the spring list iff it joins a grid cell to an on-grid neighbour along one of the six offsets, with the type of that offset |
| Topology.GridLinksInRange | src/cloth.cpp:87-115 | every spring joins two distinct point masses with indices in `[0, w * h)`, the first earlier than the second |
| Topology.GridLinksOrdered | src/cloth.cpp:87-115 | springs come out ordered by first point index and, within a point, by offset slot; no spring is emitted twice |
| Topology.GridLinksCount | src/cloth.cpp:87-115 | the number of springs is `(w-1)h + w(h-1) + 2(w-1)(h-1) + max(0,w-2)h + w max(0,h-2)` for a non-empty grid, and zero for an empty one |
| Topology.EmitUpToOrdered | src/cloth.cpp:91-113 | one point's links all start at that point and come out in strictly increasing slot order |
| Topology.BuildSprings | src/cloth.cpp:87-115 | the spring loops produce, one for one and in order, a spring for each link of the reference grid, with the starting distance of its ends as rest length |
| Topology.BuildGrid | src/cloth.cpp:63-115 | point masses as in `BuildPoints`, springs as in `BuildSprings`, and every spring refers to existing point masses |
| Forces.ExternalForceIsScaledSum | src/cloth.cpp:125-129 | the external force is the point mass's mass times the sum of the external accelerations |
| Forces.InflationPush | src/cloth.cpp:132-136 | away from the centre, the push has length `inflation_force` (1.0) and points from the centre toward the point mass |
| Forces.AccumulateForces | src/cloth.cpp:133-137 | the force loop overwrites every accumulator with the force at that point mass's own position and changes nothing else |
| Forces.AccumulatedForce | src/cloth.cpp:133-137 | after the force loop each accumulator holds the external force plus a unit-strength outward push, or the external force alone at the centre |
| Integrate.VerletStep | src/cloth.cpp:141-147 | a pinned point mass is skipped; a free one remembers its old position as last position |
| Integrate.VerletPass | src/cloth.cpp:140-148 | pinned point masses keep both positions; free ones move to their Verlet position and record the old one; nothing else changes |
| Integrate.VerletInertia | src/cloth.cpp:144 | without force, the new displacement is the old one scaled by `1 - damping/100` |
| Integrate.VerletPassAtRest | src/cloth.cpp:140-148 | a cloth at rest with no forces is a fixed point of the Verlet pass |
| Integrate.Reset | src/cloth.cpp:258-265 | every point mass has position and last position equal to its start position; pins, forces and count are kept |
| Integrate.ResetDeterminedByBody | src/cloth.cpp:258-265 | the result of `reset` depends only on start positions, forces and pins |
| Integrate.ResetDeterminedByOrigin | src/cloth.cpp:258-265 | states with the same start positions and pins reset alike, except for the force accumulators, which `reset` keeps |
| Integrate.ResetIdempotent | src/cloth.cpp:258-265 | resetting twice is resetting once |
| Integrate.ResetAfterVerlet | src/cloth.cpp:140-148 | resetting after a Verlet pass gives the same state as resetting before it |
| StrainLimit.LimitSpring | src/cloth.cpp:169-189 | one spring: pinned point masses and non-endpoints are unchanged; a spring within 110% of rest length, or with both ends pinned, changes nothing; only positions move |
| StrainLimit.LimitSpringLength | src/cloth.cpp:170-188 | an overstretched spring with a free end is left at exactly 110% of its rest length |
| StrainLimit.LimitAll | src/cloth.cpp:168-190 | the in-order pass over all springs never moves a pinned point mass or one no spring touches, and changes only positions |
| StrainLimit.LimitAllRelaxed | src/cloth.cpp:174 | if no spring is overstretched the pass changes nothing |
| SpatialHash.BuildSpatialMap | src/cloth.cpp:193-209 | a key is present iff some point mass hashes to it, and its bucket lists those point masses in index order |
| SpatialHash.BucketMembers | src/cloth.cpp:199-207 | a bucket holds exactly the indices whose position hashes to its key |
| SpatialHash.BucketIncreasing | src/cloth.cpp:199-207 | a bucket's indices are strictly increasing, so each appears once |
| SpatialHash.SpatialMapMembers | src/cloth.cpp:199-207 | every point mass is in exactly one bucket, the one of its own hash, and appears there once |
| SpatialHash.SpatialMapInRange | src/cloth.cpp:199-207 | every bucket entry is the index of a point mass |
| SpatialHash.Pushes | src/cloth.cpp:216-230 | the collision count is at most the bucket size, and it is zero iff no entry sits at a different position strictly within `2 * thickness` |
| SpatialHash.SelfCollide | src/cloth.cpp:211-235 | only the queried point mass's position can change, and it is unchanged when no bucket entry collides |
| SpatialHash.SelfCollideThin | src/cloth.cpp:223 | with thickness zero or less nothing moves |
| SpatialHash.SelfCollideAlone | src/cloth.cpp:211-235 | with the map `build_spatial_map` builds, a point mass whose box holds no other position stays put |
| Collision.PlaneCollide | src/collision/plane.cpp:14-33 | only the position changes; without a crossing nothing changes; with friction 1 the position becomes the last position, with friction 0 the target |
| Collision.TangentOnPlane | src/collision/plane.cpp:20-21 | removing the normal component (unit normal) puts a position on the plane |
| Collision.PlaneTargetSide | src/collision/plane.cpp:20-29 | with a unit normal the target is `SURFACE_OFFSET` off the plane, on the side of the last position, positive when the last position is on the plane |
| Collision.DampedSignedDistance | src/collision/plane.cpp:31 | the signed distance of the new position is `friction * last + (1 - friction) * target` signed distances |
| Collision.PlaneKeepsSide | src/collision/plane.cpp:18-31 | with a unit normal and friction in `[0, 1]`, a colliding point mass ends strictly on the side its last position is on, or on the positive side from on the plane unless friction is 1 |
| Collision.SphereCollide | src/collision/sphere.cpp:10-18 | only the position changes; outside the sphere nothing changes; with friction 1 the position becomes the last position |
| Collision.InsideSquared | src/collision/sphere.cpp:12 | the inside test `norm <= radius` is the squared-distance test with a non-negative radius |
| Collision.SphereFrictionless | src/collision/sphere.cpp:14-16 | without friction, a point mass inside the sphere (not at its centre) lands exactly on the surface |
| Collision.PinnedPointPushed | src/collision/sphere.cpp:10-18 | a pinned point mass strictly inside a frictionless sphere is moved |
| Collision.Collide | src/cloth.cpp:162 | any primitive changes only the position |
| Collision.CollideAll | src/cloth.cpp:161-163 | applying every primitive in turn changes only the position |
| Collision.CollideAllClear | src/cloth.cpp:160-164 | a point mass that crosses no plane and is inside no sphere is unchanged |
| Collision.CollisionPass | src/cloth.cpp:160-164 | the collision loop keeps count, start positions, forces, pins and last positions |
| Simulate.Substep | src/cloth.cpp:125-190 | a substep keeps the springs, start positions and pins; every accumulator holds the force at the position the substep started from; with no collision primitives, pinned point masses keep position and last position |
| Simulate.Run | src/cloth.cpp:125-190 | for any number of substeps, each recomputing the forces, springs, start positions and pins are kept, and without collision primitives pinned point masses do not move |
| Simulate.ResetCloth | src/cloth.cpp:258-265 | reset changes only point-mass positions and last positions |
| Simulate.ResetAfterRun | src/cloth.cpp:258-265 | resetting after any number of substeps gives the cloth that resetting before them gives, except that each force accumulator keeps the force of the last substep |

## Code and design

Where the design of the simulator and its code differ, the model follows
the code:

- The design exempts pinned point masses from every position pass. In the
  code only the Verlet pass and the strain-limit pass look at the pin flag.
  `Plane::collide`, `Sphere::collide` and `self_collide` move pinned point
  masses too (`Collision.PinnedPointPushed`). That is why `Simulate.Run`
  keeps pinned point masses only when there are no collision primitives.
- The design has the sphere act when the position is strictly inside. The
  code tests `norm <= radius`, so a point mass on the surface collides too.
- The design rejects grids with fewer than two points along an axis.
  `buildGrid` performs no such check, and the model builds any size. For a
  one-point-wide grid the C++ placement divides by zero; placement is an
  input here.
- The design accumulates spring forces. The code overwrites each force with
  the external force plus an inflation push (`Forces.AccumulateForces`), and
  computes no spring force.
- The design runs self-collision in each substep. The code rebuilds the
  spatial map but has the self-collision loop commented out, so
  `Simulate.Substep` leaves both out and `self_collide` is modelled on its
  own.

## Left out

- Point placement on the sphere parametrisation (src/cloth.cpp:60-74). It uses
  cos and sin, so it is the parameter `place`.
- The mass of a point mass and the time step (src/cloth.cpp:121-122). They are
  computed from the cloth's density, the frame rate and the step count; a
  substep takes both as parameters.
- Floating point. All quantities are exact reals. `hash_position` narrows to
  `float`, and that narrowing lives inside the hash parameter.
- `hash_position` (src/cloth.cpp:237-252). Its `fmod`/`pow` arithmetic is the
  parameter `hash`, and no property of it is assumed.
- Division by zero. The Verlet pass requires a non-zero mass and
  `self_collide` a non-zero step count; the C++ code would produce infinities
  there. Every other normalisation of a zero vector, where the C++ code
  produces NaN coordinates, is total in the model: `Unit` of the zero vector
  is the zero vector. These places are:
  - a point mass exactly at the centre of the inflation push
    (src/cloth.cpp:134-135), which gets no push;
  - a zero plane normal (src/collision/plane.cpp:20). `PlaneCollide` then
    uses the position itself as the projection, so a crossing point mass
    moves to `last + (1 - friction)(position - last)`;
  - a zero-length spring (src/cloth.cpp:170-171). Its direction is unused
    unless its rest length is negative, which no distance is;
  - a point mass at the centre of a sphere (src/collision/sphere.cpp:14).
- Missing buckets. `self_collide` requires the bucket of its point's hash to
  exist; the C++ code would dereference a null pointer.
- The rest length of a spring is set by the `Spring` constructor, and spring.h
  is not part of this model. The model takes it to be the distance between the
  two ends' starting positions.
- `Cloth::buildClothMesh`, the destructor, `Plane::render`, `Sphere::render`:
  rendering bookkeeping.
- Plane normals: plane.h is not part of this model. Lemmas about sides of
  the plane assume a unit normal. `PlaneCollide` itself accepts any normal,
  including the zero one described above.
- Collision.SphereFrictionless: not stated for a point mass exactly at the
  centre, where CGL's `unit` divides by zero (the model then targets the
  centre itself).
- StrainLimit.LimitSpringLength: stated for a spring with two distinct ends
  and a non-negative rest length, as every spring of the grid has. A negative
  rest length cannot come from a distance.
- StrainLimit.LimitAll: it does not state the final spring lengths. A spring
  corrected early in the pass can be stretched again by a later one.
