/**
 The collision primitives: `Plane::collide` and `Sphere::collide`, and the loop
 in `Cloth::simulate` that lets every primitive act on every point mass. A
 primitive moves the position of a point mass toward a target on its surface,
 a fraction `1 - friction` of the way from the last position, and never
 touches the last position: the correction shows up as velocity in the next
 Verlet step.
 */
module Collision {
  import opened Vectors
  import opened Masses

  /** How far off the plane a colliding point mass is put (plane.cpp's `SURFACE_OFFSET`). */
  const SurfaceOffset: real := 0.0001

  datatype Plane = Plane(point: Vec, normal: Vec, friction: real)

  datatype Sphere = Sphere(origin: Vec, radius: real, friction: real)

  /** The closed set of primitives `simulate` is given. */
  datatype CollisionObject = PlaneObject(plane: Plane) | SphereObject(sphere: Sphere)

  /** The position a fraction `1 - friction` of the way from `last` to `target`. */
  function Damped(last: Vec, target: Vec, friction: real): Vec {
    Add(last, Scale(1.0 - friction, Sub(target, last)))
  }

  // ---------------------------------------------------------------------------
  // Plane

  /** `v` measured against the plane's normal, relative to its point. */
  function SignedDistance(pl: Plane, v: Vec): real {
    Dot(Sub(v, pl.point), pl.normal)
  }

  /**
   The path from the last position to the current one touches or crosses the
   plane: the two signed distances do not have the same strict sign.
   */
  predicate Crosses(pl: Plane, pm: PointMass) {
    SignedDistance(pl, pm.position) * SignedDistance(pl, pm.lastPosition) <= 0.0
  }

  /**
   The point on the plane below the current position, moved `SurfaceOffset`
   times the normal toward the side the last position is on; a last position on
   the plane counts as the positive side.
   */
  function PlaneTarget(norm: Vec -> real, pl: Plane, pm: PointMass): Vec
    requires IsNorm(norm)
  {
    var unit := Unit(norm, pl.normal);
    var tangent := Sub(pm.position, Scale(Dot(unit, Sub(pm.position, pl.point)), unit));
    if SignedDistance(pl, pm.lastPosition) < 0.0 then
      Sub(tangent, Scale(SurfaceOffset, pl.normal))
    else
      Add(tangent, Scale(SurfaceOffset, pl.normal))
  }

  /** `Plane::collide`. */
  function PlaneCollide(norm: Vec -> real, pl: Plane, pm: PointMass): (q: PointMass)
    requires IsNorm(norm)
    ensures q == pm.(position := q.position)
    ensures !Crosses(pl, pm) ==> q == pm
    ensures Crosses(pl, pm) && pl.friction == 1.0 ==> q.position == pm.lastPosition
    ensures Crosses(pl, pm) && pl.friction == 0.0 ==> q.position == PlaneTarget(norm, pl, pm)
  {
    if Crosses(pl, pm) then
      pm.(position := Damped(pm.lastPosition, PlaneTarget(norm, pl, pm), pl.friction))
    else
      pm
  }

  /**
   With a unit normal, the target lies `SurfaceOffset` off the plane, on the
   side of the last position (the positive side when that is on the plane).
   */
  lemma PlaneTargetSide(norm: Vec -> real, pl: Plane, pm: PointMass)
    requires IsNorm(norm) && Dot(pl.normal, pl.normal) == 1.0
    ensures SignedDistance(pl, PlaneTarget(norm, pl, pm))
      == if SignedDistance(pl, pm.lastPosition) < 0.0 then -SurfaceOffset else SurfaceOffset
  {
    var n := pl.normal;
    UnitOfUnit(norm, n);
    var tangent := Sub(pm.position, Scale(Dot(n, Sub(pm.position, pl.point)), n));
    TangentOnPlane(pl, pm.position);
    OffPlane(pl, tangent, SurfaceOffset);
  }

  /** Moving a point of the plane by `k` normals puts it at signed distance `k`. */
  lemma OffPlane(pl: Plane, v: Vec, k: real)
    requires Dot(pl.normal, pl.normal) == 1.0 && SignedDistance(pl, v) == 0.0
    ensures SignedDistance(pl, Add(v, Scale(k, pl.normal))) == k
    ensures SignedDistance(pl, Sub(v, Scale(k, pl.normal))) == -k
  {
    var n, off := pl.normal, Scale(k, pl.normal);
    DotScaleLeft(k, n, n);
    assert Sub(Sub(v, off), pl.point) == Sub(Sub(v, pl.point), off);
    DotSubLeft(Sub(v, pl.point), off, n);
    assert Sub(Add(v, off), pl.point) == Add(Sub(v, pl.point), off);
    DotAddLeft(Sub(v, pl.point), off, n);
  }

  /** Taking away its normal component puts a position on the plane. */
  lemma TangentOnPlane(pl: Plane, pos: Vec)
    requires Dot(pl.normal, pl.normal) == 1.0
    ensures SignedDistance(pl, Sub(pos, Scale(Dot(pl.normal, Sub(pos, pl.point)), pl.normal))) == 0.0
  {
    var n, v := pl.normal, Sub(pos, pl.point);
    var c := Dot(n, v);
    assert Sub(Sub(pos, Scale(c, n)), pl.point) == Sub(v, Scale(c, n));
    DotSubLeft(v, Scale(c, n), n);
    DotScaleLeft(c, n, n);
    DotComm(n, v);
  }

  /** The signed distance of a damped position mixes those of its two ends. */
  lemma DampedSignedDistance(pl: Plane, last: Vec, target: Vec, friction: real)
    ensures SignedDistance(pl, Damped(last, target, friction))
      == friction * SignedDistance(pl, last) + (1.0 - friction) * SignedDistance(pl, target)
  {
    var p, n := pl.point, pl.normal;
    MixDot(last.x, last.y, last.z, p.x, p.y, p.z, target.x, target.y, target.z, n.x, n.y, n.z, friction);
  }

  /** `DampedSignedDistance` coordinate by coordinate. */
  lemma MixDot(lx: real, ly: real, lz: real, px: real, py: real, pz: real,
               tx: real, ty: real, tz: real, nx: real, ny: real, nz: real, f: real)
    ensures ((lx + (1.0 - f) * (tx - lx)) - px) * nx
          + ((ly + (1.0 - f) * (ty - ly)) - py) * ny
          + ((lz + (1.0 - f) * (tz - lz)) - pz) * nz
      == f * ((lx - px) * nx + (ly - py) * ny + (lz - pz) * nz)
         + (1.0 - f) * ((tx - px) * nx + (ty - py) * ny + (tz - pz) * nz)
  {
  }

  /**
   With a unit normal and a friction in `[0, 1]`, a point mass that collides
   with the plane ends strictly on the side its last position is on; from a
   last position on the plane it ends on the positive side unless the friction
   is total.
   */
  lemma PlaneKeepsSide(norm: Vec -> real, pl: Plane, pm: PointMass)
    requires IsNorm(norm) && Dot(pl.normal, pl.normal) == 1.0
    requires 0.0 <= pl.friction <= 1.0 && Crosses(pl, pm)
    ensures var d := SignedDistance(pl, PlaneCollide(norm, pl, pm).position);
      && (SignedDistance(pl, pm.lastPosition) < 0.0 ==> d < 0.0)
      && (SignedDistance(pl, pm.lastPosition) > 0.0 ==> d > 0.0)
      && (SignedDistance(pl, pm.lastPosition) == 0.0 && pl.friction < 1.0 ==> d > 0.0)
  {
    PlaneTargetSide(norm, pl, pm);
    DampedSide(pl, pm.lastPosition, PlaneTarget(norm, pl, pm));
  }

  /**
   Damping toward a target `SurfaceOffset` off the plane on the side of `last`
   (the positive one when `last` is on the plane) stays on that side.
   */
  lemma DampedSide(pl: Plane, last: Vec, target: Vec)
    requires 0.0 <= pl.friction <= 1.0
    requires SignedDistance(pl, target)
      == if SignedDistance(pl, last) < 0.0 then -SurfaceOffset else SurfaceOffset
    ensures var d := SignedDistance(pl, Damped(last, target, pl.friction));
      && (SignedDistance(pl, last) < 0.0 ==> d < 0.0)
      && (SignedDistance(pl, last) > 0.0 ==> d > 0.0)
      && (SignedDistance(pl, last) == 0.0 && pl.friction < 1.0 ==> d > 0.0)
  {
    DampedSignedDistance(pl, last, target, pl.friction);
    MixSide(pl.friction, SignedDistance(pl, last), SignedDistance(pl, target),
            SignedDistance(pl, Damped(last, target, pl.friction)), SurfaceOffset);
  }

  /**
   Mixing a signed distance `l` with weight `f` in `[0, 1]` and a target at
   offset `o` on the same side (the positive one when `l` is zero) keeps the side.
   */
  lemma MixSide(f: real, l: real, t: real, d: real, o: real)
    requires 0.0 <= f <= 1.0 && o > 0.0
    requires t == (if l < 0.0 then -o else o) && d == f * l + (1.0 - f) * t
    ensures l < 0.0 ==> d < 0.0
    ensures l > 0.0 ==> d > 0.0
    ensures l == 0.0 && f < 1.0 ==> d > 0.0
  {
    MulNonNegative(1.0 - f, o);
    if l < 0.0 {
      assert (1.0 - f) * t == -((1.0 - f) * o);
      if f > 0.0 {
        MulPositive(f, -l);
      }
    } else {
      assert (1.0 - f) * t == (1.0 - f) * o;
      if f > 0.0 && l > 0.0 {
        MulPositive(f, l);
      }
      if f < 1.0 {
        MulPositive(1.0 - f, o);
      }
    }
  }

  // ---------------------------------------------------------------------------
  // Sphere

  /** The position is inside the sphere or on its surface. */
  predicate Inside(norm: Vec -> real, sp: Sphere, pos: Vec) {
    norm(Sub(pos, sp.origin)) <= sp.radius
  }

  /**
   The point of the surface on the ray from the origin through the position.
   At the origin itself, where CGL's `unit` divides by zero, this is the origin.
   */
  function SphereTarget(norm: Vec -> real, sp: Sphere, pos: Vec): Vec
    requires IsNorm(norm)
  {
    Add(sp.origin, Scale(sp.radius, Unit(norm, Sub(pos, sp.origin))))
  }

  /** `Sphere::collide`. */
  function SphereCollide(norm: Vec -> real, sp: Sphere, pm: PointMass): (q: PointMass)
    requires IsNorm(norm)
    ensures q == pm.(position := q.position)
    ensures !Inside(norm, sp, pm.position) ==> q == pm
    ensures Inside(norm, sp, pm.position) && sp.friction == 1.0 ==> q.position == pm.lastPosition
  {
    if Inside(norm, sp, pm.position) then
      pm.(position := Damped(pm.lastPosition, SphereTarget(norm, sp, pm.position), sp.friction))
    else
      pm
  }

  /** The inside test, stated on the squared distance. */
  lemma InsideSquared(norm: Vec -> real, sp: Sphere, pos: Vec)
    requires IsNorm(norm)
    ensures Inside(norm, sp, pos) <==>
      sp.radius >= 0.0 && Dot(Sub(pos, sp.origin), Sub(pos, sp.origin)) <= sp.radius * sp.radius
  {
    var d := norm(Sub(pos, sp.origin));
    NormSquare(norm, Sub(pos, sp.origin));
    if d <= sp.radius {
      SquareMonotone(d, sp.radius);
    } else if sp.radius >= 0.0 {
      SquareStrictMonotone(sp.radius, d);
    }
  }

  lemma SquareMonotone(a: real, b: real)
    requires 0.0 <= a <= b
    ensures a * a <= b * b
  {
    if a < b {
      SquareStrictMonotone(a, b);
    }
  }

  lemma SquareStrictMonotone(a: real, b: real)
    requires 0.0 <= a < b
    ensures a * a < b * b
  {
    MulPositive(b - a, b + a);
    DifferenceOfSquares(b, a);
  }

  /**
   Without friction, a point mass inside the sphere (and not at its centre)
   lands exactly on the surface.
   */
  lemma SphereFrictionless(norm: Vec -> real, sp: Sphere, pm: PointMass)
    requires IsNorm(norm) && sp.friction == 0.0
    requires Inside(norm, sp, pm.position) && pm.position != sp.origin
    ensures norm(Sub(SphereCollide(norm, sp, pm).position, sp.origin)) == sp.radius
  {
    var d := Sub(pm.position, sp.origin);
    NormSquare(norm, d);
    assert d != Zero;
    var u := Unit(norm, d);
    assert Damped(pm.lastPosition, SphereTarget(norm, sp, pm.position), 0.0)
      == SphereTarget(norm, sp, pm.position);
    assert Sub(SphereTarget(norm, sp, pm.position), sp.origin) == Scale(sp.radius, u);
    NormScale(norm, sp.radius, u);
  }

  // ---------------------------------------------------------------------------
  // All primitives

  /** `CollisionObject::collide`, dispatched on the primitive. */
  function Collide(norm: Vec -> real, obj: CollisionObject, pm: PointMass): (q: PointMass)
    requires IsNorm(norm)
    ensures q == pm.(position := q.position)
  {
    match obj
    case PlaneObject(pl) => PlaneCollide(norm, pl, pm)
    case SphereObject(sp) => SphereCollide(norm, sp, pm)
  }

  /** Every primitive in turn acts on one point mass. */
  function CollideAll(norm: Vec -> real, objects: seq<CollisionObject>, pm: PointMass): (q: PointMass)
    requires IsNorm(norm)
    ensures q == pm.(position := q.position)
    decreases |objects|
  {
    if objects == [] then pm
    else CollideAll(norm, objects[1..], Collide(norm, objects[0], pm))
  }

  /**
   The collision loop of `simulate`: every primitive acts on every point mass.
   Point masses do not interact here, and only positions change.
   */
  function CollisionPass(norm: Vec -> real, objects: seq<CollisionObject>, masses: seq<PointMass>): (r: seq<PointMass>)
    requires IsNorm(norm)
    ensures SameBodies(masses, r)
    ensures forall k :: 0 <= k < |r| ==> r[k] == masses[k].(position := r[k].position)
  {
    seq(|masses|, k requires 0 <= k < |masses| => CollideAll(norm, objects, masses[k]))
  }

  /** A point mass outside every sphere and not crossing any plane is left alone. */
  lemma {:induction false} CollideAllClear(norm: Vec -> real, objects: seq<CollisionObject>, pm: PointMass)
    requires IsNorm(norm)
    requires forall t :: 0 <= t < |objects| ==> match objects[t]
      case PlaneObject(pl) => !Crosses(pl, pm)
      case SphereObject(sp) => !Inside(norm, sp, pm.position)
    ensures CollideAll(norm, objects, pm) == pm
    decreases |objects|
  {
    if objects != [] {
      assert Collide(norm, objects[0], pm) == pm;
      assert forall t :: 0 <= t < |objects[1..]| ==> objects[1..][t] == objects[t + 1];
      CollideAllClear(norm, objects[1..], pm);
    }
  }

  /**
   The primitives do not look at the pin flag: a pinned point mass strictly
   inside a frictionless sphere is moved to its surface.
   */
  lemma PinnedPointPushed(norm: Vec -> real, sp: Sphere, pm: PointMass)
    requires IsNorm(norm) && sp.friction == 0.0 && pm.pinned
    requires norm(Sub(pm.position, sp.origin)) < sp.radius && pm.position != sp.origin
    ensures SphereCollide(norm, sp, pm).position != pm.position
  {
    SphereFrictionless(norm, sp, pm);
  }
}
