/**
 The spatial hash of `Cloth` and the self-collision rule that reads it. The hash
 of a position (`hash_position`, a quantisation of space into boxes) is a
 parameter: nothing here depends on how it is computed. Buckets hold indices
 into the point-mass sequence where the C++ code holds pointers.
 */
module SpatialHash {
  import opened Vectors
  import opened Masses

  type SpatialMap = map<real, seq<nat>>

  /** The indices among the first `n` point masses whose position hashes to `key`, in index order. */
  function Bucket(hash: Vec -> real, masses: seq<PointMass>, key: real, n: nat): seq<nat>
    requires n <= |masses|
  {
    if n == 0 then []
    else Bucket(hash, masses, key, n - 1) + (if hash(masses[n - 1].position) == key then [n - 1] else [])
  }

  /** A bucket holds exactly the indices whose position hashes to its key. */
  lemma {:induction false} BucketMembers(hash: Vec -> real, masses: seq<PointMass>, key: real, n: nat, i: nat)
    requires n <= |masses|
    ensures i in Bucket(hash, masses, key, n) <==> i < n && hash(masses[i].position) == key
  {
    if n > 0 {
      BucketMembers(hash, masses, key, n - 1, i);
    }
  }

  /** A bucket lists its indices in increasing order, each once. */
  lemma {:induction false} BucketIncreasing(hash: Vec -> real, masses: seq<PointMass>, key: real, n: nat)
    requires n <= |masses|
    ensures forall p, q :: 0 <= p < q < |Bucket(hash, masses, key, n)| ==>
      Bucket(hash, masses, key, n)[p] < Bucket(hash, masses, key, n)[q]
  {
    if n > 0 {
      var b := Bucket(hash, masses, key, n - 1);
      BucketIncreasing(hash, masses, key, n - 1);
      forall p | 0 <= p < |b|
        ensures b[p] < n - 1
      {
        BucketMembers(hash, masses, key, n - 1, b[p]);
      }
    }
  }

  /** An empty bucket: no point mass hashes to its key. */
  lemma BucketEmpty(hash: Vec -> real, masses: seq<PointMass>, key: real, n: nat)
    requires n <= |masses|
    requires forall i :: 0 <= i < n ==> hash(masses[i].position) != key
    ensures Bucket(hash, masses, key, n) == []
  {
    if Bucket(hash, masses, key, n) != [] {
      BucketMembers(hash, masses, key, n, Bucket(hash, masses, key, n)[0]);
    }
  }

  /**
   `table` is the spatial map of `masses`: a key is present exactly when some
   point mass hashes to it, and its bucket lists those point masses in index
   order.
   */
  ghost predicate IsSpatialMap(hash: Vec -> real, masses: seq<PointMass>, table: SpatialMap) {
    (forall key :: key in table <==> exists i :: 0 <= i < |masses| && hash(masses[i].position) == key)
    && (forall key :: key in table ==> table[key] == Bucket(hash, masses, key, |masses|))
  }

  /**
   `Cloth::build_spatial_map`: the map is rebuilt from scratch, each point mass
   appended to the bucket of its own hash, creating the bucket on first use.
   */
  method BuildSpatialMap(hash: Vec -> real, masses: seq<PointMass>) returns (table: SpatialMap)
    ensures IsSpatialMap(hash, masses, table)
  {
    table := map[];
    var n := 0;
    while n < |masses|
      invariant n <= |masses|
      invariant forall key :: key in table <==> exists i :: 0 <= i < n && hash(masses[i].position) == key
      invariant forall key :: key in table ==> table[key] == Bucket(hash, masses, key, n)
    {
      var key := hash(masses[n].position);
      if key !in table {
        BucketEmpty(hash, masses, key, n);
        table := table[key := []];
      }
      table := table[key := table[key] + [n]];
      n := n + 1;
    }
  }

  /**
   Every point mass is in exactly one bucket, the one of its own hash, and
   appears there once.
   */
  lemma SpatialMapMembers(hash: Vec -> real, masses: seq<PointMass>, table: SpatialMap, i: nat, key: real)
    requires IsSpatialMap(hash, masses, table) && i < |masses|
    ensures hash(masses[i].position) in table
    ensures key in table && i in table[key] <==> key == hash(masses[i].position)
    ensures key in table ==> forall p, q :: 0 <= p < q < |table[key]| ==> table[key][p] < table[key][q]
  {
    BucketMembers(hash, masses, hash(masses[i].position), |masses|, i);
    BucketMembers(hash, masses, key, |masses|, i);
    if key in table {
      BucketIncreasing(hash, masses, key, |masses|);
    }
  }

  /** Every entry of a spatial map is an index of a point mass. */
  lemma SpatialMapInRange(hash: Vec -> real, masses: seq<PointMass>, table: SpatialMap, key: real)
    requires IsSpatialMap(hash, masses, table) && key in table
    ensures forall e :: e in table[key] ==> e < |masses|
  {
    forall e | e in table[key]
      ensures e < |masses|
    {
      BucketMembers(hash, masses, key, |masses|, e);
    }
  }

  // ---------------------------------------------------------------------------
  // Self-collision

  /**
   The bucket entry `e` pushes a point mass at `p`: it sits at a different
   position strictly closer than twice the cloth's thickness.
   */
  predicate Collides(norm: Vec -> real, masses: seq<PointMass>, e: nat, p: Vec, thickness: real)
    requires e < |masses|
  {
    masses[e].position != p && norm(Sub(masses[e].position, p)) < 2.0 * thickness
  }

  /** No entry of `bucket` pushes a point mass at `p`. */
  predicate Quiet(norm: Vec -> real, masses: seq<PointMass>, bucket: seq<nat>, p: Vec, thickness: real)
    requires forall e :: e in bucket ==> e < |masses|
  {
    forall e :: e in bucket ==> !Collides(norm, masses, e, p, thickness)
  }

  /** The accumulated correction vector and the number of collisions found. */
  datatype Push = Push(correction: Vec, count: nat)

  /**
   The loop of `self_collide` over a bucket: each colliding entry adds the unit
   vector away from it, scaled by how far it is inside `2 * thickness`.
   */
  function Pushes(norm: Vec -> real, masses: seq<PointMass>, bucket: seq<nat>, p: Vec, thickness: real): (r: Push)
    requires IsNorm(norm)
    requires forall e :: e in bucket ==> e < |masses|
    ensures r.count <= |bucket|
    ensures r.count == 0 <==> Quiet(norm, masses, bucket, p, thickness)
    ensures r.count == 0 ==> r.correction == Zero
  {
    if bucket == [] then Push(Zero, 0)
    else
      var e, init := bucket[|bucket| - 1], bucket[..|bucket| - 1];
      assert e in bucket && forall x :: x in init ==> x in bucket;
      var rest := Pushes(norm, masses, init, p, thickness);
      if Collides(norm, masses, e, p, thickness) then
        var distance := norm(Sub(masses[e].position, p));
        var away := Unit(norm, Sub(p, masses[e].position));
        Push(Add(rest.correction, Scale(2.0 * thickness - distance, away)), rest.count + 1)
      else
        rest
  }

  /**
   `Cloth::self_collide` for the point mass at index `i`: the correction,
   averaged over the collisions and divided by the number of simulation steps,
   is added to its position. The bucket of its hash must exist (the C++ code
   dereferences it unchecked) and its entries must be indices of point masses.
   */
  function SelfCollide(norm: Vec -> real, hash: Vec -> real, masses: seq<PointMass>, table: SpatialMap,
                       i: nat, thickness: real, steps: real): (r: seq<PointMass>)
    requires IsNorm(norm) && i < |masses| && steps != 0.0
    requires hash(masses[i].position) in table
    requires forall e :: e in table[hash(masses[i].position)] ==> e < |masses|
    ensures |r| == |masses|
    ensures forall k :: 0 <= k < |masses| && k != i ==> r[k] == masses[k]
    ensures r[i] == masses[i].(position := r[i].position)
    ensures Quiet(norm, masses, table[hash(masses[i].position)], masses[i].position, thickness) ==> r == masses
  {
    var p := masses[i].position;
    var push := Pushes(norm, masses, table[hash(p)], p, thickness);
    if push.count > 0 then
      var correction := Scale(1.0 / steps, Scale(1.0 / (push.count as real), push.correction));
      masses[i := masses[i].(position := Add(p, correction))]
    else
      masses
  }

  /** A cloth with no thickness never pushes itself apart. */
  lemma SelfCollideThin(norm: Vec -> real, hash: Vec -> real, masses: seq<PointMass>, table: SpatialMap,
                        i: nat, thickness: real, steps: real)
    requires IsNorm(norm) && i < |masses| && steps != 0.0
    requires hash(masses[i].position) in table
    requires forall e :: e in table[hash(masses[i].position)] ==> e < |masses|
    requires thickness <= 0.0
    ensures SelfCollide(norm, hash, masses, table, i, thickness, steps) == masses
  {
    var b := table[hash(masses[i].position)];
    forall e | e in b
      ensures !Collides(norm, masses, e, masses[i].position, thickness)
    {
      NormSquare(norm, Sub(masses[e].position, masses[i].position));
    }
  }

  /**
   With the map `build_spatial_map` produces, a point mass whose box holds no
   other point mass (or only ones at its very position) stays where it is.
   */
  lemma SelfCollideAlone(norm: Vec -> real, hash: Vec -> real, masses: seq<PointMass>, table: SpatialMap,
                         i: nat, thickness: real, steps: real)
    requires IsNorm(norm) && i < |masses| && steps != 0.0
    requires IsSpatialMap(hash, masses, table)
    requires forall j :: 0 <= j < |masses| && hash(masses[j].position) == hash(masses[i].position) ==>
      masses[j].position == masses[i].position
    ensures hash(masses[i].position) in table
    ensures forall e :: e in table[hash(masses[i].position)] ==> e < |masses|
    ensures SelfCollide(norm, hash, masses, table, i, thickness, steps) == masses
  {
    var key := hash(masses[i].position);
    SpatialMapMembers(hash, masses, table, i, key);
    SpatialMapInRange(hash, masses, table, key);
    var b := table[key];
    forall e | e in b
      ensures !Collides(norm, masses, e, masses[i].position, thickness)
    {
      BucketMembers(hash, masses, key, |masses|, e);
    }
  }
}
