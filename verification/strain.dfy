/**
 The strain-limit pass at the end of `Cloth::simulate` (after Provot, 1995): a
 spring stretched beyond 110% of its rest length has its endpoints pulled back
 along the spring until it is exactly at that ceiling. Springs are visited in
 order, and each sees the positions the earlier ones left.
 */
module StrainLimit {
  import opened Vectors
  import opened Masses

  /** The strain ceiling: 110% of the rest length. */
  const Ceiling: real := 1.1

  /** The current vector from the spring's first end to its second. */
  function Span(masses: seq<PointMass>, s: Spring): Vec
    requires s.a < |masses| && s.b < |masses|
  {
    Sub(masses[s.b].position, masses[s.a].position)
  }

  /** The spring is longer than the ceiling allows. */
  predicate Overstretched(norm: Vec -> real, masses: seq<PointMass>, s: Spring)
    requires s.a < |masses| && s.b < |masses|
  {
    norm(Span(masses, s)) > s.restLength * Ceiling
  }

  /**
   One iteration of the pass. The direction is the unit vector from `a` to `b`
   and the excess is the length beyond the ceiling. A free end opposite a pinned
   one moves the whole excess; two free ends move half each, `a` first; two
   pinned ends stay.
   */
  function LimitSpring(norm: Vec -> real, masses: seq<PointMass>, s: Spring): (r: seq<PointMass>)
    requires IsNorm(norm) && s.a < |masses| && s.b < |masses|
    ensures SameBodies(masses, r)
    ensures forall k :: 0 <= k < |masses| ==> r[k].lastPosition == masses[k].lastPosition
    ensures forall k :: 0 <= k < |masses| && masses[k].pinned ==> r[k] == masses[k]
    ensures forall k :: 0 <= k < |masses| && k != s.a && k != s.b ==> r[k] == masses[k]
    ensures !Overstretched(norm, masses, s) ==> r == masses
    ensures masses[s.a].pinned && masses[s.b].pinned ==> r == masses
  {
    var pa, pb := masses[s.a], masses[s.b];
    var dir := Unit(norm, Span(masses, s));
    if Overstretched(norm, masses, s) then
      var excess := norm(Span(masses, s)) - s.restLength * Ceiling;
      if pa.pinned && !pb.pinned then
        masses[s.b := pb.(position := Sub(pb.position, Scale(excess, dir)))]
      else if !pa.pinned && pb.pinned then
        masses[s.a := pa.(position := Add(pa.position, Scale(excess, dir)))]
      else if !pa.pinned && !pb.pinned then
        var m := masses[s.a := pa.(position := Add(pa.position, Scale(excess / 2.0, dir)))];
        m[s.b := m[s.b].(position := Sub(m[s.b].position, Scale(excess / 2.0, dir)))]
      else
        masses
    else
      masses
  }

  /**
   Taken on its own, an overstretched spring with a free end and a
   non-negative rest length ends up exactly at the ceiling.
   */
  lemma LimitSpringLength(norm: Vec -> real, masses: seq<PointMass>, s: Spring)
    requires IsNorm(norm) && s.a < |masses| && s.b < |masses| && s.a != s.b
    requires s.restLength >= 0.0 && Overstretched(norm, masses, s)
    requires !(masses[s.a].pinned && masses[s.b].pinned)
    ensures norm(Span(LimitSpring(norm, masses, s), s)) == s.restLength * Ceiling
  {
    var d := Span(masses, s);
    var len := norm(d);
    var dir := Unit(norm, d);
    var excess := len - s.restLength * Ceiling;
    var target := s.restLength * Ceiling;
    NormZeroIff(norm, d);
    assert d != Zero;
    assert Scale(len, dir) == d && norm(dir) == 1.0;
    ScaleDifference(len, excess, dir);
    assert Sub(d, Scale(excess, dir)) == Scale(target, dir);
    var r := LimitSpring(norm, masses, s);
    if masses[s.a].pinned {
      assert Span(r, s) == Sub(d, Scale(excess, dir));
    } else if masses[s.b].pinned {
      assert Span(r, s) == Sub(d, Scale(excess, dir));
    } else {
      assert Span(r, s) == Sub(d, Scale(excess, dir));
    }
    NormScale(norm, target, dir);
  }

  /**
   The pass over all springs, in order. Pinned point masses and point masses
   no spring touches keep their state, and only positions change.
   */
  function LimitAll(norm: Vec -> real, masses: seq<PointMass>, springs: seq<Spring>): (r: seq<PointMass>)
    requires IsNorm(norm) && SpringsWithin(springs, |masses|)
    ensures SameBodies(masses, r)
    ensures forall k :: 0 <= k < |masses| ==> r[k].lastPosition == masses[k].lastPosition
    ensures forall k :: 0 <= k < |masses| && masses[k].pinned ==> r[k] == masses[k]
    ensures forall k :: 0 <= k < |masses| && Untouched(springs, k) ==> r[k] == masses[k]
    decreases |springs|
  {
    if springs == [] then masses
    else LimitAll(norm, LimitSpring(norm, masses, springs[0]), springs[1..])
  }

  /** No spring has `k` as an endpoint. */
  predicate Untouched(springs: seq<Spring>, k: nat) {
    forall t :: 0 <= t < |springs| ==> springs[t].a != k && springs[t].b != k
  }

  /** A pass over springs none of which is overstretched changes nothing. */
  lemma {:induction false} LimitAllRelaxed(norm: Vec -> real, masses: seq<PointMass>, springs: seq<Spring>)
    requires IsNorm(norm) && SpringsWithin(springs, |masses|)
    requires forall t :: 0 <= t < |springs| ==> !Overstretched(norm, masses, springs[t])
    ensures LimitAll(norm, masses, springs) == masses
    decreases |springs|
  {
    if springs != [] {
      assert LimitSpring(norm, masses, springs[0]) == masses;
      assert forall t :: 0 <= t < |springs[1..]| ==> springs[1..][t] == springs[t + 1];
      LimitAllRelaxed(norm, masses, springs[1..]);
    }
  }
}
