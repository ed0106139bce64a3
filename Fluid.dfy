// The scalar fluid field the hero shader evaluates at a point: each trail
// sample contributes its strength times the squared radius over the squared
// distance to the point plus a small constant.

module Fluid {
  import opened Trail

  /** Radius of influence of one sample (CONFIG.TRAIL_RADIUS). */
  const TRAIL_RADIUS: real := 0.12
  /** Added to the squared distance so the quotient is always defined. */
  const FIELD_EPSILON: real := 0.0001

  /** Squared distance from (px, py) to a sample's position. */
  function DistSq(px: real, py: real, s: Sample): (r: real)
    ensures 0.0 <= r
  {
    (px - s.x) * (px - s.x) + (py - s.y) * (py - s.y)
  }

  /** What one sample adds to the field at a given squared distance. */
  function Influence(strength: real, distSq: real): (r: real)
    requires 0.0 <= distSq
    ensures 0.0 <= strength ==> 0.0 <= r
    ensures strength == 0.0 ==> r == 0.0
  {
    TRAIL_RADIUS * TRAIL_RADIUS * strength / (distSq + FIELD_EPSILON)
  }

  /** The field at (px, py): the sum of every sample's influence (getFluidField). */
  function FluidField(px: real, py: real, trail: seq<Sample>): (r: real)
    ensures StrengthsNonNegative(trail) ==> 0.0 <= r
  {
    if trail == [] then 0.0
    else Influence(trail[0].strength, DistSq(px, py, trail[0])) + FluidField(px, py, trail[1..])
  }

  /**
   * A sample's influence is largest on top of it: it never exceeds the
   * strength times R^2 / epsilon.
   */
  lemma InfluenceAtMost(strength: real, distSq: real)
    requires 0.0 <= strength && 0.0 <= distSq
    ensures Influence(strength, distSq) <= TRAIL_RADIUS * TRAIL_RADIUS / FIELD_EPSILON * strength
  {
    // The denominator is at least epsilon, so the quotient is at most c / epsilon.
  }

  /** A positive-strength sample's influence strictly falls as the distance grows. */
  lemma InfluenceFalls(strength: real, near: real, far: real)
    requires 0.0 <= near <= far
    requires 0.0 <= strength
    ensures Influence(strength, far) <= Influence(strength, near)
    ensures 0.0 < strength && near < far ==> Influence(strength, far) < Influence(strength, near)
  {
    // Same non-negative numerator over a denominator that does not shrink.
  }

  /** The field is bounded by R^2 / epsilon times the total strength of the trail. */
  lemma {:induction false} FieldAtMost(px: real, py: real, trail: seq<Sample>)
    requires StrengthsNonNegative(trail)
    ensures FluidField(px, py, trail) <= TRAIL_RADIUS * TRAIL_RADIUS / FIELD_EPSILON * TotalStrength(trail)
  {
    if trail != [] {
      InfluenceAtMost(trail[0].strength, DistSq(px, py, trail[0]));
      FieldAtMost(px, py, trail[1..]);
    }
  }

  /**
   * For a trail whose strengths lie in [0, 4], the field is at most
   * R^2 / epsilon * 4 per sample (8640 for fifteen samples).
   */
  lemma FieldBounded(px: real, py: real, trail: seq<Sample>)
    requires StrengthsBounded(trail)
    ensures 0.0 <= FluidField(px, py, trail)
    ensures FluidField(px, py, trail) <= TRAIL_RADIUS * TRAIL_RADIUS / FIELD_EPSILON * MAX_STRENGTH * |trail| as real
  {
    FieldAtMost(px, py, trail);
    BoundedTotal(trail);
  }

  /** A trail whose strengths are all zero (as at set-up) gives a zero field everywhere. */
  lemma {:induction false} FieldOfStillTrail(px: real, py: real, trail: seq<Sample>)
    requires forall i :: 0 <= i < |trail| ==> trail[i].strength == 0.0
    ensures FluidField(px, py, trail) == 0.0
  {
    if trail != [] {
      FieldOfStillTrail(px, py, trail[1..]);
    }
  }

  /**
   * Moving the evaluation point away from every sample of positive strength
   * never raises the field, and strictly lowers it when it moves strictly
   * away from one of them. Zero-strength samples (offscreen slots, heads
   * written outside the hero) contribute nothing and may come nearer.
   */
  lemma {:induction false} FieldFallsWithDistance(px: real, py: real, qx: real, qy: real, trail: seq<Sample>, j: nat)
    requires StrengthsNonNegative(trail)
    requires forall i :: 0 <= i < |trail| && 0.0 < trail[i].strength ==>
               DistSq(px, py, trail[i]) <= DistSq(qx, qy, trail[i])
    ensures FluidField(qx, qy, trail) <= FluidField(px, py, trail)
    ensures j < |trail| && 0.0 < trail[j].strength && DistSq(px, py, trail[j]) < DistSq(qx, qy, trail[j])
            ==> FluidField(qx, qy, trail) < FluidField(px, py, trail)
  {
    if trail != [] {
      if 0.0 < trail[0].strength {
        InfluenceFalls(trail[0].strength, DistSq(px, py, trail[0]), DistSq(qx, qy, trail[0]));
      }
      FieldFallsWithDistance(px, py, qx, qy, trail[1..], if j == 0 then 0 else j - 1);
    }
  }
}
