// The per-frame state of the hero "fluid" effect: the smoothed pointer,
// the velocity accumulator, the frame counter, the trail array that the
// frame step updates in place, and the two uniform arrays the shader reads.

module HeroEffect {
  import opened Trail
  import opened Pointer

  /** A 2D point, as the shader's trail position uniform holds it. */
  datatype Vec2 = Vec2(x: real, y: real)

  class HeroWaterEffect {
    /** The trail samples, slot 0 the most recent (mouseTrail). */
    const trail: array<Sample>
    /** Shader uniform: the trail positions (trailPositions). */
    const trailPositions: array<Vec2>
    /** Shader uniform: the trail strengths (trailStrengths). */
    const trailStrengths: array<real>

    /** Drawn pointer position, in clip space. */
    var mouseX: real
    var mouseY: real
    /** Where the pointer really is, in clip space. */
    var targetX: real
    var targetY: real
    /** Drawn pointer position at the end of the previous frame. */
    var prevX: real
    var prevY: real
    /** Smoothed pointer speed. */
    var velocity: real
    /** Number of frames stepped so far. */
    var frameCount: nat

    /** The uniforms hold exactly the trail's positions and strengths. */
    ghost predicate UniformsMatch()
      reads this, trail, trailPositions, trailStrengths
      requires trail.Length == trailPositions.Length == trailStrengths.Length
    {
      forall i :: 0 <= i < trail.Length ==>
        trailPositions[i] == Vec2(trail[i].x, trail[i].y) && trailStrengths[i] == trail[i].strength
    }

    /**
     * The invariant kept by every frame: the three arrays have exactly
     * TRAIL_LENGTH slots, the velocity is non-negative, every strength lies
     * in [0, 4], and the uniforms mirror the trail.
     */
    ghost predicate Valid()
      reads this, trail, trailPositions, trailStrengths
    {
      trail.Length == TRAIL_LENGTH &&
      trailPositions.Length == TRAIL_LENGTH &&
      trailStrengths.Length == TRAIL_LENGTH &&
      0.0 <= velocity &&
      StrengthsBounded(trail[..]) &&
      UniformsMatch()
    }

    /** Set-up: every slot and the pointer start offscreen, nothing has moved yet. */
    constructor ()
      ensures Valid()
      ensures fresh(trail) && fresh(trailPositions) && fresh(trailStrengths)
      ensures trail[..] == seq(TRAIL_LENGTH, _ => Offscreen)
      ensures mouseX == OFFSCREEN && mouseY == OFFSCREEN
      ensures targetX == OFFSCREEN && targetY == OFFSCREEN
      ensures prevX == OFFSCREEN && prevY == OFFSCREEN
      ensures velocity == 0.0 && frameCount == 0
    {
      trail := new Sample[TRAIL_LENGTH](_ => Offscreen);
      trailPositions := new Vec2[TRAIL_LENGTH](_ => Vec2(OFFSCREEN, OFFSCREEN));
      trailStrengths := new real[TRAIL_LENGTH](_ => 0.0);
      mouseX, mouseY := OFFSCREEN, OFFSCREEN;
      targetX, targetY := OFFSCREEN, OFFSCREEN;
      prevX, prevY := OFFSCREEN, OFFSCREEN;
      velocity := 0.0;
      frameCount := 0;
    }

    /** The pointer moved: record its new position, already normalised to clip space. */
    method MoveTarget(x: real, y: real)
      requires Valid()
      modifies this
      ensures Valid()
      ensures targetX == x && targetY == y
      ensures mouseX == old(mouseX) && mouseY == old(mouseY)
      ensures prevX == old(prevX) && prevY == old(prevY)
      ensures velocity == old(velocity) && frameCount == old(frameCount)
    {
      targetX, targetY := x, y;
    }

    /**
     * One animation frame. `aspect` is the viewport's width over its height,
     * `inHero` whether the pointer is inside the hero, and `currentVelocity`
     * the length of this frame's displacement of the drawn pointer.
     */
    method Step(aspect: real, currentVelocity: real, inHero: bool)
      requires Valid()
      requires IsSqrt(currentVelocity, Sq(Lerp(mouseX, targetX) - prevX) + Sq(Lerp(mouseY, targetY) - prevY))
      modifies this, trail, trailPositions, trailStrengths
      ensures Valid()
      ensures mouseX == Lerp(old(mouseX), old(targetX)) && mouseY == Lerp(old(mouseY), old(targetY))
      ensures targetX == old(targetX) && targetY == old(targetY)
      ensures prevX == mouseX && prevY == mouseY
      ensures velocity == NextVelocity(old(velocity), currentVelocity)
      ensures frameCount == old(frameCount) + 1
      ensures old(frameCount) % 2 == 0 ==>
                trail[..] == Advance(old(trail[..]), HeadSample(mouseX, mouseY, aspect, velocity, inHero))
      ensures old(frameCount) % 2 == 1 ==> trail[..] == old(trail[..])
      ensures !inHero ==> TotalStrength(trail[..]) <= old(TotalStrength(trail[..]))
    {
      mouseX := mouseX + (targetX - mouseX) * MOUSE_LERP;
      mouseY := mouseY + (targetY - mouseY) * MOUSE_LERP;
      velocity := velocity * VELOCITY_KEEP + currentVelocity * VELOCITY_GAIN;
      prevX, prevY := mouseX, mouseY;

      ghost var before := trail[..];
      if frameCount % 2 == 0 {
        ShiftTrail();
        var head := HeadSample(mouseX, mouseY, aspect, velocity, inHero);
        trail[0] := head;
        assert trail[..] == [head] + trail[1..];
        assert trail[..] == Advance(before, head);
        AdvanceKeepsBounds(before, head);
        if !inHero {
          AdvanceWithoutHeadDecays(before, head);
        }
      }
      UploadUniforms();
      frameCount := frameCount + 1;
    }

    /**
     * The descending loop of an even frame: from the tail down to slot 1,
     * each slot takes the position of the slot before it and that slot's
     * faded strength. Going from the tail means no slot is overwritten
     * before it is read. Slot 0 is left as it was.
     */
    method ShiftTrail()
      requires 0 < trail.Length
      modifies trail
      ensures trail[0] == old(trail[0])
      ensures trail[1..] == FadeAll(old(trail[..trail.Length - 1]))
    {
      var i := trail.Length - 1;
      while i > 0
        invariant 0 <= i < trail.Length
        invariant forall k :: 0 <= k <= i ==> trail[k] == old(trail[k])
        invariant forall k :: i < k < trail.Length ==> trail[k] == Faded(old(trail[k - 1]))
      {
        trail[i] := Faded(trail[i - 1]);
        i := i - 1;
      }
      ghost var rest := old(trail[..trail.Length - 1]);
      forall k | 0 <= k < trail.Length - 1
        ensures trail[1..][k] == FadeAll(rest)[k]
      {
        FadeAllAt(rest, k);
      }
    }

    /** Copy every slot's position and strength into the shader uniforms. */
    method UploadUniforms()
      requires trail.Length == trailPositions.Length == trailStrengths.Length
      modifies trailPositions, trailStrengths
      ensures UniformsMatch()
    {
      for i := 0 to trail.Length
        invariant forall k :: 0 <= k < i ==>
          trailPositions[k] == Vec2(trail[k].x, trail[k].y) && trailStrengths[k] == trail[k].strength
      {
        trailPositions[i] := Vec2(trail[i].x, trail[i].y);
        trailStrengths[i] := trail[i].strength;
      }
    }
  }
}
