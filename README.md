# Hero fluid trail and scroll mappings of the Gentlerain site

This project models the behaviour of the front end's only pieces with
logic of their own, all in `js/main.js`:

- **The hero "fluid" effect's frame step** (`animate` in
  `initHeroWaterEffect`). It keeps a 15-slot mouse trail of
  `{x, y, strength}` samples, a smoothed pointer, a velocity accumulator
  and a frame counter. Each frame, the drawn pointer closes 10% of the gap
  to the real pointer and the velocity is multiplied by 0.85 and gains 15 times
  the frame's displacement. On every even frame the trail shifts one slot
  toward the tail, fading each moved strength by 0.92, and slot 0 takes
  the pointer's position and a strength of `min(2.5·velocity, 4)`. That
  strength is 0 when the pointer is outside the hero. On every frame,
  even or odd, the trail is then copied into the shader's two uniform
  arrays.
  (`HeroEffect.dfy`: a class over three arrays. `Trail.dfy` and
  `Pointer.dfy` hold the value-level specification and its lemmas.)
- **The shader's fluid field** (`getFluidField`). It sums
  `R²·strengthᵢ / (dᵢ² + 0.0001)` over the trail, with `R = 0.12`. It is
  written over exact reals in `Fluid.dfy`.
- **Two scroll mappings** (`ScrollMappings.dfy`). The first picks which
  caption of the video section is active, `floor(progress·count)`, and
  makes it the only one marked active. The second is the clamp on the
  horizontal cards' skew, `max(min(velocity/250, 15), -15)`, with a Y
  rotation of half the skew.

What is proved:

- Every frame keeps the class invariant. The arrays keep exactly 15 slots,
  the velocity stays ≥ 0, every strength stays in [0, 4], and the uniforms
  mirror the trail. So these hold after any number of frames.
- `Step` states the whole new state. On even frames the trail is `Advance`
  of the old trail. On odd frames it is unchanged. The frame counter
  always grows by exactly one.
- `Advance` keeps the length. It writes the head to slot 0, and each slot
  i ≥ 1 gets slot i-1's old position and 0.92 times its old strength.
  Without a head strength it is pure decay: the new total strength is 0.92
  times the old total of slots 0..13, and never more than the old total.
- The smoothed pointer's gap to its target shrinks by exactly 0.9 per
  frame, with no overshoot. After k frames the gap is 0.9^k of the
  original, so the pointer never reaches the target unless it started
  there.
- The field is ≥ 0 and at most `R²/ε` times the total strength, and so
  at most 8640 for a valid trail (`FieldBounded`). It is 0 for a trail of zero strengths, such as the
  trail at set-up. It does not grow when the point moves away from every
  sample of positive strength, and strictly falls when the point moves
  strictly away from one of them.
- For progress in [0, 1), the caption index lies in [0, count-1] and
  exactly one caption is active. At progress 1 the index is `count` and
  no caption is active (see Findings). The skew clamp always lies in
  [-15, 15] and is the identity inside that range.

## Model

| member | source | states |
|---|---|---|
| `Trail.Faded` | js/main.js:676-678 | a moved sample keeps its position; a non-negative strength stays non-negative and does not grow |
| `Trail.FadeAll` | js/main.js:675-679 | fading the trail keeps its length |
| `Trail.FadeAllAt` | js/main.js:675-679 | slot i of the faded trail has slot i's position and 0.92 times its strength |
| `Trail.Advance` | js/main.js:675-685 | the even-frame update never adds or removes slots |
| `Trail.AdvanceAt` | js/main.js:675-684 | after an even-frame update slot 0 is the head, and each slot i ≥ 1 has the old x, y of slot i-1 and 0.92 times its strength |
| `Trail.HeadStrength` | js/main.js:684 | the head strength is 0 outside the hero; inside it is 2.5·velocity capped at 4; for velocity ≥ 0 it lies in [0, 4] |
| `Trail.HeadSample` | js/main.js:681-684 | slot 0 gets x = (mouse.x·0.5+0.5)·aspect and y = mouse.y·0.5+0.5, with a strength in [0, 4] that is 0 outside the hero |
| `Trail.AdvanceKeepsBounds` | js/main.js:675-684 | an even-frame update keeps every strength in [0, 4] |
| `Trail.FadeAllTotal` | js/main.js:678 | fading the trail multiplies its total strength by 0.92 |
| `Trail.PrefixTotal` | js/main.js:675-679 | dropping the tail sample, which the shift overwrites, cannot raise a non-negative total |
| `Trail.AdvanceWithoutHeadDecays` | js/main.js:675-684 | outside the hero, the new total strength is 0.92 times the old total of slots 0..n-2, and at most the old total |
| `Pointer.Lerp` | js/main.js:661-662 | one frame of smoothing leaves 0.9 of the gap to the target, and the drawn pointer stays between its old position and the target |
| `Pointer.LerpFramesGap` | js/main.js:661-662 | after k frames toward a fixed target the gap is 0.9^k times the original, and it is never zero unless it started at zero |
| `Pointer.NextVelocity` | js/main.js:668 | the velocity stays ≥ 0 when the displacement is ≥ 0, keeps at least 0.85 of its old value, and does not grow while the pointer is still |
| `HeroEffect.HeroWaterEffect.constructor` | js/main.js:514-654 | at set-up every slot is offscreen at (-10, -10) with strength 0, the uniforms match, the pointer is at (-10, -10), and velocity and frame count are 0 |
| `HeroEffect.HeroWaterEffect.MoveTarget` | js/main.js:642-645 | a pointer move sets only the target position and keeps the class invariant |
| `HeroEffect.HeroWaterEffect.Step` | js/main.js:656-699 | one frame: the pointer is smoothed, the velocity is updated, the previous position is recorded, and the frame count grows by 1. On even frames the trail becomes `Advance` of the old trail with the pointer's head sample; on odd frames it is unchanged. The invariant is kept (15 slots, velocity ≥ 0, strengths in [0, 4], uniforms equal to the trail). Outside the hero the total strength does not grow |
| `HeroEffect.HeroWaterEffect.ShiftTrail` | js/main.js:675-679 | the descending loop leaves slot 0 alone and turns slots 1..n-1 into the faded old slots 0..n-2 |
| `HeroEffect.HeroWaterEffect.UploadUniforms` | js/main.js:688-691 | afterwards each uniform slot holds its trail slot's position and strength |
| `Fluid.DistSq` | js/main.js:560 | the squared distance is non-negative |
| `Fluid.Influence` | js/main.js:562 | one sample's contribution is non-negative for a non-negative strength and zero for a zero strength |
| `Fluid.FluidField` | js/main.js:557-565 | the field is non-negative when every strength is |
| `Fluid.InfluenceAtMost` | js/main.js:562 | one sample's contribution is at most R²/0.0001 times its strength |
| `Fluid.InfluenceFalls` | js/main.js:562 | a sample's contribution does not grow with distance, and strictly falls when its strength is positive |
| `Fluid.FieldAtMost` | js/main.js:557-565 | the field is at most R²/0.0001 times the total strength |
| `Fluid.FieldBounded` | js/main.js:557-565 | for strengths in [0, 4] the field lies in [0, R²/0.0001·4·n] |
| `Fluid.FieldOfStillTrail` | js/main.js:557-565 | a trail of zero strengths gives a zero field everywhere |
| `Fluid.FieldFallsWithDistance` | js/main.js:557-565 | moving away from every sample of positive strength does not raise the field, and moving strictly away from one of them lowers it; zero-strength samples may come nearer |
| `ScrollMappings.TextIndex` | js/main.js:214 | the index is the floor of progress·count; for progress in [0, 1) and count > 0 it is in [0, count-1]; at progress 1 it is count |
| `ScrollMappings.ActiveFlags` | js/main.js:215-217 | every caption gets exactly one flag |
| `ScrollMappings.ChosenIndexActive` | js/main.js:215-217 | choosing an index inside the list marks exactly that caption active |
| `ScrollMappings.OneCaptionBeforeEnd` | js/main.js:214-217 | for progress in [0, 1), exactly one caption is active, the one at the text index |
| `ScrollMappings.NoCaptionAtEnd` | js/main.js:214-217 | at progress 1 no caption is active |
| `ScrollMappings.ClampedTextIndex` | js/main.js:214 | the clamped index is in [0, count-1] on all of [0, 1], equals the unclamped one below 1, and is count-1 at 1 |
| `ScrollMappings.OneCaptionClamped` | js/main.js:214-217 | with the clamp, exactly one caption is active for every progress in [0, 1] |
| `ScrollMappings.ClampSkew` | js/main.js:419 | the clamped skew lies in [-15, 15], equals the skew inside that range, and is the nearer bound outside it |
| `ScrollMappings.CardTilt` | js/main.js:415-423 | the card skew lies in [-15, 15] and the Y rotation is half of it, in [-7.5, 7.5]; for scroll velocities within ±3750 the skew is velocity/250 |
| `ScrollMappings.ClampSkewMonotone` | js/main.js:419 | the clamp preserves order |
| `ScrollMappings.ClampSkewIdempotent` | js/main.js:419 | clamping twice is clamping once |

## Findings

| source | as written | input that shows it | evidently intended | confidence | as-written member | corrected member |
|---|---|---|---|---|---|---|
| js/main.js:214-217 | the caption index `floor(progress·count)` is not clamped | progress = 1 (the end of the section) with any count ≥ 1: the index is count, so every caption loses `active` and the last caption disappears | the index clamped to count-1. Every progress below 1 shows exactly one caption (js/main.js:215-217), and at progress 1 the video is still seeked to its last frame (js/main.js:207), so the section is still on screen; progress 1 is the only value where no caption is shown | medium; not executed | `ScrollMappings.NoCaptionAtEnd` | `ScrollMappings.OneCaptionClamped` |

## Left out

- `Math.sqrt`: `Step` takes the frame's displacement length `currentVelocity` as an input, with the precondition that it is the non-negative square root of dx² + dy².
- Floating point: all coordinates, strengths, the field, the scroll `progress`, the product `progress·count` and the skew `velocity / 250` are exact reals. There is no rounding, NaN or infinity, and no GLSL `float` precision. In doubles, `Math.floor(progress·count)` can land one below the real floor at an exact boundary: 0.29·100 is 28.999… in doubles, so the code picks 28 where `TextIndex` gives 29.
- Viewport: the aspect ratio and whether the pointer is inside the hero are inputs to `Step`. The `mouseenter`/`mouseleave` listeners that set the flag are not modelled. Normalising `clientX`/`clientY` by the window size is not modelled either: `MoveTarget` receives the target already in clip space.
- Uniform objects: the shader's `trailPositions` holds `THREE.Vector2` objects that are updated with `set`. Here it is an array of position values, so object identity is not captured.
- Rendering: THREE scene, camera, renderer and material set-up, the canvas text texture, `uTime`, `renderer.render`, `requestAnimationFrame` and the resize handler are rendering I/O.
- The rest of the shader is GPU floating-point code built on `sin`, `fract` and `sqrt`: the gradient finite difference, `normalize`, `smoothstep`, the `hash`/`noise` idle term and the texture lookup. Only the field sum is modelled.
- The caption index is modelled, but not the video seek to `progress·duration` or its guards. `play`/`pause` on cards and the metadata-wait fallback are not modelled either. These are media side effects of the host.
- The skew is modelled, but not the GSAP tweens that apply it, nor the reset to zero when scrubbing completes. Those are library calls.
- Lenis smooth scroll, GSAP timelines, ScrollTrigger creation and refresh, `initHeroAnimations`, `debounce` and `getScrollAmount` are library, timer or DOM-measurement code.
- The rain spawner: it is random, timer-driven and mutates the DOM.
