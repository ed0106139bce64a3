// Two small mappings from scroll state to visual state: which caption of
// the video section is shown at a given scroll progress, and how far the
// horizontally scrolling cards are skewed at a given scroll velocity.

module ScrollMappings {

  /** Index of the caption to show: floor(progress * count), as the code computes it. */
  function TextIndex(progress: real, count: nat): (r: int)
    ensures r as real <= progress * count as real < r as real + 1.0
    ensures 0.0 <= progress < 1.0 && 0 < count ==> 0 <= r < count
    ensures progress == 1.0 ==> r == count
  {
    // For progress in [0, 1) the product lies in [0, count), so its floor does
    // too; the two bounds are stated so the solver does not depend on its seed.
    var scaled := progress * count as real;
    assert 0.0 <= progress && 0 < count ==> 0.0 <= scaled;
    assert progress < 1.0 && 0 < count ==> scaled < count as real;
    scaled.Floor
  }

  /** Index of the caption to show, clamped to the last caption. */
  function ClampedTextIndex(progress: real, count: nat): (r: int)
    requires 0 < count
    ensures 0.0 <= progress <= 1.0 ==> 0 <= r < count
    ensures 0.0 <= progress < 1.0 ==> r == TextIndex(progress, count)
    ensures progress == 1.0 ==> r == count - 1
  {
    var i := TextIndex(progress, count);
    if i < count then i else count - 1
  }

  /** The `active` flag of each of `count` captions when caption `index` is the chosen one. */
  function ActiveFlags(index: int, count: nat): (flags: seq<bool>)
    ensures |flags| == count
  {
    seq(count, i => i == index)
  }

  /** Exactly one flag is set. */
  ghost predicate ExactlyOneActive(flags: seq<bool>)
  {
    exists i :: 0 <= i < |flags| && flags[i] && forall j :: 0 <= j < |flags| && j != i ==> !flags[j]
  }

  /** Choosing an index inside the list sets exactly that one flag. */
  lemma ChosenIndexActive(index: int, count: nat)
    requires 0 <= index < count
    ensures ExactlyOneActive(ActiveFlags(index, count))
    ensures ActiveFlags(index, count)[index]
  {
    var flags := ActiveFlags(index, count);
    assert flags[index] && forall j :: 0 <= j < count && j != index ==> !flags[j];
  }

  /** Before the end of the section, exactly one caption is active: the one at TextIndex. */
  lemma OneCaptionBeforeEnd(progress: real, count: nat)
    requires 0.0 <= progress < 1.0 && 0 < count
    ensures ExactlyOneActive(ActiveFlags(TextIndex(progress, count), count))
    ensures ActiveFlags(TextIndex(progress, count), count)[TextIndex(progress, count)]
  {
    ChosenIndexActive(TextIndex(progress, count), count);
  }

  /** At the very end of the section (progress 1) the code sets no caption active. */
  lemma NoCaptionAtEnd(count: nat)
    ensures forall i :: 0 <= i < count ==> !ActiveFlags(TextIndex(1.0, count), count)[i]
    ensures !ExactlyOneActive(ActiveFlags(TextIndex(1.0, count), count))
  {
  }

  /** With the clamp, exactly one caption is active over the whole of [0, 1]. */
  lemma OneCaptionClamped(progress: real, count: nat)
    requires 0.0 <= progress <= 1.0 && 0 < count
    ensures ExactlyOneActive(ActiveFlags(ClampedTextIndex(progress, count), count))
  {
    ChosenIndexActive(ClampedTextIndex(progress, count), count);
  }

  /** Largest skew of the cards, in degrees. */
  const SKEW_LIMIT: real := 15.0
  /** Scroll velocity (pixels per second) per degree of skew. */
  const VELOCITY_PER_DEGREE: real := 250.0

  /** The skew clamp: max(min(skew, 15), -15). */
  function ClampSkew(skew: real): (r: real)
    ensures -SKEW_LIMIT <= r <= SKEW_LIMIT
    ensures -SKEW_LIMIT <= skew <= SKEW_LIMIT ==> r == skew
    ensures SKEW_LIMIT < skew ==> r == SKEW_LIMIT
    ensures skew < -SKEW_LIMIT ==> r == -SKEW_LIMIT
  {
    var upper := if skew < SKEW_LIMIT then skew else SKEW_LIMIT;
    if upper > -SKEW_LIMIT then upper else -SKEW_LIMIT
  }

  /** Skew applied to the cards for a scroll velocity, and their Y rotation (half the skew). */
  function CardTilt(scrollVelocity: real): (r: (real, real))
    ensures -SKEW_LIMIT <= r.0 <= SKEW_LIMIT
    ensures r.1 * 2.0 == r.0
    ensures -SKEW_LIMIT / 2.0 <= r.1 <= SKEW_LIMIT / 2.0
    ensures -SKEW_LIMIT * VELOCITY_PER_DEGREE <= scrollVelocity <= SKEW_LIMIT * VELOCITY_PER_DEGREE
            ==> r.0 * VELOCITY_PER_DEGREE == scrollVelocity
  {
    var skew := ClampSkew(scrollVelocity / VELOCITY_PER_DEGREE);
    (skew, skew * 0.5)
  }

  /** The clamp never reverses the order of two skews. */
  lemma ClampSkewMonotone(a: real, b: real)
    requires a <= b
    ensures ClampSkew(a) <= ClampSkew(b)
  {
  }

  /** Clamping twice is clamping once. */
  lemma ClampSkewIdempotent(skew: real)
    ensures ClampSkew(ClampSkew(skew)) == ClampSkew(skew)
  {
  }
}
