// The mouse trail of the hero "fluid" effect as a value: a fixed-length
// sequence of samples, slot 0 the most recent, and the even-frame update
// that shifts every sample one slot toward the tail while fading it.

module Trail {

  /** Number of samples in the trail (CONFIG.TRAIL_LENGTH). */
  const TRAIL_LENGTH: nat := 15
  /** Factor applied to a sample's strength each time it moves one slot (CONFIG.DECAY_RATE). */
  const DECAY_RATE: real := 0.92
  /** Head strength per unit of smoothed pointer velocity. */
  const STRENGTH_GAIN: real := 2.5
  /** Cap on the head strength. */
  const MAX_STRENGTH: real := 4.0
  /** Coordinate used for "offscreen" before the pointer has moved. */
  const OFFSCREEN: real := -10.0

  /** One trail sample: a position in aspect-corrected texture space and a strength. */
  datatype Sample = Sample(x: real, y: real, strength: real)

  /** The sample every slot starts with. */
  const Offscreen: Sample := Sample(OFFSCREEN, OFFSCREEN, 0.0)

  /** A sample after it has moved one slot toward the tail. */
  function Faded(s: Sample): (r: Sample)
    ensures r.x == s.x && r.y == s.y
    ensures 0.0 <= s.strength ==> 0.0 <= r.strength <= s.strength
  {
    s.(strength := s.strength * DECAY_RATE)
  }

  /** Every sample of `s` faded, in the same order. */
  function FadeAll(s: seq<Sample>): (r: seq<Sample>)
    ensures |r| == |s|
  {
    if s == [] then [] else [Faded(s[0])] + FadeAll(s[1..])
  }

  /**
   * The trail after an even frame: the samples of slots 0..n-2 move to
   * slots 1..n-1, faded, and `head` is written to slot 0.
   */
  function Advance(trail: seq<Sample>, head: Sample): (r: seq<Sample>)
    requires |trail| > 0
    ensures |r| == |trail|
  {
    [head] + FadeAll(trail[..|trail| - 1])
  }

  /** The strength written to slot 0: zero outside the hero, else capped velocity. */
  function HeadStrength(velocity: real, inHero: bool): (r: real)
    ensures 0.0 <= velocity ==> 0.0 <= r <= MAX_STRENGTH
    ensures !inHero ==> r == 0.0
    ensures inHero ==> r <= velocity * STRENGTH_GAIN && r <= MAX_STRENGTH
    ensures inHero ==> r == velocity * STRENGTH_GAIN || r == MAX_STRENGTH
  {
    if !inHero then 0.0
    else if velocity * STRENGTH_GAIN < MAX_STRENGTH then velocity * STRENGTH_GAIN
    else MAX_STRENGTH
  }

  /**
   * The sample written to slot 0 from the smoothed pointer (in clip space,
   * -1..1 on each axis): mapped to 0..1 and the x axis scaled by the aspect ratio.
   */
  function HeadSample(mouseX: real, mouseY: real, aspect: real, velocity: real, inHero: bool): (r: Sample)
    ensures r.y == mouseY * 0.5 + 0.5
    ensures r.x == (mouseX * 0.5 + 0.5) * aspect
    ensures 0.0 <= velocity ==> 0.0 <= r.strength <= MAX_STRENGTH
    ensures !inHero ==> r.strength == 0.0
  {
    Sample((mouseX * 0.5 + 0.5) * aspect, mouseY * 0.5 + 0.5, HeadStrength(velocity, inHero))
  }

  /** Every strength lies in [0, MAX_STRENGTH]. */
  ghost predicate StrengthsBounded(s: seq<Sample>)
  {
    forall i :: 0 <= i < |s| ==> 0.0 <= s[i].strength <= MAX_STRENGTH
  }

  /** Every strength is non-negative. */
  ghost predicate StrengthsNonNegative(s: seq<Sample>)
  {
    forall i :: 0 <= i < |s| ==> 0.0 <= s[i].strength
  }

  /** Sum of the strengths of `s`. */
  function TotalStrength(s: seq<Sample>): real
  {
    if s == [] then 0.0 else s[0].strength + TotalStrength(s[1..])
  }

  lemma {:induction false} FadeAllAt(s: seq<Sample>, i: nat)
    requires i < |s|
    ensures FadeAll(s)[i] == Sample(s[i].x, s[i].y, s[i].strength * DECAY_RATE)
  {
    if i > 0 {
      FadeAllAt(s[1..], i - 1);
    }
  }

  /**
   * The shape of an even-frame update: the length is unchanged, slot 0 is the
   * head, and every other slot holds the position of the slot before it and
   * 0.92 times its strength.
   */
  lemma AdvanceAt(trail: seq<Sample>, head: Sample, i: nat)
    requires 0 < |trail| && i < |trail|
    ensures |Advance(trail, head)| == |trail|
    ensures i == 0 ==> Advance(trail, head)[i] == head
    ensures 0 < i ==> Advance(trail, head)[i]
                      == Sample(trail[i - 1].x, trail[i - 1].y, trail[i - 1].strength * DECAY_RATE)
  {
    if 0 < i {
      FadeAllAt(trail[..|trail| - 1], i - 1);
    }
  }

  /** An even-frame update keeps every strength in [0, 4] when the head's is. */
  lemma AdvanceKeepsBounds(trail: seq<Sample>, head: Sample)
    requires 0 < |trail|
    requires StrengthsBounded(trail)
    requires 0.0 <= head.strength <= MAX_STRENGTH
    ensures StrengthsBounded(Advance(trail, head))
  {
    forall i | 0 <= i < |trail|
      ensures 0.0 <= Advance(trail, head)[i].strength <= MAX_STRENGTH
    {
      AdvanceAt(trail, head, i);
    }
  }

  /** Fading every sample scales the total strength by the decay rate. */
  lemma {:induction false} FadeAllTotal(s: seq<Sample>)
    ensures TotalStrength(FadeAll(s)) == DECAY_RATE * TotalStrength(s)
  {
    if s != [] {
      FadeAllTotal(s[1..]);
    }
  }

  /** With non-negative strengths, dropping samples from the tail cannot raise the total. */
  lemma {:induction false} PrefixTotal(s: seq<Sample>, k: nat)
    requires k <= |s|
    requires StrengthsNonNegative(s)
    ensures TotalStrength(s[..k]) <= TotalStrength(s)
    ensures 0.0 <= TotalStrength(s[..k])
  {
    if k == 0 {
      NonNegativeTotal(s);
    } else {
      assert s[..k][1..] == s[1..][..k - 1];
      PrefixTotal(s[1..], k - 1);
    }
  }

  lemma {:induction false} NonNegativeTotal(s: seq<Sample>)
    requires StrengthsNonNegative(s)
    ensures 0.0 <= TotalStrength(s)
  {
    if s != [] {
      NonNegativeTotal(s[1..]);
    }
  }

  /** With strengths in [0, 4], the total is at most 4 per sample. */
  lemma {:induction false} BoundedTotal(s: seq<Sample>)
    requires StrengthsBounded(s)
    ensures 0.0 <= TotalStrength(s) <= MAX_STRENGTH * |s| as real
  {
    if s != [] {
      BoundedTotal(s[1..]);
    }
  }

  /**
   * Outside the hero the head strength is zero, so an even-frame update is
   * pure decay: the new total is 0.92 times the old total of slots 0..n-2,
   * and never more than the old total.
   */
  lemma AdvanceWithoutHeadDecays(trail: seq<Sample>, head: Sample)
    requires 0 < |trail|
    requires head.strength == 0.0
    requires StrengthsNonNegative(trail)
    ensures TotalStrength(Advance(trail, head)) == DECAY_RATE * TotalStrength(trail[..|trail| - 1])
    ensures TotalStrength(Advance(trail, head)) <= TotalStrength(trail)
  {
    var rest := trail[..|trail| - 1];
    assert Advance(trail, head)[1..] == FadeAll(rest);
    FadeAllTotal(rest);
    PrefixTotal(trail, |trail| - 1);
  }
}
