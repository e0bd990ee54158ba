/**
 * The duration-window policy of `adjust_video_duration` and
 * `extend_video_to_duration` (src/manim_generator/utils/video.py): which
 * bound applies, what extension aims for, and how many copies of a clip
 * looping needs. Durations are exact reals.
 */
module Window {
  import opened Wrappers

  /**
   * Python truthiness of an optional bound: the code tests `if min_duration`,
   * so a bound of `0.0` counts as absent exactly like `None`.
   */
  predicate IsSet(bound: Option<real>) {
    bound.Some? && bound.value != 0.0
  }

  function Min(a: real, b: real): (m: real)
    ensures m <= a && m <= b && (m == a || m == b)
  {
    if a <= b then a else b
  }

  /** `min_duration and current < min_duration` */
  predicate TooShort(minD: Option<real>, current: real) {
    IsSet(minD) && current < minD.value
  }

  /** `max_duration and current > max_duration` */
  predicate TooLong(maxD: Option<real>, current: real) {
    IsSet(maxD) && current > maxD.value
  }

  /** `needs_adjustment` */
  predicate NeedsAdjustment(minD: Option<real>, maxD: Option<real>, current: real) {
    TooShort(minD, current) || TooLong(maxD, current)
  }

  /** The early return for "only a maximum, and the video is within it". */
  predicate OnlyMaxAndWithin(minD: Option<real>, maxD: Option<real>, current: real) {
    IsSet(maxD) && !IsSet(minD) && current <= maxD.value
  }

  /** The early return is a special case of "no adjustment needed": it never changes the outcome. */
  lemma OnlyMaxAndWithinNeedsNothing(minD: Option<real>, maxD: Option<real>, current: real)
    requires OnlyMaxAndWithin(minD, maxD, current)
    ensures !NeedsAdjustment(minD, maxD, current)
  {
  }

  /**
   * What extension aims for: the minimum, but never more than a set maximum.
   */
  function ExtendTarget(minD: Option<real>, maxD: Option<real>): (t: real)
    requires IsSet(minD)
    ensures t <= minD.value
    ensures IsSet(maxD) ==> t <= maxD.value && (t == minD.value || t == maxD.value)
    ensures !IsSet(maxD) ==> t == minD.value
  {
    if IsSet(maxD) then Min(minD.value, maxD.value) else minD.value
  }

  /** The trim test after extension: `max_duration and current_duration and current_duration > max_duration`. */
  predicate TrimDue(maxD: Option<real>, current: real) {
    IsSet(maxD) && current != 0.0 && current > maxD.value
  }

  /**
   * `int(target / current) + 1`: the number of copies of a `current`-second
   * clip that first exceeds `target` seconds.
   */
  function LoopsNeeded(target: real, current: real): (k: nat)
    requires 0.0 < current < target
    ensures k >= 2
    ensures (k - 1) as real * current <= target < k as real * current
  {
    var q := target / current;
    assert q > 1.0;
    var f := q.Floor;
    assert q * current == target;
    assert f as real * current <= q * current by {
      assert f as real <= q;
    }
    var k: nat := f + 1;
    assert k as real == f as real + 1.0;
    assert target < k as real * current by {
      assert q < k as real;
      assert q * current < k as real * current;
    }
    k
  }

  /** No smaller number of copies reaches beyond the target: the loop count is the least that overshoots. */
  lemma LoopsNeededIsLeast(target: real, current: real, k: nat)
    requires 0.0 < current < target
    requires k as real * current > target
    ensures k >= LoopsNeeded(target, current)
  {
    var n := LoopsNeeded(target, current);
    CancelFactor(k as real, (n - 1) as real, current);
  }

  lemma CancelFactor(a: real, b: real, c: real)
    requires c > 0.0 && a * c > b * c
    ensures a > b
  {
  }

  /** `n` copies of `x`. */
  function Repeat<T>(x: T, n: nat): (r: seq<T>)
    ensures |r| == n
    ensures forall i | 0 <= i < n :: r[i] == x
  {
    seq(n, _ => x)
  }

  /** A 10-second clip stretched to one minute is looped seven times (70 seconds). */
  lemma SevenLoopsForTenSecondsToAMinute()
    ensures LoopsNeeded(60.0, 10.0) == 7
  {
    assert (60.0 / 10.0) == 6.0;
  }
}
