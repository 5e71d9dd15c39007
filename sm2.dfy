/**
 * The arithmetic shared by the four SM-2 schedulers: the review state, the
 * ease update of SuperMemo-2, and the two ways the ports turn the product
 * interval * ease back into whole days. Ease factors are modelled as exact
 * reals, not as IEEE doubles.
 */
module Sm2 {

  /** The persisted scheduling record of one card: ease_factor, interval (days), repetitions. */
  datatype ReviewState = ReviewState(ease: real, interval: int, repetitions: int)

  /** The hard floor of the ease factor. */
  const MinEase: real := 1.3

  /** The ease change for a quality rating: 0.1 - (5 - q) * (0.08 + (5 - q) * 0.02). */
  function EaseDelta(quality: int): (d: real)
    ensures quality == 5 ==> d == 0.1
    ensures quality == 4 ==> d == 0.0
    ensures quality == 3 ==> d == -0.14
    ensures quality == 0 ==> d == -0.8
    ensures quality < 3 ==> d < 0.0
  {
    var k := (5 - quality) as real;
    assert quality < 3 ==> k >= 3.0;
    assert quality < 3 ==> k * (0.08 + k * 0.02) >= 3.0 * (0.08 + 3.0 * 0.02) by {
      if quality < 3 {
        assert k * 0.02 >= 3.0 * 0.02;
        assert k * (0.08 + k * 0.02) >= k * (0.08 + 3.0 * 0.02);
      }
    }
    0.1 - k * (0.08 + k * 0.02)
  }

  /** `Math.round(x)`: the nearest integer, halves rounded up. */
  function JsRound(x: real): (r: int)
    ensures x - 0.5 < r as real <= x + 0.5
  {
    (x + 0.5).Floor
  }

  /** Swift `Int(Double)` and Kotlin `Double.toInt()`: truncation toward zero. */
  function Truncate(x: real): (r: int)
    ensures x >= 0.0 ==> 0 <= r && r as real <= x < r as real + 1.0
    ensures x < 0.0 ==> r <= 0 && r as real - 1.0 < x <= r as real
  {
    if x >= 0.0 then x.Floor else -((-x).Floor)
  }

  /** For a non-negative product, truncating gives at most the rounded value and at least one less. */
  lemma TruncateBelowRound(x: real)
    requires x >= 0.0
    ensures Truncate(x) <= JsRound(x) <= Truncate(x) + 1
  {
  }

  /** `Math.max(1.3, e)` and `if e < 1.3 { e = 1.3 }` alike. */
  function ClampEase(e: real): (r: real)
    ensures r >= MinEase
    ensures r == e || r == MinEase
    ensures e >= MinEase ==> r == e
  {
    if e < MinEase then MinEase else e
  }

  /** The SM-2 ease update followed by the clamp. */
  function UpdatedEase(ease: real, quality: int): (r: real)
    ensures r >= MinEase
    ensures ease + EaseDelta(quality) >= MinEase ==> r == ease + EaseDelta(quality)
    ensures ease + EaseDelta(quality) < MinEase ==> r == MinEase
  {
    ClampEase(ease + EaseDelta(quality))
  }
}
