/**
 * ios/.../Services/SpacedRepetitionService.swift: `calculateNextReview`,
 * the SM-2 variant that branches on the prior repetition count, truncates
 * with `Int(Double)` and updates the ease on every review.
 */
module IosSpacedRepetition {
  import opened Sm2
  import CardReview

  /** `calculateNextReview(currentEaseFactor:currentInterval:currentRepetitions:quality:)`. */
  function CalculateNextReview(ease: real, interval: int, repetitions: int, quality: int): (r: ReviewState)
    ensures quality < 3 ==> r.repetitions == 0 && r.interval == 1
    ensures quality >= 3 ==> r.repetitions == repetitions + 1
    ensures quality >= 3 && repetitions == 0 ==> r.interval == 1
    ensures quality >= 3 && repetitions == 1 ==> r.interval == 6
    ensures quality >= 3 && repetitions != 0 && repetitions != 1 ==>
      r.interval == Truncate(interval as real * ease)
    ensures r.ease == UpdatedEase(ease, quality)
  {
    var newInterval :=
      if quality >= 3 then
        (if repetitions == 0 then 1
         else if repetitions == 1 then 6
         else Truncate(interval as real * ease))
      else 1;
    var newRepetitions := if quality >= 3 then repetitions + 1 else 0;
    ReviewState(ClampEase(ease + EaseDelta(quality)), newInterval, newRepetitions)
  }

  /**
   * Against `reviewCard` on the same prior state: the same ease and count, and
   * an interval no larger and at most one day shorter when the product is non-negative.
   */
  lemma TruncatedAgainstRounded(ease: real, interval: int, repetitions: int, quality: int)
    requires interval as real * ease >= 0.0
    ensures var t := CalculateNextReview(ease, interval, repetitions, quality);
      var m := CardReview.NextState(quality, ReviewState(ease, interval, repetitions));
      t.ease == m.ease && t.repetitions == m.repetitions
      && t.interval <= m.interval <= t.interval + 1
  {
    TruncateBelowRound(interval as real * ease);
  }

  /** A third or later success never gives a shorter interval than the previous one. */
  lemma {:induction false} LaterSuccessNeverShrinks(ease: real, interval: int, repetitions: int, quality: int)
    requires quality >= 3 && repetitions != 0 && repetitions != 1
    requires ease >= MinEase && interval >= 0
    ensures CalculateNextReview(ease, interval, repetitions, quality).interval >= interval
  {
    var x := interval as real * ease;
    assert x >= interval as real * 1.0 by {
      assert interval as real * (ease - 1.0) >= 0.0;
    }
    assert Truncate(x) as real > x - 1.0;
  }

  /** Quality 0 lowers the ease by 0.8 before the clamp: 2.5 becomes 1.7, 1.5 is held at 1.3. */
  lemma QualityZero()
    ensures CalculateNextReview(2.5, 10, 4, 0) == ReviewState(1.7, 1, 0)
    ensures CalculateNextReview(1.5, 10, 4, 0) == ReviewState(1.3, 1, 0)
  {
  }

  /** The interval never goes negative from a non-negative interval and an ease at the floor or above. */
  lemma IntervalNonNegative(ease: real, interval: int, repetitions: int, quality: int)
    requires ease >= MinEase && interval >= 0
    ensures CalculateNextReview(ease, interval, repetitions, quality).interval >= 0
  {
    assert interval as real * ease >= 0.0;
  }
}
