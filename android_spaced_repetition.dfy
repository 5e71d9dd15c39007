/**
 * android/.../services/SpacedRepetitionService.kt: `calculateNextReview`,
 * written with a `when` on the prior repetition count and `Double.toInt()`.
 */
module AndroidSpacedRepetition {
  import opened Sm2
  import IosSpacedRepetition

  /** `data class ReviewResult(easeFactor, interval, repetitions)`. */
  datatype ReviewResult = ReviewResult(easeFactor: real, interval: int, repetitions: int)

  /** `calculateNextReview(currentEaseFactor, currentInterval, currentRepetitions, quality)`. */
  function CalculateNextReview(ease: real, interval: int, repetitions: int, quality: int): (r: ReviewResult)
    ensures quality < 3 ==> r.repetitions == 0 && r.interval == 1
    ensures quality >= 3 ==> r.repetitions == repetitions + 1
    ensures r.easeFactor >= MinEase
    ensures ease + EaseDelta(quality) >= MinEase ==> r.easeFactor == ease + EaseDelta(quality)
  {
    var newInterval :=
      if quality >= 3 then
        match repetitions
        case 0 => 1
        case 1 => 6
        case _ => Truncate(interval as real * ease)
      else 1;
    var newRepetitions := if quality >= 3 then repetitions + 1 else 0;
    var e := ease + EaseDelta(quality);
    ReviewResult(if e < 1.3 then 1.3 else e, newInterval, newRepetitions)
  }

  /** The Kotlin and the Swift ports agree on every input. */
  lemma SameAsSwift(ease: real, interval: int, repetitions: int, quality: int)
    ensures var k := CalculateNextReview(ease, interval, repetitions, quality);
      var s := IosSpacedRepetition.CalculateNextReview(ease, interval, repetitions, quality);
      k.easeFactor == s.ease && k.interval == s.interval && k.repetitions == s.repetitions
  {
  }

  /** A non-negative interval with an ease at the floor or above stays non-negative. */
  lemma IntervalNonNegative(ease: real, interval: int, repetitions: int, quality: int)
    requires ease >= MinEase && interval >= 0
    ensures CalculateNextReview(ease, interval, repetitions, quality).interval >= 0
  {
    SameAsSwift(ease, interval, repetitions, quality);
    IosSpacedRepetition.IntervalNonNegative(ease, interval, repetitions, quality);
  }
}
