/**
 * backend/src/scheduler.js: `scheduleReview`, the SM-2 variant that branches
 * on the NEW repetition count, rounds with `Math.round`, and leaves the ease
 * factor untouched when the score is below 3.
 */
module Scheduler {
  import opened Sm2

  /** `scheduleReview(score, { intervalDays, easeFactor, repetitions })`. */
  function ScheduleReview(score: int, s: ReviewState): (r: ReviewState)
    ensures score < 3 ==> r == ReviewState(s.ease, 1, 0)
    ensures score >= 3 ==> r.repetitions == s.repetitions + 1
    ensures score >= 3 && s.repetitions == 0 ==> r.interval == 1
    ensures score >= 3 && s.repetitions == 1 ==> r.interval == 6
    ensures score >= 3 && s.repetitions != 0 && s.repetitions != 1 ==>
      r.interval == JsRound(s.interval as real * s.ease)
    ensures score >= 3 && s.ease + EaseDelta(score) >= MinEase ==> r.ease == s.ease + EaseDelta(score)
    ensures score >= 3 && s.ease + EaseDelta(score) < MinEase ==> r.ease == MinEase
    ensures s.ease >= MinEase ==> r.ease >= MinEase
  {
    if score < 3 then
      ReviewState(s.ease, 1, 0)
    else
      var repetitions := s.repetitions + 1;
      var interval :=
        if repetitions == 1 then 1
        else if repetitions == 2 then 6
        else JsRound(s.interval as real * s.ease);
      ReviewState(UpdatedEase(s.ease, score), interval, repetitions)
  }

  /** The unit test in backend/src/tests.js, pinned, and the third review it does not run. */
  lemma TestsChain()
    ensures ScheduleReview(5, ReviewState(2.5, 0, 0)) == ReviewState(2.6, 1, 1)
    ensures ScheduleReview(5, ReviewState(2.6, 1, 1)) == ReviewState(2.7, 6, 2)
    ensures ScheduleReview(5, ReviewState(2.7, 6, 2)) == ReviewState(2.8, 16, 3)
    ensures ScheduleReview(1, ReviewState(2.5, 10, 4)) == ReviewState(2.5, 1, 0)
  {
    assert JsRound(6.0 * 2.7) == 16;
  }

  // ---------------------------------------------------------------- a history of reviews

  /** The state after scoring `scores` in order, starting from `s`. */
  function Replay(scores: seq<int>, s: ReviewState): ReviewState
    decreases |scores|
  {
    if scores == [] then s else Replay(scores[1..], ScheduleReview(scores[0], s))
  }

  predicate AllSucceed(scores: seq<int>) {
    forall i :: 0 <= i < |scores| ==> scores[i] >= 3
  }

  /** How many of the last scores, counted from the end, are successes. */
  function TrailingSuccesses(scores: seq<int>): nat
    decreases |scores|
  {
    if scores == [] then 0
    else if scores[|scores| - 1] >= 3 then TrailingSuccesses(scores[..|scores| - 1]) + 1
    else 0
  }

  lemma {:induction false} TrailingSuccessesCons(q: int, rest: seq<int>)
    ensures TrailingSuccesses([q] + rest) ==
      if AllSucceed(rest) then (if q >= 3 then |rest| + 1 else |rest|) else TrailingSuccesses(rest)
    decreases |rest|
  {
    var all := [q] + rest;
    if rest != [] {
      var init := rest[..|rest| - 1];
      assert all[..|all| - 1] == [q] + init;
      assert all[|all| - 1] == rest[|rest| - 1];
      TrailingSuccessesCons(q, init);
      assert AllSucceed(rest) <==> AllSucceed(init) && rest[|rest| - 1] >= 3 by {
        if AllSucceed(init) && rest[|rest| - 1] >= 3 {
          forall i | 0 <= i < |rest| ensures rest[i] >= 3 {
            if i < |rest| - 1 { assert rest[i] == init[i]; }
          }
        }
        if AllSucceed(rest) {
          forall i | 0 <= i < |init| ensures init[i] >= 3 {
            assert init[i] == rest[i];
          }
        }
      }
    } else {
      assert all[..|all| - 1] == [];
    }
  }

  /**
   * The repetition count is the number of consecutive successes since the last
   * lapse (or the starting count plus every review, if none lapsed).
   */
  lemma {:induction false} ReplayRepetitions(scores: seq<int>, s: ReviewState)
    ensures Replay(scores, s).repetitions ==
      if AllSucceed(scores) then s.repetitions + |scores| else TrailingSuccesses(scores)
    decreases |scores|
  {
    if scores != [] {
      var q, rest := scores[0], scores[1..];
      assert scores == [q] + rest;
      ReplayRepetitions(rest, ScheduleReview(q, s));
      TrailingSuccessesCons(q, rest);
      assert AllSucceed(scores) <==> q >= 3 && AllSucceed(rest) by {
        if q >= 3 && AllSucceed(rest) {
          forall i | 0 <= i < |scores| ensures scores[i] >= 3 {
            if i > 0 { assert scores[i] == rest[i - 1]; }
          }
        }
        if AllSucceed(scores) {
          forall i | 0 <= i < |rest| ensures rest[i] >= 3 {
            assert rest[i] == scores[i + 1];
          }
        }
      }
    }
  }

  /** Starting at or above the floor, no history of scores brings the ease below 1.3. */
  lemma {:induction false} ReplayKeepsEaseFloor(scores: seq<int>, s: ReviewState)
    requires s.ease >= MinEase
    ensures Replay(scores, s).ease >= MinEase
    decreases |scores|
  {
    if scores != [] {
      ReplayKeepsEaseFloor(scores[1..], ScheduleReview(scores[0], s));
    }
  }
}
