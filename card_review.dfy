/**
 * backend/src/models/CardReview.js: the SM-2 arithmetic inside `reviewCard`
 * (branch on the PRIOR repetition count, `Math.round`, ease updated on every
 * review) and the selection and order of `getDueCards`. The SQL itself,
 * the clock and the upsert are not modelled; days are plain integers.
 */
module CardReview {
  import opened Common
  import opened Sm2
  import Scheduler

  /** The state assumed when the card has never been reviewed. */
  const DefaultState: ReviewState := ReviewState(2.5, 0, 0)

  /** The new (ease, interval, repetitions) computed by `reviewCard` from the prior state. */
  function NextState(quality: int, s: ReviewState): (r: ReviewState)
    ensures quality < 3 ==> r.repetitions == 0 && r.interval == 1
    ensures quality >= 3 ==> r.repetitions == s.repetitions + 1
    ensures quality >= 3 && s.repetitions == 0 ==> r.interval == 1
    ensures quality >= 3 && s.repetitions == 1 ==> r.interval == 6
    ensures quality >= 3 && s.repetitions != 0 && s.repetitions != 1 ==>
      r.interval == JsRound(s.interval as real * s.ease)
    ensures s.ease + EaseDelta(quality) >= MinEase ==> r.ease == s.ease + EaseDelta(quality)
    ensures s.ease + EaseDelta(quality) < MinEase ==> r.ease == MinEase
  {
    var interval :=
      if quality >= 3 then
        (if s.repetitions == 0 then 1
         else if s.repetitions == 1 then 6
         else JsRound(s.interval as real * s.ease))
      else 1;
    var repetitions := if quality >= 3 then s.repetitions + 1 else 0;
    ReviewState(UpdatedEase(s.ease, quality), interval, repetitions)
  }

  /** What `reviewCard` stores: the new state and the day of the next review. */
  datatype ReviewOutcome = ReviewOutcome(state: ReviewState, nextReviewDay: int)

  /** `reviewCard(cardId, userId, quality)`, with the stored review (if any) and today's day number passed in. */
  function ReviewCard(quality: int, review: Option<ReviewState>, today: int): (r: ReviewOutcome)
    ensures review.None? ==> r.state == NextState(quality, ReviewState(2.5, 0, 0))
    ensures review.Some? ==> r.state == NextState(quality, review.value)
    ensures r.nextReviewDay == today + r.state.interval
    ensures review.None? && quality >= 3 ==> r.state.interval == 1 && r.state.repetitions == 1
  {
    var state := NextState(quality, review.GetOr(DefaultState));
    ReviewOutcome(state, today + state.interval)
  }

  /** On a success the model's arithmetic and scheduler.js agree, although they branch on different counts. */
  lemma AgreesWithSchedulerOnSuccess(quality: int, s: ReviewState)
    requires quality >= 3
    ensures NextState(quality, s) == Scheduler.ScheduleReview(quality, s)
  {
  }

  /** On a lapse the model lowers an ease above the floor, where scheduler.js keeps it. */
  lemma LapseLowersEaseUnlikeScheduler(quality: int, s: ReviewState)
    requires quality < 3 && s.ease > MinEase
    ensures NextState(quality, s).ease < Scheduler.ScheduleReview(quality, s).ease == s.ease
    ensures NextState(quality, s).interval == Scheduler.ScheduleReview(quality, s).interval == 1
    ensures NextState(quality, s).repetitions == Scheduler.ScheduleReview(quality, s).repetitions == 0
  {
  }

  // ---------------------------------------------------------------- reviewCard as written

  /** A JavaScript number: a finite value or NaN (what arithmetic on `undefined` yields). */
  datatype JsNumber = Num(v: real) | NaN

  function Plus(a: JsNumber, b: real): JsNumber {
    if a.NaN? then NaN else Num(a.v + b)
  }

  function Times(a: int, b: JsNumber): JsNumber {
    if b.NaN? then NaN else Num(a as real * b.v)
  }

  /** `Math.round`, which maps NaN to NaN. */
  function Round(a: JsNumber): JsNumber {
    if a.NaN? then NaN else Num(JsRound(a.v) as real)
  }

  /** `a < b`, false whenever `a` is NaN. */
  predicate Less(a: JsNumber, b: real) {
    a.Num? && a.v < b
  }

  /**
   * A stored `card_reviews` row as `SELECT *` returns it: the ease is in the
   * column `ease_factor`, next to `interval` and `repetitions`.
   */
  datatype ReviewRow = ReviewRow(ease_factor: real, interval: int, repetitions: int)

  /** What `reviewCard` computes (ease, interval, repetitions) as a JavaScript triple. */
  datatype JsReview = JsReview(easeFactor: JsNumber, interval: JsNumber, repetitions: int)

  /**
   * `reviewCard` as written: `let { easeFactor, interval, repetitions } = review || {...}`
   * reads a property `easeFactor` that a stored row does not have, so the ease
   * is `undefined` and every later use of it is NaN.
   */
  function ReviewCardAsWritten(quality: int, review: Option<ReviewRow>): (r: JsReview)
    ensures review.Some? ==> r.easeFactor == NaN
    ensures review.Some? && quality >= 3 && review.value.repetitions !in {0, 1} ==> r.interval == NaN
    ensures review.None? ==> r.easeFactor == Num(NextState(quality, DefaultState).ease)
  {
    var easeFactor: JsNumber := if review.None? then Num(2.5) else NaN;
    var interval := if review.None? then 0 else review.value.interval;
    var repetitions := if review.None? then 0 else review.value.repetitions;
    var newInterval :=
      if quality >= 3 then
        (if repetitions == 0 then Num(1.0)
         else if repetitions == 1 then Num(6.0)
         else Round(Times(interval, easeFactor)))
      else Num(1.0);
    var newRepetitions := if quality >= 3 then repetitions + 1 else 0;
    var e := Plus(easeFactor, EaseDelta(quality));
    JsReview(if Less(e, 1.3) then Num(1.3) else e, newInterval, newRepetitions)
  }

  /** The stored row as the review state the corrected `ReviewCard` starts from. */
  function RowState(row: ReviewRow): (s: ReviewState)
    ensures s.ease == row.ease_factor && s.interval == row.interval && s.repetitions == row.repetitions
  {
    ReviewState(row.ease_factor, row.interval, row.repetitions)
  }

  /**
   * The third review of a card: prior ease 2.6, interval 6, two repetitions.
   * As written the ease and the interval are NaN; read from `ease_factor`
   * the interval is round(6 * 2.6) = 16 days and the ease 2.7.
   */
  lemma AsWrittenLosesStoredEase()
    ensures ReviewCardAsWritten(5, Some(ReviewRow(2.6, 6, 2))) == JsReview(NaN, NaN, 3)
    ensures ReviewCard(5, Some(RowState(ReviewRow(2.6, 6, 2))), 0).state == ReviewState(2.7, 16, 3)
  {
    assert JsRound(6.0 * 2.6) == 16;
  }

  /** Without a stored review the as-written code and the corrected one agree. */
  lemma AsWrittenAgreesWithoutReview(quality: int, today: int)
    ensures var w := ReviewCardAsWritten(quality, None);
      var c := ReviewCard(quality, None, today).state;
      w.easeFactor == Num(c.ease) && w.interval == Num(c.interval as real) && w.repetitions == c.repetitions
  {
  }

  // ---------------------------------------------------------------- getDueCards

  /**
   * One row of `cards LEFT JOIN card_reviews` for the user: the card and its
   * deck, and the review's next_review_date (None when the card was never reviewed).
   */
  datatype DueRow = DueRow(cardId: int, deckId: int, nextReview: Option<int>)

  /** `if (deckId)`: a deck filter applies only for a present, non-zero id. */
  predicate FiltersDeck(deckId: Option<int>) {
    deckId.Some? && deckId.value != 0
  }

  /** The WHERE clause: never reviewed or due by `now`, and in the deck when one is given. */
  predicate IsDue(row: DueRow, now: int, deckId: Option<int>) {
    (row.nextReview.None? || row.nextReview.value <= now)
    && (FiltersDeck(deckId) ==> row.deckId == deckId.value)
  }

  /** `ORDER BY next_review_date ASC NULLS FIRST`: may `a` come before `b`? */
  predicate DueNoLater(a: DueRow, b: DueRow) {
    a.nextReview.None? || (b.nextReview.Some? && a.nextReview.value <= b.nextReview.value)
  }

  predicate SortedByDue(rows: seq<DueRow>) {
    forall i, j :: 0 <= i < j < |rows| ==> DueNoLater(rows[i], rows[j])
  }

  function FilterDue(rows: seq<DueRow>, now: int, deckId: Option<int>): (r: seq<DueRow>)
    ensures forall x :: x in r <==> x in rows && IsDue(x, now, deckId)
    ensures multiset(r) <= multiset(rows)
  {
    var due := (row: DueRow) => IsDue(row, now, deckId);
    FilterCounts(rows, due);
    Filter(rows, due)
  }

  function InsertByDue(x: DueRow, rows: seq<DueRow>): (r: seq<DueRow>)
    requires SortedByDue(rows)
    ensures SortedByDue(r)
    ensures forall y :: y in r <==> y == x || y in rows
    ensures multiset(r) == multiset(rows) + multiset{x}
  {
    if rows == [] || DueNoLater(x, rows[0]) then
      [x] + rows
    else
      var rest := InsertByDue(x, rows[1..]);
      assert rows == [rows[0]] + rows[1..];
      assert forall k :: 0 <= k < |rest| ==> DueNoLater(rows[0], rest[k]) by {
        forall k | 0 <= k < |rest| ensures DueNoLater(rows[0], rest[k]) {
          assert rest[k] in rest;
          if rest[k] != x {
            var m :| 0 <= m < |rows[1..]| && rows[1..][m] == rest[k];
            assert rows[m + 1] == rest[k];
          }
        }
      }
      [rows[0]] + rest
  }

  function SortByDue(rows: seq<DueRow>): (r: seq<DueRow>)
    ensures SortedByDue(r)
    ensures multiset(r) == multiset(rows)
  {
    if rows == [] then []
    else
      assert rows == [rows[0]] + rows[1..];
      InsertByDue(rows[0], SortByDue(rows[1..]))
  }

  /**
   * `getDueCards(userId, deckId)`: exactly the due rows, each as often as the
   * join yields it, never-reviewed cards first and then by ascending due date.
   */
  function GetDueCards(rows: seq<DueRow>, now: int, deckId: Option<int>): (r: seq<DueRow>)
    ensures forall x :: x in r <==> x in rows && IsDue(x, now, deckId)
    ensures multiset(r) == multiset(FilterDue(rows, now, deckId))
    ensures SortedByDue(r)
    ensures forall i, j :: 0 <= i < j < |r| && r[j].nextReview.None? ==> r[i].nextReview.None?
  {
    var r := SortByDue(FilterDue(rows, now, deckId));
    assert forall x :: x in r <==> x in multiset(r);
    r
  }
}
