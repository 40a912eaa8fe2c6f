/** The card update rule of the review deck (src/features/srs/SRSDeckAdapter.tsx):
    a reduced SM-2 that moves ease factor, repetition count, interval and due day. */
module SrsCard {
  import opened Numbers

  /** A calendar day as a day number. The source keeps `YYYY-MM-DD` strings,
      which compare with `<=` in the same order as these numbers, and adds
      days with `Date`, which is `+` here. */
  type Day = int

  /** Scheduling state of one word. */
  datatype CardState = CardState(ef: real, reps: int, interval: int, due: Day)

  /** The review grades: 0 Again, 3 Hard, 4 Good, 5 Easy. */
  type Quality = q: int | q == 0 || q == 3 || q == 4 || q == 5 witness 0

  /** `addDays(iso, days)`. */
  function AddDays(d: Day, days: int): Day { d + days }

  /** The state a word gets when it is first seeded: due today. */
  function Fresh(today: Day): CardState
  {
    CardState(2.5, 0, 0, today)
  }

  /** `rateSM2` of a card graded `quality` on day `today`. The interval
      grows with the ease factor the card had BEFORE this rating; the new
      ease is computed afterwards, with Again counted as quality 2. */
  function RateSM2(card: CardState, quality: Quality, today: Day): (r: CardState)
    ensures r.ef >= 1.3
    ensures r.due == AddDays(today, r.interval)
  {
    var reps := card.reps;
    var interval :=
      if quality < 3 then 1
      else if reps == 0 then 1
      else if reps == 1 then 6
      else Round(card.interval as real * card.ef);
    var reps' := if quality < 3 then 0 else reps + 1;
    var q: int := if quality == 0 then 2 else quality;
    var ef := card.ef + (0.1 - (5 - q) as real * (0.08 + (5 - q) as real * 0.02));
    var ef' := if ef < 1.3 then 1.3 else ef;
    CardState(ef', reps', interval, AddDays(today, interval))
  }

  /** How each grade moves the ease factor before the 1.3 floor: Easy +0.1,
      Good unchanged, Hard -0.14, Again -0.32. */
  function EaseStep(quality: Quality): real
  {
    match quality
    case 5 => 0.1
    case 4 => 0.0
    case 3 => -0.14
    case 0 => -0.32
  }

  /** Repetitions and interval: Again resets to 0 repetitions and a one-day
      interval; a passing grade gives 1 day after 0 repetitions, 6 days after
      one, and otherwise the old interval times the OLD ease, rounded; it
      then counts one more repetition. */
  lemma IntervalRule(card: CardState, quality: Quality, today: Day)
    ensures var r := RateSM2(card, quality, today);
      && (quality == 0 ==> r.reps == 0 && r.interval == 1)
      && (quality != 0 ==> r.reps == card.reps + 1)
      && (quality != 0 && card.reps == 0 ==> r.interval == 1)
      && (quality != 0 && card.reps == 1 ==> r.interval == 6)
      && (quality != 0 && card.reps != 0 && card.reps != 1 ==>
            r.interval == Round(card.interval as real * card.ef))
  {
  }

  /** The ease update in closed form: the old ease plus the grade's step,
      floored at 1.3. */
  lemma EaseRule(card: CardState, quality: Quality, today: Day)
    ensures RateSM2(card, quality, today).ef == MaxReal(1.3, card.ef + EaseStep(quality))
  {
  }

  /** States that ratings starting from a seeded card can produce. */
  ghost predicate Reachable(c: CardState)
  {
    && c.ef >= 1.3
    && c.reps >= 0
    && c.interval >= 0
    && (c.reps == 0 ==> c.interval <= 1)
    && (c.reps == 1 ==> c.interval == 1)
    && (c.reps >= 2 ==> c.interval >= 6)
  }

  lemma FreshReachable(today: Day)
    ensures Reachable(Fresh(today))
  {
  }

  /** Rating keeps a card reachable, schedules it at least one day ahead, and
      a pass after two or more repetitions grows the interval by at least two
      days. */
  lemma RatePreservesReachable(card: CardState, quality: Quality, today: Day)
    requires Reachable(card)
    ensures Reachable(RateSM2(card, quality, today))
    ensures RateSM2(card, quality, today).interval >= 1
    ensures RateSM2(card, quality, today).due > today
    ensures quality != 0 && card.reps >= 2 ==>
              RateSM2(card, quality, today).interval >= card.interval + 2
  {
    if quality != 0 && card.reps >= 2 {
      assert card.interval as real * card.ef >= card.interval as real * 1.3 by {
        MulMonotone(card.interval as real, 1.3, card.ef);
      }
      var x := card.interval as real * card.ef;
      assert x >= card.interval as real + 1.8;
      assert Round(x) as real > card.interval as real + 1.3;
    }
  }

  lemma MulMonotone(a: real, b: real, c: real)
    requires a >= 0.0 && b <= c
    ensures a * b <= a * c
  {
  }

  /** A sequence of reviews, each a grade and the day it was given. */
  function RateAll(card: CardState, reviews: seq<(Quality, Day)>): CardState
    decreases |reviews|
  {
    if reviews == [] then card
    else RateAll(RateSM2(card, reviews[0].0, reviews[0].1), reviews[1..])
  }

  /** The ease factor never drops below 1.3, whatever grades follow. */
  lemma {:induction false} EaseFloorKept(card: CardState, reviews: seq<(Quality, Day)>)
    requires card.ef >= 1.3 || reviews != []
    ensures RateAll(card, reviews).ef >= 1.3
    decreases |reviews|
  {
    if reviews != [] {
      EaseFloorKept(RateSM2(card, reviews[0].0, reviews[0].1), reviews[1..]);
    }
  }

  /** Any review history from a seeded card stays reachable. */
  lemma {:induction false} RateAllReachable(card: CardState, reviews: seq<(Quality, Day)>)
    requires Reachable(card)
    ensures Reachable(RateAll(card, reviews))
    decreases |reviews|
  {
    if reviews != [] {
      RatePreservesReachable(card, reviews[0].0, reviews[0].1);
      RateAllReachable(RateSM2(card, reviews[0].0, reviews[0].1), reviews[1..]);
    }
  }

  /** Three Good ratings of a freshly seeded card on the days it falls due:
      intervals 1, 6 and round(6 * 2.5) = 15, since Good leaves the ease at 2.5. */
  lemma ThreeGoods(t: Day)
    ensures RateSM2(Fresh(t), 4, t) == CardState(2.5, 1, 1, t + 1)
    ensures RateSM2(CardState(2.5, 1, 1, t + 1), 4, t + 1) == CardState(2.5, 2, 6, t + 7)
    ensures RateSM2(CardState(2.5, 2, 6, t + 7), 4, t + 7) == CardState(2.5, 3, 15, t + 22)
  {
    assert Round(6.0 * 2.5) == 15;
  }

  /** Again at the floor keeps the ease at exactly 1.3. */
  lemma AgainAtFloor(card: CardState, today: Day)
    requires card.ef == 1.3
    ensures RateSM2(card, 0, today).ef == 1.3
  {
  }
}
