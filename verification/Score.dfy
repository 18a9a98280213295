/** The daily score: half of it from steps (out of 12,000), half from
    calories (out of 400), each part capped at its target, scaled to 100 and
    rounded to two decimals. Arithmetic is on exact reals. */
module Scoring {

  const STEP_GOAL: int := 12000
  const CALORIE_GOAL: int := 400

  function Min(x: real, y: real): (m: real)
    ensures m <= x && m <= y && (m == x || m == y)
  {
    if x <= y then x else y
  }

  /** Python's round(y) on an exact value: to the nearest integer, ties to the even one. */
  function RoundHalfEven(y: real): (n: int)
    ensures y - 0.5 <= n as real <= y + 0.5
    ensures y - y.Floor as real == 0.5 ==> n % 2 == 0
  {
    var f := y.Floor;
    var frac := y - f as real;
    if frac < 0.5 then f
    else if frac > 0.5 then f + 1
    else if f % 2 == 0 then f
    else f + 1
  }

  /** Rounding to two decimals, as round(x, 2): the result is a whole number
      of hundredths within half a hundredth of x. */
  function Round2(x: real): (r: real)
    ensures x - 0.005 <= r <= x + 0.005
    ensures (r * 100.0).Floor as real == r * 100.0
  {
    RoundHalfEven(x * 100.0) as real / 100.0
  }

  /** min(steps / 12000, 1) */
  function StepRatio(steps: int): real {
    Min(steps as real / STEP_GOAL as real, 1.0)
  }

  /** min(calories / 400, 1) */
  function CalorieRatio(calories: int): real {
    Min(calories as real / CALORIE_GOAL as real, 1.0)
  }

  /** The score before rounding: the two ratios weighted 50/50, scaled to 100. */
  function RawScore(steps: int, calories: int): real {
    (StepRatio(steps) * 0.5 + CalorieRatio(calories) * 0.5) * 100.0
  }

  /** calculate_score(steps, calories). Defined for every input; the bounds
      hold whenever neither input is negative. */
  function Score(steps: int, calories: int): (r: real)
    ensures steps >= 0 && calories >= 0 ==> 0.0 <= r <= 100.0
  {
    var raw := RawScore(steps, calories);
    assert steps >= 0 && calories >= 0 ==> 0.0 <= Round2(raw) <= 100.0 by {
      if steps >= 0 && calories >= 0 {
        RawScoreBounds(steps, calories);
        Round2Bounds(raw);
      }
    }
    Round2(raw)
  }

  lemma RoundHalfEvenMonotone(x: real, y: real)
    requires x <= y
    ensures RoundHalfEven(x) <= RoundHalfEven(y)
  {
    var fx, fy := x.Floor, y.Floor;
    if fx < fy {
      assert RoundHalfEven(x) <= fx + 1 <= fy <= RoundHalfEven(y);
    } else {
      assert fx == fy;
    }
  }

  lemma RoundHalfEvenOfInt(n: int)
    ensures RoundHalfEven(n as real) == n
  {
    assert (n as real).Floor == n;
  }

  lemma Round2Monotone(x: real, y: real)
    requires x <= y
    ensures Round2(x) <= Round2(y)
  {
    RoundHalfEvenMonotone(x * 100.0, y * 100.0);
  }

  lemma Round2Bounds(x: real)
    requires 0.0 <= x <= 100.0
    ensures 0.0 <= Round2(x) <= 100.0
  {
    RoundHalfEvenMonotone(0.0, x * 100.0);
    RoundHalfEvenMonotone(x * 100.0, 10000.0);
    RoundHalfEvenOfInt(0);
    RoundHalfEvenOfInt(10000);
  }

  lemma RawScoreBounds(steps: int, calories: int)
    requires steps >= 0 && calories >= 0
    ensures 0.0 <= RawScore(steps, calories) <= 100.0
  {
  }

  /** No steps and no calories score 0. */
  lemma ScoreOfNothing()
    ensures Score(0, 0) == 0.0
  {
    assert RawScore(0, 0) == 0.0;
    RoundHalfEvenOfInt(0);
  }

  /** Meeting both goals scores exactly 100, and going beyond them earns nothing more. */
  lemma ScoreAtGoals(steps: int, calories: int)
    requires steps >= STEP_GOAL && calories >= CALORIE_GOAL
    ensures Score(steps, calories) == 100.0
  {
    assert StepRatio(steps) == 1.0;
    assert CalorieRatio(calories) == 1.0;
    assert RawScore(steps, calories) == 100.0;
    RoundHalfEvenOfInt(10000);
  }

  /** Half of each goal scores 50. */
  lemma ScoreAtHalfGoals()
    ensures Score(6000, 200) == 50.0
  {
    assert StepRatio(6000) == 0.5;
    assert CalorieRatio(200) == 0.5;
    assert RawScore(6000, 200) == 50.0;
    RoundHalfEvenOfInt(5000);
  }

  /** More steps never lower the score. */
  lemma ScoreMonotoneInSteps(s1: int, s2: int, calories: int)
    requires s1 <= s2
    ensures Score(s1, calories) <= Score(s2, calories)
  {
    assert StepRatio(s1) <= StepRatio(s2);
    Round2Monotone(RawScore(s1, calories), RawScore(s2, calories));
  }

  /** More calories never lower the score. */
  lemma ScoreMonotoneInCalories(steps: int, c1: int, c2: int)
    requires c1 <= c2
    ensures Score(steps, c1) <= Score(steps, c2)
  {
    assert CalorieRatio(c1) <= CalorieRatio(c2);
    Round2Monotone(RawScore(steps, c1), RawScore(steps, c2));
  }
}
