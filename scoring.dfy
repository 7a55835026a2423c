/**
 * Scoring of a submitted quiz attempt (the "Results Calculation" part of
 * `TakenQuizCreateView.post` in quizzes/views.py): counting the submitted
 * choice ids that are correct, and turning the count into a percentage
 * rounded to two decimals.
 *
 * Scores are exact reals here; the source computes them in floating point.
 */
module Scoring {

  type ChoiceId = int

  /** The number of positions of `answers` whose id is a correct choice.
      Duplicated ids are counted once per occurrence. */
  function CorrectCount(answers: seq<ChoiceId>, correct: set<ChoiceId>): (n: nat)
    ensures n <= |answers|
    ensures n == |answers| <==> forall i :: 0 <= i < |answers| ==> answers[i] in correct
    ensures n == 0 <==> forall i :: 0 <= i < |answers| ==> answers[i] !in correct
  {
    if answers == [] then 0
    else
      var last := |answers| - 1;
      CorrectCount(answers[..last], correct) + (if answers[last] in correct then 1 else 0)
  }

  /** The positions of `answers` that hold a correct id. */
  function CorrectPositions(answers: seq<ChoiceId>, correct: set<ChoiceId>): set<nat>
  {
    set i: nat | i < |answers| && answers[i] in correct
  }

  /** CorrectCount agrees with counting the positions directly. */
  lemma {:induction false} CorrectCountIsPositions(answers: seq<ChoiceId>, correct: set<ChoiceId>)
    ensures CorrectCount(answers, correct) == |CorrectPositions(answers, correct)|
  {
    if answers != [] {
      var last := |answers| - 1;
      var prefix := answers[..last];
      CorrectCountIsPositions(prefix, correct);
      var before := CorrectPositions(prefix, correct);
      var now := CorrectPositions(answers, correct);
      var added: set<nat> := if answers[last] in correct then {last} else {};
      forall i: nat
        ensures i in now <==> i in before + added
      {
        if i < last {
          assert prefix[i] == answers[i];
        }
      }
      assert now == before + added;
      assert last !in before;
      assert |now| == |before| + |added|;
    }
  }

  /** The counting loop of the submit handler: one pass over the submitted
      ids, bumping the counter for every id in the correct-choice set. */
  method CountCorrect(answers: seq<ChoiceId>, correct: set<ChoiceId>) returns (count: nat)
    ensures count == CorrectCount(answers, correct)
  {
    count := 0;
    var i := 0;
    while i < |answers|
      invariant 0 <= i <= |answers|
      invariant count == CorrectCount(answers[..i], correct)
    {
      assert answers[..i + 1][..i] == answers[..i];
      if answers[i] in correct {
        count := count + 1;
      }
      i := i + 1;
    }
    assert answers[..i] == answers;
  }

  /** The integer nearest to `y`, ties going to the even neighbour. */
  function NearestEven(y: real): (n: int)
    ensures -0.5 <= n as real - y <= 0.5
  {
    var k := y.Floor;
    var f := y - k as real;
    if f > 0.5 then k + 1 else if f < 0.5 then k else if k % 2 == 0 then k else k + 1
  }

  /** `round(x, 2)`: the nearest multiple of 0.01, ties to the even
      hundredth, taken of the exact value `x`. */
  function Round2(x: real): (r: real)
    ensures (r * 100.0).Floor as real == r * 100.0
    ensures -0.005 <= r - x <= 0.005
  {
    var n := NearestEven(x * 100.0);
    assert n as real / 100.0 * 100.0 == n as real;
    n as real / 100.0
  }

  /** A value that already has at most two decimals is left as it is. */
  lemma Round2Exact(x: real, m: int)
    requires x * 100.0 == m as real
    ensures Round2(x) == x
  {
    assert NearestEven(x * 100.0) == m;
  }

  /** Rounding never crosses a hundredth: at or below m/100 stays at or below it. */
  lemma Round2AtMost(x: real, m: int)
    requires x * 100.0 <= m as real
    ensures Round2(x) * 100.0 <= m as real
  {
    var y := x * 100.0;
    var k := y.Floor;
    assert k <= m;
    if k == m {
      assert y == m as real;
    }
    assert NearestEven(y) <= m;
  }

  /** Rounding keeps a non-negative value non-negative. */
  lemma Round2NonNegative(x: real)
    requires x >= 0.0
    ensures Round2(x) >= 0.0
  {
    assert (x * 100.0).Floor >= 0;
    assert NearestEven(x * 100.0) >= 0;
  }

  /** The exact percentage `correct / total * 100`, for a non-empty quiz. */
  function Percentage(correct: nat, total: nat): (p: real)
    requires total > 0
    ensures p >= 0.0
    ensures correct <= total ==> p <= 100.0
    ensures correct == total ==> p == 100.0
  {
    PercentageBounds(correct, total);
    correct as real * 100.0 / total as real
  }

  lemma PercentageBounds(correct: nat, total: nat)
    requires total > 0
    ensures correct as real * 100.0 / total as real >= 0.0
    ensures correct <= total ==> correct as real * 100.0 / total as real <= 100.0
    ensures correct == total ==> correct as real * 100.0 / total as real == 100.0
  {
    var p := correct as real * 100.0 / total as real;
    assert p * total as real == correct as real * 100.0;
    if correct <= total {
      assert p * total as real <= 100.0 * total as real;
    }
  }

  /** The stored score: the percentage rounded to two decimals, or 0 for a
      quiz without questions (no division happens then). */
  function ScoreOf(correct: nat, total: nat): (score: real)
    ensures score >= 0.0
    ensures total == 0 ==> score == 0.0
    ensures total > 0 ==> -0.005 <= score - Percentage(correct, total) <= 0.005
    ensures correct <= total ==> score <= 100.0
  {
    if total > 0 then
      var p := Percentage(correct, total);
      Round2NonNegative(p);
      if correct <= total then
        assert p * 100.0 <= 10000 as real;
        Round2AtMost(p, 10000);
        Round2(p)
      else
        Round2(p)
    else 0.0
  }
}
