/** Grading of an answer vector against an exam's questions, as `submit`
    computes it: a question earns its points when the answer slot with the
    same index holds its correct option; `totalPoints` adds up every question. */
module Scoring {
  import opened Records

  /** Slot `i` exists and picks question `q`'s correct option. A missing slot never matches. */
  predicate IsCorrect(q: Question, answers: seq<int>, i: int)
  {
    0 <= i < |answers| && answers[i] == q.correctAnswerIndex
  }

  /** Points earned on question `i` of `qs`. */
  function Earned(qs: seq<Question>, answers: seq<int>, i: int): int
    requires 0 <= i < |qs|
  {
    if IsCorrect(qs[i], answers, i) then qs[i].points else 0
  }

  /** Sum of the points of the questions answered correctly (specification of the score). */
  function ScoreOf(qs: seq<Question>, answers: seq<int>): int
  {
    if |qs| == 0 then 0
    else ScoreOf(qs[..|qs| - 1], answers) + Earned(qs, answers, |qs| - 1)
  }

  /** Sum of all question points, folded from the first question on; never
      negative when no weight is. */
  function TotalPoints(qs: seq<Question>): (total: int)
    ensures NonNegativePoints(qs) ==> total >= 0
  {
    if |qs| == 0 then 0
    else TotalPoints(qs[..|qs| - 1]) + qs[|qs| - 1].points
  }

  predicate NonNegativePoints(qs: seq<Question>)
  {
    forall i :: 0 <= i < |qs| ==> qs[i].points >= 0
  }

  /** The accumulator loop of `submit`. */
  method ComputeScore(qs: seq<Question>, answers: seq<int>) returns (score: int)
    ensures score == ScoreOf(qs, answers)
  {
    score := 0;
    var i := 0;
    while i < |qs|
      invariant 0 <= i <= |qs|
      invariant score == ScoreOf(qs[..i], answers)
    {
      if i < |answers| && answers[i] == qs[i].correctAnswerIndex {
        score := score + qs[i].points;
      }
      assert qs[..i + 1][..i] == qs[..i];
      assert Earned(qs[..i + 1], answers, i) == Earned(qs, answers, i);
      i := i + 1;
    }
    assert qs[..|qs|] == qs;
  }

  /** With non-negative points the score lies between 0 and the total. */
  lemma {:induction false} ScoreBounds(qs: seq<Question>, answers: seq<int>)
    requires NonNegativePoints(qs)
    ensures 0 <= ScoreOf(qs, answers) <= TotalPoints(qs)
  {
    if |qs| > 0 {
      var front := qs[..|qs| - 1];
      assert NonNegativePoints(front) by {
        forall i | 0 <= i < |front| ensures front[i].points >= 0 {
          assert front[i] == qs[i];
        }
      }
      ScoreBounds(front, answers);
    }
  }

  /** A vector in which every present slot is -1 scores nothing, whatever its length,
      when no question has -1 as its correct option. */
  lemma {:induction false} UnansweredScoresZero(qs: seq<Question>, answers: seq<int>)
    requires forall i :: 0 <= i < |qs| ==> qs[i].correctAnswerIndex >= 0
    requires forall i :: 0 <= i < |answers| ==> answers[i] == -1
    ensures ScoreOf(qs, answers) == 0
  {
    if |qs| > 0 {
      var front := qs[..|qs| - 1];
      assert forall i :: 0 <= i < |front| ==> front[i] == qs[i];
      UnansweredScoresZero(front, answers);
    }
  }

  /** A vector that picks every correct option earns the total. */
  lemma {:induction false} AllCorrectScoresTotal(qs: seq<Question>, answers: seq<int>)
    requires |qs| <= |answers|
    requires forall i :: 0 <= i < |qs| ==> answers[i] == qs[i].correctAnswerIndex
    ensures ScoreOf(qs, answers) == TotalPoints(qs)
  {
    if |qs| > 0 {
      var front := qs[..|qs| - 1];
      assert forall i :: 0 <= i < |front| ==> front[i] == qs[i];
      AllCorrectScoresTotal(front, answers);
    }
  }

  /** Changing the answer in slot `k` changes only what question `k` earns. */
  lemma {:induction false} ScoreAfterSelect(qs: seq<Question>, answers: seq<int>, k: int, option: int)
    requires 0 <= k < |answers| && k < |qs|
    ensures ScoreOf(qs, answers[k := option])
         == ScoreOf(qs, answers) - Earned(qs, answers, k) + Earned(qs, answers[k := option], k)
  {
    var n := |qs|;
    var front := qs[..n - 1];
    if k == n - 1 {
      ScoreUnaffected(front, answers, k, option);
    } else {
      ScoreAfterSelect(front, answers, k, option);
      assert front[k] == qs[k];
    }
  }

  /** Slots at or beyond the number of questions do not affect the score. */
  lemma {:induction false} ScoreUnaffected(qs: seq<Question>, answers: seq<int>, k: int, option: int)
    requires |qs| <= k < |answers|
    ensures ScoreOf(qs, answers[k := option]) == ScoreOf(qs, answers)
  {
    if |qs| > 0 {
      ScoreUnaffected(qs[..|qs| - 1], answers, k, option);
    }
  }

  /** The two-question example: points [1, 2], correct options [1, 0]. */
  lemma TwoQuestionExample(q1: Question, q2: Question)
    requires q1.points == 1 && q1.correctAnswerIndex == 1
    requires q2.points == 2 && q2.correctAnswerIndex == 0
    ensures TotalPoints([q1, q2]) == 3
    ensures ScoreOf([q1, q2], [1, 1]) == 1
    ensures ScoreOf([q1, q2], [1, 0]) == 3
    ensures ScoreOf([q1, q2], [-1, -1]) == 0
  {
    var qs := [q1, q2];
    assert qs[..1] == [q1];
    assert [q1][..0] == [];
    assert TotalPoints([q1]) == 1;
    assert ScoreOf([q1], [1, 1]) == 1 && ScoreOf([q1], [1, 0]) == 1 && ScoreOf([q1], [-1, -1]) == 0;
  }
}
