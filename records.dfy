/**
 * The values the application keeps in browser storage, as data rather than
 * JSON text: a puzzle's progress and a day's result.
 */
module Records {

  /** An entry of `results`: `null` until the question is answered, then `true` or `false`. */
  datatype Answer = Unanswered | Answered(correct: bool)

  /** JavaScript truthiness of an entry: only `true` counts. */
  predicate Truthy(a: Answer) {
    a == Answered(true)
  }

  /** `results.filter(Boolean).length`: the number of correct answers. */
  function Score(results: seq<Answer>): (n: nat)
    ensures n <= |results|
  {
    if results == [] then 0
    else Score(results[..|results| - 1]) + (if Truthy(results[|results| - 1]) then 1 else 0)
  }

  /** The indices of the correct answers. */
  ghost function CorrectIndices(results: seq<Answer>): set<nat> {
    set i: nat | i < |results| && Truthy(results[i])
  }

  /** The score is the number of positions holding a correct answer. */
  lemma {:induction false} ScoreCountsCorrect(results: seq<Answer>)
    ensures Score(results) == |CorrectIndices(results)|
  {
    if results != [] {
      var n := |results| - 1;
      ScoreCountsCorrect(results[..n]);
      CorrectIndicesStep(results);
    } else {
      assert CorrectIndices(results) == {};
    }
  }

  lemma CorrectIndicesStep(results: seq<Answer>)
    requires results != []
    ensures var n := |results| - 1;
            n !in CorrectIndices(results[..n]) &&
            CorrectIndices(results) == CorrectIndices(results[..n]) + (if Truthy(results[n]) then {n} else {})
  {
    var n := |results| - 1;
    var front := results[..n];
    var extra: set<nat> := if Truthy(results[n]) then {n} else {};
    forall i: nat ensures i in CorrectIndices(results) <==> i in CorrectIndices(front) + extra {
      if i < n {
        assert results[i] == front[i];
      }
    }
  }

  /** Saved progress under `<prefix>_<gameNumber>`: `{currentQuestion, results, gameComplete}`. */
  datatype Progress = Progress(currentQuestion: int, results: seq<Answer>, gameComplete: bool)

  /** A day's result under `<prefix>_<YYYY-MM-DD>`: `{score, totalQuestions, results}`. */
  datatype DailyResult = DailyResult(score: int, totalQuestions: int, results: seq<Answer>)

  datatype Value = ProgressValue(progress: Progress) | DailyValue(daily: DailyResult)

  /** `localStorage`: string keys to stored values. */
  type Store = map<string, Value>
}
