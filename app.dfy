/** The calculator as `App` in src/App.js wires it: the shipped catalog, the
    answer map, the reduction, and the valuation of its percentage. */
module App {
  import opened Catalog
  import opened Answers
  import opened Scoring
  import opened ValuationLadder

  /** One recomputation after an answer change: the score result for the
      shipped catalog and the valuation of its percentage. */
  method Evaluate(answers: AnswerSet) returns (result: ScoreResult, valuation: Valuation)
    ensures result.maxScore == 22.0
    ensures result.score == Score(Metrics, answers)
    ensures 0.0 <= result.score <= 22.0
    ensures result.percentage * 22.0 == 100.0 * result.score
    ensures valuation == GetValuationLevel(result.percentage)
  {
    MetricsMaxScore();
    MetricsWellFormed();
    ScoreBounds(Metrics, answers);
    result := ComputeScore(Metrics, answers);
    valuation := GetValuationLevel(result.percentage);
  }

  /** The start-up state, the empty answer map, is valued at level 5. */
  lemma InitialValuation()
    ensures Score(Metrics, map[]) == 0.0
    ensures GetValuationLevel(Percentage(Score(Metrics, map[]), 22.0)).level == 5
  {
    ScoreOfNoAnswers(Metrics);
    MetricsMaxScore();
  }

  /** The weight of the category that holds shipped item `id`. */
  function WeightOfId(id: int): real {
    if id <= 4 then 2.0 else if id <= 10 then 1.5 else 1.0
  }

  /** Toggling a shipped item moves the score by its category's weight:
      2 points for ids 1 to 4, 1.5 for ids 5 to 10, 1 for ids 11 to 15. */
  lemma MetricsToggle(answers: AnswerSet, id: int)
    requires 1 <= id <= 15
    ensures Score(Metrics, Toggle(answers, id))
         == if Checked(answers, id) then Score(Metrics, answers) - WeightOfId(id)
            else Score(Metrics, answers) + WeightOfId(id)
  {
    MetricsWellFormed();
    var i := if id <= 4 then 0 else if id <= 7 then 1 else if id <= 10 then 2 else if id <= 13 then 3 else 4;
    var j := id - [1, 5, 8, 11, 14][i];
    assert Metrics[i].items[j].id == id;
    ToggleMovesScoreByWeight(Metrics, answers, i, j);
  }

  // ---------------------------------------------------------------------
  // No reachable percentage sits exactly on a threshold

  /** `x` is a whole number of half points. */
  predicate HalfPoints(x: real) {
    (2.0 * x).Floor as real == 2.0 * x
  }

  /** Whole half points add up to whole half points. */
  lemma HalfPointsAdd(x: real, y: real)
    requires HalfPoints(x) && HalfPoints(y)
    ensures HalfPoints(x + y)
  {
    var m, n := (2.0 * x).Floor, (2.0 * y).Floor;
    assert 2.0 * (x + y) == (m + n) as real;
  }

  lemma {:induction false} ItemsScoreHalfPoints(weight: real, items: seq<Item>, answers: AnswerSet)
    requires HalfPoints(weight)
    ensures HalfPoints(ItemsScore(weight, items, answers))
  {
    if |items| > 0 {
      var init := items[..|items| - 1];
      ItemsScoreHalfPoints(weight, init, answers);
      HalfPointsAdd(ItemsScore(weight, init, answers), if Checked(answers, items[|items| - 1].id) then weight else 0.0);
    }
  }

  /** A catalog whose weights are whole half points scores whole half points. */
  lemma {:induction false} ScoreHalfPoints(cats: seq<Category>, answers: AnswerSet)
    requires forall c :: c in cats ==> HalfPoints(c.weight)
    ensures HalfPoints(Score(cats, answers))
  {
    if |cats| > 0 {
      var init, last := cats[..|cats| - 1], cats[|cats| - 1];
      assert last in cats;
      assert forall c :: c in init ==> c in cats;
      ScoreHalfPoints(init, answers);
      ItemsScoreHalfPoints(last.weight, last.items, answers);
      HalfPointsAdd(Score(init, answers), ItemsScore(last.weight, last.items, answers));
    }
  }

  /** For the shipped catalog no set of answers yields a percentage of
      exactly 80, 60, 40 or 20: every reachable percentage is a multiple of
      100/44 and none of the thresholds is. */
  lemma NoPercentageOnThreshold(answers: AnswerSet)
    ensures Percentage(Score(Metrics, answers), 22.0) !in Thresholds
  {
    MetricsWellFormed();
    assert forall c :: c in Metrics ==> HalfPoints(c.weight);
    ScoreHalfPoints(Metrics, answers);
    var s := Score(Metrics, answers);
    var p := Percentage(s, 22.0);
    var k := (2.0 * s).Floor;
    assert 2.0 * p * 22.0 == 100.0 * (k as real);
    assert p == 80.0 ==> k * 100 == 3520;
    assert p == 60.0 ==> k * 100 == 2640;
    assert p == 40.0 ==> k * 100 == 1760;
    assert p == 20.0 ==> k * 100 == 880;
  }
}
