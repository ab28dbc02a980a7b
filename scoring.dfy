/** The score reduction of src/App.js: one pass over every item of every
    category, adding the category weight to the maximum unconditionally and
    to the score when the item is checked, then the percentage of the two. */
module Scoring {
  import opened Catalog
  import opened Answers

  /** The points earned by the checked items among `items`, each worth `weight`. */
  function ItemsScore(weight: real, items: seq<Item>, answers: AnswerSet): real {
    if |items| == 0 then 0.0
    else
      var last := items[|items| - 1];
      ItemsScore(weight, items[..|items| - 1], answers) + (if Checked(answers, last.id) then weight else 0.0)
  }

  /** The points `items` are worth when all of them are checked. */
  function ItemsMax(weight: real, items: seq<Item>): real {
    if |items| == 0 then 0.0 else ItemsMax(weight, items[..|items| - 1]) + weight
  }

  /** The total score of the catalog under `answers`. */
  function Score(cats: seq<Category>, answers: AnswerSet): real {
    if |cats| == 0 then 0.0
    else
      var last := cats[|cats| - 1];
      Score(cats[..|cats| - 1], answers) + ItemsScore(last.weight, last.items, answers)
  }

  /** The maximum possible score of the catalog; it takes no answers. */
  function MaxScore(cats: seq<Category>): real {
    if |cats| == 0 then 0.0
    else
      var last := cats[|cats| - 1];
      MaxScore(cats[..|cats| - 1]) + ItemsMax(last.weight, last.items)
  }

  /** `score` as a percentage of `maxScore`; the source divides unguarded,
      so the maximum must be positive. */
  function Percentage(score: real, maxScore: real): (p: real)
    requires maxScore > 0.0
    ensures p * maxScore == 100.0 * score
  {
    score / maxScore * 100.0
  }

  /** What the reduction returns. */
  datatype ScoreResult = ScoreResult(score: real, maxScore: real, percentage: real)

  /** The reduction as the source runs it: nested loops over categories and
      items that update two accumulators. */
  method ComputeScore(cats: seq<Category>, answers: AnswerSet) returns (result: ScoreResult)
    requires MaxScore(cats) > 0.0
    ensures result.score == Score(cats, answers)
    ensures result.maxScore == MaxScore(cats)
    ensures result.percentage == Percentage(Score(cats, answers), MaxScore(cats))
  {
    var totalScore := 0.0;
    var maxPossibleScore := 0.0;
    var i := 0;
    while i < |cats|
      invariant 0 <= i <= |cats|
      invariant totalScore == Score(cats[..i], answers)
      invariant maxPossibleScore == MaxScore(cats[..i])
    {
      var category := cats[i];
      var j := 0;
      while j < |category.items|
        invariant 0 <= j <= |category.items|
        invariant totalScore == Score(cats[..i], answers) + ItemsScore(category.weight, category.items[..j], answers)
        invariant maxPossibleScore == MaxScore(cats[..i]) + ItemsMax(category.weight, category.items[..j])
      {
        var item := category.items[j];
        maxPossibleScore := maxPossibleScore + category.weight;
        if item.id in answers && answers[item.id] {
          totalScore := totalScore + category.weight;
        }
        assert category.items[..j + 1][..j] == category.items[..j];
        j := j + 1;
      }
      assert category.items[..j] == category.items;
      assert cats[..i + 1][..i] == cats[..i];
      i := i + 1;
    }
    assert cats[..i] == cats;
    result := ScoreResult(totalScore, maxPossibleScore, totalScore / maxPossibleScore * 100.0);
  }

  // ---------------------------------------------------------------------
  // The maximum score

  /** A category's maximum is its weight times its number of items. */
  lemma {:induction false} ItemsMaxIsProduct(weight: real, items: seq<Item>)
    ensures ItemsMax(weight, items) == weight * (|items| as real)
  {
    if |items| > 0 {
      ItemsMaxIsProduct(weight, items[..|items| - 1]);
      assert weight * ((|items| - 1) as real) + weight == weight * (|items| as real);
    }
  }

  /** The maximum score is the sum over categories of weight times number of items. */
  lemma {:induction false} MaxScoreIsWeightedCount(cats: seq<Category>)
    ensures MaxScore(cats) == WeightedCount(cats)
  {
    if |cats| > 0 {
      MaxScoreIsWeightedCount(cats[..|cats| - 1]);
      ItemsMaxIsProduct(cats[|cats| - 1].weight, cats[|cats| - 1].items);
    }
  }

  /** The shipped catalog is worth 22 points, so its percentage is defined. */
  lemma MetricsMaxScore()
    ensures MaxScore(Metrics) == 22.0
  {
    MaxScoreIsWeightedCount(Metrics);
    MetricsWellFormed();
  }

  // ---------------------------------------------------------------------
  // Bounds

  lemma {:induction false} ItemsScoreBounds(weight: real, items: seq<Item>, answers: AnswerSet)
    requires weight >= 0.0
    ensures 0.0 <= ItemsScore(weight, items, answers) <= ItemsMax(weight, items)
  {
    if |items| > 0 {
      ItemsScoreBounds(weight, items[..|items| - 1], answers);
    }
  }

  /** With non-negative weights the score lies between zero and the maximum. */
  lemma {:induction false} ScoreBounds(cats: seq<Category>, answers: AnswerSet)
    requires NonNegativeWeights(cats)
    ensures 0.0 <= Score(cats, answers) <= MaxScore(cats)
  {
    if |cats| > 0 {
      var last := cats[|cats| - 1];
      assert last in cats;
      assert NonNegativeWeights(cats[..|cats| - 1]) by {
        forall c | c in cats[..|cats| - 1] ensures c in cats { }
      }
      ScoreBounds(cats[..|cats| - 1], answers);
      ItemsScoreBounds(last.weight, last.items, answers);
    }
  }

  /** A percentage of a score within its bounds lies between 0 and 100. */
  lemma PercentageInRange(score: real, maxScore: real)
    requires maxScore > 0.0 && 0.0 <= score <= maxScore
    ensures 0.0 <= Percentage(score, maxScore) <= 100.0
  {
  }

  /** With non-negative weights and a positive maximum, the percentage lies
      between 0 and 100. */
  lemma PercentageBounds(cats: seq<Category>, answers: AnswerSet)
    requires NonNegativeWeights(cats) && MaxScore(cats) > 0.0
    ensures 0.0 <= Percentage(Score(cats, answers), MaxScore(cats)) <= 100.0
  {
    ScoreBounds(cats, answers);
    PercentageInRange(Score(cats, answers), MaxScore(cats));
  }

  /** A percentage reaches a threshold exactly when the cross-multiplied
      score does, so thresholds can be compared without dividing. */
  lemma PercentageAtLeast(score: real, maxScore: real, threshold: real)
    requires maxScore > 0.0
    ensures Percentage(score, maxScore) >= threshold <==> 100.0 * score >= threshold * maxScore
  {
  }

  // ---------------------------------------------------------------------
  // Monotonicity

  lemma {:induction false} ItemsScoreMonotone(weight: real, items: seq<Item>, a: AnswerSet, b: AnswerSet)
    requires weight >= 0.0 && Subsumes(a, b)
    ensures ItemsScore(weight, items, a) <= ItemsScore(weight, items, b)
  {
    if |items| > 0 {
      ItemsScoreMonotone(weight, items[..|items| - 1], a, b);
    }
  }

  /** Checking more items never lowers the score. */
  lemma {:induction false} ScoreMonotone(cats: seq<Category>, a: AnswerSet, b: AnswerSet)
    requires NonNegativeWeights(cats) && Subsumes(a, b)
    ensures Score(cats, a) <= Score(cats, b)
  {
    if |cats| > 0 {
      var last := cats[|cats| - 1];
      assert last in cats;
      assert NonNegativeWeights(cats[..|cats| - 1]) by {
        forall c | c in cats[..|cats| - 1] ensures c in cats { }
      }
      ScoreMonotone(cats[..|cats| - 1], a, b);
      ItemsScoreMonotone(last.weight, last.items, a, b);
    }
  }

  /** Checking more items never lowers the percentage. */
  lemma PercentageMonotone(cats: seq<Category>, a: AnswerSet, b: AnswerSet)
    requires NonNegativeWeights(cats) && Subsumes(a, b) && MaxScore(cats) > 0.0
    ensures Percentage(Score(cats, a), MaxScore(cats)) <= Percentage(Score(cats, b), MaxScore(cats))
  {
    ScoreMonotone(cats, a, b);
    PercentageGrowsWithScore(Score(cats, a), Score(cats, b), MaxScore(cats));
  }

  /** Against the same positive maximum, a higher score is a higher percentage. */
  lemma PercentageGrowsWithScore(s: real, t: real, maxScore: real)
    requires maxScore > 0.0 && s <= t
    ensures Percentage(s, maxScore) <= Percentage(t, maxScore)
  {
  }

  // ---------------------------------------------------------------------
  // What the score depends on

  lemma {:induction false} ItemsScoreCongruent(weight: real, items: seq<Item>, a: AnswerSet, b: AnswerSet)
    requires forall k :: 0 <= k < |items| ==> (Checked(a, items[k].id) <==> Checked(b, items[k].id))
    ensures ItemsScore(weight, items, a) == ItemsScore(weight, items, b)
  {
    if |items| > 0 {
      ItemsScoreCongruent(weight, items[..|items| - 1], a, b);
    }
  }

  /** The score depends only on which catalog ids are checked: two answer
      maps that agree on them score the same, whatever else they hold. */
  lemma {:induction false} ScoreDependsOnlyOnCatalogIds(cats: seq<Category>, a: AnswerSet, b: AnswerSet)
    requires forall id :: id in Ids(cats) ==> (Checked(a, id) <==> Checked(b, id))
    ensures Score(cats, a) == Score(cats, b)
  {
    if |cats| > 0 {
      var init, last := cats[..|cats| - 1], cats[|cats| - 1];
      assert Ids(cats) == Ids(init) + ItemIds(last.items);
      forall k | 0 <= k < |last.items|
        ensures Checked(a, last.items[k].id) <==> Checked(b, last.items[k].id)
      {
        assert ItemIds(last.items)[k] == last.items[k].id;
      }
      ScoreDependsOnlyOnCatalogIds(init, a, b);
      ItemsScoreCongruent(last.weight, last.items, a, b);
    }
  }

  /** An absent key scores as an explicit false. */
  lemma AbsentIsUnchecked(cats: seq<Category>, answers: AnswerSet, id: int)
    requires id !in answers
    ensures Score(cats, answers[id := false]) == Score(cats, answers)
  {
    ScoreDependsOnlyOnCatalogIds(cats, answers[id := false], answers);
  }

  /** A key that is no catalog id has no effect on the score. */
  lemma ForeignKeyIgnored(cats: seq<Category>, answers: AnswerSet, id: int, value: bool)
    requires id !in Ids(cats)
    ensures Score(cats, answers[id := value]) == Score(cats, answers)
  {
    ScoreDependsOnlyOnCatalogIds(cats, answers[id := value], answers);
  }

  lemma {:induction false} ItemsScoreNone(weight: real, items: seq<Item>)
    ensures ItemsScore(weight, items, map[]) == 0.0
  {
    if |items| > 0 {
      ItemsScoreNone(weight, items[..|items| - 1]);
    }
  }

  /** The empty answer map, the state at start-up, scores zero. */
  lemma {:induction false} ScoreOfNoAnswers(cats: seq<Category>)
    ensures Score(cats, map[]) == 0.0
  {
    if |cats| > 0 {
      ScoreOfNoAnswers(cats[..|cats| - 1]);
      ItemsScoreNone(cats[|cats| - 1].weight, cats[|cats| - 1].items);
    }
  }

  lemma {:induction false} ItemsScoreAll(weight: real, items: seq<Item>, answers: AnswerSet)
    requires forall k :: 0 <= k < |items| ==> Checked(answers, items[k].id)
    ensures ItemsScore(weight, items, answers) == ItemsMax(weight, items)
  {
    if |items| > 0 {
      ItemsScoreAll(weight, items[..|items| - 1], answers);
    }
  }

  /** With every catalog item checked, the score is the maximum. */
  lemma {:induction false} ScoreOfAllChecked(cats: seq<Category>, answers: AnswerSet)
    requires forall id :: id in Ids(cats) ==> Checked(answers, id)
    ensures Score(cats, answers) == MaxScore(cats)
  {
    if |cats| > 0 {
      var init, last := cats[..|cats| - 1], cats[|cats| - 1];
      assert Ids(cats) == Ids(init) + ItemIds(last.items);
      forall k | 0 <= k < |last.items| ensures Checked(answers, last.items[k].id) {
        assert ItemIds(last.items)[k] == last.items[k].id;
      }
      ScoreOfAllChecked(init, answers);
      ItemsScoreAll(last.weight, last.items, answers);
    }
  }

  // ---------------------------------------------------------------------
  // The score after a toggle

  lemma {:induction false} ItemsScoreToggle(weight: real, items: seq<Item>, answers: AnswerSet, id: int)
    ensures ItemsScore(weight, items, Toggle(answers, id))
         == ItemsScore(weight, items, answers)
          + (if Checked(answers, id) then -1.0 else 1.0) * ItemsScore(weight, items, map[id := true])
  {
    if |items| > 0 {
      ItemsScoreToggle(weight, items[..|items| - 1], answers, id);
    }
  }

  /** Toggling `id` moves the score by the worth of the items carrying that
      id: up when it was unchecked, down when it was checked. */
  lemma {:induction false} ScoreAfterToggle(cats: seq<Category>, answers: AnswerSet, id: int)
    ensures Score(cats, Toggle(answers, id))
         == Score(cats, answers)
          + (if Checked(answers, id) then -1.0 else 1.0) * Score(cats, map[id := true])
  {
    if |cats| > 0 {
      var last := cats[|cats| - 1];
      ScoreAfterToggle(cats[..|cats| - 1], answers, id);
      ItemsScoreToggle(last.weight, last.items, answers, id);
    }
  }

  lemma {:induction false} ItemsScoreSingle(weight: real, items: seq<Item>, id: int)
    requires Distinct(ItemIds(items))
    ensures id in ItemIds(items) ==> ItemsScore(weight, items, map[id := true]) == weight
    ensures id !in ItemIds(items) ==> ItemsScore(weight, items, map[id := true]) == 0.0
  {
    if |items| > 0 {
      var init := items[..|items| - 1];
      assert ItemIds(items) == ItemIds(init) + [items[|items| - 1].id];
      DistinctSplit(ItemIds(init), [items[|items| - 1].id]);
      ItemsScoreSingle(weight, init, id);
    }
  }

  lemma {:induction false} ScoreSingleAbsent(cats: seq<Category>, id: int)
    requires id !in Ids(cats)
    ensures Score(cats, map[id := true]) == 0.0
  {
    ScoreDependsOnlyOnCatalogIds(cats, map[id := true], map[]);
    ScoreOfNoAnswers(cats);
  }

  /** With distinct ids, checking one catalog item alone scores exactly the
      weight of the one category it belongs to. */
  lemma {:induction false} ScoreOfSingleItem(cats: seq<Category>, i: int, j: int)
    requires DistinctIds(cats)
    requires 0 <= i < |cats| && 0 <= j < |cats[i].items|
    ensures Score(cats, map[cats[i].items[j].id := true]) == cats[i].weight
  {
    var n := |cats|;
    var init, last := cats[..n - 1], cats[n - 1];
    var id := cats[i].items[j].id;
    assert Ids(cats) == Ids(init) + ItemIds(last.items);
    DistinctSplit(Ids(init), ItemIds(last.items));
    if i < n - 1 {
      assert init[i] == cats[i];
      ScoreOfSingleItem(init, i, j);
      IdsHasItem(init, i, j);
      ItemsScoreSingle(last.weight, last.items, id);
    } else {
      assert ItemIds(last.items)[j] == id;
      ScoreSingleAbsent(init, id);
      ItemsScoreSingle(last.weight, last.items, id);
    }
  }

  /** With distinct ids, toggling a catalog item adds its category's weight
      to the score when it was unchecked and removes it when it was checked. */
  lemma ToggleMovesScoreByWeight(cats: seq<Category>, answers: AnswerSet, i: int, j: int)
    requires DistinctIds(cats)
    requires 0 <= i < |cats| && 0 <= j < |cats[i].items|
    ensures var id := cats[i].items[j].id;
      Score(cats, Toggle(answers, id))
        == if Checked(answers, id) then Score(cats, answers) - cats[i].weight
           else Score(cats, answers) + cats[i].weight
  {
    ScoreAfterToggle(cats, answers, cats[i].items[j].id);
    ScoreOfSingleItem(cats, i, j);
  }

  /** Toggling the same item twice leaves the score as it was. */
  lemma ToggleTwiceScore(cats: seq<Category>, answers: AnswerSet, id: int)
    ensures Score(cats, Toggle(Toggle(answers, id), id)) == Score(cats, answers)
  {
    ToggleTwice(answers, id);
    ScoreDependsOnlyOnCatalogIds(cats, Toggle(Toggle(answers, id), id), answers);
  }
}
