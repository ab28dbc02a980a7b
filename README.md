# SaaS valuation calculator: the scoring engine

The calculator shows a fixed checklist of yes/no questions about a SaaS
company. The questions are grouped into five weighted categories. Every
checked question earns its category's weight. The score, the maximum score and
the percentage of the two are recomputed after every answer change. The
percentage is then placed on a five-level valuation ladder, from level 1
("15-25x ARR") down to level 5 ("1-3x ARR").

This project models that engine in Dafny and proves properties of it:

- `catalog.dfy` (module `Catalog`): the shipped catalog `Metrics`. It keeps the ids and weights, and the category names. Predicates say when ids are distinct and weights non-negative.
- `answers.dfy` (module `Answers`): the answer map. `Toggle` is the update `handleToggle` performs.
- `scoring.dfy` (module `Scoring`): the reduction. It has recursive specification functions (`Score`, `MaxScore`, `Percentage`) and the imperative nested-loop method `ComputeScore`, proved equal to them.
- `valuation.dfy` (module `ValuationLadder`): `getValuationLevel` as `GetValuationLevel`.
- `valuation.dfy` also has a reference reading of the ladder: the level is 5 minus the number of thresholds reached.
- `app.dfy` (module `App`): the composition `App` performs for the shipped catalog. It also has facts about that catalog: it is worth 22 points, each toggle moves the score by its category's weight, and no reachable percentage sits exactly on a threshold.

Weights, scores and percentages are exact `real`s. The source's division has no
guard, so `Percentage` requires a positive maximum. The shipped catalog's
maximum is proved to be 22.

The system's specification asks for a 0% sentinel when the catalog is
empty. The code has no such guard (src/App.js:154), and the model follows the
code. The only catalog the code can use is the shipped one, whose maximum is 22.

The specification also states `toggle(toggle(a, id), id) == a`. In the code this
holds only when `id` was already a key. An absent key comes back as an explicit
`false`. `Answers.ToggleTwice` states both cases. The truth value of every key is
restored either way, and so is the score (`Scoring.ToggleTwiceScore`).

## Model

| member | source | states |
|---|---|---|
| Catalog.MetricsIds | src/App.js:12-118 | the shipped catalog's item ids, read category after category, are exactly 1, 2, …, 15 in that order |
| Catalog.MetricsWellFormed | src/App.js:12-118 | the shipped catalog has pairwise distinct ids and positive weights, and the sum of weight × item count over its categories is 22 |
| Catalog.ItemOwnerUnique | src/App.js:12-118 | in a catalog with distinct ids, two item positions with the same id are the same position, so every item belongs to exactly one category |
| Catalog.IdsHasItem | src/App.js:142-145 | every item of every category contributes its id to the catalog's id list, i.e. the walk visits it |
| Answers.Toggle | src/App.js:131-136 | the new map holds the negated old truth value at `id`, reading an absent key as false; its keys are the old keys plus `id`; every other key keeps its value |
| Answers.ToggleTwice | src/App.js:131-136 | toggling twice restores every key's truth value; the map comes back unchanged when `id` was present, and with an explicit `false` at `id` when it was absent |
| Answers.ToggleDirection | src/App.js:131-136 | switching an unchecked item on only adds checked items; switching a checked item off only removes them |
| Scoring.Percentage | src/App.js:154 | the percentage times the maximum equals 100 × the score; defined only for a positive maximum, as the unguarded division demands |
| Scoring.ComputeScore | src/App.js:138-156 | the nested loops over categories and items return exactly the recursive score, the maximum score, and the percentage of the two |
| Scoring.ItemsMaxIsProduct | src/App.js:143-144 | the maximum a category contributes is its weight times its number of items |
| Scoring.MaxScoreIsWeightedCount | src/App.js:139-149 | the maximum score is the sum over categories of weight × number of items; it takes no answers, so no answer map changes it |
| Scoring.MetricsMaxScore | src/App.js:12-118 | the shipped catalog's maximum score is 22, so its percentage is always defined |
| Scoring.ScoreBounds | src/App.js:142-149 | with non-negative weights, 0 ≤ score ≤ maximum score for every answer map |
| Scoring.PercentageInRange | src/App.js:154 | a score between 0 and a positive maximum gives a percentage between 0 and 100 |
| Scoring.PercentageBounds | src/App.js:142-154 | with non-negative weights and a positive maximum, 0 ≤ percentage ≤ 100 for every answer map |
| Scoring.PercentageAtLeast | src/App.js:154 | the percentage reaches a threshold t exactly when 100 × score ≥ t × maximum (comparison by cross-multiplication) |
| Scoring.ScoreMonotone | src/App.js:144-147 | if every item checked under A is checked under B, then score(A) ≤ score(B), for non-negative weights |
| Scoring.PercentageGrowsWithScore | src/App.js:154 | against the same positive maximum, a higher score never gives a lower percentage |
| Scoring.PercentageMonotone | src/App.js:144-154 | the same inclusion of checked items never lowers the percentage |
| Scoring.ScoreDependsOnlyOnCatalogIds | src/App.js:145 | two answer maps that agree on which catalog ids are checked give the same score, whatever else they hold |
| Scoring.AbsentIsUnchecked | src/App.js:145 | an absent key scores the same as an explicit `false` |
| Scoring.ForeignKeyIgnored | src/App.js:145 | a key that is no catalog id, set to anything, does not change the score |
| Scoring.ScoreOfNoAnswers | src/App.js:129 | the empty answer map, the state at start-up, scores 0 |
| Scoring.ScoreOfAllChecked | src/App.js:142-149 | with every catalog id checked, the score equals the maximum score |
| Scoring.ScoreAfterToggle | src/App.js:131-147 | toggling `id` adds (when it was unchecked) or subtracts (when it was checked) the worth of the items that carry `id` |
| Scoring.ScoreOfSingleItem | src/App.js:142-147 | with distinct ids, checking a single catalog item scores exactly the weight of its category |
| Scoring.ToggleMovesScoreByWeight | src/App.js:131-147 | with distinct ids, toggling a catalog item moves the score by exactly its category's weight, up or down as it was unchecked or checked |
| Scoring.ToggleTwiceScore | src/App.js:131-147 | toggling the same id twice leaves the score unchanged |
| ValuationLadder.GetValuationLevel | src/App.js:120-126 | the level is in 1..5; level 1 iff p ≥ 80, 2 iff 60 ≤ p < 80, 3 iff 40 ≤ p < 60, 4 iff 20 ≤ p < 40, 5 iff p < 20, so each boundary falls in the better level |
| ValuationLadder.LevelCountsThresholds | src/App.js:120-126 | the ladder agrees with the reference reading: the level is 5 minus the number of the thresholds 80, 60, 40, 20 reached |
| ValuationLadder.LevelAntitone | src/App.js:120-126 | if p ≤ q then level(q) ≤ level(p) |
| ValuationLadder.RangeMatchesLevel | src/App.js:121-125 | two percentages get the same range label iff they get the same level, so each level has exactly one label |
| ValuationLadder.ThresholdBoundaries | src/App.js:121-125 | exactly 80, 60, 40 and 20 get levels 1, 2, 3 and 4 with their labels and tags, and 0 gets level 5 |
| App.Evaluate | src/App.js:138-158 | one recomputation for the shipped catalog: maximum 22, score the specified score, within 0..22, percentage × 22 = 100 × score, and the valuation of that percentage |
| App.InitialValuation | src/App.js:129-158 | the start-up state scores 0 and is valued at level 5 |
| App.MetricsToggle | src/App.js:12-147 | toggling shipped item `id` moves the score by 2 for ids 1-4, by 1.5 for ids 5-10 and by 1 for ids 11-15 |
| App.ScoreHalfPoints | src/App.js:15-103 | a catalog whose weights are whole half points, as the shipped weights 2, 1.5 and 1 are, always scores whole half points |
| App.NoPercentageOnThreshold | src/App.js:120-154 | for the shipped catalog, no answer map gives a percentage of exactly 80, 60, 40 or 20 |

## Left out

- Rendering: the JSX of `App`, the card, switch and tooltip components (src/components/ui/card.jsx) and the React hooks `useState`/`useMemo`. They are UI plumbing. The hooks are replaced by passing the answer map to `Toggle` and `ComputeScore`/`Evaluate` explicitly.
- Item `text` and `tooltip` strings: they are display strings and do not affect scoring. The `color` class names are carried as an opaque tag.
- `toFixed(1)` display formatting: it formats a float as a string.
- Floating point: weights, scores and percentages are exact reals, where JavaScript uses doubles. `App.NoPercentageOnThreshold` shows that no shipped percentage lies exactly on a threshold. The model does not bound the rounding error of the double division.
- Scoring.Percentage: does not model the NaN that JavaScript produces for a zero maximum. It requires a positive maximum instead, which the shipped catalog meets.
- JavaScript object keys: answer keys are integers. The source's property keys are strings, but ids are turned into strings the same way on writing and on reading, so integer keys do not change behaviour.
- Catalog validation on load: the source has none. The model proves distinct ids and positive weights of the shipped catalog instead.
