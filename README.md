# ROI ranking engine for tractor and planter upgrades

This project models the ranking engine of two scripts. One ranks
aftermarket tractor performance parts (`tractor_performance_roi_analysis.py`).
The other ranks planter upgrades (`planter_roi_analysis.py`). Both scripts
run the same steps over a batch of catalogue rows:

1. Count the models a part fits. The compatibility string is split on `,`
   and `/`, and entries that are blank after stripping are dropped.
2. Turn the raw fields into factor scores. Payback, hp gain (tractor) and
   revenue per acre (planter) are divided by their batch maximum. ROI % is
   used as is. Compatibility and the tractor's torque gain earn points
   capped at 100 (the torque half of the power score at 50).
3. Combine the factors with fixed weights and round to one decimal.
4. Sort stably by score, highest first.
5. Assign one of four tiers (thresholds 70/50/30), number the ranks from 1,
   count the rows per tier, and pick the best row of each category.

Modules:

- `Common`: `Option`, `Result`, the two runtime errors, and Python's `max`.
- `Rounding`: Python's `round(x, n)` on exact reals.
- `Compat`: the compatibility count (`count_compatible_brands` /
  `count_compatible_models`).
- `Factors`: the shared factor formulas.
- `Sorting`: Python's stable `sort(key=..., reverse=True)`.
- `Tiers`: the tier bands.
- `Records`: the result row, `assign_tiers` and the rank numbering.
- `Summary`: the tier counts and best-per-category of `print_summary`.
- `TractorPerformance`: `compute_performance_scores` and its factors.
- `PlanterRoi`: `compute_performance_roi` and its factors.

The two scripts repeat the same code for the compatibility count, the
tiers, the rank numbering and the summary. The model defines each of these
once. Its rows below cite the tractor lines and name the planter lines in
the text.

What the code does, and therefore what the model does:

- The factors that are normalised (payback, hp gain, revenue per acre)
  are divided by their batch maximum only; there is no min–max
  normalisation. ROI % is not normalised at all, and compatibility and
  torque are capped points.
- There is no guard against a batch without variance. A batch whose
  paybacks (or planter revenues) are all 0 fails with a division by zero,
  and a one-part batch gets payback factor 0.
- The weights are constants and are not validated.
- There are no named error types. An empty batch fails at `max`.
- The ROI % term is not bounded, so the composite score is not bounded
  by 100 either.

`ThreePartComposites` works through a three-part batch. Its composites
are 22, 56.5 and 69, so no part scores 100, not even the third, which
has the best value of every factor in the batch.

Errors are values. `Err(MaxOfEmpty)` stands for the `ValueError` that `max()`
raises on an empty batch. `Err(ZeroDivision)` stands for the
`ZeroDivisionError` raised when a batch maximum of 0 is used as a divisor.

## Model

| member | source | states |
|---|---|---|
| Common.MaxOf | tractor_performance_roi_analysis.py:81 | `max()` returns an element of the list that is at least every element |
| Common.MaxOfUnique | tractor_performance_roi_analysis.py:81 | any element that bounds all elements is the value `max()` returns |
| Rounding.RoundHalfEven | tractor_performance_roi_analysis.py:122 | the nearest integer, within one half; an exact half goes to the even neighbour |
| Rounding.Round | tractor_performance_roi_analysis.py:122 | `round(x, n)` lies within half a step of 10^-n from `x` (also planter_roi_analysis.py:102, 106); `RoundOnGrid` gives its exact value |
| Rounding.RoundOnGrid | tractor_performance_roi_analysis.py:122 | `round(x, n)` equals `x * 10^n` rounded half to even, divided by 10^n: a multiple of 10^-n, with ties going to the even multiple |
| Rounding.RoundMonotone | tractor_performance_roi_analysis.py:122 | rounding never reverses the order of two scores, so sorting rounded scores only adds ties |
| Rounding.RoundIdempotent | tractor_performance_roi_analysis.py:122 | rounding an already rounded score changes nothing |
| Compat.ReplaceSlash | tractor_performance_roi_analysis.py:66 | `replace("/", ",")` keeps the length, turns every separator into a comma and leaves other characters alone |
| Compat.Split | tractor_performance_roi_analysis.py:66 | `split(",")` yields at least one piece and no piece holds a comma |
| Compat.StripLeft | tractor_performance_roi_analysis.py:66 | `lstrip()` removes exactly the leading whitespace (Python's `isspace` set) |
| Compat.StripRight | tractor_performance_roi_analysis.py:66 | `rstrip()` removes exactly the trailing whitespace |
| Compat.KeepStripped | tractor_performance_roi_analysis.py:66 | every kept entry is non-empty, and there are never more entries than pieces |
| Compat.KeepStrippedEntries | tractor_performance_roi_analysis.py:66 | a string is an entry iff it is the stripped form of a non-blank piece; there are no entries iff every piece is blank |
| Compat.JoinSplit | tractor_performance_roi_analysis.py:66 | joining the split pieces with commas gives back the string |
| Compat.SplitConcat | tractor_performance_roi_analysis.py:66 | a comma splits the string into the pieces on either side of it |
| Compat.StripEmpty | tractor_performance_roi_analysis.py:66 | a piece strips to empty exactly when it is all whitespace |
| Compat.CountConcat | tractor_performance_roi_analysis.py:64-66 | the count is additive across a `,` or `/` (also planter_roi_analysis.py:56-58) |
| Compat.CountSegment | tractor_performance_roi_analysis.py:64-66 | a separator-free string counts 1 when it has a non-space character, else 0 |
| Compat.CountZeroIff | tractor_performance_roi_analysis.py:64-66 | the count is 0 exactly when the string holds only separators and whitespace, the empty string included |
| Compat.CountEntries | tractor_performance_roi_analysis.py:64-66 | `count_compatible_brands` / `count_compatible_models` (planter_roi_analysis.py:56-58); no contract of its own: `CountConcat`, `CountSegment` and `CountZeroIff` fix its value on every string |
| Sorting.SortDescCorrect | tractor_performance_roi_analysis.py:127 | the stable descending sort returns a permutation of its input, non-increasing by key, with the rows of each key in input order (also planter_roi_analysis.py:111) |
| Sorting.SortedStableIsUnique | tractor_performance_roi_analysis.py:127 | two sorted sequences that agree on the order of every key are equal, so any stable descending sort gives the model's result |
| Sorting.SortDescOfSorted | tractor_performance_roi_analysis.py:127 | sorting an already ranked list leaves it unchanged |
| Sorting.SortDesc | tractor_performance_roi_analysis.py:127 | the reference stable descending sort; no contract of its own: `SortDescCorrect` and `SortedStableIsUnique` state what it returns |
| Records.SortByScore | tractor_performance_roi_analysis.py:127 | `results.sort(key=composite_score, reverse=True)` as `SortDesc` keyed by score (also planter_roi_analysis.py:111); `RankedFacts` states the result |
| Tiers.TierOf | tractor_performance_roi_analysis.py:131-143 | each score falls in exactly one band: Top Tier iff ≥ 70, Strong iff in [50, 70), Moderate iff in [30, 50), Situational iff < 30 (also planter_roi_analysis.py:115-127) |
| Tiers.TierMonotone | tractor_performance_roi_analysis.py:131-143 | a higher score never yields a lower tier |
| Tiers.LabelInjective | tractor_performance_roi_analysis.py:209-217 | distinct tiers have distinct labels, so counting by label counts by tier |
| Records.AssignTiers | tractor_performance_roi_analysis.py:131-143 | the in-place loop leaves the array equal to `Tiered` of the old contents |
| Records.Tiered | tractor_performance_roi_analysis.py:131-143 | the rows after `assign_tiers`; no contract of its own: `TieredRows` states it |
| Records.TieredRows | tractor_performance_roi_analysis.py:131-143 | every row gets the tier of its own score; length, order and every other field are unchanged |
| Records.TieredIdempotent | tractor_performance_roi_analysis.py:131-143 | assigning tiers twice equals assigning them once |
| Records.TieredRankedLevels | tractor_performance_roi_analysis.py:131-143 | on a ranked list, tiers never rise further down |
| Records.NumberRanks | tractor_performance_roi_analysis.py:159-160 | the in-place loop leaves the array equal to `Numbered` of the old contents (also planter_roi_analysis.py:142-143) |
| Records.Numbered | tractor_performance_roi_analysis.py:159-160 | the rows after the rank numbering; no contract of its own: `NumberedRows` states it |
| Records.NumberedRows | tractor_performance_roi_analysis.py:159-160 | rank i+1 at position i, nothing else changed, and on a ranked list a better rank never has a lower score |
| Records.ReportRows | tractor_performance_roi_analysis.py:241-245 | the report rows of a ranked list are still ranked, with rank = position + 1 and tier = tier of the score |
| Summary.TierCount | tractor_performance_roi_analysis.py:209-211 | a tier's count never exceeds the number of rows |
| Summary.CountTiers | tractor_performance_roi_analysis.py:209-211 | the counting loop gives each tier its number of rows, and a tier is a key iff it has rows (also planter_roi_analysis.py:190-192) |
| Summary.TierCountsSum | tractor_performance_roi_analysis.py:209-217 | the four tier counts add up to the number of rows |
| Summary.Categories | tractor_performance_roi_analysis.py:193-195 | the grouping keys: distinct, and exactly the categories that occur; `CategoriesFirstAppearance` states their order |
| Summary.CategoriesFirstAppearance | tractor_performance_roi_analysis.py:193-195 | the keys come in order of first appearance: every row of a later key comes after some row of each earlier key |
| Summary.InCategory | tractor_performance_roi_analysis.py:193-195 | a category's group holds only rows of that category, taken from the list |
| Summary.InCategoryConcat | tractor_performance_roi_analysis.py:193-195 | the group of a list split in two is the group of the first half followed by the group of the second, so `append` keeps ranked order and every repeated row |
| Summary.InCategoryFirst | tractor_performance_roi_analysis.py:193-195 | a group's first row is the first row of that category in the list |
| Summary.InCategoryComplete | tractor_performance_roi_analysis.py:193-195 | a category's group holds every row of that category |
| Summary.InCategoryEmpty | tractor_performance_roi_analysis.py:193-195 | a group is empty exactly when its category does not occur |
| Summary.GroupByCategory | tractor_performance_roi_analysis.py:193-195 | the grouping loop builds one non-empty group per category, keyed in first-appearance order (also planter_roi_analysis.py:175-177) |
| Summary.BestIndex | tractor_performance_roi_analysis.py:201 | `max(..., key=score)` picks a row with the highest score and no earlier row scores as high |
| Summary.RankedCategories | tractor_performance_roi_analysis.py:200 | the categories sorted by best score; no contract of its own: `RankedCategoriesFacts` and `CategoriesRanked` state it |
| Summary.CategoryTop | tractor_performance_roi_analysis.py:200 | the sort key, a category's best score; no contract of its own: `CategoryBestRanked` states it |
| Summary.BestPerCategory | tractor_performance_roi_analysis.py:193-201 | the summary's (category, best row) list; no contract of its own: `BestPerCategoryRanked` states it |
| Summary.RankedCategoriesFacts | tractor_performance_roi_analysis.py:200 | the category order lists every category once, each with rows, ordered by its best score (also planter_roi_analysis.py:182-183) |
| Summary.InCategoryRanked | tractor_performance_roi_analysis.py:193-195 | a group taken from a ranked list is itself ranked |
| Summary.CategoryBestRanked | tractor_performance_roi_analysis.py:200-201 | on a ranked list, a category's best row is its first row and its key is that row's score |
| Summary.CategoriesRanked | tractor_performance_roi_analysis.py:200 | on a ranked list, the categories already come in order of best score |
| Summary.BestPerCategoryRanked | tractor_performance_roi_analysis.py:193-201 | on a ranked list, the summary lists the categories in first-appearance order, each with its first row |
| Summary.BestPerCategoryFirst | tractor_performance_roi_analysis.py:193-201 | on a ranked list, the best row of a category is its first row in ranked order, so among rows tied at the top score `max(key=...)` picks the earliest (also planter_roi_analysis.py:175-183) |
| Factors.ShareOfMax | planter_roi_analysis.py:90 | `(x / max) * full` lies in [0, full] for 0 ≤ x ≤ max, is `full` at the maximum and 0 at 0 (also tractor_performance_roi_analysis.py:92) |
| Factors.ShareOfMaxMonotone | planter_roi_analysis.py:90 | a larger value never gets a smaller share |
| Factors.InverseShare | tractor_performance_roi_analysis.py:86 | `(1 - x / max) * 100` lies in [0, 100] for 0 ≤ x ≤ max, is 0 at the maximum and 100 at 0 (also planter_roi_analysis.py:84) |
| Factors.InverseShareAntitone | tractor_performance_roi_analysis.py:86 | a longer payback never gets a larger payback factor |
| Factors.CappedPoints | tractor_performance_roi_analysis.py:88 | `min(count * k, 100)` is at most 100, equals 100 iff count * k ≥ 100, and is count * k below the cap |
| Factors.CappedPointsMonotone | tractor_performance_roi_analysis.py:88 | more entries never earn fewer points |
| Factors.MinReal | tractor_performance_roi_analysis.py:92 | `min(x, cap)` is one of the two and at most both |
| TractorPerformance.MaxPayback | tractor_performance_roi_analysis.py:81 | the payback normaliser is some part's payback and at least every part's |
| TractorPerformance.MaxHp | tractor_performance_roi_analysis.py:82 | the hp normaliser is always positive: the largest hp gain when one is positive, else 1 |
| TractorPerformance.ZeroPaybackBatch | tractor_performance_roi_analysis.py:81-86 | a batch of zero paybacks has maximum 0, so scoring it divides by zero |
| TractorPerformance.SinglePartBatch | tractor_performance_roi_analysis.py:81-86 | a one-part batch gets payback factor 0 (not 100) |
| TractorPerformance.CompatScore | tractor_performance_roi_analysis.py:87-88 | the compatibility score is at most 100, equals 100 iff count ≥ 20, else 5 per entry |
| TractorPerformance.CompatScoreMonotone | tractor_performance_roi_analysis.py:88 | the compatibility score never decreases as the count grows |
| TractorPerformance.PowerScore | tractor_performance_roi_analysis.py:90-92 | with gains between 0 and the hp normaliser the power score is in [0, 100]; it never exceeds the hp share of 50 plus the torque cap of 50; it is 0 when the normaliser is not positive |
| TractorPerformance.PowerScoreMonotone | tractor_performance_roi_analysis.py:90-92 | more hp or torque never lowers the power score |
| TractorPerformance.Composite | tractor_performance_roi_analysis.py:94-99 | the weighted sum of the four factors; no contract of its own: `WeightsSumToOne`, `CompositeMonotone` and `CompositeBetween` state it |
| TractorPerformance.WeightsSumToOne | tractor_performance_roi_analysis.py:94-99 | the weights 0.40/0.25/0.20/0.15 are non-negative and sum to 1 |
| TractorPerformance.CompositeMonotone | tractor_performance_roi_analysis.py:94-99 | raising any single factor never lowers the composite |
| TractorPerformance.CompositeBetween | tractor_performance_roi_analysis.py:94-99 | the composite lies between the smallest and largest factor |
| TractorPerformance.ThreePartComposites | tractor_performance_roi_analysis.py:81-99 | a worked three-part batch scores 22, 56.5 and 69 |
| TractorPerformance.FuelSavingsPerHour | tractor_performance_roi_analysis.py:101-105 | each percent of fuel efficiency saves $0.304 per engine hour |
| TractorPerformance.ScorePart | tractor_performance_roi_analysis.py:84-125 | the result row of one part; no contract of its own: `FactorBounds` bounds its factors, and `ScoreBatch` and `RankedFacts` use it |
| TractorPerformance.FactorBounds | tractor_performance_roi_analysis.py:81-92 | for non-negative data the payback and power factors are in [0, 100], the largest payback scores 0, a zero payback 100, the largest hp gain the full 50 hp points |
| TractorPerformance.ScoreBatch | tractor_performance_roi_analysis.py:84-125 | the loop appends, in catalogue order, the row of each part |
| TractorPerformance.RankedFacts | tractor_performance_roi_analysis.py:107-127 | one row per part, a permutation of the scored parts, highest score first, equal scores in catalogue order |
| TractorPerformance.ComputePerformanceScores | tractor_performance_roi_analysis.py:69-128 | empty batch fails at `max`, a zero maximum payback divides by zero, otherwise the result is the ranked rows |
| TractorPerformance.Analyze | tractor_performance_roi_analysis.py:241-245 | scoring, tiering and rank numbering in sequence: the same errors, else the ranked rows with tiers and ranks |
| TractorPerformance.ConfirmsProduction | tractor_performance_roi_analysis.py:234 | `fits_production.lower().startswith("yes")`; no contract of its own: `ConfirmsProductionIff` states it |
| TractorPerformance.ConfirmsProductionIff | tractor_performance_roi_analysis.py:234 | the fitment confirms production exactly when its first three characters are y, e, s in either case |
| TractorPerformance.NonProductionParts | tractor_performance_roi_analysis.py:234 | the warning lists exactly the parts whose fitment does not start with "yes" in any case |
| TractorPerformance.NonProductionPartsConcat | tractor_performance_roi_analysis.py:234-238 | the list for a catalogue split in two is the first half's list followed by the second's, so the warning keeps catalogue order and its count `len(non_prod)` counts every listed row |
| TractorPerformance.NonProductionPartsSingle | tractor_performance_roi_analysis.py:234 | a single part is listed exactly when its fitment does not confirm production |
| TractorPerformance.ConfirmsProductionExamples | tractor_performance_roi_analysis.py:234 | "Yes", "yes", "YES, with kit" confirm fitment; "No" and "Y" do not |
| PlanterRoi.RevenuePerAcre | planter_roi_analysis.py:83 | the yield gain times $4.50; no contract of its own: `MaxRevenueOfYield` states the batch maximum through it |
| PlanterRoi.MaxRevenue | planter_roi_analysis.py:76-78 | the revenue normaliser is some upgrade's revenue and at least every upgrade's |
| PlanterRoi.MaxPayback | planter_roi_analysis.py:79 | the payback normaliser is some upgrade's payback and at least every upgrade's |
| PlanterRoi.MaxRevenueOfYield | planter_roi_analysis.py:76-78 | the revenue normaliser is $4.50 times the largest yield gain |
| PlanterRoi.ZeroYieldBatch | planter_roi_analysis.py:76-90 | a batch of zero yield gains has revenue maximum 0, so scoring it divides by zero |
| PlanterRoi.CompatBonus | planter_roi_analysis.py:85-86 | the compatibility bonus is at most 100, equals 100 iff count ≥ 13, else 8 per entry |
| PlanterRoi.CompatBonusMonotone | planter_roi_analysis.py:86 | the bonus never decreases as the count grows |
| PlanterRoi.Composite | planter_roi_analysis.py:88-93 | the weighted sum of the four factors; no contract of its own: `WeightsSumToOne`, `CompositeMonotone` and `CompositeBetween` state it |
| PlanterRoi.WeightsSumToOne | planter_roi_analysis.py:88-93 | the weights 0.4/0.3/0.2/0.1 are non-negative and sum to 1 |
| PlanterRoi.CompositeMonotone | planter_roi_analysis.py:88-93 | raising any single factor never lowers the composite |
| PlanterRoi.CompositeBetween | planter_roi_analysis.py:88-93 | the composite lies between the smallest and largest factor |
| PlanterRoi.ScoreUpgrade | planter_roi_analysis.py:81-109 | the result row of one upgrade; no contract of its own: `FactorBounds` bounds its factors, and `ScoreBatch` and `RankedFacts` use it |
| PlanterRoi.FactorBounds | planter_roi_analysis.py:76-90 | for non-negative data the revenue and payback factors are in [0, 100], the largest yield gain scores revenue 100, the largest payback 0, a zero payback 100 |
| PlanterRoi.ScoreBatch | planter_roi_analysis.py:81-109 | the loop appends, in catalogue order, the row of each upgrade |
| PlanterRoi.RankedFacts | planter_roi_analysis.py:95-111 | one row per upgrade, a permutation of the scored upgrades, highest score first, equal scores in catalogue order |
| PlanterRoi.ComputePerformanceRoi | planter_roi_analysis.py:61-112 | empty batch fails at `max`, a zero maximum payback or revenue divides by zero, otherwise the result is the ranked rows |
| PlanterRoi.Analyze | planter_roi_analysis.py:211-215 | scoring, tiering and rank numbering in sequence: the same errors, else the ranked rows with tiers and ranks |

## Left out

- CSV loading and writing, console printing, and the `os.path` / `sys.exit`
  checks in `main` are I/O. Batches enter the model as sequences of parsed
  rows, and the report is the returned row sequence.
- The `description` field is loaded by both scripts but never used, so
  `Part` and `Upgrade` omit it.
- `jd1720_forum_miner.py` is not part of this model. It is network fetching,
  HTML parsing and regex counting.
- Floating point: arithmetic is exact over `real`. NaN and infinities from
  the CSV parser are not modelled.
- Round: models `round` as round-half-even on the exact decimal value.
  Python rounds the nearest binary double, so a value such as 2.675 can
  round differently.
- Python mixes `int` and `float`: `compat_score` is an int, and
  `power_score` starts as the int 0. The model computes both as reals,
  which gives the same values.
- SortByScore: the in-place timsort is modelled by the reference stable
  sort `SortDesc`, not by an algorithm that rearranges the list.
  `SortedStableIsUnique` shows that every stable descending sort returns
  the same list.
- ComputePerformanceRoi: Python raises the zero-payback or zero-revenue
  error in the first loop iteration, and the model checks both maxima
  before the loop. The batch is non-empty at that point, so the outcome is
  the same.
- ComputePerformanceScores: checks the zero payback maximum before the
  loop, for the same reason.
- The tier breakdown's list of product names per tier is printing only.
  The model keeps the counts.
- `tier_counts[tier]` on a `defaultdict` inserts a 0 entry when read. That
  write is never observed, so `CountTiers` returns the counts after the
  counting loop.
- LowerAscii: lower-cases ASCII letters only. No other character
  lower-cases to a string that starts with `y`, `e` or `s`, so the
  `"yes"` prefix test comes out the same.
