# Pharmacy counting, modelled in Dafny

The program reads prescription rows (prescriber `id`, `drug_name`, `drug_cost`) and writes one
report row per drug: the drug name, the number of distinct prescribers, and the total cost.
Rows are ordered by descending total cost, and equal costs by ascending drug name. A cost that
does not parse counts as 0 while summing. Afterwards the group's floor-average cost is added
once for each such cost.

This project models the computation between reading and writing:

- `get_count_and_sum` is the method `Aggregate.GetCountAndSum`. Its loop keeps the count, the
  sum, the malformed-cost count and the set of seen ids, each as an invariant over the records
  read so far.
- The sort/groupby/append part of `groupby_count_and_sum` is `Grouping.GroupByCountAndSum`.
  The sort is `StableSort.SortBy`. `itertools.groupby` is `Grouping.Runs`. The append loop is
  a `for` loop.
- The ranking in `main` is `Ranking.Rank`. `Ranking.PharmacyCounting` is the whole of `main`
  without the files.

Modules:

- `Records`: the input row, the report row, and the two sort keys.
- `Names`: Python's `str` ordering. It is lexicographic by code point, and a proper prefix comes
  first.
- `StableSort`: `sorted(xs, key=...)` as a stable insertion sort under a total preorder on keys.
- `Aggregate`: one drug's statistics.
- `Grouping`: sort, group and summarise.
- `Ranking`: the descending stable sort by cost, and the whole pipeline.
- `Scenarios`: worked concrete cases, e.g. costs 10, 20 and a malformed one give 40.

Cost parsing is a parameter `parse: string -> Option<int>`. `None` stands for the `ValueError`
branch.

The ranking sorts by cost alone and relies on its input already being in name order. That order
comes from the name sort before grouping. Given rows in an arbitrary order, it would not break
ties by name. The model follows the code. `Ranking.RankTieBreak` requires name-ascending input,
and `Ranking.PharmacyCounting` establishes that input through `Grouping.AggregatesCorrect`.

`StableSort.SortBy` is an insertion sort, while Python uses TimSort. `Ranking.ReportDetermined`
proves that the report is the only ordering of the grouped rows sorted by (cost descending, name
ascending). Any correct stable sort therefore yields the same report.

## Model

| member | source | states |
|---|---|---|
| Aggregate.GetCountAndSum | insight_testsuite/temp/src/.ipynb_checkpoints/pharmacy_counting-checkpoint.py:14-58 | The row keeps the given drug name. `num_prescriber` is the number of distinct ids in the group, between 1 and the number of records. `total_cost` is the parsed sum plus the group's floor-average (over all records) times the number of malformed costs. |
| Aggregate.NullCount | insight_testsuite/temp/src/.ipynb_checkpoints/pharmacy_counting-checkpoint.py:35-40 | At most one malformed cost is counted per record. |
| Aggregate.PrescriberCountAtMost | insight_testsuite/temp/src/.ipynb_checkpoints/pharmacy_counting-checkpoint.py:44-48 | Each record adds at most one new prescriber, so there are never more prescribers than records. |
| Aggregate.PrescriberCountBounds | insight_testsuite/temp/src/.ipynb_checkpoints/pharmacy_counting-checkpoint.py:32-48 | A non-empty group has between 1 and record-count prescribers. |
| Aggregate.PrescriberCountExact | insight_testsuite/temp/src/.ipynb_checkpoints/pharmacy_counting-checkpoint.py:44-48 | The prescriber count equals the record count exactly when no two records share an id, so a repeated id is counted once. |
| Aggregate.FilledSumSplit | insight_testsuite/temp/src/.ipynb_checkpoints/pharmacy_counting-checkpoint.py:35-42 | Summing with every malformed cost replaced by a fill value gives the parsed sum plus fill times the number of malformed costs. A malformed cost contributes 0 to the parsed sum and 1 to the count. |
| Aggregate.ImputationFillsEachNull | insight_testsuite/temp/src/.ipynb_checkpoints/pharmacy_counting-checkpoint.py:50-52 | The reported cost equals the sum the group would have if each malformed cost were the group's floor-average. |
| Aggregate.ParsedSumAllMalformed | insight_testsuite/temp/src/.ipynb_checkpoints/pharmacy_counting-checkpoint.py:35-42 | If no cost parses, the running sum is 0. |
| Aggregate.AllMalformedTotalZero | insight_testsuite/temp/src/.ipynb_checkpoints/pharmacy_counting-checkpoint.py:38-52 | A group whose every cost is malformed reports total cost 0. |
| Aggregate.NoMalformedNoImputation | insight_testsuite/temp/src/.ipynb_checkpoints/pharmacy_counting-checkpoint.py:35-52 | A group whose costs all parse has no malformed costs and reports the plain sum. |
| Names.LessTrichotomy | insight_testsuite/temp/src/.ipynb_checkpoints/pharmacy_counting-checkpoint.py:79 | Any two drug names are equal or ordered one way or the other. |
| Names.LessTransitive | insight_testsuite/temp/src/.ipynb_checkpoints/pharmacy_counting-checkpoint.py:79 | The name order is transitive. |
| Names.LessIrreflexive | insight_testsuite/temp/src/.ipynb_checkpoints/pharmacy_counting-checkpoint.py:79 | No name precedes itself. |
| Names.LessEqTotalPreorder | insight_testsuite/temp/src/.ipynb_checkpoints/pharmacy_counting-checkpoint.py:79 | The sort key's order is total and transitive, so sorting by name is well defined. |
| StableSort.SortBy | insight_testsuite/temp/src/.ipynb_checkpoints/pharmacy_counting-checkpoint.py:79 | The sorted sequence is a permutation of its input. |
| StableSort.SortBySorted | insight_testsuite/temp/src/.ipynb_checkpoints/pharmacy_counting-checkpoint.py:79 | The sorted sequence is ordered by key under any total preorder. |
| StableSort.SortByStable | insight_testsuite/temp/src/.ipynb_checkpoints/pharmacy_counting-checkpoint.py:79 | The sort is stable: the elements with a given key appear in the same order as in the input. |
| StableSort.SortBySortedInput | insight_testsuite/temp/src/.ipynb_checkpoints/pharmacy_counting-checkpoint.py:79 | Sorting an input that is already ordered by key returns it unchanged. |
| Grouping.RunLength | insight_testsuite/temp/src/.ipynb_checkpoints/pharmacy_counting-checkpoint.py:83 | The first group is the longest prefix sharing the first record's name: it is non-empty and maximal. |
| Grouping.Runs | insight_testsuite/temp/src/.ipynb_checkpoints/pharmacy_counting-checkpoint.py:83 | Concatenating the groups gives back the input. Each group is non-empty and holds only records of its name. Adjacent groups have different names. A non-empty input gives a first group named after its first record. |
| Grouping.RunsAscending | insight_testsuite/temp/src/.ipynb_checkpoints/pharmacy_counting-checkpoint.py:79-83 | Grouping a name-sorted sequence gives groups with strictly ascending names, so no name is split over two groups. |
| Grouping.FlattenDrugs | insight_testsuite/temp/src/.ipynb_checkpoints/pharmacy_counting-checkpoint.py:83 | The groups' names are exactly the names occurring in their records. |
| Grouping.SelectFlattenPresent | insight_testsuite/temp/src/.ipynb_checkpoints/pharmacy_counting-checkpoint.py:79-88 | The group of a name holds exactly the records of that name, in their order. |
| Grouping.GroupsAscending | insight_testsuite/temp/src/.ipynb_checkpoints/pharmacy_counting-checkpoint.py:79-83 | The groups of any input come out in strictly ascending name order. |
| Grouping.AggregatesAscending | insight_testsuite/temp/src/.ipynb_checkpoints/pharmacy_counting-checkpoint.py:79-90 | The report rows are in strictly ascending name order. |
| Grouping.AggregatesDrugs | insight_testsuite/temp/src/.ipynb_checkpoints/pharmacy_counting-checkpoint.py:79-90 | The drug names in the rows are exactly those in the input: none lost, none invented. |
| Grouping.AggregatesSummarise | insight_testsuite/temp/src/.ipynb_checkpoints/pharmacy_counting-checkpoint.py:79-90 | Each row is the summary of all and only the input records carrying its name, in input order. |
| Grouping.AggregatesCorrect | insight_testsuite/temp/src/.ipynb_checkpoints/pharmacy_counting-checkpoint.py:79-90 | The rows have ascending names, one per distinct input name, and each summarises exactly that name's records. |
| Grouping.GroupByCountAndSum | insight_testsuite/temp/src/.ipynb_checkpoints/pharmacy_counting-checkpoint.py:79-90 | The loop appends one `GetCountAndSum` row per group. The result has ascending names, covers exactly the input's drug names, and each row summarises that drug's records. |
| Ranking.Rank | insight_testsuite/temp/src/.ipynb_checkpoints/pharmacy_counting-checkpoint.py:105 | The ranking is a permutation of the grouped rows. |
| Ranking.RankDescending | insight_testsuite/temp/src/.ipynb_checkpoints/pharmacy_counting-checkpoint.py:105 | Ranked rows have non-increasing total cost. |
| Ranking.RankStable | insight_testsuite/temp/src/.ipynb_checkpoints/pharmacy_counting-checkpoint.py:104-105 | Rows of equal cost keep their incoming order. |
| Ranking.RankTieBreak | insight_testsuite/temp/src/.ipynb_checkpoints/pharmacy_counting-checkpoint.py:104-105 | Given name-ascending rows, the ranking is ordered by cost descending and then name ascending, with no tie left. |
| Ranking.StrictlyRankedUnique | insight_testsuite/temp/src/.ipynb_checkpoints/pharmacy_counting-checkpoint.py:104-105 | Two orderings of the same rows that are both strictly ranked are equal. |
| Ranking.ReportDetermined | insight_testsuite/temp/src/.ipynb_checkpoints/pharmacy_counting-checkpoint.py:98-105 | Any strictly ranked permutation of the grouped rows is the report, so the sort algorithm does not matter. |
| Ranking.PharmacyCounting | insight_testsuite/temp/src/.ipynb_checkpoints/pharmacy_counting-checkpoint.py:98-105 | The report is ordered by cost descending, then name ascending. It has one row per distinct input drug, and each row summarises exactly that drug's records. |
| Scenarios.ImputationScenario | insight_testsuite/temp/src/.ipynb_checkpoints/pharmacy_counting-checkpoint.py:50-52 | Costs 10, 20 and a malformed one: sum 30, floor-average 10, reported 40. |
| Scenarios.DuplicatePrescriberScenario | insight_testsuite/temp/src/.ipynb_checkpoints/pharmacy_counting-checkpoint.py:44-48 | The same id twice in one group yields a single prescriber. |
| Scenarios.AllMalformedScenario | insight_testsuite/temp/src/.ipynb_checkpoints/pharmacy_counting-checkpoint.py:38-52 | A group of only malformed costs reports 0. |
| Scenarios.ThreeRowsAggregates | insight_testsuite/temp/src/.ipynb_checkpoints/pharmacy_counting-checkpoint.py:79-90 | Rows A/1/100, A/2/200, B/1/50 group into A,2,300 and B,1,50. |
| Scenarios.EndToEndScenario | insight_testsuite/temp/src/.ipynb_checkpoints/pharmacy_counting-checkpoint.py:98-105 | The same rows are reported as A,2,300 then B,1,50. |
| Scenarios.TieScenario | insight_testsuite/temp/src/.ipynb_checkpoints/pharmacy_counting-checkpoint.py:104-105 | Two drugs of equal cost arriving in name order are reported in name order. |

## Left out

- Reading the CSV file, writing the report file, the header row, `argparse`, the progress
  `print`s and the `del`/`gc.collect()` calls. These are input, output and memory management.
  The model takes the rows as a sequence and returns the report as a sequence.
- Aggregate.GetCountAndSum: does not model fractional costs. The source parses a cost containing
  `.` with `float` and then floor-divides a float sum. The model's `parse` returns whole numbers
  only, because Dafny has no IEEE floats here.
- Aggregate.GetCountAndSum: the text grammar of Python's `int()` and `float()` is not modelled.
  It includes whitespace, signs and underscores. Parsing is the parameter `parse`, and `None`
  stands for `ValueError`.
- Aggregate.GetCountAndSum: requires a non-empty group. The source would raise
  `ZeroDivisionError` on an empty one, but `groupby` never yields one
  (`Grouping.Runs` proves every group non-empty).
- A missing `drug_name`, `drug_cost` or `id` column, which raises `KeyError` in the source, is
  not modelled. Every row carries the three fields.
- Python's TimSort is modelled by a stable insertion sort. Stable sorts agree on every input
  (`Ranking.ReportDetermined` for the report), so only running time differs.
- Integer width is not an issue: Python integers are unbounded, as are Dafny's. Python's `//`
  floors. Dafny's `/` agrees here because the divisor (the group's size) is positive.
