# Median survival time and pairwise significance brackets

A Dafny model of two helpers from a statistical-visualisation repository:

- `median_survival_time(times, statuses)` (`survival.py`) sorts the observed
  follow-up times. It takes the middle one for an odd count, or the mean of
  the two middle ones for an even count. It reports that value only when the
  event statuses at the same position(s) of the *original, unsorted* status
  list show an observed event. Otherwise it returns `None`.
- `pairwise_comparison(...)` (`comparison.py`) turns a p-value into an
  asterisk label (or passes a given label string through). It computes the
  four corners of the bracket drawn between two bars and the point where the
  label is anchored. This works horizontally (the bracket rises above the
  bars) or vertically (it reaches out to the right).

Modules:

- `Wrappers`: the `Option` type used for Python's `None`.
- `Sorting`: an insertion sort over `real` standing in for `sorted`. It is
  proved ascending and a permutation. The module also proves that the sorted
  permutation is unique and characterises the element at position `k` as the
  value of rank `k`, using counts of smaller and not-larger elements.
- `Survival`: the median computation, reproduced with both of its quirks. The
  statuses are not reordered along with the times. In the even case the first
  middle status is tested for truthiness (`!= 0`) and the second for `== 1`,
  and either one suffices.
- `PairedSurvival`: a co-sorted reference variant. Each subject's time and
  status go through a stable sort together. It is used only to compare
  against the as-written computation. The model itself does not switch to it.
- `Comparison`: the label ladder and the bracket geometry. The axis limits
  that the source reads from the current plot are parameters here.

Types and modelling choices:

- Times, p-values and coordinates are exact `real`s.
- A status is an `int`, and Python truthiness of a status is `status != 0`.
  Statuses are meant to be 0 (censored) or 1 (event), but the code accepts
  any value, and so does the model.
- `yerr` is `Option<seq<real>>`. It counts as given when it is present and
  non-empty, which is Python's truthiness for a list.
- Both helpers are pure functions.

A co-sorted (paired) variant is the natural fix, and one might expect it to
give the same answer for every listing order. The model proves this when no
two different subjects share a time (`PairedOrderIndependent`). With tied
times it can fail: the stable sort keeps the listing order
(`SortByTimeStable`), and the middle status can then depend on that order
(`TiesMakePairedOrderDependent`). Ties do not always cause this
(`TiesCanAgree`).

## Model

| member | source | states |
|---|---|---|
| `Sorting.SortAsc` | survival.py:3 | keeps the length; that it is ascending and a permutation is `SortAscSortedPermutation`, its positions are characterised by `OrderStatistic` |
| `Sorting.SortAscSortedPermutation` | survival.py:3 | the sorted times are in ascending order and are a permutation of `times` |
| `Sorting.SortAscPermutationInvariant` | survival.py:3 | inputs with the same elements sort to the same sequence |
| `Sorting.OrderStatistic` | survival.py:3 | position `k` of the sorted times holds exactly the value that has at most `k` smaller elements and more than `k` elements not larger |
| `Survival.MedianOfSorted` | survival.py:5-19 | on ascending times, a reported value lies between the lower median (position (n-1)/2) and the upper median (position n/2) |
| `Survival.MedianSurvivalTime` | survival.py:1-21 | defined exactly when the status test at the middle position(s) of the unsorted list passes (`statuses[n/2-1]` truthy or `statuses[n/2] == 1` for even n, `statuses[n/2] == 1` for odd n); a reported value lies between the lower and upper median of the sorted times, and between `min(times)` and `max(times)` |
| `Survival.OddMedian` | survival.py:13-19 | odd count: the result is defined iff `statuses[n/2] == 1` in the unsorted list; when defined it is an element of `times`, and it is the unique value of rank n/2 |
| `Survival.EvenMedian` | survival.py:5-12 | even count: the result is defined iff `statuses[n/2-1] != 0` or `statuses[n/2] == 1`; when defined it lies between the sorted values at n/2-1 and n/2 and is the mean of the values of those two ranks |
| `Survival.PermutingTimesKeepsMedian` | survival.py:3-19 | reordering `times` while the statuses stay in place does not change the result |
| `Survival.MedianOfAlreadySorted` | survival.py:3-19 | on ascending times the result is the selection made on the times as given |
| `Survival.OddExamples` | survival.py:13-19 | times 1,3,5: median 3 when all are events, `None` when the middle status is 0 |
| `Survival.EvenExamples` | survival.py:5-12 | times 1,2,3,4: 2.5 for statuses 1,1,1,1 and 1,1,0,1, and `None` for 1,0,0,1 |
| `Survival.AsymmetricEvenTest` | survival.py:9 | a status of 2 is accepted in the first middle position but not in the second |
| `Survival.ShortStatusList` | survival.py:9-10 | times 1,2 with the single status 1 are accepted, since `or` short-circuits before the second middle status, and give 1.5 |
| `Survival.StatusesNotCoSorted` | survival.py:3-17 | the same three subjects listed in two orders give 2 and `None`, because statuses are read at sorted positions of the unsorted list |
| `PairedSurvival.SortByTime` | survival.py:3 | keeps the length; permutation, times and stability are the three lemmas below |
| `PairedSurvival.SortByTimePermutation` | survival.py:3 | the sort of subjects by time is a permutation of them |
| `PairedSurvival.SortByTimeTimes` | survival.py:3 | the times of the sorted subjects are exactly the sorted times |
| `PairedSurvival.SortByTimeStable` | survival.py:3 | the sort is stable: for every time, the subjects with that time appear in their listing order |
| `PairedSurvival.PairedMedianSurvivalTime` | survival.py:3-19 | a reported paired median lies between the lower and upper median of the times, and within their range |
| `PairedSurvival.PairedReadsCoSortedStatuses` | survival.py:3-19 | the paired median equals the as-written median applied to the co-sorted statuses |
| `PairedSurvival.AgreeOnSortedTimes` | survival.py:3-19 | on ascending times the as-written and paired medians agree |
| `PairedSurvival.PairedOrderIndependent` | survival.py:3-19 | the paired median does not depend on listing order when times identify subjects |
| `PairedSurvival.TiesMakePairedOrderDependent` | survival.py:3-19 | with tied times the paired median can depend on listing order: one all-tied input gives `None` in one listing and 1 in another |
| `PairedSurvival.TiesCanAgree` | survival.py:3-19 | two different subjects sharing time 1 give 1 in both listings, so distinct times are sufficient for order independence but not necessary |
| `PairedSurvival.PairedExample` | survival.py:3-19 | subjects (1, event), (3, censored), (2, event) have a paired median of 2 |
| `PairedSurvival.UnpairedDiffersFromPaired` | survival.py:3-19 | times 1,3,2 with statuses 1,0,1: as written `None`, paired 2 |
| `Comparison.SignificanceLabel` | comparison.py:4-16 | a string `p_adj` is the label unchanged; a numeric one gets one of `****`, `***`, `**`, `*`, `ns` |
| `Comparison.LabelCountsThresholds` | comparison.py:7-16 | a numeric label has one asterisk per threshold (0.0001, 0.001, 0.01, 0.05) that p lies strictly below, and is `ns` when p lies below none |
| `Comparison.NotSignificantIff` | comparison.py:7-16 | the label is `ns` iff `p >= 0.05` |
| `Comparison.LabelMonotone` | comparison.py:7-16 | `p1 <= p2` implies `label(p1)` has at least as many asterisks as `label(p2)` |
| `Comparison.BracketGeometry` | comparison.py:18-40 | four corners in each coordinate list; the anchor is the midpoint of the bracket's far segment (top in horizontal mode, right side in vertical mode) |
| `Comparison.HorizontalBracket` | comparison.py:21-31 | legs at the two centres; feet `dh*(y1-y0)` above the taller of the bar tops (error bars added only when given), hence above both when `dh >= 0` and `y1 >= y0`; rise `barh*(y1-y0)`; anchor at the top |
| `Comparison.VerticalBracket` | comparison.py:33-40 | ends at the two heights; base `dh*(x1-x0)` beyond the larger centre, hence beyond both when `dh >= 0` and `x1 >= x0`; reach `barh*(x1-x0)`; anchor at the far side |
| `Comparison.VerticalIgnoresErrorBars` | comparison.py:21-40 | in vertical mode `yerr` has no effect |
| `Comparison.FalsyErrorBarsIgnored` | comparison.py:22-24 | an absent or empty `yerr` gives the same bracket as no error bars |
| `Comparison.OneAxisRead` | comparison.py:25-36 | horizontal mode reads only the y limits, vertical mode only the x limits |
| `Comparison.VerticalIsTransposedHorizontal` | comparison.py:21-40 | vertical mode is horizontal mode with the axes exchanged (centres and heights swapped, x limits for y limits, no error bars), transposed |

## Left out

- Drawing: `plt.gca()` reading the implicit current axes, `plt.plot`,
  `plt.text`, and the font size, boldness, alignment and line width
  arguments. These are calls into a plotting library. The axis limits are
  parameters instead, and nothing is drawn.
- The unused `maxasterix` parameter, and the default argument values
  (`yerr=None`, `dh=.05`, `barh=.05`, `vertical=False`). In the model these
  are ordinary parameters with no defaults.
- Floating-point rounding: all arithmetic is on exact reals.
- Empty `times`, and status lists too short for the positions the source
  reads. The source then uses Python's negative indexing (empty `times`) or
  raises `IndexError`. `Survival.WellFormed` is the precondition that remains.
  It asks for at least one time and a status at position `n/2`. For an even
  count it also accepts a list ending at position `n/2-1` when that status is
  truthy, because `or` then never reads the second one. Longer status lists
  are accepted, as in the source, and their extra entries are never read.
- Negative or out-of-range `num1`/`num2` indices, and a `yerr` shorter than
  the indices read. Python would wrap negative indices or raise. Here the
  indices are required to be in range.
- A `p_adj` that is neither a string nor a number, such as `None`. The
  source raises `TypeError` at the first comparison. `Comparison.PAdjusted`
  has only the string and number cases.
- Non-list `yerr` values, such as NumPy arrays, whose truthiness differs (it
  raises for more than one element).
- The stability of Python's `sorted` on equal times. Equal times are equal
  values, so it cannot be observed in `median_survival_time`.
