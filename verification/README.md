# Advent of Code 2024, days 1 to 4, in Dafny

This project models the puzzle logic of the Python solutions for the first
four days of Advent of Code 2024, and proves properties of that model.

- **Day 1: location lists.**
  - `sortedDistance` and `distanceSumOfSortedElements` sort two lists of ids and zip them. They add up the absolute differences, and the longer list's surplus is ignored.
  - `similarity_score` weighs each left id by how often it occurs in the right list.
  - Module `ListMetrics` models these; `ListExamples` holds the worked cases.
- **Day 2: reactor reports.**
  - `is_safe_report` makes two monotonicity scans and one step-size scan.
  - `is_safe_by_one_report` adds the Problem Dampener: a report may also pass once a single level is removed.
  - The two counting loops tally the reports that pass.
  - Module `Reports` models these; `ReportExamples` holds the worked cases.
- **Day 3: corrupted memory.**
  - The cursor primitives are `read_string` and `read_number`.
  - `find_valid_mul_instructions` is the scanning loop over `mul(a,b)`.
  - `calculate_multiplication_sum` adds up the products.
  - `extract_do_instructions` is the `do()`/`don't()` filter that Part 2 runs before scanning.
  - Modules `MemoryScanner` and `DoFilter` model these; `ScannerExamples` holds the worked cases.
- **Day 4: word search.**
  - The ragged grid is padded with spaces to its longest row (`WordGrid`).
  - `find_xmas_occurrences` looks for `XMAS` in eight directions (`XmasSearch`).
  - `find_x_mas_patterns` compares every interior 3×3 block with four kernels, `.` being a wildcard (`CrossSearch`).
  - `WordSearchExamples` holds the worked cases.

Each operation is modelled by a recursive function that states what it
computes, in the code's own order. Where the code is an explicit loop, a
method holds the loop itself and is proved to compute that function:
- day 1: the zip-and-sum loop and the counting loop of the similarity score;
- day 2: the two monotonicity scans, the step-size scan, the removal loop and the two tallies;
- day 3: the scanning loop with its body, and the filter loop;
- day 4: the cell, direction and letter loops of the `XMAS` search, and the cell, kernel and comparison loops of the cross search.

The remaining loops are modelled by their functions alone:
- the skip and digit loops inside `read_number`;
- the generator sum of `calculate_multiplication_sum`;
- the `max` and `ljust` comprehensions that pad the grid.

The lemmas relate the functions to independent definitions of what the puzzle asks:
- a permutation-invariant distance;
- strict monotonicity for safe reports;
- "safe once one level is removed" for the dampener;
- exact membership for the occurrence lists, with no duplicates;
- a render/scan round trip for `mul` instructions;
- the letters on a cross's diagonals for the kernel matching.

### Where the model follows the code rather than the intent

- **A failed `mul(` chain skips what it consumed.** When an iteration of the day-3 loop fails after reading `mul(`, the cursor stays where the failed read left it. It does not move back to one past the `m`.
  - A well-formed instruction that begins inside the consumed text is therefore missed. `ScannerExamples.NestedInstructionMissed` shows this for `mul(1,mul(2,3)`.
  - The model follows the code. Advancing one character on failure would record that instruction.
- **The scanner records `mul(5,5)` in the sample.** On the tests' sample memory, the scanner records the `mul(5,5)` at the end of `do_not_mul(5,5)`, so Part 1 gives 161.
  - The test file's comments expect 136, claiming that instruction is invalid. Those assertions are commented out in the tests.
  - `ScannerExamples.SampleScan` proves 161 for the code as written.
- **`read_number` skips leading non-digits.** An operand may be preceded by other characters, so `mul(x1,2)` is recorded as (1, 2) (`ScannerExamples.SkippedPrefixAccepted`). The model keeps this.
- **Only the first row decides whether a grid is empty.** In day 4, a grid whose first row is empty yields nothing, whatever the later rows hold. The model keeps this guard.

## Model

| member | source | states |
|---|---|---|
| ListMetrics.Insert | day1/day1.py:60 | inserting into a sorted list keeps it sorted and adds exactly one copy of the element |
| ListMetrics.Sort | day1/day1.py:60 | the result is ascending and a permutation of the input (same multiset, same length) |
| ListMetrics.SortedPermutationUnique | day1/day1.py:60 | two ascending lists with the same elements are equal, so the sorted order is unique |
| ListMetrics.SortPermutationInvariant | day1/solution.py:30-31 | lists with the same elements sort to the same list |
| ListMetrics.SortIs | day_1_list_distances_sum.py:19-20 | any ascending permutation of a list is its sorted form |
| ListMetrics.PairDistances | day1/day1.py:61 | zipping stops at the shorter list, and entry i is the absolute difference of the two i-th elements |
| ListMetrics.SumOfNonNegatives | day1/day1.py:62 | a sum of distances is never negative, and it is zero exactly when every distance is zero |
| ListMetrics.SortedDistance | day1/solution.py:28-36 | the total distance is never negative |
| ListMetrics.SortedDistancePermutation | day1/solution.py:28-36 | the total distance depends only on the elements of each list, not on their order |
| ListMetrics.SortedDistanceSymmetric | day_1_list_distances_sum.py:18-25 | swapping the two lists does not change the distance |
| ListMetrics.SortedDistanceTruncates | day_1_list_distances_sum.py:23 | only the smallest min(\|a\|,\|b\|) elements of each list take part |
| ListMetrics.SortedDistanceZero | day1/solution.py:34-36 | for lists of equal length the distance is zero exactly when they hold the same elements |
| ListMetrics.DistanceSumOfSortedElements | day1/day1.py:59-62 | the method returns the sorted-and-zipped distance |
| ListMetrics.SimilarityAppend | day1/day1.py:56 | the score of a concatenated left list is the sum of the scores of its parts |
| ListMetrics.SplitAround | day1/day1.py:56 | a list containing x is some prefix, x, and a suffix whose joint elements are the rest |
| ListMetrics.SimilaritySplice | day1/day1.py:56 | one left id x contributes x times its number of occurrences on the right |
| ListMetrics.SimilarityPermutation | day1/day1.py:54-56 | the score depends only on the elements of both lists, not their order |
| ListMetrics.SimilarityRight | day1/day1.py:55 | reordering the right list leaves the score unchanged, since only its counts matter |
| ListMetrics.SimilarityScore | day1/day1.py:54-56 | counting the right list into a map and weighing each left id gives the similarity score |
| ListExamples.EmbeddedLists | day_1_list_distances_sum.py:1-15 | the embedded lists [3,4,2,1,3,3] and [4,3,5,3,9,3] are 11 apart |
| ListExamples.SimpleCase | day1/test_solution.py:23-31 | [1,2] and [3,4] are 4 apart |
| ListExamples.IdenticalAndEmpty | day1/test_solution.py:33-61 | identical lists, and two empty lists, are 0 apart |
| ListExamples.SingleElement | day1/test_solution.py:43-51 | [5] and [3] are 2 apart |
| ListExamples.DifferentLengths | day1/test_solution.py:63-72 | [1,2,3] and [4,5] are 6 apart, the surplus 3 being ignored |
| ListExamples.EmbeddedSimilarity | day1/day1.py:54-56 | the embedded lists have similarity score 31 |
| Reports.Without | day2/day2.py:87 | removing index i keeps the levels before i and shifts the ones after it down by one |
| Reports.MonotoneGentleIsSafe | day2/solution.py:54-70 | the code's three scans (non-decreasing or non-increasing, then every step of size 1 to 3) accept exactly the reports that rise or fall by 1 to 3 at every step |
| Reports.ScanNonDecreasing | day2/day2.py:57 | the loop answers true exactly when no level exceeds the next |
| Reports.ScanNonIncreasing | day2/day2.py:58 | the loop answers true exactly when no level is below the next |
| Reports.IsSafeReport | day2/day2.py:48-69 | reports with fewer than two levels are safe, and the verdict is true exactly when the report is safe |
| Reports.IsSafeByOneReport | day2/day2.py:71-91 | the verdict is true exactly when the report is safe or becomes safe with one level removed |
| Reports.SafeIsStrictlyMonotone | day2/day2.py:60-67 | the levels of a safe report are strictly increasing or strictly decreasing over any two positions |
| Reports.EqualNeighboursUnsafe | day2/day2.py:66-67 | two equal neighbouring levels make a report unsafe |
| Reports.SafeWithoutFirst | day2/day2.py:85-89 | dropping the first level of a safe report leaves it safe |
| Reports.SafeByOneIsSomeRemoval | day2/day2.py:80-89 | for a non-empty report, passing the dampener means some single removal gives a safe report; the already-safe shortcut adds nothing |
| Reports.ShortReportSafeByOne | day2/day2.py:77-78 | every report of at most two levels passes the dampener |
| Reports.Tally | day2/day2.py:97-101 | a tally never exceeds the number of reports |
| Reports.TallyCountsPassing | day2/day2.py:93-101 | the tally is the number of reports that pass the verdict |
| Reports.TallyOrdered | day2/day2.py:103-108 | the dampened count is at least the plain count and at most the number of reports |
| Reports.CountSafeReports | day2/solution.py:72-81 | the loop counts exactly the safe reports |
| Reports.CountSafeReportsByOne | day2/day2.py:103-108 | the loop counts exactly the reports that pass the dampener |
| ReportExamples.SteadySamples | day2/test_day2.py:46-51 | [7,6,4,2,1] and [1,3,6,7,9] are safe |
| ReportExamples.UnsteadySamples | day2/test_day2.py:47-50 | the four other sample reports are unsafe |
| ReportExamples.SampleRepairs | day2/test_day2.py:72-73 | removing one level repairs [1,3,2,4,5] and [8,6,4,4,1] |
| ReportExamples.LargeRiseUnrepairable | day2/test_day2.py:70 | no single removal repairs [1,2,7,8,9] |
| ReportExamples.LargeFallUnrepairable | day2/test_day2.py:71 | no single removal repairs [9,7,6,2,1] |
| ReportExamples.SampleCounts | day2/test_day2.py:95-98 | the six sample reports count 2 without and 4 with the dampener |
| ReportExamples.ShortReports | day2/test_day2.py:108-110 | [1], [1,2] and [2,1] pass the dampener |
| ReportExamples.RepairedByRemoval | day2/test_day2.py:113-114 | [1,5,2,3] and [1,2,5,3,4] pass once the 5 is removed |
| ReportExamples.ZigZagUnrepairable | day2/test_day2.py:117 | [1,5,2,6] fails the dampener |
| ReportExamples.RepeatedRunUnrepairable | day2/test_day2.py:118 | [1,2,3,1,2,3] fails the dampener |
| MemoryScanner.DecimalBound | day3/solution.py:55-65 | a numeral of at most three digits is at most 999, so the range check never fails |
| MemoryScanner.ReadString | day3/solution.py:34-40 | the read succeeds exactly when the text occurs at the cursor; it then advances past the text, and otherwise by one |
| MemoryScanner.DigitRun | day3/solution.py:55-60 | the run is all digits, at most the limit long, and stops only at a non-digit, the limit or the end |
| MemoryScanner.ReadNumber | day3/solution.py:44-67 | no number exactly when no digit lies ahead, the cursor then at the end; otherwise a value of at most 999, ending after the digits |
| MemoryScanner.ReadNumberSpan | day3/solution.py:47-65 | a successful read skips only non-digits, then reads one to three digits stopping before a non-digit or the end, and returns their decimal value |
| MemoryScanner.Iterate | day3/solution.py:81-91 | an iteration never moves the cursor back; a recorded pair was read within the text, has operands of at most 999, and consists of the operands read |
| MemoryScanner.Attempt | day3/solution.py:80-91 | each iteration moves the cursor forward, and records a pair only where `mul(` starts and at least eight characters are consumed |
| MemoryScanner.ScanFrom | day3/solution.py:80-92 | every recorded pair has operands of at most 999, and there are at most one pair per eight characters |
| MemoryScanner.SkipNoOpener | day3/solution.py:81 | text in which no `mul(` starts contributes no pair and can be skipped |
| MemoryScanner.AbsentCharNoOccurrence | day3/solution.py:38 | a word cannot occur where one of its characters is absent |
| MemoryScanner.TryInstruction | day3/solution.py:81-91 | the loop body is one iteration of the scan |
| MemoryScanner.FindValidMulInstructions | day3/solution.py:69-92 | the loop returns the pairs of the scan from index 0, all in range |
| MemoryScanner.MultiplicationSumAppend | day3/solution.py:95-96 | the sum over concatenated lists is the sum of the two sums |
| MemoryScanner.MultiplicationSumBound | day3/solution.py:95-96 | each product is at most 999·999 |
| MemoryScanner.NumberIsRead | day3/solution.py:44-65 | non-digits followed by one to three digits and then a non-digit read as that number, with the cursor after it |
| MemoryScanner.RecordedHasShape | day3/solution.py:80-91 | a recorded pair comes from `mul(`, a number, `,`, a number and `)`, with only non-digits skipped before each number |
| MemoryScanner.ShapeIsRecorded | day3/solution.py:80-91 | conversely, every such shape at the cursor is recorded, and the cursor moves to just after its `)` |
| MemoryScanner.Numeral | day3/solution.py:62-63 | every number has a decimal numeral of one or more digits that reads back as the number, and at most three digits for numbers up to 999 |
| MemoryScanner.RenderedIsRecorded | day3/solution.py:80-91 | a rendered instruction `mul(a,b)` with a, b ≤ 999 is recorded as (a, b) |
| MemoryScanner.RenderAllRoundTrip | day3/solution.py:69-92 | scanning rendered instructions gives back exactly the pairs that were rendered |
| MemoryScanner.ScanRenderAll | day3/solution.py:69-92 | the round trip from index 0 of the rendered text |
| DoFilter.FilterFrom | day3/solution.py:101-125 | the filter never emits more characters than remain, and nothing past the end |
| DoFilter.ExtractDoInstructions | day3/solution.py:101-125 | the loop computes the filter from the enabled state, no longer than the memory |
| DoFilter.FilterIsSubsequence | day3/solution.py:105-124 | the filtered text is a subsequence of the memory: characters are only dropped, never added or reordered |
| DoFilter.EnabledKeepsAll | day3/solution.py:106-116 | without a `don't()` ahead the enabled filter copies everything |
| DoFilter.DisabledDropsAll | day3/solution.py:117-124 | without a `do()` ahead the disabled filter drops everything |
| DoFilter.DontDisables | day3/solution.py:108-111 | an enabled `don't()` is dropped whole and disables the filter |
| DoFilter.DoEnables | day3/solution.py:119-121 | a disabled `do()` is dropped whole and enables the filter |
| DoFilter.EnabledCopies | day3/solution.py:112-116 | an enabled stretch without a `don't()` start is copied verbatim |
| DoFilter.DoCopiedThrough | day3/solution.py:112-116 | an enabled `do()` is kept as text |
| DoFilter.DisabledSkips | day3/solution.py:117-124 | a disabled stretch in which no `do()` starts is dropped and leaves the filter disabled |
| DoFilter.NoDontMeansNoFilter | day3/solution.py:153-155 | without any `don't()` the filtered text is the memory and Part 2 equals Part 1 |
| ScannerExamples.RejectedInputs | day3/test_day3.py:77 | the empty text, `nomulhere` and `mul[1,2]` give no pair |
| ScannerExamples.UnclosedRejected | day3/test_day3.py:78 | `mul(1,2]` gives no pair |
| ScannerExamples.ExtraArgumentRejected | day3/test_day3.py:79 | `mul(1,2,3)` gives no pair |
| ScannerExamples.MissingOperandRejected | day3/test_day3.py:80 | `mul(1)` gives no pair |
| ScannerExamples.EmptyFirstArgumentRejected | day3/test_day3.py:81 | `mul(,2)` gives no pair |
| ScannerExamples.EmptySecondArgumentRejected | day3/test_day3.py:82 | `mul(1,)` gives no pair |
| ScannerExamples.OverlongFirstOperand | day3/solution.py:55-60 | four digits after `mul(`: the number stops after three, the `,` read fails at the fourth digit, and the iteration resumes after the fourth |
| ScannerExamples.OverlongSecondOperand | day3/solution.py:87-89 | four digits after the comma: the iteration fails and resumes after the fourth |
| ScannerExamples.LongFirstOperandRejected | day3/test_day3.py:83 | `mul(1234,2)` gives no pair |
| ScannerExamples.LongSecondOperandRejected | day3/test_day3.py:84 | `mul(1,2345)` gives no pair |
| ScannerExamples.SingleInstruction | day3/test_day3.py:73 | `mul(1,2)` is recorded alone and sums to 2 |
| ScannerExamples.ThreeDigitOperands | day3/test_day3.py:74 | `mul(123,456)` gives (123, 456) |
| ScannerExamples.TwoInstructions | day3/test_day3.py:75-76 | `mul(1,2)mul(3,4)` and `mul(1,2)invalidmul(3,4)` both give the pairs (1, 2) and (3, 4) |
| ScannerExamples.PairsAround | day3/solution.py:80-92 | two instructions around text without an `m` give exactly their two pairs |
| ScannerExamples.NoInstructionSums | day3/test_day3.py:108-109 | the empty text and `nomulhere` sum to 0 |
| ScannerExamples.ZeroOperandSum | day3/test_day3.py:104 | `mul(0,5)` sums to 0 |
| ScannerExamples.SmallSums | day3/test_day3.py:105-106 | `mul(1,1)` sums to 1 and `mul(10,10)` to 100 |
| ScannerExamples.ThreeDigitSum | day3/test_day3.py:107 | `mul(100,100)` sums to 10000 |
| ScannerExamples.SkippedPrefixAccepted | day3/solution.py:47-48 | `mul(x1,2)` is recorded as (1, 2), because the number read skips the `x` |
| ScannerExamples.NestedInstructionMissed | day3/solution.py:87-89 | in `mul(1,mul(2,3)` the well-formed `mul(2,3)` is never recorded |
| ScannerExamples.SplicedAcrossDisabledText | day3/solution.py:153-155 | filtering joins `mul(1` and `,2)` across `don't()do()`: Part 1 finds nothing, Part 2 counts 2 |
| ScannerExamples.SampleScan | day3/test_day3.py:34-39 | the sample memory yields (2,4), (5,5), (11,8), (8,5), summing to 161 |
| ScannerExamples.DisabledSampleFilter | day3/solution.py:101-125 | on the Part 2 sample the filter keeps `xmul(2,4)&mul[3,7]!^` and `?mul(8,5))` and drops the text from `don't()` through `do()` |
| ScannerExamples.DisabledSampleSum | day3/solution.py:153-155 | on the Part 2 sample only (2,4) and (8,5) survive the filter, and Part 2 gives 48 |
| WordGrid.MaxLen | day4/day4.py:57 | the result bounds every row's length and is the length of some row (0 for no rows) |
| WordGrid.PadRow | day4/day4.py:58 | the row is left-justified: its characters first, then spaces up to the width, nothing cut |
| WordGrid.Pad | day4/day4.py:57-59 | the padded grid is rectangular at the longest row's width, and each cell is the row's character or a space |
| WordGrid.PadRectangular | day4/day4.py:57-58 | padding leaves a non-empty rectangular grid unchanged |
| XmasSearch.Ray | day4/day4.py:86-88 | the four letters read along the ray equal `XMAS` exactly when the word spells there |
| XmasSearch.GridHitsBound | day4/day4.py:75-92 | at most eight occurrences are recorded per cell |
| XmasSearch.FindXmas | day4/day4.py:53-54 | no rows, or an empty first row, yields no occurrence |
| XmasSearch.DirectionsAreNeighbours | day4/day4.py:63-67 | the eight directions are exactly the non-zero steps to neighbouring cells |
| XmasSearch.HitMembers | day4/day4.py:80-92 | one direction at one cell records an occurrence exactly when the word spells there |
| XmasSearch.RowHitsMembers | day4/day4.py:76-92 | a row's scan records exactly the occurrences starting in its scanned columns |
| XmasSearch.GridHitsMembers | day4/day4.py:75-92 | the grid scan records exactly the occurrences starting in its scanned rows |
| XmasSearch.GridHitsDistinct | day4/day4.py:75-92 | the grid scan records no occurrence twice |
| XmasSearch.FindXmasExactly | day4/day4.py:50-94 | the result holds exactly the occurrences of `XMAS` in the padded grid, each once, at most eight per cell |
| XmasSearch.PaddingNeverMatches | day4/day4.py:58 | an occurrence in the padded grid lies wholly within the original rows |
| XmasSearch.NoXmasWithoutX | day4/day4.py:91-92 | a grid without an `X` has no occurrence |
| XmasSearch.TooSmallForXmas | day4/day4.py:84 | a grid with fewer than four rows and columns has no occurrence |
| XmasSearch.ReadRay | day4/day4.py:86-88 | the letter loop reads the ray |
| XmasSearch.FindXmasOccurrences | day4/day4.py:50-94 | the nested loops return the occurrence list of the search |
| XmasSearch.CountXmasInGrid | day4/day4.py:96-99 | the count is the number of occurrences, at most eight per cell |
| CrossSearch.FirstFit | day4/day4.py:147-161 | the kernel found fits and no earlier kernel does; if none is found, none fits |
| CrossSearch.RowCrosses | day4/day4.py:142-161 | a row yields at most one cross per interior column |
| CrossSearch.FindXMas | day4/day4.py:104-105 | no rows, or an empty first row, yields no cross |
| CrossSearch.KernelShape | day4/day4.py:116-136 | every kernel is 3×3 with `A` in the centre, wildcards at the edge midpoints and letters at the corners |
| CrossSearch.KernelsDecideXMas | day4/day4.py:116-157 | some kernel fits a block exactly when its centre is `A` and both diagonals read `MAS` one way or the other |
| CrossSearch.CentreHitMeans | day4/day4.py:147-161 | a centre yields one cross exactly when it is an X-MAS, and never more than one |
| CrossSearch.GridCrossesMembers | day4/day4.py:141-161 | the scan records exactly the X-MAS centres of its rows, each with its first fitting kernel |
| CrossSearch.GridCrossesDistinct | day4/day4.py:141-161 | no centre is recorded twice |
| CrossSearch.GridCrossesBound | day4/day4.py:141-142 | at most one cross per interior cell |
| CrossSearch.FindXMasExactly | day4/day4.py:101-163 | the result holds exactly the X-MAS centres of the padded grid with their first fitting kernel, each once, at most one per interior cell |
| CrossSearch.SmallGridNoCross | day4/day4.py:141-142 | a grid with fewer than three rows or columns has no cross |
| CrossSearch.KernelMatches | day4/day4.py:150-157 | the cell-by-cell comparison with early exit decides whether the kernel fits |
| CrossSearch.CentreCrosses | day4/day4.py:147-161 | the kernel loop records the centre with the first fitting kernel |
| CrossSearch.FindXMasPatterns | day4/day4.py:101-163 | the nested loops return the cross list of the search |
| CrossSearch.CountXMasInGrid | day4/day4.py:165-168 | the count is the number of crosses, at most one per interior cell |
| WordSearchExamples.EmptyGrids | day4/test_day4.py:193-194 | `[]` and `[""]` hold neither pattern |
| WordSearchExamples.ForwardInRow | day4/test_day4.py:185 | `["XMAS"]` holds one occurrence |
| WordSearchExamples.DownOneColumn | day4/test_day4.py:186 | `XMAS` down one column is one occurrence |
| WordSearchExamples.TwiceInRow | day4/test_day4.py:187 | `["XMASXMAS"]` holds two occurrences |
| WordSearchExamples.TwiceDownOneColumn | day4/test_day4.py:188 | `XMAS` twice down one column is two occurrences |
| WordSearchExamples.ShortAndBlankRows | day4/test_day4.py:189-192 | `["...."]`, `["X"]`, `["XM"]` and `["XMA"]` hold none |
| WordSearchExamples.BackwardsInRow | day4/test_day4.py:89-100 | `SAMX` along a row is found once, reading leftwards |
| WordSearchExamples.SingleCross | day4/test_day4.py:273-299 | the `M.S/.A./M.S` block and its mirror image hold one cross each |
| WordSearchExamples.TwoCrossesInRow | day4/test_day4.py:374-378 | `M.S.M.S/.A...A./M.S.M.S` holds two crosses |
| WordSearchExamples.WrongCentre | day4/test_day4.py:384-388 | `M.A/.S./M.A` holds no cross |
| WordSearchExamples.BlankBlock | day4/test_day4.py:389-393 | a block of dots holds no cross |
| WordSearchExamples.TooNarrowForCross | day4/test_day4.py:394-398 | a single column `M`, `A`, `S` holds no cross |
| WordSearchExamples.TwoCrossesInColumn | day4/test_day4.py:399-407 | two crosses stacked with a dotted row between count 2 |
| WordSearchExamples.MixedDiagonals | day4/test_day4.py:434-443 | diagonals reading `MAM` and `SAS` make no cross |

## Left out

- Fetching puzzle input over HTTP, reading files, `main`, printing and logging: these are I/O. The model takes the parsed lists, reports, memory text and grid as parameters.
- `load_data`, and the split of input lines into two lists in day1/solution.py: these are parsing of I/O.
- The numpy array built from the padded grid is represented as the padded list of rows. The shape check and the 3×3 subgrid slice are indexing into it.
- day4/solution.py: it holds only stubs, so there is nothing to model.
- MemoryScanner.ReadNumber: Python's `str.isdigit` also accepts non-ASCII digits, such as superscripts and other scripts' digits. The model accepts only the ASCII digits `0` to `9`.
- MemoryScanner.ReadNumber: the final `return (None, i + 4)` can never be reached, because the scan has stopped at a digit, so at least one digit is read. The model keeps this branch as written, in NumberAt, and proves it unreachable. DecimalBound shows the range check always passes.
- Several day-4 tests in day4/test_day4.py are not written out as examples. Proving the count for a grid means walking every cell and every direction of that grid, and the proof cost grows with the grid's area. The counts follow from XmasSearch.FindXmasExactly and CrossSearch.FindXMasExactly, but they are not proved grid by grid. The tests left out are:
  - horizontal, a 3×9 grid with one occurrence (lines 38-51);
  - vertical, a 6×9 grid with one occurrence (lines 53-69);
  - diagonal, a 6×9 grid with one occurrence (lines 71-87);
  - multiple, a 3×9 grid with two occurrences (lines 104-117);
  - overlapping, rows of 10, 9 and 9 characters padded to a 3×10 grid, with two occurrences (lines 119-132);
  - the 10×10 Part 1 sample with 18 occurrences (lines 134-156 and 158-179), and its dimension check (lines 13-31);
  - all directions, a 9×9 grid with four occurrences (lines 207-228);
  - a 20×20 grid with three occurrences (lines 230-250);
  - complex overlapping, a 3×12 grid with three occurrences (lines 252-265);
  - the 10×10 Part 2 sample with 9 crosses (lines 318-340 and 342-363);
  - a 10×10 grid with two crosses (lines 456-482), which is a different grid from the Part 2 sample.
- The multiple (lines 303-316) and overlapping (lines 484-495) cross tests use the same grid as WordSearchExamples.TwoCrossesInRow, so that lemma covers them.
- WordSearchExamples.BackwardsInRow: the backwards test in day4/test_day4.py uses a grid of three rows. The example proves the one-row grid `["SAMX"]` instead.
- ScannerExamples.SampleMemory is written as a concatenation of the sample's pieces. That it equals the flat sample string is stated in its comment but not proved, because comparing a flat literal of over 70 characters with the concatenation is costly for the verifier.
- ScannerExamples.DisabledSample is written the same way, as a concatenation of the Part 2 sample's pieces. That it equals the flat sample string is stated in its comment but not proved, because comparing a flat literal of over 70 characters with the concatenation is costly for the verifier.
