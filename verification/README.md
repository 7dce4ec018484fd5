# Interval merge engine

A Dafny model of the interval merge engine in `main.go`, together with proofs about it.
The engine is the function `MERGE` and the three functions it drives:

- `ParseStringOfIntervalsToNumbersArrayOfIntervals` checks the input text. The text must consist of
  `[digits,digits]` tokens, each optionally followed by one space, and nothing else. The parser
  then applies three checks, in this order: at most 20 pairs, no number above 10000, and the first
  number of each pair below the second. It returns the flat sequence `[a1, b1, a2, b2, ...]`.
- `FindSmallestIntervalAndRemoveFromSlice` finds the first occurrence of the smallest number in the
  flat sequence. It takes out that slot and the slot after it.
- `IntervalMerger` sweeps once over the remaining pairs with a running upper bound. It absorbs every
  pair that starts strictly below that bound and keeps the others, in order.
- `MERGE` alternates extraction and merging until nothing is left. It writes the finished intervals
  as `[lo,hi]` tokens separated by single spaces.

Modules, one per file:

| module | file | models |
|---|---|---|
| `Wrappers` | wrappers.dfy | `Option` and `Result`, standing in for Go's `(value, error)` returns |
| `Intervals` | intervals.dfy | `Interval`, and the view of a flat sequence as pairs (`Pairs`, `Flatten`) |
| `Decimal` | decimal.dfy | the digit runs `strconv.Atoi` reads and `strconv.Itoa` writes |
| `Grammar` | grammar.dfy | the two regular expressions of the parser, as a recognizer `Lex` with inverse `Unlex` |
| `Parser` | parser.dfy | `ParseStringOfIntervalsToNumbersArrayOfIntervals` |
| `Extractor` | extractor.dfy | `FindSmallestIntervalAndRemoveFromSlice` |
| `Merger` | merger.dfy | `IntervalMerger`, plus a reference definition as a fold over the visited prefix |
| `Driver` | driver.dfy | `MERGE`: the round loop `Rounds`, the output text `Render`, and `Merge` |
| `Scenarios` | scenarios.dfy | the concrete cases of `main_test.go`, and an input whose output overlaps |

Main results:

- The recognizer accepts exactly the strings of the grammar. `Lex(Unlex(ts)) == Some(ts)` holds for
  every non-empty well-formed token list.
- The parser's checks run in the source's order, and the first failing pair decides the error.
  On success the result is the ascending, in-bounds pairs in textual order.
- On a sequence of ascending pairs, the first minimum always sits at an even index. The fixed
  removal of slots `m, m+1` therefore takes out one whole pair.
- The merger's result equals a prefix fold:
  - the upper bound is the maximum of the input bound and the absorbed upper bounds;
  - the remainder is the in-order list of pairs not absorbed.
- For accepted input, the output intervals are ascending, within bounds, and have strictly
  increasing lower bounds. They cover exactly the points the input covers. The output text is itself
  valid input that denotes those intervals.

The model follows the code where the code departs from a textbook interval merge:

- Touching intervals (`[1,2] [2,3]`) are not merged. The sweep absorbs only when `a < hi` holds
  strictly.
- The output may contain overlapping intervals, so merging is not idempotent.
  `Scenarios.RoundsMayOverlap` proves that `[1,5] [6,10] [4,7]` gives `[1,7] [6,10]`.
- The empty input is not an accepted empty list. It fails the format check, and `MERGE` then
  returns `""` like on any other error.

## Model

| member | source | states |
|---|---|---|
| Decimal.ValueOfDigits | main.go:160-162 | The text `strconv.Itoa` writes for a non-negative number is a canonical digit run, and reading it back gives the number |
| Decimal.DigitsOfValue | main.go:34-43 | Writing out the value of a digit run without superfluous leading zeros gives the run back |
| Decimal.Itoa | main.go:160-162 | `strconv.Itoa` writes a non-negative number as a canonical digit run that reads back as the number, and a negative one as `-` followed by the canonical digits of its magnitude |
| Grammar.DigitRunIsLongest | main.go:18-25 | A greedy `\d+` consumes only digits and stops at the first non-digit |
| Grammar.ScanToken | main.go:24-25 | A token read from the front of the text has non-empty all-digit fields |
| Grammar.ScanTokenPrefix | main.go:24-25 | What one token match consumes is exactly that token's text, with its optional space |
| Grammar.Lex | main.go:18-25 | Every accepted text is the text of a non-empty list of well-formed tokens |
| Grammar.LexUnlex | main.go:18-25 | Recognizing the text of any non-empty well-formed token list yields that list |
| Grammar.LexAcceptsLanguage | main.go:18-21 | The recognizer accepts exactly the strings of the full-string pattern, the empty string not among them, and reads each in only one way |
| Parser.Atoi | main.go:34-43 | A digit run converts to its value when that value fits in a 64-bit `int`; otherwise it gives the range error quoting the run |
| Parser.AtoiOfItoa | main.go:34-43 | Atoi reads back any number from 0 to the largest `int` from the text `strconv.Itoa` writes for it |
| Parser.MessagesDistinct | main.go:19-53 | The error texts are pairwise different: equal texts mean the same error, down to the digit run Atoi rejected |
| Parser.CheckPair | main.go:33-53 | Per pair, the checks run in the source's order: Atoi range error on the first number, then on the second, then the bound, then the ordering. Each error arises exactly under its condition, and success means `0 <= a < b <= 10000` |
| Parser.ConvertPairs | main.go:32-57 | The loop succeeds iff every pair passes. It then yields two numbers per pair, each pair's interval in textual order |
| Parser.ConvertPairsFirstFailure | main.go:32-53 | A failed loop reports the error of the first pair that fails, and all earlier pairs passed |
| Parser.ConvertPairsFails | main.go:32-53 | Conversely, when the first failing pair is at `k`, the loop fails with that pair's error |
| Parser.ConvertPairsOf | main.go:32-59 | Pairs that all pass convert to the flattened list of their intervals |
| Parser.ConvertedShape | main.go:45-56 | A converted sequence consists of ascending pairs, each within `[0, 10000]` |
| Parser.Parse | main.go:14-59 | The format error arises exactly when the text is outside the grammar, and more than 20 tokens give the count error. A success is an even sequence of 2 to 40 numbers whose pairs are ascending and within `[0, 10000]` |
| Parser.ParseChecksInOrder | main.go:28-59 | For text in the grammar with at most 20 tokens, parsing succeeds iff every pair passes. The result then holds their values in order; otherwise the first failing pair decides the error |
| Parser.ParseUnlex | main.go:14-59 | The text of at most 20 tokens that all pass parses to the flattened intervals |
| Parser.ParseUnlexFails | main.go:28-53 | The text of at most 20 tokens whose first failing pair is at `k` is rejected with that pair's error |
| Parser.ParseUnlexTooMany | main.go:27-30 | Any text of more than 20 tokens is rejected with the count error and its text, whatever its numbers |
| Extractor.MinScan | main.go:75-80 | The scan ends on an index holding the minimum, and every earlier index holds a strictly larger value |
| Extractor.FirstMinIndex | main.go:74-80 | The index found holds the minimum, and it is its first occurrence |
| Extractor.FirstMinIndexUnique | main.go:75-80 | Only one index meets the first-minimum conditions |
| Extractor.ExtractSmallest | main.go:67-96 | On empty input the result is `(0, 0, [])`. Otherwise `first` is the minimum, at its first occurrence `m`; `second` is the slot after it; and the rest is the input without slots `m` and `m+1`, two shorter |
| Extractor.ExtractIsPermutation | main.go:84-93 | The two values taken out and the rest make up the input, as a multiset |
| Extractor.ExtractAt | main.go:75-93 | At a known first minimum `m` with a slot after it, the extraction takes slots `m` and `m+1` |
| Extractor.ExtractWholePair | main.go:75-93 | On ascending pairs, the first minimum is at an even index. The extraction takes out one whole pair: the first one with the smallest lower bound. The remaining pairs keep their order and shape, and no pair starts below the extracted one |
| Extractor.ExtractCoverage | main.go:84-93 | On ascending pairs, the input covers exactly the points of the extracted pair and of the remaining pairs |
| Merger.Sweep | main.go:109-127 | The running bound never decreases. The kept pairs are input pairs starting at or above the initial bound, and ascending input stays ascending |
| Merger.MergeInto | main.go:103-130 | The lower bound comes back unchanged and the upper bound never shrinks. The remainder is even-length, no longer than the input, and made of input pairs that start at or above the input upper bound |
| Merger.Step | main.go:117-122 | Visiting one pair never lowers the running bound. A pair starting strictly below the bound lifts it to at least the pair's upper bound. The new bound is the old one or the upper bound of an absorbed pair |
| Merger.MergeIntoBounded | main.go:117-122 | The merged upper bound stays below any bound respected by the input bound and every pair |
| Merger.SweepIsFold | main.go:109-127 | The sweep's bound is the running bound after every pair. Its kept pairs are exactly the unabsorbed pairs in order, where a pair is absorbed iff it starts strictly below the running bound at its visit |
| Merger.MergeIntoIsFold | main.go:103-130 | The merger's lower bound, upper bound and remainder equal the prefix fold over all pairs |
| Merger.HiAfterGrows | main.go:117-122 | The running bound never decreases, and it reaches the upper bound of every pair absorbed so far |
| Merger.HiAfterAttained | main.go:117-122 | The running bound is the initial bound or the upper bound of some absorbed pair |
| Merger.MergeHiIsMax | main.go:115-129 | The output upper bound is the maximum of the input upper bound and every absorbed pair's upper bound |
| Merger.MergeUnchanged | main.go:115-126 | On even-length input, the remainder equals the input iff no pair starts below the input bound. A touching pair (`a == hi`) is therefore kept, and the bound is then unchanged |
| Merger.MergeDropsOddTail | main.go:110-113 | A lone trailing slot makes no difference to the result |
| Merger.KeptCoverage | main.go:109-127 | After any number of visited pairs, the working interval and the kept pairs cover exactly the points of the initial interval and the visited pairs |
| Merger.MergeCoverage | main.go:103-130 | When no pair starts below the working lower bound, merging loses and invents no point |
| Driver.Rounds | main.go:148-169 | The loop ends and emits at most one interval per input pair, and none iff the input is empty. Every interval is ascending, the lower bounds strictly increase in output order, and none is below a lower bound the input respects |
| Driver.RoundsStep | main.go:151-168 | One round emits the merged interval, and the loop continues on the merger's remainder, which keeps the pair shape |
| Driver.Format | main.go:160-162 | One output token: for non-negative bounds, the text of a well-formed input token with no space after it |
| Driver.FormatReparses | main.go:160-162 | A written interval whose bounds the parser accepts parses back to exactly that pair |
| Driver.RoundsUpperBounded | main.go:151-168 | No emitted interval exceeds an upper bound that every input pair respects |
| Driver.RoundCoverage | main.go:151-168 | One round keeps the covered points: input = finished interval plus remainder |
| Driver.RoundsCoverage | main.go:148-169 | The emitted intervals cover exactly the points the input pairs cover |
| Driver.Render | main.go:158-164 | The output text is empty iff there are no intervals |
| Driver.RenderIsUnlex | main.go:158-164 | The output text is the token text of the intervals, with a space after every token but the last |
| Driver.OutputTokensDenote | main.go:158-164 | The output tokens of ascending in-bound intervals are well formed, pass the parser's checks, and denote those intervals |
| Driver.RenderReparses | main.go:158-164 | The output text of 1 to 20 ascending in-bound intervals is in the grammar and parses back to them |
| Driver.Merge | main.go:138-171 | The output is empty exactly when the parser rejects the input |
| Driver.MergeAccepted | main.go:138-171 | For accepted input: between 1 and 20 intervals, ascending and within `[0, 10000]`, with strictly increasing lower bounds and the same covered points as the input. The output text parses back to exactly those intervals |
| Scenarios.ParseFivePairs | main_test.go:29-33 | `"[25,30] [17,23] [5,24] [33,48] [2,18]"` parses to `[25,30,17,23,5,24,33,48,2,18]` |
| Scenarios.ParseBoundExceeded | main_test.go:34-38 | `"[1,10001]"` fails the bound check, with the error text the test expects |
| Scenarios.ParseNotAscending | main_test.go:39-43 | `"[30,25]"` fails the ordering check, with the error text the test expects |
| Scenarios.ParseRejectsFormat | main_test.go:44-48 | `"invalid string format"` fails the format check, with the error text the test expects |
| Scenarios.ExtractFromMiddle | main_test.go:72 | The minimum `2` at index 2 is taken out with `19` |
| Scenarios.ExtractCases | main_test.go:73-74 | The empty input gives `(0, 0, [])`, and `[3,5]` gives `(3, 5, [])` |
| Scenarios.ExtractFromFront | main_test.go:75 | `[10,20,30,40,50,60]` gives `(10, 20, [30,40,50,60])` |
| Scenarios.MergeIntoAbsorbs | main_test.go:100-108 | `[10,20]` absorbs three pairs, reaching `25`, and keeps `[60,70]` |
| Scenarios.MergeIntoKeeps | main_test.go:109-117 | `[10,12]` absorbs nothing, and the input comes back unchanged |
| Scenarios.MergeApartPairs | main_test.go:135-138 | `"[2,5] [10,15]"` gives `"[2,5] [10,15]"` |
| Scenarios.MergeTwoPairs | main_test.go:139-142 | `"[2,7] [4,10]"` gives `"[2,10]"` |
| Scenarios.MergeRepeatedPair | main_test.go:143-146 | `"[2,7] [2,7]"` gives `"[2,7]"`: the second copy is not the first minimum, and it is absorbed |
| Scenarios.MergeEmptyInput | main_test.go:147-150 | `""` fails the format check, and the output for it is `""` |
| Scenarios.RoundsMayOverlap | main.go:109-127 | `[1,5] [6,10] [4,7]` ends as `[1,7] [6,10]`, two overlapping intervals, because `[6,10]` is passed over before `[4,7]` raises the bound |

## Left out

- `main`, and the printing of errors by `MERGE` (main.go:144, 173-177). This is console output. The error path of `Merge` returns `""`, and `Parse` keeps the error and its text (`Message`).
- The `regexp` engine. Both patterns are replaced by the recognizer `Grammar.Lex`. The tokens the pair pattern finds in a string that passed the full-string pattern are exactly the tokens `Lex` reads, in the same order.
- The width of Go's `int` is taken to be 64 bits. `strconv.Atoi`'s range error is modelled for values above `2^63 - 1`. Atoi's sign and `_` handling never applies, because the grammar admits only digits.
- Go slice aliasing: `append(intervals[:minIndex], ...)` at main.go:93 reuses the caller's array. `MERGE` never reads the old slice again, so the model uses immutable sequences.
- Extractor.ExtractSmallest: requires `CanExtract`, i.e. the first minimum is not in the last slot. Otherwise `intervals[minIndex+2:]` panics. The `second = 0` fallback (main.go:88-90) is unreachable once that slice succeeds, so it is not modelled.
- Driver.Rounds: requires the pair shape that the parser guarantees (even length, each pair ascending). The loop is not modelled on arbitrary integer sequences, where the extraction can panic.
- Driver.Render: builds the text recursively (first token, then `" "` and the rest). The source instead appends `[lo,hi]` in the first round and ` [lo,hi]` afterwards. The two give the same string.
- No disjointness, "fully merged" or idempotence claim is made about the output, because the single sweep does not guarantee it (see `Scenarios.RoundsMayOverlap`).
- The source's own example input `"[25,30] [2,19] [14,23] [4,8]"` (main.go:174) is not carried through end to end. Its extraction step is `Scenarios.ExtractFromMiddle`.
- The 21-pair literal of main_test.go:49-53 is covered by the general `Parser.ParseUnlexTooMany`, not written out.
