# CubeTime solve-time logic in Dafny

A verified model of the logic under the views of CubeTime, a speed-cubing timer. The model covers:

- how penalties (+2, DNF) change a solve's time, and the three `<` operators on solves, averages and calculated averages;
- the average of a five-solve competition-simulation ("comp-sim") group;
- reading `m:ss.cc` text as seconds, and the text-field mask that turns typed digits into that text;
- the bars of the time-distribution chart;
- the time list: sorting, filtering and deleting;
- the lists kept in step when a solve's penalty changes;
- the timer state machine: inspection, start, laps, stop, and comp-sim groups.

The source mixes two code generations: `Penalty`/`Solve`/`StopwatchManager` and `PenTypes`/`Solves`/`StopWatchManager`. Each file is modelled against its own types.

| file | module | models |
|---|---|---|
| `wrappers.dfy` | `Wrappers` | `Option`, and `Outcome`, a result that can also be a runtime trap |
| `models.dfy` | `Models` | `CubeTime/Models.swift`. `Solve` is a class, because its penalty is edited in place while several arrays share it. |
| `helper.dfy` | `Helper` | `getAvgOfSolveGroup` and `timeFromStr` of `CubeTime/Helper.swift`, with `Solves` as a value record |
| `time_mask.dfy` | `TimeMask` | `TimeMaskTextField.refilter` of `CubeTime/Helper.swift`, as a class with `text` and `userDotted` |
| `time_distribution.dfy` | `TimeDistribution` | `getDivisions` (a method with the source's loops), `getMaxHeight` and `getTruncatedMinMax` |
| `time_list.dfy` | `TimeList` | the class `TimeListManager` |
| `penalty_controller.dfy` | `PenaltyController` | the penalty extension of `StopwatchManager`, as a class over sequences of shared `Solve` objects |
| `stopwatch.dfy` | `Stopwatch` | the class `StopWatchManager`. Its mutable fields are one record, `watch`, plus `nilSolve`, which only the view reads. Each method's new state is a step function of the old state, and lemmas prove the step functions keep the timer's invariant `Consistent`. |

Some inputs come from outside the shown code. They are parameters:

- the clock (`elapsed`, `now`);
- the identity of a new persisted solve (`id`);
- `formatSolveTime`, `timeWithPlusTwoForSolve` and `Stats.sortWithDNFsLast`;
- `insertionIndex` and `insertionIndexDate`.

Each parameter has only the assumption its caller needs. For example, the sorted group is a reordering of the group, and an insertion index lies within the list.

## Model

| member | source | states |
|---|---|---|
| `Models.Solve.constructor` | CubeTime/Models.swift:127-140 | a solve holds the time, date and penalty it was made with |
| `Models.TimeIncPen` | CubeTime/Models.swift:128-132 | the time plus 2 s for a +2 penalty, otherwise the raw time, DNF included |
| `Models.TimeIncPenDnfMax` | CubeTime/Models.swift:134-139 | infinity exactly for a DNF; otherwise a finite time equal to `timeIncPen` |
| `Models.SolveLess` | CubeTime/Models.swift:142-144 | `Solve <`: the +2-adjusted times compare, so a DNF is ordered by its raw time; the order laws are proved in `SolveLessStrictWeakOrder` |
| `Models.SolveGreater` | CubeTime/Models.swift:146-149 | `Solve >`, written separately: the +2-adjusted times compare the other way; `SolveGreaterIsConverse` ties it to `<` |
| `Models.SolveGreaterIsConverse` | CubeTime/Models.swift:142-149 | `Solve >` holds exactly when `<` holds with the operands swapped |
| `Models.SolveLessStrictWeakOrder` | CubeTime/Models.swift:142-144 | `Solve <` is irreflexive, asymmetric and transitive, and incomparability is transitive |
| `Models.SolveLessOrdersDnfByRawTime` | CubeTime/Models.swift:128-144 | a DNF is ordered by its raw time against a finished solve, not placed last, although `timeIncPenDNFMax` makes it infinite |
| `Models.AverageLess` | CubeTime/Models.swift:41-46 | `Average <`: a DNF is never less; anything else is less than a DNF; otherwise the values compare |
| `Models.AverageLessDnfLast` | CubeTime/Models.swift:41-46 | a DNF average is never less than anything; a finished average is less than a DNF; two finished averages compare by value |
| `Models.AverageLessStrictWeakOrder` | CubeTime/Models.swift:41-46 | `Average <` is a strict weak order |
| `Models.CalculatedAverageLess` | CubeTime/Models.swift:14-32 | `CalculatedAverage <`: a DNF is less than a non-DNF; with the same DNF status, a present average is less than a larger or missing one, and a missing one is less than nothing |
| `Models.CalculatedAverageLessDnfFirst` | CubeTime/Models.swift:14-32 | a DNF calculated average is less than any finished one; with the same DNF status, a present average is less than a larger or missing one |
| `Models.CalculatedAverageLessStrictWeakOrder` | CubeTime/Models.swift:14-32 | `CalculatedAverage <` is a strict weak order |
| `Models.AverageOrdersDisagreeOnDnf` | CubeTime/Models.swift:14-46 | the same DNF value goes after a finished value under `Average <` and before it under `CalculatedAverage <` |
| `Models.InsertByDateDescending` | CubeTime/Models.swift:117-120 | inserting one solve into a newest-first list keeps it newest-first and adds exactly that solve |
| `Models.OrderedSolves` | CubeTime/Models.swift:117-120 | the group's solves reordered (a permutation), newest first |
| `Models.ExportName` | CubeTime/Models.swift:158-167 | nil exactly for no penalty; "PlusTwo" for +2; "DNF" for DNF |
| `Models.ExportNameInjective` | CubeTime/Models.swift:158-167 | distinct penalties export to distinct names |
| `Models.TypeName` | CubeTime/Models.swift:60-75 | the puzzle name for a standard session; "Algorithm Trainer", "Multiphase", "Playground" and "Compsim" for the other four types |
| `Models.TypeNameIdentifiesType` | CubeTime/Models.swift:60-75 | outside a standard session the type name does not read the puzzle table, and two such sessions have the same type name exactly when they have the same type |
| `Models.ShortcutName` | CubeTime/Models.swift:97-113 | the puzzle name for standard; the type name alone for playground; otherwise type name, " - ", puzzle name |
| `Models.ShortcutNameStartsWithTypeName` | CubeTime/Models.swift:97-113 | every shortcut name begins with the session's type name |
| `Helper.DnfCount` | CubeTime/Helper.swift:210 | the number of DNFs in a list is at most its length |
| `Helper.DnfCountConcat` | CubeTime/Helper.swift:210 | DNF counts add up over concatenation |
| `Helper.DnfCountPermutation` | CubeTime/Helper.swift:202-210 | reordering a list keeps its DNF count, so counting in `sorted` counts the group's DNFs |
| `Helper.GetAvgOfSolveGroup` | CubeTime/Helper.swift:192-213 | nil exactly for fewer than 5 solves; otherwise the trimmed solves are the first and last of the sorted list, the accounted solves are the sorted list, a permutation of the group, and the total penalty is DNF iff at least 2 solves are DNFs and is never +2 |
| `Helper.GroupAverageRoundTrip` | CubeTime/Helper.swift:202-209 | the average times 3 equals the sum over the accounted solves minus the two trimmed ones, whatever the group's size |
| `Helper.GroupOfFiveAverage` | CubeTime/Helper.swift:205-208 | for five solves the average is the mean of the middle three of the sorted list |
| `Helper.DigitsValueConcat` | CubeTime/Helper.swift:406 | appending digits shifts the value of the leading ones by a power of ten |
| `Helper.Split` | CubeTime/Helper.swift:405 | `components(separatedBy:)`: at least one part, no part holds the separator, and joining the parts with it gives the text back |
| `Helper.SplitWithoutSeparator` | CubeTime/Helper.swift:405 | text without the separator is a single component |
| `Helper.SplitAtSeparator` | CubeTime/Helper.swift:405 | text with one separator splits into the two texts around it |
| `Helper.ParseUInt` | CubeTime/Helper.swift:406 | a result is always below 2^64; digits below 2^64, with or without a leading '+', parse to the number they spell; after a '-' only zero parses; an empty text or a bare sign does not parse |
| `Helper.ParseUnsignedDecimal` | CubeTime/Helper.swift:407 | a parsed unsigned decimal is never negative |
| `Helper.ParseDouble` | CubeTime/Helper.swift:407 | a leading '-' negates the unsigned parse; text without a sign is the unsigned parse |
| `Helper.ParseDecimalText` | CubeTime/Helper.swift:407 | "whole.frac" parses to the whole part plus the fraction scaled by its length |
| `Helper.TimeFromStr` | CubeTime/Helper.swift:401-410 | nil exactly for empty text; traps exactly when there is a ':' and the part before it is not a `UInt` |
| `Helper.TimeFromStrSeconds` | CubeTime/Helper.swift:401-410 | without ':' the result is the parsed seconds, or 0 when they do not parse |
| `Helper.TimeFromStrMinutes` | CubeTime/Helper.swift:401-410 | "m:s" gives m × 60 plus the parsed seconds, or plus 0 when they do not parse |
| `Helper.TimeFromStrNegativeZeroMinutes` | CubeTime/Helper.swift:401-410 | minutes written as '-' and zeros are zero minutes: the result is the parsed seconds, with no trap |
| `Helper.TimeFromStrMinusZeroExample` | CubeTime/Helper.swift:401-410 | "-0:5" reads as 5 s |
| `TimeMask.OnlyDigits` | CubeTime/Helper.swift:379 | keeps only digits, never lengthens |
| `TimeMask.OnlyDigitsConcat` | CubeTime/Helper.swift:379 | the digit filter distributes over concatenation |
| `TimeMask.OnlyDigitsOfDigits` | CubeTime/Helper.swift:379 | the digit filter leaves a digit string unchanged |
| `TimeMask.StripLeadingZeros` | CubeTime/Helper.swift:380 | the result is empty or does not start with '0' |
| `TimeMask.StripLeadingZerosSuffix` | CubeTime/Helper.swift:380 | the result is a suffix of the input, and everything removed was '0' |
| `TimeMask.StripZerosPrefix` | CubeTime/Helper.swift:380 | any number of leading zeros strips away to the same text |
| `TimeMask.DigitsValueOfZerosPrefix` | CubeTime/Helper.swift:386 | zeros padded in front of digits do not change their value |
| `TimeMask.Prefix` | CubeTime/Helper.swift:381 | `prefix(n)`: a prefix of length at most n, the whole text when it is short enough |
| `TimeMask.EnteredDigits` | CubeTime/Helper.swift:378-382 | the kept digits: at most six, digits only, no leading zero |
| `TimeMask.FormatDigits` | CubeTime/Helper.swift:383-390 | the undotted layout of the entered digits: "0.0d" or "0.dd" for one or two, a '.' before the last two digits, and a ':' before the last five characters once longer than five |
| `TimeMask.FormatDigitsShape` | CubeTime/Helper.swift:383-390 | no digits give ""; one digit "0.0d"; two "0.dd"; three or four get '.' before the last two; five or six also get ':' before the last four digits |
| `TimeMask.FormatDigitsKeepsDigits` | CubeTime/Helper.swift:383-390 | from three digits on, the formatted text holds exactly the digits it was made from |
| `TimeMask.DotCount` | CubeTime/Helper.swift:336 | the dot count is zero exactly when there is no '.' |
| `TimeMask.KeepDigitsAndDots` | CubeTime/Helper.swift:350-366 | the dotted filter keeps every dot, except the first when it drops one |
| `TimeMask.FirstIndexOf` | CubeTime/Helper.swift:369 | the first index of the character |
| `TimeMask.DottedFiltered` | CubeTime/Helper.swift:350-368 | text with a '.' still has one after filtering and stripping zeros, so the force unwrap at line 369 never traps |
| `TimeMask.DotWindow` | CubeTime/Helper.swift:369-375 | the window holds the '.', is at most five characters long, and has at most two characters before the '.' |
| `TimeMask.DottedWindow` | CubeTime/Helper.swift:347-375 | the dotted branch's text holds a '.' and is at most five characters long |
| `TimeMask.UserDottedAfter` | CubeTime/Helper.swift:336-344 | `userDotted` after a refilter: set by a lone '.' or by a text of 2 to 5 characters ending in '.' with fewer than three dots; cleared when there is no dot; otherwise kept |
| `TimeMask.TimeMaskTextField.constructor` | CubeTime/Helper.swift:318-320 | the field holds its text, not dotted |
| `TimeMask.TimeMaskTextField.Refilter` | CubeTime/Helper.swift:333-394 | `userDotted` follows the typed-dot rule; a dotted text becomes its dot window; otherwise the text becomes the formatted entered digits |
| `TimeMask.InsertionsFormat` | CubeTime/Helper.swift:383-390 | the two in-place insertions and the zero padding build the formatted text |
| `TimeMask.FormatDigitsReentered` | CubeTime/Helper.swift:378-390 | the digits re-entered from a formatted text are the digits it was formatted from |
| `TimeMask.RefilterFixedPoint` | CubeTime/Helper.swift:340-393 | refiltering the non-dotted output leaves `userDotted` false and reproduces the same text |
| `TimeMask.FormatDigitsEndsInDigit` | CubeTime/Helper.swift:340-344 | formatted text is empty exactly for no digits, otherwise ends in the last digit, never in '.' |
| `TimeMask.MaskedTextParses` | CubeTime/Helper.swift:378-410 | `timeFromStr` reads any masked text back as the time its digits spell, and never traps on it |
| `TimeMask.MaskedCentisParse` | CubeTime/Helper.swift:385-386 | "0.0d" and "0.dd" read back as hundredths |
| `TimeMask.MaskedSecondsParse` | CubeTime/Helper.swift:383-384 | "s.cc" and "ss.cc" read back as seconds and hundredths |
| `TimeMask.MaskedMinutesParse` | CubeTime/Helper.swift:388-390 | "m:ss.cc" and "mm:ss.cc" read back as minutes × 60 plus the seconds |
| `TimeDistribution.Trim` | CubeTime/Stats/TimeDistribution.swift:18 | the trim is the least whole number at least a tenth of the count |
| `TimeDistribution.LayoutOf` | CubeTime/Stats/TimeDistribution.swift:13-28 | for 4 or more times: trim ≥ 1, between 4 and 8 bars, and at least two kept times, which are exactly the times between the trims; the first edge is the first kept time |
| `TimeDistribution.CountIn` | CubeTime/Stats/TimeDistribution.swift:36-40 | a bar never counts more times than there are |
| `TimeDistribution.Bars` | CubeTime/Stats/TimeDistribution.swift:32-43 | bar i is its lower edge with its tally |
| `TimeDistribution.LeastKey` | CubeTime/Stats/TimeDistribution.swift:45 | the least key of a non-empty dictionary |
| `TimeDistribution.SortedEntries` | CubeTime/Stats/TimeDistribution.swift:45 | the dictionary's entries once each, in strictly ascending key order |
| `TimeDistribution.SortedEntriesCoverAll` | CubeTime/Stats/TimeDistribution.swift:45 | every dictionary entry is listed |
| `TimeDistribution.Divisions` | CubeTime/Stats/TimeDistribution.swift:10-53 | the entries `getDivisions` returns: `[(0, 0)]` below four times; otherwise the two trimmed neighbours around the bars in ascending order of their lower edges, or a trap when a bar's range is backwards |
| `TimeDistribution.GetDivisions` | CubeTime/Stats/TimeDistribution.swift:10-53 | fewer than 4 times give `[(0, 0)]`; otherwise the first time trimmed off the bottom with the trim, the dictionary's entries by key, and the first time trimmed off the top with the trim; a bar whose range runs backwards traps |
| `TimeDistribution.TallyBars` | CubeTime/Stats/TimeDistribution.swift:32-43 | the outer loop stores each bar's tally under its lower edge, and traps exactly when some bar's upper edge is below its lower edge |
| `TimeDistribution.CountOccurrences` | CubeTime/Stats/TimeDistribution.swift:34-40 | the inner loop counts the kept times in `[lo, hi)` |
| `TimeDistribution.TrapsExactly` | CubeTime/Stats/TimeDistribution.swift:28-33 | the bars trap exactly when the width or the last bar's width is negative |
| `TimeDistribution.SortedDataNeverTraps` | CubeTime/Stats/TimeDistribution.swift:20-33 | ascending times never trap |
| `TimeDistribution.DivisionsOfRisingBars` | CubeTime/Stats/TimeDistribution.swift:32-47 | with positive width the result is the bottom entry, every bar in order, then the top entry |
| `TimeDistribution.DivisionsOfFlatBars` | CubeTime/Stats/TimeDistribution.swift:32-47 | with zero width, equal lower edges overwrite each other and one entry, the last bar's, is left between the bottom and top entries |
| `TimeDistribution.AscendingListingUnique` | CubeTime/Stats/TimeDistribution.swift:45 | two strictly ascending listings of the same entries are equal |
| `TimeDistribution.CountInSplit` | CubeTime/Stats/TimeDistribution.swift:33-40 | splitting a bar's range at an interior edge splits its count |
| `TimeDistribution.BarsTelescope` | CubeTime/Stats/TimeDistribution.swift:32-43 | the bars before the last together count the kept times from the first edge up to the last bar's edge |
| `TimeDistribution.LastUpperEdge` | CubeTime/Stats/TimeDistribution.swift:28-33 | the last bar ends at the largest kept time plus half the gap to the next time |
| `TimeDistribution.AllBarsCount` | CubeTime/Stats/TimeDistribution.swift:32-43 | all bars together count the kept times from the first edge to the last bar's upper edge |
| `TimeDistribution.KeptTimesInRange` | CubeTime/Stats/TimeDistribution.swift:20-33 | ascending kept times all lie in that range when the last bar is closed or the next time is larger |
| `TimeDistribution.BarsCountEveryTime` | CubeTime/Stats/TimeDistribution.swift:32-47 | the corrected chart, with the last bar closed, counts every kept time exactly once; so does the written chart when the first time trimmed off the top is larger than the largest kept time |
| `TimeDistribution.BarsCountAtMostKept` | CubeTime/Stats/TimeDistribution.swift:10-50 | for every ascending input, with the last bar open or closed, the chart does not trap and its bars count at most the kept times, n - 2 × trim |
| `TimeDistribution.RepeatedTopTimeDropped` | CubeTime/Stats/TimeDistribution.swift:33 | as written, times 1, 2, 3, 3 give bars counting only one of the two kept times |
| `TimeDistribution.MaxOf` | CubeTime/Stats/TimeDistribution.swift:57 | the maximum is in the list and bounds every element |
| `TimeDistribution.GetMaxHeight` | CubeTime/Stats/TimeDistribution.swift:55-63 | 4 or more counts give their maximum, never nil; fewer give 1 |
| `TimeDistribution.GetTruncatedMinMax` | CubeTime/Stats/TimeDistribution.swift:66-74 | 6 or more entries give the second and the second-to-last keys; fewer give (nil, nil) |
| `TimeDistribution.TruncatedMinMaxOfDivisions` | CubeTime/Stats/TimeDistribution.swift:10-74 | on the chart's entries: the lower edges of the first and last bars when edges rise, nil when they are flat |
| `TimeList.Precedes` | CubeTime/TimeList/TimeListView.swift:48-77 | the comparator `resort` passes to `sorted`: by date when `sortBy` is 0; otherwise by `timeWithPlusTwoForSolve` among DNFs and among non-DNFs, with DNFs after the rest when ascending and before them when descending |
| `TimeList.PrecedesIsRankOrder` | CubeTime/TimeList/TimeListView.swift:48-78 | the comparator is exactly an order on ranks: date, or DNF class and then time |
| `TimeList.InsertByRank` | CubeTime/TimeList/TimeListView.swift:48 | inserting keeps a list rank-sorted and adds exactly the inserted solve |
| `TimeList.SortByRank` | CubeTime/TimeList/TimeListView.swift:48 | a rank-sorted permutation of the input |
| `TimeList.RankSortedIsInOrder` | CubeTime/TimeList/TimeListView.swift:48-78 | a rank-sorted list never has a solve that the comparator puts before an earlier one |
| `TimeList.DateOrder` | CubeTime/TimeList/TimeListView.swift:49-54 | sorted by date: oldest first when ascending, newest first otherwise |
| `TimeList.DnfsLastWhenAscending` | CubeTime/TimeList/TimeListView.swift:62-77 | sorted by time ascending: no non-DNF follows a DNF |
| `TimeList.DnfsFirstWhenDescending` | CubeTime/TimeList/TimeListView.swift:62-77 | sorted by time descending: no DNF follows a non-DNF |
| `TimeList.TimeOrderWithinClass` | CubeTime/TimeList/TimeListView.swift:66-71 | within the DNFs and within the rest, solves are in +2-adjusted time order |
| `TimeList.Filtered` | CubeTime/TimeList/TimeListView.swift:88 | filtering never lengthens the list |
| `TimeList.FilteredMembers` | CubeTime/TimeList/TimeListView.swift:88 | a solve is shown exactly when it is in the list and its formatted time starts with the filter |
| `TimeList.FilteredConcat` | CubeTime/TimeList/TimeListView.swift:88 | filtering distributes over concatenation, so it keeps the order |
| `TimeList.EmptyFilterKeepsAll` | CubeTime/TimeList/TimeListView.swift:85-89 | the empty filter keeps every solve, so both branches of `refilter` agree |
| `TimeList.FilteredIdempotent` | CubeTime/TimeList/TimeListView.swift:84-90 | filtering twice is filtering once |
| `TimeList.FirstIndex` | CubeTime/TimeList/TimeListView.swift:41-43 | `firstIndex(of:)`: nil exactly when absent, otherwise an index of the solve with none before it |
| `TimeList.RemoveFirst` | CubeTime/TimeList/TimeListView.swift:41-44 | removing one copy of a present solve; the list itself when absent |
| `TimeList.FilteredRemoveFirst` | CubeTime/TimeList/TimeListView.swift:40-45 | deleting from all solves and then from the shown ones keeps the shown list the filtered view |
| `TimeList.FilteredRemoveAround` | CubeTime/TimeList/TimeListView.swift:40-45 | the same, for a list split at the solve's first occurrence |
| `TimeList.FilteredAround` | CubeTime/TimeList/TimeListView.swift:88 | filtering around one solve keeps it exactly when it matches |
| `TimeList.FirstIndexAfter` | CubeTime/TimeList/TimeListView.swift:41-42 | removing the first copy of a solve absent from the front removes the copy right after it |
| `TimeList.TimeListManager.constructor` | CubeTime/TimeList/TimeListView.swift:33-38 | all the session's solves, newest first, all shown, filter empty |
| `TimeList.TimeListManager.Delete` | CubeTime/TimeList/TimeListView.swift:40-45 | an absent solve changes nothing; otherwise its first copy leaves both lists, and the shown list stays the filtered view |
| `TimeList.TimeListManager.Resort` | CubeTime/TimeList/TimeListView.swift:47-81 | all solves are a permutation of the old ones, in the comparator's order, and the shown list is their filtered view |
| `TimeList.TimeListManager.Refilter` | CubeTime/TimeList/TimeListView.swift:84-90 | the shown list is the filtered view, and all solves when the filter is empty |
| `TimeList.TimeListManager.SetSortBy` | CubeTime/TimeList/TimeListView.swift:21-25 | setting `sortBy` resorts in the new order |
| `TimeList.TimeListManager.SetFilter` | CubeTime/TimeList/TimeListView.swift:26-30 | setting `filter` refilters with the new text |
| `PenaltyController.RemoveObject` | CubeTime/Timer/StopwatchManager/StopwatchManager+PenaltyController.swift:24 | one element fewer exactly when the solve is present |
| `PenaltyController.RemoveObjectContents` | CubeTime/Timer/StopwatchManager/StopwatchManager+PenaltyController.swift:24 | one copy of the solve fewer; the list unchanged when absent |
| `PenaltyController.InsertAt` | CubeTime/Timer/StopwatchManager/StopwatchManager+PenaltyController.swift:25 | one element more |
| `PenaltyController.InsertAtContents` | CubeTime/Timer/StopwatchManager/StopwatchManager+PenaltyController.swift:25 | the solve at the index, the front kept, the rest shifted back, one copy more |
| `PenaltyController.ReinsertKeepsContents` | CubeTime/Timer/StopwatchManager/StopwatchManager+PenaltyController.swift:24-25 | removing and reinserting the solve keeps the length and contents, with the solve at the index |
| `PenaltyController.InsertKeepsSorted` | CubeTime/Timer/StopwatchManager/StopwatchManager+PenaltyController.swift:25 | inserting at an insertion point keeps a list sorted by `Solve <` |
| `PenaltyController.NoDnfListAfterChange` | CubeTime/Timer/StopwatchManager/StopwatchManager+PenaltyController.swift:28-34 | how `changedPen` updates a no-DNF list: a solve that became a DNF leaves it, a DNF that became a finished solve enters it, and a change between finished penalties leaves it alone |
| `PenaltyController.NoDnfListAsWritten` | CubeTime/Timer/StopwatchManager/StopwatchManager+PenaltyController.swift:68-74 | how `changePen(solve:pen:)` updates a no-DNF list: it inserts the solve for any non-DNF penalty and removes it for a DNF, whatever the old penalty |
| `PenaltyController.NoDnfListKeepsOneCopy` | CubeTime/Timer/StopwatchManager/StopwatchManager+PenaltyController.swift:28-34 | the corrected no-DNF update keeps a solve listed once exactly when it is not a DNF |
| `PenaltyController.NoDnfListAsWrittenDuplicates` | CubeTime/Timer/StopwatchManager/StopwatchManager+PenaltyController.swift:68-70 | as written, a none↔+2 change lists the solve twice |
| `PenaltyController.StopwatchManager.constructor` | CubeTime/Timer/StopwatchManager/StopwatchManager+PenaltyController.swift:4 | the four lists as given, no solve shown, nothing open |
| `PenaltyController.StopwatchManager.ChangePenTo` | CubeTime/Timer/StopwatchManager/StopwatchManager+PenaltyController.swift:5-10 | nothing without a shown solve; otherwise it takes the penalty and the sorted and no-DNF lists change as `changedPen` says, while the by-date list, the elapsed time and both dialogs stay as they were |
| `PenaltyController.StopwatchManager.ChangedPen` | CubeTime/Timer/StopwatchManager/StopwatchManager+PenaltyController.swift:12-50 | nothing for the same penalty; otherwise the solve is reinserted (and `solves` stays sorted), popped off the by-date no-DNF list and removed from the other when it became a DNF, and appended and inserted when it stopped being one |
| `PenaltyController.StopwatchManager.ChangePenSolve` | CubeTime/Timer/StopwatchManager/StopwatchManager+PenaltyController.swift:53-85 | nothing for the same penalty; otherwise it takes the penalty, is reinserted, and is inserted into both no-DNF lists, or removed from both for a DNF |
| `PenaltyController.StopwatchManager.DeleteLastSolve` | CubeTime/Timer/StopwatchManager/StopwatchManager+PenaltyController.swift:94-113 | nothing without a shown solve; otherwise the four solve lists are those the deletion leaves, the time is zeroed, and the screen shows no solve, or the latest remaining one when previous times are shown outside comp-sim |
| `PenaltyController.StopwatchManager.AskToDelete` | CubeTime/Timer/StopwatchManager/StopwatchManager+PenaltyController.swift:115-124 | options closed; the confirmation opens only for a shown solve |
| `Stopwatch.DigitChar` | CubeTime/Timer/StopwatchManager.swift:137 | the digit character of a value below ten |
| `Stopwatch.NatToString` | CubeTime/Timer/StopwatchManager.swift:137-140 | `String(n)` of a natural number is non-empty digits |
| `Stopwatch.NatToStringValue` | CubeTime/Timer/StopwatchManager.swift:137-140 | the digits written for n read back as n |
| `Stopwatch.NatToStringRoundTrip` | CubeTime/Timer/StopwatchManager.swift:137-140 | `UInt(String(n)) == n` for every n below 2^64 |
| `Stopwatch.IntToString` | CubeTime/Timer/StopwatchManager.swift:137-140 | `String(Int)`: the decimal digits, after a '-' for a negative number |
| `Stopwatch.InspectionPenalty` | CubeTime/Timer/StopwatchManager.swift:5-6 | no penalty exactly below 15 s, DNF exactly from 17 s |
| `Stopwatch.InspectionPenaltyEscalates` | CubeTime/Timer/StopwatchManager.swift:142-146 | a longer inspection never earns a lighter penalty |
| `Stopwatch.TickPenalty` | CubeTime/Timer/StopwatchManager.swift:142-146 | the tick's penalty update: +2 at exactly 15 s, DNF at exactly 17 s, otherwise unchanged |
| `Stopwatch.TickPenaltyFollowsInspection` | CubeTime/Timer/StopwatchManager.swift:142-146 | the tick's update from the previous second's penalty is this second's penalty |
| `Stopwatch.TickText` | CubeTime/Timer/StopwatchManager.swift:132-141 | the tick's display update: with the countdown, 15 minus the seconds below 16 s, "-" at 16 s and unchanged afterwards; without it, the seconds |
| `Stopwatch.InspectionDisplay` | CubeTime/Timer/StopwatchManager.swift:133-141 | counting down past 15 s shows "-" |
| `Stopwatch.InspectionDisplaySteps` | CubeTime/Timer/StopwatchManager.swift:128-141 | the display starts at "15" or "0", and every tick's update moves it to the next second's display |
| `Stopwatch.ShowsCanStart` | CubeTime/Timer/StopwatchManager.swift:329 | the can-start colour of `longPressStart`: inspecting when inspection is on; otherwise stopped, not just stopped by a touch, with a scramble ready |
| `Stopwatch.StartsOnRelease` | CubeTime/Timer/StopwatchManager.swift:353-354 | `longPressEnd` starts the timer: not just stopped by a touch, busy or with a scramble, and inspecting when inspection is on or stopped when it is off |
| `Stopwatch.InspectsOnRelease` | CubeTime/Timer/StopwatchManager.swift:353-357 | `longPressEnd` begins inspection instead: not just stopped by a touch, inspection on, stopped with a scramble ready, and not just inspected |
| `Stopwatch.CanStartMeansStartOnRelease` | CubeTime/Timer/StopwatchManager.swift:329-355 | the long press starts the timer exactly when the can-start colour showed and no touch just stopped the timer |
| `Stopwatch.FileSolve` | CubeTime/Timer/StopwatchManager.swift:207-213 | the filed solve is the last of the last group |
| `Stopwatch.FileSolveAppends` | CubeTime/Timer/StopwatchManager.swift:207-213 | filing appends the solve to the groups' solves, in order |
| `Stopwatch.FileSolveKeepsGroupsOfFive` | CubeTime/Timer/StopwatchManager.swift:201-214 | with `currentSolveth` in step, groups stay between 1 and 5 solves; a full group rolls over to a new group of one |
| `Stopwatch.Consistent` | CubeTime/Timer/StopwatchManager.swift:125-214 | the timer's invariant: inspection shows and earns what its seconds say and a running timer carries that penalty; without inspection no penalty is earned; a multiphase solve holds one lap per phase passed, never more phases than the session has, and one phase when not running; in comp-sim `currentSolveth` is the last group's size |
| `Stopwatch.Inspection` | CubeTime/Timer/StopwatchManager.swift:125-130 | `startInspection`: no penalty, zero seconds, "15" or "0" shown, inspecting |
| `Stopwatch.AfterTick` | CubeTime/Timer/StopwatchManager.swift:131-147 | one inspection second: the seconds count up, and the display and penalty follow `TickText` and `TickPenalty` |
| `Stopwatch.Started` | CubeTime/Timer/StopwatchManager.swift:163-183 | `start`: running from zero, showing the formatted zero, or "..." when the running time is hidden |
| `Stopwatch.Rescrambled` | CubeTime/Timer/StopwatchManager.swift:393-399 | `rescramble`: the shown scramble becomes the previous one, and none is shown |
| `Stopwatch.StopSolve` | CubeTime/Timer/StopwatchManager.swift:186-238 | the solve `stop` saves: the typed time or the clock reading, the current penalty, the date, the previous scramble after a timed solve or the shown one after a typed time, and the laps of a multiphase solve |
| `Stopwatch.Saved` | CubeTime/Timer/StopwatchManager.swift:198-239 | the timer after saving: stopped showing the solve's time, the solve shown and appended, filed into a group in comp-sim, and the laps reset in multiphase |
| `Stopwatch.AfterStop` | CubeTime/Timer/StopwatchManager.swift:186-247 | `stop`: the solve is saved, and a typed time rescrambles |
| `Stopwatch.AfterTouchDown` | CubeTime/Timer/StopwatchManager.swift:262-296 | `touchDown`: nothing unless running; a lap before the last phase of a multiphase solve; otherwise the last lap (multiphase) and a stop at the clock reading |
| `Stopwatch.LapTaken` | CubeTime/Timer/StopwatchManager.swift:272-280 | a lap before the last phase: the phase count goes up and the reading is appended |
| `Stopwatch.Finishing` | CubeTime/Timer/StopwatchManager.swift:281-293 | a touch that ends the solve, before the stop: the last lap of a multiphase solve, gestures on, the stop flag set |
| `Stopwatch.AfterTouchUp` | CubeTime/Timer/StopwatchManager.swift:299-321 | `touchUp`: inspection begins on a release while stopped with a scramble ready, inspection on, and not right after a stopping touch; the penalty options close and the stop flag clears |
| `Stopwatch.AfterLongPressEnd` | CubeTime/Timer/StopwatchManager.swift:339-365 | `longPressEnd`: the penalty options close and the stop flag clears; the timer starts and rescrambles under `StartsOnRelease`, or else inspection begins under `InspectsOnRelease` |
| `Stopwatch.TickKeepsConsistent` | CubeTime/Timer/StopwatchManager.swift:131-147 | an inspection tick keeps the timer consistent |
| `Stopwatch.InspectionKeepsConsistent` | CubeTime/Timer/StopwatchManager.swift:125-130 | starting inspection, when on and not running, keeps the timer consistent |
| `Stopwatch.StopKeepsConsistent` | CubeTime/Timer/StopwatchManager.swift:186-247 | stopping keeps the timer consistent |
| `Stopwatch.StopKeepsGroupsOfFive` | CubeTime/Timer/StopwatchManager.swift:201-214 | a comp-sim stop never grows a group past five |
| `Stopwatch.StopSavesSolve` | CubeTime/Timer/StopwatchManager.swift:186-247 | the saved solve is shown, appended to the session and to the groups, and the timer stops at its time |
| `Stopwatch.TouchDownKeepsConsistent` | CubeTime/Timer/StopwatchManager.swift:262-296 | a touch keeps the timer consistent |
| `Stopwatch.TouchDownSavesOrLaps` | CubeTime/Timer/StopwatchManager.swift:217-294 | a touch on the running timer laps exactly before a multiphase solve's last phase; otherwise it saves the solve with the inspection penalty and the previous scramble, and a multiphase solve holds exactly `phase_count` laps |
| `Stopwatch.TouchUpKeepsConsistent` | CubeTime/Timer/StopwatchManager.swift:299-321 | a release keeps the timer consistent |
| `Stopwatch.LongPressEndKeepsConsistent` | CubeTime/Timer/StopwatchManager.swift:339-365 | the end of a long press keeps the timer consistent |
| `Stopwatch.LongPressEndStartsWhenShown` | CubeTime/Timer/StopwatchManager.swift:324-365 | the end of a long press starts the timer exactly when the can-start colour showed |
| `Stopwatch.StopWatchManager.constructor` | CubeTime/Timer/StopwatchManager.swift:63-75 | stopped at zero, scramble requested, `currentSolveth` the last group's size in comp-sim, `nilSolve` set (line 123); consistent |
| `Stopwatch.StopWatchManager.TryUpdateCurrentSolveth` | CubeTime/Timer/StopwatchManager.swift:81-90 | in comp-sim, the last group's size or 0; otherwise nothing changes |
| `Stopwatch.StopWatchManager.StartInspection` | CubeTime/Timer/StopwatchManager.swift:125-130 | no penalty, zero seconds, the start display, inspecting |
| `Stopwatch.StopWatchManager.InspectionTick` | CubeTime/Timer/StopwatchManager.swift:131-147 | one second more, display and penalty stepped, consistency kept |
| `Stopwatch.StopWatchManager.InterruptInspection` | CubeTime/Timer/StopwatchManager.swift:150-158 | stopped, seconds and time zeroed, not just inspected |
| `Stopwatch.StopWatchManager.Start` | CubeTime/Timer/StopwatchManager.swift:163-183 | running from zero; "..." when the running time is hidden |
| `Stopwatch.StopWatchManager.RunningTick` | CubeTime/Timer/StopwatchManager.swift:176-179 | the clock reading shown; consistency kept |
| `Stopwatch.StopWatchManager.Stop` | CubeTime/Timer/StopwatchManager.swift:186-247 | the new state is the step function `AfterStop`, whose properties `StopKeepsConsistent` and `StopSavesSolve` state |
| `Stopwatch.StopWatchManager.Lap` | CubeTime/Timer/StopwatchManager.swift:257-259 | the clock reading joins the phase times |
| `Stopwatch.StopWatchManager.TouchDown` | CubeTime/Timer/StopwatchManager.swift:262-296 | the new state is `AfterTouchDown`; consistency kept |
| `Stopwatch.StopWatchManager.TouchUp` | CubeTime/Timer/StopwatchManager.swift:299-321 | inspection begins on a qualifying release; options close, stop flag clears; consistency kept |
| `Stopwatch.StopWatchManager.LongPressEnd` | CubeTime/Timer/StopwatchManager.swift:339-365 | start and rescramble, or begin inspection, as the release rules say; options close, stop flag clears; consistency kept |
| `Stopwatch.StopWatchManager.Rescramble` | CubeTime/Timer/StopwatchManager.swift:393-403 | the shown scramble becomes the previous one, and none is shown |
| `Stopwatch.StopWatchManager.DeliverScramble` | CubeTime/Timer/StopwatchManager.swift:417-419 | the generated scramble is shown |
| `Stopwatch.StopWatchManager.DisplayPenOptions` | CubeTime/Timer/StopwatchManager.swift:443-455 | options open, stop flag clears, and `nilSolve` holds exactly when no solve is shown; consistency kept |
| `Stopwatch.StopWatchManager.AskToDelete` | CubeTime/Timer/StopwatchManager.swift:457-469 | options close, stop flag clears, the confirmation opens only for a solve; consistency kept |

## Left out

- SwiftUI views, colours, animations, haptics, `UserDefaults` and logging are left out. Only the state they sit beside is modelled.
- CoreData is left out: `save`, fetches, and the `NSOrderedSet` relationships are plain sequences. A new persisted solve's identity is the parameter `id`.
- Timers, `Date()`, `timeIntervalSinceNow` and `DispatchQueue` are left out. Clock readings are parameters (`elapsed`, `now`), and each timer body is a method called once per tick (`InspectionTick`, `RunningTick`). `touchDown` reads the clock once for both the lap and the stop; the source reads it twice.
- Scramble generation, the SVG and the work item's check that the scramble type is unchanged are left out. The work item finishing is `DeliverScramble`.
- `formatSolveTime`, `timeWithPlusTwoForSolve`, `Stats.sortWithDNFsLast`, `insertionIndex(of:)`, `insertionIndexDate(solve:)` and `remove(object:)` are not part of this model. They are parameters or stated assumptions:
  - `remove(object:)` removes the first occurrence;
  - the sorted group is a reordering of the group;
  - an insertion index lies within the list.
  - `ChangedPen` proves `solves` stays sorted only when the index is an insertion point.
- `formatSolveTime` ignores the `dp:` argument. `InterruptInspection` and `RunningTick` pass it in the source.
- Times are exact reals, not `Double`. `Int(ceil(Double(cnt) * 0.1))` is `(cnt + 9) / 10`, which the floating computation can exceed by one for some multiples of ten. `Double(_:)` parses plain decimals only: no exponents, `inf` or `nan`.
- `String.isNumber` counts ASCII digits only, and `String(Int)` is decimal ASCII.
- `sorted(by:)` is not stable. `resort` and `orderedSolves` are modelled by one stable insertion sort, and the contracts state only the order and the permutation, which hold for any sorted result.
- `Stats`, `updateStats`, `getBestAverage`, `getMin`, `getAveragePhases` and the `bestAo*`/`bestSingle`/`phases` fields they feed are left out. They are code that is not part of this model.
- `changedPen()` of `StopWatchManager` (CubeTime/Timer/StopwatchManager.swift:377-385) only redraws the time text, so it is left out.
- `changeCurrentSession` (433-439) is left out. The session is a constant of the timer.
- `longPressStart` is modelled only as its condition (`ShowsCanStart`), because it changes nothing but the colour.
- `deleteLastSolve` takes, as parameters, the four solve lists as `delete(solve:updateStats:)` leaves them, because that call is not part of this model.
- `changedPen` also sets `secondsStr` from `formatSolveTime` (CubeTime/Timer/StopwatchManager/StopwatchManager+PenaltyController.swift:18-22) and reloads the time list row. Neither is modelled: the text comes from code that is not part of this model.
- PenaltyController.StopwatchManager.DeleteLastSolve: the new `secondsStr` (line 111) and the `tryUpdateCurrentSolveth()` call (line 112) are not modelled. The text is `formatSolveTime` output, and this generation's `currentSolveth` and session are not part of this model. The `poppedSolve` stats task and `statsGetFromCache()` are left out with `Stats`.
- `ChangedPen` models the `assert(popLast() == solveItem)` of a debug build: the caller must ensure the last by-date no-DNF solve is the shown one, and the pop happens. A release build evaluates neither.
- Array indexing that would trap (`PUZZLE_TYPES[...]`, the insertion indices) is a precondition. The traps of `timeFromStr` and of a backwards chart range are modelled with `Outcome.Trap`.
- Stopwatch.StopWatchManager.Stop: its contract is only the step function `AfterStop`. That the timer stays consistent is stated by the lemma `StopKeepsConsistent`, not by the method.
- Stopwatch.StopWatchManager.StartInspection: consistency is promised only with inspection on and the timer not running, the only way the source calls it.
- Stopwatch.StopWatchManager.InterruptInspection: consistency is promised only when the timer was not running, because it does not reset the multiphase laps.
- Stopwatch.StopWatchManager.Start: consistency is promised only from inspection or with inspection off, the two ways `longPressEnd` calls it.
- Models.TypeName: `String(localized:)` is taken as the identity. The English keys stand for the localised names, which depend on the user's language.
- TimeMask.TimeMaskTextField.Refilter: the dotted branch is specified by its window (`DottedWindow`), and no round trip is proved for it.

## Findings

| source | as written | input that shows it | evidently intended | confidence | as-written member | corrected member |
|---|---|---|---|---|---|---|
| CubeTime/Stats/TimeDistribution.swift:33 | the last bar is the half-open range `fd ..< fd + div_incr + (ild - ld)/2` | times 1, 2, 3, 3: the kept times are 2 and 3, the first time trimmed off the top is also 3, so the widening is 0 and the 3 on the last bar's upper edge falls in no bar | the widening puts the largest kept time inside the last bar, so every kept time is counted | not executed | `TimeDistribution.RepeatedTopTimeDropped` | `TimeDistribution.BarsCountEveryTime` |
| CubeTime/Timer/StopwatchManager/StopwatchManager+PenaltyController.swift:68-70 | any change to a non-DNF penalty inserts the solve into both no-DNF lists | a solve with no penalty, listed once in `solvesNoDNFs`, changed to +2: it is now listed twice | insert only when the old penalty was DNF, as `changedPen` does at lines 31-34 | not executed | `PenaltyController.NoDnfListAsWrittenDuplicates` | `PenaltyController.NoDnfListKeepsOneCopy` |
