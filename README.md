# Advent of Code 2023 solvers, modelled in Dafny

This project models twelve small Rust programs, one per puzzle day. Each program reads
its puzzle input and prints an answer. There is one Dafny module per day (`Day1` …
`Day11`, and `Day12Tree` for day 12's decision tree). Two shared modules stand in for
the Rust standard library pieces the programs lean on:

- `Text` models `split_once`, `split`, `split_whitespace` and `parse` on strings.
- `Sorting` is a stable insertion sort with a caller-supplied order. It stands in for
  `sort_by`, `sort_by_key` and `sort_unstable_by`.

The days, in order of depth:

- **Day 10, pipe maze.** A grid of pipe characters is decoded into routes. A navigator
  object walks the loop from the start tile one neighbour at a time.
  - The walk is proved to visit distinct tiles only, so it ends. That gives part one's
    farthest distance.
  - Part two marks every tile off the loop as surrounded or not by scanning in four
    directions for walls of the loop. The scans only look at loop tiles.
  - A flood then repeatedly picks the first not-surrounded cell of a 2-D array. It marks
    that cell checked and demotes the surrounded cells next to it. The flood is proved to
    end, to settle every cell, to leave loop tiles unclassified and never to raise the
    count.
- **Day 5, seed almanac.** Ranges map source numbers to destination numbers. Range sets
  keep their ranges non-overlapping. Intersection, merging (composition) and difference
  are proved against what the mapped numbers are. Sets are chained section by section,
  and the lowest destination start is taken at the end.
- **Day 12, spring records.** A binary tree of nodes is grown while counting arrangements.
  Unknown springs branch both ways. The count returned is proved equal to the number of
  resolutions of the unknown springs whose damaged runs have the expected lengths (no
  resolution is listed twice, so that number counts arrangements). This
  holds whatever shape the tree already had.
- **Day 7, camel cards.** Card and hand-type decoding, the joker-aware classifier,
  hand comparison, and total winnings over the stably sorted hands. The ranking is
  proved unique.
- **Day 11, cosmic expansion.** Galaxies are read in reading order. Rows, then columns,
  are expanded by the universe's age. Then the pairwise distances are summed.
- **Day 8**: the left/right node network. **Day 1**: calibration digits, spelled or not.
  **Day 3**: part numbers. **Day 2**: cube games. **Day 9**: extrapolation by
  differences. **Day 6**: boat races. **Day 4**: scratchcards.

Where the code does something other than what its puzzle describes, the model follows
the code:

- Day 5's `insert` drops the part of a new range that no existing range covers, once the
  new range overlaps anything (`Day5.UncoveredPartIsDropped`).
- Day 5's `update_intersection_with` zips two independently built sets. That pairs the
  wrong pieces once one side has lost a piece to an overlap (`Day5.ZipDropsAPiece`).
- Day 10's scan to the left pairs east-pointing bends (`L`, `F`) against west-pointing
  ones (`J`, `7`), as the column scans do. The scan to the right pairs north-pointing
  bends (`L`, `J`) against south-pointing ones (`F`, `7`). Both tables are kept as
  written, and `Day10.RowScansDisagree` shows rows on which they differ.

These lemmas describe the code as written. They are not reported as defects: whether any
of them changes an answer depends on the puzzle input, which is not part of the model.

## Model

| member | source | states |
|---|---|---|
| Text.ParseNat | day4/src/main.rs:25 | a word parses exactly when it is a non-empty run of decimal digits, optionally after a plus sign, as unsigned `parse` accepts |
| Text.SplitOnce | day4/src/main.rs:17 | `None` exactly when the pattern occurs nowhere; otherwise the text is the part before, plus the pattern, plus the rest, and the pattern does not start earlier |
| Text.SplitOnceCharacter | day4/src/main.rs:17 | on one character, `None` exactly when it is absent; otherwise the text before and after its first occurrence |
| Text.Split | day5/src/main.rs:234 | splitting on a character yields at least one piece, no piece contains the character, and joining the pieces with it gives back the text |
| Text.SplitJoin | day5/src/main.rs:234 | joining pieces that do not contain the separator and splitting again gives the same pieces back |
| Text.SplitWhitespaceGaps | day4/src/main.rs:24 | every text is its words interleaved with whitespace gaps, non-empty between two words, each word a non-empty run without whitespace |
| Text.SplitWhitespaceOfInterleave | day4/src/main.rs:24 | words interleaved with such gaps split back into exactly those words, so the words are the only sequence of maximal non-whitespace runs that spells the text |
| Text.SplitWhitespace | day4/src/main.rs:24 | every word is non-empty and free of whitespace; `SplitWhitespaceGaps` and `SplitWhitespaceOfInterleave` pin down the words and their order |
| Text.ParseAll | day4/src/main.rs:22-26 | the words parse as a whole exactly when each parses, and then the numbers are the words' values in order |
| Sorting.SortBy | day7/src/main.rs:151 | the sorted sequence is a permutation of the input |
| Sorting.SortByIsSorted | day1/src/main.rs:66 | under a total preorder the sorted sequence is ordered |
| Sorting.SortByIsStable | day7/src/main.rs:151 | the sort is stable: the elements the order ranks alike keep their input order |
| Sorting.InsertSortedIsStable | day7/src/main.rs:151 | inserting an element appends it to the elements ranked alike with it and changes no other class |
| Sorting.SortedStableIsUnique | day7/src/main.rs:151 | two sorted permutations of each other that keep every class of alike elements in the same order are equal |
| Day1.WordAt | day1/src/main.rs:24-40 | the spelled digit found at a position occurs there and is the first in word order; when none is found, no later word occurs there |
| Day1.DigitTable | day1/src/main.rs:13-42 | position i holds the digit at i: a numeral's value, the number of a spelled word starting at i, or none |
| Day1.FirstFrom | day1/src/main.rs:68 | the first digit position at or after i, and no digit before it |
| Day1.LastBefore | day1/src/main.rs:70 | the last digit position before n, and no digit after it |
| Day1.WordContainsOnlyItself | day1/src/main.rs:24-26 | no digit word occurs inside another one |
| Day1.OccurrencesDoNotOverlap | day1/src/main.rs:33-40 | two occurrences of one digit word never overlap |
| Day1.GetDigitsAndTheirIndices | day1/src/main.rs:13-21 | the entries are exactly the numeral positions with their values, in position order |
| Day1.MatchIndices | day1/src/main.rs:33-40 | each reported index is an occurrence of the word, and the occurrences do not overlap |
| Day1.MatchIndicesComplete | day1/src/main.rs:33-40 | every occurrence from the start index on is reported |
| Day1.WordMatches | day1/src/main.rs:27-31 | for any list of non-empty words, each match names a word of the list that occurs at its index |
| Day1.WordMatchesComplete | day1/src/main.rs:27-31 | when no word overlaps itself, every occurrence of every word is among the matches |
| Day1.OnlyOneWordAt | day1/src/main.rs:24-26 | at most one of the nine words occurs at any position |
| Day1.WordEntries | day1/src/main.rs:33-40 | each entry's word, numbered from one, occurs at its index |
| Day1.WordsFoundAndTheirIndices | day1/src/main.rs:27-31 | the loop collects each word match with the word's text |
| Day1.EntriesForMatch | day1/src/main.rs:33-40 | one matched word yields one entry, numbered from one |
| Day1.GetWordSpelledDigitsAndTheirIndices | day1/src/main.rs:23-42 | the entries are the word entries of the line |
| Day1.ByIndexIsTotalPreorder | day1/src/main.rs:66 | ordering entries by index is a total preorder |
| Day1.WordEntriesSound | day1/src/main.rs:23-42 | every word entry agrees with the digit table |
| Day1.MergedSoundAndComplete | day1/src/main.rs:44-51 | the merged entries are exactly the digits of the table |
| Day1.PermutationKeepsSoundAndComplete | day1/src/main.rs:66 | sorting the entries keeps them sound and complete |
| Day1.FirstEntryIsFirstDigit | day1/src/main.rs:68 | after sorting, the first entry is the first digit of the line |
| Day1.LastEntryIsLastDigit | day1/src/main.rs:70 | after sorting, the last entry is the last digit of the line |
| Day1.SortedEntriesGiveCalibration | day1/src/main.rs:57-73 | any index-ordered rearrangement of the numeral and word entries yields the line's calibration value |
| Day1.SortedEndsGiveCalibration | day1/src/main.rs:66-73 | the calibration value is ten times the first digit plus the last, or zero without digits |
| Day1.CalibrationValue | day1/src/main.rs:57-73 | the value computed for a line is its calibration value |
| Day1.SumOfCalibrationValues | day1/src/main.rs:53-76 | the sum is the total of the lines' calibration values |
| Day2.GetMaxValue | day2/src/main.rs:38-46 | the maximum bounds every value and is one of them; it is zero for no values |
| Day2.MaximumDecidesLimit | day2/src/main.rs:52-60 | the largest draw is within the limit exactly when every draw is |
| Day2.SumOfPossibleGameIds | day2/src/main.rs:48-63 | the sum adds exactly the ids of the games whose draws keep to 12 red, 14 blue and 13 green |
| Day3.IsAdjacentToSymbol | day3/src/main.rs:45-89 | the window check answers whether the cell is adjacent to a symbol |
| Day3.AdjacentIffNeighbourIsSymbol | day3/src/main.rs:49-88 | adjacency means some cell within one row and one column, inside the grid, is neither a digit nor a dot |
| Day3.RunEnd | day3/src/main.rs:20-33 | a run of digits stops at the line's end or at the first non-digit |
| Day3.NumbersFromAreTouchingRuns | day3/src/main.rs:19-40 | each number found is the value of a digit run with a digit next to a symbol |
| Day3.TouchingRunsAreNumbers | day3/src/main.rs:19-40 | each digit run next to a symbol is found |
| Day3.RunClosed | day3/src/main.rs:27-38 | a run is emitted when it ends, if any of its digits touches a symbol, and the scan goes on after it |
| Day3.NumbersOfLine | day3/src/main.rs:20-39 | scanning one row character by character yields exactly its part numbers, in order |
| Day3.ScannerExtendsRun | day3/src/main.rs:21-25 | a digit extends the pending run, which then touches a symbol when it did or the new digit does |
| Day3.ScannerClosesRun | day3/src/main.rs:27-32 | a non-digit closes the pending run, keeps its number when it touches a symbol, and starts a new run after it |
| Day3.ScannerEnds | day3/src/main.rs:34-38 | at the row's end the pending run is closed too and the row's part numbers are complete |
| Day3.GetNumbersAdjacentToSymbols | day3/src/main.rs:15-42 | the loop's numbers are the part numbers of the lines |
| Day3.SumOfPartNumbers | day3/src/main.rs:92-101 | the sum is the sum of the part numbers |
| Day4.RemoveUnnecessaryStuff | day4/src/main.rs:16-18 | no text exactly when there is no colon; otherwise the text after the first colon |
| Day4.AsVectorsOfNumbers | day4/src/main.rs:20-35 | no result without a bar; otherwise a result exactly when both halves around the first bar parse, and then the two lists are those halves' numbers |
| Day4.Matches | day4/src/main.rs:42-46 | each match is a winning number I also have, and there are no more than the winning numbers |
| Day4.MatchesConcat | day4/src/main.rs:42-46 | matching distributes over concatenation, so the matches keep the order of the winning numbers, as `filter` does |
| Day4.MatchMultiplicity | day4/src/main.rs:42-46 | a number is matched as often as it is winning, if I have it, and otherwise never |
| Day4.TotalPoints | day4/src/main.rs:37-53 | the total adds 2 to the power of (matches minus one) for each card with a match |
| Day5.OverlapsMeansCommonSource | day5/src/main.rs:45-47 | overlap is symmetric, and for non-empty ranges it means that some source lies in both |
| Day5.InsideIsCovered | day5/src/main.rs:49-51 | a range inside another has all its sources covered by it |
| Day5.Intersection | day5/src/main.rs:61-88 | `None` exactly when no destination of the first range is a source of the second; otherwise two equal-length pieces keeping each range's shift, the first piece's destinations being the second's sources, covering exactly the first range's sources whose destinations the second covers |
| Day5.MergeComposes | day5/src/main.rs:53-59 | merging the pieces of an intersection maps each source as the two ranges do in turn |
| Day5.OverlapsWith | day5/src/main.rs:44-46 | no contract of its own; `OverlapsMeansCommonSource` proves it symmetric and, for non-empty ranges, the same as sharing a source |
| Day5.IsInside | day5/src/main.rs:48-50 | no contract of its own; `InsideIsCovered` proves every source of the inner range a source of the outer one |
| Day5.Merge | day5/src/main.rs:52-58 | no contract of its own; `MergeComposes` proves the merged range maps each source as the two ranges do in turn |
| Day5.Difference | day5/src/main.rs:90-114 | the whole range when they do not overlap; otherwise at most two non-empty pieces inside the range, with its shift, none overlapping the other, covering every source of the range the other does not cover |
| Day5.InsertedKeepsValid | day5/src/main.rs:129-152 | inserting keeps the ranges non-overlapping and keeps every range already there |
| Day5.Insert | day5/src/main.rs:129-152 | the loop computes the recursive insertion |
| Day5.UncoveredPartIsDropped | day5/src/main.rs:136-146 | an overlapping new range leaves the set unchanged, even where it covers sources no range covers |
| Day5.InsertAllFacts | day5/src/main.rs:129-152 | repeated insertion stays valid, extends the set, and adds only ranges it was given |
| Day5.InsertAllKeepsLoners | day5/src/main.rs:147-149 | a range overlapping nothing before it is added |
| Day5.InsertEach | day5/src/main.rs:186-188 | inserting ranges in a loop is their repeated insertion |
| Day5.PairsAreIntersections | day5/src/main.rs:158-168 | each pair collected is the intersection of a range of each set |
| Day5.IntersectionOfSets | day5/src/main.rs:154-171 | the two sets are the insertions of the pairs' left and right pieces, in loop order |
| Day5.UpdateIntersectionWith | day5/src/main.rs:173-191 | the result inserts the zipped merges and then the set's own ranges |
| Day5.PiecesAreIntersections | day5/src/main.rs:175-176 | every piece is a left or right part of the intersection of two ranges |
| Day5.UpdatedFacts | day5/src/main.rs:173-191 | the update is valid, and each of its ranges is an original range or a merge of two pieces |
| Day5.ZipDropsAPiece | day5/src/main.rs:177-184 | with two sources sharing destinations, the zip pairs fewer pieces and a source keeps its old destination |
| Day5.SeedValues | day5/src/main.rs:197-201 | the seeds parse exactly when the section has a colon and only numbers after it |
| Day5.UnitRanges | day5/src/main.rs:202-208 | each seed becomes a length-one range mapping the seed to itself |
| Day5.SeedRangeSetPt1 | day5/src/main.rs:194-211 | the seed set is the insertion of the unit ranges, or nothing when parsing fails |
| Day5.UnitRangesAreCovered | day5/src/main.rs:194-211 | every seed is covered by the set, and every range of the set is one of the unit ranges |
| Day5.SeedPairs | day5/src/main.rs:221-228 | an even number of values gives one start/length range per pair; an odd number fails, where `values[i + 1]` panics |
| Day5.SeedRangeSet | day5/src/main.rs:213-230 | the seed set is the insertion of the paired ranges, or nothing when parsing fails |
| Day5.DisjointSeedsAreKept | day5/src/main.rs:221-228 | pairwise disjoint seed ranges all end up in the set |
| Day5.NonEmptyLines | day5/src/main.rs:234 | a line is kept exactly when it is non-empty, and no more lines than given |
| Day5.NonEmptyLinesConcat | day5/src/main.rs:234 | filtering distributes over concatenation, so the kept lines stay in input order with their repetitions, as `filter` keeps them |
| Day5.LineRange | day5/src/main.rs:236-243 | a line gives a range exactly when it parses to at least three numbers, which are destination, source and length |
| Day5.GetRangeSet | day5/src/main.rs:232-248 | the section's set is the insertion of its lines' ranges after the header, or nothing when one fails |
| Day5.Lowest | day5/src/main.rs:285-292 | the least destination start within the u64 range, and the u64 maximum when there is none |
| Day5.GetLowestLocation | day5/src/main.rs:278-293 | the answer is the lowest destination start of the chain of updated sets |
| Day6.RacesFrom | day6/src/main.rs:7-16 | the races pair times and records index by index, as long as the shorter list |
| Day6.WinningHoldsBound | day6/src/main.rs:22-29 | no more winning holds than hold times tried |
| Day6.WaysToWinBound | day6/src/main.rs:23 | at most time minus one ways, and none for a race of time zero or one |
| Day6.HoldSymmetry | day6/src/main.rs:24-26 | holding h beats the record exactly when holding time minus h does |
| Day6.WinningHoldsReflect | day6/src/main.rs:22-29 | the winning holds are symmetric about half the time |
| Day6.NumberOfWaysToBeatTheRecord | day6/src/main.rs:19-36 | the product of each race's number of winning holds, and zero for no races |
| Day7.Rank | day7/src/main.rs:57-71 | each card has a rank below thirteen |
| Day7.RankIsInjective | day7/src/main.rs:57-71 | different cards have different ranks |
| Day7.CardFrom | day7/src/main.rs:74-91 | a character decodes exactly when it is one of the thirteen card characters, to the card that prints as it |
| Day7.CardFromRoundTrip | day7/src/main.rs:74-91 | decoding a card's character gives the card back |
| Day7.TallyCounts | day7/src/main.rs:130-139 | each slot counts the copies of its card, and the joker's slot stays zero |
| Day7.TallyTotal | day7/src/main.rs:130-139 | the slots and the jokers add up to the hand's size |
| Day7.Count | day7/src/main.rs:130-139 | the counting loop gives the five largest tallies, largest first |
| Day7.CountJCards | day7/src/main.rs:141-146 | the number of jokers in the hand |
| Day7.TopCountsTotal | day7/src/main.rs:130-139 | five descending counts that, with the jokers, add up to five |
| Day7.TopCountIsLargestGroup | day7/src/main.rs:130-139 | the first count is the largest group of one non-joker card |
| Day7.PointsFollowTheRules | day7/src/main.rs:106-128 | the points computed select exactly the hand type that the joker rules give for those counts |
| Day7.HandTypeFrom | day7/src/main.rs:106-128 | the classifier's type is the hand's type |
| Day7.CompareCardsEqual | day7/src/main.rs:43-52 | hands compare equal card by card exactly when their cards are equal |
| Day7.CompareCardsFlip | day7/src/main.rs:43-52 | swapping the hands flips the outcome |
| Day7.CompareCardsTransitive | day7/src/main.rs:43-52 | the card-by-card order is transitive |
| Day7.CompareToEqual | day7/src/main.rs:38-53 | two hands compare equal exactly when their types have the same strength and their cards match |
| Day7.CompareToFlip | day7/src/main.rs:38-53 | swapping the hands flips the outcome |
| Day7.CompareCards | day7/src/main.rs:45-52 | no contract of its own; `CompareCardsEqual`, `CompareCardsFlip` and `CompareCardsTransitive` make it a total order deciding on the first differing card |
| Day7.CompareTo | day7/src/main.rs:38-53 | no contract of its own; `CompareToEqual`, `CompareToFlip` and `NotAboveIsTotalPreorder` make it a total preorder, by type first and cards second |
| Day7.NotAboveIsTotalPreorder | day7/src/main.rs:151 | "not greater" is a total preorder on hands |
| Day7.TotalWinnings | day7/src/main.rs:149-157 | the ranked hands are a sorted permutation of the input that keeps equal hands in input order, as the stable `sort_by` does, and the total adds each bid times its rank |
| Day7.RankingIsUnique | day7/src/main.rs:151 | any sorted arrangement of the hands that keeps equal hands in input order is the ranking, so the total is fixed |
| Day8.InstructionFrom | day8/src/main.rs:34-42 | only L and R decode, to left and right |
| Day8.GetInstructions | day8/src/main.rs:44-47 | decoding succeeds exactly when there is a first line and it holds only L and R, and then it is decoded character by character |
| Day8.InstructionsOf | day8/src/main.rs:46 | a line decodes exactly when each character does, in order |
| Day8.ParsedLineShape | day8/src/main.rs:53-57 | a parsed line is a name, " = ", and a bracketed "left, right" pair |
| Day8.InsertDescribes | day8/src/main.rs:58 | inserting a node keeps the map describing the lines read so far, the last line winning |
| Day8.NetworkLines | day8/src/main.rs:50-56 | the network parses exactly when there are two header lines and every later line parses |
| Day8.ParseAllLines | day8/src/main.rs:52-57 | for any line parser, the lines parse as a whole exactly when each does, in order |
| Day8.GetDirections | day8/src/main.rs:49-61 | a map exactly when every line parses, describing the lines with later entries winning |
| Day8.CountStepsUntilZzz | day8/src/main.rs:63-82 | the count is the first step reaching ZZZ from AAA, or the step where a node has no entry, or no ZZZ within the bound |
| Day8.WalkRepeats | day8/src/main.rs:69-79 | two moments with the same node and instruction position agree forever after |
| Day9.Differences | day9/src/main.rs:34-44 | one fewer value, each the difference of neighbours |
| Day9.GetDifferences | day9/src/main.rs:34-44 | the loop computes the differences |
| Day9.NextAndPreviousRecurrence | day9/src/main.rs:18-32 | the next value is the last plus the next difference, and the previous is the first minus the previous difference |
| Day9.ConstantHistory | day9/src/main.rs:18-32 | a constant history extrapolates to that constant both ways |
| Day9.ArithmeticHistory | day9/src/main.rs:18-32 | an arithmetic progression extrapolates to its next and previous terms |
| Day9.ExtrapolateNegate | day9/src/main.rs:18-24 | extrapolating the negated history gives the negated value |
| Day9.Extrapolate | day9/src/main.rs:18-24 | no contract of its own; `NextAndPreviousRecurrence`, `ConstantHistory`, `ArithmeticHistory` and `ExtrapolateNegate` state what it computes |
| Day9.ExtrapolateBackwards | day9/src/main.rs:26-32 | no contract of its own; `NextAndPreviousRecurrence` and `BackwardsIsForwardsOfReverse` make it the forward extrapolation of the reversed history |
| Day9.DifferencesOfReverse | day9/src/main.rs:34-44 | the differences of the reversed history are the reversed differences, negated |
| Day9.BackwardsIsForwardsOfReverse | day9/src/main.rs:26-32 | extrapolating backwards is extrapolating the reversed history forwards |
| Day9.SumExtrapolations | day9/src/main.rs:46-52 | the sum of the forward extrapolations |
| Day9.SumBackwardExtrapolations | day9/src/main.rs:54-60 | the sum of the backward extrapolations |
| Day10.PipeFrom | day10/src/main.rs:36-47 | a character outside `S|LJF7-` is ground; any other pipe prints as its character |
| Day10.PipeRoundTrip | day10/src/main.rs:36-47 | decoding a pipe's character gives the pipe back |
| Day10.ConnectableDirections | day10/src/main.rs:110-130 | the start connects all four ways, ground none, and every other pipe two different ways |
| Day10.SamePlaceSameRoute | day10/src/main.rs:412-429 | on a well-formed grid, two routes at the same place are the same route |
| Day10.ReadGrid | day10/src/main.rs:412-429 | the grid is the lines decoded, with row 0 the last input line |
| Day10.FindStart | day10/src/main.rs:404-410 | no start exactly when the grid has no start tile; otherwise the first start in row order |
| Day10.Neighbors | day10/src/main.rs:58-80 | up to four neighbours, each one step in its direction, and every in-grid step is among them |
| Day10.GetNeighbors | day10/src/main.rs:58-80 | the method computes the neighbours |
| Day10.DirectionTo | day10/src/main.rs:82-108 | a direction found leads from the route to the other one |
| Day10.ConnectionIsSymmetric | day10/src/main.rs:82-108 | connection is symmetric and always goes through one of the route's connectable directions |
| Day10.IsConnectedTo | day10/src/main.rs:82-108 | no contract of its own; `ConnectionIsSymmetric` and `AtMostTwoConnections` state that connection is mutual, one step long and at most two-way |
| Day10.NoUnderflowForNeighbors | day10/src/main.rs:83-89 | the unsigned subtractions in the connection test never underflow for a neighbour |
| Day10.ConnectedAmong | day10/src/main.rs:152-159 | the connected neighbours are exactly the neighbours connected to the route |
| Day10.FirstFree | day10/src/main.rs:167-175 | the first connected neighbour that is neither the start place nor the previous route, if any |
| Day10.NextOfIsConnected | day10/src/main.rs:165-177 | a next route is on the grid, connected, not the start place and not the previous route |
| Day10.NextOfIsNone | day10/src/main.rs:165-177 | no next route exactly when every connected route is the start place or the previous one |
| Day10.Navigator.constructor | day10/src/main.rs:142-150 | a navigator on the grid with current and previous both the start |
| Day10.Navigator.Next | day10/src/main.rs:165-177 | `next` returns the next route and advances current and previous, or changes nothing |
| Day10.WalkIsUnique | day10/src/main.rs:165-177 | the navigator's walk is determined by the grid and the start |
| Day10.AtMostTwoConnections | day10/src/main.rs:110-130 | a pipe other than the start connects to at most two places |
| Day10.NextIsNew | day10/src/main.rs:165-177 | with a single start, the next route is at a place the walk has not visited |
| Day10.ExtendWalk | day10/src/main.rs:165-177 | a simple walk stays simple when the navigator moves on |
| Day10.VisitedSize | day10/src/main.rs:165-177 | a simple walk and the start occupy one more place than the walk's length |
| Day10.WalkIsShort | day10/src/main.rs:165-177 | a simple walk is shorter than the grid's area, so the navigator stops |
| Day10.EndWalk | day10/src/main.rs:165-177 | when `next` gives nothing, the walk so far is the navigator's whole walk |
| Day10.CountStepsToFarthestPipe | day10/src/main.rs:180-188 | half the navigator's steps plus one |
| Day10.Column | day10/src/main.rs:190-309 | the pipes the column scans see, loop pipes only |
| Day10.Row | day10/src/main.rs:190-309 | the pipes the row scans see, loop pipes only |
| Day10.WallAbove | day10/src/main.rs:190-217 | the scan finds a wall exactly when the loop pipes in the tile's column at rows 0 to y - 1 hold a horizontal pipe, or both an east- and a west-pointing bend |
| Day10.WallToTheRight | day10/src/main.rs:219-248 | the scan finds a wall exactly when the loop pipes in the tile's row from x to the end hold a vertical pipe, or both a north- and a south-pointing bend |
| Day10.WallBelow | day10/src/main.rs:250-279 | the scan finds a wall exactly when the loop pipes in the tile's column from row y to the last row hold a horizontal pipe, or both an east- and a west-pointing bend |
| Day10.WallToTheLeft | day10/src/main.rs:281-309 | the scan finds a wall exactly when the loop pipes in the tile's row at columns 0 to x - 1 hold one, by the left table as written |
| Day10.IsSurroundedByWalls | day10/src/main.rs:310-319 | surrounded means walls on all four sides |
| Day10.RowScansDisagree | day10/src/main.rs:219-309 | the left and right row tables disagree on a `L J` and on a `L F` row |
| Day10.SurroundedMeetsTheLoop | day10/src/main.rs:310-319 | a surrounded tile has loop tiles above, right, below and left of it |
| Day10.Update | day10/src/main.rs:325-327 | setting one cell keeps the shape and changes that cell only |
| Day10.FirstZeroFrom | day10/src/main.rs:323-330 | the cell picked is the first not-surrounded cell in row order, and there is none exactly when no cell is not surrounded |
| Day10.StepLowers | day10/src/main.rs:321-351 | each flood step lowers the number of cells still to check, so the flood ends |
| Day10.FloodCell | day10/src/main.rs:321-351 | the flood only checks not-surrounded cells and demotes surrounded ones, and leaves other cells alone |
| Day10.FloodSettles | day10/src/main.rs:321-351 | after the flood nothing is left unchecked, and no surrounded cell is next to a checked one |
| Day10.MarkFirstZero | day10/src/main.rs:322-334 | the loop marks the first not-surrounded cell checked, or finds none and changes nothing |
| Day10.DemoteCandidates | day10/src/main.rs:336-348 | the cells beside the checked one that were surrounded become not surrounded |
| Day10.ResetTilesThatHaveUnsurroundedNeighbors | day10/src/main.rs:321-351 | the array ends up as the flood of its old contents |
| Day10.LoopMapHolds | day10/src/main.rs:367-372 | the loop map holds exactly the walk's places, each with its route |
| Day10.Traverse | day10/src/main.rs:367-372 | the routes collected are the navigator's walk |
| Day10.CollectLoop | day10/src/main.rs:367-372 | the loop map of the navigator's walk |
| Day10.InitialConditions | day10/src/main.rs:382-389 | off-loop tiles are surrounded or not by the walls, and loop tiles keep -1 |
| Day10.CountSurrounded | day10/src/main.rs:393-401 | the count of surrounded cells |
| Day10.InitialConditionsOf | day10/src/main.rs:374-389 | a fresh array holding the initial conditions |
| Day10.CountTilesInsideLoop | day10/src/main.rs:357-402 | the surrounded cells left after the flood of the initial conditions for the navigator's loop |
| Day10.StartIsNotOnTheLoop | day10/src/main.rs:167-169 | the navigator never yields the start place, so the start tile is classified too |
| Day10.LoopTilesStayUnset | day10/src/main.rs:382-389 | every loop tile stays -1 through the flood |
| Day10.StartTileIsClassified | day10/src/main.rs:374-389 | the start tile is classified before and after the flood |
| Day10.InsideLoopIsSettled | day10/src/main.rs:357-402 | the conditions counted are settled |
| Day10.FloodCountsNoMore | day10/src/main.rs:321-351 | the flood never adds surrounded cells |
| Day11.Distance | day11/src/main.rs:10-14 | the Manhattan distance: zero exactly for the same galaxy, and at least each axis' gap |
| Day11.DistanceSymmetric | day11/src/main.rs:10-14 | distance is symmetric |
| Day11.DistanceTriangle | day11/src/main.rs:10-14 | distance obeys the triangle inequality |
| Day11.Insert | day11/src/main.rs:31-35 | no contract of its own; `ReadInput`'s loop invariants rely on it appending the galaxy and keeping the age |
| Day11.ReadInput | day11/src/main.rs:101-113 | the universe holds the image's galaxies at the given age |
| Day11.ImageGalaxiesInReadingOrder | day11/src/main.rs:101-113 | galaxies are read in row-major order |
| Day11.ImageGalaxiesAreTheHashes | day11/src/main.rs:104-110 | a galaxy is at a place exactly when the image has `#` there |
| Day11.RowMajorIsSortedByRow | day11/src/main.rs:42-57 | reading order is sorted by row, as expanding rows needs |
| Day11.ExpandedGaps | day11/src/main.rs:42-77 | each gap between neighbouring galaxies grows by its empty lines times the age, and order is kept |
| Day11.ExpandAlongMoves | day11/src/main.rs:42-77 | each galaxy moves along the axis to its expanded coordinate and keeps the other one |
| Day11.ExpandSorted | day11/src/main.rs:44-55 | the loop expands the sorted galaxies along the axis |
| Day11.ExpandRows | day11/src/main.rs:42-57 | rows are expanded and the age kept |
| Day11.SortedByX | day11/src/main.rs:61 | sorting by x gives a permutation sorted by column |
| Day11.ExpandColumns | day11/src/main.rs:59-77 | the galaxies sorted by x are expanded along columns |
| Day11.Expand | day11/src/main.rs:37-40 | rows, then columns, with the age and the number of galaxies kept |
| Day11.RowsArePairs | day11/src/main.rs:115-126 | the nested loops' total is the sum over all unordered pairs |
| Day11.AddAllRelativeDistances | day11/src/main.rs:115-126 | the sum of the distances between all pairs of galaxies |
| Day12Tree.ConditionFrom | day12/src/tree.rs:11-18 | only `.`, `#` and `?` decode, each to the condition that prints as it |
| Day12Tree.ConditionRoundTrip | day12/src/tree.rs:11-18 | decoding a condition's character gives it back |
| Day12Tree.Step | day12/src/tree.rs:59-118 | a damaged spring always leaves a group open |
| Day12Tree.SeparatedRuns | day12/src/tree.rs:59-118 | an operational spring separates the groups before and after it |
| Day12Tree.OneRun | day12/src/tree.rs:174-201 | a run of damaged springs is one group of its length |
| Day12Tree.ResolutionsAreResolves | day12/src/tree.rs:59-118 | the resolutions are exactly the records that fix each unknown spring and keep the known ones |
| Day12Tree.ResolutionCount | day12/src/tree.rs:59-118 | there are 2 to the power of the unknown springs resolutions |
| Day12Tree.ResolutionsDistinct | day12/src/tree.rs:59-118 | no resolution is listed twice, so counting the matching entries counts arrangements |
| Day12Tree.CountMatchingPrepend | day12/src/tree.rs:59-118 | one spring taken decides where matching resumes |
| Day12Tree.MatchesFirst | day12/src/tree.rs:59-118 | the matches split by the first spring: operational, damaged, or both when unknown |
| Day12Tree.ArrangementBound | day12/src/tree.rs:59-118 | at most one arrangement per resolution |
| Day12Tree.KnownArrangement | day12/src/tree.rs:54-56 | a record with no unknown springs has one arrangement when its groups match, and none otherwise |
| Day12Tree.Visits | day12/src/tree.rs:45-123 | every call visits at least itself |
| Day12Tree.Node.constructor | day12/src/tree.rs:28-33 | a fresh leaf |
| Day12Tree.Node.Insert | day12/src/tree.rs:35-43 | the arrangement count of the record, whatever the tree held before |
| Day12Tree.Node.InsertFrom | day12/src/tree.rs:45-123 | the count carried in times the calls made, plus the arrangements completing the current groups; the children are created when missing and kept otherwise |
| Day12Tree.Node.InsertLeft | day12/src/tree.rs:125-147 | the left child exists afterwards and counts the rest with the spring operational |
| Day12Tree.Node.InsertRightPushingNewGroupLength | day12/src/tree.rs:149-172 | the right child exists afterwards and counts the rest with a new group of one |
| Day12Tree.Node.InsertRightIncrementingLastGroupLength | day12/src/tree.rs:174-201 | the right child exists afterwards and counts the rest with the last group one longer |
| Day12Tree.SumOfArrangementCounts | day12/src/main.rs:31-41 | one tree serves every record in turn, and the sum is the total of their arrangement counts |

## Left out

- Reading input files: each program's `read_input` becomes a parameter (lines, or the
  decoded grid). Printing and the progress line of day 12 are left out.
- Integer widths: the `u8`, `u16`, `u32`, `u64`, `usize`, `i32` and `i64` values are
  unbounded naturals and integers, so overflow is not modelled. The one exception is day 5,
  whose lowest location starts at the `u64` maximum.
- Day 2's regular-expression parsing (`get_matches`, `get_game_records`): games are given
  as their id and draws per colour, since regular expressions are out of reach.
- Day 7's `read_input_file` parsing of hands and bids: hands are given as cards and bid.
- Day 5's `get_range_sets_for_pt1` and `get_range_sets_for_pt2`: the hash map of sets by
  section name is given as the seed set followed by the other sets in the order of the
  section names. Hash-map iteration order is not modelled anywhere.
- Day 8's walk may loop forever: `Day8.CountStepsUntilZzz` takes a bound on the steps and
  reports running out of it.
- Sorting: Rust's sorts become the stable insertion sort in `Sorting`. `sort_unstable_by`
  can order equal elements differently, which changes no answer modelled here.
- Day 10's `get_key` string keys become the coordinate pair. Filling the condition array
  in hash-map order is modelled as filling it cell by cell, which gives the same array.
- Text: characters stand for bytes, so the input is taken to be ASCII. `IsWhitespace`
  covers the six ASCII whitespace characters only, where Rust's `split_whitespace` also
  splits on the other Unicode White_Space characters, and byte lengths (`len()`) are
  character counts.
- Day3.IsAdjacentToSymbol, and every other Day3 member (`Day3.NumbersOfLine`,
  `Day3.GetNumbersAdjacentToSymbols`, `Day3.SumOfPartNumbers` and the lemmas about them):
  require a rectangular grid, every line as long as the first. The source takes the width
  from `lines[0].len()` (day3/src/main.rs:47) and checks nothing, so ragged input, which it
  accepts, is not covered.
- Day10.FindStart, and every Day10 member that takes the grid from `Day10.Width` on
  (`Day10.Neighbors`, `Day10.Navigator`, `Day10.CountStepsToFarthestPipe`,
  `Day10.CountTilesInsideLoop` and the lemmas about them): require a non-empty rectangular
  grid with non-empty rows. The source reads the width from `route_matrix[0].len()`
  (day10/src/main.rs:61, 224, 382) and checks nothing, so ragged grids are not covered.
- Day 10's `find_starting_route` panics without a start: `Day10.FindStart` returns `None`.
- Day12Tree.Node.IsLeaf: `_is_leaf` is kept as a predicate with no contract, since the
  source never calls it.
- Day5.Insert: requires the set to be valid (no two ranges overlap). Every set built from
  the empty set keeps that (`Day5.InsertedKeepsValid`), and the termination proof needs it.
- Day11.AddAllRelativeDistances: requires at least one galaxy, because `len() - 1`
  underflows and panics on an empty universe.
- Day11.ExpandSorted: requires the galaxies sorted along the axis, because the unsigned
  gap subtraction panics otherwise. Rows are sorted by reading order, columns by the sort.
- Day11.ExpandRows: requires the galaxies sorted by row, for the same reason; `ReadInput`
  gives that order.
- Day10.CountStepsToFarthestPipe: requires a single start tile. With several, a second
  start connects four ways and the proof that the walk never revisits a place fails.
  `Day10.Traverse`, `Day10.CollectLoop` and `Day10.CountTilesInsideLoop` require the same.
- Day10.CountStepsToFarthestPipe: states half the walk plus one. That this is the farthest
  distance along a closed loop is not proved.
- Day10.FloodCountsNoMore: bounds the count by the tiles surrounded before the flood, not
  by the tiles truly inside the loop.
- Day12Tree.Node.InsertFrom: requires the previous spring not to be unknown. Every call
  passes operational or damaged, so the panic arm (line 119) is unreachable.
