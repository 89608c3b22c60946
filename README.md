# Advent of Code 2023 solutions, modelled in Dafny

This project models the puzzle solvers of a TypeScript repository of
Advent of Code 2023 solutions, days 1 to 11 and 14 to 21, together with the two shared
utilities they lean on: the `Grid` class (`src/utils/Grid.ts`), a flat list of cells read in rows of a fixed width,
and the prime-factor least common multiple (`utils/least-common-multiple.ts`).
Each solver is modelled in the form its source takes:

- Pure computations become datatypes, functions and lemmas. Examples are the
  calibration digits (day 1), cube games (day 2), engine parts (day 3),
  scratchcards (day 4), the boat races (day 6), the
  poker-like hand scoring with and without jokers (day 7), the HASH
  algorithm (day 15), the lagoon polygon (day 18) and the workflows (day 19).
- Loops that update variables become methods with loop invariants, proved
  against those functions. Examples are `getRows`, `getPrimeFactors`,
  `hashSequence`, the history extrapolation (day 9) and the breadth-first
  walks of days 16, 17 and 21.
- Objects whose methods change their fields become classes with `modifies`
  frames. These are the seeds and seed ranges (day 5), the pipe maze grid (day 10), the universes (day 11), the
  tilting platform (day 14), the lens boxes (day 15), the ghosts (day 8) and
  the pulse modules (day 20). `Grid`'s own methods only read its
  cells, so it is a datatype; the subclasses that change cells are classes.

Every file holds one or more modules, one per source file (or per day where
two source files are copies of each other); `common.dfy` holds shared
helpers (an `Option` type, sums, counting).

Numbers are Dafny's unbounded integers. JavaScript's `NaN` and `undefined`
appear as explicit `Option` values or result cases where the source can
produce them. Loops that the source runs "until done" (`while (true)`, a
predicate-driven loop) take a `fuel` bound, and report whether they finished.


## Model

| member | source | states |
|---|---|---|
| Grids.IndexToCoordinate | src/utils/Grid.ts:140-156 | for a non-negative index the column lies in [0, columns), the row is non-negative, and `coordinateToIndex` of the result gives the index back |
| Grids.CoordinateToIndex | src/utils/Grid.ts:140-142 | `row * columns + column`; `CoordinateRoundTrip` states the round trip with `IndexToCoordinate` |
| Grids.CoordinateRoundTrip | src/utils/Grid.ts:140-156 | an in-range coordinate survives the trip to an index and back |
| Grids.CellPosition | src/utils/Grid.ts:96-111 | on a rectangular grid a cell's row is in range, and the up and down tests of `getNeighbors` hold exactly off the first and off the last row |
| Grids.GetNeighbors | src/utils/Grid.ts:96-126 | a direction is present iff the step stays on the grid (up: `index - columns >= 0`, down: `index + columns < length`, left: `x > 0`, right: `x < columns - 1`), and a present neighbour carries an in-range index and the cell found there |
| Grids.NeighborIsOneStep | src/utils/Grid.ts:96-126 | a neighbour's coordinate differs by one along its direction's axis only |
| Grids.NeighborSymmetric | src/utils/Grid.ts:96-126 | `j` is `i`'s neighbour in direction `d` iff `i` is `j`'s neighbour in the opposite direction |
| Grids.Iterate | src/utils/Grid.ts:66-81 | the iterator yields exactly the present neighbours, each with its direction, in the order up, right, down, left |
| Grids.NeighborCount | src/utils/Grid.ts:66-126 | on a grid of at least 2×2 cells, a cell has four neighbours minus one per border it touches |
| Grids.GetRows | src/utils/Grid.ts:128-136 | the rows flatten back to the grid; each has 1 to `columns` cells and all but the last exactly `columns`; on a rectangular grid every row is full |
| Lcm.LastDivisorTestIsOddFrom5 | src/utils/least-common-multiple.ts:14-22 | the "is prime" flag left by the inner loop (only its last test survives, `undefined` when it never runs) accepts exactly the odd numbers from 5 upwards |
| Lcm.DivisorTest | src/utils/least-common-multiple.ts:14-18 | the inner loop's flag equals the closed form `LastDivisorTest` |
| Lcm.GetPrimeFactors | src/utils/least-common-multiple.ts:5-29 | the pushed divisors equal `FactorsFrom(integer, 2)`: each divisor that divides the remaining value and passes the flag test is taken and divided out once |
| Lcm.FactorsFromOrdered | src/utils/least-common-multiple.ts:9-26 | the factors found are strictly increasing, odd and at least 5, so 2 and 3 never appear |
| Lcm.FactorsFromDivide | src/utils/least-common-multiple.ts:9-26 | the product of the factors found divides the input |
| Lcm.FactorsOfFour | src/utils/least-common-multiple.ts:9-26 | no factor at all is found for 4 |
| Lcm.GroupNumbers | src/utils/least-common-multiple.ts:31-37 | the grouping maps each number of the list to its count |
| Lcm.MergeHighestPowers | src/utils/least-common-multiple.ts:60-72 | the merged map is `HighestPowers` of the groups, whatever order a group's keys are visited in |
| Lcm.HighestPowersAbove | src/utils/least-common-multiple.ts:60-72 | every factor of every group is in the merged map with at least that group's power |
| Lcm.HighestPowersAttained | src/utils/least-common-multiple.ts:60-72 | every merged power is the exact power of that factor in some group |
| Lcm.ProductOfPowers | src/utils/least-common-multiple.ts:77-84 | the final reduce is the product of `factor^power` over the map, independent of key order (`PowerProductPick`) |
| Lcm.CalculateLeastCommonMultipleAsWritten | src/utils/least-common-multiple.ts:41-87 | the result of the pipeline with the original `getPrimeFactors` |
| Lcm.FactorProductDividesLcmAsWritten | src/utils/least-common-multiple.ts:41-87 | the as-written result is a multiple of the product of each input's found factors |
| Lcm.LcmAsWrittenOfFour | src/utils/least-common-multiple.ts:9-26 | the as-written "least common multiple" of `[4]` is 1, which 4 does not divide |
| Lcm.GetFactors | src/utils/least-common-multiple.ts:5-29 | the corrected factoring is trial division: the factors are at least 2 and multiply back to the input (`TrialFactorsProduct`, `TrialFactorsAtLeastTwo`) |
| Lcm.TrialFactorsProduct | src/utils/least-common-multiple.ts:5-29 | the corrected factors multiply back to the value |
| Lcm.CalculateLeastCommonMultiple | src/utils/least-common-multiple.ts:41-87 | with the corrected factoring, every positive input divides the result |
| Lcm.LcmIsCommonMultiple | src/utils/least-common-multiple.ts:41-87 | the corrected result is a common multiple of the positive inputs |
| Calibration.DigitsAreDigits | src/01/part-1.ts:10 | `replace(/\D/g, '')` keeps only digit characters |
| Calibration.DigitsAppend | src/01/part-1.ts:10 | the filter distributes over concatenation, so the digits keep their order in the line |
| Calibration.CalibrationValue | src/01/part-1.ts:11 | first and last digit read as a number: defined iff there is a digit (otherwise `NaN`), and then between 0 and 99 |
| Calibration.SingleDigit | src/01/part-1.ts:11 | a single digit counts as both first and last: `d` gives `11 * d` |
| Calibration.SolutionBounds | src/01/part-1.ts:6-17 | the total is a number iff every line holds a digit, and then lies between 0 and 99 per line |
| Calibration.FindSolution | src/01/part-1.ts:6-17 | sums `CalibrationValue` over the lines, undefined (`NaN`) as soon as one line has no digit; `SolutionBounds` states when it is a number and bounds it by 99 per line |
| CalibrationWords.DigitOf | src/01/part-2.ts:8-27 | every lookup value is one of the digits 1-9 |
| CalibrationWords.ReplaceWordsWithNumbers | src/01/part-2.ts:31-48 | the loop that drops one character at a time computes `Converted`: at each offset, the value of the first alternative the rest of the line starts with |
| CalibrationWords.ConvertedIsDigits | src/01/part-2.ts:31-48 | the converted line holds only the digits 1-9 |
| CalibrationWords.MatchDigit | src/01/part-2.ts:6-7 | a line starting with a digit 1-9 contributes exactly that digit |
| CalibrationWords.ConvertedDigits | src/01/part-2.ts:31-48 | a line of digits 1-9 only is left unchanged |
| CalibrationWords.AgreesWithDigits | src/01/part-2.ts:31-48 | on a line without letters and zeros, the conversion reads the same digits as part 1's filter |
| CalibrationWords.Overlapping | src/01/part-2.ts:31-48 | words that share a letter both count: "eightwo" becomes "82" |
| CalibrationWords.NoMatchLetters | src/01/part-2.ts:6-7 | a line that starts with no table entry contributes nothing |
| CalibrationWords.LineTotal | src/01/part-2.ts:50-58 | a line's value, when defined, lies between 11 and 99 (no zero digit can appear) |
| CalibrationWords.PartsAgree | src/01/part-2.ts:50-58 | on input without letters and zeros both parts give the same answer |
| CalibrationWords.FindSolution | src/01/part-2.ts:50-56 | sums `LineTotal` of the converted lines; `PartsAgree` ties it to the first part's answer on input without spelled-out digits |
| CubeGames.ParseSetHolds | src/02/part-1.ts:29-34 | the record of a set holds each listed colour, with the count of the last cube of that colour |
| CubeGames.ParseSetKeys | src/02/part-1.ts:29-34 | a colour is a key of the record iff some cube of the set has it |
| CubeGames.IsValidGame | src/02/part-1.ts:14-21 | a game is valid when every set it shows fits within the limits of the bag; `SumBounds` bounds the sum of the valid games' numbers |
| CubeGames.SumBounds | src/02/part-1.ts:14-21 | the sum of the valid games' 1-based numbers lies between 0 and `1 + … + n`; it is the full triangle when every game fits the 12/13/14 bag and 0 when none does |
| CubeGames.MaxCountIsMaximum | src/02/part-2.ts:21-27 | a colour's running maximum is at least every set's count, and is 0 or one of those counts |
| CubeGames.FewestCubes | src/02/part-2.ts:14-30 | the maxima make a bag that admits every set, and every bag that admits every set is at least as large in each colour |
| CubeGames.RaiseMaxima | src/02/part-2.ts:22-26 | visiting one set raises each colour's maximum to the set's count when that is larger, and leaves it otherwise |
| CubeGames.FindDiceCount | src/02/part-2.ts:14-30 | the product of the three maxima, `Power(sets)` |
| CubeGames.PowerWithoutColor | src/02/part-2.ts:14-30 | a game in which some colour never shows has power 0 |
| CubeGames.SumOfPowers | src/02/part-2.ts:47-51 | the answer is the sum of the games' powers |
| EngineParts.NeighboursAreAround | src/03/part-1.ts:6-36 | the coordinates collected are exactly those of the eight surrounding cells whose row exists and whose column exists in the cell's own row |
| EngineParts.IsSymbol | src/03/part-1.ts:41-43 | a symbol is any character other than a digit and `.`, and a missing cell counts as one; used by `AdjacentIff` |
| EngineParts.AdjacentIff | src/03/part-1.ts:6-43 | a cell touches a symbol iff one of those surrounding cells is a symbol (not a number and not `.`; a missing cell counts) |
| EngineParts.AdjacentToSymbol | src/03/part-1.ts:6-39 | the collected neighbour cells contain a symbol; `AdjacentIff` states it as some in-grid cell within one step holding a symbol |
| EngineParts.RunEndDigits | src/03/part-1.ts:50-68 | a digit run extends over digits only and stops at a non-digit or the end of the row |
| EngineParts.CloseRun | src/03/part-1.ts:50-74 | a non-digit or the end of the row closes the current run, which is reported iff one of its digits touches a symbol |
| EngineParts.GetPartsFromRow | src/03/part-1.ts:45-77 | the cell-by-cell scan returns `RowParts`: the numbers of the row's digit runs that touch a symbol, left to right |
| EngineParts.SumOfParts | src/03/part-1.ts:79-92 | the answer is the sum of every row's part numbers, in row order |
| EngineParts.PlainHasNoParts | src/03/part-1.ts:45-77 | a rectangular schematic of digits and `.` only has no part numbers |
| GearRatios.RunStartDigits | src/03/part-2.ts:10-13 | the leftward walk stops at the first cell of the digit run |
| GearRatios.GetNumberAt | src/03/part-2.ts:6-23 | the two walks read the whole digit run through the column, `NumberAt` |
| GearRatios.SameRunSameNumber | src/03/part-2.ts:6-23 | any digit of a run reads the same number |
| GearRatios.GearAt | src/03/part-2.ts:25-37 | a `*` cell's part numbers when exactly two are adjacent; `PresentMembers` states which ratios are listed |
| GearRatios.DiagonalJoinsCentre | src/03/part-2.ts:50-63 | when the cell straight above (or below) is a digit, a diagonal digit beside it belongs to the same number, so skipping the diagonals loses nothing |
| GearRatios.DiagonalsApart | src/03/part-2.ts:56-62 | when the cell straight above (or below) is not a digit, the two diagonal digits belong to different runs |
| GearRatios.PartsForGear | src/03/part-2.ts:39-91 | the numbers read above, below, left and right of a cell, with the diagonal readings dropped when the cell straight above or below is a digit; `DiagonalJoinsCentre` and `DiagonalsApart` justify the drop |
| GearRatios.PresentMembers | src/03/part-2.ts:93-105 | a ratio is listed iff some cell of the row is a `*` with exactly two numbers having that ratio |
| GearRatios.GetGearRatiosForRow | src/03/part-2.ts:93-105 | the row's ratios are those of its `*` cells with exactly two neighbouring numbers, left to right |
| GearRatios.SumOfGearRatios | src/03/part-2.ts:107-120 | the answer is the sum of every row's gear ratios, and is non-negative |
| Scratchcards.MatchingIsCommon | src/04/part-1.ts:21-25 | the filtered numbers are exactly the winning numbers the player also has, each kept as often as it is listed among the winning numbers |
| Scratchcards.CountWinningNumbers | src/04/part-1.ts:21-25 | the number of card numbers that are winning numbers; `MatchingIsCommon` and `CountExtremes` state what it counts and its bounds |
| Scratchcards.CountExtremes | src/04/part-1.ts:21-25 | no number in common gives no wins; every winning number held gives as many wins as there are winning numbers |
| Scratchcards.CalculateScore | src/04/part-1.ts:27-29 | 0 points without wins, else `2^(wins-1)`; `ScoreDoubles` states the doubling |
| Scratchcards.ScoreDoubles | src/04/part-1.ts:27-29 | every win after the first doubles the score |
| Scratchcards.NoWinsNoPoints | src/04/part-1.ts:31-38 | a pile of cards without wins is worth 0 points |
| ScratchcardCopies.CreateCopies | src/04/part-2.ts:35-44 | the array after the call is `Spread` of the old one: each of the next `score` cards that exists gains the start card's copies, and nothing else changes |
| ScratchcardCopies.TotalCards | src/04/part-2.ts:45-55 | the answer sums the copies left once every card in turn has handed out its copies, and is at least the number of cards |
| ScratchcardCopies.AtLeastOneEach | src/04/part-2.ts:26-48 | every card keeps at least its original copy |
| ScratchcardCopies.Settled | src/04/part-2.ts:35-48 | a card's count is final once the cards before it have been processed |
| ScratchcardCopies.CopiesRecurrence | src/04/part-2.ts:35-48 | a card's copies are one plus the final copies of every earlier card whose wins reach it |
| SeedRanges.SeedRange.constructor | src/05/seed-range.ts:198-205 | a new range runs from `start` to `start + length - 1`, holds `length` positions and is not moved |
| SeedRanges.CreateMapLine | src/05/seed-range.ts:184-193 | the line moves exactly the positions `source .. source + length - 1`, and is well formed when its length is positive |
| SeedRanges.Overlapping | src/05/seed-range.ts:174-179 | for well-formed ranges, the test holds iff some position lies both in the range and in the line's source |
| SeedRanges.ConvertShifts | src/05/seed-range.ts:58-65 | converting a range that starts inside the source keeps its length, marks it moved and shifts its start by the line's offset |
| SeedRanges.SplitPartitions | src/05/seed-range.ts:71-103 | a cut strictly inside the range leaves two adjacent well-formed ranges whose lengths add up; the new piece is unmoved and the original keeps its flag |
| SeedRanges.CoverShiftsWhole | src/05/seed-range.ts:118-124 | a line covering the whole range shifts it as a whole and splits nothing off |
| SeedRanges.ConvertOverlappingPartitions | src/05/seed-range.ts:108-168 | given overlap, the pieces keep the total length; exactly one piece is moved and it is the shifted overlap; every other piece is an untouched part outside the source, and every position outside the source is in one of them |
| SeedRanges.ConvertOverlappingSettles | src/05/seed-range.ts:108-168 | after conversion no unmoved piece overlaps the line any more, so the same line leaves the pieces alone |
| SeedRanges.ConvertSeedRange | src/05/seed-range.ts:58-65 | updates the range in place to `Convert` of its old value and returns the same object |
| SeedRanges.SplitSeedRange | src/05/seed-range.ts:71-103 | shortens the range in place to the kept part and returns a fresh range holding the other part |
| SeedRanges.ConvertSeedRangeOverlappingWithMapLine | src/05/seed-range.ts:108-168 | returns the updated range itself with distinct fresh pieces, whose values are `ConvertOverlapping` of the old range |
| SeedLocations.Seed.constructor | src/05/part-1.ts:19-23 | a new seed sits at its own number and has not moved |
| SeedLocations.FirstMatchWins | src/05/part-1.ts:26-41 | within a block, the first line covering the location moves the seed by that line's offset and no later line moves it again |
| SeedLocations.NoMatchStays | src/05/part-1.ts:26-41 | a location no line of the block covers is left where it is |
| SeedLocations.CreateSeeds | src/05/part-1.ts:12-24 | one fresh, distinct, unmoved seed per number, located at that number |
| SeedLocations.TranslateSeeds | src/05/part-1.ts:26-41 | every seed keeps its number and ends where `ApplyBlock` of the block puts its old location, with its flag cleared first |
| SeedLocations.FindLowestLocation | src/05/part-1.ts:43-48 | `Infinity` iff there is no seed; otherwise the least location, attained by some seed |
| SeedLocations.FindSolution | src/05/part-1.ts:50-59 | the least final location over the seeds, each translated through every block in turn |
| SeedRangeMapping.CreateSeeds | src/05/part-2.ts:14-22 | one fresh, distinct, unmoved range per "start length" pair, from `start` to `start + length - 1` |
| SeedRangeMapping.ResetMovedFlag | src/05/part-2.ts:31-33 | every range keeps its bounds and loses its moved flag |
| SeedRangeMapping.VisitAt | src/05/part-2.ts:41-49 | one visit converts the range in place when it is unmoved and overlaps the line, pushes its pieces at the end, and leaves every other range alone |
| SeedRangeMapping.WalkedClosedForm | src/05/part-2.ts:41-49 | part way through the growing list: the visited ranges in place, then the ranges not yet visited, then every piece pushed so far |
| SeedRangeMapping.WalkIsLinePass | src/05/part-2.ts:41-49 | visiting every original range performs the line pass |
| SeedRangeMapping.SettledUnchanged | src/05/part-2.ts:42-49 | a moved range, or one the line does not reach, is left as it is |
| SeedRangeMapping.VisitOriginals | src/05/part-2.ts:41-49 | the ranges present when the line was reached end as `LinePass` of their old values, and every pushed piece is settled |
| SeedRangeMapping.VisitPushed | src/05/part-2.ts:41-49 | the `for…of` goes on over the pushed pieces, which are settled, and changes nothing |
| SeedRangeMapping.ApplyLine | src/05/part-2.ts:39-51 | one map line turns the list into `LinePass` of its old values; old ranges stay in their places, new ones are fresh |
| SeedRangeMapping.ApplyLines | src/05/part-2.ts:39-51 | the block's lines one after the other give `BlockPass` |
| SeedRangeMapping.TranslateSeeds | src/05/part-2.ts:35-52 | clears the flags and applies the block: the list becomes `Translate` of its old values |
| SeedRangeMapping.Translate | src/05/part-2.ts:35-52 | clears every range's moved flag, then applies the block's lines in order; `TranslatePreservesSeedCount` states that no seed is lost or gained |
| SeedRangeMapping.LinePassPreserves | src/05/part-2.ts:39-51 | one line keeps the total number of seeds and leaves every range settled with respect to it |
| SeedRangeMapping.MovedUntouched | src/05/part-2.ts:42-44 | a range already moved is neither changed nor split by a line |
| SeedRangeMapping.BlockPassPreserves | src/05/part-2.ts:39-51 | a whole block keeps the number of seeds and keeps every range well formed |
| SeedRangeMapping.TranslatePreservesSeedCount | src/05/part-2.ts:35-52 | `translateSeeds` keeps the number of seeds covered by the ranges |
| SeedRangeMapping.FindLowestLocation | src/05/part-2.ts:24-29 | `Infinity` iff there is no range; otherwise the least start, attained by some range |
| SeedRangeMapping.TranslateBlocks | src/05/part-2.ts:58-60 | the loop over the blocks gives `Solve` of the old values |
| SeedRangeMapping.SolvePreservesSeedCount | src/05/part-2.ts:54-63 | every block keeps the number of seeds covered, and the ranges well formed |
| SeedRangeMapping.FindSolution | src/05/part-2.ts:54-63 | the least start of any range once every block has been applied |
| BoatRaces.DistanceSymmetric | src/06/part-1.ts:13-15 | holding `w` or `t - w` covers the same distance |
| BoatRaces.CalculateDistance | src/06/part-1.ts:13-15 | holding the button `w` ms of a `t` ms race covers `w * (t - w)` mm; `DistanceSymmetric` and `Between` state its symmetry and shape |
| BoatRaces.FindMinimumWaitTime | src/06/part-1.ts:26-33 | the smallest winning hold time in `[1, t)`, or none (`undefined`) when no hold time wins |
| BoatRaces.FindMaximumWaitTime | src/06/part-1.ts:17-24 | the largest winning hold time in `[1, t)`, or none when no hold time wins |
| BoatRaces.Between | src/06/part-1.ts:13-15 | between two winning hold times every hold time wins, so the winners form one interval |
| BoatRaces.IntervalCount | src/06/part-1.ts:50-55 | when the winners form an interval, counting them one by one gives its length |
| BoatRaces.MaximumMirrorsMinimum | src/06/part-1.ts:17-33 | the largest winner is `t` minus the smallest one |
| BoatRaces.WaysToWin | src/06/part-1.ts:50-55 | `max - min + 1` is a number iff some hold time wins, and then equals `Ways(race)`, the count of winning hold times in `[1, t)`, which form one interval |
| BoatRaces.ProductOfWays | src/06/part-1.ts:47-58 | the answer is a number iff every race can be won, and then is the product of the races' ways, at least 1 |
| BoatRaces.WithoutSpacesDigits | src/06/part-2.ts:37-40 | removing the white space from a line of digit groups leaves only digits |
| BoatRaces.DecimalAppend | src/06/part-2.ts:37-40 | reading two digit strings in a row shifts the first by the length of the second |
| BoatRaces.SingleRace | src/06/part-2.ts:34-55 | the one race read from the joined digit groups: a number iff it can be won, and then its count of winning hold times |
| BoatRaces.ConcatenatedExample | src/06/part-2.ts:37-40 | the white space between groups does not matter: "7  15" reads as 715 |
| Hands.GroupCards | src/07/scoring.ts:41-49 | the loop builds `Groups(numericCards)`, the count of each card value (also src/07/joker-scoring.ts:42-50) |
| Hands.GroupCardsCounts | src/07/scoring.ts:41-49 | the grouping lists exactly the cards of the hand, each with its count; the counts are positive and add up to the number of cards |
| Hands.SortCountsFacts | src/07/joker-scoring.ts:61-72 | the sorted counts are ascending and a rearrangement of the counts |
| Hands.LastTwoIsTopTwo | src/07/joker-scoring.ts:61-62 | of sorted counts, the last two add up to at least any two different entries |
| Hands.Rearranged | src/07/scoring.ts:51-79 | sorting the counts keeps every fact the predicates read: membership, the number of 2s, whether any exceeds 2, the largest |
| Hands.FiveCardProfiles | src/07/scoring.ts:51-102 | the sorted counts of five cards are one of the seven partitions of 5, and each category shows as its number of groups and largest group |
| Hands.CompareFromMeans | src/07/scoring.ts:126-130 | on one width, the card-value loop answers 0 exactly for equal values and at most 0 exactly when `a` is lexicographically at most `b` |
| Hands.CompareKeysMeans | src/07/scoring.ts:117-134 | the comparator orders by score and then lexicographically by card values, and is antisymmetric |
| Hands.CompareKeysTransitive | src/07/scoring.ts:117-134 | the comparator is transitive, so it is a total preorder |
| Hands.Compare | src/07/scoring.ts:118-133 | the comparator with its early returns answers -1, 0 or 1, as `CompareKeys` |
| Hands.SortByKey | src/07/scoring.ts:117-134 | the array ends as a permutation of itself in which every earlier hand compares at most equal to every later one |
| Hands.SortedMeans | src/07/scoring.ts:117-134 | a sorted array is ascending by score and, among equal scores, lexicographically by card values |
| Scoring.ConvertCardToNumber | src/07/scoring.ts:24-39 | the card labels `1`-`9`, `T`, `J`, `Q`, `K`, `A` are worth 1 to 14 in that order |
| Scoring.PredicatesOnGroups | src/07/scoring.ts:51-79 | five, four or three of a kind: some card has that count; full house: some card has 3 and some has 2; two pair: exactly two cards have 2; one pair: exactly one card has 2 and none more |
| Scoring.ScoreHand | src/07/scoring.ts:81-101 | the first test of the chain that holds picks the hand's category; `ChainIsCategory` and `ScoreHandCategory` state that it is the poker category |
| Scoring.ScoreHandCategory | src/07/scoring.ts:81-102 | for five cards, the first-match chain gives the poker category, which depends only on the number of different cards and the largest count |
| Scoring.ChainIsCategory | src/07/scoring.ts:81-102 | the chain of tests, in its order, picks `Category` once each test is known in terms of groups and largest group |
| Scoring.ProcessHand | src/07/scoring.ts:106-115 | keeps the cards and bet, converts every card, and for five cards scores the poker category of their grouping |
| Scoring.SortHands | src/07/scoring.ts:117-134 | the hands end as a permutation, ascending by score and, among equal scores, lexicographically by card values |
| JokerScoring.ConvertCardToNumber | src/07/joker-scoring.ts:25-40 | `J` is worth 0, the digits their value, `T` 10, `Q` 11, `K` 12 and `A` 13; 0 exactly for `J` (and `0`) |
| JokerScoring.NonJokersCount | src/07/joker-scoring.ts:118 | leaving out the jokers keeps every other card value as often as it was |
| JokerScoring.PredicatesOnGroups | src/07/joker-scoring.ts:52-83 | each `some` test holds iff some card plus the jokers makes the wanted count, or the jokers alone do; one pair also holds for a card held twice |
| JokerScoring.ScoreHand | src/07/joker-scoring.ts:85-105 | the chain of tests with jokers joining the largest group; `ScoreHandCategory` and `JokerProfiles` state the resulting category |
| JokerScoring.ScoreHandSorted | src/07/joker-scoring.ts:85-106 | the tests do not depend on the order of the counts, so the score can be read off the sorted counts |
| JokerScoring.ScoreByProfile | src/07/joker-scoring.ts:85-106 | five cards score the category whose largest group is the largest non-joker group plus the jokers; five jokers are five of a kind |
| JokerScoring.JokerProfiles | src/07/joker-scoring.ts:52-106 | the chain on every partition of the non-joker cards, for 0 to 5 jokers, gives the category with the jokers in the largest group |
| JokerScoring.ScoreHandCategory | src/07/joker-scoring.ts:85-106 | the score of the grouped non-jokers and the joker count is the category with the jokers joining the largest group |
| JokerScoring.NoJokersAsPlain | src/07/joker-scoring.ts:85-106 | without jokers, the joker scorer and the plain scorer agree on every hand of five cards |
| JokerScoring.ProcessHand | src/07/joker-scoring.ts:110-121 | counts the jokers, groups only the other cards (each as often as in the hand), and stores the score of that grouping with the jokers |
| JokerScoring.SortHands | src/07/joker-scoring.ts:123-140 | the hands end as a permutation, ascending by score and then by card values in which a joker is worth 0 |
| NodeWalk.ProcessInstructions | src/08/part-1.ts:25-27 | one entry per character: 0 exactly for `L`, 1 for every other character |
| NodeWalk.ProcessNodesLines | src/08/part-1.ts:29-39 | `nodeMap.set` for every line in turn builds `NodesOf(lines)` |
| NodeWalk.NodesOfLast | src/08/part-1.ts:29-39 | every listed id is a node and maps to the pair of its last line |
| NodeWalk.NodesOfKeys | src/08/part-1.ts:29-39 | only listed ids are nodes |
| NodeWalk.CountStepsToEndNode | src/08/part-1.ts:6-23 | from `AAA`, following the instructions cyclically: `Reached(s)` is the first step that lands on `ZZZ`, `Failed(s)` the first step whose node or move is missing, `OutOfFuel` that the first `fuel` steps reach neither |
| NodeWalk.WalkStep | src/08/part-1.ts:14-22 | one more loop iteration is one more move with the next instruction, and keeps the walk away from end nodes |
| NodeWalk.Resumes | src/08/part-2.ts:22-33 | walking `a + k` steps is walking `a` and then `k` more from instruction `offset + a`, which is how a ghost resumes at `steps % length` |
| NodeWalk.Periodic | src/08/part-2.ts:102-106 | once the walk is back at the same node with the same instruction index, everything after repeats |
| GhostWalk.StartNodesAreStarts | src/08/part-2.ts:47-54 | the start nodes are exactly the listed ids ending in `A` |
| GhostWalk.ProcessNodesLines | src/08/part-2.ts:40-60 | builds the node map of part 1 and the start nodes in line order |
| GhostWalk.Ghost.constructor | src/08/part-2.ts:114-117 | a ghost starts on its node with 0 steps |
| GhostWalk.FindPossibleEndNode | src/08/part-2.ts:17-34 | the ghost resumes at instruction `steps % length`; on `Reached(s)` it has taken `s` more steps and stands on a node ending in `Z`, the first such |
| GhostWalk.WalkGhosts | src/08/part-2.ts:114-120 | when every ghost arrives, each count is the first arrival at a `Z` node from its start node |
| GhostWalk.FindSolution | src/08/part-2.ts:107-127 | the counts combined by the as-written least-common-multiple utility; only the product of each count's found factors divides the answer |
| GhostWalk.FindSolutionIntended | src/08/part-2.ts:107-127 | the same counts combined by the corrected utility: every count divides the answer |
| Extrapolation.DifferenceAt | src/09/part-2.ts:26-29 | each difference is the next value minus the current one |
| Extrapolation.ConstantDifferences | src/09/part-2.ts:26-29 | the differences of a constant row are all zero |
| Extrapolation.ArithmeticDifferences | src/09/part-2.ts:26-29 | the differences of an arithmetic row are its step |
| Extrapolation.NextRow | src/09/part-2.ts:21-29 | the body of the `do` block turns a row into its differences |
| Extrapolation.SomeNonZero | src/09/part-2.ts:33 | the loop test holds iff some value of the row is non-zero |
| Extrapolation.FindNextValue | src/09/part-2.ts:10-40 | the prediction folds the first values of the difference rows back from the right, `NaN` (None) propagating |
| Extrapolation.PushedDefined | src/09/part-2.ts:19-33 | from a history of at least two values no row is empty, so every first value pushed is a number |
| Extrapolation.SingleValueIsNaN | src/09/part-2.ts:32-39 | a single value is followed by an empty row whose first value is `undefined`, so the prediction is `NaN` |
| Extrapolation.AgreesFromTwoValues | src/09/part-2.ts:10-40 | with at least two values the prediction as written is the corrected one |
| Extrapolation.ConstantPredicts | src/09/part-2.ts:10-40 | a constant history predicts its value |
| Extrapolation.ArithmeticPredicts | src/09/part-2.ts:10-40 | an arithmetic history with first term `a` and step `d` predicts `a - d` |
| Extrapolation.TotalOfConstants | src/09/part-2.ts:6-8 | the corrected total of constant histories is the sum of their values |
| Extrapolation.Total | src/09/part-2.ts:6-8 | the sum of the corrected predictions; `TotalOfConstants` and `FindSolutionIsTotal` state its value |
| Extrapolation.FindSolution | src/09/part-2.ts:44-52 | the answer as written: `calculateTotal` of the predictions, where one `NaN` makes the total `NaN` |
| Extrapolation.FindSolutionIsTotal | src/09/part-2.ts:44-52 | the total as written is a number iff every history has at least two values, and then equals the corrected `Total` |
| PipeMaze.At | src/10/helper.ts:195-197 | a tile exists exactly at the indexes inside the string (otherwise `undefined`) |
| PipeMaze.IsValidPath | src/10/helper.ts:238-246 | two tiles connect when each one's pipe opens towards the other; `ValidPathSymmetric` states the symmetry |
| PipeMaze.NeighborIndex | src/10/helper.ts:182-193 | the index one row up or down, or one column left or right, of a tile; `IsValidPath` then asks `At` whether a tile is there |
| PipeMaze.ValidPathSymmetric | src/10/helper.ts:18-76 | the start and destination tables mirror each other: a step is valid exactly when the step back is |
| PipeMaze.ConnectedSymmetric | src/10/helper.ts:238-246 | the pipes connect `a` to `b` exactly when they connect `b` to `a` |
| PipeMaze.FindNeighbors | src/10/helper.ts:145-155 | an index is returned exactly when `isValidPath` leads to it, and every returned index lies in the grid |
| PipeMaze.AtMostTwoNeighbors | src/10/helper.ts:18-76 | every tile but the start leads to at most two tiles |
| PipeMaze.FindGroundNeighbors | src/10/helper.ts:119-129 | an index is returned exactly when it is one step away, inside the grid and ground |
| PipeMaze.Rows | src/10/helper.ts:202-209 | the rows join back into the grid, each at most a row long and all but the last exactly a row long |
| PipeMaze.RowsUnique | src/10/helper.ts:202-209 | any cut of the grid into such rows is the one `getRows` makes |
| PipeMaze.PaddedSize | src/10/helper.ts:248-258 | padding adds two rows and two columns |
| PipeMaze.Framed | src/10/helper.ts:248-258 | the grid with a ring of ground tiles around it; `PaddedSize`, `PaddedCell` and `PaddedLength` state its shape and contents |
| PipeMaze.PaddedCell | src/10/helper.ts:248-258 | inside the frame the padded grid holds the original tile shifted by one row and one column; the frame is ground |
| PipeMaze.PaddedLength | src/10/helper.ts:248-258 | the padded grid has at least two rows |
| PipeMaze.IndexOf | src/10/helper.ts:101 | -1 when the tile is absent, otherwise the first index holding it |
| PipeMaze.Extend | src/10/helper.ts:314-327 | a stack entry extended by a tile its position leads to, other than where it came from, is still a walk from the start without turning back |
| PipeMaze.StartOnce | src/10/helper.ts:303-311 | an extended path still visits the start tile only first |
| PipeMaze.Close | src/10/helper.ts:303-311 | an entry back at the start from elsewhere, minus its last tile, is a closed loop of `steps - 1` tiles |
| PipeMaze.PushSteps | src/10/helper.ts:314-327 | the children of the popped entry are pushed in order and are all valid search entries |
| PipeMaze.PipeGrid.constructor | src/10/helper.ts:81-102 | the grid is the padded input, rows are two tiles longer and the start is the first `S` |
| PipeMaze.PipeGrid.ReplaceCellAtIndex | src/10/helper.ts:260-263 | inside the string only that tile changes; past its end the tile is appended |
| PipeMaze.PipeGrid.ClearNonLoopFilledCells | src/10/helper.ts:106-113 | tiles of the path keep their pipe and every other tile becomes ground |
| PipeMaze.PipeGrid.FindMainLoop | src/10/helper.ts:287-332 | a result other than -1 is a closed loop through the start with its length as step count; -1 comes with no path; no start tile gives -1 |
| PipeMaze.CrossingsStep | src/10/helper.ts:224-233 | each edge flips the inside/outside parity exactly when it crosses the ray |
| PipeMaze.QuotientCompare | src/10/helper.ts:227-228 | the comparison with the intersection's x-coordinate, multiplied out by the divisor's sign |
| PipeMaze.NoCrossingFromTheRight | src/10/helper.ts:227-228 | an edge never crosses the ray from a point right of both its ends |
| PipeMaze.RightOfEveryVertexIsOutside | src/10/helper.ts:217-236 | a tile right of every vertex is outside the loop |
| PipeMaze.BelowEveryVertexIsOutside | src/10/helper.ts:217-236 | a tile in a row no edge reaches past is outside the loop |
| PipeMaze.Vertexes | src/10/helper.ts:272-274 | one vertex per tile of the main loop |
| PipeMaze.IndexesOf | src/10/helper.ts:134-139 | exactly the indexes holding the tile type, in ascending order |
| PipeMaze.PipeGrid.FloodFillGroundCells | src/10/helper.ts:157-180 | only ground tiles (and index 0) turn outside, each reachable from index 0 through ground tiles; when the stack runs empty no filled tile has a ground neighbour left |
| PipeMaze.PushUnvisited | src/10/helper.ts:174-178 | the stack keeps its entries and gains every unvisited neighbour |
| PipeMaze.FillClosed | src/10/helper.ts:166-179 | with the stack empty, no visited tile has a ground neighbour |
| PipeMaze.ReachStep | src/10/helper.ts:170-178 | the fill spreads from a reachable tile to any ground tile one step away |
| PipeMaze.ReachableIsGround | src/10/helper.ts:157-167 | a reachable tile is index 0 or a ground tile of the grid |
| PipeMaze.ReachableAfterPush | src/10/helper.ts:170-178 | pushing the ground neighbours of a reachable tile keeps every stacked tile reachable |
| PipeMaze.FillStep | src/10/helper.ts:164-179 | one turn of the fill's loop (pop, mark outside, push the unvisited ground neighbours) keeps `Filling`: changed tiles are exactly the visited ones, all outside and reachable from index 0, every stacked tile reachable, every ground neighbour of a visited tile stacked |
| PipeMaze.PathFlooded | src/10/helper.ts:157-180 | a finished fill has turned the end of every ground path from index 0 outside |
| PipeMaze.FloodFillExact | src/10/helper.ts:157-180 | a fill run until its stack is empty leaves exactly `Flood` of the grid (every tile reachable from index 0 through ground turned outside, every other tile unchanged), and `Flood` is such a fill: the result of the fill is determined |
| PipeMaze.PipeGrid.IsIndexInsideMainLoop | src/10/helper.ts:217-236 | true exactly when the tile is inside the loop's polygon by the even-odd rule |
| PipeMaze.PipeGrid.ProcessGroundCells | src/10/helper.ts:270-283 | every ground tile outside the polygon turns outside, nothing else changes |
| PipeMaze.PipeGrid.GetNumberOfCellsInMainLoop | src/10/helper.ts:338-347 | the number of ground tiles in the grid |
| PipeMaze.PipeGrid.MarkOutsideCells | src/10/helper.ts:379-383 | the tiles end as the ray cast of the flood fill of the tiles with everything off the loop turned to ground; when the fill finishes, the fill is exactly `Flood` (the ground reachable from index 0 turned outside) and the tiles are `Marks` of the old tiles; a tile is still ground iff the fill left it ground and it lies inside the loop's polygon; the loop's pipes stay |
| PipeMaze.MarkedGround | src/10/helper.ts:379-383 | in a marked grid a tile is ground iff the flood fill left it ground and it is inside the polygon; ground on the loop was ground before; the loop's pipes stay |
| PipeMaze.FindSolution | src/10/part-1.ts:7-11 | the answer, when not -1/2, is half the length of a closed loop through the start |
| PipeMaze.FoundLoop | src/10/helper.ts:287-332 | a loop `findMainLoop` found from the grid's start tile, which is the index of `S`, is a closed loop through `S` or none (`MainLoopOrNone`) |
| PipeMaze.PartTwoAnswer | src/10/part-2.ts:7-13 | part 2's answer for the input lines: the loop is a closed loop through `S` of the padded grid or none, and the answer is the number of ground tiles of `Marks` against it |
| PipeMaze.FindSolutionPartTwo | src/10/part-2.ts:7-13 | `loop` is what `findMainLoop` returned: a closed loop through `S`, or `[]` when it found none; an answer is the number of ground tiles of `Marks` of the padded grid against it: cleared to the loop, every ground tile connected to index 0 turned outside, the rest ray-cast |
| PipeMaze.MarkAndCount | src/10/part-2.ts:10-13 | when the fill finishes, the count is the number of ground tiles of `Marks` of the grid against the loop: cleared, flooded from index 0, ray-cast |
| PipeMaze.NoLoopNoGround | src/10/part-2.ts:7-13 | against no loop nothing is inside, so no ground tile is counted |
| Universes.SumOfDistances | src/11/universe.ts:140-160 | the nested loops add the distance of every unordered pair of galaxies exactly once |
| Universes.SourceSumsArePairs | src/11/universe.ts:140-160 | summing source by source, each with the later galaxies, equals the sum over all pairs |
| Universes.DistanceIsMetric | src/11/universe.ts:33-43 | the Manhattan distance is symmetric, non-negative and zero only between a point and itself |
| Universes.Distance | src/11/universe.ts:33-43 | the Manhattan distance between two galaxies; `DistanceIsMetric` states that it is a metric |
| Universes.PairSumSwapsLastTwo | src/11/universe.ts:140-160 | the pair sum does not depend on which of two galaxies is listed first |
| Universes.Indexes | src/11/universe.ts:120-125 | every picked index lies inside the cells |
| Universes.IndexesSpec | src/11/universe.ts:120-125 | the galaxies are listed ascending, each once, and are exactly the non-empty cells |
| Universes.Split | src/11/universe.ts:111-118 | the rows have the row length and join back into the cells |
| Universes.SplitUnique | src/11/universe.ts:111-118 | there is only one way to cut the cells into such rows |
| Universes.ExpandUniverseVertically | src/11/universe.ts:70-83 | the result is the rows with each all-empty row doubled, joined up |
| Universes.ExpandRowsShape | src/11/universe.ts:70-83 | vertical expansion keeps the width and adds one row per empty row |
| Universes.ExpandRowsAt | src/11/universe.ts:70-83 | each row moves down by the number of empty rows above it |
| Universes.WalkColumn | src/11/universe.ts:127-136 | the walk yields exactly the column's cells, top to bottom |
| Universes.FindEmptyColumns | src/11/universe.ts:93-106 | the result is the list of all-empty columns |
| Universes.EmptyColumnsSpec | src/11/universe.ts:93-106 | the empty columns are ascending and a column is listed exactly when it holds only empty space |
| Universes.InsertSpaces | src/11/universe.ts:57-59 | each insertion lengthens the row by one |
| Universes.WidenRow | src/11/universe.ts:56-62 | one space inserted at each listed column, in the order given |
| Universes.ExpandUniverseHorizontally | src/11/universe.ts:45-68 | the row length grows by the number of empty columns and every row gets a space at each, highest first |
| Universes.InsertSpacesDoubles | src/11/universe.ts:50-59 | inserting highest column first doubles exactly the listed columns, so the reversal is what makes it right |
| Universes.DoubledGalaxies | src/11/universe.ts:45-68 | after doubling, each galaxy sits as many cells further right as there are doubled columns left of it |
| Universes.WidenRowsCoordinates | src/11/universe.ts:45-68 | horizontal expansion moves each galaxy right by the empty columns left of it, same row |
| Universes.ExpandRowsCoordinates | src/11/universe.ts:70-83 | vertical expansion moves each galaxy down by the empty rows above it, same column |
| Universes.ExpandRowsColumns | src/11/universe.ts:85-91 | doubling rows does not change which columns are empty |
| Universes.ExpandedGalaxies | src/11/universe.ts:85-91 | after `expandUniverse` each galaxy of the image is moved right by the empty columns and down by the empty rows before it |
| Universes.Universe.constructor | src/11/universe.ts:10-16 | the cells and row length are the expanded image's and the listed galaxies are its galaxies |
| Universes.Universe.Calculate | src/11/universe.ts:140-160 | the sum of the distances between every pair of galaxies |
| Universes.UniverseGalaxies | src/11/universe.ts:10-16 | the galaxies a universe sums over are the image's, moved by the empty rows and columns before them |
| VirtualUniverses.GalaxyFreeColumnsSpec | src/11/virtual-universe.ts:53-66 | ascending, and a column is listed exactly when no cell of it is a galaxy |
| VirtualUniverses.GalaxyFreeRowsSpec | src/11/virtual-universe.ts:71-83 | ascending, and a row is listed exactly when it holds no galaxy |
| VirtualUniverses.ExpandAll | src/11/virtual-universe.ts:155-179 | one coordinate per galaxy |
| VirtualUniverses.VirtualUniverse.constructor | src/11/virtual-universe.ts:16-25 | the empty rows and columns and the galaxies recorded are the image's |
| VirtualUniverses.VirtualUniverse.FindEmptyColumns | src/11/virtual-universe.ts:53-66 | the columns below the row length holding no galaxy |
| VirtualUniverses.VirtualUniverse.FindEmptyRows | src/11/virtual-universe.ts:71-83 | the indexes of the rows holding no galaxy |
| VirtualUniverses.VirtualUniverse.Calculate | src/11/virtual-universe.ts:129-149 | the sum of the distances between every pair of galaxies |
| VirtualUniverses.RateOneKeepsPositions | src/11/virtual-universe.ts:155-179 | at rate 1 every galaxy keeps its raw column and row |
| VirtualUniverses.ExpandKeepsOrder | src/11/virtual-universe.ts:155-179 | expansion keeps the order of columns and of rows strictly |
| VirtualUniverses.SameGalaxies | src/11/virtual-universe.ts:97-114 | on an image of `.` and `#`, both classes pick the same cells as galaxies |
| VirtualUniverses.SameEmptyRows | src/11/virtual-universe.ts:71-83 | on such an image the galaxy-free rows are the all-empty ones |
| VirtualUniverses.SameEmptyColumns | src/11/virtual-universe.ts:53-66 | on such an image the galaxy-free columns are the all-empty ones |
| VirtualUniverses.RateTwoIsExpansion | src/11/virtual-universe.ts:9-14 | at rate 2 every galaxy lands where `Universe` puts it after expanding the image |
| VirtualUniverses.SameTotals | src/11/virtual-universe.ts:9-14 | a virtual universe at rate 2 sums over the same coordinates as the expanded universe |
| Platforms.WithCubeEdge | src/14/platform.ts:42-46 | the padded grid is one row of cube rocks followed by the grid unchanged |
| Platforms.CubeAbove | src/14/platform.ts:128-134 | the cube rock found lies before the rock, or -1 |
| Platforms.CubeAboveIsNearest | src/14/platform.ts:128-134 | the cube rock found is the last cell passing `findLastIndex`'s test for the rock, or -1 when none passes |
| Platforms.EdgeStopsEveryColumn | src/14/platform.ts:19-22 | thanks to the edge row every cell below it has a cube rock above it |
| Platforms.DepthBelowCube | src/14/platform.ts:119-141 | a cell lies a whole number of rows below its cube rock, inside that rock's free run |
| Platforms.BelowCube | src/14/platform.ts:119-141 | every cell of the free run under a cube rock is on the grid, free of cube rocks and has that cube rock above it |
| Platforms.CountsStep | src/14/platform.ts:136 | visiting a rounded rock adds one to its cube rock's tally (from 0 when absent); other cells change nothing |
| Platforms.RocksFit | src/14/platform.ts:119-141 | the rocks tallied against a cube rock fit in the free run below it |
| Platforms.TallyIsCubes | src/14/platform.ts:119-141 | every tallied key is a real cube rock with between one rock and its free run's worth of rocks |
| Platforms.ClearedStep | src/14/platform.ts:137 | clearing a visited rounded rock empties its cell and keeps every cube rock |
| Platforms.TiltedRock | src/14/platform.ts:119-141 | after the tilt a cell holds a rounded rock exactly when it is free and within the first `k` cells below its cube rock, `k` its tally |
| Platforms.TiltKeepsCubes | src/14/platform.ts:119-141 | the tilt moves no cube rock and adds none |
| Platforms.TallyWithinGrid | src/14/platform.ts:48-56 | with the row width as stride every rock written lands inside the cells |
| Platforms.TiltKeepsEdge | src/14/platform.ts:119-141 | the edge row of cube rocks survives the tilt |
| Platforms.SlotsMatchRocks | src/14/platform.ts:48-56 | cube rock by cube rock, the tilt fills as many cells as rocks rolled against it |
| Platforms.TiltKeepsRockCount | src/14/platform.ts:119-141 | the tilt keeps the number of rounded rocks |
| Platforms.LoadBounds | src/14/platform.ts:72-82 | the load lies between the number of rocks and `rowCount` times it |
| Platforms.Assign | src/14/platform.ts:51 | a JavaScript array write: the cell gets the value, the array grows past its end with holes, nothing else changes |
| Platforms.Dropped | src/14/platform.ts:50-52 | the struck cells hold rounded rocks, the others keep their content or are holes, and the array reaches just past the last rock |
| Platforms.DroppedStep | src/14/platform.ts:50-52 | each iteration of the inner loop is one array write |
| Platforms.PlacedKeysShape | src/14/platform.ts:48-56 | after every cube rock has written its rocks, a cell holds a rock exactly when one of them struck it |
| Platforms.PlacementWithin | src/14/platform.ts:48-56 | when every rock lands inside the cells, the array does not grow |
| Platforms.WriteHits | src/14/platform.ts:50-52 | writing the `j`-th rock strikes exactly one cell more |
| Platforms.TiltedAsWrittenWithin | src/14/platform.ts:51 | with a stride of at most the row width the tilt as written is `TiltedAsWritten`, and with the row width itself the intended tilt |
| Platforms.StrideByRowCountMisplaces | src/14/platform.ts:51 | a one-row, two-column platform `O.` gets load 2 as written instead of 1 |
| Platforms.MisplacedTilts | src/14/platform.ts:51 | the rock overwrites the edge row's cube rock as written, while the intended tilt leaves it in place |
| Platforms.StrideByRowCountGrows | src/14/platform.ts:51 | a three-row, one-column platform grows the array as written, with load -1 instead of 5 |
| Platforms.GrownTilts | src/14/platform.ts:51 | as written, the rocks land past the end of the four cells; the intended tilt gives `#OO.` |
| Platforms.NoRocksNoTally | src/14/platform.ts:119-141 | a platform without rounded rocks tallies nothing and stays as it is |
| Platforms.FindLastIndex | src/14/platform.ts:106-117 | the greatest index passing the test, or -1 when none does |
| Platforms.Platform.constructor | src/14/platform.ts:15-23 | `rowCount` is the input's number of rows, the grid gets its edge row and the cells are that grid |
| Platforms.Platform.CreatePlatform | src/14/platform.ts:27-32 | the platform of the joined rows, as wide as the first row |
| Platforms.Platform.AddCubeRockEdge | src/14/platform.ts:42-46 | the grid gets one row of cube rocks in front, nothing else changes |
| Platforms.Platform.IndexToCoordinate | src/14/platform.ts:88-96 | the column lies in the row and row times width plus column is the index |
| Platforms.Platform.CalculateLoad | src/14/platform.ts:72-82 | the total load of the rounded rocks |
| Platforms.Platform.MoveRocksNorth | src/14/platform.ts:119-141 | the cells become the tilt as written (rocks `rowCount` apart); when `rowCount` equals the width, the intended tilt |
| Platforms.Platform.VisitCell | src/14/platform.ts:121-138 | after visiting cell `index` the cells up to it are cleared and the tally counts their rocks |
| Platforms.Platform.DistributeRoundedRocks | src/14/platform.ts:48-56 | each tallied cube rock's rocks are written below it, `rowCount` apart, and the tally is emptied |
| Platforms.Platform.DropRocks | src/14/platform.ts:50-52 | the cells once that cube rock's rocks are written |
| Platforms.Platform.TallyRocks | src/14/platform.ts:119-141 | the `forEach` over the cells leaves every rounded rock cleared and the tally counting each cube rock's rocks |
| Platforms.Platform.DropEach | src/14/platform.ts:48-56 | the cells once every tallied cube rock, in key order, has written its rocks `rowCount` apart |
| Platforms.TiltOutcome | src/14/platform.ts:119-141 | the cleared, tallied and rewritten cells are the tilt as written, and with `rowCount` equal to the width the intended tilt with its edge row kept |
| Platforms.AttributedToNearest | src/14/platform.ts:128-134 | `findLastIndex` over the partly cleared cells finds the nearest cube rock above in the original cells |
| LensHash.Hash | src/15/part-1.ts:6-15 | the hash of any string lies in 0..255 |
| LensHash.HashSequence | src/15/part-1.ts:6-15 | the index loop computes the left fold of the step `((v + code) * 17) % 256` from 0 |
| LensHash.HashFolds | src/15/part-1.ts:9-12 | continuing the loop from the hash of a prefix gives the hash of the whole string |
| LensHash.HashIsFold | src/15/part-1.ts:9-12 | the hash is the accumulator fold the loop performs |
| LensHash.HashOfHASH | src/15/part-1.ts:6-15 | the hash of `HASH` is 52 |
| LensHash.SumOfHashes | src/15/part-1.ts:19-26 | the sum of the hashes of the steps lies between 0 and 255 per step |
| LensBoxes.Find | src/15/part-2.ts:46 | the index of the first lens with the label, or none when no lens has it |
| LensBoxes.Without | src/15/part-2.ts:39-42 | removing never lengthens the box |
| LensBoxes.WithoutKeepsOthers | src/15/part-2.ts:39-42 | the `-` step keeps exactly the lenses with other labels |
| LensBoxes.WithoutAbsent | src/15/part-2.ts:39-42 | removing an absent label changes nothing |
| LensBoxes.WithoutUnique | src/15/part-2.ts:39-42 | removing keeps the labels unique |
| LensBoxes.PlacedUnique | src/15/part-2.ts:43-54 | the `=` step leaves one lens with the label, with the new focal length, and keeps labels unique |
| LensBoxes.PlacedKeepsOthers | src/15/part-2.ts:43-54 | the `=` step updates in place or appends at the back and moves no other lens |
| LensBoxes.RemoveUndoesInsert | src/15/part-2.ts:36-54 | inserting a new label and then removing it restores the box |
| LensBoxes.PlacedIdempotent | src/15/part-2.ts:43-54 | repeating an `=` step changes nothing |
| LensBoxes.StepBoxes | src/15/part-2.ts:28-55 | one step creates the label's box when missing and changes no other box |
| LensBoxes.StepKeepsPlacement | src/15/part-2.ts:28-55 | every step keeps each lens in the box its label hashes to, once per box |
| LensBoxes.RunWellPlaced | src/15/part-2.ts:28-55 | after any sequence of steps every lens is in its own box, once |
| LensBoxes.Boxes.constructor | src/15/part-2.ts:26 | the boxes start empty |
| LensBoxes.Boxes.Apply | src/15/part-2.ts:28-55 | the boxes after one step |
| LensBoxes.Initialise | src/15/part-2.ts:24-66 | the focusing power of the boxes after every step |
| Contraptions.NextDirections | src/16/contraption.ts:93-117 | one or two headings, never back; straight on exactly through empty space or along a splitter; a mirror turns a quarter; two exactly at a splitter hit side-on, both along it |
| Contraptions.MirrorsAreInvolutions | src/16/contraption.ts:18-29 | each mirror table undoes itself |
| Contraptions.MirrorsAreReversible | src/16/contraption.ts:97-105 | a beam path through empty space and mirrors can be run backwards |
| Contraptions.ReachStep | src/16/contraption.ts:148-166 | the beam reaches every position a reached position moves on to |
| Contraptions.ClosedHoldsReachable | src/16/contraption.ts:120-170 | a set holding the start and closed under the beam's moves holds every reachable position |
| Contraptions.PathInClosed | src/16/contraption.ts:120-170 | every position of a beam path lies in such a closed set |
| Contraptions.HasVisitedPosition | src/16/contraption.ts:75-90 | true exactly when the position was visited; the set gains the position when `mark` is set and nothing else |
| Contraptions.FindBestPath | src/16/contraption.ts:120-170 | the count is the number of cells the beam from the top-left cell heading right energises, between 1 and the grid size |
| Contraptions.TakeFirst | src/16/contraption.ts:130-167 | one loop turn keeps the loop invariant and takes an unvisited position or shortens the queue |
| Contraptions.ClosedAfterSkip | src/16/contraption.ts:135-137 | skipping a visited position keeps the closure |
| Contraptions.ClosedAfterVisit | src/16/contraption.ts:139-166 | visiting a position and queueing its moves keeps the closure |
| Contraptions.VisitedIsEnergized | src/16/contraption.ts:169 | once the queue is empty the energised cells are exactly the cells the beam reaches |
| Contraptions.VisitPosition | src/16/contraption.ts:148-166 | every move out of the position is visited or queued, and only reachable unvisited successors are queued |
| Contraptions.StartingPositions | src/16/part-2.ts:16-37 | top row heading down, bottom row up, first column right, last column left, in that order |
| Contraptions.StartingPositionsEnterGrid | src/16/part-2.ts:16-37 | a position is listed exactly when it is on the grid with no neighbour behind it |
| Contraptions.EntryIsOnBorder | src/16/part-2.ts:16-37 | each listed position is on the grid with nothing behind it |
| Contraptions.BorderEntry | src/16/part-2.ts:16-37 | each position with nothing behind it is listed |
| Cities.Digits | src/17/city.ts:29 | one number per character |
| Cities.CreateCity | src/17/city.ts:24-34 | reads each line's digits as one row of heat-loss values; `CreateCityBlocks` states the result |
| Cities.CreateCityBlocks | src/17/city.ts:24-34 | equal rows of digits make a valid city whose block at column `x` of row `y` is the digit there |
| Cities.PositionToKey | src/17/city.ts:56-65 | the key keeps the block and the steps, and its axis is vertical exactly for up and down |
| Cities.SameKey | src/17/city.ts:56-65 | two positions share a key exactly when they share block, steps and axis |
| Cities.HasVisitedPosition | src/17/city.ts:67-86 | true exactly when the key was visited; the set gains the key when `mark` is set and nothing else |
| Cities.RouteFacts | src/17/city.ts:115-146 | along a route every position is on the grid, has a heading and one to three straight steps after the start, and carries the heat of the blocks entered |
| Cities.NoFourStraight | src/17/city.ts:138-140 | no route goes four blocks in a row in the same heading |
| Cities.NeverBack | src/17/city.ts:134-135 | no route turns straight back to the block it just left |
| Cities.ReachStep | src/17/city.ts:133-145 | every move pushed from a reached position is reached |
| Cities.ReachedFacts | src/17/city.ts:89-150 | a reached position is on the grid, with at most three straight steps and a non-negative heat loss |
| Cities.LossNonNegative | src/17/city.ts:127 | the heat lost along a path of digits is not negative |
| Cities.PopMin | src/17/city.ts:91-101 | the popped position has the least heat loss of the queue and the rest is the queue without it |
| Cities.AllKeysAre | src/17/city.ts:56-65 | the keys a search can visit are finite: blocks of the grid with zero to three steps |
| Cities.FindBestPath | src/17/city.ts:89-150 | the answer is -1 or the heat loss of a route from the first block to the last that never turns back and never goes four straight |
| Cities.PushMoves | src/17/city.ts:115-146 | the queue keeps its entries and gains only valid moves out of the position |
| Polygon.NextIsRemainder | src/18/polygon.ts:10 | the next vertex `(i + 1) % n` wraps the last vertex round to the first |
| Polygon.Edges | src/18/polygon.ts:8-13 | one shoelace term per vertex |
| Polygon.CalculateArea | src/18/polygon.ts:5-16 | half the absolute value of the shoelace sum over the closed polygon, never negative |
| Polygon.DegenerateHasNoArea | src/18/polygon.ts:5-16 | fewer than three vertices enclose no area |
| Polygon.RotationKeepsArea | src/18/polygon.ts:5-16 | starting the list at another vertex gives the same signed area |
| Polygon.ReversalKeepsArea | src/18/polygon.ts:5-16 | listing the vertices backwards negates the signed area, so the area is unchanged |
| Polygon.EdgeLengths | src/18/polygon.ts:21-26 | one length per vertex |
| Polygon.CalculatePerimeter | src/18/polygon.ts:18-29 | the sum of the Manhattan lengths of the edges, wrapping, never negative |
| Lagoon.Vertices | src/18/part-1.ts:46-60 | one vertex per instruction |
| Lagoon.Distances | src/18/part-1.ts:47 | one distance per instruction |
| Lagoon.Dig | src/18/part-1.ts:41-60 | one vertex pushed per instruction, and the perimeter is the sum of the distances |
| Lagoon.FindSolution | src/18/part-1.ts:39-73 | the area of the dug polygon plus half its perimeter plus one |
| Lagoon.NothingDugIsOneBlock | src/18/part-1.ts:70-72 | an empty plan still digs one block |
| Lagoon.VertexSteps | src/18/part-1.ts:46-60 | each vertex is the one before moved by its instruction |
| Lagoon.MoveLength | src/18/part-1.ts:49-57 | each edge of the walk is as long as its instruction's distance |
| Lagoon.ClosedPlanPerimeter | src/18/part-1.ts:64-72 | for a plan that returns to the start, the summed distances are the polygon's perimeter |
| Lagoon.HexPrefixLength | src/18/part-2.ts:39 | the leading run of hexadecimal digits is part of the string |
| Lagoon.ParseHex | src/18/part-2.ts:36 | reads the leading hexadecimal digits as a number, none when there is none; `HexRoundTrip` states that it reads back a written number |
| Lagoon.DirectionMap | src/18/part-2.ts:17-22 | the last hexadecimal digit `0`-`3` picks right, down, left or up (any other digit gives left); `ColorRoundTrip` uses it |
| Lagoon.HexPrefixDigits | src/18/part-2.ts:39 | every character of that run is a hexadecimal digit |
| Lagoon.HexDigitOf | src/18/part-2.ts:39 | every value below 16 has a digit that reads back as it |
| Lagoon.ToHex | src/18/part-2.ts:32 | a distance written as `k` hexadecimal digits |
| Lagoon.HexRoundTrip | src/18/part-2.ts:39 | reading back a number written in `k` hex digits gives the number, when it fits |
| Lagoon.ParseColor | src/18/part-2.ts:27-40 | five hexadecimal digits give the length, the sixth the direction; `ColorRoundTrip` states the round trip |
| Lagoon.ParseHexOfDigits | src/18/part-2.ts:39 | `parseInt(s, 16)` of a string of hex digits is its value |
| Lagoon.HexPrefixAll | src/18/part-2.ts:39 | in a string of hex digits the leading run is the whole string |
| Lagoon.ColorRoundTrip | src/18/part-2.ts:27-42 | writing an instruction as a colour code and reading it back gives the instruction, for digits 0 to 3 and distances below 16^5 |
| Workflows.StrictComparisons | src/19/part-1.ts:29-59 | both tests are strict, and `<` picks less-than while any other operator picks greater-than |
| Workflows.RunWorkflow | src/19/part-1.ts:71-81 | the target of a workflow's first rule whose test the part passes; `RunWorkflowFirstMatch` states it |
| Workflows.RunWorkflowFirstMatch | src/19/part-1.ts:71-81 | the scan answers the next name of the first rule that applies, and `undefined` exactly when none applies |
| Workflows.FallbackAlwaysAnswers | src/19/part-1.ts:73-75 | a workflow ending in a rule without a rating always sends the part on |
| Workflows.NoFallbackFails | src/19/part-1.ts:71-81 | a workflow whose only rule the part fails answers `undefined`, and the part then settles nowhere, so `FindSolution` gives none |
| Workflows.Sort | src/19/part-1.ts:100-107 | the loop's outcome for the part, from `in`: accepted, rejected or a thrown error |
| Workflows.ProcessFollowsRoute | src/19/part-1.ts:104-107 | a route of `n` steps to `A` or `R` is followed to its end by a loop of `n` or more passes |
| Workflows.ProcessHasRoute | src/19/part-1.ts:104-107 | a part the loop accepts or rejects has a route no longer than the passes taken |
| Workflows.FuelMonotone | src/19/part-1.ts:104-107 | a verdict once reached does not change with more passes |
| Workflows.FindSolution | src/19/part-1.ts:85-117 | a total exactly when every part ends accepted or rejected within the passes allowed, and then the sum of the rating sums of the accepted parts, in input order; none when some part reaches a missing workflow (the source's `TypeError`) or runs out of passes |
| Workflows.AcceptedBounds | src/19/part-1.ts:109-116 | with non-negative ratings the answer lies between 0 and all ratings, all of them when every part is accepted and 0 when none is |
| PulseModules.Process | src/20/modules.ts:50-124 | a broadcaster sends low to all; a flip-flop ignores high and on low toggles and sends high exactly when now on; a conjunction remembers the pulse for its input and sends low exactly when every remembered input is high |
| PulseModules.FlipFlopTwoLows | src/20/modules.ts:112-124 | two low pulses return a flip-flop to its state, the first sending high and the second low when it started off, and the other way round when on |
| PulseModules.ConjunctionRemembersLow | src/20/modules.ts:76-89 | a conjunction that heard low from an input sends high until that input sends high again |
| PulseModules.BroadCaster.constructor | src/20/modules.ts:43-46 | the broadcaster keeps its destinations and is named `broadcaster` |
| PulseModules.BroadCaster.ProcessPulse | src/20/modules.ts:50-56 | a low pulse to every destination, whatever came in, and no state change |
| PulseModules.FlipFlop.constructor | src/20/modules.ts:98-105 | a flip-flop starts off |
| PulseModules.FlipFlop.ProcessPulse | src/20/modules.ts:112-124 | the new state and the pulse are those of the flip-flop rule |
| PulseModules.Conjunction.constructor | src/20/modules.ts:61-72 | a conjunction starts with no inputs and high as its pulse to send |
| PulseModules.Conjunction.ProcessPulse | src/20/modules.ts:76-89 | the new state and the pulse are those of the conjunction rule |
| PulseModules.Conjunction.RegisterInput | src/20/modules.ts:91-93 | the input is remembered as having sent low, nothing else changes |
| PulseModules.ProcessModule | src/20/helpers.ts:36 | any kind of module takes the pulse by its own rule |
| PulseModules.Deliver | src/20/helpers.ts:35-36 | a destination without a module changes nothing and answers nothing; otherwise only that module changes |
| PulseModules.Delivered | src/20/helpers.ts:35-36 | the machine keeps its modules, and a missing destination changes nothing |
| PulseModules.Created | src/20/modules.ts:129-141 | `%` makes a flip-flop and `&` a conjunction named without that character, anything else the broadcaster; all start fresh |
| PulseModules.CreateModule | src/20/modules.ts:129-141 | a new module in the state `Created` describes |
| PulseModules.CreatedAllNames | src/20/modules.ts:149-152 | every module is stored under its own name, the names are the lines' names, and no conjunction has inputs yet |
| PulseModules.Registered | src/20/modules.ts:157-163 | every conjunction remembers, as low, exactly the modules that list it as a destination; other modules are unchanged |
| PulseModules.RegisterAt | src/20/modules.ts:159-161 | only conjunction `d` changes, gaining the input |
| PulseModules.CreateModules | src/20/modules.ts:143-166 | distinct new modules whose states are the created modules with conjunction inputs registered |
| PulseModules.CreateEach | src/20/modules.ts:149-152 | the first loop stores each created module under its name, a later line replacing an earlier one |
| PulseModules.RegisterEach | src/20/modules.ts:157-163 | the second loop leaves the states registered |
| PulseModules.RegisterSource | src/20/modules.ts:158-162 | one module is registered with each conjunction among its destinations |
| PulseModules.InputsFromAdd | src/20/modules.ts:157-163 | registering one more source adds it, as low, to the inputs of each module it lists |
| PulsePropagation.Added | src/20/helpers.ts:33 | each increment adds one pulse to the counts |
| PulsePropagation.DeliverAllAnswers | src/20/helpers.ts:32-40 | a pulse makes at most one answer per destination, and none when no destination has a module |
| PulsePropagation.PropagateKeepsQueueOrder | src/20/helpers.ts:27-41 | first in, first out: a push sends the queued pulses first in their order and keeps the modules |
| PulsePropagation.TallyAddsUp | src/20/helpers.ts:32-33 | highs and lows together are the deliveries, and the highs are the deliveries of the high pulses |
| PulsePropagation.HighPulses | src/20/helpers.ts:33 | only high pulses of the trace are kept |
| PulsePropagation.PushCountsTheButton | src/20/helpers.ts:15-21 | a push that ends counts at least the button's low pulse |
| PulsePropagation.TallyOfPrefix | src/20/helpers.ts:27-41 | the counts only grow along a push |
| PulsePropagation.Transmit | src/20/helpers.ts:32-40 | the pulse reaches each destination in turn, counted once each, and the answers come back in order |
| PulsePropagation.PushButton | src/20/helpers.ts:14-44 | the push ends exactly when the propagation does, the modules reach its end state, and the counts are the tally of the pulses sent |
| PulsePropagation.Pushes | src/20/helpers.ts:67-69 | `n` pushes give `n` runs |
| PulsePropagation.PushesPrefix | src/20/helpers.ts:67-69 | the first `m` of `n` pushes are the `m` pushes |
| PulsePropagation.PushAgain | src/20/part-1.ts:117 | the pushes, their counts and the state reached each grow by the new push |
| PulsePropagation.FindCycle | src/20/part-1.ts:108-121 | between 1 and `maxSteps` pushes, each counted; when complete, the number of pushes is the one the stop rule picks: all but the last leave some flip-flop on, and if the last does too, `maxSteps` is reached (`CyclePushes`) |
| PulsePropagation.StopsAtFirst | src/20/part-1.ts:108-121 | no earlier number of pushes meets the stop rule than one that does: the loop stops at the first |
| PulsePropagation.CyclePushesUnique | src/20/part-1.ts:108-121 | at most one number of pushes meets the stop rule, so the cycle the loop reports is determined by the machine |
| PulsePropagation.FindSolution | src/20/part-1.ts:162-169 | a score is `calculateScore` as written of the counts of the one number of pushes (at most 1000) the stop rule picks for the created machine; none only when one of the first 1000 pushes runs out of fuel |
| PulsePropagation.FindSolutionIntended | src/20/part-1.ts:162-169 | a score is the highs times the lows of 1000 pushes of a machine repeating the cycle the stop rule picks; none only when one of the first 1000 pushes runs out of fuel |
| PulsePropagation.Spy | src/20/part-2.ts:27-41 | the spy records nothing new beyond the watched names |
| PulsePropagation.SpyAllRecords | src/20/part-2.ts:27-41 | within a push a watched module is recorded if it was already or else sent a high pulse in that push |
| PulsePropagation.SpyPushesRecordsFirst | src/20/part-2.ts:27-41 | over a series of pushes each watched module gets the number of the first push in which it sent high, and none when it never did |
| PulsePropagation.RecordOnce | src/20/helpers.ts:67-69 | one push, shown to the spy with its number |
| PulsePropagation.RecordPulseCounts | src/20/helpers.ts:54-72 | pushes until the predicate fails: each push counted, the spy's record is of those pushes, every watched module recorded |
| PulsePropagation.FindSolutionPartTwo | src/20/part-2.ts:10-54 | the least common multiple, as written, of the first pushes at which `cc`, `jq`, `nx` and `sp` sent high |
| PulseScores.TotalsAppend | src/20/part-1.ts:26-32 | the totals of two series of counts add up |
| PulseScores.PulsesForCompletedCycles | src/20/part-1.ts:22-36 | the cycle's high total times the number of whole cycles, times its low total times the number of whole cycles; `TotalsAppend` and `RepeatedTotals` relate the totals to the pushes |
| PulseScores.ScoreForRemainingSteps | src/20/part-1.ts:38-50 | the highs times the lows of the first `numberOfPushes % length` steps |
| PulseScores.RemainingScoreOfWholeCycles | src/20/part-1.ts:42 | with a whole number of cycles nothing is left over |
| PulseScores.Repeated | src/20/part-1.ts:162-169 | a machine repeating the cycle makes one counter per push |
| PulseScores.RepeatedTotals | src/20/part-1.ts:33-49 | `k` cycles and `r` steps count `k` times the cycle plus its first `r` steps |
| PulseScores.CalculateScoreIntended | src/20/part-1.ts:52-63 | the corrected score is all the highs times all the lows of the pushes |
| PulseScores.IntendedTotals | src/20/part-1.ts:22-50 | the counts of the pushes are the cycle's totals once per whole cycle plus the totals of the steps left over |
| PulseScores.CalculateScore | src/20/part-1.ts:52-63 | the score as written; `CalculateScoreDropsCrossTerms` states how it differs from the corrected score |
| PulseScores.CalculateScoreDropsCrossTerms | src/20/part-1.ts:52-63 | the score as written is short of the true one by exactly the two cross terms |
| PulseScores.CalculateScoreOfThreePushes | src/20/part-1.ts:52-63 | a two-step cycle of one high and one low each, pushed three times, scores 5 as written and 9 in truth |
| PulseScores.CalculateScoreOfWholeCycles | src/20/part-1.ts:52-63 | with a whole number of cycles the score as written is right |
| Gardens.IndexOf | src/21/garden.ts:47-49 | -1 exactly when there is no start tile, otherwise the first index holding it |
| Gardens.NewGarden | src/21/garden.ts:20-26 | the start is the first `S` of the grid, and -1 exactly when there is none; `InfinityGarden`'s constructor (src/21/infinity-garden.ts:97-103) is the same |
| Gardens.CreateGarden | src/21/garden.ts:30-36 | the grid of the joined lines, as wide as the first line |
| Gardens.ReachStep | src/21/garden.ts:79-95 | a step from a reached plot to a neighbour that is no rock is reached one step later |
| Gardens.ReachedIsPlot | src/21/garden.ts:54-99 | every plot a walk reaches is on the grid and no rock, and with no steps it is the start |
| Gardens.Walk | src/21/garden.ts:54-99 | the plots counted are distinct plots reached in at most `maxSteps` steps with its parity, at most all plots; the start counts for even `maxSteps`, alone for 0 |
| Gardens.TakeFirst | src/21/garden.ts:61-96 | one turn of the loop: the first item is counted iff its steps have the parity of `maxSteps`; on its last step or when visited it is only dropped, otherwise it is visited and its neighbours are queued after the rest; the loop invariant is kept |
| Gardens.WalkCount | src/21/garden.ts:98 | at most all plots are counted, and only the start with no steps |
| Gardens.PushNeighbors | src/21/garden.ts:79-95 | the queue becomes the old queue followed by one item per neighbour that is no rock and not visited, one step further, in neighbour order; every item stays a reached plot |
| Gardens.QueueNeighbors | src/21/garden.ts:80-95 | the loop appends exactly the items `Queued` lists for the neighbours, in order |
| Gardens.QueuedExactly | src/21/garden.ts:80-95 | an item is queued iff some neighbour is no rock, not visited, and the item is that neighbour one step further |
| Gardens.QueuedReached | src/21/garden.ts:79-95 | the items queued around a reached plot are reached one step further, so a queue of reached items stays one |
| InfinityGardens.AdjustGridId | src/21/infinity-garden.ts:16-52 | the id stays absent when absent; otherwise its offsets move one copy in the direction, and natural, normal ids stay so |
| InfinityGardens.NormalUnique | src/21/infinity-garden.ts:16-52 | a normal id is fixed by its offsets, so each copy has one id |
| InfinityGardens.AdjustCancels | src/21/infinity-garden.ts:16-52 | crossing into a copy and straight back gives the id started from |
| InfinityGardens.MapShape | src/utils/Grid.ts:140-156 | the map is whole rows of `columns` cells, and every cell's position lies within them and leads back to its index |
| InfinityGardens.LocateOrigin | src/21/infinity-garden.ts:213-222 | the first copy, where the walk starts, lies where the map lies |
| InfinityGardens.LocateTile | src/21/infinity-garden.ts:128-182 | every copy shows the map: an index of any copy holds the map's cell at that index |
| InfinityGardens.LocateInjective | src/21/infinity-garden.ts:198-202 | two plots with normal ids and the same location on the infinite garden have the same id and index, so `uniqueId` names each plot once |
| InfinityGardens.GetItemUp | src/21/infinity-garden.ts:128-138 | the copy changes exactly off the top row |
| InfinityGardens.GetItemRight | src/21/infinity-garden.ts:140-154 | the copy changes exactly off the last column |
| InfinityGardens.GetItemDown | src/21/infinity-garden.ts:156-166 | the copy changes exactly off the bottom row |
| InfinityGardens.GetItemLeft | src/21/infinity-garden.ts:168-182 | the copy changes exactly off the first column |
| InfinityGardens.UpCell | src/21/infinity-garden.ts:128-138 | the cell above, or the bottom cell of the same column from the top row |
| InfinityGardens.DownCell | src/21/infinity-garden.ts:156-166 | the cell below, or the top cell of the same column from the bottom row |
| InfinityGardens.RightCell | src/21/infinity-garden.ts:140-154 | the cell to the right, or the first of the same row from the last column |
| InfinityGardens.LeftCell | src/21/infinity-garden.ts:168-182 | the cell to the left, or the last of the same row from the first column |
| InfinityGardens.TravelMoves | src/21/infinity-garden.ts:128-182 | each `getItem…` moves exactly one step on the infinite garden |
| InfinityGardens.GetNeighbors | src/21/infinity-garden.ts:186-208 | four neighbours, up, right, down, left, each one step away with the map's tile |
| InfinityGardens.Walk | src/21/infinity-garden.ts:211-267 | the count is of distinct plots of the infinite garden reached in at most `maxSteps` steps with its parity; the start counts for even `maxSteps`, alone for 0 |
| InfinityGardens.Explore | src/21/infinity-garden.ts:227-264 | the loop ends with its invariant and an empty queue |
| InfinityGardens.TakeFirst | src/21/infinity-garden.ts:229-263 | one loop turn keeps the invariant and marks a new key or shortens the queue |
| InfinityGardens.WalkDone | src/21/infinity-garden.ts:266 | with the queue empty the counted keys name that many plots the elf can end on |
| InfinityGardens.WalkCount | src/21/infinity-garden.ts:266 | the counted keys name distinct plots of the infinite garden |
| InfinityGardens.PushNeighbors | src/21/infinity-garden.ts:245-263 | each neighbour that is no rock and not visited is queued one step further, in order, and the queue stays reached |
| InfinityGardens.QueueNeighbors | src/21/infinity-garden.ts:246-263 | the queue gains exactly the items for the neighbours that are no rock and not visited |
| InfinityGardenFindings.GetItemRightAsWritten | src/21/infinity-garden.ts:140-154 | the copy is as intended, but the index agrees with the intended one exactly off the last column |
| InfinityGardenFindings.GetItemLeftAsWritten | src/21/infinity-garden.ts:168-182 | the copy is as intended, and the index is `NaN` exactly in the first column |
| InfinityGardenFindings.RightFromLastColumn | src/21/infinity-garden.ts:145-148 | from the last column the step as written lands on the next row or past the end, where the intended step wraps to the same row |
| InfinityGardenFindings.RightLeavesTheMap | src/21/infinity-garden.ts:145-148 | in the garden `S.` the step right from `.` leaves the map as written |
| InfinityGardenFindings.LeftHasNoIndex | src/21/infinity-garden.ts:173-176 | in the garden `S.` the step left from `S` has no index as written |

## Left out

Weaker contracts:

- Cities.FindBestPath: the result is proved to be -1 or the heat loss of a real route to the last block. It is not proved minimal, and -1 is not proved to mean that no route exists. The order in which the priority queue breaks ties is modelled as "first queued wins", which may differ from heap-js.
- Gardens.Walk: the count is proved sound (distinct plots, each reachable with the right parity, start included for an even step count). It is not proved complete, that is, that every such plot is counted.
- Gardens.Walk: requires a start tile `S`. With no `S` the source walks from index -1, where `getNeighbors(-1)` finds a "down" neighbour at `columns - 1` and a "right" neighbour at 0. That phantom walk is not modelled.
- InfinityGardens.Walk: the same two limits as `Gardens.Walk`. The count is proved sound but not complete, and a garden without `S` is excluded.
- InfinityGardens.Walk: walks with the intended neighbour steps, which wrap within the row. The source's `getItemRight` and `getItemLeft` read the undefined `columnCount` (see Findings), so on the garden `S.` with two steps the source counts a phantom `NaN` plot. `InfinityGardenFindings` models those two steps as written; the walk over them is not modelled.
- Contraptions.FindBestPath: requires every tile to be one of `.`, `/`, `\`, `-` and `|`. On any other tile the source throws a `TypeError` when it looks up the mirror table; that crash is not modelled.
- Lagoon.ParseHex: models `parseInt(s, 16)` on the characters the puzzle gives. The leading whitespace, sign and `0x` prefix that `parseInt` also accepts are not modelled. `FindSolution` takes instructions that are already parsed, so a `NaN` distance does not flow through it.
- LensHash.Hash: uses the Dafny character's code. The source's `charCodeAt` gives a UTF-16 code unit, which differs only outside the Basic Multilingual Plane, where puzzle input never goes.
- NodeWalk.CountStepsToEndNode: requires a non-empty instruction list. With none, the source's `steps % instructions.length` is `NaN` and the next lookup throws.
- GhostWalk.FindPossibleEndNode: requires a non-empty instruction list, for the same reason.
- PipeMaze.PipeGrid.FindMainLoop: the loop found is proved closed, starting at `S`, never turning back and visiting `S` once. It is not proved to be the only loop through `S`, and a result of -1 is not proved to mean that no closed loop through `S` exists (the search is not proved complete).
- PipeMaze.PipeGrid.MarkOutsideCells: the fill is proved to turn outside exactly the ground reachable from index 0. It is not proved that no tile inside the loop is reachable, that is, that the loop walls its inside off from the frame (a discrete Jordan curve argument).
- PipeMaze.FindSolutionPartTwo: the answer is proved to be the ground of `Marks`: the tiles inside the loop's polygon that the fill from index 0 does not reach. It is not proved equal to the number of tiles the loop encloses, for the reason given for `MarkOutsideCells`. When the search finds no loop the count is 0 (`NoLoopNoGround`), but that no loop exists then is not proved, as for `FindMainLoop`.
- PipeMaze.MarkAndCount: the same limit as `PipeMaze.FindSolutionPartTwo`: the count is that of `Marks`, not proved equal to the number of enclosed tiles.
- PipeMaze.PipeGrid.ReplaceCellAtIndex: takes a natural index. The source is never called with a negative one.
- PulsePropagation.FindCycle: the steps recorded are the pulse counts of the pushes made. The cycle it reports is not proved to be a true cycle of the module states.
- LensBoxes.Initialise: the focusing power sums the boxes by box number rather than in `Map` insertion order. A sum does not depend on the order.

Behaviour not modelled:

- Engine parts (day 3): in the source `Number(' ')` is 0, so a space cell would count as a digit. The model uses a strict digit test, since the puzzle grid has no spaces.
- Pipe maze (day 10): `padGrid` on rows of different lengths is not modelled; the model takes a rectangular grid.
- Rectangular input (`Grid` and days 11, 14, 16, 17 and 21): the model assumes every input line is as long as the first, so the cells make whole rows (`Grids.Grid.Valid` asks `|cells| % columns == 0`, and the day 11, 14, 16, 17 and 21 grids inherit it). The source builds each grid from `lines.join('')` with the first line's length as the width and accepts any number of cells; its neighbour and coordinate arithmetic on a ragged last row is not modelled. Puzzle input is always rectangular.
- Pipe maze (day 10): the ray cast in `isIndexInsideMainLoop` uses exact `real` arithmetic (and cross-multiplied integers), not IEEE doubles.
- Pulse modules (day 20): part 1 imports `src/20/helper.ts`, an older copy of `src/20/modules.ts` without `lastPulseType`. Both are modelled by the same module rules, since their pulse handling is the same.
- Camel cards (day 7): the default string `.sort()` of the group counts is modelled as a numeric sort. The two agree for counts of at most 5.
- Camel cards (day 7): the bet × rank sum in the part-1 driver is not modelled.
- Input parsing by regular expressions, `split` and `JSON.parse` (days 2, 4, 5, 6, 8, 11, 14, 16, 17, 18, 19 and 21): the model starts from tokenised input.
- Termination in general: the `while (true)` and predicate-driven loops take a `fuel` bound. These are the day 8 walks, day 10's `findMainLoop` and flood fill, day 19's workflow loop, and day 20's `pushButton`, `findCycle` and `recordPulseCounts`. A run that runs out of fuel reports so (a `false` flag or none), and nothing is claimed about it.
- `log()`, `logGrid()`, `console.table` and `console.log`: output only.
- `src/utils/fetch-input.ts` and `src/utils/performance.ts`: network, file cache and timer. The input text is a parameter.
- The heap-js priority queue of day 17 is replaced by a sequence with select-min.
- The stale imports of `src/05/part-2.ts` (names `src/05/seed-range.ts` does not export) are not modelled.
- `platform.cycle` (src/14/part-2.ts:11), `findBestPath(4, 10)` (src/17/part-2.ts:11) and `findBestPath(index, direction)` (src/16/part-2.ts:44-49) call members that do not exist in the source. They are not modelled.
- The duplicate `getPrimeFactors` in `src/08/part-2.ts` is dead code.

## Findings

| source | as written | input that shows it | evidently intended | confidence | as-written member | corrected member |
|---|---|---|---|---|---|---|
| utils/least-common-multiple.ts:9-26 | `getPrimeFactors` keeps only the last divisibility test of its inner loop as `isPrime`. That flag is `undefined` for 2 and 3, so they are never taken, and every odd divisor from 5 up passes. A repeated factor is taken once. | the list `[4]`: no factor is found and the "least common multiple" is 1, which 4 does not divide | factor each number fully, so the result is a common multiple of the inputs | not executed | Lcm.LcmAsWrittenOfFour | Lcm.LcmIsCommonMultiple |
| src/09/part-2.ts:32-39 | a history of one value leads to an empty difference row. Its first value is `undefined`, so the prediction and the total are `NaN`. | the history `[7]` | a single value predicts itself, as any constant history does | not executed | Extrapolation.SingleValueIsNaN | Extrapolation.ConstantPredicts |
| src/14/platform.ts:51 | `distributeRoundedRocks` steps from row to row by `rowCount` cells instead of by the row width. This only works on square platforms. | the one-row platform `O.` (with its added cube edge): load 2 instead of 1; a three-row, one-column platform: the array grows past its end and the load is -1 instead of 5 | step by the row width, so the tilt keeps every rounded rock in its column | not executed | Platforms.StrideByRowCountMisplaces | Platforms.TiltKeepsRockCount |
| src/21/infinity-garden.ts:146-148 | `getItemRight` tests `this.columnCount`, which the class does not define. The test never fires, so a step right from the last column goes to the next index. | the garden `S.`: from `.` the step lands at index 2, past the end of the two cells | wrap to the first column of the same row in the copy to the right | not executed | InfinityGardenFindings.RightLeavesTheMap | InfinityGardens.TravelMoves |
| src/21/infinity-garden.ts:174-176 | `getItemLeft` computes the index from `this.columnCount`, which is `undefined`. A step left from the first column gives index `NaN`. | the garden `S.`: the step left from `S` has no index | wrap to the last column of the same row in the copy to the left | not executed | InfinityGardenFindings.LeftHasNoIndex | InfinityGardens.TravelMoves |
| src/20/part-1.ts:22-63 | `calculateScore` multiplies the high and low totals of the whole cycles and adds the product of the remaining pushes' totals. It drops the cross terms, so the score is wrong whenever the pushes are not a whole number of cycles. | a cycle of two pushes that each count one high and one low pulse, pushed 3 times: 5 instead of 9 | the product of all high pulses and all low pulses over every push | not executed | PulseScores.CalculateScoreOfThreePushes | PulseScores.CalculateScoreIntended |
