# Advent of Code 2025, days 1 to 7, in Dafny

This project models the solvers of days 1 to 7 of a C++ Advent of Code 2025
repository, with the helpers they share, and proves what they compute.

The shared helpers are:

- `split_at` and `split_lines`, which cut text at a delimiter;
- the `Grid<T>` template, a row-major buffer with checked `idx`, `at` and `ref`;
- the library conversions `std::stoll` and `std::to_string`, as the solvers use them.

Each day has a parser and the two answers `part_1` and `part_2`:

- day 1: a dial of 100 positions;
- day 2: ranges of invalid product ids;
- day 3: the largest joltage of battery banks;
- day 4: paper rolls on a grid;
- day 5: fresh ingredient ranges;
- day 6: a cephalopod math worksheet;
- day 7: a tachyon beam manifold of splitters.

## How the model is organised

The modules follow the source files:

| module | file |
|---|---|
| `Wrappers` | `Option` and `Result` |
| `Text` | `split_at` / `split_lines` of `common.cpp` |
| `Decimal` | `std::stoll` and friends, and `std::to_string` |
| `Blocks` | the "parse every line, fail if one fails" loop several solvers share |
| `Grids` | `Grid<T>` of `common.hpp` |
| `Day1` to `Day7` | `dayN.cpp` |
| `Totals` | sums shared by several days |

Code that is written as expressions is modelled as `function`s. Code that loops or updates things in place is modelled as `method`s, proved against those functions. Examples include `split_at`, the `Grid` constructor, the day 4 removal loop, the day 5 merge, the day 6 parsers, and the day 7 splitter class with its `map` fields.

Every solver throws on bad input, through `CHECK`, `std::stoll` or `vector::at`. Every such exception is the single error value `Err` of a `Result`. Undefined behaviour on an empty vector (`front()`, `back()`) is modelled as `Err` too.

Numbers are unbounded `nat`/`int`. The 64-bit `Answer` type is not modelled (see "Left out").

## Model

| member | source | states |
|---|---|---|
| Text.Pieces | src/common.cpp:15 | every delimiter closes one piece, so there is always at least one piece |
| Text.NonEmptyMembers | src/common.cpp:16-18 | the non-empty filter keeps exactly the pieces that are not empty, in order |
| Text.NonEmptySnoc | src/common.cpp:16-19 | one more piece is kept exactly when it is not empty |
| Text.SplitAt | src/common.cpp:10-30 | the getline loop returns exactly `Split(s, d, allowEmpty)`: the pieces between delimiters, no final empty piece, and the empty ones dropped unless `allowEmpty` |
| Text.ScanStep | src/common.cpp:15 | one more character either closes the current piece at the delimiter or extends it |
| Text.OtherThanNonEmpty | src/common.cpp:17 | for a piece without the delimiter, the `any_of` test holds exactly when the piece is not empty |
| Text.SplitLines | src/common.cpp:33-36 | `split_lines` is `split_at` at `'\n'` without empty pieces |
| Text.PiecesNoDelimiter | src/common.cpp:15 | no piece contains the delimiter |
| Text.Split | src/common.cpp:10-30 | what `split_at` returns: no piece contains the delimiter, and without `allow_empty` no piece is empty |
| Text.JoinPieces | src/common.cpp:15 | joining the pieces with the delimiter gives the text back |
| Text.FieldsRoundTrip | src/common.cpp:15-21 | with empty pieces allowed, joining the result gives the text back, apart from a final delimiter |
| Text.PiecesSnoc | src/common.cpp:15 | one more character closes the last piece or extends it |
| Text.PiecesAppendPlain | src/common.cpp:15 | text without a delimiter only extends the last piece |
| Text.PiecesOfJoin | src/common.cpp:15 | cutting joined delimiter-free pieces gives the pieces back |
| Text.SplitOfJoin | src/common.cpp:10-30 | `split_at` undoes joining non-empty, delimiter-free pieces |
| Text.SplitOfTerminated | src/common.cpp:10-30 | `split_at` undoes writing non-empty pieces that each end in the delimiter, as a file of lines is written |
| Text.FieldsOfTerminated | src/common.cpp:10-30 | with `allow_empty`, `split_at` also undoes terminated pieces that are empty |
| Text.WordsOfJoin | src/common.cpp:16-18 | without `allow_empty`, joined pieces come back with the empty ones dropped |
| Text.NonEmptySpaced | src/common.cpp:16-18 | dropping the empty pieces of words separated by runs of delimiters gives back the words |
| Text.SpacedPieces | src/common.cpp:15 | every piece of a spaced layout is empty or one of the words |
| Text.JoinAvoids | src/common.cpp:15 | a character that is neither the delimiter nor in any piece is not in the joined text |
| Text.WordsOfSpaced | src/common.cpp:10-30 | `split_at(s, ' ')` reads back the words of any line that separates them by runs of spaces |
| Text.SpacedLine | src/common.cpp:10-30 | a line laid out as spaced words splits back into its words, is not empty, and holds no foreign character |
| Decimal.DigitChar | src/day2.cpp:30 | the digit character of `d` reads back as `d` |
| Decimal.ValueConcat | src/day2.cpp:30 | the value of two concatenated digit strings is the first shifted by the length of the second, plus the second |
| Decimal.ValueBound | src/day2.cpp:30 | a digit string of length n denotes less than 10^n |
| Decimal.ValueCons | src/day2.cpp:30 | the leading digit of a digit string weighs 10^(length - 1) |
| Decimal.PrefixValueIsValue | src/day3.cpp:34 | the indexed value of a prefix is the value of the prefix |
| Decimal.ParseLiteral | src/day1.cpp:55 | a digit string whose indexed value is n parses to n |
| Decimal.ToDecimal | src/day2.cpp:30 | `std::to_string` of a number is a digit string without a leading zero, and it reads back as the number |
| Decimal.ToDecimalLengthMono | src/day2.cpp:30 | a larger number has at least as many digits |
| Decimal.SkipSpaces | src/day6.cpp:56 | the conversion skips exactly the leading white space |
| Decimal.DigitsEnd | src/day6.cpp:56 | the digits read are the maximal run after the white space |
| Decimal.Parse | src/day2.cpp:24-25 | `std::stoll` of a digit string is its value, and text without any digit is rejected |
| Decimal.ParseDecimal | src/day5.cpp:28-32 | white space, then digits, then text that does not start with a digit, parses to the value of the digits |
| Decimal.ParseRejects | src/day5.cpp:28-32 | text that, after white space, does not start with a digit is rejected |
| Blocks.ParseAll | src/day5.cpp:31-33 | a block parsed line by line has one value per line, or fails |
| Blocks.ParseAllStep | src/day5.cpp:31-33 | parsing one more line appends its value |
| Blocks.ParseAllValues | src/day5.cpp:31-33 | on success, value k is line k parsed |
| Blocks.ParseAllFails | src/day5.cpp:31-33 | a line that fails makes the whole block fail |
| Blocks.ParseAllErr | src/day5.cpp:31-33 | a block fails only when some line of it fails |
| Blocks.ParseAllOk | src/day5.cpp:31-33 | when every line parses, the block gives exactly those values |
| Grids.SlotInBuffer | src/common.hpp:165-171 | on a grid no taller than wide, every cell's slot `i * nrows + j` lies inside the buffer |
| Grids.LastSlotOutside | src/common.hpp:165-171 | on a taller grid, the last cell's slot lies outside the buffer, so `m_buf.at` throws |
| Grids.SquareSlotsDistinct | src/common.hpp:165-171 | on a square grid, distinct cells have distinct slots |
| Grids.Written | src/common.hpp:157-162 | the buffer the constructor's writes leave always has `nrows * ncols` slots |
| Grids.WrittenSquare | src/common.hpp:157-162 | on a square grid, the buffer holds exactly the cells written so far, at their own slots, and the initial value elsewhere |
| Grids.WideFirstRow | src/common.hpp:157-162 | on the wide grid "abc"/"def", the first row fills the first three slots |
| Grids.WideGridShares | src/common.hpp:157-170 | on a wide grid the rows share slots: the second row overwrites slot 2, and the last slot is never written |
| Grids.Grid.Sized | src/common.hpp:153-155 | the grid before filling has `nrows * ncols` default (value-initialised) cells |
| Grids.Grid.Idx | src/common.hpp:165-171 | `idx` succeeds exactly inside the grid, and then lies inside the buffer when the grid is no taller than wide |
| Grids.Grid.AtIndex | src/common.hpp:173-177 | `at(p)` succeeds exactly when `p` is inside the buffer, and then reads slot `p` |
| Grids.Grid.At | src/common.hpp:179-183 | `at(i, j)` succeeds exactly when `idx` does and its slot is in the buffer, and then reads that slot |
| Grids.Grid.RefIndex | src/common.hpp:185-189 | writing through `ref(p)` changes slot `p` and nothing else, or fails outside the buffer |
| Grids.Grid.Ref | src/common.hpp:191-195 | writing through `ref(i, j)` changes slot `idx(i, j)` and nothing else, or fails |
| Grids.Build | src/common.hpp:144-163 | the constructor fails exactly when the lines are ragged or the grid is taller than wide; otherwise it gives the grid of the lines, with `nrows` lines and `ncols` the first line's length |
| Grids.FromLines | src/common.hpp:150-162 | the constructor's loop over the lines, with the same guarantee |
| Grids.FillRow | src/common.hpp:158-161 | one row of the loop writes the cells of that row in order, and stops only on a grid taller than wide |
| Day1.CRem | src/day1.cpp:38 | C++ `%` agrees with the mathematical remainder on a non-negative operand, and is smaller than the divisor in absolute value |
| Day1.RemoveFullTurns | src/day1.cpp:19-29 | it returns the number of full turns, and what remains has the rotation's sign, is under 100 in absolute value, and adds back to the rotation |
| Day1.Rotate | src/day1.cpp:31-39 | from a dial in 0..99, the dial ends in 0..99 at (dial + rot) mod 100 |
| Day1.ParseRot | src/day1.cpp:41-58 | `L` then the digits of n gives -n; `R` then the digits gives n; any other first character is an error |
| Day1.GetMoves | src/day1.cpp:72-78 | `getmoves` gives one rotation per line, rotation k being `parserot` of line k, and fails only when some line fails |
| Day1.DialPosition | src/day1.cpp:60-69 | after the moves, the dial reads the start plus their sum, mod 100 |
| Day1.GetPass | src/day1.cpp:60-69 | from a dial in 0..99, `getpass` counts the moves after which the start plus the moves so far is a multiple of 100 |
| Day1.PassFoldCountsStops | src/day1.cpp:62-67 | the count the accumulate of `getpass` carries is the number of moves that leave the dial on 0 |
| Day1.ClicksRight | src/day1.cpp:85-103 | the right clicks landing on 0 are the multiples of 100 passed |
| Day1.ClicksLeft | src/day1.cpp:85-103 | the left clicks landing on 0 are the multiples of 100 passed |
| Day1.RightTurnClicks | src/day1.cpp:85-103 | a right turn lands on 0 once per full turn, and once more when its remainder carries the dial past 99 |
| Day1.LeftTurnClicks | src/day1.cpp:85-103 | a left turn lands on 0 once per full turn, and once more when its remainder takes a dial that is not on 0 down to 0 or below |
| Day1.CrossesZero | src/day1.cpp:85-103 | from a dial in 0..99, `crosses_zero(dial, rot)` is the number of the rotation's single clicks that leave the dial on 0 |
| Day1.ClicksMod | src/day1.cpp:85-103 | only the dial's position mod 100 matters to the clicks |
| Day1.ClickFoldDial | src/day1.cpp:105-115 | the dial that part 2's fold carries is the dial of part 1 |
| Day1.ClickFoldCountsClicks | src/day1.cpp:107-113 | the count the accumulate of `getpass_0x434C49434B` carries is the number of clicks on 0 of all the moves |
| Day1.GetPassClicks | src/day1.cpp:105-115 | `getpass_0x434C49434B` counts every single click of every move that leaves the dial, started at 50, on 0 |
| Day1.RotateExamples | src/day1.cpp:127-136 | the rotations of `tests()`, and `rotate(0, -377) == 23` |
| Day1.ParseRotExamples | src/day1.cpp:140-141 | `parserot("L68") == -68` and `parserot("R48") == 48` |
| Day1.RotText | src/day1.cpp:41-58 | the text of a rotation is `L` or `R` followed by digits, with no newline |
| Day1.RotTextRoundTrip | src/day1.cpp:41-58 | `parserot` reads back the text of every rotation |
| Day1.GetMovesRoundTrip | src/day1.cpp:72-78 | `getmoves` reads back the file of any non-empty list of rotations, one per line |
| Day1.SamplePass | src/day1.cpp:175 | `getpass` of the sample moves is 3 |
| Day1.SamplePassHalf | src/day1.cpp:159-164 | after the first five sample moves, the dial reads 55, with one stop on 0 |
| Day1.SampleClicks | src/day1.cpp:202 | `getpass_0x434C49434B` of the sample moves is 6 |
| Day1.SampleClicksHalf | src/day1.cpp:181-190 | after five sample moves, part 2 has counted 3 clicks on 0 |
| Day1.SampleAnswers | src/day1.cpp:145-177 | on the sample text, part 1 gives 3 and part 2 gives 6 |
| Day1.CrossesZeroExamples | src/day1.cpp:205-215 | the `crosses_zero` checks of `tests()` |
| Day1.Part1 | src/day1.cpp:80-83 | `part_1` fails exactly when some line is not a rotation, and otherwise counts the moves that leave the dial, started at 50, on 0 |
| Day1.Part2 | src/day1.cpp:118-121 | `part_2` fails exactly when some line is not a rotation, and otherwise counts the single clicks of all moves that leave the dial on 0 |
| Day2.RepeatLength | src/day2.cpp:14-21 | n copies of `s` have n times its length |
| Day2.GenerateInvalid | src/day2.cpp:14-21 | `generate_invalid(s, n)` fails its CHECK for n < 2 and otherwise is `s` written n times |
| Day2.RepeatDigits | src/day2.cpp:30 | copies of a digit string are a digit string |
| Day2.RepeatHead | src/day2.cpp:30 | copies of `s` start with the first character of `s` |
| Day2.ValueRepeat | src/day2.cpp:30 | the value of n copies of a digit string is its value times the repunit of its length |
| Day2.NumDigits | src/day2.cpp:30 | every number has at least one digit |
| Day2.ToDecimalLength | src/day2.cpp:30 | `to_string(j)` has exactly `NumDigits(j)` characters |
| Day2.NumDigitsMono | src/day2.cpp:30 | a larger number has at least as many digits |
| Day2.ParseCandidate | src/day2.cpp:30 | `stoll(generate_invalid(to_string(j), i))` is `j * RepUnit(NumDigits(j), i)` |
| Day2.CandidateAtLeast | src/day2.cpp:30 | a candidate is at least its block |
| Day2.LeadingDigit | src/day2.cpp:30 | a digit string without a leading zero is at least 10^(length - 1) |
| Day2.ToDecimalLead | src/day2.cpp:30 | `to_string` of a positive number does not start with '0' |
| Day2.CandidateMono | src/day2.cpp:29-36 | for a fixed number of copies, a larger block gives a larger candidate, so the loop's `break` loses nothing |
| Day2.CandidateBelowLonger | src/day2.cpp:29-36 | a block with fewer digits gives a smaller candidate |
| Day2.CandsAbove | src/day2.cpp:34-36 | past the first candidate above the range, no later block is taken |
| Day2.CandsBelow | src/day2.cpp:31-33 | while the candidates are below the range, nothing is taken |
| Day2.CandsMembers | src/day2.cpp:29-40 | one round takes exactly the candidates of blocks 1 to J that lie in the range |
| Day2.RowsMembers | src/day2.cpp:28-41 | all rounds together take exactly the candidates of 2 to I copies that lie in the range |
| Day2.DedupMembers | src/day2.cpp:37-39 | the `find` test keeps every value found, and no other |
| Day2.DedupDistinct | src/day2.cpp:37-39 | the `find` test never keeps a value twice |
| Day2.DedupSnoc | src/day2.cpp:37-39 | a new value is appended exactly when it has not been kept before |
| Day2.InvalidsMembers | src/day2.cpp:23-43 | the ids found are exactly the numbers of the range made of a block written 2 to I times |
| Day2.InvalidsDistinct | src/day2.cpp:23-43 | no id is found twice |
| Day2.GenerateAllInvalids | src/day2.cpp:23-43 | the two loops return `AllInvalids(start, end, single)`: both ends parsed, then the deduplicated rounds of 2 up to 2 (single) or `end.size()` copies |
| Day2.MakeCandidate | src/day2.cpp:30 | the candidate of block j with i copies |
| Day2.Round | src/day2.cpp:29-40 | one pass of the inner loop adds the new candidates of that round to those kept so far |
| Day2.Block | src/day2.cpp:30-39 | one block of the inner loop: it skips a candidate below the range, stops at one above it, and otherwise appends it unless it was already kept |
| Day2.RoundStep | src/day2.cpp:31-39 | what one block does to the ids kept so far |
| Day2.SumAllInvalids | src/day2.cpp:45-48 | it fails exactly when an end fails to parse, and otherwise is the sum of the ids found |
| Day2.ToRange | src/day2.cpp:50-54 | `to_range` succeeds exactly when the entry splits into two pieces at '-', and neither piece is empty or holds '-' |
| Day2.ToRangeRoundTrip | src/day2.cpp:50-54 | `to_range` undoes writing a range as start-end |
| Day2.Shares | src/day2.cpp:58-64 | entry k's share is `sum_all_invalids` of `to_range` of entry k |
| Day2.EntrySum | src/day2.cpp:45-54 | an entry's share fails exactly when the entry is not two pieces at `-` or an end does not parse, and is otherwise the sum of the range's invalid ids |
| Day2.Part | src/day2.cpp:56-80 | both parts fail exactly when some comma-separated entry's share fails, and are otherwise the total of the shares |
| Day2.SharesTotal | src/day2.cpp:56-80 | adding up the entries' shares fails exactly when one share fails, and otherwise gives the sum of all the shares |
| Day2.Part1 | src/day2.cpp:56-67 | `part_1` is the total over the entries of the ids made of a block written twice, failing exactly when an entry fails |
| Day2.Part2 | src/day2.cpp:69-80 | `part_2` is the total over the entries of the ids made of a block written at least twice, failing exactly when an entry fails |
| Day2.RepeatExamples | src/day2.cpp:84-107 | `generate_invalid("1") == "11"`, `("9", 3) == "999"`, `("2", 6) == "222222"` |
| Day2.RepUnitExamples | src/day2.cpp:84-107 | the repunits 11, 111, 1111, 101 and 10101 |
| Day2.DedupOfDistinct | src/day2.cpp:37-39 | the `find` test keeps a list without repeats as it is |
| Day2.CandsExample1 | src/day2.cpp:86 | the round of two copies over 11-22 takes 11 and 22 |
| Day2.InvalidsExample1 | src/day2.cpp:86 | the ids of 11-22 are 11 and 22 |
| Day2.CandsExample2a | src/day2.cpp:110 | the round of two copies over 95-115 takes 99 |
| Day2.CandsExample2b | src/day2.cpp:110 | the round of three copies over 95-115 takes 111 |
| Day2.RowsExample2 | src/day2.cpp:110 | the rounds over 95-115 take 99, then 111 |
| Day2.InvalidsExample2 | src/day2.cpp:110 | the ids of 95-115, with any number of copies, are 99 and 111 |
| Day2.RowsStep | src/day2.cpp:28-41 | one more round of copies appends its candidates |
| Day2.DedupPair | src/day2.cpp:37-39 | two different values are both kept |
| Day2.CandsExample3a | src/day2.cpp:111 | the round of two copies over 998-1012 takes 1010 |
| Day2.CandsExample3b | src/day2.cpp:111 | the round of three copies over 998-1012 takes 999 |
| Day2.CandsExample3c | src/day2.cpp:111 | the round of four copies over 998-1012 takes nothing |
| Day2.RowsExample3 | src/day2.cpp:111 | the rounds over 998-1012 take 1010 before 999 |
| Day2.InvalidsExample3 | src/day2.cpp:111 | the ids of 998-1012 are 1010 and 999, in that order |
| Day2.AllInvalidsExample1 | src/day2.cpp:86 | `generate_all_invalids("11", "22")` is 11, 22 |
| Day2.AllInvalidsSingle2 | src/day2.cpp:87 | `generate_all_invalids("95", "115")` is 99 alone |
| Day2.AllInvalidsSingle3 | src/day2.cpp:88 | `generate_all_invalids("998", "1012")` is 1010 alone |
| Day2.AllInvalidsExample2 | src/day2.cpp:110 | `generate_all_invalids("95", "115", false)` is 99, 111 |
| Day2.AllInvalidsExample3 | src/day2.cpp:111 | `generate_all_invalids("998", "1012", false)` is 1010, 999 |
| Day2.NumDigitsExamples | src/day2.cpp:30 | the digit counts of 1, 8, 9, 10 and 11 |
| Day2.RangeExample | src/day2.cpp:98-100 | `to_range("11-22")` is ("11", "22"), and its sum is 33 |
| Day3.FirstMax | src/day3.cpp:13-14 | `max_element` of a non-empty range returns a position in the range |
| Day3.FirstMaxSpec | src/day3.cpp:13-14 | `max_element` returns a largest character of the range, and the first one |
| Day3.Picks | src/day3.cpp:25-32 | the greedy choice makes k picks, all from the start position on |
| Day3.Sub | src/day3.cpp:30 | the digits at the given positions, one per position |
| Day3.SubIndex | src/day3.cpp:30 | digit t of the chosen string is the bank's digit at position t |
| Day3.Chosen | src/day3.cpp:25-32 | the greedy choice turns on exactly k batteries |
| Day3.OvermaximumJoltage | src/day3.cpp:19-35 | `overmaximum_joltage` fails its size CHECK on a bank of fewer than twelve batteries, and otherwise reads the twelve greedy picks |
| Day3.ChooseGreedy | src/day3.cpp:25-32 | the picking loop: each round takes the first largest digit of the window from just after the previous pick to the last position that leaves room for the remaining picks |
| Day3.ChosenStep | src/day3.cpp:27-31 | one round of the loop appends the pick and continues after it |
| Day3.ChosenPicks | src/day3.cpp:25-32 | the greedy digits are the digits at the greedy positions |
| Day3.ChosenDigits | src/day3.cpp:30 | on a bank of digits, the chosen batteries are digits |
| Day3.AscendingRoom | src/day3.cpp:27 | a choice of ascending positions leaves room after its first one |
| Day3.PicksAscending | src/day3.cpp:25-32 | the greedy positions strictly increase, so each battery turns on once and in order |
| Day3.PicksWindow | src/day3.cpp:27-28 | pick t is at most `size - k + t`, so the window CHECK never fails |
| Day3.LeadingDigitLess | src/day3.cpp:29 | of two digit strings of one length, a larger first digit makes the larger number |
| Day3.SameLeadingDigit | src/day3.cpp:29 | with the same first digit, the larger rest makes the larger number |
| Day3.GreedyBest | src/day3.cpp:25-34 | no choice of k ascending batteries reads a larger number than the greedy one |
| Day3.GreedyBestTie | src/day3.cpp:25-34 | the same, when the other choice starts with the greedy pick's digit |
| Day3.TieCompare | src/day3.cpp:25-34 | two choices with the same first digit compare as their remaining digits |
| Day3.MaximumJoltage | src/day3.cpp:12-17 | on a bank of digits, `maximum_joltage` succeeds, and is the largest two-digit number formed by a digit and a later digit, which some such pair forms |
| Day3.ChosenTwo | src/day3.cpp:12-17 | the greedy choice of two batteries is `maximum_joltage`'s pair |
| Day3.PairBelow | src/day3.cpp:12-17 | any two batteries i < j give no more than `maximum_joltage`'s pair, the first largest digit before the last and the first largest digit after it |
| Day3.ChosenBest | src/day3.cpp:19-35 | the greedy choice of k batteries reads the digits at k ascending positions, pick t at most `size - k + t`, and no other choice of k batteries reads a larger number |
| Day3.OvermaxValue | src/day3.cpp:19-35 | on a bank of at least twelve digits, `overmaximum_joltage` is the value of the twelve greedy digits |
| Day3.AtMostAll | src/day3.cpp:29 | a range checked character by character is bounded by `c` |
| Day3.FirstMaxIs | src/day3.cpp:29 | a position holding the largest character of a range, with only smaller ones before it, is the one `max_element` returns |
| Day3.ReadsSub | src/day3.cpp:30 | a string checked against the positions is the digits at those positions |
| Day3.GreedyPicks | src/day3.cpp:25-32 | positions that pass the window checks are the greedy choice |
| Day3.MaximumJoltageAt | src/day3.cpp:12-17 | `maximum_joltage` once its two searches are known |
| Day3.MaximumJoltageSample0 | src/day3.cpp:63 | `maximum_joltage("987654321111111") == 98` |
| Day3.MaximumJoltageSample1 | src/day3.cpp:64 | `maximum_joltage("811111111111119") == 89` |
| Day3.MaximumJoltageSample2 | src/day3.cpp:65 | `maximum_joltage("234234234234278") == 78` |
| Day3.MaximumJoltageSample3 | src/day3.cpp:66 | `maximum_joltage("818181911112111") == 92` |
| Day3.GreedySample0 | src/day3.cpp:70 | the greedy positions of the first bank are 0 to 11 |
| Day3.OvermaxSample0 | src/day3.cpp:70 | `overmaximum_joltage` of the first bank is 987654321111 |
| Day3.GreedySample1 | src/day3.cpp:71 | the greedy positions of the second bank are 0 to 10, then 14 |
| Day3.OvermaxSample1 | src/day3.cpp:71 | `overmaximum_joltage` of the second bank is 811111111119 |
| Day3.GreedySample2 | src/day3.cpp:72 | the greedy positions of the third bank skip positions 0, 1 and 3 |
| Day3.OvermaxSample2 | src/day3.cpp:72 | `overmaximum_joltage` of the third bank is 434234234278 |
| Day3.GreedySample3 | src/day3.cpp:73 | the greedy positions of the fourth bank skip positions 1, 3 and 5 |
| Day3.OvermaxSample3 | src/day3.cpp:73 | `overmaximum_joltage` of the fourth bank is 888911112111 |
| Day3.SampleSplit | src/day3.cpp:55-61 | `split_lines` of the sample text gives the four banks |
| Day3.Part1Sample | src/day3.cpp:68 | on the sample text, part 1 gives 357 |
| Day3.Part1Banks | src/day3.cpp:37-43 | the four sample banks' joltages add up to 357 |
| Day3.Part2Sample | src/day3.cpp:75 | on the sample text, part 2 gives 3121910778619 |
| Day3.Part2Banks | src/day3.cpp:45-51 | the four sample banks' twelve-battery joltages add up to 3121910778619 |
| Day3.Part1 | src/day3.cpp:37-43 | `part_1` fails exactly when some line's `maximum_joltage` fails, and otherwise is the sum of the lines' joltages |
| Day3.Part2 | src/day3.cpp:45-51 | `part_2` fails exactly when some line's `overmaximum_joltage` fails, and otherwise is the sum of the lines' twelve-battery joltages |
| Day4.Get | src/common.hpp:179-183 | `at(i, j)` on a board fails outside the grid or the buffer, and otherwise reads slot `idx(i, j)` |
| Day4.AtIsGet | src/common.hpp:179-183 | `Grid::at(i, j)` is `Get` on the grid's board |
| Day4.GetInGrid | src/common.hpp:179-183 | on a built board, every cell inside the grid can be read |
| Day4.Step | src/day4.cpp:23-54 | one guarded push gives the cell when it lies inside the grid |
| Day4.Direction | src/day4.cpp:23-54 | every direction moves one step at most in each coordinate, and never stays put |
| Day4.DirectionsDistinct | src/day4.cpp:23-54 | no direction is listed twice |
| Day4.Around | src/day4.cpp:23-54 | the first k directions give at most k cells |
| Day4.ReachableIndices | src/day4.cpp:14-57 | `reachable_indices` returns the neighbours of (i, j) inside the grid, in the order east, north-east, north, north-west, west, south-west, south, south-east |
| Day4.PushIf | src/day4.cpp:24-26 | one guarded `emplace_back` adds direction k's cell exactly when its guard lets it through, and its guard holds exactly when the cell is inside the grid |
| Day4.AroundOrigins | src/day4.cpp:23-54 | each listed cell is the target, inside the grid, of one of the directions tried |
| Day4.OriginsOrdered | src/day4.cpp:23-54 | the listed cells come in direction order, and every direction landing inside is listed |
| Day4.NeighboursInOrder | src/day4.cpp:14-57 | neighbour a is (i, j) plus the direction it came from, and those directions increase |
| Day4.AroundDistinct | src/day4.cpp:23-54 | the eight guarded pushes never give the same cell twice |
| Day4.AroundAdjacent | src/day4.cpp:23-54 | a cell the pushes give is adjacent to (i, j) and inside the grid |
| Day4.AdjacentAround | src/day4.cpp:23-54 | an adjacent cell inside the grid is given by one of the pushes |
| Day4.AroundAre | src/day4.cpp:23-54 | the pushes give exactly the other cells of the grid at most one step away in each coordinate |
| Day4.DirectionTo | src/day4.cpp:23-54 | every adjacent cell is the target of some direction |
| Day4.Neighbours | src/day4.cpp:14-57 | `reachable_indices` lists exactly the other cells of the grid that are at most one step away in each coordinate, and none of them twice |
| Day4.NeighbourCount | src/day4.cpp:14-57 | on a grid of at least 2 x 2, a corner has 3 neighbours, an edge cell 5 and an inner cell 8 |
| Day4.PaperCount | src/day4.cpp:65-72 | the rolls counted are at most the cells listed |
| Day4.PaperCountPrefix | src/day4.cpp:65-72 | the count over a prefix is at most the count over the whole list |
| Day4.IsAccessibleRoll | src/day4.cpp:59-75 | `is_accessible_roll` fails only where `at(i, j)` fails, and otherwise says whether (i, j) is a roll with fewer than four rolls among its neighbours |
| Day4.FewerThanFour | src/day4.cpp:65-74 | the counting loop, which stops at the fourth roll, says whether fewer than four listed cells hold a roll |
| Day4.PaperCountRolls | src/day4.cpp:65-74 | over a list without repeats, the counted rolls are the number of listed cells that hold a roll |
| Day4.Accessible | src/day4.cpp:59-75 | the accessibility test: only a cell that holds a roll can pass it |
| Day4.AccessibleMeaning | src/day4.cpp:59-75 | a cell is accessible exactly when it holds a roll and fewer than four of the cells adjacent to it hold a roll |
| Day4.CountBeforeIsSize | src/day4.cpp:86-92 | the row-major count is the number of distinct cells that satisfy the test |
| Day4.CountAccessibleIsSize | src/day4.cpp:77-95 | part 1 counts the set of accessible rolls of the grid |
| Day4.ReadGrid | src/day4.cpp:79-82 | building the grid fails exactly when the lines are ragged or the grid is taller than wide, and otherwise gives the board of the lines |
| Day4.BuiltWellFormed | src/common.hpp:153-155 | a built grid has a full buffer and no more rows than columns |
| Day4.Part1 | src/day4.cpp:77-95 | `part_1` is the number of accessible rolls of the grid, or an error when the grid cannot be built |
| Day4.CountRow | src/day4.cpp:87-91 | the inner loop of `part_1` adds the accessible rolls of row i |
| Day4.TryRemove | src/day4.cpp:97-116 | `try_remove_roll` counts at most one roll |
| Day4.TryRemovePapers | src/day4.cpp:97-116 | a removal keeps the grid's shape and takes exactly the one roll it counts off the board |
| Day4.TryRemoveRoll | src/day4.cpp:97-116 | `try_remove_roll` fails where `at(i, j)` fails and otherwise empties (i, j) when it is an accessible roll, returning 1 then and 0 otherwise |
| Day4.ThenPapers | src/day4.cpp:130-134 | a step keeps the shape, and the rolls on the board plus the count stay the same |
| Day4.SweptPapers | src/day4.cpp:129-135 | a sweep removes exactly the rolls it counts |
| Day4.SweptNothing | src/day4.cpp:129-136 | a sweep that removes nothing leaves the board as it was, and no cell it tried was accessible |
| Day4.ThenNothing | src/day4.cpp:132 | a step that removes nothing found no accessible roll |
| Day4.Settle | src/day4.cpp:128-136 | the repeated sweeps end, because each sweep that removes something lowers the number of rolls |
| Day4.SettleProperties | src/day4.cpp:118-139 | `part_2` removes exactly its total of rolls, and leaves a board without an accessible roll |
| Day4.SweepGrid | src/day4.cpp:129-135 | one sweep on the grid does what `Sweep` does on the board, in place |
| Day4.SweepRow | src/day4.cpp:131-133 | the inner loop of one sweep over row i |
| Day4.Part2 | src/day4.cpp:118-139 | `part_2` is the number of rolls the sweeps remove before a sweep removes nothing, or an error when the grid cannot be built |
| Day5.ParseRange | src/day5.cpp:27-28 | a range line parses only when it has at least two '-'-separated fields |
| Day5.FirstEmpty | src/day5.cpp:22-26 | the first loop stops at the first empty line: every line before it is non-empty |
| Day5.ParseSpec | src/day5.cpp:13-38 | whatever `parse_input` returns has every range well formed, as the final CHECK demands |
| Day5.Max | src/day5.cpp:76 | `std::max` is at least both arguments and is one of them |
| Day5.ParseInput | src/day5.cpp:13-38 | `parse_input` gives the ranges on the lines before the first empty line and the ids after it, and fails when a line does not parse or a range ends before it starts |
| Day5.ReadUntilEmpty | src/day5.cpp:21-29 | the first loop parses each line up to the first empty one, and then continues just after it |
| Day5.ReadRest | src/day5.cpp:31-33 | the second loop parses every remaining line |
| Day5.IsFresh | src/day5.cpp:40-48 | `is_fresh(id, ranges)` holds exactly when some range holds the id |
| Day5.FreshSnoc | src/day5.cpp:40-48 | one more range adds exactly the ids it holds |
| Day5.RangesOverlap | src/day5.cpp:60-63 | `ranges_overlap(lhs, rhs)`, for a well-formed `rhs` starting no earlier than `lhs`, holds exactly when the two ranges share an id |
| Day5.CountFresh | src/day5.cpp:53-57 | at most every id is fresh |
| Day5.CountFreshIsSize | src/day5.cpp:50-58 | part 1 counts the positions of the fresh ids |
| Day5.Part1Spec | src/day5.cpp:50-58 | part 1 fails exactly when the parse fails, and is at most the number of ids |
| Day5.Part1 | src/day5.cpp:50-58 | `part_1` parses the input and counts the fresh ids |
| Day5.Insert | src/day5.cpp:70 | inserting adds one range |
| Day5.SortRanges | src/day5.cpp:70 | sorting keeps the number of ranges |
| Day5.InsertMultiset | src/day5.cpp:70 | inserting adds exactly that range |
| Day5.InsertSorted | src/day5.cpp:70 | inserting into sorted ranges keeps them sorted |
| Day5.SortRangesSorted | src/day5.cpp:70 | `std::ranges::sort` orders the ranges as pairs and is a permutation |
| Day5.Absorb | src/day5.cpp:75-80 | one step of the loop either folds the next range into the last merged one or appends it |
| Day5.Merge | src/day5.cpp:71-81 | merging never adds ranges, and keeps at least one |
| Day5.Deoverlapped | src/day5.cpp:65-83 | `deoverlap` never adds ranges |
| Day5.MergeSnoc | src/day5.cpp:73-81 | merging one more range is one step of the loop |
| Day5.OverlapStep | src/day5.cpp:75-77 | extending the current range and erasing the next merges one more range |
| Day5.ReplaceErase | src/day5.cpp:76-77 | overwriting an element and erasing the one after it |
| Day5.SeparateStep | src/day5.cpp:78-79 | stepping past a range that does not overlap its successor merges one more range |
| Day5.Deoverlap | src/day5.cpp:65-83 | `deoverlap` leaves at most one range alone, and otherwise sorts the ranges and lets each range swallow the overlapping ranges that follow it |
| Day5.DeoverlapSmall | src/day5.cpp:67-69 | a vector of at most one range is left as it is |
| Day5.MergeSeparated | src/day5.cpp:71-81 | each merged range ends before the next one starts |
| Day5.MergeLastStart | src/day5.cpp:71-81 | with ascending starts, the last merged range starts no later than the last range |
| Day5.AbsorbCovers | src/day5.cpp:75-80 | folding a range in adds exactly its ids |
| Day5.MergeCovers | src/day5.cpp:71-81 | merging ranges with ascending starts keeps exactly the same ids fresh |
| Day5.MergeValid | src/day5.cpp:76 | merging keeps every range well formed |
| Day5.DeoverlapProperties | src/day5.cpp:65-83 | after `deoverlap`, the ranges are separated and never more numerous; they hold exactly the same ids; and well-formed ranges end up strictly ascending |
| Day5.SameMembersFresh | src/day5.cpp:70 | sorting does not change which ids are fresh |
| Day5.SeparatedAscending | src/day5.cpp:71-81 | well-formed separated ranges are strictly ascending |
| Day5.Span | src/day5.cpp:92 | the ids of a range are those it covers |
| Day5.SpanSize | src/day5.cpp:92 | a range holds `second - first + 1` ids |
| Day5.Covered | src/day5.cpp:40-48 | the ids covered are the fresh ids |
| Day5.CoveredBelow | src/day5.cpp:90-93 | ascending ranges cover nothing past the end of the last one |
| Day5.WidthsCount | src/day5.cpp:90-93 | for well-formed ascending ranges, the widths add up to the number of ids covered |
| Day5.Part2Spec | src/day5.cpp:85-94 | part 2 fails exactly when the parse fails |
| Day5.Part2 | src/day5.cpp:85-94 | `part_2` parses the input, deoverlaps the ranges and adds up their widths |
| Day5.Part2Counts | src/day5.cpp:85-94 | part 2 counts each fresh id once, however many ranges hold it |
| Day5.CountFreshDeoverlapped | src/day5.cpp:50-58 | merging leaves the part 1 count unchanged |
| Day5.RangeText | src/day5.cpp:27 | the text of a range is a non-empty line |
| Day5.RangeTextRoundTrip | src/day5.cpp:27-28 | a range line reads back as the range |
| Day5.ParseInputText | src/day5.cpp:13-38 | `parse_input` reads back the text of every inventory with well-formed ranges |
| Day5.FirstEmptyAt | src/day5.cpp:22-26 | the first empty line is the empty line preceded only by non-empty lines |
| Day5.SampleParses | src/day5.cpp:98-115 | the sample gives its four ranges, the first being 3-5, and its six ids |
| Day5.SampleFresh | src/day5.cpp:117-124 | 5, 11 and 17 are fresh, but 1, 8 and 32 are not, so three ingredients are fresh |
| Day5.SampleMerge | src/day5.cpp:126-132 | the overlap checks hold, and the sample merges into 3-5 and 10-20, which hold 14 ids |
| Day5.SampleMergeNested | src/day5.cpp:134-137 | 1-10, 3-5 and 2-11 merge into 1-11 |
| Day5.SampleAnswers | src/day5.cpp:124-140 | on the sample, part 1 gives 3 and part 2 gives 14 |
| Day6.SumSnoc | src/day6.cpp:23-27 | the sum of one more number adds it |
| Day6.ProductSnoc | src/day6.cpp:23-27 | the product of one more number multiplies by it |
| Day6.FoldSum | src/day6.cpp:25 | accumulating with `std::plus` from `acc` adds the sum, and with `std::minus` subtracts it |
| Day6.FoldProduct | src/day6.cpp:25 | accumulating with `std::multiplies` from `acc` multiplies by the product |
| Day6.Answer | src/day6.cpp:22-27 | for a problem with at least one number, `answer()` is the sum for `+`, the first number less the sum of the others for `-`, and the product for `*` |
| Day6.ParseOp | src/day6.cpp:39-50 | a token is accepted exactly when it is `+`, `-` or `*`, and it then reads as the operation whose symbol it is; anything else throws |
| Day6.Operators | src/day6.cpp:38-50 | the operator line gives one problem per token |
| Day6.OperatorsRead | src/day6.cpp:38-50 | the operator line is accepted exactly when every token is a symbol, and then problem k has token k's operation and no numbers |
| Day6.Fill | src/day6.cpp:52-58 | reading the operand lines succeeds only when every line parses and none has more numbers than there are problems |
| Day6.Worksheet | src/day6.cpp:34-38 | the opening of both parsers keeps at least one line |
| Day6.LastOperators | src/day6.cpp:38 | the problems come from the last line, and there is one |
| Day6.ReadWorksheet | src/day6.cpp:34-50 | the opening both parsers share: the CHECK on the input's size, the lines, and the problems of the last line |
| Day6.ColumnFull | src/day6.cpp:52-58 | when every line has a k-th number, problem k holds those numbers line by line |
| Day6.PushRow | src/day6.cpp:54-57 | the inner loop appends number k of the line to problem k, and fails when a token does not parse or the line has more tokens than there are problems |
| Day6.ColumnsStep | src/day6.cpp:52-58 | one more row of numbers extends the columns by its entries |
| Day6.FillFails | src/day6.cpp:54-57 | a line that does not fit the problems makes the whole read fail |
| Day6.RowStep | src/day6.cpp:52-58 | one more line keeps the loop's state: the rows read so far, all fitting, and the problems extended by their columns |
| Day6.ReadRows | src/day6.cpp:52-58 | the `for_each` over the operand lines fills the problems column by column |
| Day6.ReadLine | src/day6.cpp:53-57 | one pass of the `for_each`: line i is added to the problems, keeping the loop's state, or the whole read fails |
| Day6.ParseInput | src/day6.cpp:31-62 | `parse_input` appends to problem k the k-th number of each operand line, in line order |
| Day6.Total | src/day6.cpp:67-70 | the total of the answers exists exactly when every problem has a number |
| Day6.Part1 | src/day6.cpp:64-71 | `part_1` adds up the answers of `parse_input`'s problems |
| Day6.Atoms | src/day6.cpp:100-108 | the loops over the width build one column per character position, read from top to bottom over the operand lines |
| Day6.Groups | src/day6.cpp:110-119 | cutting the columns at the blank ones gives at least one group |
| Day6.Numbers | src/day6.cpp:110-119 | the numbers of the first n groups are n lists |
| Day6.ExtendsTrans | src/day6.cpp:110-119 | growing groups twice is growing them |
| Day6.GroupsStep | src/day6.cpp:112-119 | one more column only changes the last group, or starts a new one |
| Day6.GroupsGrow | src/day6.cpp:112-119 | groups only grow at the end as columns are added |
| Day6.NumbersPrefix | src/day6.cpp:112 | the loop reads only the groups of the first n problems |
| Day6.NumbersFails | src/day6.cpp:116 | a column that fails to convert, in one of the first n groups, fails the read |
| Day6.NumbersExtend | src/day6.cpp:116 | one more column in group m adds its number to problem m |
| Day6.NumbersExtendBefore | src/day6.cpp:116 | the same, for a group before the last |
| Day6.NumbersExtendAt | src/day6.cpp:116 | the same, for the last group |
| Day6.NumbersSplit | src/day6.cpp:110-119 | the numbers of n groups are those of n - 1 groups, plus the last group's |
| Day6.NumbersSnoc | src/day6.cpp:110-119 | reading one more group appends its numbers |
| Day6.NumbersExtendLast | src/day6.cpp:116 | parsing one more column appends its number |
| Day6.GroupsNext | src/day6.cpp:113-117 | a blank column starts a new group; any other column joins the last group |
| Day6.ColumnFails | src/day6.cpp:116 | a column that fails to convert, in the group of one of the problems, fails the whole read |
| Day6.AppendStep | src/day6.cpp:116 | pushing a number onto problem m is adding it to m's numbers |
| Day6.BlankStep | src/day6.cpp:113-114 | a blank column moves on to the next problem and keeps the loop's state |
| Day6.NumberStep | src/day6.cpp:115-117 | any other column is converted and appended to the current problem, keeping the loop's state |
| Day6.GatherDone | src/day6.cpp:112 | when the problems or the columns run out, the problems hold the numbers of their groups |
| Day6.Gather | src/day6.cpp:110-119 | the `while` loop gives problem k the numbers of column group k; groups past the last problem are never read |
| Day6.NoNumbers | src/day6.cpp:110-119 | n problems' worth of no numbers |
| Day6.NumbersEmpty | src/day6.cpp:110-119 | with no columns, every problem gets no numbers |
| Day6.ParseInput2 | src/day6.cpp:73-123 | `parse_input_2` rejects operand lines that are not as wide as the first, and gives problem k the numbers read down the columns of group k |
| Day6.Part2 | src/day6.cpp:126-133 | `part_2` adds up the answers of `parse_input_2`'s problems |
| Day6.GroupsSnocPlain | src/day6.cpp:113-117 | a column that is not blank extends the last group |
| Day6.NoneBlankAll | src/day6.cpp:113 | columns none of which is blank |
| Day6.GroupsAppendPlain | src/day6.cpp:113-117 | columns that are not blank only extend the last group |
| Day6.GroupsOfJoined | src/day6.cpp:110-119 | groups written side by side with one blank column between them are cut back into those groups |
| Day6.ParseOpSymbol | src/day6.cpp:39-50 | every operation reads back from its symbol |
| Day6.AnswerOfThree | src/day6.cpp:22-27 | the answer of three numbers is the operation applied twice, from the left |
| Day6.SampleAnswers | src/day6.cpp:149-167 | the eight answers checked in `tests()`, and the totals 4277556 and 3263827 |
| Day6.RowLineRead | src/day6.cpp:54-56 | an operand line, however it is spaced, reads back as its numbers |
| Day6.DigitsOnly | src/day6.cpp:54 | a number's text holds no space and no newline |
| Day6.OpLineRead | src/day6.cpp:38-50 | the operator line, however it is spaced, reads back as its operations |
| Day6.SheetRead | src/day6.cpp:31-62 | `parse_input` reads a written worksheet back: problem k holds the k-th number of every row that has one, and a row longer than the operator line is rejected |
| Day6.SheetRowsRead | src/day6.cpp:52-58 | the operand lines of a written worksheet read back as its rows of numbers |
| Day6.SheetLinesRead | src/day6.cpp:34-50 | the lines of a written worksheet, and the problems of its operator line |
| Day6.WorksheetOfLines | src/day6.cpp:34-50 | lines without newlines, each ended by one, are read back as those lines, and the last gives the problems |
| Day6.AtomRead | src/day6.cpp:113-116 | a column holding a number with spaces above and below reads back as the number, and is not blank |
| Day6.JoinedHolds | src/day6.cpp:100-108 | a property of the separator and of every column holds for every column of the layout |
| Day6.NumbersOk | src/day6.cpp:110-119 | when each group reads whole, the numbers are those of the groups |
| Day6.Columns2 | src/day6.cpp:100-108 | every column of a columnar worksheet is `h` characters tall |
| Day6.Sheet2Read | src/day6.cpp:73-123 | `parse_input_2` reads a columnar worksheet back: problem k holds the numbers of column group k, left to right |
| Day6.GatheredOfJoined | src/day6.cpp:110-119 | groups written side by side with blank separators are gathered back into the problems, group by group |
| Day6.TransposeRows | src/day6.cpp:100-108 | the rows of columns `h` tall are as wide as there are columns, and hold no foreign character |
| Day6.TransposeTwice | src/day6.cpp:100-108 | reading the rows back down the columns gives the columns |
| Day6.Sheet2Lines | src/day6.cpp:76-108 | the operand lines of a columnar worksheet pass the width CHECK, and their columns are the columns the sheet was written from |
| Day6.ColumnsTall | src/day6.cpp:95-97 | the rows of a columnar worksheet are not empty, are as wide as there are columns, and hold no newline |
| Day6.SampleColumns | src/day6.cpp:143-148 | the sample's rows fit the four problems and fill in 123 45 6, 328 64 98, 51 387 215 and 64 23 314 |
| Day6.SampleSheet | src/day6.cpp:137-148 | `parse_input` of the sample text gives those four problems, each with three numbers, the first a product |
| Day6.SamplePart1 | src/day6.cpp:154 | `part_1` of the sample is 4277556 |
| Day6.SmallDecimalLength | src/day6.cpp:137-141 | the numbers of the sample take one to three digits |
| Day6.ColumnGroupsRead | src/day6.cpp:100-119 | column groups written from their numbers form a columnar worksheet whose groups read back as the numbers |
| Day6.SampleAppend | src/day6.cpp:156-165 | the sample's columns give 1 24 356, 369 248 8, 32 581 175 and 623 431 4 |
| Day6.SampleFit | src/day6.cpp:137-141 | the sample's columns are three characters tall |
| Day6.SampleSheet2 | src/day6.cpp:156-161 | `parse_input_2` of the sample text gives four problems, the last holding 623, 431 and 4 |
| Day6.SamplePart2 | src/day6.cpp:167 | `part_2` of the sample is 3263827 |
| Day6.SampleText | src/day6.cpp:137-141 | the worksheet written from the sample's rows is the literal text of `tests()` |
| Day6.SampleText2 | src/day6.cpp:137-141 | the worksheet written from the sample's column groups is that same literal text |
| Day6.SampleInputPart1 | src/day6.cpp:143-154 | on the literal sample text, `parse_input` gives the four problems and `part_1` gives 4277556 |
| Day6.SampleInputPart2 | src/day6.cpp:156-167 | on the literal sample text, `parse_input_2` gives the four problems and `part_2` gives 3263827 |
| Day7.LeastExists | src/day7.cpp:19-20 | every non-empty set of positions has a first element under `std::pair`'s order |
| Day7.SortedKeys | src/day7.cpp:83 | the keys of the map are listed once each |
| Day7.SortedKeysMeaning | src/day7.cpp:83 | the listing is strictly increasing in (row, column) order and holds exactly the map's keys |
| Day7.SortedKeysUnique | src/day7.cpp:83 | any strictly increasing listing of exactly those keys is that listing, so the iteration order is determined |
| Day7.MapOrder | src/day7.cpp:83 | every position visited is a key of the map |
| Day7.Unmarked | src/day7.cpp:43 | the splitters enter the map with no parents, and nothing else does |
| Day7.RowSplittersMeaning | src/day7.cpp:38-44 | the splitters of a line are exactly its cells holding `^` |
| Day7.SplittersMeaning | src/day7.cpp:36-46 | the splitters of the first n lines are exactly their cells holding `^` |
| Day7.RowSourceMeaning | src/day7.cpp:38-41 | scanning a line leaves the source unchanged or moves it to the last `S` of the line |
| Day7.SourceMeaning | src/day7.cpp:31-46 | the source is the value-initialised (0, 0) or a cell holding `S`, and no `S` comes after it in scanning order |
| Day7.Mark | src/day7.cpp:51-68 | a beam never adds or removes a splitter; which splitters end with parents is stated by `MarkReaches` |
| Day7.MarkAppends | src/day7.cpp:58-66 | marking only appends: every list of parents is a prefix of its new value |
| Day7.MarkOrdered | src/day7.cpp:51-72 | every parent recorded is the source or a splitter in an earlier row |
| Day7.FirstHit | src/day7.cpp:54-66 | the splitter a beam meets lies straight below its start, with no splitter in between, and is met only while the beam is inside the field |
| Day7.MarkHits | src/day7.cpp:58-63 | the splitter a beam meets always ends up with a parent |
| Day7.ChainCons | src/day7.cpp:61-64 | a chain of splitters from a beam at the side of the splitter a beam meets extends to a chain from that beam |
| Day7.MarkSound | src/day7.cpp:51-68 | every splitter that gets its first parent is reached by a chain of beams from the starting beam |
| Day7.MarkSpreads | src/day7.cpp:51-68 | when a splitter gets its first parent, both beams from its sides also end on splitters that have a parent |
| Day7.SplitSpreads | src/day7.cpp:59-64 | the same, at a splitter's first visit, after its left beam and then its right beam |
| Day7.SpreadGrows | src/day7.cpp:60 | once both beams from a splitter's sides meet splitters that have parents, appending parents keeps it so |
| Day7.ChainMarked | src/day7.cpp:51-68 | in a map where every splitter with a parent spreads, every splitter of a chain starting at a splitter with a parent has a parent |
| Day7.MarkReaches | src/day7.cpp:70-72 | after `mark_activations()` the splitters with a non-empty list of parents are exactly the ones the beams from the source reach, and the others keep an empty list |
| Day7.ArrivalsAgree | src/day7.cpp:88-94 | the sum over a splitter's parents only reads the parents' counts, and exists when they have one |
| Day7.SweepClosed | src/day7.cpp:83-96 | when each splitter's parents come before it, one pass gives every splitter a count that is the sum over its parents |
| Day7.ClosedPrefix | src/day7.cpp:83-96 | dropping the last splitter keeps the parents listed before their children |
| Day7.SettleLast | src/day7.cpp:85-94 | setting the last splitter's count to its sum keeps the earlier counts solved |
| Day7.SettleKeep | src/day7.cpp:85-94 | an earlier splitter's sum does not read the last splitter's count |
| Day7.SweepSettled | src/day7.cpp:83-96 | a pass over counts that already solve the recurrence changes nothing |
| Day7.OrderedClosed | src/day7.cpp:83 | since parents lie in earlier rows, map order lists every parent before its child |
| Day7.SweepSettles | src/day7.cpp:83-96 | after `mark_activations`, the first pass already solves the recurrence for every splitter |
| Day7.SweepsSettle | src/day7.cpp:82-97 | so the `rank` loop's further passes change nothing |
| Day7.SweepFailsLater | src/day7.cpp:93 | once a `counts.at` has thrown, the pass has failed |
| Day7.SweepsFailLater | src/day7.cpp:82-97 | once a pass has failed, the rank loop has failed |
| Day7.KidsNone | src/day7.cpp:105-112 | no splitter lists a position as a parent exactly when no list of parents names it |
| Day7.Children | src/day7.cpp:105-112 | `count_children(cand)` is 0 exactly when no list of parents names cand, and is at most the number of splitters |
| Day7.SubsetSize | src/day7.cpp:78 | a subset is no larger than its superset |
| Day7.LeavesOfMeaning | src/day7.cpp:116-120 | the leaves of a listing keep its order and are exactly its splitters without children |
| Day7.LeavesMeaning | src/day7.cpp:114-122 | `leaf_nodes` lists in map order exactly the splitters that no list of parents names |
| Day7.MarkActivates | src/day7.cpp:75-79 | marking never unmarks a splitter, and part 1's count never exceeds the number of splitters |
| Day7.Weigh | src/day7.cpp:131-135 | the accumulate of `part_2` succeeds exactly when every splitter it visits has a count, as `counts.at` throws otherwise |
| Day7.Part1Spec | src/day7.cpp:75-79 | `part_1` fails exactly when the input has no lines, and otherwise is the number of splitters the beams from the source reach, which is at most the number of splitters in the manifold |
| Day7.Part2Spec | src/day7.cpp:126-136 | `part_2` fails exactly when the input has no lines: no `counts.at` throws, since every parent is the source or a splitter with a count |
| Day7.Splitters.constructor | src/day7.cpp:18-32 | a value-initialised `Splitters`: empty maps and zero pairs |
| Day7.Splitters.MarkFrom | src/day7.cpp:51-68 | `mark_activations(from, parent)` updates the map in place as the beam model says, and touches nothing else |
| Day7.Splitters.MarkActivations | src/day7.cpp:70-72 | the beam starts at the source with the source as its parent |
| Day7.Splitters.CountActivations | src/day7.cpp:81-98 | `count_activations` runs `limits.first` passes, failing exactly when a `counts.at` throws, and leaves the map, limits and source alone |
| Day7.CountPass | src/day7.cpp:83-96 | one `for_each` pass sets each splitter's count in map order, reading the counts set earlier in the same pass |
| Day7.ParseInput | src/day7.cpp:31-48 | `parse_input` builds the map of splitters without parents, the limits and the source, and fails only on an input without lines |
| Day7.ReadRow | src/day7.cpp:38-45 | the inner loop over line i adds its `^` cells and moves the source to its `S` cells |
| Day7.LeafNodes | src/day7.cpp:114-122 | `leaf_nodes` returns the splitters without children, in map order |
| Day7.Part1 | src/day7.cpp:75-79 | `part_1` is `Part1Spec`: on success, the number of splitters the beams from the source reach |
| Day7.Part2 | src/day7.cpp:126-136 | `part_2` weighs each splitter's count by 2 minus its number of children |
| Day7.Drawn | src/day7.cpp:180-187 | a drawn manifold has h lines of w cells |
| Day7.DrawingParsed | src/day7.cpp:31-48 | `parse_input` reads a drawn manifold back as its splitters, its size and its source |
| Day7.DrawnSplitters | src/day7.cpp:36-46 | the splitters read from a drawn manifold are the ones drawn |
| Day7.DrawnCell | src/day7.cpp:42 | a drawn cell holds `^` exactly when it is a drawn splitter |
| Day7.DrawnSource | src/day7.cpp:40-41 | the source read from a drawn manifold is the one drawn |
| Day7.FallThrough | src/day7.cpp:65-67 | a beam falls through empty cells unchanged |
| Day7.Escape | src/day7.cpp:54-67 | a beam with no splitter below it leaves the field and records nothing |
| Day7.Hit | src/day7.cpp:58-64 | a beam meeting an unvisited splitter records its parent and sends beams down from both sides |
| Day7.SampleLeft | src/day7.cpp:180-187 | in the second test manifold, the left beam from (2, 7) reaches (5, 6) |
| Day7.SampleRight | src/day7.cpp:180-187 | the right beam from (2, 7) reaches (5, 8) |
| Day7.SampleTop | src/day7.cpp:180-192 | the beam from the source hits (2, 7) first |
| Day7.SampleMark | src/day7.cpp:191-192 | marking records the source for (2, 7), and (2, 7) for (5, 6) and (5, 8) |
| Day7.SampleParsed | src/day7.cpp:180-192 | the second test input parses to its three splitters, size 7 by 15 and source (0, 7), and marks as above |
| Day7.SampleReached | src/day7.cpp:189 | three splitters are reached |
| Day7.SamplePart1 | src/day7.cpp:189 | `part_1` of the second test input is 3 |
| Day7.SampleChildren | src/day7.cpp:195-197 | (2, 7) has two children; (5, 6) and (5, 8) have none |
| Day7.SampleLeaves | src/day7.cpp:199-203 | (5, 6) and (5, 8) are leaves, (2, 7) is not |
| Day7.SampleOrder | src/day7.cpp:83 | the map order of the marked sample is (2, 7), (5, 6), (5, 8) |
| Day7.SampleCounts | src/day7.cpp:193 | a pass gives each of the three splitters the count 1 |
| Day7.SampleWeigh | src/day7.cpp:131-135 | the weighted sum is 4 |
| Day7.SamplePart2 | src/day7.cpp:205 | `part_2` of the second test input is 4 |
| Totals.SumResultsFails | src/day3.cpp:37-43 | the total of the shares fails exactly when some share fails, and otherwise is the sum of the shares |
| Totals.SumOverFour | src/day3.cpp:37-43 | the total of four successful shares is their sum |

## Left out

- Reading the input file, printing answers and the command-line runner (`DayBase`, `read_to_string`, `load_input`, `verify_print`, `run`, the `DAY` macro, `src/main.cpp`): these are I/O and dispatch code, and input text is a parameter of every part here.
- The message text of `CHECK` and of the exceptions: only the failure is modelled, as `Err`.
- `printv` of `src/day7.cpp`: console output.
- `std::stringstream` and `getline` as library objects: `split_at` is modelled as the scan over the characters that it performs on a string.
- 64-bit arithmetic: `Answer`, `int64_t` and `size_t` values are unbounded integers, so overflow, wrap-around and the `std::out_of_range` of `stoll`/`stoi`/`stoull` on huge numbers are not modelled. None of the sample values comes near those bounds.
- Signs in `stoll`, `stoi` and `stoull`: the library reads a leading `+` or `-`, but `Decimal.Parse` reads only leading spaces and digits, so a sign is an error in the model. The puzzle inputs hold unsigned numbers.
- `std::ranges::sort` in `deoverlap`: it is replaced by an insertion sort on the same lexicographic order (`Day5.SortRanges`), proved sorted and a permutation. The merge loop is also modelled on a `seq` value returned as the new vector, not by erasing from a `std::vector` in place.
- Day5.Deoverlap: the vector passed by reference becomes the method's input and result.
- Day1.RemoveFullTurns and Day1.Rotate: the `int&` arguments they update become function results; both callers use the updated value at once.
- The `std::vector<Problem>` of day 6 and the `atoms` and `leaves` vectors are `seq` values that the loops reassign, so aliasing between the vectors is not modelled; no vector of these functions is shared.
- Undefined behaviour: `front()` or `back()` of an empty vector in days 6 and 7, and `*max_element` of an empty range for a bank of fewer than two batteries in day 3. The parsers model these as `Err`, and `Day3.MaximumJoltage` and `Day6.Answer` as preconditions that their callers establish.
- Day6.Answer: it requires at least one number, because `numbers.front()` of an empty problem is undefined; `Day6.Total` turns a problem without numbers into `Err`.
- The grid index `i * nrows + j` is kept as written: `Grids.WideGridShares` exhibits two cells sharing a slot when a grid is wider than tall, and the row-major round trip is proved for square grids only.
- The day 4 sample (the 10 x 10 grid with answers 13 and 43): evaluating every sweep over 100 cells goes beyond what the verifier can unfold in a proof, so part 1 and part 2 are proved in general but not on that grid.
- The day 2 sample answers 1227775554 and 4174379265: they add up the ids of eleven ranges, some over a billion wide. Of the 22 `generate_all_invalids` checks of `tests()`, the five on the ranges 11-22, 95-115 and 998-1012 are proved (`Day2.AllInvalidsExample1`, `Day2.AllInvalidsSingle2`, `Day2.AllInvalidsSingle3`, `Day2.AllInvalidsExample2`, `Day2.AllInvalidsExample3`). The other 17, on ranges of six digits or more, are left out: their loops run over hundreds of blocks, too many to evaluate in a proof. `Day2.InvalidsMembers` states what they return in general.
- The first and third day 7 test manifolds (22 and 15 splitters, with `part_1` 21 and `part_2` 40 and 14, and the list sizes at (2, 7), (6, 7) and (14, 9)): they are too large to evaluate in a proof. The second manifold is proved end to end, and the properties behind the answers are proved for every manifold.
- Day7.SweepsSettle: since one pass already settles every count, the model proves that the `rank` loop's later passes change nothing; it does not state any path-counting meaning for the counts beyond the recurrence they solve.
