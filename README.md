# Advent of Code 2022 solvers, modelled in Dafny

This project models the twenty-five puzzle solvers of an Advent of Code 2022 repository
written in Rust (`src/day1.rs` to `src/day25.rs`). Each solver has a `generator` that turns
the puzzle text into a value and a `part1` and `part2` that compute the answers. The model
has one Dafny module per solver, `Day1` to `Day25`. Day 11 is split into `Day11`,
`Day11Residues` and `Day11Troop`. Day 22 is split into `Day22` (headings and the move line),
`Day22Board` (the board and the flat walk), `Day22Net` (the sides of the unfolded cube and
their links) and `Day22Seams` (the seam table and the cube walk). Three small modules are
shared: `Wrappers` (Option, Result with a panic case, and Run for computations that end,
loop for ever or panic), `Text` (line and number splitting) and `Arith` (Rust's truncating
division and remainder, and other integer facts).

The model follows the source's own form:

- A solver that keeps state in a struct and updates it in place becomes a `class` with
  `modifies` clauses. Examples are the marker window of day 6, the monkeys of day 11, the cave
  of day 14, the tower simulation of day 17, the mixing ring of day 20, the walker of day 22
  and the elves of day 23.
- A loop becomes a `method` whose `ensures` ties its result to a recursive specification
  function. Properties the puzzle promises are proved as lemmas about that function. Each
  property that is proved only in a weaker form, or not at all, is listed under "Left out"
  under the member's name.
- A Rust `panic!` and an `unwrap` on a missing value are modelled as an error result rather
  than excluded by a precondition. Integer overflow is modelled only where a member's row says
  so. Elsewhere integers are unbounded, or a precondition keeps them in range, and "Left out"
  names each such case.
- A loop that the source can run for ever is either reported as `Spins` when the model can
  decide it, or given a `fuel` bound; each such case is listed below.
- Where the code as written does not do what its authors evidently intended, the model
  keeps the code as written and puts a corrected member beside it (see "Findings").

Reading the input files, printing answers and the benchmarks are not modelled.

## Model

| member | source | states |
|---|---|---|
| Day1.Generator | src/day1.rs:9-15 | a parsed input has one total per blank-line-separated group |
| Day1.GroupTotalSums | src/day1.rs:11-14 | a group whose lines are the decimal digits of i32 numbers totals to their sum |
| Day1.FindMax | src/day1.rs:17-19 | 0 for no elves, otherwise a total of the list that is at least every total |
| Day1.ReplaceFirst | src/day1.rs:32-41 | exactly one slot holding the current minimum takes the new total, and the returned value is the new minimum of the slots |
| Day1.Offer | src/day1.rs:28-42 | after one total is offered the slots still hold the n largest of everything offered so far (IsTop), and the minimum is kept |
| Day1.FindTopN | src/day1.rs:21-44 | the result is the sum of the n largest values of the totals padded with n copies of i32::MIN |
| Day1.SumArray | src/day1.rs:43 | the loop returns the sum of the slots |
| Day1.Part2 | src/day1.rs:5-7 | the sum of the three largest totals (padded with i32::MIN) |
| Day1.TopOneIsMax | src/day1.rs:17-44 | with one slot, the top-n search returns the same value as find_max_calories |
| Day1.SampleMax | src/day1.rs:69-74 | the sample's five totals have maximum 24000 |
| Day1.SampleTop | src/day1.rs:76-80 | the sample's three largest totals are 24000, 11000 and 10000, summing to 45000 |
| Day1.Totals | src/day1.rs:10-14 | one total per group, or the first parse panic |
| Day1.Pad | src/day1.rs:22-25 | the stack starts as n copies of i32::MIN |
| Day1.ReplaceMin | src/day1.rs:34-38 | a total at least the stack minimum, written over one minimum slot, keeps the stack the n largest of what was offered |
| Day1.SkipSmall | src/day1.rs:29-31 | a total below the stack minimum is skipped and the stack stays the n largest |
| Day1.PoolGrows | src/day1.rs:28 | each loop turn offers one more total |
| Day1.TopOfSplit | src/day1.rs:22-26 | the padded stack is the n largest of itself |
| Day1.SamplePadded | src/day1.rs:76-80 | the sample's padding adds three copies of i32::MIN |
| Day1.SampleTopSum | src/day1.rs:76-80 | the sample's three largest totals sum to 45000 |
| Day2.ParsePlay | src/day2.rs:43-50 | a play letter parses exactly when it is one of A, B, C, X, Y, Z; anything else (or no character) panics |
| Day2.ParseLines | src/day2.rs:29-41 | every parsed line yields one play |
| Day2.ParseShow | src/day2.rs:29-41 | a play written as "<letter> <letter>" parses back to itself |
| Day2.ParseLineTooLong | src/day2.rs:36 | a line with a fourth character panics |
| Day2.FromToIdx | src/day2.rs:52-58 | from_idx undoes to_idx for every pair of shapes |
| Day2.ToFromIdx | src/day2.rs:52-58 | to_idx undoes from_idx on every counter index below 9, and both shapes are in 1..3 |
| Day2.ScoreMeans | src/day2.rs:65-71 | a round scores the played shape plus 3 for a draw, 6 for a win, 0 for a loss, and exactly one of two different shapes beats the other |
| Day2.ScoreResultMeans | src/day2.rs:73-84 | on every counter index the chosen reply loses, draws or wins as the second column asks, and the round scores reply + 3 * (column - 1) |
| Day2.CountPlays | src/day2.rs:17-27 | the nine counters hold the number of rounds of each (first, second) pair |
| Day2.CountsTotal | src/day2.rs:17-27 | the counters add up to the number of rounds |
| Day2.ScorePlaysOf | src/day2.rs:11-15 | the loop returns the sum over the nine counters of score(index) * count |
| Day2.TallyScoresEveryRound | src/day2.rs:11-27 | scoring the tallied counters equals adding the score of every round one by one |
| Day2.Part1 | src/day2.rs:1-4 | the total equals the round-by-round sum of score_play |
| Day2.Part2 | src/day2.rs:6-9 | the total equals the round-by-round sum of score_result |
| Day2.SampleScores | src/day2.rs:98-102 | the sample's three rounds score 15 under part 1 |
| Day2.SampleDraw | src/day2.rs:106 | score_result(to_idx(1, 2)) is 4 |
| Day2.SampleLose | src/day2.rs:107 | score_result(to_idx(2, 1)) is 1 |
| Day2.SampleWin | src/day2.rs:108 | score_result(to_idx(3, 3)) is 7 |
| Day2.ToIdx | src/day2.rs:52-58 | the index of a pair of shapes is one of the nine slots |
| Day2.Occurrences | src/day2.rs:17-27 | a pair occurs at most once per round |
| Day2.Counts | src/day2.rs:17-27 | one count per pair of shapes |
| Day2.SumIncrement | src/day2.rs:23-25 | counting one more round adds one to the total count |
| Day2.ScorePlaysIncrement | src/day2.rs:11-15 | counting one more round of a pair adds that pair's score |
| Day3.CharIdx | src/day3.rs:68-75 | lower-case letters map to 0..25 and upper-case to 26..51, each by its offset from 'a' or 'A' |
| Day3.CharIdxInjective | src/day3.rs:68-75 | two letters share an index exactly when they are equal |
| Day3.MaskHas | src/day3.rs:35-39 | a letter's bit is in a half's mask exactly when the letter occurs in that half |
| Day3.OverlapMiddle | src/day3.rs:34-47 | panics exactly when no item of the second half occurs in the first; otherwise returns the index of the first item of the second half that does |
| Day3.FirstSharedMeans | src/day3.rs:40-46 | the recursive scan of the second half finds the first item shared with the first half, or panics when there is none |
| Day3.TrailingZerosLowest | src/day3.rs:64 | trailing_zeros is the lowest set bit, or 64 for an empty mask |
| Day3.CommonMeans | src/day3.rs:50-60 | a bit survives the group intersection exactly when it was set before and every sack holds that item |
| Day3.BadgeMeans | src/day3.rs:61-65 | the badge is the smallest item index common to all sacks of the group, and 0 when none is common |
| Day3.CommonOfAll | src/day3.rs:50-60 | starting from u64::MAX the surviving bits are exactly the items in every sack, all below 52 |
| Day3.OverlapElems | src/day3.rs:49-66 | the bitmask loop returns the badge of the group |
| Day3.TotalOverlapPriority | src/day3.rs:20-22 | succeeds exactly when every sack has an item shared by its two halves |
| Day3.TotalGroupBadgePriority | src/day3.rs:9-18 | panics exactly when the number of sacks is not a multiple of 3; otherwise the sum of badge + 1 over the groups of three, at least one per group |
| Day3.BadgeSumStep | src/day3.rs:14-16 | the badge sum splits at every chunk boundary into one group plus the rest |
| Day3.ParseSacks | src/day3.rs:24-32 | the lines parse exactly when every line has an even length, and then they are the sacks unchanged |
| Day3.SampleOverlap | src/day3.rs:98 | the sample sack "ttgJtRGJQctTZtZT" shares 't' (index 19) |
| Day3.SampleMasks | src/day3.rs:52-59 | three small sacks have the item masks their letters give |
| Day3.SampleBadge | src/day3.rs:49-66 | the group "rZx", "Zry", "zrZ" has badge 'r' (index 17) |
| Day3.Mask | src/day3.rs:35-39 | a rucksack's mask holds only priority indices below 52 |
| Day3.MaskSnoc | src/day3.rs:35-39 | one more item sets its own bit |
| Day3.ChunkFits | src/day3.rs:14-16 | each group of three lies inside the list of rucksacks |
| Day4.IncludesEnds | src/day4.rs:30-34 | the sign test holds exactly when one range's ends lie inside the other's |
| Day4.IncludesMeansCovers | src/day4.rs:30-34 | for well-formed ranges, `includes` holds exactly when one range contains every section of the other |
| Day4.OverlapsMeansShared | src/day4.rs:36-40 | for well-formed ranges, `overlaps` holds exactly when some section lies in both |
| Day4.OverlapsNeedsWellFormed | src/day4.rs:36-40 | the sign test reports an overlap for a reversed range that holds no section at all |
| Day4.IncludesSymmetric | src/day4.rs:30-34 | `includes` does not depend on the order of the pair |
| Day4.OverlapsSymmetric | src/day4.rs:36-40 | `overlaps` does not depend on the order of the pair |
| Day4.IncludesOverlaps | src/day4.rs:30-40 | a pair where one range includes the other also overlaps |
| Day4.Part1 | src/day4.rs:10-18 | the loop counts the pairs for which `includes` holds |
| Day4.Part2 | src/day4.rs:20-28 | the loop counts the pairs for which `overlaps` holds |
| Day4.Part1AtMostPart2 | src/day4.rs:10-28 | on well-formed pairs the part 1 count never exceeds the part 2 count |
| Day4.CountSwapped | src/day4.rs:10-28 | swapping the two elves of every pair changes neither count |
| Day4.TokensOfShow | src/day4.rs:4 | splitting "a-b,c-d" on ',' and '-' gives the four numbers' digits |
| Day4.ParseShow | src/day4.rs:1-8 | a written pair of i32 ranges parses back to itself |
| Day4.LinesOfRender | src/day4.rs:2 | the lines of a rendered list are the written pairs |
| Day4.ParseShown | src/day4.rs:1-8 | parsing the written pairs line by line gives the pairs back |
| Day4.GeneratorRoundTrip | src/day4.rs:1-8 | the generator reads back any list of non-negative i32 pairs written one per line |
| Day4.SampleAnswers | src/day4.rs:65-73 | the sample's six pairs give 2 for part 1 and 4 for part 2 |
| Day4.SampleCases | src/day4.rs:75-103 | the `includes` and `overlaps` cases in the source's unit tests come out as those tests assert |
| Day4.Count | src/day4.rs:10-28 | a count is at most the number of pairs |
| Day4.ParseLines | src/day4.rs:1-8 | one pair per line, or the first parse panic |
| Day4.ShowAll | src/day4.rs:1-8 | the text of each pair, line by line |
| Day4.ParseLinesCons | src/day4.rs:1-8 | lines parse to a pair and the rest when the first line and the rest do |
| Day5.ToMove | src/day5.rs:74-76 | a captured move converts exactly when both stack numbers are at least 1, and then the stacks are 0-based |
| Day5.TotalUpdate | src/day5.rs:13-43 | replacing one stack changes the crate total by the difference in its height |
| Day5.MoveCrate | src/day5.rs:17-21 | one crate moves exactly when both stacks exist and the source is not empty; crates are conserved and other stacks are unchanged |
| Day5.MoveCrates | src/day5.rs:16-22 | a successful move of k crates conserves crates and leaves other stacks alone |
| Day5.CratesReverse | src/day5.rs:15-23 | moving k crates one at a time puts the top k crates of the source on the target in reverse order |
| Day5.CratesRunOut | src/day5.rs:19-21 | asking for more crates than the source holds panics "Unexpected, try to move out of empty stack" |
| Day5.CratesSameStack | src/day5.rs:15-23 | moving crates from a non-empty stack to itself leaves every stack as it was |
| Day5.MoveBlock | src/day5.rs:30-41 | a block move succeeds exactly when it moves nothing or both stacks exist and the source holds enough crates; crates are conserved and other stacks unchanged |
| Day5.BlockUnreversesCrates | src/day5.rs:13-43 | the two cranes leave every stack but the target alike; the 9000 puts the block reversed and the 9001 in order |
| Day5.Tops | src/day5.rs:24 | reading the tops succeeds exactly when no stack is empty, and gives each stack's last crate |
| Day5.Lift | src/day5.rs:17-21 | the in-place pop and push on the stack array panic or update exactly as MoveCrate says |
| Day5.LiftAll | src/day5.rs:16-22 | the loop over one move's crates panics or updates exactly as MoveCrates says |
| Day5.Part1 | src/day5.rs:13-25 | the answer is the tops after applying every move crate by crate (Apply9000) |
| Day5.Gather | src/day5.rs:31-37 | popping k crates into the buffer panics exactly when the source is too short; otherwise the source loses its top k and the buffer holds them reversed |
| Day5.Scatter | src/day5.rs:38-40 | popping the whole buffer onto the target appends it reversed and empties the buffer; a missing target panics on the unwrap |
| Day5.Part2 | src/day5.rs:27-43 | the answer is the tops after applying every move as a block (Apply9001) |
| Day5.PushRow | src/day5.rs:53-64 | a drawing row is read exactly when every remaining column holds a letter or a blank; each letter is pushed on its stack |
| Day5.RowsPushLetters | src/day5.rs:52-65 | stacks built from drawing rows hold only letters |
| Day5.BuildStacksShape | src/day5.rs:45-67 | the stacks read from a drawing are as many as the labels on its last line, and hold only letters |
| Day5.MkStacks | src/day5.rs:45-67 | the imperative reading of the drawing equals the functional BuildStacks |
| Day5.PushLine | src/day5.rs:52-64 | the per-row loop panics or pushes exactly as PushRow says |
| Day5.Sections | src/day5.rs:3-11 | the input is accepted exactly when it has two sections separated by a blank line |
| Day5.SampleDrawing | src/day5.rs:98-104 | the sample drawing gives the stacks "ZN", "MCD", "P" |
| Day5.SampleTops0 | src/day5.rs:101-104 | the sample stacks' tops are N, D and P |
| Day5.SampleMoveLabels | src/day5.rs:106-108 | the first and last sample moves convert to (1, 1, 0) and (1, 0, 1) |
| Day5.SamplePart1 | src/day5.rs:111-115 | the sample moves with the 9000 crane leave "CMZ" on top |
| Day5.SamplePart2 | src/day5.rs:117-121 | the sample moves with the 9001 crane leave "MCD" on top |
| Day5.Reverse | src/day5.rs:16-22 | the crates in reverse order, as moving them one at a time leaves them |
| Day5.ReverseReverse | src/day5.rs:13-43 | reversing twice gives the crates back, so a one-at-a-time move reversed is a block move |
| Day5.CrateStep | src/day5.rs:17-18 | one crate moved is the top of the source stack popped and pushed onto the target |
| Day5.PopTop | src/day5.rs:17-18 | popping one crate then moving k - 1 moves the same crates as moving k |
| Day5.PushRows | src/day5.rs:52-65 | pushing the drawing's rows keeps the number of stacks |
| Day5.Empty | src/day5.rs:47-50 | n empty stacks |
| Day5.SampleRows | src/day5.rs:98-104 | the sample drawing's rows, bottom first, push Z M P, then N C, then D |
| Day5.SampleRowsPushed | src/day5.rs:98-104 | the sample drawing builds the stacks ZN, MCD and P |
| Day5.SampleStep1 | src/day5.rs:111-121 | the sample's first move takes D onto the first stack under either crane |
| Day5.SampleStep2 | src/day5.rs:111-115 | the second move, one crate at a time, leaves PDNZ on the third stack |
| Day5.SampleBlock2 | src/day5.rs:117-121 | the second move as a block leaves PZND on the third stack |
| Day5.SampleStep3 | src/day5.rs:111-115 | the third move, one crate at a time, leaves CM on the first stack |
| Day5.SampleBlock3 | src/day5.rs:117-121 | the third move as a block leaves MC on the first stack |
| Day5.SampleStep4 | src/day5.rs:111-115 | the last move, one crate at a time, leaves C, M and PDNZ |
| Day5.SampleBlock4 | src/day5.rs:117-121 | the last move as a block leaves M, C and PZND |
| Day5.SampleTops1 | src/day5.rs:111-115 | the tops one crate at a time read CMZ |
| Day5.SampleTops2 | src/day5.rs:117-121 | the tops as blocks read MCD |
| Day5.Apply9000Cons | src/day5.rs:15-23 | the moves one crate at a time are the first move then the rest |
| Day5.Apply9001Cons | src/day5.rs:29-42 | the block moves are the first move then the rest |
| Day6.DistinctCounts | src/day6.rs:67-83 | in a window without repeats no character occurs twice |
| Day6.NoRepeatsCounts | src/day6.rs:67-83 | a window has no repeats exactly when every character's count is at most 1 |
| Day6.LetterCounts | src/day6.rs:54-58 | for lower-case windows it is enough to look at the 26 letters' counts |
| Day6.ExcessUpdate | src/day6.rs:70-80 | changing one letter's count moves `dups` (the surplus copies) by the change in that letter's surplus |
| Day6.ExcessZero | src/day6.rs:82 | `dups` is zero exactly when every count is at most 1 |
| Day6.DupsMeanRepeats | src/day6.rs:67-83 | with counts matching the ring buffer, `dups == 0` exactly when the window read from idx has no repeats |
| Day6.Marker.constructor | src/day6.rs:49-66 | a new marker holds `size` copies of 'a', counts[0] = size and dups = size - 1 |
| Day6.Marker.Remove | src/day6.rs:68-73 | taking out the oldest character decrements its count and keeps dups equal to the surplus |
| Day6.Marker.Put | src/day6.rs:74-81 | writing the new character at idx and advancing idx modulo the window keeps counts and dups in step with the buffer |
| Day6.Marker.Add | src/day6.rs:67-83 | panics exactly on a character that is not a lower-case letter; otherwise the window slides by one character and the result says whether it has no repeats |
| Day6.FirstMarker | src/day6.rs:13-21 | the first end position from e whose window of `size` characters has no repeats, if any |
| Day6.FirstMarkerFirst | src/day6.rs:13-21 | no earlier end position has a window without repeats |
| Day6.SearchStep | src/day6.rs:15-18 | one step of the scan either finds the marker at i + 1 or leaves the first marker unchanged |
| Day6.FindMarker | src/day6.rs:13-21 | for size >= 2 it reports the first marker of the message's lower-case prefix (panicking when there is none, or in `add` on the first other character), which for an all-lower-case message is the first marker; for size < 2 the `size - 2` underflow panics |
| Day6.Scan | src/day6.rs:15-20 | the loop over the message reports as FindMarker says |
| Day6.Feed | src/day6.rs:15-18 | one call of `add` panics exactly on a non-letter, and otherwise advances the window and the search |
| Day6.LowerPrefixFacts | src/day6.rs:69 | the lower-case prefix stops at the first character `add` panics on |
| Day6.Part1 | src/day6.rs:5-7 | the first marker of 4 distinct characters |
| Day6.Part2 | src/day6.rs:9-11 | the first marker of 14 distinct characters |
| Day6.NoDuplicates | src/day6.rs:34-39 | true exactly when the window has no repeated character |
| Day6.FindMarkerContains | src/day6.rs:23-32 | the windows-based search reports the first marker as well, and panics on size 0 |
| Day6.SearchesAgree | src/day6.rs:13-32 | the two searches agree for size >= 2 |
| Day6.SizeOneDiffers | src/day6.rs:13-32 | with size 1 the windows search finds a marker at 1, while find_marker panics |
| Day6.RepeatInWindow | src/day6.rs:34-39 | a repeated character inside a window rules it out |
| Day6.SampleMarker4 | src/day6.rs:92 | the first part 1 sample has its marker at 5 |
| Day6.SampleMarker4b | src/day6.rs:93 | the second part 1 sample has its marker at 6 |
| Day6.SampleMarker4c | src/day6.rs:94 | the third part 1 sample has its marker at 10 |
| Day6.SampleMarker4d | src/day6.rs:95 | the fourth part 1 sample has its marker at 11 |
| Day6.SampleMarker14 | src/day6.rs:100 | the first part 2 sample has its marker at 19 |
| Day6.SampleMarker14b | src/day6.rs:101 | the second part 2 sample has its marker at 23 |
| Day6.SampleMarker14c | src/day6.rs:102 | the third part 2 sample has its marker at 23 |
| Day6.SampleMarker14d | src/day6.rs:103 | the fourth part 2 sample has its marker at 29 |
| Day6.SampleMarker14e | src/day6.rs:104 | the fifth part 2 sample has its marker at 26 |
| Day6.SampleWindows | src/day6.rs:107-129 | feeding "abcdd" to a window of 4, only the fourth character completes a window without repeats |
| Day6.MultisetUpdate | src/day6.rs:75 | overwriting a window slot swaps one character for another in the window's multiset |
| Day6.RepeatCounted | src/day6.rs:67-83 | a character at two positions of the window is counted at least twice |
| Day6.LetterSumAdd | src/day6.rs:77 | adding a letter to the window adds one to the letter counts |
| Day6.Repeat | src/day6.rs:50-53 | the new window is size copies of `a` |
| Day6.RepeatCount | src/day6.rs:54-58 | the new window counts size copies of `a` and nothing else |
| Day6.CountsAdd | src/day6.rs:76-77 | counting an added letter raises its own count by one |
| Day6.CountsRemove | src/day6.rs:69-70 | removing a letter lowers its own count by one |
| Day6.Rotate | src/day6.rs:75-81 | after a slot is overwritten and the index moves on, the window read from the index is the old one shifted by the new letter |
| Day6.Marker.CountsSumToSize | src/day6.rs:67-83 | the letter counts always add up to the window size |
| Day6.PutKeeps | src/day6.rs:75-80 | adding a letter keeps the counts and the duplicate total in step with the window |
| Day6.LowerSum | src/day6.rs:54-58 | the counts of a window of lower-case letters add up to its length |
| Day6.WindowAfterStep | src/day6.rs:15-18 | feeding one more character slides the window by one |
| Day6.WindowAfterFull | src/day6.rs:15-18 | once size characters are fed the window is the last size characters |
| Day6.LowerPrefix | src/day6.rs:69 | the length of the message's leading run of lower-case letters |
| Day6.LowerPrefixAt | src/day6.rs:69 | a position is in that run exactly when its character is lower-case |
| Day6.NoMarkerPast | src/day6.rs:13-21 | a message that ends before the search point has no marker |
| Day6.SkipWindow | src/day6.rs:15-18 | a window with a repeat is not the marker, so the search moves on |
| Day6.MarkerAfterRepeats | src/day6.rs:13-21 | when every earlier window has a repeat and the window at m has none, the marker ends at m |
| Day6.SampleWindow14 | src/day6.rs:100 | the window ending at 19 of the first part-two sample has no repeat |
| Day6.SampleMarker14End | src/day6.rs:100 | the marker of the first part-two sample ends at 19 |
| Day6.SampleWindow4b | src/day6.rs:93 | the window ending at 6 of the second sample has no repeat |
| Day6.SampleWindow4c | src/day6.rs:94 | the window ending at 10 of the third sample has no repeat |
| Day6.SampleWindow4d | src/day6.rs:95 | the window ending at 11 of the fourth sample has no repeat |
| Day6.SampleWindow14b | src/day6.rs:101 | the window ending at 23 of the second part-two sample has no repeat |
| Day6.SampleWindow14c | src/day6.rs:102 | the window ending at 23 of the third part-two sample has no repeat |
| Day6.SampleWindow14d | src/day6.rs:103 | the window ending at 29 of the fourth part-two sample has no repeat |
| Day6.SampleWindow14e | src/day6.rs:104 | the window ending at 26 of the fifth part-two sample has no repeat |
| Day7.MkNameRooted | src/day7.rs:80-82 | a name made under a rooted working directory starts with '/' |
| Day7.MkNameSample | src/day7.rs:80-82 | the file i under the directories "", a, e is named "/a/e/i" |
| Day7.ParseLine | src/day7.rs:11-28 | each transcript line lists at most one entry |
| Day7.ParseLineRooted | src/day7.rs:11-28 | a rooted working directory stays rooted, and every listed name is absolute, unless a relative `cd` comes first |
| Day7.Parse | src/day7.rs:7-32 | the loop over the lines lists what the line-by-line function ParseFrom lists, starting from an empty working directory |
| Day7.ParseCdRoot | src/day7.rs:15-18 | "$ cd /…" pushes the root component and lists "/" as a directory |
| Day7.ParseCdInto | src/day7.rs:19 | "$ cd x" for a relative x pushes x and lists nothing |
| Day7.ParseDir | src/day7.rs:20-22 | "dir x" lists x under the working directory as a directory |
| Day7.ParseFile | src/day7.rs:24-28 | "size name" lists the file with its u64 size under the working directory |
| Day7.RFind | src/day7.rs:66 | `rfind` returns the position of the last occurrence, or nothing when there is none |
| Day7.DirKeySplit | src/day7.rs:65-72 | the directory prefixes of a path are the prefix up to its last '/' and those of what precedes it |
| Day7.AddAlongMeans | src/day7.rs:64-75 | adding one file succeeds exactly when its path is empty or absolute, and then adds its size to every directory prefix of the path (and to nothing else), creating missing keys |
| Day7.ComputeSizes | src/day7.rs:58-78 | the nested loops compute what the functional AddAll computes from an empty table |
| Day7.AddAllMeans | src/day7.rs:58-78 | the table is built exactly when every file path is absolute; each key then holds the total size of the files under it, and the keys are exactly the directory prefixes of the files |
| Day7.RootTotal | src/day7.rs:58-78 | with absolute paths, "/" collects every file |
| Day7.RootHoldsEverything | src/day7.rs:58-78 | the table of a transcript with absolute files has "/" equal to the sum of all file sizes |
| Day7.SmallSumRemove | src/day7.rs:34-41 | the part 1 sum splits off any one directory |
| Day7.Part1 | src/day7.rs:34-41 | the sum over every directory of its size when below 100000 |
| Day7.Part2 | src/day7.rs:43-56 | panics exactly when "/" is missing or above 70000000; otherwise 0 when 30000000 is free already, else the smallest size strictly above what is missing, or u64::MAX when none is |
| Day7.SamplePart1 | src/day7.rs:139-143 | the example's four directory sizes give 95437 |
| Day7.SamplePart2 | src/day7.rs:145-149 | the example's directory sizes give 24933642 |
| Day7.JoinRooted | src/day7.rs:80-82 | the joined name of a path that starts at the root begins with `/` |
| Day8.Generator | src/day8.rs:2-10 | the grid parses exactly when every line is all digits and has as many characters as there are lines; a parsed grid is square with heights 0..9 |
| Day8.GeneratorRoundTrip | src/day8.rs:2-10 | rendering any square digit grid and parsing it back gives the same grid |
| Day8.ParseRow | src/day8.rs:4 | a line parses exactly when it is all digits, and each height is the digit's value |
| Day8.ParseRows | src/day8.rs:3-5 | the lines parse exactly when each is all digits, row by row |
| Day8.LeftLine | src/day8.rs:24-29 | the trees the left-to-right sweep has met in row r before column k, from the left edge |
| Day8.RightLine | src/day8.rs:34-38 | the trees the right-to-left sweep has met in row r, from the right edge |
| Day8.UpLine | src/day8.rs:30-32 | the trees the top-to-bottom sweep has met in column c, from the top edge |
| Day8.DownLine | src/day8.rs:39-41 | the trees the bottom-to-top sweep has met in column c, from the bottom edge |
| Day8.MaxOfMeans | src/day8.rs:17-29 | a height is above a line's running maximum (starting at -1) exactly when it is above every tree in the line |
| Day8.SightMeans | src/day8.rs:96 | a tree is taller than its `compute_max` entry exactly when every tree between it and some edge is shorter |
| Day8.SightOnBorder | src/day8.rs:17-20 | a tree on the edge has an empty line in some direction, so its entry is -1 |
| Day8.BorderVisible | src/day8.rs:96 | every tree on the edge of the grid counts as visible |
| Day8.Serve | src/day8.rs:28-41 | one `min` step of the sweep lowers exactly the served cell to that direction's line maximum and keeps the table invariant |
| Day8.Visit | src/day8.rs:28-29 | one direction's update keeps the table invariant and grows the running maximum by the tree met |
| Day8.SweepStep | src/day8.rs:24-42 | one step j of the inner loop serves all four directions and keeps both the table and the running maxima invariant |
| Day8.TableDone | src/day8.rs:16-44 | once all rows are swept, each entry is the smallest of the four line maxima of its cell |
| Day8.ComputeMax | src/day8.rs:12-45 | the table is n-by-n and each entry is the smallest of the tallest trees toward the four edges (-1 for an empty side) |
| Day8.ViewMeans | src/day8.rs:67-68 | the viewing distance is at least 1 on a non-empty line, every tree it passes over is shorter, and it stops at the first tree as tall or taller unless it reaches the edge |
| Day8.BlockerSplit | src/day8.rs:68 | the last tree at least h tall is the later of the last tree exactly h tall and the last tree at least h+1 tall |
| Day8.SliceBlocker | src/day8.rs:68 | the maximum of the last-seen table from height h upward is the position of the last tree at least h tall |
| Day8.ViewBySlice | src/day8.rs:67-68 | `j - max(m[h..])` is the viewing distance of the tree of height h over the line swept so far |
| Day8.LastsGrow | src/day8.rs:69 | recording the current step for the tree's height keeps the last-seen table right for the longer line |
| Day8.VisitScore | src/day8.rs:67-69 | one direction's update multiplies in its viewing distance and updates the last-seen table |
| Day8.ScoreStep | src/day8.rs:63-85 | one step j serves the four directions and keeps the score table and the four last-seen tables invariant |
| Day8.ScoreDone | src/day8.rs:55-87 | once all rows are swept, each entry is the product of its cell's four viewing distances |
| Day8.ComputeScenicScore | src/day8.rs:47-88 | the table is n-by-n and each entry is the product of the four viewing distances of its tree |
| Day8.CountRow | src/day8.rs:95-99 | the inner loop counts exactly the visible trees of row i |
| Day8.Part1 | src/day8.rs:90-102 | the count is the number of visible trees of the grid |
| Day8.TableMax | src/day8.rs:106 | the result is an entry of the table and no entry is larger |
| Day8.Part2 | src/day8.rs:104-107 | on an empty grid it panics; otherwise the answer is some tree's scenic score and no tree scores higher |
| Day8.SampleScenic1 | src/day8.rs:148-154 | in the example grid the tree at row 1, column 2 scores 4 |
| Day8.SampleScenic2 | src/day8.rs:148-154 | in the example grid the tree at row 3, column 2 scores 8 |
| Day8.MaxOf | src/day8.rs:17-20 | the tallest tree of a line of sight, -1 for an empty one |
| Day8.MaxOfSnoc | src/day8.rs:29 | one more tree raises the running maximum to at least its height |
| Day8.RightBelow | src/day8.rs:37-38 | a tree is taller than the running maximum from the right exactly when it is taller than every tree to its right |
| Day8.DownBelow | src/day8.rs:40-41 | a tree is taller than the running maximum from below exactly when it is taller than every tree below it |
| Day8.Lower | src/day8.rs:28 | one cell of the table is lowered to the minimum with the running maximum, and no other cell changes |
| Day8.VisitTwo | src/day8.rs:28-32 | two sweeps of one loop turn keep the table and raise their running maxima by the trees they pass |
| Day8.RunningStep | src/day8.rs:24-42 | after a loop turn the four running maxima are the maxima of the four lines swept so far |
| Day8.StageLineGrow | src/day8.rs:24-42 | each loop turn adds one tree to each swept line |
| Day8.Blocker | src/day8.rs:68 | the last position of a tree at least as tall, 0 when there is none |
| Day8.LastAt | src/day8.rs:69 | the last position of a tree of exactly the given height |
| Day8.LastAtSnoc | src/day8.rs:69 | a new tree of that height becomes the last position |
| Day8.BlockerTen | src/day8.rs:68 | no digit tree is 10 tall, so nothing blocks at height 10 |
| Day8.SliceMax | src/day8.rs:68 | the largest last-seen position from a height upward, and it is one of them |
| Day8.Scale | src/day8.rs:67-68 | one cell of the score table is multiplied by the viewing distance, and no other cell changes |
| Day8.VisitScoreTwo | src/day8.rs:67-73 | two sweeps of one loop turn multiply in their viewing distances and record the trees they pass |
| Day8.RowText | src/day8.rs:2-10 | the text of a row of heights, one digit per tree |
| Day9.ParseMove | src/day9.rs:7-9 | a parsed move's direction is the first character of the first word and its count the i32 value of the second word |
| Day9.ParseMoves | src/day9.rs:5-10 | one move per line, failing when any line fails |
| Day9.ParseShow | src/day9.rs:7-9 | printing a move with a non-blank direction and an i32 count and parsing it back gives the move |
| Day9.ParseShown | src/day9.rs:5-10 | printing any list of such moves line by line and parsing it back gives the list |
| Day9.GeneratorRoundTrip | src/day9.rs:4-11 | the generator inverts printing the moves one per line |
| Day9.MoveHead | src/day9.rs:26-34 | R, L, U and D move the head along one axis by the count; any other direction panics |
| Day9.MoveHeadBack | src/day9.rs:26-34 | moving back the opposite way by the same count returns the head to where it was |
| Day9.ExactSign | src/day9.rs:66 | `(prev - knot) / diff` with diff the absolute difference is the sign of the difference |
| Day9.Step | src/day9.rs:80-97 | a unit step of a knot that is not touching moves at most one cell per axis and brings it closer |
| Day9.TrailEnds | src/day9.rs:54-101 | the knot's trail ends where it touches prev again |
| Day9.TrailIsWalk | src/day9.rs:54-101 | consecutive cells of the trail are at most one unit apart on each axis |
| Day9.FollowAfterStep | src/day9.rs:83-97 | taking one unit step does not change where the knot ends up |
| Day9.Advance | src/day9.rs:84-86 | one `knot += …; record(…)` is the next step of the trail and records it when recording |
| Day9.AlongY | src/day9.rs:64-71 | in the same column the knot walks toward prev until touching, recording each cell when recording |
| Day9.AlongX | src/day9.rs:72-79 | in the same row the knot walks toward prev until touching, recording each cell when recording |
| Day9.DiagonalRun | src/day9.rs:83-89 | the diagonal loop steps while both differences are non-zero and not both 1 |
| Day9.FinishX | src/day9.rs:90-93 | the second loop closes the x gap to at most 1 |
| Day9.FinishY | src/day9.rs:94-97 | the third loop closes the y gap, leaving the knot touching prev |
| Day9.Diagonal | src/day9.rs:80-98 | the general case leaves the knot touching prev after walking its trail |
| Day9.ProgressDone | src/day9.rs:54-101 | once the knot touches prev it has walked exactly its trail, and the visited set has grown by its cells when recording |
| Day9.MoveKnot | src/day9.rs:54-101 | it reports a move exactly when the knots were not touching; the knot ends touching prev at the end of its trail; the visited set grows by the trail's cells when recording and is otherwise unchanged |
| Day9.SampleFollow | src/day9.rs:186-193 | the knot at (0, 0) following (5, 4) ends at (4, 4) |
| Day9.Run1 | src/day9.rs:19-22 | the tail's visited cells over the moves only grow, and the run panics exactly when some move has an unknown direction |
| Day9.Part1 | src/day9.rs:13-24 | the loop computes Run1's count from the origin; it panics exactly on an unknown direction; otherwise at least the origin is counted |
| Day9.Pull | src/day9.rs:114-126 | pulling from knot i on leaves the knots before i in place |
| Day9.PullIdle | src/day9.rs:118-120 | when every later knot already touches its predecessor, pulling changes nothing (so the `break` is safe) |
| Day9.PullTaut | src/day9.rs:114-126 | after the pull every knot touches its predecessor |
| Day9.UnitStep | src/day9.rs:111-126 | a unit move keeps ten knots and only grows the visited set; it panics exactly on an unknown direction |
| Day9.Rope | src/day9.rs:111-127 | n unit moves keep ten knots and only grow the visited set; they panic exactly when n > 0 and the direction is unknown |
| Day9.Run2 | src/day9.rs:110-128 | over all moves the visited set only grows; the run panics exactly when a move with a positive count has an unknown direction |
| Day9.MoveRope | src/day9.rs:112-126 | one unit move with the early `break` equals UnitStep and keeps every knot touching its predecessor |
| Day9.Part2 | src/day9.rs:103-130 | the loop computes Run2's count from ten knots at the origin; it panics exactly when a move with a positive count has an unknown direction; otherwise at least the origin is counted |
| Day9.CellsSnoc | src/day9.rs:54-101 | recording one more position adds it to the visited set |
| Day9.TrailStep | src/day9.rs:80-98 | one step of the follower followed by the rest of its trail is the whole trail |
| Day10.ParseInstr | src/day10.rs:6-18 | "noop" is exactly the line that parses as a no-op; an `addx` line has "addx" as its first word and an i32 as its second; an error means the line is neither |
| Day10.ParseProgram | src/day10.rs:5-20 | one instruction per line, failing at the first bad line |
| Day10.ParsePrefixPanic | src/day10.rs:5-20 | once a prefix of the lines fails, the whole program fails with the same message |
| Day10.ParseShow | src/day10.rs:6-18 | printing an instruction with an i32 operand and parsing it back gives the instruction |
| Day10.ParseShown | src/day10.rs:5-20 | printing a program one instruction per line and parsing it back gives the program |
| Day10.GeneratorRoundTrip | src/day10.rs:1-22 | splitting the joined printout into lines and parsing them gives the program back |
| Day10.CyclesLength | src/day10.rs:7-18 | a program pushes one value per `noop` and two per `addx` |
| Day10.CyclesAppend | src/day10.rs:5-20 | running two programs one after the other pushes the first's trace, then the second's from the first's final register |
| Day10.CyclesClock | src/day10.rs:1-22 | entry k of the trace is the register after k cycles (an `addx` takes effect at the end of its second cycle) and the last entry is the final register |
| Day10.RunLine | src/day10.rs:6-18 | one line of the loop parses like ParseInstr and pushes that instruction's cycles, leaving the register at its final value |
| Day10.TraceKeeps | src/day10.rs:5-20 | the loop invariant: after each line the trace is [1] followed by the cycles of the lines so far |
| Day10.ParseStep | src/day10.rs:5-20 | parsing one more line either fails with that line's message or appends its instruction |
| Day10.Generator | src/day10.rs:1-22 | a bad program panics with the first bad line's message; otherwise the result is [1] followed by the program's cycles |
| Day10.SampleTrace | src/day10.rs:213-218 | "noop", "addx 3", "addx -5" gives the trace 1, 1, 1, 4, 4, -1 (six values, first 1, last -1) |
| Day10.StrengthOfProgram | src/day10.rs:24-31 | each term of the signal strength is the cycle number times the register during that cycle |
| Day10.Part1 | src/day10.rs:24-31 | a trace shorter than 220 panics on the index; otherwise the answer is the decimal text of the sum over cycles 20, 60, …, 220 |
| Day10.Pixels | src/day10.rs:37-45 | pixel p of row `line` is '#' exactly when the register during that cycle is within 1 of p |
| Day10.Screen | src/day10.rs:33-48 | n rows take 41 characters each |
| Day10.ScreenAt | src/day10.rs:33-48 | every row starts with a newline and then its 40 pixels |
| Day10.ScreenRows | src/day10.rs:33-48 | the screen is the rows joined by newlines after an empty first line, as `test_part2` lays it out |
| Day10.Part2 | src/day10.rs:33-48 | a trace shorter than 240 panics on the index; otherwise the answer is the six-row screen |
| Day11.GetOperation | src/day11.rs:27-40 | an operation parses only from "old", then "+" or "*", then an operand |
| Day11.OperationMeaning | src/day11.rs:27-56 | the parsed operation computes what the expression "old op operand" means ("old + old" as doubling, "old * old" as squaring) |
| Day11.BinOpMod | src/day11.rs:50-56 | applying the operation commutes with taking the residue modulo any positive divisor |
| Day11.PowerMod | src/day11.rs:54 | a power's residue only depends on the base's residue |
| Day11.MulMod | src/day11.rs:52 | a product's residue is the product of the residues, reduced |
| Day11.Route | src/day11.rs:95-98 | an item goes to the true target exactly when its worry is divisible by the monkey's divisor, keeping its worry |
| Day11.Inspected | src/day11.rs:92-103 | inspecting throws one item per held item and panics exactly when there are items and the divisor is 0 |
| Day11.Residues | src/day11.rs:105-111 | an item's residue vector holds its worry modulo each divisor |
| Day11.InitMods | src/day11.rs:105-111 | `initialize_mods` gives one residue vector per item and changes nothing else; it panics exactly when there are items and some divisor is 0 |
| Day11.ReducedValues | src/day11.rs:120-122 | reducing a residue vector applies the operation and reduces each entry by its divisor, and panics exactly on a missing or zero divisor |
| Day11.ModThrows | src/day11.rs:117-130 | inspecting the residue vectors throws one vector per held vector |
| Day11.Turn | src/day11.rs:136-140 | one monkey's turn keeps the number of monkeys |
| Day11.RoundStep | src/day11.rs:135-141 | a round is the turns of monkeys 0, 1, … in order; a turn that panics ends the round with its message |
| Day11.RoundsPanic | src/day11.rs:135-141 | once a round panics, further rounds keep that panic |
| Day11.ModRoundStep | src/day11.rs:151-157 | a residue round is the residue turns in monkey order; a panicking turn ends it |
| Day11.ModRoundsPanic | src/day11.rs:151-157 | once a residue round panics, further rounds keep that panic |
| Day11.Divisors | src/day11.rs:149 | the divisor list holds each monkey's divisor in order |
| Day11.Counters | src/day11.rs:142 | the counter list holds each monkey's inspection count in order |
| Day11.MaxOf | src/day11.rs:144 | the largest counter is one of the counters and no counter exceeds it |
| Day11.RemoveOne | src/day11.rs:144 | removing one copy of a value leaves the other counters, as a multiset |
| Day11.SortCounts | src/day11.rs:143 | sorting gives an ordered permutation of the counters |
| Day11.BusinessOfSorted | src/day11.rs:143-144 | whichever way a sort orders the counters, the last times the second to last is the product of the two largest counters |
| Day11.Insert | src/day11.rs:143 | inserting into a sorted list keeps it sorted and adds exactly the new value |
| Day11Residues.ReducedResidues | src/day11.rs:120-122 | reducing an item's residue vector gives the residue vector of its new worry |
| Day11Residues.ThrowsTrack | src/day11.rs:117-130 | with worry divisor 1, the residue throws go to the same monkeys as the undivided throws and carry the residues of their worries |
| Day11Residues.DeliveredTracks | src/day11.rs:153-155 | delivering matching throws keeps every monkey's residue items tracking its undivided items |
| Day11Residues.TurnTracks | src/day11.rs:152-156 | a residue turn tracks the undivided turn and keeps the monkeys' shapes |
| Day11Residues.RoundTracks | src/day11.rs:152-156 | a residue round tracks the undivided round |
| Day11Residues.RoundsTrack | src/day11.rs:151-157 | any number of residue rounds track the same number of undivided rounds, inspection counts included |
| Day11Residues.InitTracks | src/day11.rs:149-150 | `initialize_mods` on every monkey makes the residue state track the starting state |
| Day11Residues.Part2Undivided | src/day11.rs:147-161 | for well-formed monkeys part 2's answer is the monkey business of ten thousand rounds on the undivided worry levels |
| Day11Troop.Monkey.FromState | src/day11.rs:59-69 | a monkey built from a state reads back as that state |
| Day11Troop.Monkey.AddItem | src/day11.rs:88-90 | the item is appended and nothing else changes |
| Day11Troop.Monkey.AddModItem | src/day11.rs:113-115 | the residue vector is appended and nothing else changes |
| Day11Troop.Monkey.Inspect | src/day11.rs:92-103 | the throws are Inspected's; on success the items are cleared and the counter grows by their number |
| Day11Troop.Monkey.InitializeMods | src/day11.rs:105-111 | panics exactly when InitMods does; otherwise the state becomes InitMods's |
| Day11Troop.Monkey.InspectMods | src/day11.rs:117-130 | the throws are ModThrows's; on success the residue items are drained and the counter grows by their number |
| Day11Troop.ModThrowsStep | src/day11.rs:119-127 | one drained vector either panics the whole inspection or appends its throw, chosen by its residue at the monkey's own index |
| Day11Troop.NewMonkey | src/day11.rs:72-87 | panics exactly when a target is the monkey itself; otherwise a fresh monkey with no residue items and a zero counter |
| Day11Troop.Reduce | src/day11.rs:120-122 | the in-place loop over the vector computes Reduced |
| Day11Troop.States | src/day11.rs:133-134 | the states of the monkeys, in order |
| Day11Troop.CloneAll | src/day11.rs:134 | the clone holds fresh, distinct monkeys in the same states |
| Day11Troop.Give | src/day11.rs:138 | only the target monkey changes, by getting the item |
| Day11Troop.GiveMod | src/day11.rs:154 | only the target monkey changes, by getting the residue vector |
| Day11Troop.Deliver | src/day11.rs:137-139 | delivering the throws one by one computes Delivered |
| Day11Troop.DeliverMod | src/day11.rs:153-155 | delivering the residue throws one by one computes ModDelivered |
| Day11Troop.RunTurn | src/day11.rs:136-140 | one monkey's turn on the objects computes Turn |
| Day11Troop.RunModTurn | src/day11.rs:152-156 | one residue turn on the objects computes ModTurn |
| Day11Troop.RunRound | src/day11.rs:136-140 | the loop over the monkeys computes Round |
| Day11Troop.RunModRound | src/day11.rs:152-156 | the loop over the monkeys computes ModRound |
| Day11Troop.RunRounds | src/day11.rs:135-141 | the round loop computes Rounds |
| Day11Troop.RunModRounds | src/day11.rs:151-157 | the round loop computes ModRounds |
| Day11Troop.InitializeAll | src/day11.rs:150 | initialising every monkey in order computes InitAll |
| Day11Troop.InspectionCounts | src/day11.rs:142 | the counters are read off in monkey order |
| Day11Troop.MonkeyBusiness | src/day11.rs:142-144 | sorting the counters and multiplying the last two computes Business |
| Day11Troop.Part1 | src/day11.rs:133-145 | on a clone of the monkeys, the answer is twenty rounds with worry divided by 3, then the product of the two largest counts |
| Day11Troop.Part2 | src/day11.rs:147-161 | on a clone of the monkeys, the answer is ten thousand residue rounds, then the product of the two largest counts |
| Day11.ModStep | src/day11.rs:124 | multiplying residues agrees with multiplying worries modulo each divisor, so the residue arithmetic tracks the true worry |
| Day11.Reduced | src/day11.rs:120-122 | a successful residue update has one residue per divisor |
| Day11.ReducedPanic | src/day11.rs:120-122 | a residue update that panics at one divisor stays panicked whatever divisors follow |
| Day11.Delivered | src/day11.rs:137-139 | handing out a turn's throws keeps the number of monkeys |
| Day11.DeliveredPanic | src/day11.rs:137-139 | a throw to a monkey that does not exist panics, and the panic persists through later throws |
| Day11.Round | src/day11.rs:136-140 | a successful round keeps the number of monkeys |
| Day11.Rounds | src/day11.rs:135-141 | successful rounds keep the number of monkeys |
| Day11.RoundPanic | src/day11.rs:136-140 | a panic in one monkey's turn ends the round with that panic |
| Day11.ModDelivered | src/day11.rs:153-155 | handing out residue throws keeps the number of monkeys |
| Day11.ModDeliveredPanic | src/day11.rs:153-155 | a residue throw to a missing monkey panics, and the panic persists |
| Day11.ModThrowsPanic | src/day11.rs:117-130 | once inspecting a residue item panics, the rest of the turn returns that panic |
| Day11.ModTurn | src/day11.rs:153-155 | a successful residue turn keeps the number of monkeys |
| Day11.ModRound | src/day11.rs:152-156 | a successful residue round keeps the number of monkeys |
| Day11.ModRounds | src/day11.rs:151-157 | successful residue rounds keep the number of monkeys |
| Day11.ModRoundPanic | src/day11.rs:152-156 | a panic in one residue turn ends the round with that panic |
| Day11.InitAll | src/day11.rs:150 | initialising every monkey's residues keeps the number of monkeys |
| Day11.InitAllPanic | src/day11.rs:150 | a panic while initialising one monkey persists through the rest |
| Day11.SecondOfSorted | src/day11.rs:143-144 | after sorting, the second-to-last count is the largest count left once one maximum is removed |
| Day11.MaxOfSorted | src/day11.rs:143-144 | after sorting, the last count is the largest count |
| Day11Residues.RoundTracksStep | src/day11.rs:151-157 | one residue round keeps every residue equal to the true worry modulo its divisor, and the same counters as the plain round |
| Day11Residues.RoundStep | src/day11.rs:152-156 | a round is the previous monkeys' round followed by one more monkey's turn, in both representations |
| Day11Residues.TurnStep | src/day11.rs:153-155 | one turn keeps the plain and residue monkeys in step |
| Day11Troop.Play1 | src/day11.rs:135-144 | running the monkeys in place for twenty rounds and multiplying the top two counters gives the Part1 answer of the starting states |
| Day11Troop.Play2 | src/day11.rs:149-160 | initialising residues and running ten thousand rounds in place gives the Part2 answer of the starting states |
| Day12.Level | src/day12.rs:26-36 | 'S' is stored as elevation 'a', 'E' as 'z', and every other character as itself |
| Day12.ScanRow | src/day12.rs:23-40 | one line's row is its elevations, and the last 'S' and 'E' seen so far are tracked through that line |
| Day12.TrackedAll | src/day12.rs:22-47 | after all lines the start (summit) is found exactly when some line holds 'S' ('E'), and it is the last one |
| Day12.New | src/day12.rs:16-51 | it panics exactly when there are no lines, no 'S' or no 'E'; otherwise the map is the lines' elevations with the last 'S' as start and the last 'E' as summit, and it is a valid map when all lines are as long as the first |
| Day12.BuiltValid | src/day12.rs:42-50 | a map built from lines of equal length is rectangular, with start at 'a' and summit at 'z' on it |
| Day12.Neighbors | src/day12.rs:82-101 | the neighbours are adjacent squares; on the map they are exactly the adjacent squares inside it, listed left, right, up, down |
| Day12.ExtendReach | src/day12.rs:63-68 | one climbing step onto a square that reaches the summit in k steps reaches it in k + 1 |
| Day12.Lowered | src/day12.rs:67 | lowering an entry of the step table lowers the table's total, which bounds the loop |
| Day12.Offer | src/day12.rs:64-71 | one neighbour: if it can climb to the current square, its entry ends at most one more than the current square's; entries only fall; the stack grows only when an entry falls; the best 'a' count follows the lowered entries |
| Day12.OfferAll | src/day12.rs:63-72 | after the neighbour loop every neighbour that can climb to the square has an entry at most one more than the square's |
| Day12.Relax | src/day12.rs:59-73 | one pop-and-relax keeps the search invariant and decreases the table total or the stack |
| Day12.Initial | src/day12.rs:54-58 | the table with only the summit at 0 and the stack holding the summit meet the search invariant |
| Day12.RouteBound | src/day12.rs:59-73 | when the stack is empty, every climbing route of length L from a square bounds its entry by L |
| Day12.FewestAtEnd | src/day12.rs:75-79 | once the stack is empty the start's entry is the fewest steps from the start to the summit (u32::MAX when none) |
| Day12.FewestFromLowAtEnd | src/day12.rs:69-71 | once the stack is empty the best count is the fewest steps from any 'a' square to the summit (u32::MAX when none) |
| Day12.ComputeSteps | src/day12.rs:53-80 | the search returns the fewest steps from the start, or from any 'a' square when `best` is set |
| Day12.Part1 | src/day12.rs:104-106 | the answer is the fewest steps from the start to the summit |
| Day12.Part2 | src/day12.rs:108-110 | the answer is the fewest steps from any lowest square to the summit |
| Day12.Set | src/day12.rs:67 | writing one entry of the step table changes that entry and no other, and keeps the table's shape |
| Day12.RowSumUpdate | src/day12.rs:67 | replacing one entry of a row changes the row's sum by the difference |
| Day12.TotalUpdate | src/day12.rs:67 | replacing one row changes the table's total by the difference of the row sums |
| Day12.OfferKeeps | src/day12.rs:67-71 | lowering a neighbour's entry and pushing it keeps the expansion invariant |
| Day12.SoundSet | src/day12.rs:67 | an entry lowered to one more than a reachable square's entry keeps every entry a real route length |
| Day12.BestOfSet | src/day12.rs:69-71 | the best count follows a lowered entry on an 'a' square |
| Day12.Pop | src/day12.rs:60 | popping the stack yields a square on the map with a finite entry, and the rest of the stack keeps the invariant |
| Day12.SettleExpanded | src/day12.rs:59-73 | once every neighbour of the popped square is relaxed, the search invariant holds again |
| Day13.CmpNat | src/day13.rs:79 | integers compare Less exactly when smaller and Equal exactly when equal |
| Day13.FirstDifferenceLex | src/day13.rs:80-88 | the loop over the common prefix, returning the first non-Equal result and otherwise comparing the lengths, is lexicographic comparison |
| Day13.CmpElements | src/day13.rs:76-108 | comparing two packets is comparing their elements lexicographically, an integer counting as a one-element list |
| Day13.MixedAsList | src/day13.rs:89-106 | an integer against a list compares as the list holding just that integer, on either side |
| Day13.CmpReflexive | src/day13.rs:76-108 | every packet compares Equal to itself |
| Day13.CmpAntisymmetric | src/day13.rs:76-108 | swapping the operands reverses the result |
| Day13.CmpTransitive | src/day13.rs:76-108 | Less-or-Equal is transitive, and Equal is transitive, so the order is a total preorder that `sort` can use |
| Day13.LexTransitive | src/day13.rs:80-88 | lexicographic comparison inherits transitivity from its elements |
| Day13.SampleComparisons | src/day13.rs:229-233 | the example pairs compare Less, Less and Greater |
| Day13.ParseInt | src/day13.rs:167-180 | `make_int` consumes the maximal run of digits; it panics when the value leaves u32 |
| Day13.ParseList | src/day13.rs:141-165 | a parsed list starts at a '[' and consumes only packet characters |
| Day13.ParseItems | src/day13.rs:148-164 | the item loop skips commas, stops after ']', recurses on '[' and reads digits, failing on anything else |
| Day13.From | src/day13.rs:112-120 | a parsed packet is a list and the text holds only packet characters; text after the packet panics |
| Day13.MakePacket | src/day13.rs:49-54 | `make_packet` is `from` (which only yields lists) |
| Day13.MakeInt | src/day13.rs:167-180 | the peeking loop computes ParseInt |
| Day13.MakeList | src/day13.rs:141-165 | the peeking loop computes ParseList |
| Day13.FromText | src/day13.rs:112-120 | the iterator-based parse computes From |
| Day13.MakeOutput | src/day13.rs:122-139 | the output grows by the packet's text: decimal integers, bracketed comma-separated lists |
| Day13.MakeItems | src/day13.rs:129-135 | pushing each item and a comma, then popping the last comma, writes the items joined by commas |
| Day13.IntRoundTrip | src/day13.rs:167-180 | the decimal text of a u32 parses back to that integer |
| Day13.ListRoundTrip | src/day13.rs:141-165 | the text of a list whose integers fit u32 parses back to the list, consuming exactly its text |
| Day13.ShowFrom | src/day13.rs:112-139 | parsing the printed text of any list packet whose integers fit u32 gives the packet back |
| Day13.SampleParse | src/day13.rs:217-219 | "[1,2]" parses to the list of 1 and 2 |
| Day13.GeneratorLines | src/day13.rs:8-16 | the generator succeeds exactly when every non-empty line parses, and gives one packet per non-empty line, in order |
| Day13.Generator | src/day13.rs:8-16 | every generated packet is a list |
| Day13.ScoreSwapped | src/day13.rs:18-26 | over the first c chunks, the scores of the packets and of the packets with each pair swapped add up to 1 + … + c, less the lone last chunk's index |
| Day13.Part1Swapped | src/day13.rs:18-26 | when no pair is a tie, each full pair's index counts in exactly one of the packets and their pair-swapped version |
| Day13.CountPermutation | src/day13.rs:34 | how many packets are less (equal) than x does not change under sorting |
| Day13.Placement | src/day13.rs:34-43 | in any sorted rearrangement, a position holding a packet equal to x comes after all packets less than x and within the packets equal to x |
| Day13.PlacementUntied | src/day13.rs:36-43 | when x has no tie, its position in the sorted packets is the number of packets below it |
| Day13.InsertSorted | src/day13.rs:34 | inserting x between the packets not above it and those not below it keeps the list sorted |
| Day13.Insert | src/day13.rs:34 | insertion keeps the list sorted and adds exactly x |
| Day13.Sort | src/day13.rs:34 | the sort returns a sorted permutation of the packets |
| Day13.BinarySearch | src/day13.rs:36-43 | a found index holds a packet equal to x; a miss means no packet equals x |
| Day13.Dividers | src/day13.rs:30-31 | the dividers parse as [[2]] and [[6]], and [[2]] is below [[6]] |
| Day13.Present | src/day13.rs:36-43 | a search for a packet that is in the list never misses, so the "Did not find" panics cannot happen |
| Day13.Part2 | src/day13.rs:28-45 | the answer is the product of one-based positions of the two dividers within their tie ranges after sorting; without ties it is (1 + packets below [[2]]) times (1 + packets below [[6]]) |
| Day13.LexReflexive | src/day13.rs:80-88 | comparing a list with itself element by element gives Equal |
| Day13.LexAntisymmetric | src/day13.rs:80-88 | swapping the two lists reverses the element-by-element comparison |
| Day13.ItemsRoundTrip | src/day13.rs:148-164 | reading the printed items of a list from any item onwards appends exactly those items to the buffer and stops after the closing bracket |
| Day13.BodyRoundTrip | src/day13.rs:141-165 | reading a printed list's body gives the list and ends just past its closing bracket |
| Day13.PairScores | src/day13.rs:18-26 | a pair contributes its index to exactly one of the pair list and its swapped version |
| Day13.CountAtMost | src/day13.rs:34-43 | in a list with no packet greater than a given one, the packets that compare Less and those that compare Equal make up the whole list |
| Day13.Untied | src/day13.rs:36-43 | each divider packet compares Equal to exactly one packet of the list with dividers |
| Day14.Blank | src/day14.rs:65 | a fresh map of the given size holds only air |
| Day14.FillsAir | src/day14.rs:104 | turning an air cell to sand leaves one air cell fewer |
| Day14.CoveredByAny | src/day14.rs:67-73 | a cell is covered by the rock lines exactly when some segment covers it |
| Day14.DrawColumn | src/day14.rs:69-71 | the inner loop marks rock exactly the cells of one column between the two y bounds and leaves the rest |
| Day14.DrawSegment | src/day14.rs:68-72 | one segment's loops mark rock exactly the cells the segment covers |
| Day14.DrawRocks | src/day14.rs:65-73 | after all segments, a cell is rock exactly when some segment covers it, and air otherwise |
| Day14.Cave.From | src/day14.rs:62-83 | the map spans the bounding box; each cell is the source at (500 - min x, 0 - min y), rock when a segment covers it, and air otherwise |
| Day14.Cave.Copy | src/day14.rs:143 | the clone has the same source, tiles and size |
| Day14.Settle | src/day14.rs:88-107 | a resting place found from (x, y) is strictly inside the map horizontally, not below the start and above the bottom row; y grows at every step, so the loop ends |
| Day14.SettleRests | src/day14.rs:94-106 | where sand rests, the cells below, below-left and below-right are all taken, and the resting cell was air unless it is the start |
| Day14.Cave.FillSand | src/day14.rs:85-108 | it returns true exactly when the unit comes to rest, and then exactly that cell becomes sand; on false (a border reached) the map is unchanged |
| Day14.PouredBound | src/day14.rs:142-149 | the corrected count of resting units is at most the number of air cells plus one, so it is finite |
| Day14.AsWrittenAgrees | src/day14.rs:142-149 | the loop as written never panics; when it ends it gives the corrected count; when it spins, at least one unit had rested |
| Day14.SourceBlockedRepeats | src/day14.rs:142-149 | once a unit rests on the source, every later pour rests there again and changes nothing |
| Day14.ShelfBlocksSource | src/day14.rs:142-149 | with rock right under a three-wide map the first unit rests on the source and `part1` as written never returns, while the corrected count is 1 |
| Day14.Part1 | src/day14.rs:142-149 | the loop as written gives the number of resting units when a unit falls out, and spins once the source is blocked |
| Day14.Part1Corrected | src/day14.rs:142-149 | a loop that also stops when sand rests on the source returns the corrected count |
| Day14.View | src/day14.rs:152-157 | the floor grid's depth is the cave's height plus one and its middle column is the source's column |
| Day14.ReachedInCone | src/day14.rs:159-160 | sand at row y lies within y columns of the source |
| Day14.FloorTotalBound | src/day14.rs:159-173 | the first n rows hold at most n·n - 1 units below the source |
| Day14.OpenCaveFillsCone | src/day14.rs:159-173 | in a cave with no rock, row y fills exactly the 2y + 1 cells of the cone |
| Day14.OpenCaveTotal | src/day14.rs:151-175 | with no rock the answer over n rows is n·n |
| Day14.CellRule | src/day14.rs:161-171 | a floor cell fills exactly when it is air in the cave and one of the three cells above it holds sand |
| Day14.CellUpdate | src/day14.rs:161-171 | one cell of the scan fills and counts exactly when the rule says so |
| Day14.FillRow | src/day14.rs:160-172 | one row of the scan fills exactly the reachable cells of that row and counts them |
| Day14.Part2 | src/day14.rs:151-175 | the answer is one (the source) plus the number of reachable cells on all rows down to the floor |
| Day15.NewSensor | src/day15.rs:92-101 | the stored distance is the Manhattan distance from sensor to beacon, so the beacon is in the sensor's range |
| Day15.NoBeaconsCover | src/day15.rs:103-123 | the spans pushed for row y cover exactly the cells of that row within the sensor's distance, minus its own beacon unless `include_beacon`; they lie within the distance of the sensor's column |
| Day15.CoveredAny | src/day15.rs:103-123 | a column is covered exactly when some span holds it |
| Day15.CollectCover | src/day15.rs:26-28 | the spans of all sensors cover exactly the cells of row y some sensor reaches (beacons excluded unless included) |
| Day15.CollectProper | src/day15.rs:26-28 | every collected span has lo <= hi |
| Day15.SortSorted | src/day15.rs:29 | sorting gives an ordered permutation of the spans |
| Day15.SameSpansCover | src/day15.rs:29 | a permutation of the spans covers the same columns |
| Day15.SweepInside | src/day15.rs:33-34 | a span ending at or before the running maximum adds nothing |
| Day15.SweepOverlap | src/day15.rs:35-36 | a span starting inside the covered prefix adds the columns past the running maximum |
| Day15.SweepBeyond | src/day15.rs:37-39 | a span starting past the running maximum adds all its columns |
| Day15.SweepDone | src/day15.rs:30-42 | after the sweep the count is the number of distinct covered columns |
| Day15.CountNoBeacons | src/day15.rs:24-43 | the answer counts each column of row y that some sensor excludes exactly once, whatever the overlaps |
| Day15.Part1 | src/day15.rs:20-22 | part 1 is that count on row 2000000 |
| Day15.ClipCover | src/day15.rs:58-66 | after clipping, the spans cover exactly the covered columns within [low, high] |
| Day15.ClipBounds | src/day15.rs:58-66 | every kept span lies within [low, high] |
| Day15.RowSpansFacts | src/day15.rs:54-67 | a row's clipped, sorted spans are ordered, proper, start within [low, high] and cover exactly the excluded columns there |
| Day15.AdjacentSpansAsWritten | src/day15.rs:70 | with spans [0, 5] and [6, 20] the test `curr_max < x1` reports column 6 as free though it is covered; the intended test finds no gap |
| Day15.GapAsWrittenVsIntended | src/day15.rs:69-74 | the scan as written agrees with the intended scan except where it reports a column that is covered |
| Day15.GapStep | src/day15.rs:73 | raising the running maximum keeps every column from the first span's start to it covered |
| Day15.GapAt | src/day15.rs:70-71 | when the next span starts past `curr_max + 1`, column `curr_max + 1` is free |
| Day15.FirstGapSound | src/day15.rs:68-74 | a gap the intended scan reports is an uncovered column after the first span's start and before some span; when it reports none, the covered columns from the first start on have no hole |
| Day15.SearchSound | src/day15.rs:51-77 | a position the intended search reports (other than the fallback (0, 0)) lies in the box and in no sensor's range |
| Day15.RowAsWrittenVsIntended | src/day15.rs:53-75 | for each row the source's outcome agrees with the intended one, or reports a position some sensor covers |
| Day15.CollectSpans | src/day15.rs:54-57 | the loop over the sensors computes Collect |
| Day15.ClipSpans | src/day15.rs:58-66 | the `retain_mut` loop computes Clip |
| Day15.ScanGap | src/day15.rs:68-74 | the sweep computes the gap as written |
| Day15.RowExclusions | src/day15.rs:54-67 | the row's exclusions are computed as RowSpans |
| Day15.ScanRow | src/day15.rs:54-74 | one row of the search computes the as-written outcome: an empty row panics on `first().unwrap()` |
| Day15.SearchSkips | src/day15.rs:53-75 | rows without an outcome are skipped |
| Day15.FindBeaconPos | src/day15.rs:51-77 | the search over rows low..=high computes SearchAsWritten, with (0, 0) when no row reports |
| Day15.Part2 | src/day15.rs:45-49 | the answer is 4000000·x + y of the position found, and it panics exactly when the search does |
| Day15.InsertPerm | src/day15.rs:29 | inserting a span into a sorted list keeps every span and adds the new one |
| Day15.InsertSorted | src/day15.rs:29 | inserting a span into a list sorted by start keeps it sorted |
| Day15.SortKeeps | src/day15.rs:29 | sorting the spans yields a sorted list that covers exactly the same positions |
| Day15.CountSplit | src/day15.rs:30-42 | the number of covered positions in a range is the sum over two adjacent sub-ranges |
| Day15.GapFromSound | src/day15.rs:68-74 | a gap found is uncovered and lies between the first span's start and some later span's start; when none is found the covered positions from the first start form one unbroken run |
| Day16.NewBitMap | src/day16.rs:109-111 | a new bitmap holds no index |
| Day16.IsSet | src/day16.rs:129-135 | panics exactly when the index is 64 or more; otherwise answers whether the bit is in the set |
| Day16.Set | src/day16.rs:113-119 | panics exactly when the index is 64 or more; otherwise the new set is the old one plus the index |
| Day16.Unset | src/day16.rs:121-127 | panics exactly when the index is 64 or more; otherwise the new set is the old one minus the index |
| Day16.IsSetAt | src/day16.rs:131 | `map & (1 << idx) > 0` tests membership of bit idx |
| Day16.SetAll | src/day16.rs:115 | or-ing in `1 << idx` adds exactly idx to the set |
| Day16.UnsetAll | src/day16.rs:123 | and-ing with `u64::MAX ^ (1 << idx)` removes exactly idx from the set |
| Day16.OnesHas | src/day16.rs:242-246 | k rounds of shift-and-add-one give the set of indices below k |
| Day16.PushAt | src/day16.rs:244-245 | one round of shift-and-add-one moves every index up by one and adds index 0 |
| Day16.BitMapSample | src/day16.rs:357-369 | the bitmap test: after setting 0, 5 and 15 in turn, each query answers as the test expects |
| Day16.NewEntry | src/day16.rs:241-252 | the first entry has released nothing and has exactly the valves below `pressure_valves` remaining |
| Day16.ProcessEntry | src/day16.rs:218-232 | panics exactly for a valve index of 64 or more; gives a visit exactly when the valve remains and can be reached and opened before the end; the visit is at that valve and time, adds the valve's rate for every remaining minute, and removes the valve from the remaining set |
| Day16.OptimisticAtLeast | src/day16.rs:253-268 | the optimistic bound is never below the pressure already released |
| Day16.OptimisticOk | src/day16.rs:253-268 | with at most 64 valves with a rate the bound never panics |
| Day16.MaxPressureIgnoringTravel | src/day16.rs:253-268 | the loop computes the optimistic bound (each remaining valve two minutes after the last); it can panic only with more than 64 valves with a rate |
| Day16.OptimisticWithHelperAtLeast | src/day16.rs:270-293 | the bound for two walkers is never below the pressure already released |
| Day16.OptimisticWithHelperOk | src/day16.rs:270-293 | with at most 64 valves with a rate the two-walker bound never panics |
| Day16.MaxPressureIgnoringTravelWithHelper | src/day16.rs:270-293 | the loop computes the two-walker bound, each valve given to the walker whose clock is earlier; it can panic only with more than 64 valves with a rate |
| Day16.Consider | src/day16.rs:173-177 | pushing the visit for one valve keeps every stacked visit reachable by a plan, keeps the stack below it and lowers the stack's weight |
| Day16.Expand | src/day16.rs:172-177 | expanding a visit pushes only visits that plans reach, keeps the stack below and pushes less weight than the popped visit had |
| Day16.ComputeMaxPressure | src/day16.rs:163-184 | the search ends; it panics exactly with more than 64 valves with a rate; the answer is the pressure released by a plan that can be carried out in the time |
| Day16.Assign | src/day16.rs:196-208 | the valve goes to the first walker when that walker can open it and is strictly closer, otherwise to the second walker when it can; the other walker is unchanged; the time left of the pair only falls |
| Day16.Consider2 | src/day16.rs:196-208 | pushing the assignment for one valve keeps every stacked pair reachable by a plan, keeps the stack below it and lowers the weight |
| Day16.Expand2 | src/day16.rs:195-208 | expanding a pair pushes only pairs that plans reach, keeps the stack below and pushes less weight than the popped pair had |
| Day16.ComputeMaxPressureWithHelper | src/day16.rs:186-215 | the search ends; it panics exactly with more than 64 valves with a rate; the answer is the pressure released by a two-walker plan that can be carried out in the time |
| Day16.ParseLine | src/day16.rs:59-74 | a parsed rate fits in u16 |
| Day16.TunnelCodes | src/day16.rs:71-73 | the tunnel codes are the words after the ninth, each cut at its first comma |
| Day16.LinkWords | src/day16.rs:71-73 | the printed tunnel list puts a comma after every code but the last |
| Day16.ParseShowScan | src/day16.rs:59-74 | a valve line printed in the puzzle's format parses back to the same code, rate and tunnels |
| Day16.ScanWordsLinks | src/day16.rs:71-73 | the tunnel words of a printed line give back its tunnel codes |
| Day16.Insert | src/day16.rs:76 | inserting into a list sorted by falling rate keeps it sorted and adds exactly the one scan |
| Day16.SortByRate | src/day16.rs:76 | the sorted list is a permutation of the scans, by falling rate |
| Day16.SortByRateStable | src/day16.rs:76 | sorting is stable: the scans of any one rate keep their input order |
| Day16.ScanLines | src/day16.rs:59-75 | scanning succeeds exactly when every line parses, and gives each line's scan in order |
| Day16.ScanAll | src/day16.rs:59-75 | the loop over the lines gives the same outcome as scanning them all |
| Day16.Codes | src/day16.rs:77-80 | the map sends each code to its position in the sorted list |
| Day16.Number | src/day16.rs:77-82 | the loop builds the code map and the valve list, each valve numbered by its position |
| Day16.ValvesOf | src/day16.rs:79-82 | valve i has id i and the code and rate of the i-th sorted scan |
| Day16.LinkRow | src/day16.rs:84-89 | the row of a valve fails exactly when one of its tunnels names an unknown valve; otherwise it is 0 on the diagonal when the valve has tunnels (1 if its last tunnel leads back to itself), 1 for each tunnel and `u32::MAX` elsewhere |
| Day16.LinkAll | src/day16.rs:83-90 | the matrix is square and fails exactly on an unknown tunnel code; each entry is the tunnel length of its pair |
| Day16.Parse | src/day16.rs:57-92 | `parse` succeeds exactly when every line parses, every tunnel names a valve and AA exists; it gives the sorted valves, their tunnel matrix and AA's index, and no two distinct valves are 0 apart |
| Day16.LowerPair | src/day16.rs:48-49 | lowering both entries between `from` and another valve tightens the matrix and changes only `from`'s row and column |
| Day16.Lower | src/day16.rs:48 | one `min` lowers one entry to the smaller of the two lengths and leaves the others |
| Day16.Relax | src/day16.rs:39-51 | relaxing from one queued valve only shortens entries in `from`'s row and column, and only appends to the queue |
| Day16.Search | src/day16.rs:32-52 | one breadth-first search only shortens entries in `from`'s row and column |
| Day16.ComputeDistances | src/day16.rs:18-55 | panics exactly when there are no valves (`len() - 1`); the matrix only gets shorter, and pairs of valves never searched from keep their entries |
| Day16.FirstIdle | src/day16.rs:147 | finds the first valve without flow, exactly when there is one |
| Day16.NewPuzzle | src/day16.rs:146-162 | fails exactly when every valve has a rate; keeps the valves, distances and start; `pressure_valves` is the id of the first valve without flow |
| Day16.PressureValvesFirst | src/day16.rs:147 | after the sort by falling rate, the valves with a rate are exactly those below `pressure_valves` |
| Day16.TunnelPositive | src/day16.rs:83-89 | the tunnel matrix has no 0 between distinct valves |
| Day16.Build | src/day16.rs:6-7 | fills in the distances and builds the puzzle: panics exactly when every valve has a rate; the valves with a rate come first and the matrix stays positive |
| Day16.Generator | src/day16.rs:4-8 | panics exactly when the input does not parse or every valve has a rate; otherwise the puzzle holds the sorted valves, AA's index as start, and the valves with a rate first |
| Day16.Part1 | src/day16.rs:10-12 | panics exactly with more than 64 valves with a rate; otherwise the answer is the pressure of a plan carried out within 30 minutes |
| Day16.Part2 | src/day16.rs:14-16 | panics exactly with more than 64 valves with a rate; otherwise the answer is the pressure of a two-walker plan carried out within 26 minutes |
| Day16.SetAt | src/day16.rs:113-119 | after setting bit idx, exactly the previous bits and idx are set |
| Day16.UnsetAt | src/day16.rs:121-127 | after clearing bit idx, exactly the previous bits other than idx are set |
| Day16.ShowScanWords | src/day16.rs:59-74 | a printed valve line splits on whitespace into the words the parser reads |
| Day16.InsertWithRate | src/day16.rs:76 | inserting into the rate-sorted list keeps the valves of each rate in their order |
| Day17.Drawing | src/day17.rs:247-255 | drawing a line gives one character per column |
| Day17.DrawingAt | src/day17.rs:247-255 | each drawn character is '#' exactly when that column of the line is filled |
| Day17.LineOfBits | src/day17.rs:191-202 | after reading a row, the bit of each column is set exactly when the row has '#' there |
| Day17.DrawLine | src/day17.rs:187-202 | a row read by `make_line` fits in seven bits and draws back to the same text |
| Day17.ReadDrawing | src/day17.rs:187-202 | a seven-bit line, drawn and read back, is the same line |
| Day17.SameColumns | src/day17.rs:183 | two seven-bit lines with the same filled columns are equal |
| Day17.MakeLine | src/day17.rs:187-203 | panics exactly when the text is not seven characters of '#' and '.'; otherwise gives the line those characters describe |
| Day17.ShiftedLeft | src/day17.rs:207 | every row of the rock is shifted one bit up |
| Day17.ShiftedRight | src/day17.rs:216 | every row of the rock is shifted one bit down |
| Day17.ShiftLeftColumns | src/day17.rs:205-212 | when no row touches the left wall, shifting left moves every filled column one to the left and stays inside the chamber |
| Day17.ShiftRightColumns | src/day17.rs:214-221 | when no row touches the right wall, shifting right moves every filled column one to the right |
| Day17.LeftThenRight | src/day17.rs:205-221 | a rock that can move left can move back right afterwards and returns to where it was |
| Day17.PushedLast | src/day17.rs:98-100 | n pushes in one direction are n-1 pushes and then one more, stopping at a wall |
| Day17.PushedBack | src/day17.rs:205-221 | n pushes left that all succeed are undone by n pushes right |
| Day17.ShiftLeft | src/day17.rs:205-212 | moves exactly when the check is skipped or no row touches the left wall; the rock is then shifted left, otherwise unchanged |
| Day17.ShiftRight | src/day17.rs:214-221 | moves exactly when the check is skipped or no row touches the right wall; the rock is then shifted right, otherwise unchanged |
| Day17.ShiftRock | src/day17.rs:275-281 | dispatches on the jet: '<' shifts left, any other jet right |
| Day17.ShiftClearIff | src/day17.rs:160-176 | the row-by-row shift check holds exactly when the rock can shift in that direction and the shifted rock clashes with no chamber row |
| Day17.CanShiftAt | src/day17.rs:223-239 | one row may shift exactly when the shifted row misses the chamber row |
| Day17.SimulateDown | src/day17.rs:146-158 | the loop allows the move exactly when no rock row overlaps the chamber row it would sit on |
| Day17.SimulateShift | src/day17.rs:160-176 | the loop allows the shift exactly when the rock stays inside the walls and the shifted rock overlaps no chamber row |
| Day17.Landed | src/day17.rs:98-100 | the free pushes above the pile keep the rock's height and rest within the chamber |
| Day17.Descend | src/day17.rs:125-143 | the rock comes to rest at or below where it started, with the same number of rows |
| Day17.DescendClear | src/day17.rs:125-143 | a rock that starts clear of the pile rests clear of it |
| Day17.LandedClear | src/day17.rs:95-102 | after the free pushes and the descent the rock rests where it overlaps no rock of the pile |
| Day17.PlacedRowsAt | src/day17.rs:109-121 | every placed row is the chamber row or-ed with the rock row at that height |
| Day17.Placed | src/day17.rs:109-121 | placing a rock makes the chamber as tall as the higher of the pile and the rock's top |
| Day17.DropRock | src/day17.rs:95-123 | dropping a rock never lowers the pile, raises it by at most the rock's height, and rests it within the old pile |
| Day17.DropRockAdds | src/day17.rs:95-123 | after a drop every old rock is still there, every rock cell is filled at its resting place, and the rock overlapped nothing |
| Day17.AddRock | src/day17.rs:109-121 | the two fill loops place the rock at its resting row, or-ed into the pile below the top and pushed above it |
| Day17.MergeRows | src/day17.rs:110-117 | the merging loop or-s the rock's lower rows into the pile and leaves exactly the rows that stick out above it |
| Day17.Simulation.NextJet | src/day17.rs:39-43 | gives the current jet and moves the jet index on by one, wrapping at the end |
| Day17.Simulation.NextRock | src/day17.rs:45-49 | gives the current rock and moves the rock index on by one, wrapping at the end |
| Day17.Simulation.HandleIntoExistingRocks | src/day17.rs:125-143 | the loop moves the rock down and sideways exactly as the descent function does, using the jets from the current index |
| Day17.Simulation.SimulateRock | src/day17.rs:95-123 | the new pile is the pile after the drop, the jet index is where the drop leaves it, and the scope is the pile from one row under the rest |
| Day17.Simulation.DropNext | src/day17.rs:58-61 | one turn of `run` drops the next rock of the tower: the key and scope are those of that rock and the pile only grows |
| Day17.FallOn | src/day17.rs:57-61 | the tower after n+1 rocks is the tower after n with the next rock dropped, using the next rock index |
| Day17.StepGrows | src/day17.rs:95-123 | one rock raises the tower by at most its own height and never lowers it |
| Day17.TowerGrows | src/day17.rs:57-92 | the tower never gets lower as rocks fall |
| Day17.Extrapolate | src/day17.rs:69-84 | the answer from a repeat: the height before the repeated pass, plus the number of whole remaining passes times the pass's growth, plus the growth of the leftover rocks; panics when the leftover exceeds the recorded increases |
| Day17.CachedInsert | src/day17.rs:86-89 | caching rock i keeps every entry a true record of the rock it names |
| Day17.CachedRepeat | src/day17.rs:66-67 | a cache hit with the same scope is a genuine repeat of rock and jet indices and scope |
| Day17.Shortcut | src/day17.rs:66-81 | the answer at a cache hit of rock i on an earlier rock it repeats is the extrapolation over the tower with the rocks the cache still holds, and those rocks ascend from the earlier rock |
| Day17.RepeatAnswer | src/day17.rs:69-81 | the sum and slices `run` takes over the cache's changes are the ones taken over the growths of the cached rocks in rock order |
| Day17.IncreasesKept | src/day17.rs:69-76 | the changes gathered from the cache and sorted by rock are the growths of the rocks it holds |
| Day17.KeptAscending | src/day17.rs:69-76 | the cached rocks gathered from rock a on ascend, stay below the repeating rock, and start with rock a when the cache holds it |
| Day17.WholeStretch | src/day17.rs:78-81 | when the whole stretch is cached the answer never panics: the height after the repeating rock less the first rock's growth, plus each whole stretch left at the stretch's growth, plus the growth of the first leftover rocks |
| Day17.Telescope | src/day17.rs:57-92 | the growths of consecutive rocks add up to how much they raise the tower |
| Day17.Remember | src/day17.rs:66-90 | a hit exactly when an entry with the same key and scope exists, and then a repeat; otherwise rock i is cached |
| Day17.Simulation.Run | src/day17.rs:51-93 | with no jets: 0 for no rocks, else a panic; without a repeat, the height of the tower after all the rocks; otherwise rock b, before the last rock, repeats an earlier rock a, and the answer is the extrapolation over the tower from the growths of the rocks of a .. b - 1 the cache still holds, in rock order from rock a |
| Day17.NewPuzzle | src/day17.rs:290-328 | panics exactly when a jet is not '<' or '>'; otherwise keeps the jets and holds the five shapes |
| Day17.ShapeRowsDrawn | src/day17.rs:297-322 | the five shapes' rows draw as the rows written in the source |
| Day17.MakeShapes | src/day17.rs:294-322 | building the shapes row by row gives the five shapes |
| Day17.MakeShape | src/day17.rs:296-304 | reading the drawn rows of a shape gives that shape |
| Day17.Generator | src/day17.rs:9-11 | panics on empty input; otherwise the jets are the trimmed first line, and it panics exactly when one of them is not '<' or '>' |
| Day17.TowerHeight | src/day17.rs:32-38 | a new simulation answers as `run` does: the tower height without a repeat, the extrapolation over the tower after one |
| Day17.Part1 | src/day17.rs:13-16 | with jets, the height after 2022 rocks, or after a repeat the extrapolation over the tower; without jets, a panic |
| Day17.Part2 | src/day17.rs:178-181 | with jets, the height after 10^12 rocks, or after a repeat the extrapolation over the tower; without jets, a panic |
| Day17.Simulation.constructor | src/day17.rs:32-38 | a new simulation holds the puzzle with both the jet and the rock index at zero |
| Day17.Tower | src/day17.rs:57-61 | after any number of rocks the jet and rock indices stay in range |
| Day17.Fall | src/day17.rs:95-123 | a rock's fall ends with a jet index in range and its resting row inside the tower |
| Day17.After | src/day17.rs:57-61 | once a rock rests, the jet and rock indices of the next state stay in range |
| Day17.DescendStops | src/day17.rs:131-134 | a rock that cannot move down from a row rests one row higher, where it is |
| Day17.DescendGoesOn | src/day17.rs:129-141 | a rock that can move down is pushed by the next jet if the push is clear, and falls on from the row below |
| Day17.Simulation.FallStep | src/day17.rs:129-141 | one pass of the loop either stops with the resting row and the jet index unchanged, or moves the rock down and pushes it with the next jet, exactly as the descent function does |
| Day17.Simulation.PushByJet | src/day17.rs:137-140 | the next jet is used and the index moves on; the rock is shifted exactly when the walls and the pile allow the push |
| Day18.NewPosition | src/day18.rs:23-28 | panics exactly when a coordinate is 0; otherwise holds the three coordinates |
| Day18.WrapBack | src/day18.rs:35 | a step of -1 or 1 on a u32 coordinate, wrapped to 32 bits, stays a u32 and is undone by the opposite step |
| Day18.ChangeRoundTrip | src/day18.rs:30-55 | each axis change panics exactly for a step other than -1 or 1, changes only its own coordinate, and the opposite step undoes it |
| Day18.Neighbours | src/day18.rs:62-83 | a cube has six face neighbours |
| Day18.NeighboursAreSteps | src/day18.rs:62-83 | the six neighbours are the steps -1 and 1 along x, y and z, in the source's order |
| Day18.Missing | src/day18.rs:64-66 | the count of neighbours not in the set is at most the number of neighbours |
| Day18.SumOverRemove | src/day18.rs:60 | the sum over a set of cubes is one cube's count plus the sum over the rest, so the order of the set's iteration does not matter |
| Day18.CountFaces | src/day18.rs:62-83 | the loops over the six neighbours count those that are not cubes |
| Day18.Part1 | src/day18.rs:58-87 | the count is the surface area: over every cube, the neighbours that are not cubes |
| Day18.EscapingAtMostMissing | src/day18.rs:109 | the open faces of a cube are among its uncovered faces |
| Day18.ExteriorAtMostSurface | src/day18.rs:105-129 | summed over any cubes, open faces never exceed uncovered faces |
| Day18.Part2AtMostPart1 | src/day18.rs:89-132 | the exterior area is never more than the surface area |
| Day18.WidenCommutes | src/day18.rs:94-100 | widening the box by two cubes gives the same box in either order |
| Day18.BoxOfRemove | src/day18.rs:93-101 | the box of a set is the box of the rest widened by any one cube, so the order of the set's iteration does not matter |
| Day18.WidenAxis | src/day18.rs:94-100 | widening takes the minimum into the low corner and the maximum into the high corner, axis by axis |
| Day18.BoxOfLimits | src/day18.rs:91-101 | the corners stay within u32, the high corner at least 1 |
| Day18.BoxOfEncloses | src/day18.rs:91-101 | every cube lies between the corners on every axis |
| Day18.BoxOfAttained | src/day18.rs:91-101 | each corner coordinate is its start value or the coordinate of some cube |
| Day18.BoxOfIn | src/day18.rs:91-101 | the box of u32 cubes has u32 corners |
| Day18.BoundingBox | src/day18.rs:91-101 | the loop computes the box of all the cubes |
| Day18.NeighbourBack | src/day18.rs:159-180 | off the box's edge, stepping to a neighbour and back gives the same cell |
| Day18.WalkThenEscape | src/day18.rs:141-182 | a walk through empty cells followed by an escape from its end is an escape |
| Day18.WalkBackwards | src/day18.rs:159-180 | a walk through empty cells inside the box can be walked backwards |
| Day18.WalkOpenBoth | src/day18.rs:183-186 | the two ends of a walk are both open or both closed, so marking every visited cell with one answer is sound |
| Day18.WalkStep | src/day18.rs:159-180 | a walk extends by an empty neighbour inside the box |
| Day18.WalkToEdge | src/day18.rs:151-157 | a walk that steps onto an empty cell on the box's edge escapes |
| Day18.ClosedNotOpen | src/day18.rs:141-182 | when the stack is exhausted without reaching the edge, every visited cell is closed |
| Day18.MemoHit | src/day18.rs:147-150 | a cached answer for the popped cell is the answer for the starting cell |
| Day18.EdgeHit | src/day18.rs:151-157 | reaching a cell on the box's edge proves the starting cell open |
| Day18.PushedExactly | src/day18.rs:159-180 | the pushed neighbours are exactly the neighbours that are not cubes |
| Day18.PushNeighbours | src/day18.rs:159-180 | the three loops push every neighbour that is not a cube, in order |
| Day18.WalkTo | src/day18.rs:143-180 | every popped cell inside the box is reached from the starting cell by a walk |
| Day18.ClosedAdd | src/day18.rs:159-181 | after visiting a cell its empty neighbours are visited or stacked |
| Day18.IsSpaceOpen | src/day18.rs:134-188 | the flood fill answers whether the cell can reach the edge of the box through empty cells, and every answer it caches is true of its cell |
| Day18.RecordStep | src/day18.rs:184-186 | recording one visited cell keeps the cache sound |
| Day18.Record | src/day18.rs:184-186 | the final loop records the answer for every visited cell |
| Day18.OpenFacesOf | src/day18.rs:107-128 | the count for a cube is the number of its neighbours that are empty and open |
| Day18.Part2 | src/day18.rs:89-132 | the count is the exterior area: over every cube, the neighbours that are empty and reach the edge of the bounding box |
| Day18.ParseLine | src/day18.rs:5-11 | a parsed position has u32 coordinates |
| Day18.ParseLines | src/day18.rs:4-12 | all lines parse, each to its own position |
| Day18.ParseShow | src/day18.rs:5-11 | a position printed as `x,y,z` parses back to itself |
| Day18.ShowAll | src/day18.rs:4-12 | each line is the printed position in order |
| Day18.SplitRender | src/day18.rs:4 | the lines of the rendered input are the printed positions |
| Day18.ParseShown | src/day18.rs:4-12 | the printed positions parse back in order |
| Day18.GeneratorRoundTrip | src/day18.rs:3-13 | the generator on rendered positions gives the set of those positions |
| Day18.MissingNone | src/day18.rs:62-83 | with no neighbour a cube, all of them count |
| Day18.EscapingAllEdge | src/day18.rs:151-157 | empty neighbours on the box's edge all count as open |
| Day18.LoneCube | src/day18.rs:58-132 | a single cube has surface area 6 and exterior area 6 |
| Day18.SumOverConst | src/day18.rs:60 | when every cube counts n, the sum is n times the number of cubes |
| Day18.SealedNotOpen | src/day18.rs:141-182 | an empty cell whose six neighbours are cubes is not open |
| Day18.EscapeLeaves | src/day18.rs:141-182 | an escape from inside the box first steps to an empty neighbour |
| Day18.EscapingAllButOne | src/day18.rs:107-128 | with one closed neighbour and the others open on the edge, one face fewer is open |
| Day18.ShellBox | src/day18.rs:91-101 | the six cubes around (2,2,2) have the box from (1,1,1) to (3,3,3) |
| Day18.ShellCubeAt | src/day18.rs:105-129 | each cube of the shell has 6 uncovered faces and 5 open ones |
| Day18.HollowShell | src/day18.rs:58-132 | six cubes around a hollow cell: surface area 36 and exterior area 30 |
| Day19.NewSimulation | src/day19.rs:167-179 | a simulation starts at minute 0 with one ore robot and nothing else |
| Day19.Gather | src/day19.rs:181-187 | a minute passes and every robot adds one unit of its resource; the robots are unchanged |
| Day19.AddBot | src/day19.rs:189-196 | adds one robot of the given kind |
| Day19.AddBotOnly | src/day19.rs:189-196 | adding a robot changes no other kind of robot, no stock and not the clock |
| Day19.GatherN | src/day19.rs:181-187 | k minutes of gathering add k times each robot count to its stock |
| Day19.GatherRepeated | src/day19.rs:181-187 | gathering once more, before or after k minutes, is k + 1 minutes of gathering |
| Day19.Pay | src/day19.rs:141-143 | paying for a robot takes exactly its price from the stocks |
| Day19.MakeRobot | src/day19.rs:126-150 | gives nothing exactly when a resource the robot needs has no robot gathering it; otherwise the state after waiting for the robot |
| Day19.BuildTime | src/day19.rs:134-148 | waiting for a robot never passes the end and moves the clock on when there is time left |
| Day19.BuildAfterWaiting | src/day19.rs:134-148 | when the robot is first affordable after k minutes, the result is k minutes of gathering, the payment, one more minute and the new robot |
| Day19.BuildNever | src/day19.rs:134-148 | when the robot never becomes affordable before the end, the result is gathering until the end |
| Day19.CapMono | src/day19.rs:89-124 | the bounds on stock and geodes grow with time |
| Day19.GatherBounded | src/day19.rs:181-187 | a minute of gathering keeps the counters within their bounds for the time |
| Day19.BuiltBounded | src/day19.rs:141-145 | building a robot keeps the counters within their bounds |
| Day19.BuildBounded | src/day19.rs:126-150 | waiting for a robot keeps the counters within their bounds |
| Day19.SimFitsU32 | src/day19.rs:153-164 | within 32 minutes no counter of a simulation reaches the u32 range |
| Day19.MaxOre | src/day19.rs:46 | the ore cost of some robot, and no robot costs more ore |
| Day19.MaxClay | src/day19.rs:47 | the clay cost of some robot, and no robot costs more clay |
| Day19.MaxObsidian | src/day19.rs:48 | the obsidian cost of some robot, and no robot costs more obsidian |
| Day19.NewBlueprint | src/day19.rs:45-56 | panics exactly on an empty cost list; otherwise keeps id and costs and each maximum is the largest price of its resource |
| Day19.TrimEnd | src/day19.rs:59 | the trimmed word is the word without its trailing colons |
| Day19.Field | src/day19.rs:63 | panics when the word is missing or not a u32; otherwise its value |
| Day19.FromLineShape | src/day19.rs:57-87 | a line parses exactly when the id and the six prices parse; the costs are geode, obsidian, clay and ore robot, in that order after the reversal |
| Day19.Reverse | src/day19.rs:85 | the reversed list holds the same items in the opposite order |
| Day19.Generator | src/day19.rs:20-23 | every line gives its blueprint in order, and a panic comes from some line |
| Day19.FromLines | src/day19.rs:21-22 | every line gives its blueprint in order, and a panic comes from some line |
| Day19.Choices | src/day19.rs:100-121 | the orders tried are exactly: for each robot of the blueprint in its order that is neither pruned nor lacking a producer, the state after ordering it, stopping after a geode robot ready the next minute; each moves the clock on, at most one per robot kind |
| Day19.PowMono | src/day19.rs:93-122 | the weight of a state falls as its clock moves on |
| Day19.WeightAppend | src/day19.rs:113-116 | appending to the queue adds the weights |
| Day19.ChoicesShrink | src/day19.rs:93-122 | replacing a state by fewer later states lowers the queue's weight, so the search ends |
| Day19.PlanSnoc | src/day19.rs:110-120 | a plan extended by an order tried from its last state is a plan |
| Day19.CoveredStep | src/day19.rs:93-122 | popping a state, counting its geodes and queuing the orders tried from it leaves every explored state counted or still ahead of the queue |
| Day19.Visit | src/day19.rs:93-122 | one pass of the loop keeps the queue explored and bounded, keeps the answer reached and every explored state counted or pending, never lowers the answer, and shrinks the work left |
| Day19.Simulate | src/day19.rs:89-124 | the search ends; the answer is the geodes some run of explored orders opens, no explored run opens more, and twice it is at most T(T - 1) for T minutes |
| Day19.Geodes | src/day19.rs:27 | `bp.simulate(until)`: some explored run of orders opens that many geodes, none opens more, and twice it is at most T(T - 1) |
| Day19.QualityStep | src/day19.rs:26-28 | one step of the fold adds id times geodes, and panics exactly when that overflows u32 |
| Day19.QualitySum | src/day19.rs:26-28 | a completed sum fits in u32 |
| Day19.QualitySumValue | src/day19.rs:26-28 | a completed sum is the sum of id times geodes |
| Day19.QualitySumSnoc | src/day19.rs:26-28 | the fold over one more blueprint is one more step |
| Day19.Part1 | src/day19.rs:25-29 | the answer is the u32 fold of id times each blueprint's 24-minute geodes, each at most 276 and the most any explored run of orders opens |
| Day19.ProductSnoc | src/day19.rs:32 | the product of one more factor is the product times that factor |
| Day19.ProductBound | src/day19.rs:32 | a product of factors of at most 496 is at most 496 to their number |
| Day19.Part2 | src/day19.rs:31-33 | the answer is the product of the 32-minute geodes of the first three blueprints (fewer if there are fewer), each at most 496 and the most any explored run of orders opens; it fits in u32 |
| Day20.ParseAll | src/day20.rs:6-8 | every line read as an i64 in order; a panic comes from a line that is not one |
| Day20.ParseShown | src/day20.rs:6-8 | i64 numbers printed one per line parse back to themselves |
| Day20.GeneratorRoundTrip | src/day20.rs:5-9 | the generator on the printed numbers gives them back |
| Day20.Rearranged | src/day20.rs:37-40 | a rearrangement of a ring over 0..n is again a ring over 0..n |
| Day20.RotAt | src/day20.rs:98-107 | position q of the ring read from position p is position (p + q) mod n, with the same neighbours |
| Day20.LinkedRot | src/day20.rs:98-107 | links that describe a ring describe it read from any position |
| Day20.LinkedUnique | src/day20.rs:37-40 | two link tables that describe the same ring are equal |
| Day20.Steps | src/day20.rs:61 | the step count is the value's truncating remainder by n - 1: strictly between -(n - 1) and n - 1, with the value's sign |
| Day20.Others | src/day20.rs:60-96 | the other numbers, read round the ring from just after i |
| Day20.Moved | src/day20.rs:60-96 | moving a number keeps exactly the same indices on the ring |
| Day20.MovedShifts | src/day20.rs:60-96 | after the move, the others read from just after i are the old others rotated by the steps mod n - 1: the number moved that many places |
| Day20.ZeroStepsKeep | src/day20.rs:94 | a move of 0 places leaves the ring as it was |
| Day20.MixedNext | src/day20.rs:54-58 | mixing one more number is moving it by its steps |
| Day20.Mixed | src/day20.rs:54-58 | mixing keeps a ring over all the indices |
| Day20.MixedRounds | src/day20.rs:25-27 | repeated mixing keeps a ring over all the indices |
| Day20.Values | src/day20.rs:98-107 | the values read along a list of indices are the numbers at those indices |
| Day20.FromToVec | src/day20.rs:43-53 | the ring `Numbers::from` builds, read from index 0, gives back the input |
| Day20.UptoRing | src/day20.rs:45-48 | the input order is a ring over all indices |
| Day20.Unlink | src/day20.rs:66-68 | joining the neighbours of i to each other leaves links describing the ring of the others |
| Day20.Insert | src/day20.rs:73-77 | linking i between two neighbours of the ring of the others describes the ring with i inserted there |
| Day20.Numbers.constructor | src/day20.rs:43-53 | index i is linked to (i - 1) mod n and (i + 1) mod n, so the ring is the input order |
| Day20.Numbers.MoveSteps | src/day20.rs:60-96 | the links now describe the ring with number i moved by its steps; the numbers are unchanged |
| Day20.MoveLinks | src/day20.rs:64-93 | the unlinking, the walk and the relinking leave links that describe the others with i inserted the right number of places on |
| Day20.MoveSetup | src/day20.rs:60-62 | before a move, the ring read from i is i followed by the others |
| Day20.WalkBack | src/day20.rs:69-72 | walking left |steps| times from the last of the others reaches the number that many places back |
| Day20.WalkOn | src/day20.rs:84-87 | walking right `steps` times from the first of the others reaches the number that many places on |
| Day20.MovedRing | src/day20.rs:73-93 | after the relinking, the links describe the moved ring, and it is a ring over all indices |
| Day20.StillRing | src/day20.rs:94 | with no move the links still describe the ring |
| Day20.Numbers.Mix | src/day20.rs:54-58 | the ring becomes the mix of the old ring: every number moved once, in input order; the numbers are unchanged |
| Day20.Numbers.MixOne | src/day20.rs:55-57 | one turn of the mix loop moves the next number |
| Day20.Numbers.ToVec | src/day20.rs:98-107 | the values read from index 0 round the whole ring |
| Day20.ReadSetup | src/day20.rs:100-101 | reading starts at index 0 with its successor next |
| Day20.ReadStep | src/day20.rs:102-105 | each turn of the reading loop appends the next number on the ring |
| Day20.ReadEnd | src/day20.rs:102 | the reading loop stops back at index 0 after exactly n numbers |
| Day20.ValuesAppend | src/day20.rs:98-107 | reading two stretches gives the two readings one after the other |
| Day20.FirstZero | src/day20.rs:15 | the first position holding 0 |
| Day20.AddI64 | src/day20.rs:18 | an i64 `+=`: panics exactly on overflow, otherwise the sum |
| Day20.AnswerIs | src/day20.rs:11-35 | the answer is the grove sum read after the mixes |
| Day20.Coordinates | src/day20.rs:15-20 | panics without a 0; otherwise the i64 sum of the numbers 1000, 2000 and 3000 places after the first 0, wrapping round |
| Day20.Part1 | src/day20.rs:11-21 | panics on an empty list (index out of bounds) or a single number (remainder by 0); otherwise the grove sum after one mix |
| Day20.Keyed | src/day20.rs:24 | every number times 811589153, panicking exactly when a product overflows i64 |
| Day20.Part2 | src/day20.rs:23-35 | panics when a keyed number overflows; otherwise the grove sum of the keyed numbers after ten mixes |
| Day20.IndexOf | src/day20.rs:60-96 | the position found holds the index looked for |
| Day20.Rot | src/day20.rs:98-107 | reading the ring from any position gives the same numbers, as many as before |
| Day20.InsertedAt | src/day20.rs:73-93 | a number inserted at position k of the ring without it sits at k, and reading on from it reads the rest of the ring from k |
| Day20.MovedIsRing | src/day20.rs:60-96 | moving a number keeps every index on the ring exactly once |
| Day21.OperatorSymbols | src/day21.rs:52-61 | `Operator::from` accepts exactly the four symbols, panics on any other word, and reads each symbol back as its own operator |
| Day21.LeftInverse | src/day21.rs:62-78 | `evaluate_left` undoes `evaluate`: the left operand it finds gives back the expected value (for * when the right operand divides it) |
| Day21.RightInverse | src/day21.rs:62-87 | `evaluate_right` undoes `evaluate`: the right operand it finds gives back the expected value (for * and / when the division is exact) |
| Day21.LeftRecovers | src/day21.rs:62-78 | evaluating and then solving for the left operand gives the operand back, unless * by 0 or a rounding / loses it |
| Day21.RightRecovers | src/day21.rs:62-87 | evaluating and then solving for the right operand gives the operand back, unless the inversion loses it |
| Day21.HumanPathLeads | src/day21.rs:103-118 | with a human leaf below, the path leads to a leaf flagged as the human's; without one it is empty |
| Day21.HumanAtPath | src/day21.rs:103-118 | a path that leads to the human's leaf shows the tree has one |
| Day21.PathToHuman | src/day21.rs:103-118 | answers whether the tree holds the human's leaf and appends the directions up from that leaf, left searched first |
| Day21.SolveRecovers | src/day21.rs:120-133 | when the human yelling h makes the tree evaluate to e and no inversion on the path loses information, solving for e gives h back |
| Day21.ComputeHumanValue | src/day21.rs:120-133 | the popping recursion gives the solution along the path and empties it on success; a direction that does not meet an operator panics |
| Day21.Part2 | src/day21.rs:20-32 | pops the root's direction, evaluates the other side and solves the human's side for it; panics when the tree has no human |
| Day21.Part2Solves | src/day21.rs:20-32 | whenever the human yelling h balances the root without a lossy inversion, part 2 answers h |
| Day21.BalanceUnique | src/day21.rs:20-32 | at most one number balances the root that way |
| Day21.HumanFromHumn | src/day21.rs:37 | a leaf flagged as the human's comes from the one-word job of the monkey named "humn" |
| Day21.Generator | src/day21.rs:7-14 | the loop fills the job table, a later line for a name replacing an earlier one and a line without ": " panicking, then builds the tree from "root" |
| Day21.JobsPanicStays | src/day21.rs:9-12 | a line that panics makes the whole table panic, whatever follows |
| Day21.JobsLastWins | src/day21.rs:9-12 | the job a name gets is the words of its last line |
| Day21.SamplePart1 | src/day21.rs:171-174 | the sample tree's root yells 152 |
| Day21.SamplePath | src/day21.rs:177-181 | the sample's path to the human is `<`, `>`, `>`, `<`, `<` |
| Day21.SamplePart2 | src/day21.rs:177-182 | 301 balances the sample's root, and part 2 answers 301 |
| Day21.SampleLeftSide | src/day21.rs:177-182 | in the sample the human sits on the root's left side, and with 301 yelled that side evaluates to 150 |
| Day22.ChangeDir | src/day22.rs:380-400 | Left turns a heading with a zero coordinate by (x, y) -> (y, -x) and Right by (x, y) -> (-y, x); anything else leaves it |
| Day22.TurnKeepsUnit | src/day22.rs:380-400 | a turn keeps a compass heading a compass heading, at right angles to the old one |
| Day22.TurnBack | src/day22.rs:380-400 | a Right turn undoes a Left turn and the other way round |
| Day22.FourTurns | src/day22.rs:380-400 | four turns the same way give the heading back |
| Day22.TurnsPeriod | src/day22.rs:194-197 | k + 4 turns are k turns |
| Day22.TurnsMod4 | src/day22.rs:194-197 | k turns are k mod 4 turns |
| Day22.TwoTurnsReverse | src/day22.rs:380-400 | two turns the same way reverse a heading |
| Day22.Facing | src/day22.rs:409-417 | panics exactly on a heading that is not a compass direction; otherwise the number of right turns from east |
| Day22.Password | src/day22.rs:479-481 | panics exactly on a non-compass heading; otherwise 1000 times the row plus 4 times the column (both from 1) plus the facing |
| Day22.PasswordDecodes | src/day22.rs:479-481 | on a board fewer than 249 columns wide the password gives back row, column and facing |
| Day22.ScanAppend | src/day22.rs:38-54 | scanning one more character is one more step of the scan |
| Day22.PanicPersists | src/day22.rs:52 | once a character panics, the rest of the line does not matter |
| Day22.MakeSteps | src/day22.rs:35-59 | the loop gives the parse of the move line |
| Day22.ParseStepsOk | src/day22.rs:35-59 | the move line parses exactly when it holds only digits, L and R |
| Day22.ScanNoZeroMove | src/day22.rs:40-41 | no move of 0 tiles is ever pushed |
| Day22.RenderAppend | src/day22.rs:35-59 | the text of two step lists is the two texts joined |
| Day22.ScanDigits | src/day22.rs:48-51 | the digits of n accumulate to n |
| Day22.FlushExpected | src/day22.rs:55-57 | the final flush pushes the pending move |
| Day22.RenderScan | src/day22.rs:38-54 | scanning the text of a canonical step list gives its steps with the last move pending |
| Day22.StepsRoundTrip | src/day22.rs:35-59 | a step list without zero or adjacent moves, written out, parses back to itself |
| Day22.SampleRender | src/day22.rs:504 | the sample's moves write as `10R5L5R10L4R5L5` |
| Day22.SampleStepsParse | src/day22.rs:504 | the sample's move line parses to its thirteen steps |
| Day22Board.FindTile | src/day22.rs:22 | the first tile of a row, or none when the row holds no tile |
| Day22Board.RFindTile | src/day22.rs:23 | the last tile of a row, or none when the row holds no tile |
| Day22Board.MakeLine | src/day22.rs:21-30 | a row cut to its tiles keeps its own y and stays inside the text |
| Day22Board.MakeLineCuts | src/day22.rs:22-29 | a row is cut exactly when it holds a tile; the cut runs from its first to its last tile and nothing outside is a tile |
| Day22Board.MakeLines | src/day22.rs:18-33 | the loop succeeds exactly when every row cuts, and then gives each row's cut, numbered from 0 |
| Day22Board.LinesOf | src/day22.rs:18-33 | rows cut one by one form a valid board |
| Day22Board.GetSpace | src/day22.rs:353-356 | reading a position panics exactly when it is off the board |
| Day22Board.ScanBackLands | src/day22.rs:469-472 | the backwards scan stops on its start or just past a row that spans the column |
| Day22Board.NewY | src/day22.rs:461-477 | the next row is always a row of the board |
| Day22Board.NewYCovers | src/day22.rs:461-477 | from a row that spans the column, the next row spans it too |
| Day22Board.ScanUpRun | src/day22.rs:469-472 | scanning north through a run of rows that span the column stops just before its top |
| Day22Board.ScanDownRun | src/day22.rs:469-472 | scanning south through such a run stops just after its bottom |
| Day22Board.ColumnWraps | src/day22.rs:461-477 | off the bottom of a column's run the walker comes back in at its top, and off the top at its bottom |
| Day22Board.WrapSouth | src/day22.rs:461-477 | off the bottom of a column's run the walker comes back in at its top |
| Day22Board.WrapNorth | src/day22.rs:461-477 | off the top of a column's run the walker comes back in at its bottom |
| Day22Board.FlatTarget | src/day22.rs:419-430 | the tile ahead is on the board, in the same row for an east–west heading and the same column for a north–south one |
| Day22Board.RowWraps | src/day22.rs:420-423 | east of a row's last tile comes its first, west of its first its last |
| Day22Board.RowStepsInverse | src/day22.rs:420-423 | a step east then west, or west then east, comes back |
| Day22Board.FlatStep | src/day22.rs:432-438 | a step is taken exactly when the tile ahead is open, and lands on it |
| Day22Board.FlatMoveN | src/day22.rs:322-326 | moving n tiles stays on the board |
| Day22Board.FlatMoveAdditive | src/day22.rs:322-326 | moving a tiles then b is moving a + b |
| Day22Board.FlatMoveStuck | src/day22.rs:324 | against a wall the walker stays put however far it is told to move |
| Day22Board.FlatMoveEndsOpen | src/day22.rs:322-326 | a move ends where it started or on an open tile |
| Day22Board.FlatWalk | src/day22.rs:316-332 | the whole walk stays on the board |
| Day22Board.FlatWalkEndsOpen | src/day22.rs:316-332 | a walk from an open tile ends on an open tile, facing a compass direction |
| Day22Board.FlipTwice | src/day22.rs:127-130 | turning round twice gives the original key |
| Day22Board.CubeTarget | src/day22.rs:443-450 | across a seam the table's key; elsewhere one tile ahead, same heading |
| Day22Board.CubeStep | src/day22.rs:442-459 | reading the target panics exactly when it is off the board; a step is taken only onto an open tile |
| Day22Board.SeamRoundTrip | src/day22.rs:167-254 | with a seam table whose entries invert each other, crossing a seam and turning round leads back across it |
| Day22Board.CubeMoveAdditive | src/day22.rs:337-344 | moving a tiles then b on the cube is moving a + b |
| Day22Board.CubeMoveEndsOpen | src/day22.rs:337-344 | a cube move ends where it started or on an open tile |
| Day22Board.CubeMoveNoPanic | src/day22.rs:337-344 | with every seam landing on the board and the board closed by the seams, a move from an open tile never reads off the board |
| Day22Board.CubeWalkNoPanic | src/day22.rs:334-351 | under the same conditions the whole cube walk never reads off the board and ends on an open tile |
| Day22Board.BackStep | src/day22.rs:466-472 | each backwards step of the scan is one more step from the start |
| Day22Board.BackLap | src/day22.rs:466-472 | n - 1 steps back go round to the row ahead of the start |
| Day22Board.State.constructor | src/day22.rs:403-406 | a walker at the given position and heading |
| Day22Board.State.DetermineNewY | src/day22.rs:461-477 | the loop gives the next row of the column |
| Day22Board.State.MoveForward | src/day22.rs:419-440 | moves exactly when the flat step is taken, to its tile; the heading is kept |
| Day22Board.State.MoveForwardWithMappings | src/day22.rs:442-459 | panics exactly when the cube step does; moves exactly when it is taken, to its key |
| Day22Board.Start | src/day22.rs:309-314 | panics exactly on an empty board; otherwise the leftmost tile of the top row |
| Day22Board.MoveSteps | src/day22.rs:321-327 | the loop moves the walker n tiles flat, keeping its heading |
| Day22Board.FollowPath | src/day22.rs:316-332 | panics exactly on an empty board; otherwise the flat walk from the start, facing east |
| Day22Net.ClosestRight | src/day22.rs:140-148 | panics exactly on a non-compass side direction; otherwise the end cell further to the right of a walker looking out through the side |
| Day22Net.ClosestLeft | src/day22.rs:150-158 | panics exactly on a non-compass side direction; otherwise the end cell further to the left |
| Day22Net.CornersOfShaped | src/day22.rs:140-158 | on a side of a face the right and left corners are its two distinct end cells |
| Day22Net.BlockFits | src/day22.rs:258-259 | every block row of the net lies inside the board |
| Day22Net.MakeEdges | src/day22.rs:256-308 | panics exactly on a zero side length (the division); otherwise the sides found block row by block row |
| Day22Net.HorizontalStep | src/day22.rs:263-292 | each block across a block row adds its exposed top side, then its exposed bottom side |
| Day22Net.HorizontalSides | src/day22.rs:262-293 | the loop across a block row gives its exposed top and bottom sides |
| Day22Net.HorizontalShaped | src/day22.rs:263-292 | each top or bottom side found runs one face wide along the block row's first or last row, and is exposed |
| Day22Net.HorizontalGood | src/day22.rs:263-292 | a top or bottom side found looks off the board |
| Day22Net.BlockRowGood | src/day22.rs:258-306 | every side of a block row looks off the board |
| Day22Net.EdgesUpToShaped | src/day22.rs:258-306 | every side of the first block rows looks off the board |
| Day22Net.EdgesShaped | src/day22.rs:256-308 | every side found is one face long, looks off the board, and (but for bottom sides) starts on the board |
| Day22Net.DisjointConcat | src/day22.rs:256-308 | two side lists without shared (cell, direction) keys join without shared keys |
| Day22Net.HorizontalDisjoint | src/day22.rs:263-292 | the top and bottom sides of a block row share no (cell, direction) key |
| Day22Net.BlockEdges | src/day22.rs:265-289 | the sides of one block start at its column and share no key |
| Day22Net.HeadApart | src/day22.rs:263-292 | one block's sides share no key with the sides further along its row |
| Day22Net.ColumnsApart | src/day22.rs:263-292 | sides starting in columns a face apart share no cell |
| Day22Net.BlockRowDisjoint | src/day22.rs:258-306 | a block row's sides share no key and lie within its rows |
| Day22Net.EdgesUpToDisjoint | src/day22.rs:258-306 | the sides of the first block rows share no key and lie above the next block row |
| Day22Net.BandsApart | src/day22.rs:258-306 | sides in different block rows share no key |
| Day22Net.EdgesDisjoint | src/day22.rs:256-308 | no two sides of the net share a (cell, direction) key, so the seam table built from them is a function |
| Day22Net.FirstTouching | src/day22.rs:101-111 | the first side, from i on, that touches corner p other than back to o; panics exactly when there is none |
| Day22Net.GetEdge | src/day22.rs:101-111 | the loop gives the first side touching the corner, or panics when there is none |
| Day22Net.FindP | src/day22.rs:69-75 | selector 2 exactly when the side's first end cell is next to the corner, 1 otherwise |
| Day22Net.LinkStep | src/day22.rs:85-94 | the next side round the outline touches the corner being left, and its selector names the end at that corner |
| Day22Net.Trace | src/day22.rs:84-96 | the sides visited round the outline, starting from side 0 |
| Day22Net.Unlinked | src/day22.rs:78 | every side starts linked to side 0 both ways |
| Day22Net.LinksLoopIsWireAlong | src/day22.rs:84-96 | the loop succeeds exactly when the walk round the outline does, and then links each visited side to the next |
| Day22Net.MakeLinks | src/day22.rs:77-99 | the loop gives the links of the walk round the outline from side 0 |
| Day22Net.NextSide | src/day22.rs:86-94 | the loop body gives the next side round the outline and its selector |
| Day22Net.WireAlongFrame | src/day22.rs:91-92 | a side the walk does not leave keeps its next link, one it does not enter keeps its previous link |
| Day22Net.WireAlongLinks | src/day22.rs:91-92 | a side left for the last time points to the side that followed it |
| Day22Net.LinksAroundCycle | src/day22.rs:77-99 | when the walk visits every side once and closes, each side links forward to the next round the outline and back to the one before |
| Day22Seams.AlongScales | src/day22.rs:191-194 | k steps of a heading from p reach p plus k times the heading |
| Day22Seams.TurnsUnit | src/day22.rs:187-190 | any number of turns keeps a compass heading a compass heading |
| Day22Seams.AlongInjective | src/day22.rs:199-204 | walking one compass heading never visits a cell twice |
| Day22Seams.AlongOnEdge | src/day22.rs:191-204 | walking a side from one end cell to the other visits only cells of that side |
| Day22Seams.EdgeCovered | src/day22.rs:191-204 | walking a side from one end cell to the other visits every cell of that side |
| Day22Seams.SelfPair | src/day22.rs:191-204 | when two walks meet each other's start, the k-th cell of one is the (side-1-k)-th of the other |
| Day22Seams.WalkBack | src/day22.rs:127-130 | walking back k steps undoes k of n steps |
| Day22Seams.UnitsCancel | src/day22.rs:127-130 | two compass headings that cancel out are reverses of each other |
| Day22Seams.SeamCells | src/day22.rs:198-204 | the k-th pair of a seam is the k-th cell of each walk |
| Day22Seams.StitchShape | src/day22.rs:199-204 | stitching a seam adds exactly its keys and leaves every other key's value |
| Day22Seams.StitchValues | src/day22.rs:199-204 | each seam cell maps to its partner, heading back in through the partner's side |
| Day22Seams.StitchInverse | src/day22.rs:199-204 | stitching a consistent seam onto fresh keys keeps the table's entries inverse to each other |
| Day22Seams.KeyInverse | src/day22.rs:199-204 | every key of the stitched table is inverted by the key it leads to |
| Day22Seams.NewKeyInverse | src/day22.rs:199-204 | a key added by the stitch is inverted by the key it leads to |
| Day22Seams.OldKeyInverse | src/day22.rs:199-204 | a key kept by the stitch is still inverted by the key it leads to |
| Day22Seams.OldNotStitched | src/day22.rs:199-204 | a key already in the table is not one the stitch adds |
| Day22Seams.LinksLoopBounded | src/day22.rs:84-96 | the links the outline walk writes name sides of the net |
| Day22Seams.Chain | src/day22.rs:181-186 | following the links k times stays on a side of the net |
| Day22Seams.Skip | src/day22.rs:181-186 | the skip stops on the first unmapped side along the links after the count it reports, and spins exactly when every side it would reach is mapped |
| Day22Seams.Corner | src/day22.rs:193-194 | the corner of a side is one of its end cells |
| Day22Seams.Attempt | src/day22.rs:187-197 | a seam is found exactly when both walks, turned a half-count of times, run from one corner of their side to the other |
| Day22Seams.Try | src/day22.rs:179-207 | a stitch that succeeds maps strictly more sides, all of them sides of the net |
| Day22Seams.CommitGrows | src/day22.rs:205-206 | marking two sides, one of them new, maps strictly more sides |
| Day22Seams.Visit | src/day22.rs:174-252 | visiting a side never unmaps a side, and changes the table only when it maps one |
| Day22Seams.Pass | src/day22.rs:173-252 | a pass over all sides never unmaps a side, and changes the table only when it maps one |
| Day22Seams.MappedBound | src/day22.rs:172 | no more sides are mapped than the net has |
| Day22Seams.GrowingSet | src/day22.rs:172 | a strictly larger set of mapped sides is strictly larger in count |
| Day22Seams.FreshKey | src/day22.rs:199-204 | no key on an unmapped side is in the table yet |
| Day22Seams.SeamOnSides | src/day22.rs:191-204 | a found seam's walks stay on their two sides |
| Day22Seams.SeamConsistent | src/day22.rs:191-204 | a found seam pairs its cells one to one |
| Day22Seams.CellsAgree | src/day22.rs:191-204 | two cells of one walk coincide exactly when their partners do |
| Day22Seams.CommitKeeps | src/day22.rs:199-206 | stitching a found seam keeps the table inverse and its keys on mapped sides |
| Day22Seams.CommitInverse | src/day22.rs:199-204 | stitching a found seam keeps the table's entries inverse to each other |
| Day22Seams.CommitKeysOn | src/day22.rs:199-206 | after the stitch every key lies on a mapped side |
| Day22Seams.CommitComplete | src/day22.rs:199-206 | after the stitch every cell of both paired sides, heading out through its side, is a key, and every earlier key remains |
| Day22Seams.SideKeyed | src/day22.rs:199-204 | stitching a walk that runs corner to corner along a side writes the key of each of the side's cells |
| Day22Seams.TryKeeps | src/day22.rs:179-207 | a successful try keeps the table inverse and its keys on mapped sides |
| Day22Seams.VisitKeeps | src/day22.rs:174-252 | visiting a side keeps the table inverse and its keys on mapped sides |
| Day22Seams.VisitTries | src/day22.rs:174-252 | visiting an unmapped side leaves the table or takes the right try or the left one |
| Day22Seams.PassKeeps | src/day22.rs:173-252 | a pass over all sides keeps the table inverse, its keys on mapped sides and every mapped side's cells keyed |
| Day22Seams.VisitStep | src/day22.rs:174-252 | the first visit of a pass that ends ends too, keeps the invariant, and the rest of the pass ends the same way |
| Day22Seams.PassDone | src/day22.rs:173 | a pass from past the last side leaves the table as it was |
| Day22Seams.PassUnfold | src/day22.rs:173-252 | a pass is a visit of its first side followed by the pass over the rest |
| Day22Seams.ZippingKeeps | src/day22.rs:172-253 | the finished seam table has entries inverse to each other, and its keys are exactly the cells of the net's sides heading out through them |
| Day22Seams.AllMapped | src/day22.rs:172 | once as many sides are mapped as the net has, every cell of every side is keyed |
| Day22Seams.MissingBound | src/day22.rs:172 | a set of side indices missing one has fewer members than there are sides |
| Day22Seams.KeysOnSides | src/day22.rs:199-204 | keys on mapped sides are keys on sides of the net |
| Day22Seams.SeamsInverse | src/day22.rs:167-254 | the seam table of the net, once built, has entries inverse to each other, and its keys are exactly the cells of the net's sides heading out through them |
| Day22Seams.FactsOf | src/day22.rs:256-308 | the sides of the net are one face long, look off the board and share no key |
| Day22Seams.SkipMapped | src/day22.rs:181-186 | the loop gives the skip along the links |
| Day22Seams.SkipStep | src/day22.rs:181-186 | skipping from a mapped side is one hop then the skip from the next side |
| Day22Seams.ShiftTwice | src/day22.rs:181-186 | shifting a skip count by a then b is shifting it by a + b |
| Day22Seams.TryPair | src/day22.rs:187-197 | the loops find the seam exactly when the walks line up |
| Day22Seams.StitchMore | src/day22.rs:199-204 | one more cell of the seam adds its two inverse entries |
| Day22Seams.StitchSeam | src/day22.rs:198-204 | the loop stitches the seam's cells into the table |
| Day22Seams.TrySide | src/day22.rs:179-207 | the loop body is the try of one rotation |
| Day22Seams.VisitSide | src/day22.rs:174-252 | the loop body is the visit of one side |
| Day22Seams.MapEdges | src/day22.rs:167-254 | the loop builds the seam table, whose entries are inverse to each other and whose keys are exactly the cells of the net's sides heading out through them |
| Day22Seams.SeamsLinked | src/day22.rs:167-173 | the outline's links name sides of the net, and the seam table is the zipping of those links |
| Day22Seams.ZipAll | src/day22.rs:172-253 | the outer loop repeats passes until every side is mapped |
| Day22Seams.RunPass | src/day22.rs:173-252 | the inner loop is one pass over all sides |
| Day22Seams.FollowCubePath | src/day22.rs:334-351 | the walk across the cube seams from the start, facing east; it spins or panics exactly when the seam table or the walk does |
| Day22Seams.WalkCube | src/day22.rs:337-349 | the loop walks the steps across the seams and leaves the walker at the end |
| Day22Seams.MoveCube | src/day22.rs:339-345 | the loop moves the walker n tiles across the seams |
| Day22Seams.Part1 | src/day22.rs:61-63 | the password of the flat walk's end; panics exactly when the board is empty or the heading is not a compass one |
| Day22Seams.Part2 | src/day22.rs:65-67 | the password of the cube walk's end with faces of side 50 |
| Day22Seams.Part1Defined | src/day22.rs:61-63 | from an open start the flat walk ends on an open tile with a compass heading, so its password is defined |
| Day22Seams.SeamHeadingsUnit | src/day22.rs:199-204 | every heading the seam table gives is a compass heading |
| Day22Seams.InverseHeadingsUnit | src/day22.rs:199-204 | in an inverse table on compass sides every heading is a compass heading |
| Day22Seams.SeamHeadingUnit | src/day22.rs:199-204 | an entry whose reverse is in the table heads in a compass direction |
| Day22Seams.KeyHeadingUnit | src/day22.rs:199-204 | every key of the table heads in a compass direction |
| Day22Seams.OutlineClosed | src/day22.rs:205-212 | a table keying every cell of the net's sides seams every step off the board from an open tile on a side |
| Day22Seams.Part2Defined | src/day22.rs:65-67 | when every seam lands on the board and every open tile at the rim lies on a side facing off it, the cube walk from an open start ends on an open tile with a compass heading |
| Day22Seams.Zipping | src/day22.rs:172-253 | on a well-formed net the seam loop never panics: it either finishes or spins when a pass zips nothing new |
| Day23.RowElvesIff | src/day23.rs:17-29 | an elf is read from a row exactly where the row holds `#` |
| Day23.RowElvesDistinct | src/day23.rs:17-29 | no elf is read twice from a row |
| Day23.ElvesInIff | src/day23.rs:17-29 | an elf is read exactly at each `#` of the input, x across and y down |
| Day23.ElvesInDistinct | src/day23.rs:17-29 | no two elves read from the input share a cell |
| Day23.Generator | src/day23.rs:17-29 | the loop gives the elves read from the input's lines, in reading order |
| Day23.MaskSpread | src/day23.rs:84-103 | the neighbour mask is the eight neighbour bits from north-west (bit 7) to south-east (bit 0) |
| Day23.MaskBits | src/day23.rs:84-103 | bit 7 - k of the mask is set exactly when the k-th neighbour cell holds an elf |
| Day23.MaskStep | src/day23.rs:93-100 | each cell scanned shifts the mask left and adds its own bit |
| Day23.Neighbors | src/day23.rs:84-103 | the double loop gives the neighbour mask |
| Day23.FreeIff | src/day23.rs:12-15 | a direction's bits are clear exactly when none of its three cells holds an elf, its step cell among them |
| Day23.FirstFreeIff | src/day23.rs:109-118 | the scan finds a direction exactly when it is the first free one from the round's starting direction |
| Day23.ProposalIff | src/day23.rs:105-120 | an elf proposes exactly when it has a neighbour and some direction is free, and then one step in the first free direction |
| Day23.ProposalVacant | src/day23.rs:105-120 | a proposed cell is a neighbour cell with no elf in it |
| Day23.Propose | src/day23.rs:105-120 | the loop gives the elf's proposal |
| Day23.Proposals | src/day23.rs:129-141 | one proposal per elf |
| Day23.ProposalsAt | src/day23.rs:129-141 | the i-th proposal is elf i's proposal |
| Day23.TallyCount | src/day23.rs:132-138 | a cell is in the tally exactly when proposed, with the number of elves proposing it |
| Day23.CountOne | src/day23.rs:132-138 | a proposed cell is counted at least once |
| Day23.CountTwo | src/day23.rs:132-138 | a cell two elves propose is counted at least twice |
| Day23.Moved | src/day23.rs:144-152 | the moving loop touches one elf per position |
| Day23.MovedAt | src/day23.rs:144-152 | elf i moves to its proposal exactly when no other elf proposed that cell, and stays put otherwise |
| Day23.NextLayout | src/day23.rs:122-155 | a round keeps the number of elves |
| Day23.NextAt | src/day23.rs:122-155 | after a round each elf is at its proposal when it alone proposed it, and where it was otherwise |
| Day23.MovedIff | src/day23.rs:143-154 | the layout changes exactly when some elf's proposal is taken |
| Day23.RoundKeepsDistinct | src/day23.rs:122-155 | a round never puts two elves on one cell |
| Day23.ProposalsSnoc | src/day23.rs:129-141 | proposing for one more elf appends its proposal |
| Day23.EvolveStep | src/day23.rs:165-172 | round k + 1's layout is the round applied to round k's; the layout is still exactly when that round changes nothing |
| Day23.SettleDistinct | src/day23.rs:157-163 | any rounds that keep elves apart keep them apart over many rounds |
| Day23.RoundsKeepDistinct | src/day23.rs:157-163 | ten rounds, or any number, never put two elves on one cell |
| Day23.SettleEvolve | src/day23.rs:157-163 | rounds that all move someone are the rounds one after another |
| Day23.BoundsTight | src/day23.rs:69-82 | the box holds every elf; each of its edges is an elf's coordinate, or the starting extreme when there are no elves |
| Day23.RowCells | src/day23.rs:65-67 | a row of the box has as many cells as its range counts |
| Day23.CellsIn | src/day23.rs:65-67 | a cell of the box is a cell it contains |
| Day23.CellsCount | src/day23.rs:65-67 | the box has width times height cells |
| Day23.DistinctPositions | src/day23.rs:126 | elves on distinct cells fill as many cells as there are elves |
| Day23.ElvesInBox | src/day23.rs:65-82 | every elf is inside its box |
| Day23.EmptySpaceCells | src/day23.rs:65-67 | for elves on distinct cells the count is the number of empty cells of the box |
| Day23.Settles | src/day23.rs:143-152 | an elf's proposal is in the tally, taken exactly when its count is 1, and a taken proposal is a move |
| Day23.ProposeAll | src/day23.rs:126-141 | the loop gives every elf's proposal and the count of each proposed cell |
| Day23.Elves.constructor | src/day23.rs:42-44 | the elves at the given layout |
| Day23.Elves.Bounds | src/day23.rs:69-82 | the loop gives the elves' bounding box |
| Day23.Elves.EmptySpaceCount | src/day23.rs:65-67 | the empty-cell count of the box |
| Day23.Elves.PerformRound | src/day23.rs:122-155 | the layout becomes the next round's layout; moved exactly when it changed |
| Day23.Elves.Commit | src/day23.rs:143-154 | the moving loop gives the next layout and reports a change exactly when there was one |
| Day23.Elves.PerformRounds | src/day23.rs:157-163 | the layout after up to the given number of rounds, stopping early once one moves nobody |
| Day23.Elves.Run | src/day23.rs:165-172 | the number of the first round in which nobody moves, with the layout then; none within the fuel means every round so far moved someone |
| Day23.Part1 | src/day23.rs:31-35 | the empty cells of the box after ten rounds |
| Day23.Part2 | src/day23.rs:37-39 | the first round in which no elf moves |
| Day24.FirstIndex | src/day24.rs:12-13 | the first position of the character in the row, or none exactly when it is absent |
| Day24.ValleyOf | src/day24.rs:27-33 | a valley framed by its walls, with the interior two smaller than the map and the gaps at the first `.` of the top and bottom rows |
| Day24.FromGrid | src/day24.rs:10-34 | succeeds exactly on a map with a gap in the top and bottom rows, rows of equal width and no up or down wind in the gaps' columns, and then gives its valley |
| Day24.Generator | src/day24.rs:10-34 | the same for the lines of the input |
| Day24.Column | src/day24.rs:80-81 | column x of the map, top to bottom |
| Day24.WrapOnto | src/day24.rs:78-81 | a wind starting at a reaches c after d minutes exactly when a is c moved back d, modulo the interior |
| Day24.LandsOnIff | src/day24.rs:78-81 | a wind of the given kind is over the cell exactly when the cell upwind of it holds that wind |
| Day24.LandsFrom | src/day24.rs:78-81 | a wind that starts at b and reaches p is the one upwind of p |
| Day24.UpwindLands | src/day24.rs:78-81 | the wind upwind of p reaches p |
| Day24.ClearIffUnswept | src/day24.rs:75-87 | a cell is clear exactly when it is inside the walls and no wind reaches it at that minute |
| Day24.ModCongruent | src/day24.rs:78-81 | minutes congruent modulo the interior give the same upwind position |
| Day24.UpwindPeriodic | src/day24.rs:78-81 | the upwind cell repeats with the interior's size |
| Day24.NegCongruent | src/day24.rs:78-81 | negating congruent minutes keeps them congruent |
| Day24.ClearPeriodic | src/day24.rs:75-87 | whether a cell is clear repeats with the width across and the height down |
| Day24.SampleClear | src/day24.rs:175-189 | the sample valley's cells are clear or not at minutes 1, 4 and 6 as listed |
| Day24.MovesIff | src/day24.rs:104-123 | a cell is pushed exactly when the expedition can step or wait there |
| Day24.StepAround | src/day24.rs:104-123 | a step only goes to a neighbour or stays |
| Day24.WaitsLast | src/day24.rs:120-123 | at the start the expedition can always wait, and the wait is pushed last |
| Day24.LayerDone | src/day24.rs:94-125 | once a minute's queued states are all explored, every cell reachable at the next minute has been seen |
| Day24.LayerCell | src/day24.rs:94-125 | a reachable cell of a finished minute is explored |
| Day24.CompleteGrows | src/day24.rs:99-100 | exploring more states keeps every reachable cell seen |
| Day24.HeadOrRest | src/day24.rs:95 | a queue is its head and the rest |
| Day24.ExpandedSkip | src/day24.rs:96-98 | skipping an explored state keeps every explored state's moves queued or explored |
| Day24.Skip | src/day24.rs:96-98 | skipping an explored state keeps the search invariant |
| Day24.Pushed | src/day24.rs:104-123 | each pushed cell is paired with the next minute |
| Day24.ExpandedExpand | src/day24.rs:99-123 | expanding the head queues all its moves |
| Day24.ReachableMoves | src/day24.rs:104-123 | the moves of a reachable state are reachable |
| Day24.ExpandQueue | src/day24.rs:99-123 | expanding keeps the queue ordered by minute, within one minute of its head, and the start pending |
| Day24.SortedCat | src/day24.rs:104-123 | pushing next-minute states onto a queue spanning one minute keeps it ordered |
| Day24.ExpandPending | src/day24.rs:120-123 | the start stays pending, since it waits |
| Day24.AllReachableExpand | src/day24.rs:99-123 | after an expansion every queued state is reachable |
| Day24.AllReachableTail | src/day24.rs:95 | dropping the head keeps every queued state reachable |
| Day24.AllReachableCat | src/day24.rs:104-123 | joining queues of reachable states gives reachable states |
| Day24.Expand | src/day24.rs:99-123 | expanding a state that is not the goal keeps the search invariant |
| Day24.ExpandFront | src/day24.rs:99-123 | expanding keeps the queue ordered and the start pending and seen |
| Day24.ExpandBack | src/day24.rs:99-123 | expanding keeps the explored states sound and every earlier reachable cell seen |
| Day24.CompleteStep | src/day24.rs:94-125 | moving to the queue's next minute keeps every reachable cell seen |
| Day24.ExploredSoundExpand | src/day24.rs:99-103 | exploring a reachable state that is not the goal keeps the goal unreached before now |
| Day24.Arrived | src/day24.rs:101-103 | the goal's first unexplored arrival is the earliest, and the answer is one minute after it |
| Day24.Search | src/day24.rs:89-127 | never runs out of queue; a time found is the earliest minute, one past reaching the goal |
| Day24.FindTime | src/day24.rs:89-127 | the search with the valley's clear cells; a time found is the earliest |
| Day24.Part1 | src/day24.rs:36-38 | a time found is the earliest crossing from the top gap to the cell above the bottom gap |
| Day24.Part2 | src/day24.rs:40-44 | a time found is that of three earliest legs, each starting when the previous one ends |
| Day25.ToDec | src/day25.rs:1-8 | panics exactly on a character that is not a decimal digit, `-` or `=` |
| Day25.ToChar | src/day25.rs:10-19 | panics exactly on a value outside -2..2 |
| Day25.CharRoundTrip | src/day25.rs:1-19 | reading back the character of a SNAFU digit gives the digit |
| Day25.SnafuRoundTrip | src/day25.rs:1-19 | a SNAFU character reads as a digit in -2..2 whose character is itself |
| Day25.HandleValueSplits | src/day25.rs:25-40 | n is five times the carry plus the digit, and the digit lies in -2..2 |
| Day25.HandleValueShrinks | src/day25.rs:25-40 | the carry of a non-zero value is smaller in size, so the final carry loop ends |
| Day25.SampleHandleValueSmall | src/day25.rs:100-102 | handle_value of 1, 2 and 3 is (0, 1), (0, 2) and (1, -2) |
| Day25.SampleHandleValueLarge | src/day25.rs:103-105 | handle_value of 4, 5 and 6 is (1, -1), (1, 0) and (1, 1) |
| Day25.SampleHandleValueNegative | src/day25.rs:107-112 | handle_value of -1 to -6 mirrors the positive values |
| Day25.ValuePrepend | src/day25.rs:42-63 | a leading digit adds its value times five to the power of the rest's length |
| Day25.LowStep | src/day25.rs:47-52 | one more low digit adds that digit times its power of five |
| Day25.LowTotalStep | src/day25.rs:47-52 | one more column adds the column's sum times its power of five |
| Day25.LowTotalAll | src/day25.rs:46-56 | all the columns together give the total of the numbers |
| Day25.LowTotalZero | src/day25.rs:46 | no columns give 0 |
| Day25.MaxLen | src/day25.rs:44 | the length of the longest number |
| Day25.Reverse | src/day25.rs:62 | the characters in reverse order |
| Day25.AddColumn | src/day25.rs:48-53 | panics exactly when a character of the column is not a decimal digit, '-' or '='; otherwise the carry plus the column's sum |
| Day25.ColumnsCheckedAll | src/day25.rs:46-56 | once every column is checked, every number is made of digit characters |
| Day25.Part1 | src/day25.rs:42-63 | panics exactly on no numbers or a bad digit; otherwise a SNAFU string, at least as long as the longest number, whose value is the total |
| Day25.Flush | src/day25.rs:57-61 | the carry loop writes out the carry, keeping the digits' value at the total |
| Day25.AddColumns | src/day25.rs:46-56 | the column loop writes one SNAFU digit per column, and the digits plus the carry times the next power of five make the total of the columns |
| Day25.ColumnsCheckedStep | src/day25.rs:48-53 | a checked column extends the checked columns |
| Day25.PushDigit | src/day25.rs:55 | pushing a digit adds it at the top of the reversed string's value |
| Day25.ToCharDigit | src/day25.rs:10-19 | the character of a digit in -2..2 is a SNAFU character with that digit |
| Day25.ColumnDone | src/day25.rs:47-55 | after a column the digits plus the new carry make the total of the columns so far |
| Day25.CarryDone | src/day25.rs:57-61 | after a carry digit the digits plus the new carry still make the total |
| Day25.SnafuUnique | src/day25.rs:42-63 | two SNAFU strings of one length with one value are equal |
| Day25.SnafuDigit | src/day25.rs:1-8 | SNAFU characters with the same digit are the same character |
| Day25.NoCarry | src/day25.rs:25-40 | a multiple of five within -4..4 is 0 |
| Day25.SampleValue | src/day25.rs:117-120 | `2=-1=0` is worth 4890 |

## Left out

- Text.Lines: only '\n' line endings; Rust's `lines()` also removes the '\r' of "\r\n", so with CRLF input each model line keeps a trailing '\r' (Day2.ParseLines then panics and Day20.ParseAll sees a bad number where the source parses). The input is taken as ASCII: Day22Board.MakeLine counts character positions where Rust's `find`/`rfind` count bytes, and the two agree only on ASCII text.
- Day1.Generator: a group's total is an unbounded integer; Rust's i32 `sum` would panic on overflow in a debug build, and the model does not.
- Day1.FindTopN: the final sum is unbounded, so an input with fewer than n elves (whose i32::MIN padding overflows the i32 sum) returns a negative number instead of panicking.
- Day1.SampleMax: the sample's generator step (the five totals from the text) is not proved; the lemmas start from the totals.
- Day2: the scores are unbounded naturals; usize overflow of the total is not modelled (it needs more rounds than fit in memory).
- Day2.SampleScores: starts from the parsed plays; the sample text's parse is covered by ParseShow in general, not instantiated.
- Day3.CharIdx: requires an ASCII letter; Rust's `char_idx` on other characters gives an out-of-range shift or a u32 subtraction panic, which the model does not follow.
- Day3: the u32 totals are unbounded naturals (overflow needs tens of millions of sacks).
- Day3: the sample totals 157 and 70 and the other five first-half overlaps are not proved; one overlap and one badge are.
- Day4: the i32 subtractions in `includes` and `overlaps` are unbounded here; Rust panics on overflow only for ends near the i32 limits, which puzzle input does not reach.
- Day4.SampleAnswers: starts from the parsed pairs; the sample text's parse is covered by GeneratorRoundTrip in general, not instantiated.
- Day5.ToMove: the regular-expression match of a move line is not modelled (the regex crate is foreign code); the model starts from the three captured numbers.
- Day6.SampleWindows: the intermediate `dups` and `counts` values that `test_marker` asserts are not stated; only the windows and the returned booleans are.
- Day7: the example transcript's parse (14 entries, `test_parse`) and its four directory sizes (`test_generator`) are not proved. The part 1 and part 2 answers are proved from the table of sizes.
- Day7.ComputeSizes: the per-directory sums are unbounded naturals; u64 overflow of `+=` is not modelled (it needs more than 16 EiB of files).
- Day7.Part1: the u64 `sum` is unbounded for the same reason.
- Day8: the example's parsed grid, its `compute_max` table (`test_compute_max`) and the answers 21 and 8 are not proved; the two scenic scores that `test_compute_scenic_score` asserts are.
- Day8.ComputeScenicScore: the u32 product is unbounded; overflow would need a grid with sides in the hundreds, which the puzzle never gives.
- Day8.ComputeMax: heights are `int`, not i8; every value (-1..9 and the initial 127) fits in i8, so nothing is lost.
- Day9: positions are unbounded integers; i32 overflow of the head's coordinates is not modelled.
- Day9: the example answers (13 for part 1, 1 and 36 for part 2) and `test_generator` are not proved; the `test_moves` case is (Day9.SampleFollow).
- Day10: the register and the signal strength are unbounded integers; i32 overflow of `x +=` and `sig_strength +=` is not modelled.
- Day10: the longer example's trace length (241), part 1 answer ("13140") and part 2 screen are not proved; the short example's trace is (Day10.SampleTrace).
- Day11: `generator` is left out: it is a regular-expression match of each monkey's section, which the model does not implement; monkeys are given as states.
- Day11: worry levels and counters are unbounded naturals; u64 overflow in part 1's operations and in the answer's product is not modelled. Part 2's residues stay below the divisors, so u64 is no limit there.
- Day11: the example's answers (10605 and 2713310158) and `test_generator` are not proved.
- Day11Troop: the monkeys are `RefCell`s in a `Vec`; the model keeps a sequence of distinct objects, so a monkey throwing to itself (which `Monkey::new` rules out) is not modelled.
- Day12: step counts are naturals capped by the u32::MAX sentinel (`Unreached`); a map with more squares than that is not considered.
- Day12.New: a map whose lines differ in length is built as the source builds it, but the search is only proved on rectangular maps (Day12.Valid); on a ragged map the source may index out of bounds.
- Day12: the example's answers (31 and 29) are not proved.
- Day13.Part1: the one-based chunk indices are summed as unbounded naturals; usize overflow is not modelled.
- Day13.Sort: the source's stable `sort` is modelled by an insertion sort; only the sorted-permutation property, which the answer depends on, is stated.
- Day13.Part2: with ties (a packet comparing Equal to a divider) `binary_search` may return any position in the tie range, and the contract says exactly that rather than which one.
- Day13: the example's `Display` of "[[1],[2,3,4]]", the sixteen generated packets and the answers 13 and 140 are not proved.
- Day14: `generator` and `Position::from` (reading "x,y -> x,y" lines) are not part of this model; a cave is built from its bounding box and segments.
- Day14.Cave.From: requires the segments and the source inside the bounding box, which `generator` guarantees by taking the box over all points and the source.
- Day14: coordinates and counts are unbounded integers; i32/u32 overflow is not modelled.
- Day14: the example's rendered map and the answers 24 and 93 are not proved; `Display` is not modelled.
- Day15: `generator` is left out: it reads each sensor line with a regular expression, which the model does not implement; sensors are given as values.
- Day15.CountNoBeacons: requires every sensor's reach to stay within i32 (WithinI32); the source's `i32::MIN` start of the sweep depends on it. Coordinates are otherwise unbounded.
- Day15: the one-sensor count 12, the sample count 26 and the sample position (14, 11) are not proved.
- Day16: the rates, pressures and times are unbounded; the source's u32 arithmetic in `process_entry` and the two bounds (and the `as u32` casts) cannot overflow on puzzle inputs and are not modelled.
- Day16: the bitmap is a value (`bv64` inside a datatype) rather than a struct updated in place; `clone` and `unset` on the clone become building a new value.
- Day16.ComputeMaxPressure: states that the answer is achievable by a plan, not that it is the largest: the pruning by the optimistic bound is a heuristic whose optimality is not proved.
- Day16.ComputeMaxPressureWithHelper: likewise only achievability; giving each valve to the closer walker is a heuristic that can miss the best plan, and no optimality is claimed.
- Day16.Part1: inherits ComputeMaxPressure's contract: the answer is the pressure of some plan carried out within 30 minutes, not shown to be the largest.
- Day16.Part2: inherits ComputeMaxPressureWithHelper's contract: the answer is the pressure of some two-walker plan carried out within 26 minutes, not shown to be the largest.
- Day16.ComputeDistances: states that the matrix only shortens and where it changes, not that its entries are shortest path lengths; each breadth-first search runs on `fuel`, since the source's queue loop need not end when `to` is unreachable.
- Day16.Generator: `fuel` bounds each breadth-first search, and running out is reported as Stalled.
- Day16: the minimum loop in `Puzzle::new` computes a value that is never used and is left out.
- Day16: the sample answers 1651 and 1707, the sample bound 2024 and the sample parse and distance tests are not proved; the bitmap test is.
- Day17.Simulation.Run: after a repeat the answer is proved equal to the extrapolation over the tower's own heights, not to the height after all the rocks: equal rock and jet indices and an equal scope do not prove that the pile repeats, and a rock of the stretch whose cache entry was replaced drops out of the stretch's growth.
- Day17.TowerHeight: after a repeat, the extrapolation over the tower, not the tower's height, as for Day17.Simulation.Run.
- Day17.Part1: after a repeat, the extrapolation over the tower, not the height after 2022 rocks, as for Day17.Simulation.Run.
- Day17.Part2: after a repeat, the extrapolation over the tower, not the height after 10^12 rocks, as for Day17.Simulation.Run.
- Day17: heights and rock counts are unbounded; the source's u64/usize arithmetic is not modelled for overflow.
- Day17: the drawing helpers for rocks and the chamber (`_rock_to_string`, `_chamber_to_string`) are left out; drawing one line is modelled.
- Day17.MakeLine: the panic message is not modelled beyond the panic itself.
- Day17.Part1, Day17.Part2: the sample heights 3068 and 1514285714288 and the sample shift, generator and landing tests are not proved.
- Day18: the running counts of `part1` and `part2` are unbounded; the u32 count cannot overflow for a set of u32 cubes of any practical size and is not modelled.
- Day18: `is_space_open` caches answers in a map that `part2` owns; the model passes the cache in and out as a value.
- Day18: the 13-cube sample (64 and 58) is not proved; a hollow six-cube shell with the same kind of hidden cell is.
- Day19.Simulate: the answer is the best over the runs of orders the search explores, not over every order the rules allow: the pruning and the early stop after a geode robot are heuristics whose optimality is not proved.
- Day19.Part1: each blueprint's answer is the best over the explored runs, as for Day19.Simulate.
- Day19.Part2: each blueprint's answer is the best over the explored runs, as for Day19.Simulate.
- Day19.Part1, Day19.Part2: the sample quality levels 9 and 12 (33 in all) and the 32-minute answers 56 and 62 are not proved: the search is far too large to evaluate.
- Day20: the `RefCell` cells of the link table become one sequence of pairs that each method reassigns; the borrows themselves (and a double borrow, which cannot occur on a ring of at least three numbers) are not modelled.
- Day20: the sample (`1, 2, -3, 3, -2, 0, 4`), its mixes and the answers 3 and 1623178306 are not proved.
- Day21: the i64 arithmetic of `evaluate`, `evaluate_left` and `evaluate_right` is unbounded; an overflow panic in the source is not modelled (division by zero is).
- Day21: a cyclic job table, on which the source's recursion overflows the stack, is reported as a panic.
- Day21: the sample tree is given as a value; parsing the sample's fifteen lines into it is not proved.
- Day22.MakeSteps: move lengths are unbounded; the source's u32 accumulator would wrap on a move of more than 4294967295 tiles.
- Day22.Password: the i32 arithmetic of the password and coordinates is unbounded; it stays in range on any board narrower than 536870911 columns.
- Day22 generator: splitting the input at the blank line is not modelled; the board rows and the move line are passed in separately.
- Day22Board.MoveForwardWithMappings: the HashMap of seams is a Dafny map; its hashing is not modelled.
- Day22Seams.MapEdges: when a pass maps no new side the source loops for ever; the model reports that outcome as a spin instead of running.
- Day22Seams.Part2: the answer is not shown to be the password on a folded cube; only that the seam table's entries are inverse to each other, that its keys are exactly the cells of the net's sides, and that a walk on a board whose rim lies on those sides cannot fall off.
- Day22Seams.Part2Defined: assumes every open tile at the board's rim lies on one of make_edges' sides facing off the board; that holds when the board is a net of side-by-side faces, which the board model does not state.
- Day22Seams.MapEdges: the number of entries (side count times side length) is not stated; the key set is characterised exactly instead.
- Day22Seams.Part1, Day22Seams.Part2: the sample board and its answers 6032 and 5031 are not evaluated; only the sample's move line is.
- Day23.Elves.Run: the loop, which in the source has no bound, is given fuel; a result of none means the fuel ran out.
- Day23.Part2: inherits the fuel of Elves.Run.
- Day23: the i32 coordinates are unbounded; an elf walking beyond 2147483647 cells would overflow in the source.
- Day23.EmptySpace, Day23.Elves.EmptySpaceCount: the usize product is unbounded; the subtraction below zero is modelled as a panic (it cannot happen for elves on distinct cells).
- Day23 Display for Elves: text output only, not modelled.
- Day23.Part1, Day23.Part2: the sample grids and their answers 110 and 20 are not evaluated.
- Day24.Search: the loop is given fuel and returns OutOfFuel when it runs out; the source has no bound.
- Day24.Search: the i32 minute is checked before it is increased, giving Overflow where the source would overflow.
- Day24.Search: the source's panic when the queue runs dry is not modelled as an outcome; it is proved never to happen, since the start can always wait.
- Day24 `_layout_string`: debugging text only, not modelled.
- Day24.Part1, Day24.Part2: the sample's answers 18 and 54 are not evaluated; only its clear cells are.
- Day25.AddColumn: the i32 column sums and carries are unbounded; the source overflows once the total passes 2147483647.
- Day25.Part1: like the source, the result keeps leading zeros when the high columns cancel (`10` and `-0` give `00`); the contract states the value and the length, not that the string is the shortest one.
- Day25.Part2: returns the fixed text of the source; no property to state.
- Day25.Generator: splitting the input into lines is the shared line splitter; no property is stated.
- Day25.Part1: the sample numbers' total is not evaluated; only the value of the expected answer `2=-1=0` is.

## Findings

| source | as written | input that shows it | evidently intended | confidence | as-written member | corrected member |
|---|---|---|---|---|---|---|
| src/day14.rs:142-149 | `part1` pours sand until a unit falls out of the map; once a unit comes to rest on the source itself, every later unit rests there too and the loop never ends | a three-wide map whose second row is all rock, with the source in the middle of the first row | stop when a unit rests on the source and count that unit, so the example answers 1 | not executed | Day14.ShelfBlocksSource | Day14.Part1Corrected |
| src/day15.rs:70 | the row scan reports a gap when `curr_max < x1`, so two spans that touch (one ends at 5, the next starts at 6) report column 6 as free | exclusion spans [0, 5] and [6, 20] on one row | report a gap only when `curr_max + 1 < x1`, i.e. when some column lies strictly between the spans | not executed | Day15.AdjacentSpansAsWritten | Day15.SearchSound |
