# Advent of Code 2022, days 4 to 6, in Dafny

This project models three puzzle solvers written in TypeScript and proves what their
answers mean.

- **Camp cleanup** (day 4). Each line `a-b,c-d` is a pair of section ranges. The solver
  counts the pairs in which one range contains the other (full overlap) and the pairs in
  which the two ranges meet at all (partial overlap).
- **Supply stacks** (day 5). The input is a drawing of crate stacks and a list of
  `move n from x to y` lines. The drawing is read row by row from the top; within a row,
  every four characters are one column, and a crate found there goes to the bottom of that
  column's stack. The moves are then replayed by two cranes:
  - part one pops and pushes one crate at a time;
  - part two splices off a whole block and pushes it in one go.

  The answer is the label of the top crate of every stack.
- **Tuning trouble** (day 6). A scanner keeps a read pointer and a map from characters to
  positions. It reports how many characters have been read when the first window of K
  pairwise-different characters is complete, for K = 4 and K = 14.

Layout:

| file | module | what it holds |
|---|---|---|
| `wrappers.dfy` | `Wrappers` | `Option` |
| `text.dfy` | `Text` | `split` on one character and its inverse `Join`, `trim`, and `Number` on decimal tokens |
| `camp_cleanup.dfy` | `CampCleanup` | day 4 |
| `supply_stacks.dfy` | `SupplyStacks` | day 5 |
| `tuning_trouble.dfy` | `TuningTrouble` | day 6 |

Every operation that works by changing state is a method whose ensures ties it to a
specification function. `Pop` and `MoveAsBlock` change the array of stacks
without a loop; the loops among the methods, each with the invariants its proof needs, are:

- the day 4 counting loop;
- the day 5 diagram and move-line loops;
- the two day 5 replay loops, over an `array` of stacks changed in place;
- the day 5 result-string loop;
- the day 6 scanner.

The properties the programs promise are proved as lemmas about those functions.
The day 6 scanner's pointer can move backwards. It terminates under the lexicographic
measure (length − scan start, length − pointer), where the scan start is a ghost
variable.

## Model

| member | source | states |
|---|---|---|
| Text.Split | Day4/index.ts:66-67 | `split` on one character: at least one part, and no part contains the separator |
| Text.SplitJoin | Day5/index.ts:38 | splitting the separator-joined parts gives the parts back |
| Text.JoinSplit | Day5/index.ts:64 | joining the parts of a split gives the string back |
| Text.Trim | Day5/index.ts:57 | `trim`: the result is no longer than the input and has non-blank ends; it is empty exactly when the input is all blank |
| Text.TrimSlice | Day5/index.ts:57 | `trim` returns a slice of its input, and what it cuts off on either side is all blank |
| Text.TrimPadded | Day5/index.ts:57 | `trim` removes exactly the blanks around a string with non-blank ends |
| Text.LeadingZerosValue | Day4/index.ts:67 | leading zeros do not change the value of a run of digits |
| Text.ToNumberPadded | Day4/index.ts:67 | `Number` ignores the blanks around a token and its leading zeros: `" 007 "` is 7 |
| Text.ToNumberNumeral | Day4/index.ts:67 | the modelled `Number` reads back the decimal representation of every natural number |
| CampCleanup.HasFullOverlap | Day4/index.ts:25-35 | no contract of its own; its meaning is given by FullOverlapSymmetric, FullOverlapContains and FullImpliesPartial |
| CampCleanup.HasPartialOverlap | Day4/index.ts:43-53 | no contract of its own; its meaning is given by PartialOverlapSymmetric, PartialOverlapIntersects and PartialOverlapSharesSection |
| CampCleanup.ParseRange | Day4/index.ts:67-68 | no contract of its own; ParseRangeOf states what `a-b` parses to |
| CampCleanup.ParseLine | Day4/index.ts:65-69 | no contract of its own; ParseLineOf states what `a-b,c-d` parses to |
| CampCleanup.FullOverlapSymmetric | Day4/index.ts:25-35 | full overlap does not depend on the order of the two ranges |
| CampCleanup.PartialOverlapSymmetric | Day4/index.ts:43-53 | partial overlap does not depend on the order of the two ranges |
| CampCleanup.OverlapReflexive | Day4/index.ts:25-53 | every range fully overlaps itself; it partially overlaps itself exactly when start ≤ end |
| CampCleanup.FullImpliesPartial | Day4/index.ts:25-53 | for ranges with start ≤ end, full overlap implies partial overlap |
| CampCleanup.PartialOverlapIntersects | Day4/index.ts:43-53 | for ranges with start ≤ end, partial overlap holds iff start1 ≤ end2 and start2 ≤ end1 |
| CampCleanup.PartialOverlapSharesSection | Day4/index.ts:43-53 | for ranges with start ≤ end, partial overlap holds iff some section lies in both ranges |
| CampCleanup.FullOverlapContains | Day4/index.ts:25-35 | for ranges with start ≤ end, full overlap holds iff every section of one range lies in the other |
| CampCleanup.ParseRangeOf | Day4/index.ts:67-68 | the text `a-b` parses to the range [a, b] |
| CampCleanup.ParseLineOf | Day4/index.ts:65-70 | the line `a-b,c-d` parses to the pair ([a, b], [c, d]) |
| CampCleanup.ParsePairs | Day4/index.ts:65-70 | one pair per line, in order, and defined iff every line parses |
| CampCleanup.ParsePairsOf | Day4/index.ts:65-70 | lines that parse one by one to given pairs parse together to that list |
| CampCleanup.CountsOrdered | Day4/index.ts:72-85 | when every range has start ≤ end: full count ≤ partial count ≤ number of pairs |
| CampCleanup.CountOverlaps | Day4/index.ts:72-85 | the two counters are the numbers of fully and partially overlapping pairs, with full ≤ partial ≤ number of pairs for well-ordered ranges |
| CampCleanup.CalculateOverlap | Day4/index.ts:59-88 | a result exactly when every line parses, and then the two overlap counts of the parsed pairs |
| CampCleanup.SampleParses | Day4/index.ts:65-70 | the six sample lines parse to the six sample pairs |
| CampCleanup.SampleCounts | Day4/index.ts:72-85 | the sample gives full = 2 and partial = 4, and so do its last four pairs: their two full overlaps are `2-8,3-7` and `6-6,4-6` (6-6 lies inside 4-6) |
| SupplyStacks.ReversedAt | Day5/index.ts:103-107 | the i-th crate of a reversed block is the i-th from its end |
| SupplyStacks.MoveOne | Day5/index.ts:102-109 | a part-one move keeps the number of stacks and every stack other than source and destination |
| SupplyStacks.MoveBlock | Day5/index.ts:121-125 | a part-two move keeps the number of stacks and every stack other than source and destination |
| SupplyStacks.MoveOneTransfers | Day5/index.ts:102-109 | part one leaves the source without its top min(count, height) crates; the destination keeps its crates and gains those crates in reverse order |
| SupplyStacks.MoveBlockTransfers | Day5/index.ts:121-125 | part two leaves the source without its top min(count, height) crates; the destination keeps its crates and gains that block in the same order |
| SupplyStacks.SameStackMove | Day5/index.ts:102-125 | a move from a stack onto itself changes nothing, under either crane |
| SupplyStacks.SingleCrateMovesAgree | Day5/index.ts:102-125 | for a count ≤ 1 the two cranes produce the same stacks |
| SupplyStacks.SingleCrateReplaysAgree | Day5/index.ts:102-125 | when no move has a count above 1, both replays end in the same stacks |
| SupplyStacks.MoveNothing | Day5/index.ts:103 | a move of 0 crates changes nothing, under either crane |
| SupplyStacks.MoveOneStepLifts | Day5/index.ts:103-108 | for a move between two different stacks whose source still holds a crate after the first c, moving c + 1 crates is moving c and then that crate |
| SupplyStacks.MoveOneStep | Day5/index.ts:103-108 | moving c + 1 crates one at a time is moving c crates and then one more |
| SupplyStacks.ValidPrefix | Day5/index.ts:102 | every prefix of a list of valid moves is valid |
| SupplyStacks.ReplayOne | Day5/index.ts:102-109 | replaying part one keeps the number of stacks |
| SupplyStacks.ReplayBlock | Day5/index.ts:121-125 | replaying part two keeps the number of stacks |
| SupplyStacks.CratesTotal | Day5/index.ts:102-125 | the multiset of all crates has one element per crate |
| SupplyStacks.CratesUpdate | Day5/index.ts:104-106 | replacing one stack trades its crates for those of the new stack |
| SupplyStacks.MoveOneConserves | Day5/index.ts:102-109 | a part-one move keeps the multiset of crates |
| SupplyStacks.MoveBlockConserves | Day5/index.ts:121-125 | a part-two move keeps the multiset of crates |
| SupplyStacks.ReplayOneConserves | Day5/index.ts:102-109 | replaying part one keeps the number of stacks, the multiset of crates and their total |
| SupplyStacks.ReplayBlockConserves | Day5/index.ts:121-125 | replaying part two keeps the number of stacks, the multiset of crates and their total |
| SupplyStacks.Top | Day5/index.ts:89 | a stack contributes one label exactly when it is not empty, and "" otherwise |
| SupplyStacks.Tops | Day5/index.ts:86-93 | the result string is no longer than the number of stacks |
| SupplyStacks.TopsAppend | Day5/index.ts:88-90 | the result for two runs of stacks is the concatenation of their results |
| SupplyStacks.TopsOfNonEmpty | Day5/index.ts:86-93 | with no empty stack there is one label per stack, the i-th being the top of stack i |
| SupplyStacks.MakeResultString | Day5/index.ts:86-93 | the loop builds the string of top labels in stack order |
| SupplyStacks.Pop | Day5/index.ts:104 | `pop` on an empty stack yields nothing and changes nothing; otherwise it yields the top crate and removes it from that stack alone |
| SupplyStacks.MoveOneCrate | Day5/index.ts:104-107 | moving one crate is pop then, unless the pop found nothing, push onto the destination |
| SupplyStacks.MoveOneByOne | Day5/index.ts:103-108 | the counted pop/push loop turns the array into the part-one move of its old contents |
| SupplyStacks.Splice | Day5/index.ts:122 | `splice` splits a stack into the removed block and the rest, which together hold exactly its crates |
| SupplyStacks.SpliceTop | Day5/index.ts:122 | `splice(-count, count)` removes the top min(count, height) crates, and nothing when count = 0 |
| SupplyStacks.MoveAsBlock | Day5/index.ts:122-124 | splice and push turn the array into the part-two move of its old contents |
| SupplyStacks.RearrangeOneByOne | Day5/index.ts:102-109 | the part-one loop leaves the array holding the part-one replay of its old contents |
| SupplyStacks.RearrangeAsBlock | Day5/index.ts:121-125 | the part-two loop leaves the array holding the part-two replay of its old contents |
| SupplyStacks.CrateAt | Day5/index.ts:49-58 | a row adds at most one crate to a stack, and that crate is the character at 4i + 1 |
| SupplyStacks.CrateLabelInRow | Day5/index.ts:57-58 | in a well-formed row, a column that is not blank adds its letter at 4i + 1 |
| SupplyStacks.DiagramStacks | Day5/index.ts:43-61 | no stack is taller than the drawing has rows, and no column of the drawing beyond the stacks holds a crate |
| SupplyStacks.ColumnsFit | Day5/index.ts:43-61 | every column is at most as tall as the drawing, and past the widest row every column is empty |
| SupplyStacks.ColumnBeyondWidth | Day5/index.ts:44-56 | past the columns of the widest row, every column of the drawing is empty |
| SupplyStacks.FirstRowOnTop | Day5/index.ts:58 | the first row of the drawing ends up on top of every stack |
| SupplyStacks.ColumnHeight | Day5/index.ts:57-58 | a stack holds at most one crate per row, and none when no row has a crate in its column |
| SupplyStacks.ReadColumn | Day5/index.ts:49-59 | reading one more column of a row puts that column's crate under the crates read so far for it and leaves every other stack alone |
| SupplyStacks.ParseRow | Day5/index.ts:44-60 | the loop over one row adds that row underneath the stacks read so far |
| SupplyStacks.ParseDiagram | Day5/index.ts:43-61 | the nested loops build exactly the stacks the drawing describes |
| SupplyStacks.DiagramRows | Day5/index.ts:38-41 | no contract of its own; DiagramRowsOf states which rows it keeps |
| SupplyStacks.DiagramRowsOf | Day5/index.ts:38-41 | reading the stacks block drops its last line, the row of stack numbers, and keeps every other row |
| SupplyStacks.Numbers | Day5/index.ts:66-69 | at most one number per word; WordNotNumber says which words are dropped, and MoveLineWords and ParseMoveLine which numbers a move line yields |
| SupplyStacks.ParseMove | Day5/index.ts:66-75 | no contract of substance; ParseMoveLine and MovesOf state what a move line parses to |
| SupplyStacks.WordNotNumber | Day5/index.ts:68-69 | under the modelled `Number`, a blank-free word that starts with a non-digit is NaN and is filtered out |
| SupplyStacks.MoveLineWords | Day5/index.ts:66-67 | a move line splits into its six words |
| SupplyStacks.ParseMoveLine | Day5/index.ts:64-76 | `move n from x to y` parses to count n, from x − 1, to y − 1 |
| SupplyStacks.MovesOf | Day5/index.ts:64-76 | one move per line, in order, and defined iff every line parses |
| SupplyStacks.MovesOfAll | Day5/index.ts:64-76 | lines that parse one by one to given moves parse together to that list |
| SupplyStacks.ParseMoves | Day5/index.ts:64-76 | the push loop builds the list of moves of the lines |
| SupplyStacks.PuzzleInput | Day5/index.ts:31-79 | no contract of its own; GetInput is proved against it and SampleInput evaluates it on the sample |
| SupplyStacks.GetInput | Day5/index.ts:31-79 | `getInput` returns the stacks of the drawing and the moves of the move lines |
| SupplyStacks.CalculateSupplyStacksPartOne | Day5/index.ts:99-112 | for an input that parses with valid moves, the top labels after the part-one replay; otherwise nothing |
| SupplyStacks.CalculateSupplyStacksPartTwo | Day5/index.ts:118-128 | for an input that parses with valid moves, the top labels after the part-two replay; otherwise nothing |
| SupplyStacks.SampleInput | Day5/index.ts:31-79 | the sample blocks read as stacks [Z,N], [M,C,D], [P] and the four sample moves |
| SupplyStacks.SampleDiagram | Day5/index.ts:43-61 | the sample drawing gives stacks [Z,N], [M,C,D], [P], bottom first |
| SupplyStacks.SampleMovesParse | Day5/index.ts:64-76 | the four sample move lines read as the four sample moves |
| SupplyStacks.SampleRowsParse | Day5/index.ts:38-41 | the sample stacks block, without its number row, is the sample drawing |
| SupplyStacks.SamplePartOne | Day5/index.ts:99-112 | on the sample, part one yields "CMZ" |
| SupplyStacks.SamplePartTwo | Day5/index.ts:118-128 | on the sample, part two yields "MCD" |
| TuningTrouble.SearchFromSpec | Day6/index.ts:28-43 | the reference search returns the first end of a distinct window from its start on, or the length |
| TuningTrouble.FirstMarkerSpec | Day6/index.ts:24-46 | the result lies in [0, length]; it is 0 when K ≤ 0; no earlier end has a distinct window of K; the window ending there is distinct when the result is short of the end or some window exists; the result is the length when none exists |
| TuningTrouble.MarkerUnique | Day6/index.ts:24-46 | those properties determine the result |
| TuningTrouble.RepeatBlocks | Day6/index.ts:35-37 | after a repeat, no window that still holds the earlier occurrence can be a marker, so restarting just after it skips no marker |
| TuningTrouble.RecordedRunDistinct | Day6/index.ts:29-41 | a run whose characters the record maps back to their own positions holds no character twice |
| TuningTrouble.FindDistinctChars | Day6/index.ts:24-46 | the scan terminates with a pointer in [0, length]; the K characters before it are pairwise distinct when it stopped early; no earlier position ends such a window; it equals the reference marker position |
| TuningTrouble.CalculateMarker | Day6/index.ts:51-61 | the marker and message positions are the first ends of distinct windows of 4 and 14 characters |
| TuningTrouble.Repeated | Day6/index.ts:35-37 | a window that holds a character twice is not distinct |
| TuningTrouble.SampleOneMarker | Day6/index.ts:24-46 | "mjqjpqmgbljsphdztnvjfqwrcgsmlb" gives 7 for K = 4 |
| TuningTrouble.SampleOneMessage | Day6/index.ts:24-46 | "mjqjpqmgbljsphdztnvjfqwrcgsmlb" gives 19 for K = 14 |
| TuningTrouble.SampleTwoMarker | Day6/index.ts:24-46 | "bvwbjplbgvbhsrlpgdmjqwftvncz" gives 5 for K = 4 |

## Left out

- File reading (`readLinesFromFile` in all three files) and `console.log` are left out. The
  file contents are parameters: the lines for day 4, the two blocks on either side of
  the blank line for day 5, and the stream for day 6.
- Text.ToNumber: only blanks and decimal digits are modelled. JavaScript's `Number` also
  accepts signs, fractions, exponents, hexadecimal and Unicode whitespace. Values here are
  exact naturals, while JavaScript rounds to a double above 2^53 and reads a numeral of
  more than about 309 digits as `Infinity`. The word `Infinity` is a number in JavaScript,
  so the filter in `getInput` keeps it, but here it is NaN. The puzzle inputs contain none
  of these.
- Text.Trim: only the six ASCII blanks (space, tab, line feed, vertical tab, form feed,
  carriage return) are removed. JavaScript's `trim` also strips Unicode spaces such as
  U+00A0, U+FEFF and U+2028, which the puzzle inputs do not contain.
- CampCleanup.CalculateOverlap: gives no result as soon as one line does not parse. In
  JavaScript a NaN or missing bound makes the comparisons false, and a line with no comma
  makes the overlap tests throw.
- SupplyStacks.ParseMove: a line with fewer than three numbers, such as a trailing empty
  line, makes the whole input malformed. JavaScript pushes a move with NaN fields instead;
  part two then fails on `stacks[NaN]`, and part one fails only when such a move has a
  count above 0.
- SupplyStacks.CalculateSupplyStacksPartOne: gives no result when any move names a
  stack that does not exist. JavaScript only fails when it actually reads that stack,
  which a move of 0 crates, or a move from a stack already emptied, never does.
- SupplyStacks.CalculateSupplyStacksPartTwo: gives no result when any move names a
  stack that does not exist. This matches JavaScript, where `splice` or `push` on a
  missing stack throws.
- SupplyStacks.GetInput: a drawing row of length 4i + 1 that ends in a non-blank
  character makes the input malformed. SupplyStacks.ParseRow requires `WellFormedRow` of
  its row and SupplyStacks.ParseDiagram requires `WellFormedRows` of the drawing; GetInput
  and PuzzleInput check this before reading the drawing. In JavaScript that last column
  would `unshift` an empty-string crate, which part one later drops because an empty pop
  result is falsy. Crates are modelled as characters, so a crate always has a label.
- SupplyStacks.ParseDiagram: the growing array of stacks in `getInput` is modelled as a
  sequence value that the loops reassign. Only the replays work in place, on an
  `array`.
- Crates are characters and strings are sequences of characters. UTF-16 code units are
  not modelled.
- The day 6 record `cells` is a `map<char, int>`. `Object.keys` order plays no part; only
  the map's size is used.
- Two source comments describe something other than what the code does, and the model
  follows the code in both cases:
  - the comment in `getInput` calls the dropped line blank, but it is the row of stack
    numbers;
  - the doc comment of `findDistinctChars` calls the result the index of the last
    distinct character, but it is the number of characters read up to the end of the
    first distinct window.
