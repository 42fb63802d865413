# advent-2019-rs, days 1 to 3, in Dafny

This project models the solvers of the first three days of the
`advent-2019-rs` repository. Every day has a standalone crate (`day_N/`)
and a `src/dayN.rs` file. For days 1 and 2 that file is a module of the
puzzle-runner crate. `src/lib.rs` declares only `day1` and `day2`, so
`src/day3.rs` is not compiled into that crate, although its code is modelled
all the same. The model proves what each solver computes.

- **Day 1, fuel** (`day1.dfy`): `Mass::required_fuel` is a third of the
  mass, rounded down, less two, never below zero. `Fuel` is an iterator:
  each `next` replaces the state with the fuel its own mass needs. Its fold
  is `Fuel::required_fuel`. The part solvers add the amounts over a list of
  masses.
  - The iterator is modelled twice: as a value (`Fuel.Next`, `Fuel.Fold`)
    and as the `&mut self` cell it really is (`FuelCell`).
  - `RequiredFuelByIteration` runs the iterator protocol in a loop and is
    proved equal to the fold.
  - `Trajectory` is an independent list of the items, and the fold is
    proved to be their sum.
- **Day 2, Intcode** (`intcode.dfy`, `day2.dfy`, `day2_standalone.dfy`):
  a stored-program machine over a vector of `usize`, stepping four cells at
  a time. Add (1) and multiply (2) take positional operands, 99 halts, and
  every other code is a no-op.
  - `Exec` is the reference semantics. `Intcode.Run` is the in-place loop
    over an `array`, proved to end in the same memory.
  - A noun-major search looks for the noun and verb in cells 1 and 2 that
    make cell 0 equal to 19 690 720.
  - The puzzle runner searches `[0, 100)`. The standalone binary searches
    `[1, 99)`, builds each candidate from the parsed input and counts the
    pairs it tries. Both searches are proved against the same `Search`
    function, whose meaning `SearchSound` states.
- **Day 3, wires** (`day3.dfy`, `day3_example.dfy`): a wire is a list of
  moves such as `R8`.
  - `track_placements` replays the wire's unit moves from the origin and
    records the step at which each coordinate is first visited.
    `Day3.TrackPlacements` is that loop, proved to build `FirstVisits` of
    the walk. `FirstVisitsAt` states what that map means.
  - `collisions_on_paths` keeps the coordinates every wire visits, each
    with the sum of its step counts.
  - The two parts take the least Manhattan distance from the origin and
    the least step sum.
  - The example wires `R8,U5,L5,D3` and `U7,R6,D4,L4` are proved to give 6
    and 30.

`text.dfy` holds the string handling the parsers share:
- `str::split` and `str::lines`;
- the `usize` and `isize` parsers of `str::parse`, with a decimal printer
  for round trips.

A panic in the source is an explicit failure value in the model:
- `None` for a parse or an index out of range;
- `Panicked` for the Intcode machine;
- `Crashed` for a search that hits a panicking run.

## Model

| member | source | states |
|---|---|---|
| Day1.Mass.RequiredFuel | src/day1.rs:100-111 | for masses of at least 6, the fuel `f` satisfies `3(f+2) <= m < 3(f+3)` (that is `m div 3 - 2`); it is 0 exactly when the mass is below 9; it is at most `m div 3` and less than any positive mass |
| Day1.Mass.AllRequiredFuel | src/day1.rs:113-116 | the mass's fuel plus the fuel for that fuel: at least the mass's fuel and at most one and a half times it |
| Day1.Fuel.ToMass | src/day1.rs:19-21 | `Fuel::mass` keeps the number |
| Day1.Fuel.Plus | src/day1.rs:35-43 | `Add` adds the wrapped numbers |
| Day1.Fuel.Next | src/day1.rs:74-83 | the new state is the required fuel of the state's own mass; an item is yielded iff that is positive, and the item is the new state; the state strictly decreases |
| Day1.Trajectory | src/day1.rs:59-83 | the items the iterator yields: all positive, the first is the fuel of the start, each is the fuel of the one before and strictly smaller, and the last needs no fuel of its own; empty iff the first step gives 0 |
| Day1.TrajectoryUnfold | src/day1.rs:74-83 | one `next`: the items are the first item followed by the items from it |
| Day1.Fuel.Fold | src/day1.rs:30-31 | the fold from an accumulator adds the sum of all the items the iterator yields |
| Day1.Fuel.RequiredFuel | src/day1.rs:23-32 | `Fuel::required_fuel` is the sum of the items the iterator yields |
| Day1.RequiredFuelUnfold | src/day1.rs:30-32 | required fuel is the first item plus the required fuel of that item, or 0 when nothing is yielded |
| Day1.RequiredFuelBound | src/day1.rs:30-32 | the fuel for a fuel amount is at most half of it |
| Day1.MassRequiredFuelExamples | src/day1.rs:90-99 | the documented examples 2→0, 12→2, 14→2, 1969→654 and 100756→33583 |
| Day1.NextExamples | src/day1.rs:62-73 | the documented examples 2, 3, 5 → None; 21→5, 70→21, 216→70, 654→216 |
| Day1.FuelStep | src/day1.rs:30-32 | when the first item is `next`, the required fuel is `next` plus the required fuel of `next` |
| Day1.FuelStop | src/day1.rs:74-83 | an amount below 9 needs no fuel |
| Day1.FuelChain21 | src/day1.rs:30-32 | `Fuel(21)` needs 5 |
| Day1.FuelChain70 | src/day1.rs:30-32 | `Fuel(70)` needs 26 |
| Day1.FuelChain216 | src/day1.rs:30-32 | `Fuel(216)` needs 96 |
| Day1.FuelChain654 | src/day1.rs:30-32 | `Fuel(654)` needs 312 |
| Day1.FuelChain12 | src/day1.rs:30-32 | `Fuel(12)` needs 2 |
| Day1.FuelChain43 | src/day1.rs:30-32 | `Fuel(43)` needs 14 |
| Day1.FuelChain135 | src/day1.rs:30-32 | `Fuel(135)` needs 57 |
| Day1.FuelChain411 | src/day1.rs:30-32 | `Fuel(411)` needs 192 |
| Day1.FuelChain1240 | src/day1.rs:30-32 | `Fuel(1240)` needs 603 |
| Day1.FuelChain3728 | src/day1.rs:30-32 | `Fuel(3728)` needs 1843 |
| Day1.FuelChain11192 | src/day1.rs:30-32 | `Fuel(11192)` needs 5571 |
| Day1.FuelChain33583 | src/day1.rs:30-32 | `Fuel(33583)` needs 16763 |
| Day1.FuelRequiredFuelExamples | src/day1.rs:23-29 | the documented examples `Fuel(2)`→0 and `Fuel(654)`→312 |
| Day1.AllRequiredFuelExample1969 | src/day1.rs:113-116 | a mass of 1969 needs 966 in all |
| Day1.AllRequiredFuelExample100756 | src/day1.rs:113-116 | a mass of 100756 needs 50346 in all |
| Day1.FuelCell.constructor | src/day1.rs:6 | a cell holds the given fuel |
| Day1.FuelCell.Next | src/day1.rs:74-83 | `next` on `&mut self`: the cell becomes its own required fuel, and that is yielded iff positive |
| Day1.FuelCell.AddAssign | src/day1.rs:45-51 | `add_assign`: the cell becomes the sum |
| Day1.RequiredFuelByIteration | src/day1.rs:30-32 | calling `next` on a cell until it yields nothing and adding every item into another cell gives `Fuel::required_fuel` |
| Day1.FoldPlus | src/day1.rs:133 | the fold `acc + f` over a list adds the list's sum to the accumulator |
| Day1.SumAppend | day_1/src/main.rs:9-14 | the sum of a concatenation is the sum of the two sums |
| Day1.RequiredFuels | src/day1.rs:130-132 | the mapped list has one entry per mass, each that mass's required fuel |
| Day1.SolvePart1 | src/day1.rs:128-134 | part 1 (and the standalone `part_1`) is the sum of the masses' required fuel |
| Day1.Part1Empty | day_1/src/main.rs:9-14 | no masses need `Fuel(0)` |
| Day1.Part1Append | day_1/src/main.rs:9-14 | part 1 of `a ++ b` is part 1 of `a` plus part 1 of `b` |
| Day1.FuelsUncons | src/day1.rs:128-141 | both totals split into the first mass and the rest |
| Day1.Part1Bound | day_1/src/main.rs:12 | part 1 is at most the total of `m div 3` |
| Day1.AllRequiredFuels | src/day1.rs:138-140 | one entry per mass, each that mass's total fuel |
| Day1.SolvePart2 | src/day1.rs:136-141 | part 2 is the sum of the masses' total fuel |
| Day1.Part2Bounds | src/day1.rs:136-141 | part 1 ≤ part 2 ≤ one and a half times part 1 |
| Day1.InputGenerator | src/day1.rs:119-126 | defined iff every line parses as a `usize`; one mass per line, in order, with the parsed value |
| Intcode.Decode | src/day2.rs:23-30 | 1 is Add, 2 is Multiply, 99 is Halt, and every other value is Unknown, each as an if-and-only-if |
| Intcode.DecodeExamples | day_2/src/lib.rs:34-49 | the documented examples 1, 2, 3 and 99, with 0 and 98 also Unknown |
| Intcode.Step | src/day2.rs:55-83 | one instruction: it stops iff the code is Halt; it faults iff Add or Multiply has an operand or target out of range; it keeps the length |
| Intcode.AddStep | src/day2.rs:58-68 | Add writes the sum of the two operand cells into the target cell, and no other cell changes |
| Intcode.MultiplyStep | src/day2.rs:69-79 | Multiply writes the product, and no other cell changes |
| Intcode.UnknownStep | src/day2.rs:81 | an unknown code leaves memory as it is |
| Intcode.Exec | src/day2.rs:54-85 | the run from an offset, four cells a step; an exited run keeps the length |
| Intcode.HaltExits | src/day2.rs:80 | at or past the end, or at Halt, the run ends with memory untouched |
| Intcode.ExecSmallExample | day_2/src/main.rs:8-12 | `[1,0,0,0,99]` ends as `[2,0,0,0,99]` |
| Intcode.ExecLargerExample | day_2/src/main.rs:13-50 | `[1,9,10,3,2,3,11,0,99,30,40,50]` ends with 3500 in cell 0 |
| Intcode.InRange | day_2/src/main.rs:22-28 | the array check agrees with the memory check on `a[..]` |
| Intcode.Run | day_2/src/main.rs:13-47 | the in-place loop succeeds iff `Exec` exits, and then leaves in the array what `Exec` computes |
| Intcode.Output | src/day2.rs:87 | `registers[0]` of a run that exited with non-empty memory, otherwise a panic |
| Intcode.RunWith | src/day2.rs:49-52 | a program of fewer than three cells panics; otherwise the run starts from the program with cells 1 and 2 set |
| Intcode.Search | src/day2.rs:104-118 | a hit or a panicking pair it returns lies in the grid, at or after the pair it starts from, and really hits or panics |
| Intcode.SearchStep | src/day2.rs:104-117 | one pair of the search: a panicking run ends it, a hit is the result, and a miss moves on to the next pair |
| Intcode.SearchSound | src/day2.rs:104-118 | the search's result: either the first hit in noun-major order, with every earlier pair a miss; or every pair a miss; or a panicking pair, with every earlier pair a miss |
| Intcode.Answer | src/day2.rs:100-120 | a hit gives `100 * noun + verb`, no hit gives 101 from the defaults, a panic gives nothing |
| Intcode.ParseProgram | src/day2.rs:38-45 | defined iff every comma-separated token on every line parses as a `usize`; one cell per token, in order |
| Intcode.CommaLine | src/day2.rs:40-42 | a comma-joined program is one non-empty line whose tokens are the numbers |
| Intcode.ParseProgramRoundTrip | day_2/src/lib.rs:56-61 | parsing a comma-joined program gives the program back |
| Intcode.ParseProgramTwoLines | day_2/src/lib.rs:56-61 | tokens are taken across lines in order: two lines parse to the concatenation |
| Intcode.ParseProgramExample | src/day2.rs:33-37 | `"1,2,3\n4,5"` parses to `[1,2,3,4,5]` |
| Day2.SolveWithNounAndVerb | src/day2.rs:47-88 | the result is cell 0 after running a copy of the input with cells 1 and 2 set; the caller's input is a value and so unchanged |
| Day2.SolvePart1 | src/day2.rs:90-96 | the run with noun 12 and verb 2 |
| Day2.SearchVerbs | src/day2.rs:105-117 | the inner loop for one noun: it stops at the first pair that hits (the `break 'outer`) or panics, which is then the search's result, or it finds none and the search goes on with the next noun |
| Day2.SolvePart2 | src/day2.rs:98-121 | the nested loop returns `Answer` of the search over `[0, 100)²` |
| Day2.SolvePart2Meaning | src/day2.rs:98-121 | part 2 is either `100n + v` for the first hitting pair with all earlier pairs missing, or 101 with every pair missing, or a panic on some pair |
| Day2Standalone.Part1 | day_2/src/main.rs:13-50 | `part_1` returns cell 0 of the run and leaves its final memory in the vector |
| Day2Standalone.Candidate | day_2/src/main.rs:80-83 | defined iff the input has at least three cells; then the same length, noun and verb in cells 1 and 2, and every other cell from the input |
| Day2Standalone.CandidateRun | day_2/src/main.rs:62-66 | the candidate is the input with cells 1 and 2 replaced, so running it is `RunWith` |
| Day2Standalone.Try | day_2/src/main.rs:80-85 | one try returns the output of `RunWith` for that pair |
| Day2Standalone.RestoredRun | day_2/src/main.rs:59-69 | the first block is the run with noun 12 and verb 2, the same as the runner's part 1 |
| Day2Standalone.Tried | day_2/src/main.rs:74-79 | `iterations` at the stop: 98·98 when no pair stops the search; for a stopping pair in the grid a number in `1..=98·98` from which the noun and the verb are recovered |
| Day2Standalone.TriedBound | day_2/src/main.rs:74-79 | the search tries between 1 and 98·98 pairs |
| Day2Standalone.SearchVerbs | day_2/src/main.rs:78-92 | the inner loop for one noun: it stops at the first pair that hits or panics, which is then the search's result, or it finds none and the search goes on with the next noun; the counter grows by the verbs tried |
| Day2Standalone.SearchNounVerb | day_2/src/main.rs:71-96 | the answer is `Answer` of the search over `[1, 99)²`, and `iterations` counts every pair up to the one it stops at |
| Day3.Abs | src/day3.rs:27 | the absolute value is `n` or `-n` |
| Day3.ManhattanDistance | src/day3.rs:26-28 | zero iff the points are equal, and at least either axis difference |
| Day3.ManhattanMetric | day_3/src/main.rs:22-24 | symmetric, and obeys the triangle inequality |
| Day3.DirOf | src/day3.rs:33-39 | U, D, L and R each choose their direction iff that is the letter; anything else gives Unknown |
| Day3.ParsePath | src/day3.rs:30-41 | defined iff the token is non-empty, its first character is one byte, and the rest parses as an `isize`; then the direction of that character and the parsed distance |
| Day3.Letter | src/day3.rs:34-37 | each known direction has a letter that parses back to it |
| Day3.ParsePathRoundTrip | day_3/src/main.rs:26-37 | a letter followed by a printed distance parses back to the move |
| Day3.ParseWire | src/day3.rs:98 | defined iff every comma-separated token parses; one move per token, in order |
| Day3.ParseTokens | src/day3.rs:98 | defined iff every token parses; one move per token, in order |
| Day3.ChainAppend | src/day3.rs:67-71 | chains of unit steps join end to end |
| Day3.Segment | src/day3.rs:49-65 | a move covers `Reach` coordinates: its distance for a known direction, none for Unknown or a distance below 1 |
| Day3.SegmentShape | src/day3.rs:49-65 | the i-th coordinate of a move lies `i+1` from the start, and each lies one unit from the one before |
| Day3.EndPointIsLast | src/day3.rs:67-68 | the position after a move is its last coordinate, or the start when it has none |
| Day3.Walk | src/day3.rs:48-72 | the walk has one coordinate per unit move, the total reach of the moves |
| Day3.WalkSnoc | src/day3.rs:48-72 | one more move appends its segment and moves the position to its end |
| Day3.PositionBound | src/day3.rs:45-68 | `current_pos` is never further from the origin than the steps walked, so a wire that walks no steps stays at the origin |
| Day3.EndPointDistance | src/day3.rs:49-68 | one path moves `current_pos` exactly its reach away |
| Day3.WalkShape | src/day3.rs:45-71 | the walk is a chain of unit steps from the origin, ending at the final position |
| Day3.FirstVisitsSnoc | src/day3.rs:70 | `or_insert`: a seen coordinate keeps its step, and a new one gets the current step |
| Day3.FirstVisitsAt | src/day3.rs:67-71 | a coordinate is a key iff the walk visits it; its value lies in `1..=len`, the walk is there at that step, and never before |
| Day3.FirstVisitsSpec | src/day3.rs:67-71 | the same for every coordinate at once |
| Day3.RecordPath | src/day3.rs:48-65 | the walk of the first `i+1` moves is the walk of the first `i` plus the segment of move `i` |
| Day3.RecordStep | src/day3.rs:68-70 | one inner-loop step extends the first-visit map as `or_insert(step)` does |
| Day3.TrackPlacements | src/day3.rs:43-74 | the loop's map is the first-visit map of the wire's walk |
| Day3.WalkLength | src/day3.rs:48-71 | the step counter ends at the total reach, and a wire with only unknown directions visits nothing |
| Day3.NoKnownMoves | day_3/src/main.rs:52 | unknown directions add no steps |
| Day3.OriginVisits | src/day3.rs:45-49 | the origin is a key iff the wire returns to it, and then its step is at least 2 |
| Day3.Intersect | src/day3.rs:81-89 | the keys of both maps, each with the sum of the two steps |
| Day3.FoldIntersect | src/day3.rs:80-90 | the keys of the accumulator found on every later wire, each with the accumulator's step plus the wires' steps |
| Day3.Collisions | src/day3.rs:78-91 | a panic for no wires; otherwise exactly the coordinates on every wire, each with the sum of its steps |
| Day3.MinOf | src/day3.rs:109-112 | the least element of a non-empty set |
| Day3.SolvePart1 | src/day3.rs:103-116 | defined iff some intersection other than the origin exists; then the least Manhattan distance from the origin over those intersections |
| Day3.SolvePart2 | src/day3.rs:118-126 | defined iff an intersection exists (the origin not excluded); then the least step sum over intersections |
| Day3.TrimStart | src/day3.rs:96 | drops exactly the leading white space: a suffix of the input, with only white space removed, that does not start with white space |
| Day3.TrimEnd | src/day3.rs:96 | drops exactly the trailing white space |
| Day3.TrimSpec | src/day3.rs:96 | `str::trim`: a contiguous part of the input with only white space before and after it, neither starting nor ending with white space |
| Day3.ParseWires | src/day3.rs:95-98 | one wire per line of the trimmed input, each the parsed line; nothing if some line does not parse |
| Day3.ParseLines | day_3/src/main.rs:71-74 | one wire per line, each the parsed line; nothing if some line does not parse |
| Day3.TrackAll | src/day3.rs:99-100 | one map per wire, each the first-visit map of its walk |
| Day3.InputGenerator | src/day3.rs:93-101 | defined iff the input parses; then one first-visit map per wire, in order |
| Day3Example.SegmentPoints | src/day3.rs:52-63 | the i-th coordinate of a move is the start offset by `i+1` in its direction |
| Day3Example.OnePath | src/day3.rs:48-72 | the walk of one move is its segment |
| Day3Example.TwoPaths | src/day3.rs:48-72 | the walk of two moves is the two segments end to end |
| Day3Example.ThreePaths | src/day3.rs:48-72 | the walk of three moves is the three segments end to end |
| Day3Example.FourPaths | src/day3.rs:48-72 | the walk of four moves is the four segments end to end |
| Day3Example.FirstWalk | src/day3.rs:43-74 | `R8,U5,L5,D3` visits 21 coordinates, as listed |
| Day3Example.SecondWalk | src/day3.rs:43-74 | `U7,R6,D4,L4` visits 21 coordinates, as listed |
| Day3Example.PointsMeet | src/day3.rs:78-91 | the two walks share only steps 15 and 20 |
| Day3Example.CrossingIndices | src/day3.rs:78-91 | each walk is at (3,3) only at step 20 and at (6,5) only at step 15 |
| Day3Example.ExampleCrossings | src/day3.rs:78-91 | the wires cross exactly at (3,3) and (6,5) |
| Day3Example.ExampleSteps | src/day3.rs:67-71 | both wires first reach (3,3) at step 20 and (6,5) at step 15 |
| Day3Example.FirstStep | src/day3.rs:70 | a coordinate first visited at index k is recorded with step k+1 |
| Day3Example.ExampleTotals | src/day3.rs:78-91 | the collisions are (3,3) with 40 steps and (6,5) with 30 |
| Day3Example.ExampleAnswer1 | src/day3.rs:103-116 | those collisions give part 1 the answer 6 |
| Day3Example.ExampleAnswer2 | src/day3.rs:118-126 | those collisions give part 2 the answer 30 |
| Day3Example.Example | src/day3.rs:93-126 | the example wires give 6 for part 1 and 30 for part 2 |
| Text.Split | src/day2.rs:42 | `str::split` gives at least one piece, and no piece contains the separator |
| Text.JoinSplit | src/day2.rs:42 | joining the pieces with the separator gives the string back |
| Text.SplitWithout | src/day2.rs:42 | a string without the separator is one piece |
| Text.SplitFirst | src/day2.rs:42 | the piece before the first separator comes first, then the pieces of the rest |
| Text.SplitJoin | src/day2.rs:42 | splitting joined pieces that avoid the separator gives the pieces back |
| Text.Lines | src/day2.rs:41 | `str::lines`: no line contains a newline |
| Text.LinesCons | src/day2.rs:41 | a first line ended by a newline is that line, without a trailing carriage return, followed by the lines of the rest |
| Text.LinesOfOneLine | src/day2.rs:41 | a string without newlines is one line, or none when empty |
| Text.LinesOfTwo | src/day2.rs:41 | two lines joined by a newline are those two lines |
| Text.Tokens | src/day2.rs:41-42 | the comma-separated tokens of all lines contain no comma |
| Text.ParseUsize | src/day2.rs:43 | parses iff what follows an optional `+` is a non-empty run of decimal digits whose value is below 2^64, and the result is that value |
| Text.ParseIsize | src/day3.rs:40 | parses iff what follows an optional sign is a non-empty run of decimal digits whose value is below 2^63, or at most 2^63 after `-`; the result is that value, negated after `-` |
| Text.ParseExamples | src/day2.rs:43 | `"1a"`, `"-7"`, `""` and `"++1"` are not `usize`s while `"+7"` and `"42"` are; `"-5"` and `"+5"` are `isize`s and `"5-"` is not |
| Text.DigitChar | src/day2.rs:43 | the digit character of a value below 10 |
| Text.ShowNat | src/day2.rs:43 | the decimal form of a number is a non-empty run of digits |
| Text.ShowNatValue | src/day2.rs:43 | the value of the decimal form is the number |
| Text.ParseShowNat | src/day2.rs:43 | every `usize` parses back from its decimal form |
| Text.ParseShowInt | src/day3.rs:40 | every `isize` parses back from its decimal form |
| Text.ParseAll | src/day2.rs:43-44 | defined iff every token parses; one value per token, in order |
| Text.ShowAll | src/day2.rs:43 | one decimal form per number |
| Text.ParseShowAll | src/day2.rs:43-44 | parsing the decimal forms gives the numbers back |
| Text.ShowAllAppend | src/day2.rs:43-44 | the decimal forms of a concatenation are the concatenated forms |
| Text.JoinAvoids | src/day2.rs:42 | a joined string contains no character that the separator and the pieces avoid |

## Left out

- The file reading, `env::args`, `BufReader` and all `dbg!` output are I/O. This includes the standalone day-2 binary printing its answer and `iterations`, and the day-3 binary printing the closest coordinate and its distance. What those prints show is modelled as return values.
- `main` in `day_1/src/main.rs` parses lines as `BufReader::lines` does. It is modelled by `Text.Lines` and `Text.ParseAll`, the same functions `Day1.InputGenerator` uses.
- `src/lib.rs` and the `#[aoc]` / `#[aoc_generator]` registration are plumbing for a foreign crate and are not part of this model.
- `day_1/src/lib.rs` is the same code as `src/day1.rs`, so `Day1` models both. `day_2/src/lib.rs` has the same `Opcode::from` as `src/day2.rs`, and its `parse_input` is the same chain as `input_generator`; `Intcode.Decode` and `Intcode.ParseProgram` model both.
- `Day1.Mass.RequiredFuel`: the `f32` division is modelled only for masses below 2^24. There the conversion `m as f32` is exact, and the quotient, although rounded to the nearest `f32`, still truncates to `m div 3`. Members over several masses require `Moderate`, the same bound for every mass, and are weaker in the same way. Float rounding above that bound is not modelled.
- `Day2.SolvePart2`: the inner loop over verbs is a method of its own, `Day2.SearchVerbs`; its early return stands for `break 'outer`.
- `usize` and `isize` overflow is not modelled. This covers the Intcode add and multiply, the fuel sums, the step counter and the coordinate arithmetic. Memory cells and values are unbounded `nat` and `int`, and the parsers still reject out-of-range tokens.
- `Day3.SolvePart1`: `HashMap` iteration order and the tie-break of `min_by` are not modelled. Only the least value is specified, not which coordinate is picked. It is a ghost function because it picks a minimum from a set.
- `Day3.SolvePart2`: for the same reason, it is specified by its least value only and is ghost.
- `Day3.ManhattanDistance`: the `usize::try_from(..).unwrap()` cannot fail on unbounded integers, so the model has no error for it.
- The `Display` impls and the unused `ParseOpcodeError` are not modelled. The `nums` copy in `solve_part2` is never read, so it is left out too.
- The day-3 binary uses a tuple for its coordinate. The crate uses a `Coord` struct. Both are modelled as `Day3.Coord`.
- `Day3.TrimStart`: `str::trim` removes Unicode `White_Space` characters. `Day3.IsWhitespace` lists that property's code points.
- `Day3Example.Example`: the example is stated over the wires' parsed moves. The text `R8,U5,L5,D3\nU7,R6,D4,L4` is not parsed in the proof.
- `Day3.ParsePath`: `split_at(1)` also panics when the first character takes more than one byte. The model gives `None` for every first character of code point 128 or more.
