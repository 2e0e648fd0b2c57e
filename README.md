# Advent of Code 2023 solvers, modelled in Dafny

This project models the puzzle solvers of the repository: one binary per day,
`src/bin/NN.rs`, each exposing `part_one` and `part_two` over the puzzle's input text.
Each day is one Dafny module named `DayNN`. A day's heavier pieces sit in sibling modules
(`Day08Congruences`, `Day10Pipes`, `Day14Rolls`, `Day22Bricks`, `Day23Map` and so on), and
the unit tests that build their input in the source are proved in a `DayNNExamples` module.
The shared modules are:

- `Wrappers`: `Option`, `Result` and a `Fuelled` outcome.
- `Text`: the parts of Rust's `str` API the solvers use, and the integer parsers.
- `Divisibility`: divisibility, Euclid's gcd and powers of two.
- `Sorting`: `sort_unstable` stated by what it guarantees.
- `GridText`: reading a square grid from text.
- `Bits`: bit masks as natural numbers.
- `Iteration`: repeated application of a step.

Each source file is modelled in its own form:

- Code made of expressions, iterator chains and recursion becomes functions and lemmas.
- Loops that update variables become methods with loop invariants. Each method is proved
  against a specification function.
- Objects whose methods update their fields become classes with `modifies` clauses.
  Examples are the energisation tracker of day 16, the visit tracker of day 17, the pulse
  state of day 20 and the graph builder of day 25.
- Fixed-size grids that the source mutates in place stay arrays.

Most parts' results are tied to an independent statement of the puzzle. For example:

- the shoelace area of the lagoon,
- the set of beams reachable in the contraption,
- the least heat loss over every journey of the crucible,
- the longest simple walk of the hike.

Where verifying the source showed it to be wrong (see "## Findings"), the as-written code
is modelled and its flaw exhibited, and the parts are built on the corrected definition;
"## Left out" names every member stated on a corrected definition.

The functions that restate a source function without an `ensures` of their own (`Day01.Total`,
`Day02.PossibleIdSum`, `Day02.PartOne`, `Day02.PartTwo`, `Day09.PartOne`,
`Day12.LineArrangements`, `Day13.TotalMirrorValue`, `Day15.ParseStep`,
`Day20.ParsedSystem` and the like) are the definitions that the members of the
table are about: each row's source cell names the lines that its member and the
definitions in its contract model.

Partner lemmas give round trips for the parsers of text lines (games, cards, almanac entries,
hands, nodes, sequences, instructions, workflows, parts, modules, bricks, hailstones and
wires). The grid readers of days 3, 10, 11, 13, 14, 16, 17, 21 and 23 are stated cell by cell
instead: each cell holds what its character stands for. Invariants and laws are given for
every update. Day 20's part two is stated as the source computes it, the lcm of the presses
at which the inputs of the conjunction feeding `rx` first receive a Low pulse; that this is
the fewest presses before `rx` receives a Low pulse is not proved.

Rust's integer types become unbounded integers. Where a width matters to the result,
the model writes it out: `u32` wrap-around of a shift, `u64` mask widths, `i64` bounds
and parser ranges.

Day 6 (`src/bin/06.rs`) is not part of this model.

## Model

| member | source | states |
|---|---|---|
| Day01.DigitAt | src/bin/01.rs:12-32 | a decimal character is a digit of its own value, not a word; otherwise a digit exists only as a spelled-out name, and every value is below 10 |
| Day01.DigitAtWords | src/bin/01.rs:18-31 | no digit exactly when the position holds no decimal character and no name is spelled out there; a name found is the lowest-numbered name spelled out there |
| Day01.FirstWordFrom | src/bin/01.rs:20-29 | the name found is spelled out at the position and fits in the line, and no earlier name is; none found means no name fits there |
| Day01.SkipWord | src/bin/01.rs:21-23 | a name that runs past the end of the line, or differs from it at one character, is passed over |
| Day01.MatchWord | src/bin/01.rs:25-27 | the first name spelled out at the position stops the search with its index |
| Day01.ParseDigit | src/bin/01.rs:12-32 | the search loop with its early exit returns exactly the digit DigitAt defines |
| Day01.DigitsInLine | src/bin/01.rs:34-44 | the loop pushes the digit of every position that has one, in order of position |
| Day01.KeptFilters | src/bin/01.rs:50-51 | the digits that count are exactly those found in the line that are decimal characters or, with words, any |
| Day01.FirstAndLast | src/bin/01.rs:47-62 | the loop keeping `first` and `latest` yields ten times the first counted digit plus the last, or 0 |
| Day01.CalibrationValue | src/bin/01.rs:46-63 | the method computes the calibration value of the line |
| Day01.CalibrationRange | src/bin/01.rs:59-61 | a calibration value is at most 99, and 0 when no digit counts |
| Day01.WordsIgnored | src/bin/01.rs:51 | without words, a line with no decimal character has value 0 even if names are spelled out in it |
| Day01.CountedWithoutWords | src/bin/01.rs:51 | without words, a position counts exactly when it holds a decimal character |
| Day01.NoneCountedInMeans | src/bin/01.rs:50-57 | no position in a range counts exactly when every position in it fails to count |
| Day01.FirstStaysFirst | src/bin/01.rs:53-55 | `first` is set once: later positions never change the first digit kept |
| Day01.LastCounted | src/bin/01.rs:52 | `latest` ends as the digit at the last position that counts |
| Day01.CalibrationFromEnds | src/bin/01.rs:46-63 | the value is ten times the digit at the first counting position plus the digit at the last one |
| Day01.DecimalEnds | src/bin/01.rs:46-63 | without words, the value is read off the first and last decimal characters |
| Day01.TotalBound | src/bin/01.rs:65-73 | the sum over the lines is at most 99 per line |
| Day01.PartOne | src/bin/01.rs:66-68 | part_one sums the calibration values read from decimal digits only, at most 99 per line |
| Day01.PartTwo | src/bin/01.rs:71-73 | part_two sums the calibration values read from digits and spelled-out names, at most 99 per line |
| Day01Examples.TrebuchetExample | src/bin/01.rs:84 | "treb7uchet" without words has value 77 |
| Day01Examples.OneAbcTwoExample | src/bin/01.rs:81 | "1abc2" without words has value 12 |
| Day01Examples.PqrExample | src/bin/01.rs:82 | "pqr3stu8vwx" without words has value 38 |
| Day01Examples.AlternatingExample | src/bin/01.rs:83 | "a1b2c3d4e5f" without words has value 15 |
| Day01Examples.TwoOneNineExample | src/bin/01.rs:95 | "two1nine" with words has value 29 |
| Day01Examples.EightTwoThreeExample | src/bin/01.rs:96 | "eighttwothree" with words has value 83: overlapping names each count |
| Day01Examples.FourNineExample | src/bin/01.rs:97 | "4nineeightseven2" with words has value 42 |
| Day01Examples.ZoneEightExample | src/bin/01.rs:98 | "zoneight234" with words has value 14 |
| Day02.Maximums | src/bin/02.rs:25-38 | every draw fits within the maximums, and a game without draws has maximums (0, 0, 0) |
| Day02.MaximumsLeast | src/bin/02.rs:25-38 | any bag that every draw fits into also holds the maximums, so they are the least such draw |
| Day02.PossibleIff | src/bin/02.rs:40-43 | a game is possible exactly when every one of its draws fits in the bag |
| Day02.PowerIsMinimal | src/bin/02.rs:13-47 | the maximums make the game possible, and every bag that does has at least the game's power |
| Day02.ColourItem | src/bin/02.rs:62-72 | a parsed item's quantity is a u32 |
| Day02.ItemRoundTrip | src/bin/02.rs:62-69 | "<n> <colour>" reads back as that colour and quantity |
| Day02.AssignedCounts | src/bin/02.rs:57-67 | a colour no item names stays 0, and the last item naming a colour sets it |
| Day02.ParseDraw | src/bin/02.rs:56-76 | the loop over the ", " items returns the draw they assign, or an error as soon as one item fails |
| Day02.SingleItem | src/bin/02.rs:57-67 | a draw naming one colour has 0 of the other two |
| Day02.DrawRoundTrip | src/bin/02.rs:56-76 | a draw written out with all three colours reads back as itself |
| Day02.JoinedItems | src/bin/02.rs:61-75 | items joined with ", " parse to the draw the items assign |
| Day02.ParseGame | src/bin/02.rs:82-100 | the parser returns the game with the id after "Game " and the draws in input order, or an error when the head or any draw is malformed |
| Day02.GameDraws | src/bin/02.rs:88-91 | draw i of a parsed game is the parse of the i-th "; " piece |
| Day02.HeadParsed | src/bin/02.rs:83-99 | after a well-formed "Game <id>: " head, the game parses exactly when all its draws do |
| Day02.FirstDrawFails | src/bin/02.rs:88-90 | a draw that fails makes the whole game fail |
| Day02.GameRoundTrip | src/bin/02.rs:82-100 | a game with at least one draw, written out, reads back as itself |
| Day02.DrawsRoundTrip | src/bin/02.rs:88-91 | draws joined with "; " read back as the same draws |
| Day02.HeadRoundTrip | src/bin/02.rs:83-93 | "Game <id>: " followed by draws that parse gives that game |
| Day02.PossibleIdSumMonotone | src/bin/02.rs:104-126 | a larger bag never lowers the sum of possible game ids |
| Day02.EmptyBag | src/bin/02.rs:104-126 | with an empty bag, only games whose draws are all empty count |
| Day02.PowerSumBound | src/bin/02.rs:129-139 | if every game is possible for a bag, the power sum is at most that bag's power per line |
| Day02Examples.MaximumsExample | src/bin/02.rs:232-261 | maximums of (4,0,0), (5,2,0), (0,1,0) are (5,2,0) |
| Day02Examples.PossibleExamples | src/bin/02.rs:264-314 | game 1 is possible for the bag (12,13,14) and game 3 is not |
| Day02Examples.PowerExamples | src/bin/02.rs:323-367 | the powers of games 1 and 3 are 48 and 1560 |
| Day02Examples.SingleColourExample | src/bin/02.rs:155-162 | "17 green" parses as (0,17,0) |
| Day02Examples.TwoColourExample | src/bin/02.rs:147-154 | "3 blue, 4 red" parses as (4,0,3) |
| Day02Examples.ThreeColourExample | src/bin/02.rs:163-170 | "1 red, 2 green, 5 blue" parses as (1,2,5) |
| Day02Examples.GameErrorExample | src/bin/02.rs:174-179 | the game with the misspelt colour "blu" is a parse error |
| Day03.AdjacentPoints | src/bin/03.rs:16-28 | the set built is exactly the ring of cells around the written-out number, and it holds 2k+6 cells for a k-digit number |
| Day03.RingAvoidsNumber | src/bin/03.rs:19-26 | no cell of the ring is taken by the number itself |
| Day03.RunEnd | src/bin/03.rs:66-78 | the run from a digit extends over digits only and stops at a non-digit or the end of the row |
| Day03.RunEndAt | src/bin/03.rs:66-78 | a stretch of digits followed by a non-digit or the end of the row is the whole run |
| Day03.RowSymbolsIff | src/bin/03.rs:79-81 | a row's symbols are exactly its characters other than digits and '.', at their 1-based columns and with their character |
| Day03.ContinueRun | src/bin/03.rs:67-68 | a digit inside a run multiplies the accumulated value by ten and adds the digit, starting no new part |
| Day03.BeginRun | src/bin/03.rs:69-72 | a digit after a non-digit starts a new part at its column with its own value |
| Day03.NoRun | src/bin/03.rs:73 | a non-digit starts no part |
| Day03.EndRun | src/bin/03.rs:74-87 | a run closed by a non-digit or the end of the row is recorded with the decimal value of its digits |
| Day03.ScanCharacter | src/bin/03.rs:64-83 | one character keeps the scan state in step with the parts of the row read so far |
| Day03.ParseRow | src/bin/03.rs:61-87 | one row's scan records exactly the runs of the row as parts and its symbols |
| Day03.RowPartsAreRuns | src/bin/03.rs:66-87 | every part of a row is a maximal run starting at its 1-based column, with the value of its digits |
| Day03.RunsArePartsOfRow | src/bin/03.rs:66-87 | every maximal run of the row is recorded as a part |
| Day03.SymbolsOfIff | src/bin/03.rs:59-83 | the schematic's symbols are exactly the text's characters other than digits and '.', keyed by 1-based positions |
| Day03.ParseSchematic | src/bin/03.rs:55-91 | the parsed parts and symbols are those of the rows numbered from 1 |
| Day03.PartsAreRuns | src/bin/03.rs:59-88 | every parsed part is a maximal run of digits with its decimal value at 1-based coordinates |
| Day03.RunsAreParts | src/bin/03.rs:59-88 | every maximal run of digits in the text is a parsed part |
| Day03.PartNumbers | src/bin/03.rs:38-46 | the numbers reported are those of the parts that have a symbol in their ring |
| Day03.NumbersNearSymbolsIff | src/bin/03.rs:38-46 | a number is reported exactly when some part with that number has a symbol around it |
| Day03.ParsedPositioned | src/bin/03.rs:60-65 | parsed coordinates are at least 1, so the ring never needs a negative coordinate |
| Day03.NumbersAgree | src/bin/03.rs:40 | looking symbols up in the parsed map agrees with looking at the text |
| Day03.PartOne | src/bin/03.rs:95-101 | part one is the sum of the numbers of the text's parts that have a symbol of the text around them |
| Day03Examples.SingleDigitRing | src/bin/03.rs:152-165 | a one-digit part at (1,1) has 8 ring cells, the eight listed |
| Day03Examples.ThreeDigitRing | src/bin/03.rs:167-184 | a three-digit part at (1,1) has 12 ring cells, the twelve listed |
| Day03Examples.PartNumbersExample | src/bin/03.rs:186-191 | of the ten example parts, the eight next to a symbol are reported |
| Day03Examples.PartNumbersSumExample | src/bin/03.rs:190 | those eight numbers sum to 4361 |
| Day04.Doubled | src/bin/04.rs:22 | the doubled score stays within 32 bits |
| Day04.Matches | src/bin/04.rs:14-15 | at most one match per held number |
| Day04.MatchesZero | src/bin/04.rs:14-17 | no match exactly when no held number is a winner |
| Day04.ScoreCycle | src/bin/04.rs:13-25 | the score is 2^(m-1) for m matches counted modulo 33, and 0 for m ≡ 0, because the shift drops the point after 32 doublings |
| Day04.DoubledPower | src/bin/04.rs:22 | doubling 2^(k-1) in 32 bits gives 2^k below k = 32 and 0 at k = 32 |
| Day04.ScoreDoubles | src/bin/04.rs:13-25 | up to 32 matches the score is 2^(m-1), and 0 without a match |
| Day04.NoWinnersScoreZero | src/bin/04.rs:13-25 | a card with no winning number scores 0 |
| Day04.ScoreBound | src/bin/04.rs:13-25 | a score never exceeds 2^31 |
| Day04.U32Of | src/bin/04.rs:35 | a parsed number fits in 32 bits |
| Day04.ParseNumberList | src/bin/04.rs:31-40 | the loop returns the list of the whitespace-separated words' values, or the error of the first word that is not a `u32` |
| Day04.NumbersRoundTrip | src/bin/04.rs:31-40 | `u32` values written with single spaces parse back to the same list |
| Day04.ParseCard | src/bin/04.rs:45-70 | the method's result is the card parsed from the line, or the parse error |
| Day04.CardHeader | src/bin/04.rs:46-54 | "Card", any padding, the number and ": " give that card number whatever the padding |
| Day04.HeaderSplit | src/bin/04.rs:46-47 | a header without a colon is split at ": " and its prefix stripped |
| Day04.NumbersTextShape | src/bin/04.rs:56 | written-out winners hold no vertical bar and do not end in a space, so the " vertical bar " separator splits there |
| Day04.CardRoundTrip | src/bin/04.rs:45-70 | a card written out as "Card n: winners", a vertical bar, then its numbers parses back to the same card |
| Day04.TotalScoreBound | src/bin/04.rs:74-82 | the total is at most 2^31 per line |
| Day04.PartOne | src/bin/04.rs:74-82 | part_one totals the scores of the lines that parse as cards, at most 2^31 per line |
| Day04Examples.CardOneScore | src/bin/04.rs:119-124 | card 1 with four winners scores 8 |
| Day04Examples.CardThreeScore | src/bin/04.rs:126-131 | card 3 with two winners scores 2 |
| Day04Examples.CardSixScore | src/bin/04.rs:133-138 | card 6 with no winner scores 0 |
| Day05.EntryImage | src/bin/05.rs:14-20 | an entry converts exactly the values of its source interval, onto its destination interval at the same offset |
| Day05.MapConvertFirst | src/bin/05.rs:33-43 | the first entry covering a value decides its conversion |
| Day05.MapConvertIdentity | src/bin/05.rs:33-43 | a value no entry covers is left unchanged |
| Day05.MapConvertShift | src/bin/05.rs:33-43 | two values covered by the same entries are converted by the same shift |
| Day05.SeedToSoilExample | src/bin/05.rs:340-357 | the example's seed-to-soil map takes 79, 14, 55, 13 to 81, 14, 57, 13 |
| Day05.LocationCompose | src/bin/05.rs:88-90 | applying a chain of maps is applying its first part and then its second |
| Day05.Ascending | src/bin/05.rs:69 | iterating the `BTreeSet` gives its members below the bound in strictly ascending order |
| Day05.Cuts | src/bin/05.rs:49-63 | every cut point an entry adds lies within the range |
| Day05.CutPoints | src/bin/05.rs:46-64 | the cut points ascend, lie within the range, and end at the range's end |
| Day05.BoundaryIsCut | src/bin/05.rs:52-62 | an entry's start inside the range, or its end before the range's end, is a cut point |
| Day05.Pieces | src/bin/05.rs:66-75 | one piece per cut point |
| Day05.ConvertRange | src/bin/05.rs:45-78 | the method emits, for each cut in ascending order, the piece from the previous cut converted at its first value |
| Day05.CollectCuts | src/bin/05.rs:46-64 | the loop collects exactly the entries' cut points and the range's end |
| Day05.WalkCuts | src/bin/05.rs:66-77 | the loop emits one converted piece per cut, each from the previous cut |
| Day05.PiecesPrefixLength | src/bin/05.rs:66-75 | the first k pieces' lengths reach from the range's start to the cut before piece k |
| Day05.PiecesTotal | src/bin/05.rs:45-78 | the pieces' lengths add up to the range's length |
| Day05.SameCover | src/bin/05.rs:45-78 | no entry boundary falls inside a piece, so all its values are covered by the same entries |
| Day05.PieceShift | src/bin/05.rs:45-78 | each value of the range converts to the start of its piece plus its offset in the piece |
| Day05.CutShift | src/bin/05.rs:45-78 | inside a piece conversion is a shift by the offset from the piece's first value |
| Day05.SeedRanges | src/bin/05.rs:92-97 | the seeds read in pairs give half as many ranges |
| Day05.SeedRangesFlatten | src/bin/05.rs:92-97 | the ranges flattened back give the seeds: nothing is lost or reordered |
| Day05.Minimum | src/bin/05.rs:189-209 | `None` exactly for no values; otherwise a member that is no larger than any value |
| Day05.LowestLocation | src/bin/05.rs:183-193 | `None` exactly without seeds; otherwise the location of some seed and no larger than any seed's location |
| Day05.PartOne | src/bin/05.rs:183-193 | part_one is None exactly when the almanac does not parse or lists no seeds; otherwise the location of some seed, no larger than any seed's location |
| Day05.ConvertAll | src/bin/05.rs:202-206 | the inner loop collects the pieces of every current range in order |
| Day05.LowestLocationOfRanges | src/bin/05.rs:196-209 | the method returns the least start of the ranges after all maps |
| Day05.RangeCovered | src/bin/05.rs:45-78 | every value of a range converts to a value inside one of its pieces |
| Day05.ThroughCovered | src/bin/05.rs:198-207 | every seed of every seed range reaches, through all maps, a value inside a final range |
| Day05.PieceOrigin | src/bin/05.rs:45-78 | every value a piece covers is the conversion of a value of its range |
| Day05.ThroughOrigin | src/bin/05.rs:198-207 | every value a final range covers is the location of a value some seed range covers |
| Day05.StageEmpty | src/bin/05.rs:202-204 | each range gives at least one piece, so pieces remain exactly when ranges were given |
| Day05.ThroughEmpty | src/bin/05.rs:201-207 | final ranges remain exactly when seed ranges were given |
| Day05.LowestLocationOfRangesBelow | src/bin/05.rs:196-209 | part two's answer is no higher than the location of any seed in any seed range |
| Day05.LowestLocationOfRangesAttained | src/bin/05.rs:196-209 | part two's answer exists exactly when there are seeds, and is the location of a seed of some seed range (or an empty range's start) |
| Day05.U64Of | src/bin/05.rs:113 | a parsed value fits in 64 bits |
| Day05.ParseEntry | src/bin/05.rs:152-179 | the loop gives the entry of exactly three `u64` words, and an error for a fourth word, a missing word or a bad one |
| Day05.EntryRoundTrip | src/bin/05.rs:152-179 | an entry written out with single spaces parses back to itself |
| Day05.ParseMap | src/bin/05.rs:133-146 | the loop skips the header line and parses every later line as an entry, failing on the first bad one |
| Day05.ParseSeeds | src/bin/05.rs:111-119 | the seeds after "seeds: " are parsed in order, an error without the prefix or on a bad number |
| Day05.ParseAlmanac | src/bin/05.rs:106-127 | the first blank-line-separated section gives the seeds and each later one a map |
| Day05.PartTwo | src/bin/05.rs:196-213 | `None` when the almanac does not parse, otherwise the least start of the ranges after all maps |
| Day05Examples.SeedSeventyNine | src/bin/05.rs:360-362 | seed 79 is at location 82 in the example almanac |
| Day05Examples.SeedFourteen | src/bin/05.rs:360-363 | seed 14 is at location 43 |
| Day05Examples.SeedFiftyFive | src/bin/05.rs:360-364 | seed 55 is at location 86 |
| Day05Examples.SeedThirteen | src/bin/05.rs:360-365 | seed 13 is at location 35 |
| Day05Examples.LowestLocationExample | src/bin/05.rs:368-372 | the example's lowest location is 35 |
| Day05Examples.SeedRangesExample | src/bin/05.rs:400-416 | the example's seeds read in pairs are (79, 14) and (55, 13) |
| Day05Examples.ConvertRangeExample | src/bin/05.rs:374-398 | seeds 50 to 54 convert as one piece to soil 52 to 56 |
| Day07.Strength | src/bin/07.rs:5-14 | the position of a hand type in the declaration, the highest being 6 |
| Day07.Occurrences | src/bin/07.rs:19-25 | the count of a card is its multiplicity in the hand |
| Day07.Matches | src/bin/07.rs:18-25 | each card's count is the number of cards of the hand equal to it |
| Day07.FromCards | src/bin/07.rs:17-37 | the method's type is the classification of the sorted match counts |
| Day07.CountMatches | src/bin/07.rs:18-25 | the nested loops leave each slot holding its card's multiplicity |
| Day07.TypeOfPermutation | src/bin/07.rs:17-37 | two hands holding the same cards in any order have the same type |
| Day07.FiveEqual | src/bin/07.rs:29 | five equal cards make five of a kind |
| Day07.TypeFromCounts | src/bin/07.rs:27-36 | a hand whose counts sort to a given sequence has the type that sequence classifies as |
| Day07.LexLessAsymmetric | src/bin/07.rs:40-45 | the derived order on card arrays is asymmetric |
| Day07.LexLessTransitive | src/bin/07.rs:40-45 | the derived order on card arrays is transitive |
| Day07.LexLessTotal | src/bin/07.rs:40-45 | any two distinct card arrays are ordered one way or the other |
| Day07.HandLessAsymmetric | src/bin/07.rs:40-45 | the derived order on hands is asymmetric |
| Day07.HandLessTransitive | src/bin/07.rs:40-45 | the derived order on hands is transitive |
| Day07.HandLessTotal | src/bin/07.rs:40-45 | any two distinct hands are ordered one way or the other |
| Day07.HandOrder | src/bin/07.rs:40-45 | the derived ordering of hands is total, so `sort_unstable` has one result |
| Day07.CardValue | src/bin/07.rs:65-80 | a character has a value exactly when it is a card, the value lies in 2..14 and writes back as the same character |
| Day07.CardCharRoundTrip | src/bin/07.rs:65-80 | every value 2..14 is read back from its character |
| Day07.CardsOf | src/bin/07.rs:60-82 | a card string is read to the values of each of its characters, or fails at a character that is not a card |
| Day07.HandOf | src/bin/07.rs:53-95 | every parsed hand has five cards of value 2..14, a `u32` bid and the type its cards give |
| Day07.ParseHand | src/bin/07.rs:53-95 | the method gives the hand of the line, or the error for a missing space, a card count other than five, a bad card or a bad bid |
| Day07.ReadCards | src/bin/07.rs:59-82 | the loop writing into the five-slot array reads the cards exactly as CardsOf does |
| Day07.HandRoundTrip | src/bin/07.rs:53-95 | a valid hand written as its cards, a space and its bid parses back to itself |
| Day07.ReadHands | src/bin/07.rs:98-105 | the loop parses every line in order, failing at the first bad one |
| Day07.PartOne | src/bin/07.rs:108-121 | `None` exactly when some line does not parse; otherwise the winnings of the hands in sorted order |
| Day07.WinningsOrderFree | src/bin/07.rs:108-121 | the winnings do not depend on the order of the input lines |
| Day07Examples.OnePairExample | src/bin/07.rs:134-138 | "32T3K" is one pair |
| Day07Examples.ThreeOfAKindExample | src/bin/07.rs:139-143 | "T55J5" is three of a kind |
| Day07Examples.TwoPairExample | src/bin/07.rs:144-148 | "KK677" is two pair |
| Day07Examples.SortExample | src/bin/07.rs:198-237 | sorting the five example hands gives the order of the test, and the winnings come to 6440 |
| Day08.Move | src/bin/08.rs:64-73 | one move from a node: present exactly when the node is a fork and there are directions, and then it is the fork's left or right exit |
| Day08.WalkNext | src/bin/08.rs:111-123 | the walk's next position is one move from its current one, with the direction at the move count modulo the number of directions |
| Day08.WalkStaysStopped | src/bin/08.rs:72 | a walk that has stopped at a dead end stays stopped |
| Day08.WalkRepeats | src/bin/08.rs:56-92 | a walk that is on the same node at move counts a < b, b - a a whole number of passes through the directions, repeats itself from there on |
| Day08.WalkCycles | src/bin/08.rs:56-92 | such a walk returns to the node at a after every further b - a moves |
| Day08.ReachOutcomeUnique | src/bin/08.rs:107-126 | the outcome of steps_to_reach is determined by the walk |
| Day08.StepsToReach | src/bin/08.rs:107-126 | steps_to_reach: the least move count at which the walk stands on the target, None when it stops at a dead end first, out of fuel when the budget runs out |
| Day08.ZVisitsSpec | src/bin/08.rs:74-84 | the list of Z visits holds exactly the move counts up to n that land on a node ending in Z, increasing |
| Day08.ZVisitsPrefix | src/bin/08.rs:74-84 | visits found within n moves are the first ones found within m >= n moves |
| Day08.ZVisitsNext | src/bin/08.rs:74-85 | one more move adds its count to the visits exactly when it lands on a Z node |
| Day08.CloseLoop | src/bin/08.rs:75-91 | the second visit to the same Z node closes the loop: the cycle is positive and the congruence is (initial + 1) mod cycle |
| Day08.GiveUpOutcome | src/bin/08.rs:75-78 | reaching a different Z node on the second visit gives None |
| Day08.FindAToZLoop | src/bin/08.rs:56-92 | find_a_to_z_loop: the congruence from the first two Z visits when they are on the same node, None on a dead end or a different Z node, out of fuel otherwise |
| Day08.LoopOutcomeUnique | src/bin/08.rs:56-92 | the outcome of find_a_to_z_loop is determined by the walk |
| Day08.LoopOutcomesExclusive | src/bin/08.rs:75-78 | giving up excludes every other outcome |
| Day08.GiveUpExcludes | src/bin/08.rs:75-78 | a walk that gives up has visited two different Z nodes, the second at the move where it gives up |
| Day08.LoopRepeats | src/bin/08.rs:56-92 | what the congruence means: when the cycle is a whole number of passes through the directions, the walk is back on the first Z node at every move count congruent to value modulo modulo from the first visit on |
| Day08.Present | src/bin/08.rs:97-104 | filter_map keeps exactly the present values |
| Day08.LoopsPositive | src/bin/08.rs:94-105 | every loop found has a positive modulus |
| Day08.FindAToZLoops | src/bin/08.rs:94-105 | find_a_to_z_loops: the loops of the keys ending in A, each key once in some order, keeping the ones found |
| Day08.ParseDirection | src/bin/08.rs:135-141 | Direction::try_from succeeds exactly on L and R and gives back the character |
| Day08.ParseDirections | src/bin/08.rs:150-153 | the directions parse exactly when every character is L or R, one direction per character |
| Day08.DirectionsRoundTrip | src/bin/08.rs:150-153 | directions written out and parsed again come back unchanged |
| Day08.ParseNode | src/bin/08.rs:157-177 | a parsed node line is "key = (left, right)"; it is a dead end exactly when key and both exits agree |
| Day08.NodeRoundTrip | src/bin/08.rs:157-177 | a node line written out and parsed again gives the node back |
| Day08.MapOfKeys | src/bin/08.rs:155-180 | the node map holds exactly the keys of the lines |
| Day08.MapOfLastWins | src/bin/08.rs:179 | each key holds the node of its last line |
| Day08.ParseNetwork | src/bin/08.rs:147-186 | Network::try_from succeeds exactly when the input splits at a blank line, the directions parse and every node line parses |
| Day08.ParsedNodes | src/bin/08.rs:155-182 | the parsed network maps each key to the node of the last line with that key |
| Day08.PartOne | src/bin/08.rs:307-313 | part_one: None when the input does not parse, otherwise the outcome of the walk from AAA to ZZZ |
| Day08.PartTwo | src/bin/08.rs:316-324 | part_two: None when the input does not parse; otherwise the loops found, made pairwise coprime, and combined by the corrected Chinese remainder (see Findings), which solves every converted congruence when the product fits an isize |
| Day08Congruences.TruncRemNormalised | src/bin/08.rs:32 | (x % m + m) % m with Rust's truncating remainder is the Euclidean remainder |
| Day08Congruences.EuclidGcd | src/bin/08.rs:39-46 | euclid_gcd returns the gcd with Bézout coefficients |
| Day08Congruences.BezoutStep | src/bin/08.rs:43-44 | one step of the extended algorithm keeps the Bézout identity |
| Day08Congruences.IsizeOrOne | src/bin/08.rs:26-27 | try_into::<isize>().unwrap_or(1): the number when it fits an isize, 1 otherwise |
| Day08Congruences.MultiplicativeInverse | src/bin/08.rs:25-37 | multiplicative_inverse is present exactly when value and modulo are coprime, and then it is below the modulus and inverts the value |
| Day08Congruences.InverseFromBezout | src/bin/08.rs:29-33 | from v·x + m·y = 1, x mod m inverts v modulo m |
| Day08Congruences.InverseUnique | src/bin/08.rs:25-37 | the inverse below the modulus is unique |
| Day08Congruences.InverseNeedsCoprime | src/bin/08.rs:30-31 | a common divisor of a number and a modulus it has an inverse for divides 1 |
| Day08Congruences.InverseExamples | src/bin/08.rs:372-413 | the inverses of the test: 3 mod 5 is 2, 11 mod 13 is 6, 11 mod 26 is 19, 35 mod 3 is 2, and 4 mod 2 has none |
| Day08Congruences.Product | src/bin/08.rs:283 | the product of positive moduli is positive |
| Day08Congruences.ProductSplit | src/bin/08.rs:283-289 | the product is one modulus times the product of the others |
| Day08Congruences.CoprimeProduct | src/bin/08.rs:289-292 | numbers each coprime to n have a product coprime to n, so every m / modulo has an inverse |
| Day08Congruences.ChineseRemainderAsWritten | src/bin/08.rs:282-304 | chinese_remainder_theorem as written: at most the product and congruent to the sum of the terms modulo the product |
| Day08Congruences.AsWrittenReturnsZero | src/bin/08.rs:299-303 | for the single congruence 3 mod 3 the source returns 0, not the least positive solution 3 |
| Day08Congruences.ChineseRemainder | src/bin/08.rs:282-304 | the corrected result lies in 1..=product |
| Day08Congruences.CrtSolves | src/bin/08.rs:282-304 | for pairwise coprime positive moduli, the result solves every congruence |
| Day08Congruences.CrtUnique | src/bin/08.rs:282-304 | it is the only solution in 1..=product, the least positive one |
| Day08Congruences.CrtExample | src/bin/08.rs:562-578 | 2 mod 3, 3 mod 5 and 2 mod 7 combine to 23 |
| Day08Primes.StruckComposite | src/bin/08.rs:192-197 | a number from 2 on is struck by the smaller sieve primes exactly when it is composite |
| Day08Primes.BuildPrimeSieve | src/bin/08.rs:189-201 | build_prime_sieve(max) has max entries; entry i is true exactly when i < 2 or i is prime |
| Day08Primes.StrikeMultiples | src/bin/08.rs:194-196 | striking the multiples of ix from ix·ix on leaves exactly the numbers not struck by any prime up to ix |
| Day08Primes.DivideOut | src/bin/08.rs:213-218 | the inner while: what remains is positive and no longer divisible by p, the power taken out is a power of p, and their product is the number |
| Day08Primes.DivideOutLoop | src/bin/08.rs:213-218 | the loop computes DivideOut |
| Day08Primes.PrimeFactorise | src/bin/08.rs:203-246 | prime_factorise, step by step, gives the factor list of Factorise |
| Day08Primes.FactoriseProduct | src/bin/08.rs:203-246 | the factors' moduli multiply back to the modulus, and every factor keeps the congruence's value |
| Day08Primes.FactorisePrimePowers | src/bin/08.rs:203-246 | with a correct sieve whose square exceeds the modulus, the factors are prime powers, one per prime, in increasing prime order |
| Day08Primes.MaxModulo | src/bin/08.rs:249 | the largest modulus, or 4 for no congruences |
| Day08Primes.SquareBoundUnique | src/bin/08.rs:250-264 | the least r with r·r above max is characterised by (r-1)² <= max < r² |
| Day08Primes.SquareRootBound | src/bin/08.rs:250-264 | the binary search returns the least r with r·r above max |
| Day08Primes.PrimeSieve | src/bin/08.rs:266 | the sieve is correct and has the requested length |
| Day08Primes.BestFactorByPrime | src/bin/08.rs:267-278 | the map filled from the factors of every congruence is the keep-the-larger fold over all of them (whose meaning BestKeepsLargest states) |
| Day08Primes.OfferFactors | src/bin/08.rs:269-278 | offering factors in turn gives the map of all factors offered so far |
| Day08Primes.BestKeepsLargest | src/bin/08.rs:270-277 | each prime's entry is one of its factors and no factor of that prime has a larger modulus |
| Day08Primes.PrimePowersCoprime | src/bin/08.rs:248-280 | powers of two distinct primes are coprime |
| Day08Primes.SieveCoversModuli | src/bin/08.rs:249-266 | every modulus is 1 or below the square of the sieve's length |
| Day08Primes.Values | src/bin/08.rs:279 | into_values lists each key's value once, in some order |
| Day08Primes.ConvertToCoprime | src/bin/08.rs:248-280 | convert_congruences_to_coprime lists the values of the best-factor map |
| Day08Primes.ConvertedCoprime | src/bin/08.rs:248-280 | the converted congruences have positive, pairwise coprime moduli, each a power of its prime key |
| Day08Examples.ExampleStepsToReach | src/bin/08.rs:349-352 | on the example network the walk from AAA reaches ZZZ after 3 moves |
| Day08Examples.ExampleLoopFromAAA | src/bin/08.rs:355-369 | from AAA the loop is 1 modulo 2 |
| Day08Examples.ExampleLoopFromGOA | src/bin/08.rs:355-369 | from GOA the loop is 0 modulo 3 |
| Day08Examples.ExampleStarts | src/bin/08.rs:355-369 | the example keys ending in A are AAA and GOA |
| Day08Examples.ExampleLoops | src/bin/08.rs:355-369 | the example's loops are exactly 1 mod 2 and 0 mod 3, in either order |
| Day08Examples.ExamplePartTwo | src/bin/08.rs:581-584 | converting the example's loops and combining them gives 3 |
| Day09.Differences | src/bin/09.rs:13-19 | differences has one entry fewer than a non-empty sequence (none for an empty one), entry i being reading i+1 minus reading i |
| Day09.IntegrateAt | src/bin/09.rs:13-19 | reading k of the sequence rebuilt from a first reading and steps is the first reading plus the first k steps |
| Day09.DifferencesAre | src/bin/09.rs:13-19 | any sequence of the right length whose entries are the steps is the differences |
| Day09.DifferencesRoundTrip | src/bin/09.rs:13-19 | differences lose only the first reading: rebuilding from it gives the sequence back, and the differences of a rebuilt sequence are its steps |
| Day09.Telescope | src/bin/09.rs:13-19 | the first k differences sum to reading k minus reading 0 |
| Day09.NotConstantIsLong | src/bin/09.rs:23-35 | a sequence that is not constant has at least two readings and longer than its differences, so the recursion ends |
| Day09.ConstantDifferences | src/bin/09.rs:21-37 | a constant sequence has all-zero differences, whose next and previous items are 0 |
| Day09.NextItemStep | src/bin/09.rs:21-37 | for every non-empty sequence, constant or not, next = last + next of the differences and prev = first - prev of the differences |
| Day09.ExtrapolationByTable | src/bin/09.rs:21-37 | next_item is the sum of the last entries of the rows of the difference table, prev_item the alternating sum of their first entries |
| Day09.NextItemExtends | src/bin/09.rs:21-28 | appending the next item appends the next item of the differences to the differences |
| Day09.AppendDifferences | src/bin/09.rs:13-19 | appending a reading appends its step from the last one to the differences |
| Day09.PrevItemExtends | src/bin/09.rs:30-37 | prepending the previous item prepends the previous item of the differences to the differences |
| Day09.PrependDifferences | src/bin/09.rs:13-19 | prepending a reading prepends its step to the first one |
| Day09.NegateDifferences | src/bin/09.rs:13-19 | the differences of the negated readings are the negated differences |
| Day09.ReverseDifferences | src/bin/09.rs:13-19 | the differences of the reversed readings are the reversed differences, negated |
| Day09.NextItemNegate | src/bin/09.rs:21-28 | extrapolation commutes with negating every reading |
| Day09.PrevItemIsNextOfReverse | src/bin/09.rs:21-37 | extrapolating backwards is extrapolating the reversed readings forwards |
| Day09.ArithmeticDifferences | src/bin/09.rs:13-19 | the differences of an arithmetic sequence are constantly its step |
| Day09.ArithmeticNext | src/bin/09.rs:21-37 | an arithmetic sequence continues with one more step forwards and backwards |
| Day09.ParseReading | src/bin/09.rs:49 | a reading parses only as an i32 |
| Day09.ParseSequence | src/bin/09.rs:46-53 | one number per white-space separated word |
| Day09.FromStr | src/bin/09.rs:46-53 | Sequence::from_str's loop gives ParseSequence: every word parsed, or the error of the first that is not an i32 |
| Day09.SequenceRoundTrip | src/bin/09.rs:46-97 | i32 readings written out with single spaces parse back to themselves |
| Day09.PartTwoIsReversedPartOne | src/bin/09.rs:56-82 | part two's sum equals part one's sum taken over every line's readings reversed |
| Day09.PartTwo | src/bin/09.rs:71-82 | part_two, the sum of the previous items, is the sum of the next items of every line's readings reversed |
| Day09.UnparsedLineAddsNothing | src/bin/09.rs:61-79 | a line that does not parse counts as the empty sequence and adds 0 to both parts |
| Day09Examples.DifferencesExamples | src/bin/09.rs:105-111 | the differences of 0 3 6 9 12 15 and of 1 3 6 10 15 21 |
| Day09Examples.NextItemExamples | src/bin/09.rs:114-123 | the next items 18, 28 and 68 |
| Day09Examples.PrevItemExamples | src/bin/09.rs:132-138 | the previous items -3 and 5 |
| Day10Pipes.Traverse | src/bin/10.rs:27-35 | entering a pipe by one end leaves by the other; any other edge is closed |
| Day10Pipes.TraverseBack | src/bin/10.rs:27-35 | through a pipe and back returns to the starting edge, which differs from the far one |
| Day10Pipes.ReadFromChar | src/bin/10.rs:37-47 | exactly the six pipe characters (vertical bar, -, L, J, 7, F) are pipes, each joining two distinct edges |
| Day10Pipes.ReadFromCharInjective | src/bin/10.rs:37-47 | distinct pipe characters read as distinct pipes |
| Day10Pipes.EveryPipeHasChar | src/bin/10.rs:37-47 | every pair of distinct edges is the pipe of some character, in one order or the other |
| Day10Pipes.CrossEdge | src/bin/10.rs:58-81 | crossing an edge lands in another cell on the opposite edge with the same step count; North and South keep the column |
| Day10Pipes.CrossEdgeBack | src/bin/10.rs:58-81 | crossing an edge twice comes back |
| Day10Pipes.TraversePipe | src/bin/10.rs:83-89 | following the cell's pipe keeps the cell, adds one step and leaves by the pipe's other end |
| Day10Pipes.TraversePipeBack | src/bin/10.rs:83-89 | going through a pipe and back returns to the starting edge two steps later |
| Day10Pipes.MoveCrosses | src/bin/10.rs:101-117 | a move from a corner crosses a half-segment exactly when it stays inside the cell |
| Day10Pipes.MoveCrossesBack | src/bin/10.rs:101-117 | undoing a move inside a cell crosses the same half-segment |
| Day10Pipes.Moves | src/bin/10.rs:142-211 | the filter_map keeps exactly the moves that succeed |
| Day10Pipes.AdjacentPositions | src/bin/10.rs:127-212 | adjacent_positions, with the corrected west neighbour: every corner stays in the grid and in the same or a touching cell, and the list holds exactly the unblocked moves |
| Day10Pipes.MoveBack | src/bin/10.rs:127-212 | every move can be undone by the opposite move |
| Day10Pipes.AdjacentSymmetric | src/bin/10.rs:127-212 | adjacency is symmetric, given the pipe of each cell |
| Day10Pipes.FourMoves | src/bin/10.rs:142-211 | with no move blocked, the moves come in compass order |
| Day10Pipes.AsWrittenWestWraps | src/bin/10.rs:135-209 | as written, the top-left corner of the first cell of the second row moves west to the last cell of the first row, which does not touch it, and that move cannot be undone |
| Day10PipesExamples.ReadFromCharExamples | src/bin/10.rs:377-392 | '!' and '.' are no pipe; '-', the vertical bar and 'F' are the pipes of the test |
| Day10PipesExamples.TraverseExamples | src/bin/10.rs:395-407 | the eight traversals of the test |
| Day10PipesExamples.AdjacentTopLeftExample | src/bin/10.rs:453-471 | the top-left corner of cell (0,0) under an F reaches its top-right and bottom-left corners |
| Day10PipesExamples.AdjacentTopRightExample | src/bin/10.rs:473-495 | the top-right corner of cell (2,2) under a '-' reaches three corners, in the order of the test |
| Day10PipesExamples.AdjacentBottomRightExample | src/bin/10.rs:497-523 | the bottom-right corner of an empty cell (3,3) reaches four corners, in the order of the test |
| Day10.Empty | src/bin/10.rs:332-333 | the initial maze: no pipes, start at cell 0 |
| Day10.WriteLineAt | src/bin/10.rs:337-343 | a line writes the pipes of its characters into its own cells and no other |
| Day10.FromStr | src/bin/10.rs:331-347 | Maze::from_str's loops build the maze written line by line, never an error |
| Day10.ParsedCell | src/bin/10.rs:335-344 | in a grid-shaped input the cell at (row, col) holds the pipe of the character there, a cell no character covers holds nothing |
| Day10.ParsedStart | src/bin/10.rs:340-342 | the start is the cell of the last 'S' |
| Day10.LastS | src/bin/10.rs:340-342 | a line with an 'S' moves the start to its last 'S' |
| Day10.NoS | src/bin/10.rs:340-342 | a line without an 'S' leaves the start alone |
| Day10.PartOne | src/bin/10.rs:351-357 | part_one is the furthest point of the loop: the pipe count of the first meeting plus one, or None when every walker stops without meeting; a walker may leave the grid only after two walkers met |
| Day10.PartTwo | src/bin/10.rs:360-366 | part_two is the number of cells none of whose corners the flood reaches, under the corrected adjacency without the column-0 west wrap (see Findings) |
| Day10Maze.Cross | src/bin/10.rs:265 | crossing to the neighbouring cell, when it is in the grid |
| Day10Maze.WalkNext | src/bin/10.rs:263-271 | a walker moves on by the pipe of its cell and crosses the far edge |
| Day10Maze.WalkedBefore | src/bin/10.rs:263-271 | a walker still walking has been walking all along |
| Day10Maze.StaysEnded | src/bin/10.rs:264-265 | a walker that stopped stays stopped |
| Day10Maze.ExploredMeets | src/bin/10.rs:266-267 | reaching a cell already marked is the first meeting of two walkers |
| Day10Maze.ExploredAll | src/bin/10.rs:263-275 | when the queue runs empty, every walker has stopped and no two met |
| Day10Maze.SearchHolds | src/bin/10.rs:263-273 | every state of the breadth-first search keeps its invariant |
| Day10Maze.TakeTurn | src/bin/10.rs:263-273 | one pass of the loop body: an answer is the first meeting, otherwise the search runs on and a cell is marked or the queue shrinks |
| Day10Maze.StaysInGrid | src/bin/10.rs:263-270 | the walker at the head of the queue does not leave the grid while the search runs: an escape needs an earlier meeting, which would have ended the search |
| Day10Maze.FurthestPointInLoop | src/bin/10.rs:248-276 | furthest_point_in_loop returns one more than the pipe count of the first meeting of two walkers, at least 2, or None exactly when all walkers stop without meeting; walkers may leave the grid after a meeting at fewer pipes |
| Day10Enclosed.SetBit | src/bin/10.rs:229-239 | or-ing a corner bit sets it, keeps the other three, and clears one bit fewer on a first visit |
| Day10Enclosed.ZeroIffNoCorner | src/bin/10.rs:223-227 | a tracker byte is zero exactly when none of the four corners is set |
| Day10Enclosed.CornerVisitTracker.constructor | src/bin/10.rs:219-221 | a new tracker has no corner visited |
| Day10Enclosed.CornerVisitTracker.Visit | src/bin/10.rs:229-239 | visit marks the corner and returns whether it was marked before; no other corner changes |
| Day10Enclosed.CornerVisitTracker.CountUnvisited | src/bin/10.rs:223-227 | count_unvisited counts the cells with no corner visited |
| Day10Enclosed.ConnectsBackWalks | src/bin/10.rs:280-289 | an edge of the start connects exactly when a walker leaving by it goes on past the neighbour's pipe |
| Day10Enclosed.Connecting | src/bin/10.rs:280-289 | the filter keeps exactly the connecting edges |
| Day10Enclosed.ReplacementStartPipeConnects | src/bin/10.rs:278-297 | the replacement start pipe joins the first two connecting edges in compass order; there is none only when at most one edge connects |
| Day10Enclosed.Adjacent | src/bin/10.rs:312-317 | the flood moves to corners inside the grid, with the start cell read as its replacement pipe, under the corrected adjacency that gives column 0 no west neighbour |
| Day10Enclosed.ReachableStep | src/bin/10.rs:310-319 | one move from a reachable corner reaches a corner |
| Day10Enclosed.ClosedHoldsReachable | src/bin/10.rs:310-319 | a set that holds the origin and every move out of its corners holds every reachable corner |
| Day10Enclosed.FewerThanAllSealed | src/bin/10.rs:305-308 | the first cell is never enclosed: the flood starts at its top-left corner |
| Day10Enclosed.FloodStep | src/bin/10.rs:310-319 | popping a corner drops it when visited, otherwise marks it and queues its moves |
| Day10Enclosed.FloodDone | src/bin/10.rs:310-319 | when the queue runs empty the visited corners are exactly the reachable ones |
| Day10Enclosed.SpacesEnclosedByLoop | src/bin/10.rs:299-322 | spaces_enclosed_by_loop counts the cells none of whose corners is reachable from the top-left corner of cell 0, under the corrected adjacency |
| Day11.Span | src/bin/11.rs:26-42 | the cost of the rows or columns lo+1..=hi, each 1 or 2 for an empty one: between the plain count and twice it, and 0 for an empty range |
| Day11.GalacticSymmetric | src/bin/11.rs:15-45 | the distance does not depend on the order of the two stars |
| Day11.GalacticSelf | src/bin/11.rs:15-45 | a star is at distance 0 from itself |
| Day11.GalacticBounds | src/bin/11.rs:15-45 | expansion at most doubles a distance: the expanded distance lies between the plain Manhattan distance and twice it |
| Day11.SpanSplit | src/bin/11.rs:26-28 | the cost of a range is the sum of the costs of its two halves |
| Day11.AxisTriangle | src/bin/11.rs:16-29 | going through a third row or column never shortens the way along an axis |
| Day11.GalacticTriangle | src/bin/11.rs:15-45 | the expanded distance obeys the triangle inequality |
| Day11.DistancesTo | src/bin/11.rs:47-57 | the distances to one star added up are the distances from it |
| Day11.OrderedPairsFront | src/bin/11.rs:47-57 | the total over ordered pairs splits at the first star of the second list |
| Day11.TotalIsHalfOrdered | src/bin/11.rs:47-57 | twice the total over the pairs ix < jx is the total over all ordered pairs: each unordered pair counted once |
| Day11.ReadStars | src/bin/11.rs:71-79 | reading one more line appends its stars |
| Day11.ReadRowFlag | src/bin/11.rs:73-74 | a row has a star exactly when some line read so far put one there |
| Day11.ReadColFlag | src/bin/11.rs:73-75 | a column has a star exactly when some line's character in it is '#' |
| Day11.FromStr | src/bin/11.rs:66-86 | StarMap::from_str's loops build the parsed map, never an error |
| Day11.ReadLine | src/bin/11.rs:72-78 | the inner loop pushes the stars of one line in order and clears exactly the flags of rows and columns that have a star |
| Day11.RowStarsAre | src/bin/11.rs:72-77 | a star of a line is a '#' of that line, numbered row·140 + column |
| Day11.RowStarsOrdered | src/bin/11.rs:72-77 | the stars of a line lie in its row, in increasing order |
| Day11.StarsInAre | src/bin/11.rs:66-86 | the parsed stars are exactly the '#' characters of the input, as cells in reading order, inside the grid |
| Day11.ParsedValid | src/bin/11.rs:66-86 | the parsed map has one flag per row and per column, and its stars are in the grid |
| Day11.PartOne | src/bin/11.rs:90-96 | part_one is the total galactic distance over all pairs of stars of the parsed input |
| Day11Examples.ExampleStars | src/bin/11.rs:111-148 | the example map's stars are the nine cells of the test |
| Day11Examples.AxisByPrefix | src/bin/11.rs:16-43 | along one axis, the cost is the difference of the two prefix costs |
| Day11Examples.GalacticDistanceFirstExample | src/bin/11.rs:157-169 | stars 0 and 6 are 15 apart |
| Day11Examples.GalacticDistanceSecondExample | src/bin/11.rs:157-169 | stars 2 and 5 are 17 apart |
| Day11Examples.GalacticDistanceThirdExample | src/bin/11.rs:157-169 | stars 7 and 8 are 5 apart |
| Day11Examples.TotalExample | src/bin/11.rs:172-175 | the total over all pairs of the example map is 374, the answer of the part one test |
| Day12.ReplaceFirst | src/bin/12.rs:110-114 | replacen of one character keeps the length |
| Day12.ReplaceHead | src/bin/12.rs:108-118 | on a row starting with '?', replacen fills in that head, and the row has one unknown fewer |
| Day12.NoGroupsLeft | src/bin/12.rs:84-85 | with no group left, a row counts once when it holds no '#' and not at all otherwise |
| Day12.RowExhausted | src/bin/12.rs:86 | a row that runs out while a group remains counts 0 |
| Day12.GroupBroken | src/bin/12.rs:89-103 | a '.' inside an unfinished group, or a '#' that makes the group too long, counts 0 |
| Day12.GroupCompleted | src/bin/12.rs:90-96 | a '#' that completes the first group must end the row (counting once when no group is left) or be followed by a spring that is not '#', the rest then holding the later groups |
| Day12.GroupGrows | src/bin/12.rs:97-99 | a '#' that leaves the group unfinished lengthens the current run |
| Day12.UnknownSplits | src/bin/12.rs:108-118 | an unknown first spring is counted as '.' plus as '#' |
| Day12.MatchingDamaged | src/bin/12.rs:88-99 | in the reference count, a '#' in front lengthens the current run |
| Day12.MatchingOperational | src/bin/12.rs:101-107 | in the reference count, a '.' in front closes the current run, which must then be the first group |
| Day12.MatchingNoGroups | src/bin/12.rs:84-85 | without groups exactly one filling matches, all operational, unless the row already holds a '#' |
| Day12.GroupsTextDescribes | src/bin/12.rs:74-81 | groups written as the puzzle writes them are read back one by one by split_once(',') and parse |
| Day12.ArrangementsMatch | src/bin/12.rs:66-121 | the recursion counts the fillings of the row whose runs of '#' are the groups, after a run of collected '#' shorter than the first group |
| Day12.ArrangementsCount | src/bin/12.rs:45-121 | possible_arrangements is the number of ways to replace each '?' by '.' or '#' so that the runs of '#' are exactly the groups |
| Day12.FillsKnown | src/bin/12.rs:66-121 | a row without unknowns is its only filling |
| Day12.KnownRow | src/bin/12.rs:66-121 | a fully known row counts once when its runs are the groups and not at all otherwise |
| Day12.UnfoldText | src/bin/12.rs:27-37 | the push_str/push loop writes five copies joined by the separator |
| Day12.UnfoldSprings | src/bin/12.rs:27-37 | the unfolded row is a row of springs of length 5n+4 with 5u+4 unknowns |
| Day12.GroupsTextAppend | src/bin/12.rs:32-35 | joining two group texts with ',' writes the concatenated groups |
| Day12.UnfoldGroups | src/bin/12.rs:27-37 | the unfolded groups are the groups five times over |
| Day12.UnfoldedCount | src/bin/12.rs:25-43 | an unfolded row counts the fillings of five copies joined by '?' whose runs are the groups five times over |
| Day12.ArrangementCalculator.constructor | src/bin/12.rs:11-15 | a new calculator has an empty, consistent cache |
| Day12.ArrangementCalculator.PossibleArrangementsForSection | src/bin/12.rs:49-64 | the cached or freshly computed count is the recursive count, and no cached entry changes |
| Day12.ArrangementCalculator.CalculatePossibleArrangementsForSection | src/bin/12.rs:66-121 | the computation through the cache gives the recursive count, and no cached entry changes |
| Day12.ArrangementCalculator.PossibleArrangements | src/bin/12.rs:45-47 | the count of a row from no collected damage |
| Day12.ArrangementCalculator.PossibleArrangementsForLine | src/bin/12.rs:17-23 | the count of a line split at its first space, 0 when there is none |
| Day12.ArrangementCalculator.PossibleArrangementsForUnfoldedLine | src/bin/12.rs:25-43 | the count of the unfolded line, 0 when there is no space |
| Day12.SumOfArrangements | src/bin/12.rs:124-144 | part_one and part_two: the sum over the lines of their counts, one cache for all lines |
| Day12Examples.SimpleMatch | src/bin/12.rs:150-155 | "#.#.###" with 1,1,3 counts once |
| Day12Examples.NoMatch | src/bin/12.rs:157-165 | "##..###" with 1,1,3 counts 0 |
| Bits.BitOr | src/bin/13.rs:71-77 | each bit of an OR is set exactly when it is set on either side |
| Bits.BitXor | src/bin/13.rs:16 | each bit of an XOR is set exactly when the two sides differ there |
| Bits.BitPow2 | src/bin/13.rs:71-72 | 1 << c has bit c and no other |
| Bits.XorZero | src/bin/13.rs:16 | only equal masks have a zero XOR |
| Bits.OrIsZero | src/bin/13.rs:16 | an OR is zero exactly when both sides are |
| Bits.PopCountZero | src/bin/13.rs:17 | only zero has no bit set |
| Bits.PopCountOr | src/bin/13.rs:16-17 | an OR sets no more bits than its two sides together |
| Day13.MirrorsFrom | src/bin/13.rs:5-20 | mirrors_in_sequence with the corrected filter: exactly the lines of reflection from ix on whose mirrored cells differ in `deviation` cells, in increasing order |
| Day13.NoDeviation | src/bin/13.rs:9-19 | with no cell allowed to differ, the filter as written and the corrected one accept the same lines: those where every mirrored pair is equal |
| Day13.PerfectMirrors | src/bin/13.rs:5-20 | without a smudge the lines found are exactly the perfect reflections, and the code as written finds the same ones |
| Day13.MirrorStep | src/bin/13.rs:9 | the search lists the line before ix when it is a mirror, then the later ones |
| Day13.TwoPairsDiffer | src/bin/13.rs:15-18 | two unequal mirrored pairs differ in at least two cells |
| Day13.DeviationBound | src/bin/13.rs:15-18 | the OR of the XORs never sees more differing bits than there are differing cells |
| Day13.SmudgedMirror | src/bin/13.rs:9-19 | exactly one differing cell means exactly one mirrored pair differs, and in one bit |
| Day13.SmudgeAsWritten | src/bin/13.rs:15-18 | as written, [1, 1, 0, 0] is accepted with a smudge at line 2 although two cells differ; the corrected filter rejects it |
| Day13.AsVertical | src/bin/13.rs:46 | map(Mirror::Vertical) keeps the order and holds exactly the vertical mirrors of the list |
| Day13.AsHorizontal | src/bin/13.rs:47 | map(Mirror::Horizontal) keeps the order and holds exactly the horizontal mirrors of the list |
| Day13.FindMirrors | src/bin/13.rs:44-49 | find_mirrors holds exactly the vertical mirrors of the columns and the horizontal mirrors of the rows, the vertical ones first; with a smudge, by the corrected one-cell filter (see Findings) |
| Day13.RowMaskBits | src/bin/13.rs:63-71 | bit c of a row mask is set exactly when column c of the line is '#' |
| Day13.ColMaskBits | src/bin/13.rs:72-77 | bit r of a column mask is set exactly when row r has a '#' in that column |
| Day13.PatternBits | src/bin/13.rs:58-85 | Pattern::from_str fails exactly when some character is neither '#' nor '.', and otherwise its masks hold exactly the rocks |
| Day13.Columns | src/bin/13.rs:72-77 | there is one column mask per column of the widest line |
| Day13.ColumnsStep | src/bin/13.rs:72-77 | reading one more line ORs its cells into the columns, pushing new columns past the old width |
| Day13.ReadRow | src/bin/13.rs:63-80 | the inner loop over a line: no error exactly when every character is a cell, then the row mask and the columns with the line OR-ed in |
| Day13.ParsePattern | src/bin/13.rs:58-85 | Pattern::from_str's loops give the parsed pattern or the error |
| Day13.Outcomes | src/bin/13.rs:88-96 | one outcome per pattern |
| Day13.TallyMeaning | src/bin/13.rs:88-96 | the fold counts no error exactly when every outcome is present, and then its total is their sum |
| Day13.TotalMirrorValueMeaning | src/bin/13.rs:87-112 | total_mirror_value is present exactly when every pattern parses and has a line of reflection, and then it is the sum of the values of their first lines; with a smudge, by the corrected one-cell filter |
| Day13Examples.SequenceMirrorsA | src/bin/13.rs:153-157 | [13, 5, 5, 13] reflects at 2 |
| Day13Examples.SequenceMirrorsB | src/bin/13.rs:158-161 | [7, 1, 7, 7, 1, 7] reflects at 3 |
| Day13Examples.SequenceMirrorsC | src/bin/13.rs:162-165 | [13, 14, 15, 16] has no reflection |
| Day13Examples.SequenceMirrorsD | src/bin/13.rs:166-169 | [13, 5, 5, 14] has no reflection |
| Day13Examples.FirstColumns | src/bin/13.rs:173-176 | the first example's columns reflect only at 5 |
| Day13Examples.FirstRows | src/bin/13.rs:173-176 | the first example's rows have no reflection |
| Day13Examples.SecondColumns | src/bin/13.rs:178-180 | the second example's columns have no reflection |
| Day13Examples.SecondRows | src/bin/13.rs:178-180 | the second example's rows reflect only at 4 |
| Day13Examples.FirstMirror | src/bin/13.rs:173-176 | the first example's only mirror without a smudge is Vertical(5) |
| Day13Examples.SecondMirror | src/bin/13.rs:178-180 | the second example's only mirror without a smudge is Horizontal(4) |
| Iteration.IterateAdd | src/bin/14.rs:25-38 | m + n steps are n steps after m steps |
| Iteration.IterateKeeps | src/bin/14.rs:25-38 | a property every step keeps holds after any number of steps |
| Iteration.IteratePeriodic | src/bin/14.rs:28-34 | once the state after first + period steps equals the state after first steps, whole periods after first lead back to the same states |
| Iteration.Shortcut | src/bin/14.rs:28-34 | when the state after cycle steps was seen after first steps, (cycles - cycle) % (cycle - first) more steps reach the state after cycles steps |
| Day14Lines.CubeFrom | src/bin/14.rs:88-90 | the next cube rock at or after i, or the end of the line |
| Day14Lines.TiltFromSnoc | src/bin/14.rs:85-96 | one more cell at the end of a line tilted towards its start: a rounded rock comes to rest at the limit, anything else stays |
| Day14Lines.TiltSnoc | src/bin/14.rs:84-142 | the step of the inner loops of roll_north and roll_west: the tilted line grows by Settle at the limit, and the limit moves past a cube rock or one cell on after a rounded rock |
| Day14Lines.TiltFromKeepsCubes | src/bin/14.rs:88-90 | tilting keeps every cube rock where it is and puts none anywhere else |
| Day14Lines.TiltFromCounts | src/bin/14.rs:85-96 | tilting keeps the number of rocks of every kind |
| Day14Lines.TiltFromSettled | src/bin/14.rs:92-95 | after tilting, every rounded rock rests against the start, a cube rock or another rounded rock |
| Day14Lines.TiltLaws | src/bin/14.rs:80-101 | tilting towards the start keeps cube rocks in place and counts of every kind, and leaves every rounded rock settled |
| Day14Lines.TiltEndLaws | src/bin/14.rs:57-124 | tilting towards the end keeps cube rocks in place and counts of every kind, and leaves every rounded rock settled against the end |
| Day14Rolls.Cell | src/bin/14.rs:63-132 | the k-th cell of a line is row·100 + col down a column or along a row, inside the grid |
| Day14Rolls.CellOf | src/bin/14.rs:63-132 | every cell is the IndexOf-th cell of its line |
| Day14Rolls.LineUpdate | src/bin/14.rs:67-93 | writing one cell changes one place of one line |
| Day14Rolls.LinesDetermine | src/bin/14.rs:57-147 | two grids with the same lines are the same grid |
| Day14Rolls.RolledLines | src/bin/14.rs:57-147 | each line of a rolled grid is that line tilted |
| Day14Rolls.SlideStep | src/bin/14.rs:85-96 | one step of the inner loop keeps the line equal to the tilt of the cells seen so far, followed by cells not written yet, and leaves the other lines alone |
| Day14Rolls.SlideToStart | src/bin/14.rs:84-142 | the inner loop of roll_north and roll_west tilts its line towards the start and leaves the other lines alone |
| Day14Rolls.EndStep | src/bin/14.rs:61-120 | one step of the inner loop of roll_south or roll_east: the line is the end-tilt of the cells seen so far after cells not written yet |
| Day14Rolls.SlideToEnd | src/bin/14.rs:61-120 | the inner loop of roll_south and roll_east tilts its line towards the end and leaves the other lines alone |
| Day14Rolls.RollToEnd | src/bin/14.rs:57-124 | the outer loop over the lines gives the grid with every line tilted towards its end |
| Day14Rolls.RollToStart | src/bin/14.rs:80-147 | the outer loop over the lines gives the grid with every line tilted towards its start |
| Day14Rolls.RollNorth | src/bin/14.rs:80-101 | roll_north gives the North grid |
| Day14Rolls.RollWest | src/bin/14.rs:126-147 | roll_west gives the West grid |
| Day14Rolls.RollSouth | src/bin/14.rs:103-124 | roll_south gives the South grid |
| Day14Rolls.RollEast | src/bin/14.rs:57-78 | roll_east gives the East grid |
| Day14Rolls.RolledKeepsCubes | src/bin/14.rs:57-147 | a roll leaves every cube rock where it is and puts none anywhere else |
| Day14Rolls.RolledCounts | src/bin/14.rs:57-147 | a roll keeps the number of rocks of each kind on every line it rolls along |
| Day14Rolls.NorthLaws | src/bin/14.rs:80-101 | roll_north keeps the cube rocks and each column's rounded rocks, and leaves no rounded rock with an empty cell north of it |
| Day14Rolls.SouthLaws | src/bin/14.rs:103-124 | roll_south keeps the cube rocks and each column's rounded rocks, and leaves no rounded rock with an empty cell south of it |
| Day14Rolls.WestLaws | src/bin/14.rs:126-147 | roll_west keeps the cube rocks and each row's rounded rocks, and leaves no rounded rock with an empty cell west of it |
| Day14Rolls.EastLaws | src/bin/14.rs:57-78 | roll_east keeps the cube rocks and each row's rounded rocks, and leaves no rounded rock with an empty cell east of it |
| Day14.TiltCycle | src/bin/14.rs:149-151 | tilt_cycle rolls north, west, south, then east |
| Day14.SpinNext | src/bin/14.rs:25-27 | spinning keeps the size of the grid, and one more cycle is one more tilt_cycle |
| Day14.CycleKeepsCubes | src/bin/14.rs:149-151 | a spin cycle leaves every cube rock where it is and puts none anywhere else |
| Day14.SpinKeepsCubes | src/bin/14.rs:21-41 | so does any number of spin cycles |
| Day14.LoadBounds | src/bin/14.rs:43-55 | every rounded rock adds between 1 and 100 to the load |
| Day14.LoadByRows | src/bin/14.rs:43-55 | the load is the sum over the rows of 100 - row per rounded rock of the row |
| Day14.SameRowCounts | src/bin/14.rs:43-55 | grids with the same number of rounded rocks in every row have the same load |
| Day14.SidewaysKeepsLoad | src/bin/14.rs:43-147 | rolling west or east moves rocks only within their rows, so the load on the north beams stays |
| Day14.TiltCycles | src/bin/14.rs:31-33 | count more spin cycles from the state after done of them give the state after done + count |
| Day14.SpinShortcut | src/bin/14.rs:28-34 | once the grid after cycle spins equals the grid after first spins, spinning only the left-over cycles reaches the grid after all cycles |
| Day14.Remember | src/bin/14.rs:37 | recording the grid keeps every recorded grid equal to the grid after its own number of cycles |
| Day14.LoadAfterCycles | src/bin/14.rs:21-41 | load_after_cycles is the load of the grid after exactly `cycles` spin cycles |
| Day14.SpinCycles | src/bin/14.rs:22-38 | the loop ends on the grid after exactly `cycles` spin cycles, recording every grid with its cycle count |
| Day14.SkipRepeats | src/bin/14.rs:28-35 | once the grid after `cycle` spins was recorded after fewer, spinning only the cycles left over from whole repeats reaches the grid after all `cycles` |
| Day14.ParseRockSymbol | src/bin/14.rs:157-168 | Rock::try_from accepts exactly '.', '#' and 'O', each reading back as its rock |
| Day14.WriteLineOk | src/bin/14.rs:177-180 | a line is written exactly when all its characters are rocks |
| Day14.WriteLinesOk | src/bin/14.rs:173-184 | the input is read exactly when all its characters are rocks |
| Day14.WriteLineAt | src/bin/14.rs:177-180 | a line writes the rocks of its characters into its own cells and no other |
| Day14.ParsedCell | src/bin/14.rs:173-184 | in a grid-shaped input the cell at (row, col) holds the rock of the character there, and cells no character covers are empty |
| Day14.FromStr | src/bin/14.rs:170-185 | Dish::from_str's loops read the grid, or fail at the first character that is not a rock |
| Day14.PartOne | src/bin/14.rs:187-194 | part_one is present exactly when the input reads, and is then the load after rolling north |
| Day14.PartTwo | src/bin/14.rs:196-203 | part_two is present exactly when the input reads, and is then the load after a billion spin cycles |
| Day20.Processed | src/bin/20.rs:165-200 | delivering a signal only appends to the queue: the signals already queued stay in front, in order |
| Day20.UnknownDestinationIgnored | src/bin/20.rs:172 | a signal for a name that is not a module changes nothing |
| Day20.BroadcasterForwards | src/bin/20.rs:174-176 | the broadcaster sends on the pulse it received |
| Day20.FlipFlopIgnoresHigh | src/bin/20.rs:177-178 | a flip-flop ignores a High pulse |
| Day20.FlipFlopToggles | src/bin/20.rs:177-187 | on a Low pulse a flip-flop flips its bit (off when unset) and sends High when it turns on, Low when it turns off |
| Day20.ConjunctionSendsLowIffAllHigh | src/bin/20.rs:188-197 | a conjunction sends Low exactly when every input last sent High (a missing entry counts as Low), and High otherwise |
| Day20.FanoutSignals | src/bin/20.rs:46-49 | one signal per destination, in order, each carrying the pulse |
| Day20.SentQueuesOnePerDestination | src/bin/20.rs:39-50 | send_signals records the pulse for the sender only and queues one signal per destination behind the queued ones |
| Day20.PressState.constructor | src/bin/20.rs:145-147 | the press loops start with an empty queue, no flip-flop bits and no last pulses |
| Day20.PressState.PushBack | src/bin/20.rs:150 | push_back appends the signal and leaves the rest of the state alone |
| Day20.PressState.PopFront | src/bin/20.rs:152 | pop_front returns the head and removes it |
| Day20.PressState.SendSignals | src/bin/20.rs:39-50 | the in-place send_signals leaves the state that Sent describes |
| Day20.PressState.ProcessSignal | src/bin/20.rs:165-200 | the in-place process_signal leaves the state that Processed describes |
| Day20.Count | src/bin/20.rs:153-156 | a pulse count is at most the number of deliveries |
| Day20.CountsPartitionLog | src/bin/20.rs:153-156 | every delivery is counted once, as Low or as High |
| Day20.RunWellOrdered | src/bin/20.rs:149-160 | the deliveries are numbered by the press that made them, presses never go backwards, and there are at most as many presses and deliveries as steps |
| Day20.PressBeginsAtBroadcaster | src/bin/20.rs:150-152 | a press queues the initial Low pulse for the broadcaster, which is the next delivery |
| Day20.RunLogGrows | src/bin/20.rs:149-160 | later steps only add to the delivery log |
| Day20.ProcessedConsistent | src/bin/20.rs:177-197 | flip-flop bits are only kept for flip-flops and last pulses only for modules |
| Day20.RunConsistent | src/bin/20.rs:145-160 | that consistency holds at every step of the press machine |
| Day20.RunNext | src/bin/20.rs:149-160 | the machine advances one step at a time |
| Day20.CountAppend | src/bin/20.rs:153-156 | one more delivery adds one to the count of its own pulse |
| Day20.RunDeliver | src/bin/20.rs:152-159 | with a queued signal the next step delivers the head and logs it with the current press |
| Day20.RunPress | src/bin/20.rs:149-151 | with an empty queue the next step is a new press that queues the initial signal |
| Day20.PopHead | src/bin/20.rs:152 | popping the queue is the first half of the machine's delivery step |
| Day20.ProcessPopped | src/bin/20.rs:158 | processing the popped signal completes the machine's delivery step |
| Day20.DeliverHead | src/bin/20.rs:152-159 | one pass of the while-let loop is one delivery step of the machine |
| Day20.Drain | src/bin/20.rs:152-159 | the inner loop counts exactly the Low and High deliveries of the machine's log until the queue is empty or the delivery budget is spent |
| Day20.PressButtonTimes | src/bin/20.rs:141-163 | when it answers, the pair is the Low and High counts of the machine's log once times presses have finished; None only when the budget runs out first |
| Day20.BinaryGcd | src/bin/20.rs:73-97 | Stein's algorithm computes the greatest common divisor, and returns the other argument when one is zero |
| Day20.OddGcd | src/bin/20.rs:85-93 | the subtract-and-shift loop on two odd numbers ends at their gcd, which is odd |
| Day20.StripDifference | src/bin/20.rs:86-92 | subtracting the smaller odd number and shifting out zeros keeps the gcd |
| Day20.StripCommonTwos | src/bin/20.rs:80-84 | the gcd is the gcd of the odd parts times two to the smaller number of trailing zeros |
| Day20.CommonShift | src/bin/20.rs:95 | shifting the odd gcd back by the common zeros gives the gcd of the shifted numbers |
| Day20.LcmCommonMultiple | src/bin/20.rs:99-105 | lcm is a common multiple of both arguments and positive when both are |
| Day20.WatchedFirstHits | src/bin/20.rs:125-131 | a watched name is still awaited exactly when no Low pulse has reached it, and each hit is the press of a Low delivery to a watched name |
| Day20.WatchedAppend | src/bin/20.rs:126-128 | a Low delivery to an awaited name removes it and records the press; any other delivery changes nothing |
| Day20.WatchedSettled | src/bin/20.rs:129-131 | once every watched name is found, later deliveries change nothing |
| Day20.LcmOfAppend | src/bin/20.rs:128 | the running lcm folds in each new press |
| Day20.LcmOfCommonMultiple | src/bin/20.rs:115-128 | the lcm of the hits is positive and a multiple of every hit |
| Day20.WatchedHitsPositive | src/bin/20.rs:122 | presses are numbered from 1, so every hit is positive |
| Day20.WatchPress | src/bin/20.rs:125-135 | the inner loop of one press keeps the awaited names and the running lcm equal to those of the machine's log, stopping when all are found, the queue empties or the budget runs out |
| Day20.FindLcm | src/bin/20.rs:114-139 | when it answers, the answer is the lcm of the presses at which each watched name first got a Low pulse; an empty watch set gives None |
| Day20.ParseModuleName | src/bin/20.rs:209-220 | a name parses exactly when it is "broadcaster" or two characters, and only "broadcaster" gives the broadcaster |
| Day20.ModuleNameRoundTrip | src/bin/20.rs:209-220 | writing a name and parsing it gives the name back |
| Day20.Dedup | src/bin/20.rs:243-247 | inserting into a set keeps each name once and loses none; the order kept is the line order |
| Day20.DedupDistinct | src/bin/20.rs:243-247 | a list without repeats is kept as it is |
| Day20.ParseDestinations | src/bin/20.rs:244-247 | the list parses exactly when every item is a name, and then holds no repeats and is non-empty when there were items |
| Day20.ParseHeader | src/bin/20.rs:231-241 | a conjunction starts with no inputs |
| Day20.ParseHeaderRoundTrip | src/bin/20.rs:231-241 | "broadcaster", "%" and "&" before a name parse back to the module's name and kind |
| Day20.ParseDestinationsRoundTrip | src/bin/20.rs:243-247 | names written with ", " between them parse back to the names |
| Day20.ParseModule | src/bin/20.rs:226-254 | a parsed line contained " -> ", has at least one destination, no repeats, and a conjunction with no inputs yet |
| Day20.ParseModuleRoundTrip | src/bin/20.rs:226-254 | writing a module as a line and parsing it gives the module back |
| Day20.Declared | src/bin/20.rs:263-266 | the first pass keys each module by its name, holds exactly the names of the lines and only modules from them |
| Day20.DeclaredAppend | src/bin/20.rs:265 | a later line with the same name replaces the earlier module |
| Day20.ConjunctionInputsAreSenders | src/bin/20.rs:260-283 | after parsing, each conjunction's inputs are exactly the modules that list it as a destination, and every module is its line's module with those inputs |
| Day20.ParsedEntry | src/bin/20.rs:260-283 | each parsed entry comes from a line that parses, under its own name |
| Day20.ConnectedEntry | src/bin/20.rs:268-280 | after the second pass an entry is its first-pass module with its senders added |
| Day20.ConnectedSenders | src/bin/20.rs:274-280 | the second pass changes no name and no destination, so not the senders either |
| Day20.SendersAmongStep | src/bin/20.rs:269-273 | one more module adds itself to the senders of the names it lists |
| Day20.AddInputsTwice | src/bin/20.rs:276-278 | adding inputs in two goes adds their union |
| Day20.AddSender | src/bin/20.rs:270-279 | one module's destinations that are conjunctions gain it as an input; nothing else changes and no entry is added |
| Day20.Connect | src/bin/20.rs:268-280 | the second pass keeps the names and gives each conjunction every module that sends to it |
| Day20.ConnectDone | src/bin/20.rs:268-280 | that result is the second pass's specification |
| Day20.ConnectStep | src/bin/20.rs:268-280 | each module handled extends the senders added so far by that module |
| Day20.DeclareModules | src/bin/20.rs:261-266 | the first pass succeeds exactly when every line parses, and then keys the modules by name |
| Day20.ParseSystem | src/bin/20.rs:257-284 | ModuleSystem::from_str is the two passes' specification |
| Day20.PartOne | src/bin/20.rs:287-294 | None when the input does not parse or when the delivery budget runs out during the 1000 presses (some run state with at most 1000 presses, signals still queued and exactly the budget delivered); an answer is the product of the Low and High counts after 1000 finished presses |
| Day20.PartTwo | src/bin/20.rs:297-311 | None when the input does not parse, and always None when no conjunction sends to rx; otherwise None only when no module sends to rx, a module sending to rx is no conjunction, or the budget runs out before its inputs have all received a Low pulse; an answer comes from a conjunction that sends to rx and is the lcm of the presses at which its inputs first get a Low pulse |
| Day20Examples.ModuleNameExamples | src/bin/20.rs:318-325 | "broadcaster", "xy" and "op" parse to their names |
| Day20Examples.FlipFlopLineExample | src/bin/20.rs:329-338 | "%aa -> bb" is a flip-flop aa sending to bb |
| Day20Examples.ConjunctionLineExample | src/bin/20.rs:340-350 | "&bb -> cc, dd" is a conjunction bb with no inputs yet, sending to cc and dd |
| Day20Examples.BroadcasterLineExample | src/bin/20.rs:352-363 | "broadcaster -> aa, bb, cc" is the broadcaster sending to the three |
| Day20Examples.SystemExample | src/bin/20.rs:366-441 | the five-line system parses to example_system, where iv has input aa and cn has inputs aa and bb |
| Day20Examples.SendSignalsExample | src/bin/20.rs:444-471 | a High pulse from a module with two destinations queues two High signals, one for each |
| Text.DecimalRoundTrip | src/bin/03.rs:20 | the decimal text that to_string writes reads back as the number |
| Text.DecimalLength | src/bin/03.rs:20 | to_string().len() is the length of the decimal text, at least one |
| Text.Find | src/bin/20.rs:227 | str::find gives the leftmost occurrence, and None exactly when there is none |
| Text.SplitOnce | src/bin/20.rs:227 | split_once cuts at the leftmost occurrence, so the parts with the separator between them are the text, and None exactly when the separator does not occur |
| Text.FindAfter | src/bin/20.rs:227 | text whose prefix lacks the separator's first character is cut right after that prefix |
| Text.Split | src/bin/20.rs:244 | split gives at least one piece, none holding the separator, and the pieces joined by it are the text |
| Text.SplitJoin | src/bin/20.rs:244 | parts that lack the separator's first character split back out of their join |
| Text.StripPrefix | src/bin/20.rs:233 | strip_prefix succeeds exactly when the text starts with the prefix, and gives the rest |
| Text.StripSuffix | src/bin/08.rs:169 | strip_suffix succeeds exactly when the text ends with the suffix, and gives the rest |
| Text.Lines | src/bin/20.rs:263 | no line holds a line feed, and the empty text has no lines |
| Text.LinesJoin | src/bin/20.rs:263 | lines joined by line feeds come back from lines() when none ends in a carriage return and the last is not empty |
| Text.SplitWhitespace | src/bin/04.rs:34 | split_whitespace gives non-empty words with no white space in them |
| Text.SplitWhitespaceJoin | src/bin/04.rs:34 | words joined by single spaces split back into the same words |
| Text.Trim | src/bin/04.rs:49 | trim leaves no white space at either end |
| Text.TrimPadded | src/bin/04.rs:49 | leading spaces are dropped and a text without white space at its ends is kept |
| Text.ParseUnsigned | src/bin/04.rs:35 | an unsigned parse succeeds exactly on an optional '+' and one or more digits whose value fits, and gives that value |
| Text.ParseDecimal | src/bin/04.rs:35 | the decimal text of a value that fits parses back to it |
| Text.ParseSigned | src/bin/09.rs:49 | a signed parse gives a value in the type's range, and a '-' text gives the negated digits exactly when they are all digits and fit |
| Text.SignedDecimalRoundTrip | src/bin/09.rs:49 | the decimal text of an integer in range parses back to it |
| Text.ParseEach | src/bin/09.rs:48-52 | collecting parses into a Result keeps one value per item |
| Text.ParseEachEntry | src/bin/09.rs:48-52 | when every item parses, item i gives value i |
| Text.ParseEachFails | src/bin/09.rs:48-52 | one item that does not parse fails the whole collection |
| Text.ParseEachAll | src/bin/09.rs:48-52 | when every item parses, the collection is the values in order |
| Sorting.Sort | src/bin/07.rs:110 | the sorted permutation of the input |
| Sorting.SortedUnique | src/bin/07.rs:110 | two sorted permutations of the same elements under a total order are equal, so sort_unstable has one result |
| Sorting.SortPermutation | src/bin/07.rs:27 | sorting depends only on the multiset of the input |
| Divisibility.GcdIsGcd | src/bin/20.rs:73-97 | Euclid's gcd divides both arguments and every common divisor divides it |
| Divisibility.GcdUnique | src/bin/20.rs:73-97 | any non-negative greatest common divisor is Euclid's |
| Divisibility.GcdSubtract | src/bin/20.rs:86-92 | subtracting the smaller argument keeps the gcd |
| Divisibility.GcdHalve | src/bin/20.rs:88 | a factor of two the other argument lacks does not change the gcd |
| Divisibility.GcdShiftBoth | src/bin/20.rs:95 | a power of two common to both arguments multiplies the gcd |
| Divisibility.OddPart | src/bin/20.rs:82-83 | shifting out the trailing zeros leaves an odd number no larger, and two to the zeros times it is the number |
| Day15.HashFrom | src/bin/15.rs:4-5 | the fold stays below 256 whatever it starts from |
| Day15.Hash | src/bin/15.rs:3-6 | the hash is always below 256, so it names one of the boxes |
| Day15.HashFromPolynomial | src/bin/15.rs:4-5 | the fold computes the start value times 17 to the length plus the character polynomial, modulo 256 |
| Day15.HashIsPolynomial | src/bin/15.rs:3-6 | the hash is the sum of each character code times 17 to the power of its distance from the end plus one, modulo 256 |
| Day15.HashExamples | src/bin/15.rs:98-104 | "rn=1", "qp-", "ab=5" and "ot=7" hash to 30, 14, 197 and 231 |
| Day15.HashSum | src/bin/15.rs:82 | the sum of the step hashes is below 256 per step |
| Day15.PartOne | src/bin/15.rs:80-83 | part_one is below 256 times the number of comma-separated steps |
| Day15.LabelSlot | src/bin/15.rs:31-34 | the slot found holds the label and no earlier slot does; none means no lens has the label |
| Day15.Removed | src/bin/15.rs:42 | retain never lengthens the box |
| Day15.RemovedMembers | src/bin/15.rs:42 | a lens is left after remove exactly when it was there and carries another label |
| Day15.RemovedDistinct | src/bin/15.rs:42 | remove keeps the labels of a box distinct |
| Day15.RemovedAbsent | src/bin/15.rs:42 | removing a label that no lens carries changes nothing |
| Day15.RemovedUpdate | src/bin/15.rs:36-42 | replacing a lens by one with the same label is invisible once that label is removed |
| Day15.RemovedFirst | src/bin/15.rs:42 | a first lens with the label is dropped and the rest filtered |
| Day15.InsertedKeepsOthers | src/bin/15.rs:29-39 | insert touches no lens with another label and keeps their order |
| Day15.InsertedPlacesLens | src/bin/15.rs:29-39 | after insert the box holds the lens, and it grew by one exactly when no lens had the label |
| Day15.InsertedDistinct | src/bin/15.rs:29-39 | insert keeps the labels of a box distinct, and the lens is then the only one with its label |
| Day15.InsertedNew | src/bin/15.rs:37 | a label the box lacks is pushed at the back |
| Day15.InsertedAt | src/bin/15.rs:36 | a label first found at a slot is replaced in that slot |
| Day15.EmptyBoxes | src/bin/15.rs:20-27 | exactly 256 boxes, all empty |
| Day15.EmptyArranged | src/bin/15.rs:20-27 | the empty array is arranged: every lens in the box of its label's hash, labels distinct per box |
| Day15.Apply | src/bin/15.rs:29-43 | an operation keeps the 256 boxes |
| Day15.ApplyArranged | src/bin/15.rs:29-43 | every insert and remove keeps the arrangement |
| Day15.Appended | src/bin/15.rs:37 | inserting a label its box lacks appends the lens to that box and changes no other box |
| Day15.Replaced | src/bin/15.rs:36 | inserting a label first found at a slot replaces that lens and changes no other box |
| Day15.RemovedNothing | src/bin/15.rs:42 | removing a label its box lacks changes nothing |
| Day15.RemovedFrom | src/bin/15.rs:42 | removing the label of a box's first lens, when the others carry other labels, drops exactly that lens |
| Day15.RemoveLeavesNone | src/bin/15.rs:41-43 | in an arranged array no box holds the label after remove |
| Day15.ParseStepText | src/bin/15.rs:45-64 | "label-" reads back as a removal and "label=n" as an insertion of focal length n |
| Day15.Stepped | src/bin/15.rs:45-64 | a step keeps the 256 boxes |
| Day15.Executed | src/bin/15.rs:88-90 | the steps run one after another keep the 256 boxes |
| Day15.ExecutedStep | src/bin/15.rs:88-90 | running one more step applies it to the boxes so far |
| Day15.ApplyAllStep | src/bin/15.rs:88-90 | applying one more operation applies it to the boxes so far |
| Day15.ExecutedTexts | src/bin/15.rs:88-90 | running the texts of operations does what the operations do |
| Day15.ExecutedArranged | src/bin/15.rs:86-92 | whatever the steps, the procedure keeps the arrangement |
| Day15.EmptyBoxPower | src/bin/15.rs:66-77 | empty boxes have no focusing power |
| Day15.BoxPowerUpdate | src/bin/15.rs:66-77 | changing one box changes the total by the change in that box's own power |
| Day15.TwoBoxesPower | src/bin/15.rs:66-77 | with only two non-empty boxes the total is their two powers |
| Day15.ExampleHashes | src/bin/15.rs:113-193 | the test's labels land in boxes 0, 0, 1, 3, 3 and 3 |
| Day15.BoxThreeExample | src/bin/15.rs:142-193 | in one box, pc=4, ot=9, ab=5 line up in that order, ot=13 replaces ot in its slot and pc- takes pc out |
| Day15.ExampleBoxZero | src/bin/15.rs:196-200 | the example's rn=1, cm-, cm=2 leave rn 1 and cm 2 in box 0 |
| Day15.ExampleBoxOne | src/bin/15.rs:196-200 | the example's qp=3, qp- leave box 1 empty |
| Day15.ExampleBoxThree | src/bin/15.rs:196-200 | the example's steps in box 3 leave ot 7, ab 5 and pc 6 |
| Day15.ExampleFocusingPower | src/bin/15.rs:196-200 | the example's final arrangement has focusing power 145 |
| Day15.LightBoxArray.constructor | src/bin/15.rs:20-27 | new gives 256 empty boxes, arranged |
| Day15.LightBoxArray.Insert | src/bin/15.rs:29-39 | the in-place insert leaves the boxes Apply describes and keeps the arrangement |
| Day15.LightBoxArray.Remove | src/bin/15.rs:41-43 | the in-place remove leaves the boxes Apply describes and keeps the arrangement |
| Day15.LightBoxArray.Step | src/bin/15.rs:45-64 | step returns true exactly when the text parses, and the boxes become what Stepped describes |
| Day15.PartTwo | src/bin/15.rs:86-92 | part_two is the focusing power after running every comma-separated step on a new array |
| Day16.MirrorNext | src/bin/16.rs:32-49 | a mirror sends the beam on in exactly one direction, turned by a right angle |
| Day16.MirrorReversible | src/bin/16.rs:32-49 | a beam sent back along a mirror's output leaves opposite to where it came in |
| Day16.MirrorsTurnApart | src/bin/16.rs:32-49 | the two kinds of mirror turn a beam to opposite sides |
| Day16.SplitterNext | src/bin/16.rs:58-66 | a beam along the splitter passes straight through; one hitting it side-on splits into the two opposite directions along it |
| Day16.NextDirections | src/bin/16.rs:75-82 | an empty space passes the beam on unchanged, and every space sends it on in at least one direction |
| Day16.NextDirectionsExamples | src/bin/16.rs:300-331 | for a beam heading east: empty goes east, '/' north, '\' south, '-' east, and the vertical splitter north and south |
| Day16.Step | src/bin/16.rs:119-153 | None exactly when the move would leave the 110 by 110 grid through that edge; otherwise the neighbouring cell one row or column on in that direction |
| Day16.StepBack | src/bin/16.rs:119-153 | a step can be taken back by the opposite direction |
| Day16.SetBit | src/bin/16.rs:100-110 | setting a clear direction bit leaves one bit fewer clear, and a byte below 16 stays below 16 |
| Day16.SetBitMarks | src/bin/16.rs:100-110 | after setting one direction's bit, another's is set exactly when it was before or is the same direction |
| Day16.ZeroIffNoDirection | src/bin/16.rs:96-98 | a tracker byte is zero exactly when no direction bit is set |
| Day16.ClearBitsUpdate | src/bin/16.rs:100-110 | replacing one byte changes the clear bits by that byte's difference |
| Day16.CountNonZero | src/bin/16.rs:96-98 | the count of non-zero tracker bytes is at most the number of bytes |
| Day16.Mark | src/bin/16.rs:100-110 | marking a beam keeps the number of tracker bytes |
| Day16.MarkedUpdate | src/bin/16.rs:100-110 | marking a beam marks it and leaves every other beam as it was |
| Day16.EnergisationTracker.constructor | src/bin/16.rs:90-94 | new marks nothing |
| Day16.EnergisationTracker.Visit | src/bin/16.rs:100-110 | visit reports whether the beam was marked, then marks it and nothing else; a first visit leaves one bit fewer clear |
| Day16.EnergisationTracker.EnergisedCells | src/bin/16.rs:96-98 | the count of non-zero bytes, which are exactly the cells with some direction visited |
| Day16.Successors | src/bin/16.rs:166-177 | the beams queued after a beam lie inside the grid |
| Day16.Moved | src/bin/16.rs:166-177 | a move queued in one direction lies inside the grid |
| Day16.ReachableStart | src/bin/16.rs:155-160 | the start beam is reachable |
| Day16.ReachableStep | src/bin/16.rs:166-177 | a beam one step on from a reachable beam is reachable |
| Day16.PathInside | src/bin/16.rs:155-180 | when the marks hold the start and are closed under successors, every beam on a path from the start is marked |
| Day16.EnergisedBounds | src/bin/16.rs:155-180 | at most every cell is energised, and the start cell always is |
| Day16.CountNonZeroEnergised | src/bin/16.rs:179 | the count of non-zero bytes is the count of energised cells when the two agree cell by cell |
| Day16.SearchStart | src/bin/16.rs:156-160 | the search starts with the start beam queued and nothing marked |
| Day16.SearchStep | src/bin/16.rs:161-177 | a popped beam is dropped when marked already, otherwise marked with its successors queued, keeping the search invariant |
| Day16.SearchDone | src/bin/16.rs:155-180 | once the queue is empty the marked beams are exactly the reachable ones |
| Day16.QueuedSuccessors | src/bin/16.rs:170-176 | queueing the moves in the space's two directions queues the beam's successors |
| Day16.PushStep | src/bin/16.rs:170-176 | a step that stays inside is queued, one that leaves the grid is not |
| Day16.EnergisedCells | src/bin/16.rs:155-180 | energised_cells is the number of cells that some beam reachable from the start passes through, between 1 and 110 squared |
| Day16.EdgeStarts | src/bin/16.rs:182-199 | four starts per row or column index, all inside the grid |
| Day16.MostEnergisedCells | src/bin/16.rs:182-199 | the result is attained by some edge start and no edge start energises more, so it is at least part one's energy |
| Day16.MostFromEdge | src/bin/16.rs:186-195 | after one row or column index the running maximum covers its four edge starts too and is still attained by one of the starts seen |
| Day16.ParseSpaceChar | src/bin/16.rs:205-218 | each space is read from its character and from no other |
| Day16.FromStr | src/bin/16.rs:220-236 | from_str fails exactly when some character is unreadable, and otherwise lays each character into its cell of an empty grid |
| Day16.PartOne | src/bin/16.rs:238-245 | None exactly when the input does not read; otherwise the energy of a beam entering the top-left cell heading east |
| Day16.PartTwo | src/bin/16.rs:247-254 | None exactly when the input does not read; otherwise the most energy from any edge start |
| GridText.BadCharStep | src/bin/16.rs:226-234 | a refused character from here on is this one or one further on |
| GridText.LayoutFails | src/bin/16.rs:226-234 | the layout fails exactly when some character from here on is refused |
| GridText.LayoutCells | src/bin/16.rs:226-234 | with lines no longer than a row, each character's cell holds it and every other cell keeps the default |
| GridText.ReadGrid | src/bin/16.rs:223-236 | the two loops fail exactly when a character is refused and otherwise give the layout of the lines |
| Day17.TurnsUndo | src/bin/17.rs:18-34 | a left turn and a right turn undo each other |
| Day17.FourTurns | src/bin/17.rs:18-34 | four turns the same way come back to the start, and two turns either way face backwards |
| Day17.Compare | src/bin/17.rs:45-53 | for the max-heap, less heat loss is greater and more heat loss is less |
| Day17.CompareFlip | src/bin/17.rs:45-53 | swapping the two states flips the ordering |
| Day17.CompareEqual | src/bin/17.rs:45-53 | the ordering says Equal exactly when the states are equal, so it is total |
| Day17.CompareTransitive | src/bin/17.rs:45-53 | the ordering is transitive |
| Day17.HeapOrderExample | src/bin/17.rs:352-378 | (7, 15) with heat loss 2 is greater than (7, 13) with heat loss 2, which is greater than (3, 2) with heat loss 4 |
| Day17.Pop | src/bin/17.rs:119 | pop takes out one state of the heap that is greater than or equal to every other, so has the least heat loss, and keeps the rest |
| Day17.Key | src/bin/17.rs:85-92 | the visit table's key is below four entries per block |
| Day17.StateAtKey | src/bin/17.rs:85-92 | a state is recovered from its key and heat loss, so distinct position and facing give distinct keys |
| Day17.JourneyVisitTracker.constructor | src/bin/17.rs:74-78 | new sets every entry to u32::MAX |
| Day17.JourneyVisitTracker.Minimum | src/bin/17.rs:80-83 | minimum is one of the block's four entries and at most each of them |
| Day17.JourneyVisitTracker.Visit | src/bin/17.rs:85-100 | visit is true exactly when the entry is at most the state's heat loss; otherwise that entry alone becomes the heat loss |
| Day17.VisitTrackerExample | src/bin/17.rs:417-456 | the five visits answer false, false, false, false, true and the block's minimum is then 7 |
| Day17.Step | src/bin/17.rs:185-213 | a step that is Some lands inside the 141 by 141 grid |
| Day17.StepInGrid | src/bin/17.rs:185-213 | a step is Some exactly when the row or column leaves room for dist blocks, and it then moves dist rows or dist columns that way |
| Day17.StepShorter | src/bin/17.rs:185-213 | a crucible that can go dist blocks can go fewer |
| Day17.StepExamples | src/bin/17.rs:310-341 | one block north, east, south and west inside the grid, and off each edge |
| Day17.StatesAlong | src/bin/17.rs:137-152 | the states for one direction lie in the grid, keep that facing and lose at least the heat lost so far |
| Day17.StatesAlongMembers | src/bin/17.rs:137-152 | the states for one direction are exactly the moves of min_dist to max_dist blocks that stay in the grid, each adding the heat of every block entered |
| Day17.StatesFacing | src/bin/17.rs:129-154 | every state faces one of the given directions and lies in the grid |
| Day17.StatesFacingMembers | src/bin/17.rs:129-154 | a state is yielded exactly when it faces one of the directions and is among that direction's states |
| Day17.ReachableStates | src/bin/17.rs:170-183 | the moves after a state lie in the grid and lose at least its heat |
| Day17.ReachableTurns | src/bin/17.rs:170-183 | a crucible only turns left or right: it never goes on straight nor turns back |
| Day17.ReachableShift | src/bin/17.rs:170-183 | the moves from a state do not depend on the heat already lost, which they only add to |
| Day17.StatesInDirection | src/bin/17.rs:138-152 | the loop of one direction pushes exactly the states for that direction |
| Day17.StatesInDirections | src/bin/17.rs:129-154 | states_in_directions yields the states of each direction in turn |
| Day17.JourneyInside | src/bin/17.rs:109-126 | every state of a journey from the initial states lies in the grid |
| Day17.NoBetterLower | src/bin/17.rs:85-100 | lowering a table entry keeps every state that was no better than the table no better |
| Day17.PendingLower | src/bin/17.rs:111-124 | lowering the entry of a queued state keeps every entry below u32::MAX queued or done |
| Day17.SeedStep | src/bin/17.rs:111-115 | visiting an initial state settles it, and queues it when it improved the table |
| Day17.PopStep | src/bin/17.rs:118-119 | popping a state leaves the search going on with that state's moves to visit |
| Day17.ExpandStep | src/bin/17.rs:119-124 | visiting a move of the popped state leaves it no better than the table, and queues it when it improved the table |
| Day17.ExpandLower | src/bin/17.rs:119-124 | a move of the popped state that improves the table is recorded and queued |
| Day17.TableSoundLower | src/bin/17.rs:119-124 | lowering the entry of a state that ends a journey keeps the table sound and bounded |
| Day17.ExpandDone | src/bin/17.rs:119-124 | once every move of the popped state is visited, none would improve the table |
| Day17.MovesShift | src/bin/17.rs:170-183 | the moves from a state with less heat lost are no worse against the table, block for block |
| Day17.JourneyBound | src/bin/17.rs:109-126 | with nothing left to expand, no journey ends better than the table says |
| Day17.SearchDone | src/bin/17.rs:118-124 | with the heap empty, every reachable state lies in the grid and is no better than the table |
| Day17.TableSumUpdate | src/bin/17.rs:85-100 | replacing one entry changes the table's sum by the difference |
| Day17.LeastAtTarget | src/bin/17.rs:126 | with the heap empty, the least entry of the bottom-right block bounds every journey there from below and, below u32::MAX, is reached by one |
| Day17.Seed | src/bin/17.rs:111-115 | the first loop visits every initial state and queues those that improved the table |
| Day17.Expand | src/bin/17.rs:119-123 | the inner loop visits every move of the popped state; the table's sum drops unless nothing changed |
| Day17.ExpandNext | src/bin/17.rs:118-124 | one turn of the outer loop either lowers the table's sum or leaves the table and shortens the heap |
| Day17.MinimalHeatLoss | src/bin/17.rs:109-127 | the result is at most u32::MAX, at most the heat loss of every journey to the bottom-right block, and below u32::MAX the loss of some journey there |
| Day17.ParseDigit | src/bin/17.rs:227 | to_digit(10) succeeds exactly on a decimal digit and gives a value below 10 |
| Day17.FromStr | src/bin/17.rs:221-236 | from_str fails exactly when some character is not a digit, and otherwise lays each digit into its cell of a grid of zeros |
| Day17.PartOne | src/bin/17.rs:239-245 | None exactly when the input does not read; otherwise the least heat loss of a crucible going one to three blocks at a time: no journey to the last block loses less and, below u32::MAX, one loses exactly that |
| Day17.PartTwo | src/bin/17.rs:248-254 | None exactly when the input does not read; otherwise the least heat loss of a crucible going four to ten blocks at a time: no journey to the last block loses less and, below u32::MAX, one loses exactly that |
| Day18.Distance | src/bin/18.rs:66-68 | the Manhattan distance is zero exactly when the points are equal |
| Day18.DistanceSymmetric | src/bin/18.rs:66-68 | the distance is the same either way round |
| Day18.DistanceTriangle | src/bin/18.rs:66-68 | the distance obeys the triangle inequality |
| Day18.MoveDistance | src/bin/18.rs:74-81 | a move covers the absolute value of its distance, along one axis only |
| Day18.MoveUndo | src/bin/18.rs:74-81 | a move is undone by the same distance in the opposite direction, or the negated distance in the same direction |
| Day18.Walk | src/bin/18.rs:119-126 | one point per instruction, the last being where the instructions end |
| Day18.WalkSteps | src/bin/18.rs:123-126 | each point is its instruction applied to the point before, starting from the origin |
| Day18.FromInstructions | src/bin/18.rs:119-133 | Ok exactly when the instructions end back at the origin, with the point after each instruction in turn |
| Day18.NextModulo | src/bin/18.rs:99 | the next point is the one at the following index modulo the number of points |
| Day18.Cross | src/bin/18.rs:100 | the cross product changes sign when its points are swapped |
| Day18.SumsAreShoelace | src/bin/18.rs:93-102 | the two folded sums differ by the shoelace sum of the edges |
| Day18.AreaIsShoelace | src/bin/18.rs:93-103 | the area is half the absolute shoelace sum |
| Day18.RotateEdge | src/bin/18.rs:93-103 | each edge of the list rotated by one is the following edge of the original, wrapping round |
| Day18.RotateArea | src/bin/18.rs:93-103 | the area does not depend on which corner the list starts at |
| Day18.ReverseEdge | src/bin/18.rs:93-103 | each edge of the reversed list is an edge of the original traversed backwards |
| Day18.ReverseArea | src/bin/18.rs:93-103 | the area does not depend on which way round the loop is listed |
| Day18.WalkPerimeter | src/bin/18.rs:105-113 | the walk's perimeter up to any point is the distance its instructions cover so far |
| Day18.LengthParity | src/bin/18.rs:115-117 | the distance covered has the parity of the end point's coordinate sum |
| Day18.ClosedPerimeterEven | src/bin/18.rs:105-117 | a closed walk's circumference is the distance covered and is even, so halving it loses nothing |
| Day18.RectangleLagoon | src/bin/18.rs:115-117 | a w by h rectangle dug clockwise from the origin closes and holds (w + 1) * (h + 1) cubic metres |
| Day18.ExampleWalk | src/bin/18.rs:264-269 | the example plan walks the example polygon back to the origin |
| Day18.ExampleLagoon | src/bin/18.rs:272-275 | the example lagoon holds 62 cubic metres |
| Day18.DirectionOf | src/bin/18.rs:26-34 | a direction reads exactly when the word starts with U, R, D or L |
| Day18.DirectionRoundTrip | src/bin/18.rs:26-34 | any word starting with a direction's letter reads as that direction |
| Day18.InstructionOf | src/bin/18.rs:40-59 | Ok exactly when there are two or three words, the first a direction and the second an i32; the distance is then an i32 |
| Day18.ParseInstruction | src/bin/18.rs:40-59 | the word-by-word loop gives the same result as the specification of an instruction |
| Day18.InstructionRoundTrip | src/bin/18.rs:40-59 | any instruction with an i32 distance written out with any colour word parses back to itself |
| Day18.FirstExampleLine | src/bin/18.rs:247-253 | "R 6 (#70c710)" reads as right 6 |
| Day18.LastExampleLine | src/bin/18.rs:254-260 | "U 2 (#caa171)" reads as up 2 |
| Day18.ReadInstructions | src/bin/18.rs:138-145 | the loop parses every line and gives up at the first that does not parse |
| Day18.PartOne | src/bin/18.rs:137-152 | Some exactly when every line parses and the plan closes; then the area plus half the distance covered plus one |
| Day19.With | src/bin/19.rs:53-60 | setting one property changes that rating and no other |
| Day19.Compare | src/bin/19.rs:63 | `cmp` is Less, Equal or Greater exactly when a <, = or > b |
| Day19.Matches | src/bin/19.rs:62-64 | a part matches a rule iff its chosen rating compares to the comparator with the rule's ordering |
| Day19.Total | src/bin/19.rs:66-68 | the sum of the four ratings |
| Day19.TotalWith | src/bin/19.rs:66-68 | raising one rating raises the total by the same amount |
| Day19.FirstMatch | src/bin/19.rs:34-41 | the index of the first matching rule, none before it matches; None iff no rule matches |
| Day19.DestinationPrefix | src/bin/19.rs:34-41 | the first matching rule decides, whatever follows it |
| Day19.Process | src/bin/19.rs:34-41 | the loop returns the first matching rule's target, else the default |
| Day19.Follow | src/bin/19.rs:80-88 | a finished journey ends on a name that has no workflow |
| Day19.FollowAfter | src/bin/19.rs:80-88 | the journey finishes within the fuel iff the name reached after it has no workflow, and then ends there |
| Day19.FollowMoreFuel | src/bin/19.rs:80-88 | more fuel does not change a finished journey |
| Day19.FollowCycle | src/bin/19.rs:83-85 | a workflow sending a part back to itself never lets it leave |
| Day19.ProcessPart | src/bin/19.rs:80-88 | the while loop from "in" ends where the journey does |
| Day19.AcceptedBound | src/bin/19.rs:90-101 | the accepted total is at most the sum of all totals, and equal to it when every part is accepted |
| Day19.NoneAccepted | src/bin/19.rs:90-101 | with no part accepted the total is 0 |
| Day19.AcceptedTotalMoreFuel | src/bin/19.rs:90-101 | more fuel does not change a finished accepted total |
| Day19.AcceptedStep | src/bin/19.rs:93-99 | one more part adds its total exactly when it ends at "A" |
| Day19.AcceptedStuck | src/bin/19.rs:90-101 | a part whose journey does not finish leaves the total unfinished |
| Day19.TotalOfAcceptedParts | src/bin/19.rs:90-101 | the filter-and-sum loop computes the accepted total |
| Day19.NameText | src/bin/19.rs:107-118 | a name's text has at most three characters, all from the name |
| Day19.NameRoundTrip | src/bin/19.rs:107-118 | reading a name's text gives the name back |
| Day19.NameFirstThree | src/bin/19.rs:110-117 | only the first three characters count, and a shorter text reads as if padded with spaces |
| Day19.PropertyOf | src/bin/19.rs:129-135 | a property exactly for x, m, a and s |
| Day19.ComparisonOf | src/bin/19.rs:136-140 | an ordering exactly for '<' and '>', never Equal |
| Day19.StepOf | src/bin/19.rs:120-151 | a rule read from text is never an equality and its comparator fits a u32 |
| Day19.StepAccepts | src/bin/19.rs:120-151 | a rule reads iff there is a ':', a property character, '<' or '>' and a u32 before it; the target is the name after it |
| Day19.StepRoundTrip | src/bin/19.rs:120-151 | a rule written out reads back |
| Day19.NoColonNoStep | src/bin/19.rs:124-126 | text without ':' is no rule |
| Day19.LastFailure | src/bin/19.rs:168-174 | the last item that fails to parse: None iff every item parses |
| Day19.WorkflowItems | src/bin/19.rs:156-183 | past the braces, a workflow is its name, the items that read as rules, and the default |
| Day19.WorkflowAccepts | src/bin/19.rs:156-183 | a line reads iff some item is not a rule; the default is the last such item |
| Day19.WorkflowRejects | src/bin/19.rs:157-162 | without '}' at the end or '{' before it a line is no workflow |
| Day19.ReadItems | src/bin/19.rs:165-176 | the item loop keeps the rules in order and the last non-rule as the default |
| Day19.ParseWorkflow | src/bin/19.rs:156-183 | the method reads what WorkflowOf specifies |
| Day19.WorkflowRoundTrip | src/bin/19.rs:153-184 | a workflow written out reads back |
| Day19.KeyOf | src/bin/19.rs:207-212 | a key exactly for "x", "m", "a" and "s" |
| Day19.FieldOf | src/bin/19.rs:203-206 | a field's value fits a u32 |
| Day19.Ratings | src/bin/19.rs:207-213 | a property is rated iff some field sets it |
| Day19.RatingsLast | src/bin/19.rs:207-213 | the last field for a property wins |
| Day19.PartAccepts | src/bin/19.rs:186-222 | a part reads iff every element is a field and each of the four keys is set |
| Day19.ReadField | src/bin/19.rs:203-213 | one field, split at '=' and matched on its key |
| Day19.ReadFields | src/bin/19.rs:197-220 | the slot loop reads what FromFields specifies |
| Day19.ParsePart | src/bin/19.rs:189-221 | the method reads what PartOf specifies |
| Day19.PartBody | src/bin/19.rs:190-195 | the braces are stripped before the fields are read |
| Day19.FieldRoundTrip | src/bin/19.rs:203-213 | a field written out reads back |
| Day19.PartRoundTrip | src/bin/19.rs:186-222 | a part written out reads back |
| Day19.Index | src/bin/19.rs:232-236 | every key is the name of its workflow, and a name is a key iff some workflow has it |
| Day19.IndexLast | src/bin/19.rs:233-236 | a later workflow of the same name replaces an earlier one |
| Day19.ReadWorkflows | src/bin/19.rs:232-236 | the workflow loop fails iff some line fails, otherwise builds the index |
| Day19.ReadParts | src/bin/19.rs:238-242 | the part loop reads every line or fails |
| Day19.ParseSystem | src/bin/19.rs:227-245 | the method reads what SystemOf specifies |
| Day19.PartOne | src/bin/19.rs:248-255 | None iff the input does not read; otherwise the accepted total |
| Day19.ExampleSystem | src/bin/19.rs:651-705 | the five example parts end at A, R, A, R, A and the accepted total is 19114 |
| Day19.MatchExamples | src/bin/19.rs:569-599 | the part with s = 496 passes s<1351, the part with s = 2876 fails it, and that part with a = 1222 passes a>1201 |
| Day19.ProcessExamples | src/bin/19.rs:602-649 | qqz sends its three test parts to qs, hdj and R |
| Day19.StepExamples | src/bin/19.rs:525-544 | "a>2006:qkq" and "s<537:gd" read as their rules |
| Day19.WorkflowExamplePx | src/bin/19.rs:488-508 | "px{a<2006:qkq,m>2090:A,rfg}" reads as the workflow px |
| Day19.WorkflowExampleQs | src/bin/19.rs:509-522 | "qs{s>3448:A,lnx}" reads as the workflow qs |
| Day19.PartExampleFirst | src/bin/19.rs:548-556 | "{x=787,m=2655,a=1222,s=2876}" reads as that part |
| Day19.PartExampleSecond | src/bin/19.rs:557-566 | "{x=2461,m=1339,a=466,s=291}" reads as that part |
| Day21.CellOfRowCol | src/bin/21.rs:53-57 | the row and column a cell index is split into are the ones it was built from |
| Day21.CellInGrid | src/bin/21.rs:53-81 | a cell index lies below height times width iff its row is below the height |
| Day21.StepInDirectionCells | src/bin/21.rs:53-81 | a step is None iff the neighbour in that direction is off the grid; otherwise it is that neighbour's cell |
| Day21.StepInGrid | src/bin/21.rs:53-81 | a step from a cell of the grid stays in the grid |
| Day21.MovesAreNeighbours | src/bin/21.rs:158-166 | a position's moves are exactly the plots of the grid at distance one |
| Day21.StepFromNeighbours | src/bin/21.rs:155-169 | a position is stepped to iff it is a plot at distance one from some position |
| Day21.StepFromAdd | src/bin/21.rs:158-166 | one more position adds exactly its moves |
| Day21.StepFromPositions | src/bin/21.rs:155-169 | the nested loop returns the plots one step from the positions |
| Day21.ReachableWalks | src/bin/21.rs:189-195 | a plot is reachable in n steps iff an n-step walk from the start ends there |
| Day21.ReachableNear | src/bin/21.rs:189-195 | after n steps the elf is at most n cells from the start, an even number short of n |
| Day21.TotalReachableInSteps | src/bin/21.rs:189-195 | the count is the number of plots reachable in exactly n steps |
| Day21.RepeatedStepMoves | src/bin/21.rs:83-153 | a step on the repeated garden moves the unrolled row and column by the direction's offsets; within the tile it agrees with the plain step, and across an edge it changes tile by the same offsets |
| Day21.RepeatedStepOnTiles | src/bin/21.rs:83-153 | a repeated step stays on a cell of its tile |
| Day21.RepeatedStepWithinTile | src/bin/21.rs:83-153 | where the plain step exists, the repeated step is it on the same tile |
| Day21.GlobalUnique | src/bin/21.rs:21-26 | a repeated position is determined by its unrolled row and column |
| Day21.RepeatedMovesAreNeighbours | src/bin/21.rs:177-184 | a repeated position's moves are exactly the plots at unrolled distance one |
| Day21.RepeatedStepFromNeighbours | src/bin/21.rs:171-187 | a repeated position is stepped to iff it is a plot at unrolled distance one from some position |
| Day21.StepFromPositionsOnRepeatedGrid | src/bin/21.rs:171-187 | the nested loop returns the repeated plots one step from the positions |
| Day21.ReachableOnOriginalTile | src/bin/21.rs:189-203 | every plot reachable in the single garden is reachable on the original tile of the repeated one |
| Day21.RepeatedReachableNear | src/bin/21.rs:197-203 | repeated positions after n steps are within n unrolled cells of the start, an even number short of n |
| Day21.TotalReachableOnRepeatedGrid | src/bin/21.rs:197-203 | the count is the number of repeated positions reachable in exactly n steps |
| Day21.StartFound | src/bin/21.rs:212-243 | a start is found iff some line holds an 'S' |
| Day21.RectangularStart | src/bin/21.rs:228-230 | on rectangular lines the start found is row times width plus column of the last 'S' in reading order |
| Day21.ReadLine | src/bin/21.rs:223-233 | a line reads iff all its characters are '#', 'S' or '.', pushing one rock flag each and recording the last 'S' |
| Day21.FromStr | src/bin/21.rs:212-243 | the method reads what GardenOf specifies |
| Day21.GardenErrors | src/bin/21.rs:212-243 | reading fails iff a character is not '#', 'S' or '.', or no line holds an 'S' |
| Day21.RectangularGarden | src/bin/21.rs:212-243 | rectangular lines read as a valid garden of their size, with each cell's rock its '#' and the start the last 'S' |
| Day21.PartOne | src/bin/21.rs:247-253 | None iff the garden does not read; otherwise the plots reachable in 64 steps |
| Day21Examples.ExampleStep1 | src/bin/21.rs:348-352 | from the start one step reaches (4,5) and (5,4) |
| Day21Examples.ExampleStep2 | src/bin/21.rs:353-358 | from (4,5) and (5,4) one step reaches (3,5), (5,5), (5,3) and (6,4) |
| Day21Examples.ExampleSixSteps | src/bin/21.rs:368-372 | six steps on the example garden reach 16 plots |
| Day22Bricks.CubeCoordinates | src/bin/22.rs:9-11 | for x and y below the grid size, the cube index gives back x, y and z by remainder and division |
| Day22Bricks.CubeAbove | src/bin/22.rs:9-11 | the cube one layer up is exactly one layer's worth of cells further on |
| Day22Bricks.ReadCube | src/bin/22.rs:13-35 | the loop over the comma-separated parts yields the three usize values, or None when a part does not parse or there are not exactly three |
| Day22Bricks.CubeRoundTrip | src/bin/22.rs:13-35 | three usize values written with commas read back as themselves |
| Day22Bricks.CubesBetween | src/bin/22.rs:46-54 | the stepping loop lists the cubes from the first corner to the last, each coordinate advancing until it reaches its end |
| Day22Bricks.ReadBrick | src/bin/22.rs:37-57 | None without a '~', with a corner that does not read, or with an end coordinate below its start; otherwise the cubes between the corners |
| Day22Bricks.BrickEnds | src/bin/22.rs:46-54 | a brick starts at its first corner, ends at its last and is longer than each coordinate's span |
| Day22Bricks.UprightBrick | src/bin/22.rs:46-54 | an upright brick is the column of cubes from its bottom to its top, one layer apart |
| Day22Bricks.BrickRoundTrip | src/bin/22.rs:37-57 | two corners written around '~' read back as the brick between them when ordered, and as nothing otherwise |
| Day22Bricks.ParsedNonEmpty | src/bin/22.rs:37-57 | every brick read holds a cube |
| Day22Bricks.InsertBrick | src/bin/22.rs:68-75 | inserting into bricks sorted by first cube keeps them sorted and adds exactly that brick |
| Day22Bricks.SortByFirst | src/bin/22.rs:68-75 | the result is sorted by first cube and a permutation of the input |
| Day22Bricks.ReadEach | src/bin/22.rs:62-66 | the loop keeps, in order, the bricks of the lines that read |
| Day22Bricks.ReadBricks | src/bin/22.rs:59-78 | the bricks of the lines that read, sorted by first cube: a sorted permutation, each brick non-empty |
| Day22.Occupant | src/bin/22.rs:160-162 | the occupancy table holds for a cell the last settled brick with a cube there, or nothing when none has |
| Day22.Beneath | src/bin/22.rs:139-143 | the cells beneath drop the cubes on the bottom layer: as many as the brick's cubes iff none is on the bottom layer, then each one layer lower |
| Day22.OccupantsOfCells | src/bin/22.rs:147-152 | a brick supports iff it is the occupant of one of the cells beneath |
| Day22.LowerRests | src/bin/22.rs:138-157 | the lowered brick is the brick moved down some layers through free cells, then at rest on the bottom with no supporters or on the non-empty set of occupants beneath it |
| Day22.LowerBelow | src/bin/22.rs:138-157 | lowering keeps the number of cubes and never moves a cube up |
| Day22.LowerSupporters | src/bin/22.rs:147-154 | a lowered brick's supporters are among the bricks already settled |
| Day22.SupportersEarlier | src/bin/22.rs:134-167 | every supporter of a brick was settled before it |
| Day22.SettlePrefix | src/bin/22.rs:134-167 | settling more bricks leaves the earlier ones and their supporters as they were |
| Day22.SettledRests | src/bin/22.rs:134-167 | each settled brick is its brick fallen through free cells, at rest on the bricks beneath it or on the bottom layer |
| Day22.GraphWellFormed | src/bin/22.rs:127-181 | the graph built has supporters settled earlier, and supporting lists that are exactly the inverse of the supporter lists |
| Day22.LowerBrick | src/bin/22.rs:138-157 | the lowering loop ends with the brick and supporters of the lowering function |
| Day22.CollectSupporters | src/bin/22.rs:147-152 | the loop over the cells beneath collects the bricks occupying them |
| Day22.Occupy | src/bin/22.rs:160-162 | after recording the brick, the table holds the occupants with the brick settled |
| Day22.FromBricks | src/bin/22.rs:127-181 | the graph built is the one settling the bricks in order gives, with its inverse |
| Day22.AddSupported | src/bin/22.rs:171-173 | the brick joins the supporting set of each of its supporters and nothing else changes |
| Day22.Invert | src/bin/22.rs:170-174 | the second pass yields for each brick the set of bricks it supports |
| Day22.FallenPrefix | src/bin/22.rs:101-124 | the bricks falling below a bound are those of a higher bound below it |
| Day22.FallenMembers | src/bin/22.rs:101-124 | a brick falls iff it is the one removed, or it has supporters and they all fall |
| Day22.FallenLeast | src/bin/22.rs:101-124 | any set holding the removed brick and closed under falling holds every fallen brick |
| Day22.FallenAbove | src/bin/22.rs:101-124 | only bricks from the removed one up fall |
| Day22.QueueUnsupported | src/bin/22.rs:112-120 | the inner loop queues exactly the supported bricks whose supporters are all removed, and lowers the queue's weight |
| Day22.RemoveBrick | src/bin/22.rs:101-124 | the count is the number of bricks that fall, less the one removed |
| Day22.FallenBound | src/bin/22.rs:101-124 | the removed brick falls, and at most the bricks from it up |
| Day22.RemovableFallsAlone | src/bin/22.rs:87-99 | a brick is removable iff taking it away makes no other brick fall |
| Day22.RemovableSize | src/bin/22.rs:87-99 | the sum counts the bricks all of whose supported bricks have more than one supporter |
| Day22.RemovableCounts | src/bin/22.rs:87-99 | removable_bricks is the number of bricks whose removal makes nothing else fall |
| Day22.TotalFalling | src/bin/22.rs:200-205 | the sum over all bricks of the others that fall |
| Day22.PartOne | src/bin/22.rs:184-192 | None iff no line reads as a brick; otherwise removable_bricks of the graph the sorted bricks settle into |
| Day22.PartTwo | src/bin/22.rs:195-207 | None iff no line reads as a brick; otherwise the total of the others falling over that graph |
| Day22Examples.ExampleWellFormed | src/bin/22.rs:225-295 | the example graph is well formed |
| Day22Examples.ExampleRemoveBottom | src/bin/22.rs:318 | removing brick 0 brings down all seven bricks |
| Day22Examples.ExampleRemoveTwins | src/bin/22.rs:319-320 | removing brick 1 or brick 3 brings down nothing else |
| Day22Examples.ExampleRemoveTop | src/bin/22.rs:321 | removing brick 5 brings down brick 6 |
| Day22Examples.ExampleRemovable | src/bin/22.rs:87-99 | five bricks of the example can be removed |
| Day22Examples.ExampleOthersFalling | src/bin/22.rs:195-207 | the others falling sum to 7 over the example graph |
| Day23Map.Exits | src/bin/23.rs:53-61 | the set of directions a cell can be left in is exactly those can_exit_in_direction allows |
| Day23Map.ExitsOfTrails | src/bin/23.rs:53-61 | open ground and the start can be left every way, forest and the finish not at all, 'v' only south and '>' only east |
| Day23Map.CellOfRowCol | src/bin/23.rs:70-71 | the row and column a cell index is split into are the ones it was built from |
| Day23Map.CellInGrid | src/bin/23.rs:69-103 | a cell index lies on the 141 by 141 map iff its row does |
| Day23Map.RowColOfCell | src/bin/23.rs:70-71 | every index is the cell of its row and column |
| Day23Map.StepInDirectionCells | src/bin/23.rs:69-103 | a step is None iff the neighbour that way is off the map; otherwise it is that neighbour's cell |
| Day23Map.StepInGrid | src/bin/23.rs:69-103 | a step from a cell of the map stays on the map |
| Day23Map.StepBack | src/bin/23.rs:69-103 | a step that stays on the map is undone by the step the opposite way |
| Day23Map.ReadTrail | src/bin/23.rs:176-188 | a character is refused iff it is not one of the four map characters; it reads as the start iff it is '.' on the first line |
| Day23Map.ReadFrom | src/bin/23.rs:173-191 | reading keeps the map at 141 by 141 cells and the finish on the map |
| Day23Map.MapOf | src/bin/23.rs:166-199 | a map read from text has 141 by 141 cells |
| Day23Map.ReadFails | src/bin/23.rs:173-191 | the reading loops fail iff a character from the current one on is not a map character |
| Day23Map.ReadFinish | src/bin/23.rs:177-183 | the remembered finish is the last '.' below the first line, or the one before reading when there is none |
| Day23Map.ReadCells | src/bin/23.rs:173-191 | with lines of at most 141 characters each character's cell holds what it stands for and every other cell is unchanged |
| Day23Map.MapFails | src/bin/23.rs:166-199 | from_str fails iff there is an unknown character or no '.' below the first line |
| Day23Map.MapCells | src/bin/23.rs:166-199 | the finish is the last '.' below the first line; every other cell holds what its character stands for, or open ground when no character writes it |
| Day23Map.PlaceTrail | src/bin/23.rs:175-188 | one character's cell is written and the finish moved to it exactly when it is '.' below the first line; an unknown character is refused |
| Day23Map.FromStr | src/bin/23.rs:166-199 | the array loops compute exactly the map MapOf describes, errors included |
| Day23.UnvisitedMark | src/bin/23.rs:31-39 | marking an unvisited cell leaves one cell fewer unvisited |
| Day23.UnvisitedNone | src/bin/23.rs:111-115 | a state with no cell visited has every cell left to visit |
| Day23.VisitMarks | src/bin/23.rs:31-39 | visit gives a copy at the new position, one step longer, that has visited the original's cells and the new one and no others; steps plus unvisited cells stays the same |
| Day23.FirstStart | src/bin/23.rs:106-119 | None iff no start cell follows; otherwise the first start cell |
| Day23.InitialPosition | src/bin/23.rs:105-120 | None iff the map has no start; otherwise on the first start cell with no steps and nothing visited |
| Day23.StepTo | src/bin/23.rs:126-139 | a step found for one direction lands on the map on a cell not yet visited |
| Day23.StepsFrom | src/bin/23.rs:126-140 | every state produced is a visit of a step found for one of the directions, and every found step is produced |
| Day23.ReachableStates | src/bin/23.rs:122-141 | at most four states, each a visit of a cell one move on that was not visited, with one cell fewer to visit; every such move is among them |
| Day23.WalkStep | src/bin/23.rs:122-141 | the first cell of a walk is one of the reachable states, and the rest is a walk from there |
| Day23.HikeIsWalk | src/bin/23.rs:122-160 | every step count the search can record is the length of a simple walk to the finish added to the steps so far |
| Day23.WalkIsHike | src/bin/23.rs:122-160 | every simple walk to the finish is among the step counts the search records |
| Day23.HikesBounded | src/bin/23.rs:24-39 | a hike from a state takes at least its steps so far and at most one more per unvisited cell |
| Day23.Max | src/bin/23.rs:159 | None iff there are no hikes; otherwise one of them, and no smaller than any |
| Day23.LongestWalk | src/bin/23.rs:143-160 | the longest hike is the longest simple walk from the start to the finish, None without a start or a walk, and at most 141*141, so the u32 step count never overflows |
| Day23.ReachableWeight | src/bin/23.rs:151-156 | the states queued for one state weigh less than it, so the search ends |
| Day23.PopFinish | src/bin/23.rs:151-153 | taking a state on the finish off the queue leaves its step count to be recorded |
| Day23.PopExpand | src/bin/23.rs:151-155 | replacing any other state by the reachable states keeps the hikes to come and lowers the weight |
| Day23.LongestHike | src/bin/23.rs:143-160 | the queue loop returns None without a start or without a hike, otherwise the largest step count of a hike from the start |
| Day23.PartOne | src/bin/23.rs:202-209 | None when the text is not a map, otherwise the longest hike on it |
| Day24.Quot | src/bin/24.rs:86-94 | Rust's `/` on i64: the magnitude is the floor of the magnitudes' quotient, and the result is negative iff the magnitudes allow a whole step and the signs differ |
| Day24.QuotExact | src/bin/24.rs:93-94 | dividing an exact multiple gives the factor back, for either sign |
| Day24.Denominator | src/bin/24.rs:70-79 | the denominator computed from the two pairs of points is the cross product of the two velocities |
| Day24.NumeratorA | src/bin/24.rs:70-86 | the first numerator is the cross product of the second velocity with the offset between the starts |
| Day24.NumeratorB | src/bin/24.rs:70-87 | the second numerator is the cross product of the first velocity with the offset between the starts |
| Day24.CrossingPoint | src/bin/24.rs:79-87 | the first stone at time NumeratorA/den and the second at time NumeratorB/den are at the same place (scaled by den, in whole numbers) |
| Day24.IntersectionAsWritten | src/bin/24.rs:62-96 | the source's intersection: None iff a stone stands still or the paths are parallel |
| Day24.AsWrittenPastIsPast | src/bin/24.rs:85-91 | when the source reports Past, one of the two crossing times is negative |
| Day24.RecentPastAsWritten | src/bin/24.rs:85-91 | two stones whose paths crossed a twentieth of a step ago (all values in i64) are reported as a Future crossing at (1, 0) |
| Day24.IntersectionOf | src/bin/24.rs:62-96 | the corrected intersection (see Findings): None iff a stone stands still or the paths are parallel; Past iff the paths cross and one of the two exact crossing times is negative; otherwise the estimated Future point |
| Day24.AsWrittenDiffers | src/bin/24.rs:85-91 | the source and the corrected intersection differ only where a crossing time lies strictly between minus one tenth and zero: the source says Future, the corrected one Past |
| Day24.ExactCrossing | src/bin/24.rs:93-95 | when the first stone crosses after a whole number k of steps, the Future point is exactly its position after k steps, which is where the second stone's path passes |
| Day24.Contains | src/bin/24.rs:116-129 | only a Future crossing with both coordinates between min and max inclusive is in the test area |
| Day24.CrossingPairsMembers | src/bin/24.rs:131-139 | the pairs counted are exactly the index pairs i < j whose crossing, by the corrected intersection, the test area contains |
| Day24.IntersectingPairsInArea | src/bin/24.rs:131-139 | the nested loops count exactly the pairs i < j whose crossing, by the corrected intersection, lies in the test area |
| Day24.CountLater | src/bin/24.rs:133-136 | the inner loop counts the later stones whose crossing with stone ix, by the corrected intersection, lies in the test area |
| Day24.NoIntersectionExample | src/bin/24.rs:198-209 | two parallel example stones have no intersection |
| Day24.PastExample | src/bin/24.rs:211-222 | the example pair of stones 0 and 4 crossed in the past |
| Day24.FutureExamples | src/bin/24.rs:224-247 | stone 0 meets stones 1 and 2 in the future at (14, 15) and (11, 16), in the source and in the corrected model |
| Day24.PairsInAreaExample | src/bin/24.rs:249-255 | two pairs of the five example stones cross inside the area 7 to 27 |
| Day24.I64Of | src/bin/24.rs:32 | a field parses iff it is a decimal i64, with an optional sign |
| Day24.PointFromValues | src/bin/24.rs:41-43 | a point is built iff both coordinates parsed, from those values |
| Day24.PointOf | src/bin/24.rs:27-45 | a point needs two or three ", "-separated fields; the third is ignored, and each of the first two is trimmed and parsed as an i64 |
| Day24.PointFromStr | src/bin/24.rs:27-45 | the loop over the fields computes exactly PointOf, failing at a fourth field |
| Day24.PointFields | src/bin/24.rs:31-43 | joining two or three comma-free fields with ", " parses to the point of the first two fields; any other number of fields fails |
| Day24.PointRoundTrip | src/bin/24.rs:27-45 | writing a point as "x, y" and parsing it gives the point back |
| Day24.HailstoneOf | src/bin/24.rs:47-59 | a hailstone needs " @ " and both halves parsed as points; the text before the first " @ " is the position |
| Day24.HailstoneFromStr | src/bin/24.rs:47-59 | from_str computes exactly HailstoneOf |
| Day24.HailstoneRoundTrip | src/bin/24.rs:47-59 | writing a hailstone as "position @ velocity" and parsing it gives the hailstone back |
| Day24.ReadHailstones | src/bin/24.rs:99-108 | the lines are parsed in order; the first line that fails fails the whole input |
| Day24.PartOne | src/bin/24.rs:141-154 | None iff a line is not a hailstone; otherwise the number of pairs crossing, by the corrected intersection, in the area 2*10^14 to 4*10^14 |
| Day25.NodeNameOf | src/bin/25.rs:54-76 | a name parses iff it has exactly three characters, and the name is those characters |
| Day25.NameRoundTrip | src/bin/25.rs:54-76 | writing a name and parsing it gives the name back |
| Day25.NodeNameFromStr | src/bin/25.rs:57-75 | the character loop computes exactly NodeNameOf: too few characters fail at the end, a fourth fails at once |
| Day25.Grow | src/bin/25.rs:98-105 | the matrix stays square with one more node; the new row and column are false and every old cell keeps its value |
| Day25.Inserted | src/bin/25.rs:91-109 | the new name is numbered with the previous name count, and the names stay numbered 0 to n - 1 over a square symmetric matrix |
| Day25.WithNode | src/bin/25.rs:111-116 | the name is known afterwards with the number node_ix returns; every known name keeps its number and no other name is added |
| Day25.WithNodeCell | src/bin/25.rs:111-116 | node_ix changes no cell between known names, and a new node has no neighbours |
| Day25.Link | src/bin/25.rs:121-122 | exactly the cells (i, j) and (j, i) are set, so a symmetric matrix stays symmetric |
| Day25.Connected | src/bin/25.rs:118-123 | connecting keeps the builder consistent, keeps every number and adds exactly the two names |
| Day25.ConnectedCell | src/bin/25.rs:118-123 | after connect two names are adjacent iff they were before or they are the two names connected |
| Day25.Build | src/bin/25.rs:130-143 | connecting any list of wires from an empty builder keeps the names numbered over a square symmetric matrix |
| Day25.BuildNames | src/bin/25.rs:130-143 | the builder knows exactly the names that some wire mentions |
| Day25.BuildCells | src/bin/25.rs:130-143 | two known names are adjacent iff some listed wire joins them, in either order |
| Day25.GraphBuilder.constructor | src/bin/25.rs:85-89 | a new builder is the empty state |
| Day25.GraphBuilder.InsertNode | src/bin/25.rs:91-109 | the row loop leaves exactly the Inserted state and returns the previous name count |
| Day25.GraphBuilder.NodeIx | src/bin/25.rs:111-116 | returns the known number or inserts the name, leaving exactly the WithNode state |
| Day25.GraphBuilder.Connect | src/bin/25.rs:118-123 | leaves exactly the Connected state |
| Day25.GraphOf | src/bin/25.rs:126-149 | a graph read from text is square and symmetric |
| Day25.EdgesOfFails | src/bin/25.rs:132-142 | one line that does not read fails the whole text |
| Day25.MissingSeparator | src/bin/25.rs:133-135 | a line without ": " fails the whole text |
| Day25.LineRoundTrip | src/bin/25.rs:132-142 | a written line "abc: def ghi" reads back as the wires from its first name to each other name, in order |
| Day25.ConnectAll | src/bin/25.rs:139-142 | the inner loop succeeds iff every name after ": " parses, and then has connected the first name to each of them in order |
| Day25.GraphFromStr | src/bin/25.rs:126-149 | the builder loops compute exactly GraphOf, errors included |
| Day25.ExternalUpTo | src/bin/25.rs:22-28 | a node has at most one external neighbour per node counted, and none once it is removed |
| Day25.CutSizeCounts | src/bin/25.rs:19-30 | the total is exactly the number of wires from a retained node to a removed one |
| Day25.LastMax | src/bin/25.rs:35-39 | the chosen node has the largest count and every later node a smaller one (the last maximum); 0 when there are no nodes |
| Day25.Cut | src/bin/25.rs:18-41 | the loop stops at once when three wires cross the cut; when it stops, three wires cross and only nodes are removed, none restored |
| Day25.CutStep | src/bin/25.rs:35-40 | a pass that does not stop removes the last node with the most external neighbours |
| Day25.GroupSizes | src/bin/25.rs:12-45 | the two group sizes add up to the number of nodes |
| Day25.NothingRemoved | src/bin/25.rs:13-30 | with every node retained no wire crosses the cut |
| Day25.FirstRemoval | src/bin/25.rs:18-40 | the first pass never stops and removes the last node |
| Day25.ExternalCount | src/bin/25.rs:22-28 | the inner sum for one node is ExternalUpTo over all nodes |
| Day25.ExternalNeighbours | src/bin/25.rs:19-29 | the collected counts are exactly Externals |
| Day25.SumOf | src/bin/25.rs:30 | the loop sum is Sum |
| Day25.LastMaxIndex | src/bin/25.rs:35-39 | the max_by loop, keeping a later count that is at least as large, computes LastMax |
| Day25.CountKept | src/bin/25.rs:43 | the loop counts the retained flags |
| Day25.AllRetainedArray | src/bin/25.rs:13-16 | every node starts retained |
| Day25.RemoveUntilCut | src/bin/25.rs:18-41 | the loop over the retained array ends as Cut says, or runs out of fuel exactly when Cut does |
| Day25.GroupSizesWithThreeRemoved | src/bin/25.rs:12-45 | computes exactly GroupSizes |
| Day25.PartOne | src/bin/25.rs:151-159 | None when the text is not a graph, otherwise the product of the two group sizes |

## Left out

- `src/bin/06.rs`: the boat races are solved with `f64` square roots, and floating point is not modelled.
- `part_two` of days 3, 4, 7, 11, 18, 19, 21, 23, 24 and 25: each returns `None` without reading its input, so there is nothing to model beyond that.
- `test_part_one` and `test_part_two` of every day: they read the puzzle's example from a file that is not part of this model. The same holds for the tests that parse that file (`test_parse_input`, `test_read_bricks`, `test_read_hailstones_2d`, `test_parse_graph`, `test_parse_trail_map`, `test_garden_from_str`, `test_parse_maze`, `test_parse_dish`, `test_parse_city`, `test_parse_contraption`). Where a unit test builds its data in the source, the `Examples` modules prove it, except for the lines below.
- Integer widths: `u32`, `u64`, `usize`, `i32` and `i64` arithmetic is on unbounded integers, so an overflow that would panic in a debug build or wrap in a release build is not modelled. The exceptions are the ones the members state: the `u32` shift of the card score, the mask widths of day 13, the `i64` bounds of day 24 and the bound on the step count of day 23. Parsers keep the range of their Rust type.
- Panics become preconditions, and those members do not cover the panicking input. The cases are:
  - an odd seed count in day 5;
  - a fork with no directions in day 8;
  - grid text with characters past the fixed grid in days 10, 14, 16, 17 and 23;
  - a star past the 140 by 140 grid in day 11 (`StarsFit`), where `from_str` indexes past the end of its flag arrays;
  - a walker of day 10 that leaves the grid (`EscapesAfterMeeting`), where `cross_edge` underflows or the grid is indexed past its end;
  - a spring row of day 12 with a character other than '.', '#' and '?' (`ValidSprings`, `ValidLine`), on which the recursion need not end.
  - a ragged garden in day 21;
  - bricks past the fixed volume in day 22;
  - an empty graph in day 25.
- Day10.PartOne: a walker may leave the grid only after two walkers met at fewer pipes. A maze where a walker leaves the grid at the same pipe count as the first meeting is excluded, even when the source pops the meeting walker first and returns.
- Day10Maze.FurthestPointInLoop: the same precondition as `Day10.PartOne`, with the same exclusion.
- Day12.ArrangementCalculator.PossibleArrangementsForLine: rows with other characters are excluded, although the source counts some of them, such as "#x 1", which counts 1.
- Day08.PartTwo: the converted loops are combined by the corrected `ChineseRemainder`, not by the source's `chinese_remainder_theorem` (see Findings). Where the source's sum of terms is a non-zero multiple of the product, the source answers 0 and the model the least positive solution. For loops 4 mod 12 and 9 mod 18, which convert to 4 mod 4 and 9 mod 9, the source answers 0 and the model 36.
- Day10Enclosed.Adjacent: the corrected adjacency, in which a corner in column 0 has no west neighbour. The source's `checked_sub(1)` wraps it to the last cell of the row above (see Findings, `Day10Pipes.AsWrittenWestWraps`).
- Day10Enclosed.SpacesEnclosedByLoop: counts under the corrected adjacency. Where the wrap lets the source's flood into a cell the loop seals off, the source counts fewer cells. Take rows 0 to 2 of 138 '.' followed by "F-", by a vertical bar and '.', and by "L-", then an empty line, ".S7" and ".LJ". The source reaches cell (1, 139) from the top-left corner of cell (2, 0) and counts 0, the model 1.
- Day10.PartTwo: the count of `Day10Enclosed.SpacesEnclosedByLoop`, under the corrected adjacency, with the same difference from the source.
- Day13.FindMirrors: with a smudge, lines are filtered by the corrected rule of exactly one differing cell (see Findings). The source ORs the XORs of the mirrored pairs and also accepts a line where two pairs differ in the same column. The pattern "#", "#", ".", "." has the horizontal mirror at line 2 in the source and none in the model. Without a smudge the two agree (`Day13.PerfectMirrors`).
- Day13.TotalMirrorValueMeaning: stated through the corrected filter. With a smudge, the pattern "#", "#", ".", "." gives Some(200) in the source and None in the model.
- Day24.IntersectionOf: the corrected crossing (see Findings). It reports Past whenever an exact crossing time is negative. The source, rounding tenths toward zero, reports Future when a crossing time lies strictly between minus one tenth and zero. `Day24.IntersectionAsWritten` models the source and `Day24.AsWrittenDiffers` bounds the difference.
- Day24.CrossingPairsMembers: the pairs are those whose corrected crossing lies in the area. A pair crossing less than a tenth of a step in the past is not among them, although the source counts it.
- Day24.CountLater: counts under the corrected crossing, with the same difference from the source.
- Day24.IntersectingPairsInArea: counts under the corrected crossing. Take a = (2e14 + 1, 3e14) moving (20, 0) and b = (2e14, 3e14 + 5) moving (0, -1): the source counts 1 and the model 0.
- Day24.PartOne: the count of `Day24.IntersectingPairsInArea`, with the same difference from the source.
- Day08.StepsToReach, Day08.FindAToZLoop: the source loops without bound. The model runs with a step budget and reports `OutOfFuel` when it runs out. Day 19's workflow loop and day 25's cut loop are fuelled the same way.
- Day 8 `HashMap` iteration order: the starts ending in `A` are taken in an unspecified order, and results are stated up to that order.
- Day 11: `TotalGalacticDistance` is stated through `TotalIsHalfOrdered` rather than by its own ensures. Instantiating the ordered-pair sum on the example grid is too costly.
- Day 12: the examples with unknown springs (`test_possible_arrangements_with_unknown` and the unfolded line) are not proved, because enumerating their fillings is too costly. The known rows are proved.
- Day 13: the smudged pattern examples (`test_pattern_find_mirrors_with_smudge`) are not proved, because evaluating the literal XORs is too costly. The smudge-free examples and `test_mirrors_in_sequence` are proved. A pattern of more than 64 rows or columns overflows the shift and is excluded by precondition.
- Day 14: `test_parse_dish_roll_north` and `test_load_on_support_beams` on the literal example dish are not proved, because evaluating a roll of a literal 100 by 100 grid is too costly. The laws of every roll and of the load are proved for all grids instead.
- Day 15: the example's eleven steps are proved box by box (boxes 0, 1 and 3) and through the final focusing power of 145, not as one run over all 256 boxes. Part one's 1320 needs the example file.
- Day 16: a line longer than 110 characters spills into the next row. The layout lemma assumes lines no longer than a row; reading such text is still modelled by `FromStr`.
- Day 17: the example results 102 and 94, `test_reachable_states` and `test_initial_states_mega_crucible` are not proved. They need a concrete 13 by 13 example inside the 141 by 141 grid.
- Day 17: heat loss is an unbounded integer, where the source sums in `u32`.
- Day 19: the accepted total is an unbounded integer, where the source sums in `u32`. The example workflows that `test_system_process` uses are given directly as values, since `test_parse_input` reads them from the example file.
- Day20.PartOne: the 1000 presses run with a delivery budget, and a run that exhausts it returns `None`, where the source keeps going. The contract says so: for an input that parses, `None` means the budget was spent with a press still unfinished.
- Day20.PartTwo: the presses run with a delivery budget, and a run that exhausts it returns `None`, where the source keeps going. The contract lists this among the cases in which `None` arises, beside the source's own (no module sends to `rx`, or the one that does is no conjunction).
- Day20.PressButtonTimes, Day20.FindLcm: the source loops run with a delivery budget in the model, and `None` reports that it ran out.
- Day 20: the example's `press_button_times` counts (4250 and 2750 for a thousand presses) are not proved, because a thousand presses are far beyond what the verifier can evaluate.
- Text: input is taken to be ASCII. Rust's `trim`, `split_whitespace` and `lines` also treat Unicode white space such as U+0085 and U+00A0 as white space; `Text.IsWhitespace` recognises only the space and the characters from tab to carriage return. Byte slicing (`line[pos..pos + word.len()]` on day 1, `&springs[2..]` on day 12) is modelled as character slicing, so the panics the source has off a character boundary on non-ASCII text are not modelled.
- Day 20: when no module sends to the watched conjunction, the source's `find_lcm` never returns. The model returns `None`.
- Day 20: `find_lcm` watches the destinations of low signals, following the code rather than a reading by sender.
- Day20.PressButtonTimes, Day20.PartOne, Day20.FindLcm, Day20.PartTwo: a module's `HashSet` of destinations is a sequence without repeats (`Dedup`), and its signals are queued in the order the destinations are listed on its line. The source queues them in the `HashSet`'s iteration order, which is unspecified and can differ from run to run. That order can change the Low and High counts and the presses at which a watched module first receives Low. For example, take "broadcaster -> pp, qq", "&pp -> cc", "%qq -> xx", "%xx -> cc" and "&cc -> zz". In line order (pp before qq), press 2 counts 5 Low and 3 High pulses. Iterating qq before pp, it counts 6 Low and 2 High. The results are those of line order only.
- Day 20: `part_two`'s `HashMap` order is left unspecified.
- Day 21: the repeated-grid counts for 6, 50 and 100 steps (16, 1594 and 6536) are not proved. The 16 plots after six steps on the plain grid are proved.
- Day 22: `test_support_graph` is not proved. Settling the literal example bricks is too costly. The example graph is given directly, and removing bricks from it is proved.
- Day 22: `saturating_sub(1)` never saturates, because the removed brick is always counted. Ties in the sort by first cube are left unordered.
- Day 23: the example's longest hike of 94 is not proved. It needs an exhaustive search of a 23 by 23 map inside the 141 by 141 grid.
- Day 24: a `Future` crossing's coordinates are shown exact only when the crossing falls on a whole step (`ExactCrossing`). Otherwise they are the source's tenths-based estimate.
- Day 25: the example's group sizes (6 and 9) are not proved. The cut loop over fifteen nodes needs far more unrolling than the verifier does.

## Findings

| source | as written | input that shows it | evidently intended | confidence | as-written member | corrected member |
|---|---|---|---|---|---|---|
| src/bin/08.rs:299-303 | when the sum of the CRT terms is a non-zero multiple of the product, the result is that sum modulo the product, which is 0 | the single congruence 3 mod 3 gives 0 | the least positive solution, here 3, as the zero-sum branch already intends | not executed | Day08Congruences.AsWrittenReturnsZero | Day08Congruences.ChineseRemainder |
| src/bin/10.rs:135-209 | the west neighbour of a cell is `pos - 1` even in the first column, so a corner in column 0 moves west to the last cell of the row above | the top-left corner of cell 140 moves west to the top-right corner of cell 139, and no move leads back | no west neighbour in column 0, as the east neighbour already has none in the last column | not executed | Day10Pipes.AsWrittenWestWraps | Day10Pipes.AdjacentSymmetric |
| src/bin/13.rs:15-18 | the XORs of all mirrored pairs are ORed before the bits are counted, so two pairs that differ in the same single column count as one difference | the row masks [1, 1, 0, 0] are accepted with a smudge at line 2 although two cells differ | exactly one differing cell over all mirrored pairs | not executed | Day13.SmudgeAsWritten | Day13.MirrorsFrom |
| src/bin/24.rs:85-91 | the crossing times are kept in tenths rounded toward zero, so a crossing less than a tenth of a step in the past has time 0 and is not Past | stones at (1, 0) moving (20, 0) and at (0, 5) moving (0, -1) are reported as a Future crossing at (1, 0) | Past whenever a crossing time is negative | not executed | Day24.RecentPastAsWritten | Day24.IntersectionOf |
