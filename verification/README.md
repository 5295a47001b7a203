# Advent of Code 2023, days 1 to 5, in Dafny

A model of the per-day puzzle solvers `day01.py` … `day05.py`. Each solver
parses short puzzle text into a small structure and computes integer
answers. Every solver is one Dafny module holding:

- the data it works on, as datatypes;
- the script's computation, as functions or as methods with loops;
- a reference reading of the puzzle rules;
- lemmas that connect the script's computation to that reference.

- `wrappers.dfy` (`Wrappers`): `Option` and `Result`. A Python exception
  becomes a `Failure` carrying the exception's name and meaning.
- `text.dfy` (`Text`): the text scanning the scripts share.
  - Digits and decimal numbers, and digit runs (what `re.finditer(r"\d+")`
    yields).
  - The character classes `[ \d]` and `[\w-]`.
  - Splitting a string at a separator and joining it back.
  - Subsequences.
- `day01.dfy` (`Calibration`): calibration values.
  - Part 1 keeps a line's digits and combines the first and the last.
  - Part 2 first rewrites every spelled-out digit word `w` as `w`, digit,
    `w`, in the fixed order one … nine.
- `day02.dfy` (`CubeGame`): cube games.
  - Hands of `N colour` pairs are read from `;`-separated pieces.
  - A game is possible when no count exceeds the bag of 12 red, 13 green
    and 14 blue cubes.
  - A game's power is the product of its per-colour maxima.
- `day03.dfy` (`Schematic`): the engine schematic grid.
  - The cells bordering a digit run are enumerated.
  - Part 1 sums the runs that border a symbol.
  - Part 2 groups the runs by the `*` cells they border and sums the
    products of the pairs.
- `day04.dfy` (`Scratchcards`): scratchcards.
  - Lines of the form `Card N: … | …` are parsed.
  - Matches are the size of a set intersection.
  - A card with `m > 0` matches scores `2^(m-1)` points.
  - Part 2 is the copy cascade: card `i` adds its copies to the next `m`
    cards. It is proved equal to a reference recursion.
- `day05.dfy` (`Almanac`): the seed almanac.
  - Seven maps of `(dst, src, len)` ranges are applied in a fixed order.
    In each map the first range that contains the value moves it.
  - The answer is the lowest location over all seeds.
  - The script's cache of seed locations is modelled.
  - The regular expression that reads the map blocks is modelled, to show
    what it reads.
  - Range containment is a parameter, `Bounds`. `Inclusive` is the script's
    `src <= v <= src + len` and is what `Part1` uses. `HalfOpen` is the
    corrected reading, used by `Part1Fixed`; see "## Findings".

Inputs are taken as the script receives them after `strip()` and
`splitlines()`:

- Days 1 to 4 take the list of lines.
- Day 5 takes the stripped text, because its block pattern runs on the
  whole text.

## Model

| member | source | states |
|---|---|---|
| Text.RunsExact | day03.py:53-55 | `finditer(r"(\d+)")` yields exactly the maximal digit runs of a line, each with the text it covers and its start, in left-to-right order |
| Text.NumberValueOfString | day02.py:25 | reading the decimal text of a number gives the number back |
| Text.ClassEndSpec | day04.py:15 | a greedy `[ \d]+` or `[\w-]+` stops at the first character outside its class, and every character it passed is in the class |
| Text.JoinSplit | day02.py:22 | `line.split(";")` loses nothing: joining the pieces with `;` gives the line back |
| Text.SplitJoin | day02.py:22 | splitting pieces that hold no `;`, once joined, gives the same pieces |
| Calibration.DigitsSound | day01.py:19-21 | the digit string keeps a line's digits in order; it is empty exactly when the line has no digit, which is the case the script skips |
| Calibration.DigitsComplete | day01.py:19-21 | no digit of the line is dropped: the digit at position i is the entry of the digit string that follows the digits before i |
| Calibration.LineValueFromEnds | day01.py:19-22 | a line's value is 10 × the digit at its first digit position + the digit at its last digit position |
| Calibration.LineValue | day01.py:19-22 | a line's value is 10 × first digit + last digit, so at most 99; it is 0 for a line without digits and 11·d for a one-digit line `d` |
| Calibration.CalibrationSumAppend | day01.py:18-23 | the sum over two lists of lines is the sum of their sums |
| Calibration.CalibrationSumBound | day01.py:18-23 | the sum is at most 99 per line, and 0 when no line has a digit |
| Calibration.Part1 | day01.py:10-29 | the script's loop computes the sum of per-line values |
| Calibration.ReplaceAbsent | day01.py:59-60 | a substitution leaves a line without the word unchanged |
| Calibration.ExposeWordInserts | day01.py:59-60 | replacing `w` by `w`+digit+`w` only inserts characters: the line is a subsequence of the result |
| Calibration.ExposeFromInserts | day01.py:59-60 | the nine substitutions, in order, only insert characters |
| Calibration.DigitsMonotone | day01.py:19 | a subsequence of a line has a subsequence of its digits |
| Calibration.ReplaceShows | day01.py:59-60 | wherever the word occurs in a line, its substitution puts the word's digit into the line |
| Calibration.ExposeFromAbsent | day01.py:59-60 | substitutions for words the line does not hold leave it unchanged |
| Calibration.SpellingsFree | day01.py:32-42 | no spelled digit occurs inside another one |
| Calibration.ReplaceKeeps | day01.py:51-60 | a substitution keeps an occurrence of every word that does not contain the substituted one, even where the two overlap: no adjacent word is swallowed |
| Calibration.ExposeFromShows | day01.py:59-60 | a spelled digit present before any of the substitutions runs ends up as a character of the line they produce |
| Calibration.ExposeShowsDigit | day01.py:51-65 | every spelled-out digit a line holds, wherever it overlaps another, is a digit of the rewritten line |
| Calibration.SpelledLineHasDigit | day01.py:51-65 | a line that spells out any digit has a digit once rewritten, so part 2 gives it a value |
| Calibration.OneightDigits | day01.py:51-60 | both digits of the overlapping "oneight" survive: 1 and 8 are digits of its rewritten form |
| Calibration.ExposeKeepsDigits | day01.py:59-65 | after the rewriting, all original digits survive in order |
| Calibration.EightwoExample | day01.py:52-58 | "eightwo" is rewritten to "eight8eightwo2two", whose value is 82 |
| Calibration.ExposedSum | day01.py:46-65 | part 2's answer is at most 99 per line |
| Calibration.Part2 | day01.py:46-65 | the script's loop rewrites every line and then computes part 1's sum over the rewritten lines |
| CubeGame.ColorAt | day02.py:24 | a colour is matched only where its name occurs |
| CubeGame.DrawTextMatch | day02.py:24-25 | `N colour` followed by anything is matched as that pair, with its full length |
| CubeGame.HandRoundTrip | day02.py:23-25 | a hand written as "3 blue, 4 red" is parsed back to the same pairs in the same order |
| CubeGame.SpacedHandRoundTrip | day02.py:22-25 | the space after `;` or `:` does not change the hand |
| CubeGame.LabelHoldsNoDraw | day02.py:22-24 | the "Game N:" header yields no pair |
| CubeGame.GamePieces | day02.py:22 | a game's line splits at `;` into its header with the first hand, then the other hands |
| CubeGame.GameRoundTrip | day02.py:20-27 | a game written as the puzzle writes it is parsed back to its hands |
| CubeGame.DocumentRoundTrip | day02.py:19-26 | a document with game k + 1 written on line k is parsed back to its games, one per line in order, so a game's id is its line number |
| CubeGame.CheckGame | day02.py:41-48 | the script's flag is raised exactly when some pair's count exceeds the bag's count for its colour |
| CubeGame.EmptyGamePossible | day02.py:41-50 | a game with no pairs is possible |
| CubeGame.ValidIdSumBound | day02.py:38-51 | the sum of the ids of possible games is at most n(n+1)/2 |
| CubeGame.AllPossibleIdSum | day02.py:38-51 | the sum is exactly n(n+1)/2 when every game is possible |
| CubeGame.SumPossibleIds | day02.py:38-51 | the script's loop computes the sum of the 1-based ids of the possible games |
| CubeGame.HandNeedIsMax | day02.py:73-77 | a hand's need of a colour is at least every count of that colour in it, and is one of them or 0 |
| CubeGame.NeedIsMax | day02.py:66-77 | a game's need of a colour is at least every count of that colour drawn, and is one of them or 0 when the colour never appears |
| CubeGame.AbsentColorZeroPower | day02.py:66-85 | a colour that is never drawn has need 0 and makes the power 0 |
| CubeGame.PossibleBelow | day02.py:45-48 | a game whose hands all appear in a possible game is possible |
| CubeGame.NeedBelow | day02.py:73-77 | such a game needs no more cubes of any colour |
| CubeGame.PermutedHands | day02.py:45-77 | reordering a game's hands changes neither whether it is possible nor its needs nor its power |
| CubeGame.SmallestBag | day02.py:66-77 | the script's per-colour tally ends with each colour's need |
| CubeGame.BagPower | day02.py:81-85 | the product of the tallies is the game's power |
| CubeGame.SumPowers | day02.py:63-85 | the script's loop computes the sum of the games' powers |
| Schematic.ContainsSymbolIff | day03.py:10-11 | `re.search(r"[^\w.\n]")` succeeds exactly when some character is not a letter, digit, `_`, `.` or line break |
| Schematic.AdjacentCellsSound | day03.py:17-41 | every yielded cell is in the grid, borders the run without being part of it, and carries the grid's character at its position |
| Schematic.AdjacentCellsComplete | day03.py:21-41 | every in-grid cell bordering the run is yielded |
| Schematic.AdjacentCellsOrdered | day03.py:24-41 | the cells come in reading order |
| Schematic.AdjacentCellsDistinct | day03.py:24-41 | no coordinate is yielded twice |
| Schematic.FoundInExact | day03.py:52-55 | the scan over the rows finds exactly the maximal digit runs of the grid, each with its row and text |
| Schematic.RowFoundOrdered | day03.py:53-55 | a row's runs are found left to right |
| Schematic.FoundInOrdered | day03.py:52-55 | the scan finds the runs in strict reading order, row by row and left to right within a row |
| Schematic.AllFoundDistinct | day03.py:52-55 | no run of the grid is found twice |
| Schematic.PartValueIff | day03.py:56-66 | a run adds its number exactly when a symbol borders it, and adds 0 otherwise |
| Schematic.NoSymbolNoParts | day03.py:52-66 | a grid without symbols sums to 0 |
| Schematic.RunValue | day03.py:58-66 | what the script adds for one run is its number when its bordering characters hold a symbol |
| Schematic.Part1 | day03.py:44-72 | the script's loops compute the sum over every run of the grid in reading order; AllFoundDistinct shows each run is counted once |
| Schematic.NoteCellsLookup | day03.py:90-94 | noting a run's cells appends its number to a cell's list once for every time that cell is yielded as `*` |
| Schematic.StarCountDistinct | day03.py:90-94 | a `*` cell is yielded at most once for one run |
| Schematic.StarsLookup | day03.py:79-94 | the table lists, for every `*` cell, the numbers bordering it in reading order, and lists nothing for other cells |
| Schematic.StarsKeys | day03.py:79-94 | every key of the table is a `*` cell of the grid |
| Schematic.GearRatioSumSpec | day03.py:96-102 | part 2 sums, over the `*` cells bordered by exactly two numbers, the product of those numbers |
| Schematic.NoteRowRuns | day03.py:80-94 | the script's loop over one row's runs builds the table of the runs found so far |
| Schematic.Part2 | day03.py:75-104 | the script's loops compute part 2's sum |
| Scratchcards.FindBarFirst | day04.py:15 | the lazy `(.*?) \| ` stops at the first " \| " |
| Scratchcards.ParseCardComplete | day04.py:15-24 | a line of the form `Card N: W \| D` is read as the number sets of W and D |
| Scratchcards.ParseCardSound | day04.py:15-24 | every line that is read has that form, and is read as the number sets of its two parts |
| Scratchcards.ParseCardsIff | day04.py:14-24 | the document is read exactly when every line is, and then card k is line k's card |
| Scratchcards.MatchCountBound | day04.py:31 | the number of matches is at most the size of either set, and 0 exactly when they are disjoint |
| Scratchcards.PointsDouble | day04.py:32-33 | a card scores 0 without matches and 1 with one match, and each further match doubles its points |
| Scratchcards.PointsTotalZero | day04.py:29-33 | the total is 0 exactly when no card has a match |
| Scratchcards.PowerOfTwo | day04.py:33 | the loop computes 2 to the power `e` |
| Scratchcards.Part1 | day04.py:29-33 | the script's loop computes the sum of the cards' points |
| Scratchcards.CopiesAfterFails | day04.py:50-54 | the cascade fails with a KeyError exactly when some card has more matches than there are cards after it |
| Scratchcards.CopiesAfterValue | day04.py:46-54 | after k cards are scored, each card holds one copy plus what the scored cards won for it, so a card's count is final once it is reached |
| Scratchcards.CopiesExpected | day04.py:46-54 | at the end, each count equals the reference count: one plus the copies won from every earlier card whose matches reach it |
| Scratchcards.TotalCardsFacts | day04.py:46-57 | the answer fails exactly when some card's wins run past the last card; otherwise it is at least the number of cards |
| Scratchcards.WinCopies | day04.py:51-54 | the inner loop scores one card, failing when a won copy is past the last card |
| Scratchcards.Part2 | day04.py:42-57 | the script's loops compute the total number of cards |
| Almanac.MapLayerFirst | day05.py:43-49 | within a map, the first range that contains the value maps it to `v - src + dst`, and later ranges are ignored |
| Almanac.MapLayerMiss | day05.py:43-49 | a value that no range of the map contains passes through unchanged |
| Almanac.MapLayerLoop | day05.py:43-49 | the script's inner loop, with its `break`, computes one map's result |
| Almanac.ExampleSeventyNine | day05.py:44-48 | with the ranges `50 98 2` and `52 50 48`, 79 maps to 81 |
| Almanac.InclusiveBoundary | day05.py:44-45 | as written, 100 maps to 52 under those ranges, and 98 is claimed by both ranges, so their order decides its image |
| Almanac.HalfOpenBoundary | day05.py:44-45 | with the corrected test, 100 stays 100 |
| Almanac.HalfOpenAnyMatch | day05.py:43-49 | with the corrected test and disjoint sources, any range that contains the value decides the result, so the order of the ranges does not matter |
| Almanac.MapThroughAppend | day05.py:42-49 | running two lists of maps one after the other is running their concatenation |
| Almanac.MapThroughLoop | day05.py:41-49 | the script's loop over the maps applies them in list order |
| Almanac.NameOfIff | day05.py:15-22 | `SeedMapName(t)` recognises exactly the seven names, each as its own map |
| Almanac.ChainOrder | day05.py:82-90 | the maps are applied seed-to-soil, soil-to-fertilizer, … humidity-to-location whatever order the almanac lists them in; a missing map fails |
| Almanac.MinOfSpec | day05.py:34-53 | the running `min` from infinity finds a value exactly when there are values; the value is one of them and no larger than any |
| Almanac.LowestIsMin | day05.py:34-55 | the answer exists exactly when there are seeds; it is some seed's location and no seed's location is lower |
| Almanac.Visit | day05.py:38-51 | one seed's location is taken from the cache or worked out and cached, and either way it is the seed's location |
| Almanac.FindLowest | day05.py:25-55 | the cache stays right for the maps in use and gains exactly the seeds; the answer is the lowest location whether or not entries were reused |
| Almanac.TableHas | day05.py:68-73 | every map named by a block is in the table |
| Almanac.TableOnly | day05.py:68-73 | only maps named by a block are in the table |
| Almanac.TableLastWins | day05.py:68-77 | a map's ranges come from the last block with its name |
| Almanac.RowsOfLines | day05.py:69-70 | range lines that each end in a line break are all read by `(?:[\d ]+\n)+` |
| Almanac.MatchBlockAt | day05.py:69-70 | a block header `name map:` followed by a line break is matched, and its range lines are read from there |
| Almanac.NoColonNoBlocks | day05.py:69-70 | text without a colon holds no block |
| Almanac.LastRowDropped | day05.py:69-70 | as written, a block that ends the stripped text loses its last range line |
| Almanac.AllRowsRead | day05.py:69-70 | with the line break put back, every range line of the block is read |
| Almanac.OneRowBlockLost | day05.py:69-70 | as written, a block with one range line that ends the stripped text is not found at all |
| Almanac.Solve | day05.py:82-93 | once the maps are read, a missing map stops the script first, then having no seeds does; otherwise the answer is the lowest location of any seed through the maps of the seven names |
| Almanac.Part1Spec | day05.py:58-93 | part 1 from the text: an empty text fails, a block that does not parse fails, and otherwise the seeds of the first line are run through the maps the blocks name, inclusive ranges |
| Almanac.Part1FixedSpec | day05.py:58-93 | the same for the corrected reading: every block read to its last line, half-open ranges |

## Left out

- `utils.py`: the command line and printing. `utils.py` defines `printAnswer` (utils.py:134) and no `print_answer`. So every `utils.print_answer(...)` call in the day scripts raises an AttributeError once the answer is computed, and that part stops there. The command line runs part 1 first (utils.py:105-112), so as written it never reaches part 2. Day 1's part 2 would also stop inside its own call to part 1 (day01.py:65). The model deliberately treats each answer as a return value and does not model that error.
- `strip()` and `splitlines()` are not modelled. Days 1 to 4 take the lines, and the lines hold no line break. `\n` is the only line break.
- Calibration.Part2: part 1 is fed the rewritten lines directly. The script instead joins them with `\n` and strips and splits them again. That round trip only drops whitespace and blank lines at the ends of the text, which hold no digit and add 0.
- Unicode: `\d`, `\D` and `\w` are modelled on ASCII.
- Python's regular expression engine is not modelled. Each pattern the scripts use is written as a scanner that follows the pattern's leftmost, greedy or lazy matching for these patterns.
- Schematic: the grid is required to be rectangular. Puzzle inputs are. On a ragged grid the script can fail with an IndexError or read a short row, and the model does not follow it there.
- Schematic.Part2: the script sums the table's entries in dictionary order. The model walks the grid's cells in reading order instead. `StarsKeys` shows that every key is a grid cell, and integer addition does not depend on order.
- Almanac.RangeOf: a range line whose number count is not three is rejected when the block is read. The script fails only when a seed that is not cached reaches that tuple, and it always fails for such a map when a seed gets there.
- Almanac.RangeOf: a line of spaces at the start or end of a block is rejected. The script's `strip()` of the block removes such a line.
- Almanac: the cache is one value passed in and returned. It is not a process-wide dictionary shared between different maps. `FindLowest` requires it to be right for the maps in use.
- Almanac: with no seeds, `int(math.inf)` raises an OverflowError, which is modelled as a `Failure`. Any other use of infinity is left out.

## Findings

| source | as written | input that shows it | evidently intended | confidence | as-written member | corrected member |
|---|---|---|---|---|---|---|
| day05.py:44-45 | `source_start <= current_value <= source_end` with `source_end = source_start + length` | map `50 98 2` / `52 50 48`: 100 maps to 52, and 98 is claimed by both ranges | a range covers `length` values, `src <= v < src + len`: 100 stays 100, and for disjoint sources the order of the ranges does not matter | high, not executed | Almanac.InclusiveBoundary | Almanac.HalfOpenAnyMatch |
| day05.py:69-70 | the block pattern wants a line break after every range line but runs on `puzzle_input.strip()` | an almanac ending `humidity-to-location map:\n60 56 37\n56 93 4` reads that map as `60 56 37` only; if that block has a single range line it is not found at all, and the missing map raises a KeyError (day05.py:82-90) | every range line is read | high, not executed | Almanac.LastRowDropped, Almanac.OneRowBlockLost | Almanac.AllRowsRead |
