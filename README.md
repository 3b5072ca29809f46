# Advent of Code 2023 solutions in Dafny

This project models the Rust solutions in `src/bin/` of an Advent of Code
2023 repository. Each day's binary becomes one Dafny module, and proofs about
that module check what the solution computes. Day 7 has two binaries, so it
has two modules, `D7Part1` and `D7Part2`. A shared module `Text` models the
string handling the solutions use from the Rust standard library:
`lines`, `split`, `split_whitespace`, `find` / `rfind` and decimal parsing.

Each module keeps the form of its source.

- Functions that only compute a value become Dafny functions, and lemmas prove
  what those functions mean.
- Loops become methods with loop invariants. Each such method is proved
  equal to a reference function, or proved to satisfy the property the
  puzzle asks for.
- Structs whose methods update fields in place become classes:
  - the day 10, 11, 14, 15, 16 and 17 grids;
  - the day 15 boxes, modelled as the `Boxx` class.
- Buffers the source indexes in place become arrays, for example the day 14
  tiles and the day 17 tile arrays.

Reading the puzzle input from a file and printing the answer are replaced by
parameters and results: each `solution` method takes the file's text as a
`string` and returns the number the source prints. Each solution requires
well-formed puzzle input, stated as a predicate on the text. The predicate
rules out the inputs on which an `unwrap` or `unreachable!` would panic. For
the grids of days 10, 14, 16 and 17 it also asks for lines of equal length,
and for day 17 for line feeds without carriage returns. The source reads such
input without panicking, with results the model does not cover, as
"Left out" says.

Integers are unbounded. The fixed widths of the source (`usize`, `i64`,
`u32`) are not modelled, except where a constant depends on them: day 17
starts every tile at `usize::MAX`.

## Model

| member | source | states |
|---|---|---|
| Text.DigitValue | src/bin/d17.rs:71 | `to_digit(10)` of a digit is at most 9 |
| Text.IndexOf | src/bin/d15.rs:67 | the first index of a character, or None when it does not occur |
| Text.Find | src/bin/d1.rs:46 | `find`: the smallest index where the pattern occurs, or None when it occurs nowhere |
| Text.FindFrom | src/bin/d1.rs:46 | the search from k finds the smallest occurrence, given none before k |
| Text.RFind | src/bin/d1.rs:53 | `rfind`: the largest index where the pattern occurs, or None when it occurs nowhere |
| Text.RFindBelow | src/bin/d1.rs:53 | the search below k finds the largest occurrence, given none from k on |
| Text.CharAt | src/bin/d15.rs:67 | a one-character pattern occurs exactly where that character is |
| Text.FindFirst | src/bin/d1.rs:46 | `find` returns the first occurrence |
| Text.FindJoined | src/bin/d12.rs:53 | the first separator of a + sep + b is the first one of a, or else the one after a |
| Text.Split | src/bin/d15.rs:57 | `split` always yields at least one piece |
| Text.SplitAt | src/bin/d15.rs:57 | the first piece ends where `find` locates the separator |
| Text.SplitAppend | src/bin/d12.rs:37-53 | splitting at a one-character separator undoes a join at that separator |
| Text.SplitAppendAfter | src/bin/d12.rs:37-53 | the case of a separator inside the first part: both splits start with its first piece |
| Text.WordLength | src/bin/d12.rs:25 | the first word runs at most to the end, and is non-empty when the text starts with a non-space |
| Text.Words | src/bin/d12.rs:25 | `split_whitespace` yields only non-empty words |
| Text.WordLengthOf | src/bin/d12.rs:25 | a word runs up to the first whitespace |
| Text.WordsPair | src/bin/d12.rs:51-57 | two words joined by one space split back into the two words |
| Text.WordOnly | src/bin/d12.rs:51 | a single word is its own `split_whitespace` |
| Text.WordsNoSpace | src/bin/d12.rs:25 | the words of `split_whitespace` hold no whitespace |
| Text.WordPrefixNoSpace | src/bin/d12.rs:25 | the first word holds no whitespace |
| Text.Reverse | src/bin/d13.rs:31 | `rev()`: element t of the result is element len - 1 - t of the input |
| Text.Repeat | src/bin/d12.rs:52-53 | `vec![s; n]`: n copies of s |
| Text.Concat | src/bin/d14.rs:22-24 | the concatenated lines are as long as all lines together |
| Text.ConcatSnoc | src/bin/d14.rs:22-24 | appending a line appends its characters |
| Text.ConcatAt | src/bin/d14.rs:22-36 | in a rectangular grid the character at index y * w + x of the flattened lines is line y's character x |
| Text.RectangularLength | src/bin/d14.rs:25 | rectangular lines of width w hold h * w characters |
| Text.RowProduct | src/bin/d14.rs:36 | the row offset of row y is y * w |
| Text.RowLess | src/bin/d14.rs:36 | an earlier row's cells all come before a later row's |
| Text.RowUnique | src/bin/d14.rs:36-41 | row-major indexing is one-to-one on the cells of a width-w grid |
| Text.IndexBound | src/bin/d14.rs:36-41 | the index of a cell inside a w-by-h grid is below the cell count |
| Text.HeightFromLength | src/bin/d17.rs:58 | for a rectangular text without carriage returns, `(len + 1) / (width + 1)` is the line count |
| Text.LinesLength | src/bin/d17.rs:58 | the text is its lines plus one separator between each two (and a trailing one if present) |
| Text.LinesLengthAt | src/bin/d17.rs:58 | the case of a first line feed at i: one line of length i, then the lines after it |
| Text.MulLe | src/bin/d11.rs:32 | multiplying by the same factor keeps the order |
| Text.DivMod | src/bin/d14.rs:25 | dividing y * w + x by w gives back y, with remainder x |
| Text.Lines | src/bin/d1.rs:5 | `lines` yields no line for empty text, and no line it yields holds a line feed |
| D1.FirstDigit | src/bin/d1.rs:6 | the index found is a digit and no digit comes before it |
| D1.LastDigit | src/bin/d1.rs:7-11 | the index found from the back is a digit and no digit comes after it |
| D1.Value1 | src/bin/d1.rs:12-14 | the first digit is at or before the last, the value is at most 99, and a line with a single digit counts it twice |
| D1.Solution1 | src/bin/d1.rs:2-17 | the loop adds up the value of every line |
| D1.TokensAreDigits | src/bin/d1.rs:21-40 | every entry of the table of digits and digit names has a value from 1 to 9 |
| D1.MinByKey | src/bin/d1.rs:58 | the entry chosen is in the list and has the least index |
| D1.MaxByKey | src/bin/d1.rs:59 | the entry chosen is in the list and has the greatest index |
| D1.TokenFinds | src/bin/d1.rs:44-61 | when some token occurs, both `find` and `rfind` locate something, and the line's value is ten times the minimum's value plus the maximum's value |
| D1.FindsNonEmpty | src/bin/d1.rs:44-57 | one token that `find` locates makes both lists of positions non-empty |
| D1.LeftMeaning | src/bin/d1.rs:44-50 | the `find` minimum is the leftmost position where any token starts, and its value belongs to the first table entry starting there |
| D1.RightMeaning | src/bin/d1.rs:51-57 | the `rfind` maximum is the rightmost position where any token starts, and its value belongs to the last table entry starting there |
| D1.LeftIsScan | src/bin/d1.rs:44-50 | the `find` minimum is what a left-to-right scan of the line finds first |
| D1.RightIsScan | src/bin/d1.rs:51-57 | the `rfind` maximum is what a right-to-left scan of the line finds first |
| D1.ValueMeaning | src/bin/d1.rs:58-61 | a line's value is ten times the leftmost token's value plus the rightmost token's value, and lies between 11 and 99 |
| D1.Value2 | src/bin/d1.rs:21-61 | with the source's token table, the value is ten times the leftmost digit or digit name plus the rightmost one |
| D1.Value2Range | src/bin/d1.rs:60-61 | every line adds between 11 and 99 |
| D1.LeftValues | src/bin/d1.rs:44-50 | every value `find` reports comes from the table, so lies from 1 to 9 |
| D1.RightValues | src/bin/d1.rs:51-57 | every value `rfind` reports comes from the table, so lies from 1 to 9 |
| D1.OverlapExample | src/bin/d1.rs:44-61 | spellings may share letters: "oneight" has value 18 |
| D1.Solution2 | src/bin/d1.rs:19-63 | the loop adds up the value of every line under the token table |
| D1.AddLine | src/bin/d1.rs:58-61 | one round of the loop adds the line's value to the total |
| D1.LeftEmpty | src/bin/d1.rs:44-50 | when `find` locates no token, no token occurs in the line at all |
| D1.RightEmpty | src/bin/d1.rs:51-57 | when `rfind` locates no token, no token occurs in the line at all |
| D1.RightNonEmpty | src/bin/d1.rs:51-57 | one token that `rfind` locates makes the list of positions non-empty |
| D1.FoundInRange | src/bin/d1.rs:44-50 | every position `find` reports lies within the line |
| D1.RightInRange | src/bin/d1.rs:51-57 | every position `rfind` reports lies within the line |
| D1.FirstTokenIs | src/bin/d1.rs:44-58 | where several tokens start at one position, the first in table order gives the value, as `min_by_key` keeps the first minimum |
| D1.LastTokenIs | src/bin/d1.rs:51-59 | where several tokens start at one position, the last in table order gives the value, as `max_by_key` keeps the last maximum |
| D1.NoFirstToken | src/bin/d1.rs:44-50 | where no token starts, nothing is found at that position |
| D1.NoLastToken | src/bin/d1.rs:51-57 | where no token starts, nothing is found at that position from the back |
| D1.NoneAt | src/bin/d1.rs:51-57 | when `rfind` locates no token, no position holds one |
| D1.ScanFirstFinds | src/bin/d1.rs:44-50 | the left-to-right scan stops at the first position where a token starts, with that position's value |
| D1.ScanLastFinds | src/bin/d1.rs:51-57 | the right-to-left scan stops at the last position where a token starts, with that position's value |
| D1.FirstOfExample | src/bin/d1.rs:44-50 | in "oneight" the leftmost token is "one", at position 0 |
| D1.LastOfExample | src/bin/d1.rs:51-57 | in "oneight" the rightmost token is "eight", at position 2 |
| D1.EightAtTwo | src/bin/d1.rs:51-57 | the token found at position 2 of "oneight" has value 8 |
| D1.NothingAfterEight | src/bin/d1.rs:51-57 | no token starts after position 2 of "oneight" |
| D2.Draw | src/bin/d2.rs:37-45 | one draw yields one entry per ", "-separated part |
| D2.Most | src/bin/d2.rs:25-47 | the summary of a colour bounds every count shown for it and is reached by one of them, or is 0 when the colour never appears |
| D2.MostUnique | src/bin/d2.rs:25-47 | a count that bounds every count shown and is reached (or is 0) is the summary |
| D2.MostOrderFree | src/bin/d2.rs:32-47 | the summary does not depend on the order or repetition of the entries |
| D2.MostAppend | src/bin/d2.rs:32-47 | splitting the entries into draws does not matter: the summary of two parts is the larger of theirs |
| D2.RecordStep | src/bin/d2.rs:40-45 | one entry's update keeps the game summarising the entries read so far |
| D2.RecordDraw | src/bin/d2.rs:36-47 | the closure run on one draw extends the summary over that draw's entries |
| D2.ParseGame | src/bin/d2.rs:19-49 | `Game::from` gives the line's id and, for each colour, the largest count shown |
| D2.MostFits | src/bin/d2.rs:64 | when every entry fits in the bag, so does each colour's largest count |
| D2.PossibleMeaning | src/bin/d2.rs:64 | the comparison holds exactly when every entry shown fits in the bag of 12 red, 13 green and 14 blue |
| D2.MulMono | src/bin/d2.rs:13-15 | the power is monotone in each colour |
| D2.PowerIsLeast | src/bin/d2.rs:13-15 | the game's maxima form a bag that fits all of its entries, and no such bag has a smaller power |
| D2.Solution1 | src/bin/d2.rs:52-69 | the loop adds the ids of the possible games |
| D2.Solution2 | src/bin/d2.rs:71-80 | the loop adds the powers of all games |
| D2.FlatSnoc | src/bin/d2.rs:36-47 | one more draw adds its entries to those read so far |
| D2.PossibleIdsSnoc | src/bin/d2.rs:62-67 | one more line adds its id when the game is possible and nothing otherwise |
| D2.PowersSnoc | src/bin/d2.rs:75-78 | one more line adds the power of its game |
| D2.Possible | src/bin/d2.rs:64 | a game is possible exactly when no colour was seen more often than the bag holds |
| D2.Power | src/bin/d2.rs:13-15 | `power` is zero exactly when some colour was never seen |
| D3.DivBound | src/bin/d3.rs:27 | the truncating division for the width never overshoots: width times height is at most the number of characters |
| D3.FromStr | src/bin/d3.rs:20-33 | the grid holds every character of every line, row after row, its height is the line count, and every in-bounds position has a character |
| D3.FromStrRowMajor | src/bin/d3.rs:14-33 | on lines of equal length the width is the line length and `get_value(x, y)` is character x of line y |
| D3.RowFits | src/bin/d3.rs:14-19 | a whole row lies inside the stored characters |
| D3.RowText | src/bin/d3.rs:44-45 | row y read cell by cell is `get_value` at each column |
| D3.RunEnd | src/bin/d3.rs:54-67 | a digit run ends at the first non-digit or at the end of the row |
| D3.RunEndAt | src/bin/d3.rs:54-67 | any stretch of digits followed by a non-digit or the row's end is the run's end |
| D3.RunsFromMaximal | src/bin/d3.rs:42-81 | every number found is a maximal digit run of its row, with the decimal value of its digits |
| D3.RunsFromOrdered | src/bin/d3.rs:42-81 | the numbers of a row come left to right, with a non-digit between neighbours |
| D3.RunsFromCovers | src/bin/d3.rs:42-81 | every digit of the row belongs to one of the numbers found |
| D3.MaximalUnique | src/bin/d3.rs:42-81 | two maximal runs sharing a column are the same number |
| D3.RunsAreMaximalRuns | src/bin/d3.rs:42-81 | the numbers of a row are exactly its maximal digit runs |
| D3.NumbersUpTo | src/bin/d3.rs:42-81 | every number found lies inside the grid on one row and consists of digits |
| D3.RowPlaced | src/bin/d3.rs:44-80 | the numbers of one row lie inside the grid and consist of digits |
| D3.NumbersInRows | src/bin/d3.rs:42-81 | every number comes from a row already scanned and is a maximal run of that row; runs never span rows |
| D3.SkipStep | src/bin/d3.rs:44-45 | a non-digit with no number open changes nothing but the column |
| D3.OpenStep | src/bin/d3.rs:48-79 | a digit with no number open starts one here, completed at once at the end of the row |
| D3.ExtendStep | src/bin/d3.rs:54-79 | a digit with a number open extends it, completed at the end of the row |
| D3.CloseStep | src/bin/d3.rs:59-67 | a non-digit with a number open completes the number at the previous column with the value of the buffered digits |
| D3.RowNumbers | src/bin/d3.rs:43-80 | the inner loop appends exactly the maximal digit runs of row y, left to right |
| D3.GetNumbers | src/bin/d3.rs:35-83 | `get_numbers` lists the maximal digit runs of every row, row by row |
| D3.Span | src/bin/d3.rs:93-94 | the range `min_x..=max_x` at one row, cell by cell |
| D3.Surrounding | src/bin/d3.rs:85-106 | the box has 2 * (box width) + 2 cells, all inside the grid: the top and bottom rows of the clipped box and the cells at its two ends on the number's row |
| D3.SurroundingIsNeighbourhood | src/bin/d3.rs:85-106 | every in-grid cell touching the number is in the box, and every box cell touches the number or is one of its own digits |
| D3.AnySymbol | src/bin/d3.rs:111-114 | `any` holds exactly when some box cell holds ASCII punctuation other than '.' |
| D3.DigitIsNotSymbol | src/bin/d3.rs:113 | a digit is never a symbol |
| D3.AnySymbolAround | src/bin/d3.rs:108-115 | a symbol touching the number is found, and what is found touches the number or sits on its own cells |
| D3.NearSymbol | src/bin/d3.rs:108-115 | for a number made of digits, the test holds exactly when a symbol lies on a cell touching the number |
| D3.Gears | src/bin/d3.rs:119-122 | the filter keeps exactly the listed cells holding '*' |
| D3.PossibleGears | src/bin/d3.rs:117-123 | `get_possible_gears` returns exactly the box cells holding '*' |
| D3.PartNumbers | src/bin/d3.rs:155-158 | the filter keeps exactly the numbers with a symbol touching them |
| D3.PartSumBound | src/bin/d3.rs:160 | the part numbers add up to at most the sum of all numbers, and to that sum when every number is a part |
| D3.Solution1 | src/bin/d3.rs:150-164 | the answer is the sum of the part numbers of the parsed grid, at most the sum of all its numbers |
| D3.Quotient | src/bin/d3.rs:27 | the truncating division of the character count by the line count never overshoots: the quotient times the line count is at most the character count |
| D3.RowQuotient | src/bin/d3.rs:27 | w rows of n characters divided by n give w |
| D3.FromStrWidth | src/bin/d3.rs:20-33 | on lines of equal length w, `from_str` computes width w |
| D3.ScanColumn | src/bin/d3.rs:44-79 | one column of the inner loop keeps the scanner's invariant: numbers completed so far are the maximal runs ending before the column |
| D3.SpanMembers | src/bin/d3.rs:93-94 | a span holds exactly the cells of its row between its ends |
| D4.NonEmpty | src/bin/d4.rs:13 | the filter keeps exactly the non-empty parts |
| D4.Nats | src/bin/d4.rs:16-23 | one number per word |
| D4.ParseCard | src/bin/d4.rs:12-30 | the winning numbers are exactly the numbers before " \| ", and mine are one per word after it |
| D4.Winners | src/bin/d4.rs:38-42 | each winning number of mine is kept as often as it occurs, every other number is dropped |
| D4.MatchesOrderFree | src/bin/d4.rs:38-42 | the match count depends only on which numbers I hold and how often, not on their order |
| D4.Pow2 | src/bin/d4.rs:44-45 | a power of two is at least 1 |
| D4.ScoreGrowth | src/bin/d4.rs:43-46 | a card without matches is worth nothing, each further match doubles the worth, and the worth is at least the match count |
| D4.Cards | src/bin/d4.rs:35 | one parsed card per line, in order |
| D4.Solution1 | src/bin/d4.rs:33-49 | the loop adds the worth of every card |
| D4.Won | src/bin/d4.rs:64-66 | one card's inner loop keeps the number of counts |
| D4.Cascade | src/bin/d4.rs:57-67 | the outer loop keeps the number of counts |
| D4.SumUpdate | src/bin/d4.rs:65 | changing one count changes the total by the difference |
| D4.WonUpTo | src/bin/d4.rs:64-66 | the first i steps of the inner loop keep the number of counts |
| D4.WonUpToSum | src/bin/d4.rs:64-66 | each step of the inner loop adds the copies of card `id` once to the total |
| D4.WonGrowth | src/bin/d4.rs:64-66 | a card with k matches adds k times its own count to the total, and no count shrinks |
| D4.WonSumGrows | src/bin/d4.rs:64-66 | one card never lowers the total |
| D4.CascadeGrows | src/bin/d4.rs:57-67 | every card keeps at least the copies it started with |
| D4.CascadeSum | src/bin/d4.rs:57-67 | the total number of cards never falls |
| D4.SumOnes | src/bin/d4.rs:54 | one copy of each of n cards makes n cards |
| D4.AddCopies | src/bin/d4.rs:64-66 | the inner loop, in place on `card_counts`, gives the counts of the reference step |
| D4.TotalCards | src/bin/d4.rs:54-68 | the answer is the sum of the counts after the cascade, and at least the number of cards |
| D4.Solution2 | src/bin/d4.rs:51-69 | the answer for the parsed cards is the cascade's total, at least the number of lines |
| D4.SumScoresSnoc | src/bin/d4.rs:36-47 | one more card adds its worth |
| D4.WonUpToStep | src/bin/d4.rs:64-66 | the i-th step of the inner loop raises only entry id + i - 1 of `card_counts`, by the count of card id |
| D4.CascadeSnoc | src/bin/d4.rs:57-67 | one more card of the outer loop adds its copies to the cards after it, within the table |
| D4.AllFitPrefix | src/bin/d4.rs:57-67 | cards whose wins stay inside the table still do in any prefix |
| D4.SumAll | src/bin/d4.rs:68 | the loop adds up every count of the array |
| D5.RangeMapping | src/bin/d5.rs:12-17 | a range maps num exactly when num lies in its source range, and keeps num's offset from the source start |
| D5.LookupFirst | src/bin/d5.rs:44-51 | the first range that maps num decides its image |
| D5.LookupIdentity | src/bin/d5.rs:44-51 | a number no range contains maps to itself |
| D5.GetMapping | src/bin/d5.rs:44-51 | `Map::get_mapping` returns the reference lookup: the first matching range, else num |
| D5.SectionsNonempty | src/bin/d5.rs:68-84 | the map sections are non-empty exactly when some line is a two-word header |
| D5.Seeds | src/bin/d5.rs:58-63 | the seeds are the numbers after the label of the first line, one per word |
| D5.MapsOfLatest | src/bin/d5.rs:74-77 | a name is bound to the ranges of the last section carrying it, since `insert` replaces |
| D5.MapsOfAddRange | src/bin/d5.rs:79-83 | a range line extends the ranges bound to the current map name |
| D5.SectionsSnoc | src/bin/d5.rs:68-84 | one more line opens a section, adds a range to the latest one, or is skipped |
| D5.ParseMaps | src/bin/d5.rs:64-84 | the loop builds the table that binds each name to its last section's ranges |
| D5.MinLocationIsMin | src/bin/d5.rs:86-107 | the lowest location is at most `usize::MAX`, below every seed's location, and below `usize::MAX` is one of them |
| D5.SeedLocation | src/bin/d5.rs:100-103 | the inner loop sends a seed through the seven named maps in order |
| D5.LowestLocation | src/bin/d5.rs:86-107 | the location loop computes the least location, starting from `usize::MAX` |
| D5.Solution1 | src/bin/d5.rs:54-109 | the answer bounds the location of every seed and is the location of one of them, unless there are no seeds |
| D5.SourceEnd | src/bin/d5.rs:119-121 | the source end is the last number covered |
| D5.MapForward | src/bin/d5.rs:127-129 | a number keeps its offset from the start of the range |
| D5.End | src/bin/d5.rs:222-224 | the seed's end is its last number |
| D5.OverlapsMeans | src/bin/d5.rs:131-137 | `fully_contains` is containment of the number sets and `overlaps` is their intersection |
| D5.SplitPartition | src/bin/d5.rs:183-220 | except when the seed shares exactly one end with the range, the pieces tile the seed in order and each lies on one side of the range; a contained or disjoint seed comes back whole |
| D5.SplitEmpty | src/bin/d5.rs:183-220 | `split` returns nothing exactly when the seed overlaps the range partly and shares one end with it |
| D5.SplitExamples | src/bin/d5.rs:291-326 | the unit test's three splits give the pieces the test expects |
| D5.SplitLosesSeed | src/bin/d5.rs:183-220 | seeds 7..11 and 4..8 against source 7..8 come back as nothing |
| D5.SplitFixed | src/bin/d5.rs:183-220 | the corrected split tiles every seed with pieces on one side of the range each, and keeps a contained or disjoint seed whole |
| D5.SplitFixedAgrees | src/bin/d5.rs:183-220 | where the source's split loses nothing, the corrected split agrees with it |
| D5.SplitFixedKeeps | src/bin/d5.rs:183-220 | the corrected split keeps the two seeds the source loses |
| D5.ToMapping | src/bin/d5.rs:163-173 | the parsed fields are stored under their own names |
| D5.ToMappings | src/bin/d5.rs:258-260 | one mapping per range line, in order |
| D5.Maps2Of | src/bin/d5.rs:246-261 | one map per section, in file order |
| D5.ApplyIsLookup | src/bin/d5.rs:152-161 | a part 2 map sends every number where the part 1 map of the same section does |
| D5.ApplyMapping | src/bin/d5.rs:152-161 | the loop with `break` applies the first mapping containing num, else keeps num |
| D5.ParseMaps2 | src/bin/d5.rs:246-261 | the loop builds one map per section in file order |
| D5.SeedPairs | src/bin/d5.rs:238-244 | consecutive numbers pair up as (start, length) |
| D5.SplitAll | src/bin/d5.rs:265-269 | the loop appends the pieces of every seed, in order, cut by the as-written or the corrected split |
| D5.MapStarts | src/bin/d5.rs:271-277 | each seed's start goes through the map and its length is kept |
| D5.TotalLenAppend | src/bin/d5.rs:265-269 | the total length of joined lists is the sum of their totals |
| D5.TilesTotal | src/bin/d5.rs:183-220 | pieces tiling an interval have its total length and are non-empty |
| D5.FlatSplitKeepsLength | src/bin/d5.rs:264-270 | when no seed shares exactly one end with the mapping, splitting keeps the total length |
| D5.SplitPieces | src/bin/d5.rs:183-220 | every piece is a non-empty sub-interval of the seed on one side of the range |
| D5.TilesInside | src/bin/d5.rs:183-220 | pieces that tile a seed lie inside it, and every number of the seed lies in one of them |
| D5.CutPieces | src/bin/d5.rs:183-220 | with either split, every piece is a non-empty sub-interval of the seed on one side of the range |
| D5.FlatSplitCovers | src/bin/d5.rs:264-270 | with the corrected split, every number the seeds cover is covered by some piece |
| D5.FlatSplitKeeps | src/bin/d5.rs:264-270 | splitting again with the corrected split still covers every number the original seeds cover |
| D5.OneSideInside | src/bin/d5.rs:183-220 | a sub-interval of a piece on one side of a range is on that side too |
| D5.FlatSplitRefines | src/bin/d5.rs:264-270 | splitting at one more mapping keeps every piece inside a base seed and on one side of every mapping so far |
| D5.ApplyShift | src/bin/d5.rs:152-161 | a piece on one side of every mapping moves rigidly: each number keeps its offset from the piece's start |
| D5.StageTraced | src/bin/d5.rs:263-278 | one stage of the pipeline keeps every covered number the image of an original seed number |
| D5.StageComplete | src/bin/d5.rs:263-278 | with a split that loses nothing, one stage keeps the image of every original seed number covered |
| D5.CompleteNonEmpty | src/bin/d5.rs:263-278 | a pipeline that loses nothing leaves some interval when it starts with one |
| D5.TracedStart | src/bin/d5.rs:238-244 | before any map, every covered number is a seed number |
| D5.RefinesSelf | src/bin/d5.rs:264 | before any mapping, the seeds refine themselves |
| D5.SplitAtEach | src/bin/d5.rs:264-270 | splitting at each mapping of a map leaves pieces inside the seeds, each on one side of every mapping; with the corrected split they cover every number the seeds cover |
| D5.Pipeline | src/bin/d5.rs:263-278 | after all maps, every number the intervals cover is the image of a number in the original seed intervals; with the corrected split, the image of every such number is covered |
| D5.MinByStart | src/bin/d5.rs:280 | the result is absent exactly for no seeds; otherwise it has the least start and is the first seed with it |
| D5.Solution2 | src/bin/d5.rs:227-281 | the start of the answer is the image, through all the maps, of some number in the seed intervals |
| D5.Solution2Fixed | src/bin/d5.rs:227-281 | with the corrected split, there is an answer exactly when seeds are given, and its start is the lowest location of any number in the seed intervals |
| D5.MapsStep | src/bin/d5.rs:68-84 | one more line opens an empty map under a header's name, appends a range to the latest map, or changes nothing |
| D5.Maps2Header | src/bin/d5.rs:254-256 | a header line opens an empty map after the others |
| D5.Maps2AddRange | src/bin/d5.rs:258-260 | a range line appends its mapping to the last map |
| D5.Maps2Step | src/bin/d5.rs:246-261 | one more line appends an empty map, extends the last map by one mapping, or changes nothing |
| D5.SeedWords | src/bin/d5.rs:58-63 | one seed per number word after the label, in order |
| D5.MappingsSnoc | src/bin/d5.rs:264-270 | the mappings before j and mapping j are well formed and together the first j + 1 |
| D5.Lookup | src/bin/d5.rs:44-51 | `get_mapping` returns num itself or the image of num under one of the ranges |
| D7Part1.Rank | src/bin/d7_part_1.rs:112-127 | each card letter maps to its place in the order 2..9, T, J, Q, K, A, counting from one |
| D7Part1.RankOrder | src/bin/d7_part_1.rs:16-31 | stronger letters get larger ranks |
| D7Part1.ValuesAny | src/bin/d7_part_1.rs:47 | the counts may be collected in any key order |
| D7Part1.TotalAny | src/bin/d7_part_1.rs:47 | the total of the counts may be taken in any key order |
| D7Part1.AgreeOn | src/bin/d7_part_1.rs:47 | maps that agree on the keys have the same counts and total there |
| D7Part1.ValuesMeaning | src/bin/d7_part_1.rs:47 | the collected counts are exactly the values of the map |
| D7Part1.CountStep | src/bin/d7_part_1.rs:45 | one more copy of a card adds one to the total count |
| D7Part1.TallyStep | src/bin/d7_part_1.rs:43-45 | counting one more card bumps its entry, inserting 0 first when absent |
| D7Part1.CountCards | src/bin/d7_part_1.rs:42-45 | the loop builds the count map of the hand, whose counts add up to the number of cards |
| D7Part1.SumAppend | src/bin/d7_part_1.rs:47 | the sum of joined lists is the sum of their sums |
| D7Part1.CollectValues | src/bin/d7_part_1.rs:47 | `values().collect()` holds the map's counts in some order, with the same total |
| D7Part1.InsertAsc | src/bin/d7_part_1.rs:48 | ascending insertion adds one element and keeps the others |
| D7Part1.InsertAscSorted | src/bin/d7_part_1.rs:48 | ascending insertion keeps a list ascending |
| D7Part1.InsertAscSum | src/bin/d7_part_1.rs:48 | ascending insertion adds the element to the sum |
| D7Part1.SortAsc | src/bin/d7_part_1.rs:48 | `sort` gives a permutation of the counts |
| D7Part1.SortAscSorted | src/bin/d7_part_1.rs:48 | `sort` gives an ascending list with the same sum |
| D7Part1.ReverseKeeps | src/bin/d7_part_1.rs:49 | `reverse` keeps the counts and their sum |
| D7Part1.ReverseDescending | src/bin/d7_part_1.rs:49 | an ascending list reversed is descending |
| D7Part1.Multiplicities | src/bin/d7_part_1.rs:42-47 | the counts are exactly how often each card of the hand occurs |
| D7Part1.SumAtLeast | src/bin/d7_part_1.rs:47-49 | positive counts add up to at least their number, and to at least the first plus the rest |
| D7Part1.ShapeFacts | src/bin/d7_part_1.rs:51-64 | for five cards the largest count is from 1 to 5, a 3 or a 2 is followed by another count, and no count exceeds what the largest leaves |
| D7Part1.KindOfShape | src/bin/d7_part_1.rs:51-64 | the match on the two largest counts names the hand type the rules define |
| D7Part1.ClassifyCounts | src/bin/d7_part_1.rs:47-66 | collecting, sorting largest first and matching gives the rules' type of the counts |
| D7Part1.GetHandType | src/bin/d7_part_1.rs:41-67 | `get_hand_type` of five cards is the rules' type of the hand |
| D7Part1.CompareNat | src/bin/d7_part_1.rs:77 | comparing ranks reports less, equal or greater as the numbers are |
| D7Part1.CompareCardsMeaning | src/bin/d7_part_1.rs:75-84 | the card comparison is Equal exactly when the zipped cards agree, otherwise it is the comparison at the first differing position, and it flips when the hands swap |
| D7Part1.CompareFlip | src/bin/d7_part_1.rs:70-105 | `cmp` flips when the hands swap, and is Equal exactly when the types match and `eq` holds |
| D7Part1.CompareCardsTrans | src/bin/d7_part_1.rs:75-84 | for hands of one length the card comparison is transitive, strictly when either step is strict |
| D7Part1.CompareTrans | src/bin/d7_part_1.rs:70-90 | for hands of one length `cmp` is transitive |
| D7Part1.EqIsSameCards | src/bin/d7_part_1.rs:70-105 | for hands of one length typed by their cards, `cmp` is Equal exactly when `eq` holds, exactly when the cards are the same |
| D7Part1.Cmp | src/bin/d7_part_1.rs:70-90 | the loop of `cmp` computes the reference comparison |
| D7Part1.Insert | src/bin/d7_part_1.rs:145 | insertion adds the hand and keeps every other hand (a permutation), the list one longer |
| D7Part1.Sort | src/bin/d7_part_1.rs:145 | `sort` gives a sorted permutation of the hands |
| D7Part1.SortedPairs | src/bin/d7_part_1.rs:145 | in sorted hands of one length, every hand is at most every later one |
| D7Part1.WinningsBounds | src/bin/d7_part_1.rs:151 | every bid is won at least once and at most as many times as there are hands |
| D7Part1.TotalWinnings | src/bin/d7_part_1.rs:151 | the sum of rank times bid, ranks counted from one |
| D7Part1.Cards | src/bin/d7_part_1.rs:110-128 | one rank per letter, each the letter's place in the card order |
| D7Part1.ParseHand | src/bin/d7_part_1.rs:107-138 | `Hand::from` gives the cards of the first word, the bid of the second, and the rules' type of the cards |
| D7Part1.Hands | src/bin/d7_part_1.rs:144 | one hand per line |
| D7Part1.ParseHands | src/bin/d7_part_1.rs:144 | the parsed hands, each of five cards |
| D7Part1.Solution | src/bin/d7_part_1.rs:140-153 | the answer is the winnings of the hands sorted weakest first, and the order is non-decreasing between any two hands |
| D7Part1.RankOfOrder | src/bin/d7_part_1.rs:16-31 | each letter's rank is its place in the card order, counting from one |
| D7Part1.CollectStep | src/bin/d7_part_1.rs:47 | moving one key's count into the collected list keeps the values and their sum |
| D7Part1.CompareCardsEqual | src/bin/d7_part_1.rs:75-84 | the card comparison is Equal exactly when the zipped cards agree |
| D7Part1.CompareCardsFirstDiff | src/bin/d7_part_1.rs:75-84 | a non-Equal card comparison is the rank comparison at the first position where the hands differ |
| D7Part1.CompareCardsFlip | src/bin/d7_part_1.rs:75-84 | swapping the hands flips the card comparison |
| D7Part1.InsertSorted | src/bin/d7_part_1.rs:145 | inserting into sorted hands keeps them sorted |
| D7Part1.BoundsStep | src/bin/d7_part_1.rs:151 | one more hand, ranked n, keeps the total between the sum of the bids and n times it |
| D7Part1.Tally | src/bin/d7_part_1.rs:42-45 | `char_counts` has a key for every card of the hand and for no other, each with at least one copy |
| D7Part2.Rank2 | src/bin/d7_part_2.rs:132-147 | each card letter maps to its place in the order J, 2..9, T, Q, K, A, the joker being 0 |
| D7Part2.JokerWeakest | src/bin/d7_part_2.rs:16-31 | the joker ranks below every other card |
| D7Part2.Merge | src/bin/d7_part_2.rs:61-63 | the merge drops the joker entry and keeps every other card |
| D7Part2.TopExists | src/bin/d7_part_2.rs:57-58 | among non-empty counts some card has the largest |
| D7Part2.TopOf | src/bin/d7_part_2.rs:56-58 | a hand with jokers and another card has a top non-joker card |
| D7Part2.MergeValues | src/bin/d7_part_2.rs:61-63 | the merged counts are the non-joker counts with the top count raised by the joker count, and the total is kept |
| D7Part2.MergeChoiceFree | src/bin/d7_part_2.rs:57-63 | which top card receives the jokers does not change the counts, so the map's iteration order cannot change the type |
| D7Part2.Cancel | src/bin/d7_part_2.rs:57-63 | removing one common count from equal collections of counts leaves them equal |
| D7Part2.AllJokers | src/bin/d7_part_2.rs:55-56 | five jokers stay unmerged and are five of a kind |
| D7Part2.NoJokers | src/bin/d7_part_2.rs:49 | a hand without jokers is typed as under the first rules |
| D7Part2.LastTop | src/bin/d7_part_2.rs:50-58 | `sort_by_key(..).last()` picks a non-joker card with the largest count |
| D7Part2.MergeJokers | src/bin/d7_part_2.rs:49-65 | the joker branch gives the counts of the merge, keeps the total and leaves no count at zero |
| D7Part2.GetHandType2 | src/bin/d7_part_2.rs:41-87 | `get_hand_type` of five cards is their type under the joker rule |
| D7Part2.Cards2 | src/bin/d7_part_2.rs:130-148 | one rank per letter, each the letter's place in the joker order |
| D7Part2.ParseHand2 | src/bin/d7_part_2.rs:127-158 | `Hand::from` gives the cards of the first word, the bid of the second, and the joker-rule type of the cards |
| D7Part2.Hands2 | src/bin/d7_part_2.rs:164 | one hand per line |
| D7Part2.ParseHands2 | src/bin/d7_part_2.rs:164 | the parsed hands, each of five cards |
| D7Part2.Solution2 | src/bin/d7_part_2.rs:160-173 | the answer is the winnings of the joker-rule hands sorted weakest first, and the order is non-decreasing between any two hands |
| D7Part2.MergeAnyTop | src/bin/d7_part_2.rs:57-63 | merging the jokers into any top card gives the same counts, keeps the total and leaves no count at zero |
| D8.Instructions | src/bin/d8.rs:24-33 | one direction per letter of the first line, Left exactly for 'L' |
| D8.Raw | src/bin/d8.rs:35-43 | one label triple per node line |
| D8.Srcs | src/bin/d8.rs:45 | the source labels, in line order |
| D8.SrcMap | src/bin/d8.rs:46 | the map's keys are exactly the labels; each maps to a line with that label, and no later line has it (the last index wins) |
| D8.ClosedIndices | src/bin/d8.rs:53-54 | when every successor label is a label, every lookup `src_map.get(..).unwrap()` succeeds with a line index |
| D8.ClosedBelow | src/bin/d8.rs:53-54 | closed lines up to n have their successor labels among the source labels |
| D8.Nodes | src/bin/d8.rs:48-56 | one node per line and every successor index names a node |
| D8.BuildNodes | src/bin/d8.rs:48-56 | one node per line with successor indices in range |
| D8.Next | src/bin/d8.rs:64-67 | a step stays inside the network |
| D8.Steps | src/bin/d8.rs:62-68 | k steps of the cycled instructions stay inside the network and at a valid instruction position |
| D8.StepsAdd | src/bin/d8.rs:62-68 | walking a + b steps is walking a steps and then b more |
| D8.Walk | src/bin/d8.rs:62-68 | the walk from the start stays inside the network |
| D8.CountSteps | src/bin/d8.rs:58-73 | the loop stops at the least step count, at least one, that reaches an end node; with no instructions it is 0 |
| D8.Follow | src/bin/d8.rs:123-128 | following a list of directions stays inside the network |
| D8.Passes | src/bin/d8.rs:122-136 | m whole passes stay inside the network |
| D8.FollowIsSteps | src/bin/d8.rs:123-128 | the rest of a pass from position p is |ds| - p single steps ending back at the first instruction |
| D8.PassesAreSteps | src/bin/d8.rs:122-130 | m passes are m * |ds| single steps of the part-one walk |
| D8.Pass | src/bin/d8.rs:123-128 | the `for` loop over the instructions ends where following them ends |
| D8.CountPasses | src/bin/d8.rs:119-136 | the loop counts the least number of passes, at least one, after which the node is an end node |
| D8.PassesSnoc | src/bin/d8.rs:122-130 | m + 1 passes are m passes followed by one more |
| D8.PassCountAsSteps | src/bin/d8.rs:122-136 | a pass count that ends on an end node is a step count of the part-one walk that does too |
| D8.StartNodes | src/bin/d8.rs:115 | the listed indices are start nodes and every start node is listed |
| D8.ProductMultiple | src/bin/d8.rs:141 | the product of the counts is a multiple of each count |
| D8.Network | src/bin/d8.rs:35-56 | the parsed network has one valid node per node line |
| D8.Directions | src/bin/d8.rs:24-33 | one direction per letter of the first line |
| D8.StartOf | src/bin/d8.rs:58 | the start is a line labelled "AAA" |
| D8.AnswerIsCommonMultiple | src/bin/d8.rs:139-142 | the answer is a common multiple of every start node's step count |
| D8.LeastPassUnique | src/bin/d8.rs:122-136 | the least pass count of a start node is unique |
| D8.CountAll | src/bin/d8.rs:118-137 | one least pass count per start node, in order |
| D8.CycleProduct | src/bin/d8.rs:115-142 | the answer is the product of the least pass counts times the instruction count |
| D8.Solution1 | src/bin/d8.rs:20-75 | `solution_1` gives the least number of steps from AAA to an end node, 0 without instructions |
| D8.Solution2 | src/bin/d8.rs:77-143 | `solution_2` gives the product of the start nodes' least pass counts times the instruction count |
| D9.Diffs | src/bin/d9.rs:22-27 | the difference row is one element shorter than the input (empty below two elements) |
| D9.LevelLength | src/bin/d9.rs:21-37 | row k of a sequence of length n has n - k elements |
| D9.ShortIsConstant | src/bin/d9.rs:28 | a row of at most one element passes the `all` test, so the loop ends |
| D9.Depth | src/bin/d9.rs:21-37 | the number of rows stored before a constant row leaves that row at least one element |
| D9.DepthMeaning | src/bin/d9.rs:21-37 | the loop stops at the first constant difference row, which is not empty, so `next_seq[0]` exists |
| D9.DepthConstant | src/bin/d9.rs:28 | the row the loop stops at is constant and not empty |
| D9.DepthFirst | src/bin/d9.rs:21-37 | no earlier difference row is constant |
| D9.DiffsSnoc | src/bin/d9.rs:22-27 | appending a value appends one difference |
| D9.ExtrapUnique | src/bin/d9.rs:21-37 | the computed next value is the only value whose appending keeps the first constant row constant |
| D9.ExtrapUniqueStep | src/bin/d9.rs:21-37 | the uniqueness for the difference row gives it for the sequence |
| D9.LevelSnoc | src/bin/d9.rs:22-36 | below a non-constant difference row, the extended sequence's rows are those of the extended difference row |
| D9.ExtrapUniqueBase | src/bin/d9.rs:28-32 | over a constant difference row, only the last value plus the difference keeps it constant |
| D9.Arithmetic | src/bin/d9.rs:28-32 | a sequence with a common difference continues with that difference |
| D9.ExampleForward | src/bin/d9.rs:21-37 | 1 3 6 10 15 21 continues with 28 |
| D9.ExtrapTable | src/bin/d9.rs:18-32 | the stored rows are non-empty and the next value is the constant plus the rows' last elements |
| D9.TableNonEmpty | src/bin/d9.rs:18-31 | every stored row has a last element, so `last().unwrap()` succeeds |
| D9.AddLasts | src/bin/d9.rs:29-32 | the `for` loop adds every row's last element to the constant |
| D9.Extrapolate | src/bin/d9.rs:18-37 | the loop gives the extrapolated next value |
| D9.LevelStep | src/bin/d9.rs:22-36 | each stored row is the difference row of the one before |
| D9.Negate | src/bin/d9.rs:14-16 | every element negated |
| D9.DiffsMirror | src/bin/d9.rs:14-27 | the differences of a reversed sequence are the reversed differences negated |
| D9.LevelMirror | src/bin/d9.rs:14-37 | each difference row of a reversed sequence is the reversed row, negated every other row |
| D9.MirrorAllEqual | src/bin/d9.rs:28 | reversing or negating a row does not change whether it is constant |
| D9.ReverseCons | src/bin/d9.rs:14-16 | reversing a sequence with a value in front puts the value at the end |
| D9.BackwardUnique | src/bin/d9.rs:14-37 | with `rev`, the value is the only one whose prepending keeps the first constant row constant |
| D9.ReversalUnique | src/bin/d9.rs:14-16 | the same, for a named reversal |
| D9.PrependLevels | src/bin/d9.rs:14-16 | appending to the reversal and prepending to the sequence give equally constant rows |
| D9.ReversedLevels | src/bin/d9.rs:14-16 | a row of the reversed sequence is constant exactly when that row of the sequence is |
| D9.ExampleBackward | src/bin/d9.rs:14-37 | 10 13 16 21 30 45 extends backwards with 5 |
| D9.ExampleReversed | src/bin/d9.rs:14-16 | the reversal of that example |
| D9.ExampleReversedNext | src/bin/d9.rs:21-37 | 45 30 21 16 13 10 continues with 5 |
| D9.ExampleFirstDiffsNext | src/bin/d9.rs:21-37 | its difference row continues with -5 |
| D9.Ints | src/bin/d9.rs:9-12 | one integer per word, at least two |
| D9.Input | src/bin/d9.rs:9-16 | the line's integers, reversed when `rev` holds, at least two |
| D9.Solution | src/bin/d9.rs:3-40 | the answer is the sum over the lines of the extrapolated value |
| D9.DiffsAt | src/bin/d9.rs:22-27 | element i of the difference row is element i + 1 minus element i |
| D9.AllEqualSnoc | src/bin/d9.rs:28 | a non-empty row extended by x passes the `all` test exactly when it passes and x equals its first element |
| D9.LevelOne | src/bin/d9.rs:22-27 | row 1 is the difference row |
| D9.LevelSuccSnoc | src/bin/d9.rs:22-36 | row k + 1 of the extended sequence is row k of the extended difference row |
| D9.SnocConstant | src/bin/d9.rs:28-32 | over a constant difference row, an appended value keeps it constant exactly when it is the last value plus the difference |
| D9.ExtrapTableStep | src/bin/d9.rs:21-37 | below a non-constant difference row, the stored rows and the extrapolated value continue from the differences |
| D9.DiffsMirrorAt | src/bin/d9.rs:14-27 | element i of the differences of a mirrored sequence is element i of the mirrored differences |
| D9.TotalSnoc | src/bin/d9.rs:39 | one more line adds its extrapolated value |
| D10.LaidAt | src/bin/d10.rs:29-31 | the cell stored at index `y * width + x` of a laid-out grid is the cell at (x, y) |
| D10.LaidIndex | src/bin/d10.rs:29-31 | every stored cell sits at index `y * width + x` and lies inside the grid |
| D10.LaidInside | src/bin/d10.rs:25-27 | every stored cell's row is below `coords.len() / width` |
| D10.LookWest | src/bin/d10.rs:39-48 | the left arm lists exactly the left cell when the two pipes connect west-east |
| D10.LookEast | src/bin/d10.rs:50-59 | the right arm lists exactly the right cell when the two pipes connect east-west |
| D10.LookNorth | src/bin/d10.rs:61-70 | the top arm lists exactly the cell above when the two pipes connect north-south |
| D10.LookSouth | src/bin/d10.rs:72-81 | the bottom arm lists exactly the cell below (bounded by `height() - 1`) when the pipes connect south-north |
| D10.Adjacent | src/bin/d10.rs:33-84 | `neighbours` returns at most four cells, exactly those u joins, none of them the start |
| D10.ArmsJoin | src/bin/d10.rs:33-84 | the four arms together list exactly the joined cells, at most four, never the start |
| D10.JoinsNotStart | src/bin/d10.rs:41-78 | no cell joins the start tile: the start appears only on the left of each match |
| D10.JoinsSide | src/bin/d10.rs:39-81 | every connection is made through one of the four sides |
| D10.DistinctBound | src/bin/d10.rs:96-121 | distinct cell indices below n number at most n (bounds walk lengths) |
| D10.InitInv | src/bin/d10.rs:99-102 | after setting the start to distance 0 and pushing it, the search invariant holds |
| D10.InvPending | src/bin/d10.rs:104 | the invariant depends only on which cells are pending, not on their order |
| D10.PopInv | src/bin/d10.rs:104 | popping any queued cell keeps the invariant and removes exactly its weight from the queue measure |
| D10.PopMembers | src/bin/d10.rs:104 | popping entry k leaves the same set of members once k is put back last |
| D10.WitnessBound | src/bin/d10.rs:110-115 | every assigned distance is below the number of cells |
| D10.ExtendWitness | src/bin/d10.rs:110-115 | the walk to u extended by a joined neighbour witnesses the neighbour's new distance |
| D10.KeepWitness | src/bin/d10.rs:110-115 | lowering one distance keeps every other cell's walk a witness |
| D10.RelaxWitnesses | src/bin/d10.rs:107-118 | after a relaxation every cell with a distance still has a walk of that length from the start |
| D10.RelaxSettled | src/bin/d10.rs:107-118 | after lowering v and queueing it, every unqueued cell with a distance stays settled |
| D10.RelaxStep | src/bin/d10.rs:107-118 | relaxing a joined neighbour with no or a larger distance keeps the invariant with v pending |
| D10.RelaxFacts | src/bin/d10.rs:107-118 | one relaxation keeps the invariant, grows no distance, and either lowers the potential or adds one step-weight to the queue |
| D10.NoneGrewRelax | src/bin/d10.rs:110-115 | a relaxation never raises a distance |
| D10.RelaxRequeue | src/bin/d10.rs:111-116 | after relaxing v, v joins the pending cells ahead of u and its distance is below the cell count |
| D10.RelaxUnchanged | src/bin/d10.rs:110-111 | relaxing to the stored distance changes nothing and adds v's weight to the queue |
| D10.ExpandStart | src/bin/d10.rs:105-106 | before the inner loop the inner-loop invariant holds with nothing changed |
| D10.ProgressIntro | src/bin/d10.rs:106-119 | the inner-loop invariant holds once its parts do |
| D10.RelaxProgress | src/bin/d10.rs:107-118 | relaxing neighbour j keeps the inner-loop invariant |
| D10.SkipProgress | src/bin/d10.rs:108-113 | skipping a neighbour whose distance is already no larger keeps the inner-loop invariant |
| D10.ProcessedStep | src/bin/d10.rs:106-119 | neighbours already handled stay within one step of u when no distance grows |
| D10.MeasureStep | src/bin/d10.rs:104-120 | each relaxation either keeps the labelling and adds at most one step-weight, or lowers the potential |
| D10.ExpandDone | src/bin/d10.rs:106-119 | after all neighbours u is settled, and the labelling potential or the queue weight has dropped |
| D10.ExpandWeight | src/bin/d10.rs:111-116 | four pushes one step further away weigh less than the popped cell |
| D10.ListedSettled | src/bin/d10.rs:106-119 | once every listed neighbour is within one step of u, u is settled |
| D10.DropSettled | src/bin/d10.rs:104 | a settled cell need no longer be pending |
| D10.Finished | src/bin/d10.rs:104-120 | with an empty queue, exactly the reachable cells have a distance and each is the shortest walk length |
| D10.WalkBound | src/bin/d10.rs:96-121 | in a closed labelling every cell on a walk from the start has a distance no larger than the walk |
| D10.ShortestUnique | src/bin/d10.rs:96-121 | the shortest distance of a cell is unique |
| D10.Pow5 | src/bin/d10.rs:104-120 | the base of the termination measure is positive |
| D10.WeightStep | src/bin/d10.rs:111-116 | a pushed neighbour weighs a fifth of the cell it came from |
| D10.PotUpdate | src/bin/d10.rs:110-115 | changing one distance changes the potential by exactly the difference of the two entries |
| D10.PotRelax | src/bin/d10.rs:110-115 | a relaxation either leaves the labelling unchanged or lowers its potential |
| D10.QWConcat | src/bin/d10.rs:104-120 | the queue weight of a concatenation is the sum of the weights |
| D10.QWPush | src/bin/d10.rs:111-116 | pushing v adds v's weight to the queue |
| D10.QWPop | src/bin/d10.rs:104 | popping entry k removes its weight from the queue |
| D10.CompareDist | src/bin/d10.rs:190-199 | `Ord for Coord`: equal iff the same distance, no distance below any distance, distances by value |
| D10.MaxEntry | src/bin/d10.rs:104 | the heap pops a queued cell that no other queued cell compares greater than |
| D10.FirstStart | src/bin/d10.rs:86-94 | returns the first index holding the start tile, or none when there is none |
| D10.StartOf | src/bin/d10.rs:86-94 | the start position is the first cell with the start tile |
| D10.RowCells | src/bin/d10.rs:158-176 | line y yields one cell per character, at (x, y), with the character's tile |
| D10.CellsIndexed | src/bin/d10.rs:146-179 | cell (x, y) of a rectangular input sits at `y * width + x` and carries line y's character x |
| D10.CellsLaid | src/bin/d10.rs:146-179 | the parsed cells form a laid-out grid with as many rows as lines |
| D10.Grid.constructor | src/bin/d10.rs:146-179 | `Grid::from`: width is the first line's length, the cells are the parsed cells, no distances |
| D10.Grid.Height | src/bin/d10.rs:25-27 | `height`: width times height is the number of cells |
| D10.Grid.Get | src/bin/d10.rs:29-31 | `get` returns the stored cell at (x, y) |
| D10.Grid.StartPos | src/bin/d10.rs:86-94 | `start_pos` is the first cell with the start tile |
| D10.Grid.Neighbours | src/bin/d10.rs:33-84 | `neighbours` lists exactly the joined cells, at most four |
| D10.Grid.Expand | src/bin/d10.rs:105-119 | the inner loop keeps the invariant and lowers the potential or the queue weight (the outer loop terminates) |
| D10.Grid.PopulateDistances | src/bin/d10.rs:96-121 | afterwards the start has distance 0, exactly the reachable cells have a distance and each is the shortest walk length |
| D10.MaxDist | src/bin/d10.rs:212-215 | `max_by_key` returns an entry of the list that none compares greater than |
| D10.Solution1 | src/bin/d10.rs:205-220 | the answer is the greatest shortest distance over the cells reachable from the start |
| D10.RunEnd | src/bin/d10.rs:252-261 | a run after a corner skips only horizontal pipes and the start, and flips the crossing only on the closing corner |
| D10.RunSkipsUnreached | src/bin/d10.rs:252-274 | skipping a run never skips an unreached cell that would have been counted |
| D10.Unreached | src/bin/d10.rs:235-242 | the number of unreached cells in a suffix is at most its length |
| D10.ScanComplement | src/bin/d10.rs:229-278 | scans from inside and from outside count disjoint cells, together all unreached ones when no corner run occurs |
| D10.ScanOutside | src/bin/d10.rs:229-278 | a row the loop does not cross encloses nothing |
| D10.SkipRun | src/bin/d10.rs:252-274 | the inner run loop stops where the reference run ends and flips `in_loop` exactly when it does |
| D10.CountRow | src/bin/d10.rs:231-278 | one row's count is the reference scan from outside |
| D10.SeenRow | src/bin/d10.rs:230 | row y is the slice `coords[y*width..(y+1)*width]`, with the reached flags |
| D10.ReachedSet | src/bin/d10.rs:235-240 | a cell counts as reached exactly when it is reachable from the start |
| D10.Enclosed | src/bin/d10.rs:222-281 | the enclosed count is at most the number of cells |
| D10.EnclosedBound | src/bin/d10.rs:229-279 | no row counts more than its own cells |
| D10.EnclosedIn | src/bin/d10.rs:222-281 | the part-2 answer is at most the number of cells |
| D10.ScanRows | src/bin/d10.rs:229-279 | the row loop sums the reference scan of every row |
| D10.Solution2 | src/bin/d10.rs:222-281 | the answer is the reference enclosed count over the reachable cells |
| D11.RowGalaxiesMeaning | src/bin/d11.rs:49-57 | a line's galaxies are exactly its '#' cells, at row y, in column order |
| D11.GalaxiesMeaning | src/bin/d11.rs:41-67 | a galaxy is listed exactly where the image has a '#', and the list is in row-major order |
| D11.Xs | src/bin/d11.rs:20 | the galaxies' columns, one per galaxy in order |
| D11.Ys | src/bin/d11.rs:26 | the galaxies' rows, one per galaxy in order |
| D11.Gaps | src/bin/d11.rs:18-29 | `x_gaps`/`y_gaps`: exactly the values below the bound that no galaxy has, strictly increasing |
| D11.Below | src/bin/d11.rs:32-33 | the number of gaps below a coordinate is at most the number of gaps |
| D11.BelowSplit | src/bin/d11.rs:32-33 | the gaps below b are those below a plus those from a up to b |
| D11.Expanded | src/bin/d11.rs:31-34 | expansion moves every galaxy and keeps their number |
| D11.ShiftOrder | src/bin/d11.rs:32-33 | moving by the gap count preserves strict order of coordinates |
| D11.ShiftSplit | src/bin/d11.rs:32-33 | the larger coordinate moves by the distance plus expansion - 1 per gap in between |
| D11.ShiftDistance | src/bin/d11.rs:32-33 | after expansion the distance between two coordinates grows by expansion - 1 per gap between them |
| D11.AbsDiffAbove | src/bin/d11.rs:97 | `abs_diff` of x and x + k is k in either order |
| D11.MulAdd | src/bin/d11.rs:32 | the gap count times expansion - 1 distributes over a sum |
| D11.ExpandKeepsOrder | src/bin/d11.rs:31-34 | `expand` keeps the galaxies in row-major order |
| D11.ExpandOne | src/bin/d11.rs:31-34 | expanding by one moves no galaxy |
| D11.MoveAll | src/bin/d11.rs:31-34 | the `iter_mut` pass moves every galaxy by its gap counts times expansion - 1 |
| D11.Grid.constructor | src/bin/d11.rs:41-67 | `Grid::from`: the '#' cells in row-major order, the first line's length, the number of lines |
| D11.Grid.Expand | src/bin/d11.rs:17-38 | `expand`: every galaxy moved as `Expanded` says; width and height grow by the number of empty columns and rows |
| D11.RowTotalPrefix | src/bin/d11.rs:94-98 | an inner-loop sum over indices below m is unchanged by dropping galaxies from m on |
| D11.ToEarlierPrefix | src/bin/d11.rs:93-99 | the distances from galaxy m to earlier ones are unchanged by dropping later galaxies |
| D11.LoopTotalSnoc | src/bin/d11.rs:93-99 | adding a last galaxy adds its distance to every earlier galaxy |
| D11.LoopIsPairs | src/bin/d11.rs:93-99 | the loop over i <= j counts every unordered pair of galaxies exactly once |
| D11.TotalDistance | src/bin/d11.rs:91-99 | the nested loops sum the Manhattan distance of every unordered pair |
| D11.Solution | src/bin/d11.rs:87-119 | parts 1 and 2: the pairwise distance sum of the galaxies after expansion by 2 or 1000000 |
| D11.ExampleGalaxies | src/bin/d11.rs:41-67 | the image "..#" has one galaxy, at (2, 0) |
| D11.ExampleGaps | src/bin/d11.rs:18-33 | with a galaxy in column 2 of 3, columns 0 and 1 are gaps and both lie below it |
| D11.WidthLagsGalaxies | src/bin/d11.rs:36-37 | for expansion 3 the recorded width 5 does not cover the moved galaxy at column 6 |
| D11.ExpandedInBounds | src/bin/d11.rs:36-37 | with the width grown by gaps times expansion - 1, every moved galaxy lies inside the image |
| D12.Springs | src/bin/d12.rs:27-35 | one spring per character: '?' unknown, '#' broken, '.' operational |
| D12.ParseAll | src/bin/d12.rs:37 | one parsed size per comma-separated piece |
| D12.FromLine | src/bin/d12.rs:23-44 | `Row::from`: the springs of the first word and the parsed sizes of the second word's pieces |
| D12.UnfoldSprings | src/bin/d12.rs:52 | n copies of the springs joined by one unknown spring has n * (len + 1) - 1 springs |
| D12.JoinRepeat | src/bin/d12.rs:52-53 | joining n copies is one copy, the separator, then n - 1 copies joined |
| D12.SpringsAppend | src/bin/d12.rs:27-35 | the springs of a concatenation are the concatenated springs |
| D12.NoSpaceAppend | src/bin/d12.rs:51-55 | two texts without whitespace concatenate to one without whitespace |
| D12.ParseAllAppend | src/bin/d12.rs:37 | parsing concatenated pieces is concatenating the parses |
| D12.UnfoldedSpringText | src/bin/d12.rs:52 | the unfolded spring text parses to the unfolded springs |
| D12.UnfoldedNoSpace | src/bin/d12.rs:52-55 | the unfolded words contain no whitespace, so the joined line splits back into two words |
| D12.UnfoldedCountText | src/bin/d12.rs:53 | the unfolded size text parses to the sizes repeated n times |
| D12.UnfoldParses | src/bin/d12.rs:50-58 | parsing the unfolded line gives n copies of the springs joined by unknown springs, and the sizes repeated n times |
| D12.Choices | src/bin/d12.rs:70-96 | an unknown spring may be either condition; a known one only its own |
| D12.Advance | src/bin/d12.rs:70-97 | one state and one spring enter at most two distinct states |
| D12.AdvanceIsChoice | src/bin/d12.rs:70-97 | the match is the reference machine stepped on each condition the spring may have |
| D12.AdvanceOnce | src/bin/d12.rs:70-97 | a state entered from one state is entered once |
| D12.Add | src/bin/d12.rs:75-94 | `entry().and_modify().or_insert()`: exactly the state's count grows by num; the keys gain the state |
| D12.Pass | src/bin/d12.rs:70-97 | one state's match adds its count to each state it enters and changes nothing else |
| D12.TransferStep | src/bin/d12.rs:69-98 | after one more state of `from` the map tallies the states entered from all handled states |
| D12.Transfer | src/bin/d12.rs:69-98 | after the inner loop `to` tallies every state entered from the states of `from`, with multiplicity |
| D12.OnlyOne | src/bin/d12.rs:69-98 | one key contributes every state it enters, as often as the key occurs |
| D12.OnlySplit | src/bin/d12.rs:69-98 | the states entered from a set of keys plus one key split into the two parts |
| D12.OnlyAll | src/bin/d12.rs:69 | restricting a list to a set holding all its states changes nothing |
| D12.OnlyNone | src/bin/d12.rs:69 | restricting to no keys leaves nothing |
| D12.AdvanceAllAppend | src/bin/d12.rs:69-98 | advancing a concatenation is concatenating the advances |
| D12.ConsAdvanced | src/bin/d12.rs:69-98 | the states entered from a list are those from its head plus those from its tail |
| D12.TalliedKeys | src/bin/d12.rs:103-106 | every tallied state has a map entry |
| D12.SumAccepted | src/bin/d12.rs:103-106 | the final sum counts exactly the tallied states with every group complete |
| D12.AcceptedSplit | src/bin/d12.rs:103-106 | the accepted count over a set of keys plus one key adds that key's count when it is accepting |
| D12.Arrangements | src/bin/d12.rs:64-106 | one row's count is the number of accepted states the machine reaches, with multiplicity |
| D12.CompatibleSnoc | src/bin/d12.rs:68 | a compatible reading extended by a condition the next spring allows stays compatible |
| D12.RunSnoc | src/bin/d12.rs:68-101 | running one more condition is one more machine step |
| D12.SoundStep | src/bin/d12.rs:68-101 | a one-step extension of a sound path is sound |
| D12.ExtendPathFrom | src/bin/d12.rs:70-97 | each extension of a path adds one allowed condition and one machine step |
| D12.ExtendPathTo | src/bin/d12.rs:70-97 | every allowed, surviving extension of a path is listed |
| D12.ExtendAllFrom | src/bin/d12.rs:69-98 | every extended path extends a path of the prefix by one allowed condition |
| D12.ExtendAllTo | src/bin/d12.rs:69-98 | every allowed, surviving extension of a listed path is listed |
| D12.PathsSound | src/bin/d12.rs:68-101 | every path is a compatible reading ending in the state the machine reaches on it |
| D12.PathsComplete | src/bin/d12.rs:68-101 | every compatible reading the machine survives has a path |
| D12.ExtendPathDistinct | src/bin/d12.rs:70-97 | the extensions of one path by distinct conditions are distinct readings of equal length |
| D12.Disjoint | src/bin/d12.rs:69-98 | two lists of distinct readings with no reading in common concatenate to distinct readings |
| D12.HeadRestApart | src/bin/d12.rs:69-98 | extensions of the first path differ from extensions of the others |
| D12.ExtendAllDistinct | src/bin/d12.rs:69-98 | extending distinct readings of equal length gives distinct readings one longer |
| D12.PathsDistinct | src/bin/d12.rs:68-101 | each reading of the springs has at most one path |
| D12.Ends | src/bin/d12.rs:69 | the end state of each path, in order |
| D12.EndsExtendPath | src/bin/d12.rs:70-97 | the ends of a path's extensions are the states the match enters from its end |
| D12.EndsAppend | src/bin/d12.rs:69 | the ends of a concatenation are the concatenated ends |
| D12.EndsExtendAll | src/bin/d12.rs:69-98 | the ends of the extended paths are the states the inner loop enters |
| D12.ReachIsEnds | src/bin/d12.rs:68-101 | the states the programme tracks are the end states of the surviving readings, one per reading |
| D12.AcceptedEnds | src/bin/d12.rs:103-106 | the accepted count is the number of paths that complete every group |
| D12.AcceptedPaths | src/bin/d12.rs:105 | exactly the paths whose end has completed every group |
| D12.AcceptedPathsDistinct | src/bin/d12.rs:105 | the accepted paths are distinct readings |
| D12.ArrangementsCounted | src/bin/d12.rs:61-107 | a row's count is the number of its arrangements: every arrangement counted, nothing else, each once |
| D12.AdvanceGood | src/bin/d12.rs:70-97 | with positive sizes the match only enters states that can occur |
| D12.AdvanceAllGood | src/bin/d12.rs:69-98 | with positive sizes the inner loop only enters states that can occur |
| D12.ReachGood | src/bin/d12.rs:68-101 | with positive sizes every tracked state can occur |
| D12.RunTracks | src/bin/d12.rs:68-101 | with positive sizes the machine survives a reading exactly when it fits the sizes, in the abstract state |
| D12.AcceptsIffGroups | src/bin/d12.rs:103-106 | with positive sizes the machine accepts a reading iff its broken-spring groups are exactly the sizes |
| D12.ArrangementMeaning | src/bin/d12.rs:61-107 | with positive sizes an arrangement is a compatible reading whose broken groups are exactly the sizes |
| D12.TotalSnoc | src/bin/d12.rs:48-110 | one more line adds its unfolded arrangement count to the total |
| D12.Solution | src/bin/d12.rs:46-111 | `solution(n)`: the sum over lines of the arrangement counts of the n-fold unfolded rows |
| D12.Step | src/bin/d12.rs:70-92 | a broken spring needs an unfinished group; a step completes at most one group, and only by a broken spring that fills it |
| D13.Cols | src/bin/d13.rs:11-16 | one column per character of the first row |
| D13.Transpose | src/bin/d13.rs:13-16 | for rows of equal length, column i holds character i of every row, in row order |
| D13.FromChunk | src/bin/d13.rs:8-19 | `Grid::from`: the lines are the rows and the columns are built by pushing each character onto the column of its index |
| D13.ZipEqual | src/bin/d13.rs:31 | `zip(..).all(==)`: the two lists agree as far as the shorter one goes |
| D13.MirrorTest | src/bin/d13.rs:28-31 | the reversed top part zipped with the bottom part agrees exactly when the pattern reflects at line k |
| D13.FirstMirrorLeast | src/bin/d13.rs:27-35 | the first reflecting line is the least reflecting line from k on, and None means no line reflects |
| D13.Reflect1 | src/bin/d13.rs:22-36 | `get_reflect_1`: the least line in 1..len-1 that reflects, or None when none does |
| D13.CountDiffZero | src/bin/d13.rs:50-54 | two strings differ in no position of a prefix exactly when the prefixes are equal |
| D13.PairDiffZero | src/bin/d13.rs:50-54 | two strings of equal length differ nowhere exactly when they are equal |
| D13.PartialMono | src/bin/d13.rs:49-58 | the running difference count never decreases as pairs are added |
| D13.PartialZero | src/bin/d13.rs:49-58 | the running count is zero exactly when every pair so far agrees |
| D13.NoSmudgeIsMirror | src/bin/d13.rs:38-64 | a line with no differences at all is an exact mirror, and an exact mirror has none |
| D13.SmudgeIsNotMirror | src/bin/d13.rs:38-64 | a line with exactly one difference is never an exact mirror, so the two parts find different lines |
| D13.AddPairDiff | src/bin/d13.rs:50-54 | the innermost loop adds one for each differing character of the zipped pair |
| D13.PartialStep | src/bin/d13.rs:49 | the n-th zipped pair of reversed top and bottom is the n-th pair mirrored about the line |
| D13.SmudgeCountDone | src/bin/d13.rs:55-59 | stopping at the end of the pairs, or once the count passes one, decides whether the line has exactly one difference |
| D13.CountSmudges | src/bin/d13.rs:47-58 | the pair loop's count is 1 exactly when the line's mirrored pairs differ in exactly one character |
| D13.FirstSmudgeLeast | src/bin/d13.rs:43-63 | the first smudged line is the least line from k on with exactly one difference, and None means there is none |
| D13.Reflect2 | src/bin/d13.rs:38-64 | `get_reflect_2`: the least line in 1..len-1 with exactly one difference, or None when none has |
| D13.Reflect | src/bin/d13.rs:22-64 | the search of part 1 or part 2, as chosen |
| D13.Grids | src/bin/d13.rs:69-88 | every chunk becomes its grid |
| D13.SumRows | src/bin/d13.rs:71-74 | the sum of the horizontal reflection lines found over all grids |
| D13.SumCols | src/bin/d13.rs:76-79 | the sum of the vertical reflection lines found over all grids |
| D13.Solution | src/bin/d13.rs:67-104 | 100 times the row-line sum plus the column-line sum over the patterns separated by blank lines |
| D14.Grid.constructor | src/bin/d14.rs:18-31 | `Grid::from`: the lines' characters row-major, the first line's width, and as many rows as lines |
| D14.Grid.Get | src/bin/d14.rs:35-37 | `get` returns a cell character of the grid |
| D14.Grid.Swap | src/bin/d14.rs:39-42 | `swap` exchanges exactly the two addressed cells and nothing else |
| D14.PosBound | src/bin/d14.rs:36-41 | a cell of a line inside the grid has an index inside the buffer |
| D14.PosUnique | src/bin/d14.rs:36-41 | distinct cells of lines of one orientation have distinct indices |
| D14.LineOf | src/bin/d14.rs:51-112 | a row or column has as many characters as the grid is wide or high |
| D14.LineOfAt | src/bin/d14.rs:36 | character k of a line is the buffer cell at its index |
| D14.SameSegmentsTrans | src/bin/d14.rs:50-112 | keeping the rock count of each segment between cube rocks is transitive |
| D14.SwapCount | src/bin/d14.rs:39-42 | a swap changes the round-rock count only of prefixes ending between the two cells |
| D14.SwapSegments | src/bin/d14.rs:56-104 | swapping two cells with no cube rock between them keeps every segment's round-rock count |
| D14.SettledRefl | src/bin/d14.rs:50-112 | a grid is settled with respect to itself |
| D14.SettledTrans | src/bin/d14.rs:50-112 | settling twice is settling |
| D14.SwapSettled | src/bin/d14.rs:56-104 | a swap inside a line with no cube rock between the cells keeps every line's segments |
| D14.SwapOtherLine | src/bin/d14.rs:56-104 | a swap inside one line leaves every other line of the same orientation unchanged |
| D14.Grid.ScanCell | src/bin/d14.rs:55-60 | one cell of the scan: an empty cell is swapped with the rock's cell, a round rock skipped, a cube rock stops the scan; segments are kept |
| D14.Grid.SwapStep | src/bin/d14.rs:56 | one swap of the scan keeps every line's segments |
| D14.Grid.RollToStart | src/bin/d14.rs:54-61 | the scan toward the line's start keeps every '#'-delimited segment's round-rock count, changes no other line, and leaves the rock packed together with the already packed cells behind it |
| D14.Grid.RollToEnd | src/bin/d14.rs:70-77 | the scan toward the line's end keeps every '#'-delimited segment's round-rock count, changes no other line, and leaves the rock packed together with the already packed cells before it |
| D14.Grid.TiltUp | src/bin/d14.rs:50-65 | `tilt_up` keeps, in every column, the cube rocks and the round-rock count of each segment between them, and leaves no empty cell north of a round rock in its segment |
| D14.Grid.TiltDown | src/bin/d14.rs:66-81 | `tilt_down` keeps every column's segments and leaves no empty cell south of a round rock in its segment |
| D14.Grid.TiltLeft | src/bin/d14.rs:82-97 | `tilt_left` keeps every row's segments and leaves no empty cell west of a round rock in its segment |
| D14.Grid.TiltRight | src/bin/d14.rs:98-113 | `tilt_right` keeps every row's segments and leaves no empty cell east of a round rock in its segment |
| D14.ColumnLoadBounds | src/bin/d14.rs:118-124 | each round rock in a column of height h adds between 1 and h to the load |
| D14.Grid.ColumnLoadAt | src/bin/d14.rs:119-123 | the inner loop of `get_load` adds height - y for each round rock of column x |
| D14.Grid.GetLoad | src/bin/d14.rs:115-127 | `get_load`: height - y summed over the round rocks of every column |
| D14.SettledColumnLoad | src/bin/d14.rs:115-127 | a tilt keeps each column's round-rock count, so its load stays between the count and height times the count |
| D14.Solution1 | src/bin/d14.rs:142-149 | `solution_1`: the load of the grid tilted north, a grid that keeps every column's segments and has them packed north, which by `D14.TiltUpUnique` is the one such grid |
| D14.SwapLine | src/bin/d14.rs:39-42 | a swap of two cells of a line exchanges exactly those two characters of the line |
| D14.RollStep | src/bin/d14.rs:54-60 | each cell the north scan passes keeps the scan's description: an empty cell takes the rock once, later empty cells are swapped with an empty cell, round rocks are skipped |
| D14.BlockedPacked | src/bin/d14.rs:54-61 | a rock whose scan meets a cube rock or the wall after only round rocks is already packed |
| D14.MovedPacked | src/bin/d14.rs:54-61 | a rock moved into the first empty cell past its run of round rocks is packed, and the rocks behind it stay packed |
| D14.RollFinish | src/bin/d14.rs:54-61 | when the north scan stops, the other lines are unchanged and the packed part of the line has grown by the rock's cell |
| D14.RollStepEnd | src/bin/d14.rs:70-76 | the same step for the scan toward the line's end |
| D14.BlockedPackedEnd | src/bin/d14.rs:70-77 | a rock blocked toward the line's end is already packed |
| D14.MovedPackedEnd | src/bin/d14.rs:70-77 | a rock moved toward the line's end into the first empty cell is packed |
| D14.RollFinishEnd | src/bin/d14.rs:70-77 | when the scan toward the end stops, the other lines are unchanged and the packed part has grown by the rock's cell |
| D14.KeptPacked | src/bin/d14.rs:51-64 | lines already packed stay packed while another line of the same orientation is scanned |
| D14.PackedLinesNext | src/bin/d14.rs:51-64 | once a line is packed, the packed lines extend by one |
| D14.PackedUnique | src/bin/d14.rs:50-65 | two lines with the same cube rocks and the same round-rock count in every segment, both packed toward the start, are equal |
| D14.TiltUpUnique | src/bin/d14.rs:50-65 | tilting north has exactly one result: two grids that keep the column segments of the input and have every column packed north are the same grid |
| D15.Bytes | src/bin/d15.rs:57-69 | `as_bytes` of an ASCII text: one byte per character, its code |
| D15.HashOf | src/bin/d15.rs:3-9 | the HASH fold (cur + byte) * 17 mod 256 from 0 is always below 256 |
| D15.ModStep | src/bin/d15.rs:6 | reducing the running value before the step does not change the step's result mod 256 |
| D15.HashIsPolyMod | src/bin/d15.rs:3-9 | reducing at every step or once at the end gives the same hash |
| D15.HashExample | src/bin/d15.rs:3-9 | "HASH" hashes to 52 |
| D15.Hash | src/bin/d15.rs:3-9 | the byte loop of `hash` computes the HASH fold, a value below 256 |
| D15.HashSum | src/bin/d15.rs:55-59 | `solution_1`: the sum of the steps' hashes is below 256 per step |
| D15.Inserted | src/bin/d15.rs:23-42 | `insert` overwrites every slot carrying the label with the new lens, or appends when none does; afterwards the lens is in the box |
| D15.Removed | src/bin/d15.rs:44-52 | `remove` turns every slot carrying the label into a tombstone and keeps every other slot; the label is gone |
| D15.Live | src/bin/d15.rs:81 | `flatten`: the live lenses are at most the slots |
| D15.Without | src/bin/d15.rs:44-52 | the abstract box after removal holds no lens with the label |
| D15.Replaced | src/bin/d15.rs:25-35 | the abstract box after replacement keeps its length |
| D15.LivePresent | src/bin/d15.rs:26-47 | a slot carries the label exactly when some live lens has it |
| D15.LiveRemoved | src/bin/d15.rs:44-52 | tombstoning the label's slots is deleting its lens from the ordered list of live lenses |
| D15.LiveOverwritten | src/bin/d15.rs:25-35 | overwriting the label's slots is replacing its lens in place in the live list |
| D15.LiveInserted | src/bin/d15.rs:23-42 | on the live list, `insert` replaces the labelled lens in place when there is one and appends otherwise |
| D15.Boxx.constructor | src/bin/d15.rs:64 | a new box has no slots |
| D15.Boxx.Insert | src/bin/d15.rs:23-42 | `Boxx::insert` leaves the slots `Inserted` describes |
| D15.Boxx.Remove | src/bin/d15.rs:44-52 | `Boxx::remove` leaves the slots `Removed` describes |
| D15.ParseOp | src/bin/d15.rs:67-74 | the label is the text before the operator, '=' puts with the digit after it, '-' takes |
| D15.BoxOf | src/bin/d15.rs:69 | the box of an operation is the hash of its label, below 256 |
| D15.Table | src/bin/d15.rs:64-75 | the boxes after the operations are 256 |
| D15.TableStep | src/bin/d15.rs:66-75 | an operation changes only the box its label hashes to |
| D15.EmptyBoxPower | src/bin/d15.rs:80-87 | a box holding only tombstones adds nothing |
| D15.BoxPowerStep | src/bin/d15.rs:81-86 | each live lens adds (box + 1) * (slot among live lenses + 1) * focal length; tombstones add nothing |
| D15.BoxFocus | src/bin/d15.rs:80-87 | one box's loop computes the focusing power of its live lenses |
| D15.Ops | src/bin/d15.rs:63-74 | one operation per comma-separated step, each parsed |
| D15.NewBoxes | src/bin/d15.rs:64 | 256 distinct new empty boxes |
| D15.RunOps | src/bin/d15.rs:66-75 | after the loop each box holds what `Table` says |
| D15.Solution2 | src/bin/d15.rs:61-91 | `solution_2`: the focusing power of the boxes after all operations |
| D15.OpPos | src/bin/d15.rs:67 | the operator position is absent exactly when the step has neither '=' nor '-'; it points at an operator, at '=' exactly when the step has one |
| D16.Exits | src/bin/d16.rs:129-183 | empty tiles and pointy splitter ends pass a beam straight on; flat splitters split it both ways across; mirrors turn it |
| D16.MirrorReversible | src/bin/d16.rs:130-163 | a mirror sends a beam back the way it came when it arrives along the outgoing path |
| D16.Move | src/bin/d16.rs:134-181 | a move stays inside the width, and downward only while the row is below the bound |
| D16.MoveBack | src/bin/d16.rs:134-181 | moving back across the entry side returns to the tile left |
| D16.Follow | src/bin/d16.rs:134-181 | the pushed beams are exactly the exits whose move the bound checks allow |
| D16.Next | src/bin/d16.rs:128-184 | one expansion pushes at most two beams, exactly those leaving through the tile's exits into the neighbour the bounds allow |
| D16.ReachStart | src/bin/d16.rs:123 | the start beam is reachable |
| D16.ReachStep | src/bin/d16.rs:125-186 | a beam pushed from a reachable beam is reachable |
| D16.PathSnoc | src/bin/d16.rs:125-186 | a path extended by one expansion of its last beam is a path |
| D16.PathInGrid | src/bin/d16.rs:134-181 | with the bound at most the height, every beam on a path stays inside the grid |
| D16.PathAbove | src/bin/d16.rs:152-172 | beams never move below row bound - 1 once above it |
| D16.LitCount | src/bin/d16.rs:109-111 | the number of lit tiles is at most the tile count, and zero exactly when no tile is lit |
| D16.UnlitUpdate | src/bin/d16.rs:103-107 | changing one tile changes the count of unrecorded sides by that tile's difference |
| D16.MissingAdd | src/bin/d16.rs:103-107 | recording a new side lowers the tile's count of unrecorded sides by one |
| D16.LitAfter | src/bin/d16.rs:103-107 | lighting a pair adds exactly that pair to the lit pairs |
| D16.InitialExplored | src/bin/d16.rs:121-123 | with a dark grid and the start pushed, the search invariant holds |
| D16.StepSeen | src/bin/d16.rs:125-128 | popping a pair already recorded keeps the invariant |
| D16.StepNew | src/bin/d16.rs:128-184 | lighting a popped pair and pushing its expansions keeps the invariant |
| D16.StepNewQueued | src/bin/d16.rs:128-184 | the pairs pushed from a reachable pair are reachable |
| D16.StepNewClosed | src/bin/d16.rs:128-184 | after lighting a pair, every lit pair's expansions are lit or pending |
| D16.PathLit | src/bin/d16.rs:120-187 | with nothing pending, every beam on a path from the start is lit |
| D16.Finished | src/bin/d16.rs:120-187 | at the end of `illuminate` the lit pairs are exactly the reachable ones |
| D16.CoordOfIndex | src/bin/d16.rs:100-104 | tile i sits at (i mod width, i / width) inside the grid |
| D16.TileEnergised | src/bin/d16.rs:109-111 | when the lit pairs are the reachable ones, a tile is lit exactly when some beam reaches it |
| D16.CountLit | src/bin/d16.rs:109-111 | when each tile is lit exactly when energised, counting lit tiles counts energised ones |
| D16.CountEnergised | src/bin/d16.rs:109-111 | when the lit pairs are the reachable ones, the lit-tile count is the number of energised tiles |
| D16.LitCountSnoc | src/bin/d16.rs:110 | one more tile adds one to the count exactly when it is lit |
| D16.Grid.constructor | src/bin/d16.rs:46-77 | `Grid::from`: width from the first line, one unlit tile per character with its kind, height the line count |
| D16.Grid.Get | src/bin/d16.rs:96-101 | `get` returns the tile at c, lit exactly when it records a side |
| D16.Grid.IlluminateTile | src/bin/d16.rs:103-107 | `illuminate_tile` marks the tile lit and records the side; no other tile changes |
| D16.Grid.NumEnergised | src/bin/d16.rs:109-111 | `num_energised` is the size of the set of lit tile indices, at most the number of tiles, and zero exactly when no tile is lit |
| D16.Grid.Deilluminate | src/bin/d16.rs:113-118 | `deilluminate` leaves every tile unlit with no recorded side and the kinds unchanged |
| D16.Grid.Visit | src/bin/d16.rs:125-185 | one pop keeps the invariant and lowers the unrecorded sides or shortens the stack (the loop terminates) |
| D16.Grid.Illuminate | src/bin/d16.rs:120-187 | afterwards the lit pairs are exactly those reachable from the start, and the count is the energised-tile count |
| D16.Solution1 | src/bin/d16.rs:190-198 | part 1: the tiles energised by the beam entering the top-left tile from the left |
| D16.ColumnStarts | src/bin/d16.rs:204-216 | each column entered at the top from above and at the bottom from below |
| D16.RowStarts | src/bin/d16.rs:217-228 | each row entered at the left from the left and at the right from the right |
| D16.Starts | src/bin/d16.rs:204-229 | `start_coords`: exactly the 2 * (width + height) ways into the grid from outside |
| D16.Trial | src/bin/d16.rs:234-237 | one round counts the tiles energised from s under the given downward bound and leaves the grid dark again |
| D16.Brightest | src/bin/d16.rs:231-238 | `max_count` is the energised count of some start and at least that of every start |
| D16.EdgesBounded | src/bin/d16.rs:201-238 | a bound on the counts from every start of `start_coords` bounds the count from every way into the grid |
| D16.Solution2 | src/bin/d16.rs:200-241 | part 2: the largest energised count over all ways into the grid, attained by one of them |
| D16.Solution1Fixed | src/bin/d16.rs:190-198 | part 1 with the downward bound corrected to the height, for a grid of any shape: the tiles energised by the beam entering the top-left tile from the left |
| D16.Solution2Fixed | src/bin/d16.rs:200-241 | part 2 with the downward bound corrected to the height, for a grid of any shape: the largest energised count over all ways into the grid, attained by one of them |
| D16.TallGridStopsEarly | src/bin/d16.rs:152-170 | in a one-column grid of two empty tiles, a beam entering the top stops in row 0 because the bound is the width |
| D16.ColumnFullyLit | src/bin/d16.rs:152-170 | with the height as bound, a beam entering the top of an empty column energises all of it |
| D16.LitCountIsCard | src/bin/d16.rs:109-111 | the count of lit tiles is the size of the set of indices of lit tiles |
| D17.DigitsOf | src/bin/d17.rs:71-80 | `to_digit(10)` of every character: one value per digit, in order |
| D17.ConcatDigits | src/bin/d17.rs:63-84 | the concatenated lines of a digit grid are all digits |
| D17.CostsOf | src/bin/d17.rs:54-95 | the cost map of a digit grid is well formed, at least one cell wide and high |
| D17.LaidAppend | src/bin/d17.rs:63-84 | pushing the tile of cell (x, y) at its own row-major index keeps the layout |
| D17.UnvisitedAppend | src/bin/d17.rs:72-81 | pushing the next cell's tile with total loss `usize::MAX` keeps every tile unreached |
| D17.LayTiles | src/bin/d17.rs:60-84 | the nested loops push one horizontal and one vertical tile per digit, row-major, with its loss and total loss `usize::MAX` |
| D17.LaidSet | src/bin/d17.rs:86-87 | changing a tile's total loss keeps its coordinate and the layout |
| D17.Grid.constructor | src/bin/d17.rs:54-95 | `Grid::from`: the tiles of the cost map with both origin tiles at 0, width the first line's length, height (len + 1) / (width + 1) |
| D17.Grid.InitialLabels | src/bin/d17.rs:72-87 | after `Grid::from` both origin tiles have total loss 0 and every other tile `usize::MAX` |
| D17.Grid.TileAt | src/bin/d17.rs:106-127 | tile `width * y + x` of each array carries coordinate (x, y) and that cell's loss |
| D17.Grid.LabelBounded | src/bin/d17.rs:14 | no total loss exceeds `usize::MAX` |
| D17.InsideShorter | src/bin/d17.rs:103-105 | a run that ends inside the grid stays inside it all the way |
| D17.RunSnoc | src/bin/d17.rs:103-112 | step n of a run adds the reached cell's loss when inside the grid, and lists it from `first(rng)` on |
| D17.Grid.RunStep | src/bin/d17.rs:104-111 | one turn of the inner loop extends the run and its running loss as the reference run says |
| D17.Grid.Run | src/bin/d17.rs:101-113 | one sign's loop lists the reference run of lengths `first..=last` |
| D17.Grid.GetHorizontal | src/bin/d17.rs:98-117 | `get_horizontal`: the runs to the left then right, ending on horizontal tiles of row y |
| D17.Grid.GetVertical | src/bin/d17.rs:119-137 | `get_vertical`: the runs up then down, ending on vertical tiles of column x |
| D17.RunStepsSound | src/bin/d17.rs:103-112 | every listed step is an edge of the graph and its loss is the sum of the crossed cells |
| D17.StepsSound | src/bin/d17.rs:98-164 | every step `get_horizontal`/`get_vertical` produce is an edge, with its weight, switching direction |
| D17.RunStepsComplete | src/bin/d17.rs:103-112 | every run length from `first` that ends inside the grid is listed |
| D17.StepsComplete | src/bin/d17.rs:98-164 | every edge of the graph is among the steps produced for its source tile |
| D17.RunStepsCount | src/bin/d17.rs:103 | a run lists at most `last - first + 1` steps |
| D17.StepsCount | src/bin/d17.rs:100-113 | with `first >= 1`, at most 2 * (last - first + 1) steps are produced |
| D17.WalkPrefix | src/bin/d17.rs:158-169 | a walk without its last tile is a walk |
| D17.WalkExtend | src/bin/d17.rs:158-169 | a walk extended by an edge is a walk costing the edge's weight more |
| D17.CompareTiles | src/bin/d17.rs:22-26 | `Ord for Tile` is reversed: greater means a smaller total loss |
| D17.TilesEqual | src/bin/d17.rs:34-38 | `PartialEq for Tile`: equal exactly when the total losses compare equal |
| D17.PopMin | src/bin/d17.rs:158 | the heap pops an entry of least total loss and keeps the others |
| D17.RemoveAt | src/bin/d17.rs:158 | dropping one entry keeps every other entry, one fewer in all |
| D17.SumLossUpdate | src/bin/d17.rs:143 | changing one total loss changes their sum by the difference |
| D17.TileLowered | src/bin/d17.rs:143 | lowering one tile's total loss keeps the layout and losses and lowers the sum by the difference |
| D17.LabelsAfterSet | src/bin/d17.rs:143 | setting a tile's total loss changes that tile's label and no other |
| D17.UpdatedKept | src/bin/d17.rs:142 | an update that does not improve the target leaves every label and the heap as they were |
| D17.UpdatedSet | src/bin/d17.rs:140-145 | an improving update lowers exactly the target's label to src + step loss and pushes it |
| D17.Grid.Lower | src/bin/d17.rs:143 | the assignment lowers tile ti's total loss to v, changes nothing else, and lowers the potential |
| D17.Grid.Update | src/bin/d17.rs:139-146 | `update` lowers the target to src + step loss and pushes it exactly when that is a strict improvement |
| D17.StepQueued | src/bin/d17.rs:139-146 | after an update, every queued tile is in the grid with a finite label |
| D17.StepWitnessed | src/bin/d17.rs:139-146 | after an update, every finite label is the cost of a recorded walk from the origin |
| D17.StepCovered | src/bin/d17.rs:139-146 | after an update, every tile not relaxed is still queued (or the popped one) |
| D17.StepLowered | src/bin/d17.rs:139-146 | an update lowers labels other than the popped tile's, never raises any |
| D17.StepsBefore | src/bin/d17.rs:166-168 | targets of earlier steps keep labels within their step from the popped tile |
| D17.StepAll | src/bin/d17.rs:166-168 | every invariant of the relaxation loop survives one `update` |
| D17.StepsRelax | src/bin/d17.rs:166-168 | once every step is within its loss of the popped label, the popped tile is relaxed |
| D17.CoveredDone | src/bin/d17.rs:166-168 | after the loop, the popped tile need no longer be queued |
| D17.Grid.RelaxOne | src/bin/d17.rs:167 | one `update` keeps every loop invariant and does not raise potential plus heap size |
| D17.Grid.RelaxAll | src/bin/d17.rs:166-168 | the step loop relaxes every step from the popped tile, keeping the invariants; afterwards the tile is relaxed |
| D17.Popped | src/bin/d17.rs:158 | popping from a covered heap leaves every unrelaxed tile queued or the popped one, whose label is finite |
| D17.Seeded | src/bin/d17.rs:153-156 | with both origin tiles at 0 and queued, the search invariants hold with one-tile walks as witnesses |
| D17.BelowTrans | src/bin/d17.rs:158-169 | labels lowered except at one tile, after labels below the start, stay below the start |
| D17.RelaxedKept | src/bin/d17.rs:158-169 | lowering other labels never un-relaxes a tile whose label is unchanged |
| D17.WalkBound | src/bin/d17.rs:158-169 | at a fixpoint with origin labels 0, no walk from the origin costs less than its end tile's label |
| D17.Optimal | src/bin/d17.rs:158-169 | when the heap is empty, every label is a lower bound on every walk from the origin to its tile |
| D17.Grid.Search | src/bin/d17.rs:153-169 | the search lowers labels only, and ends with every label a lower bound on every walk to its tile and, when finite, the cost of one |
| D17.Grid.CornerTotals | src/bin/d17.rs:171-172 | the last tile of each array is the bottom-right cell's |
| D17.CornerBest | src/bin/d17.rs:171-173 | the smaller corner label bounds every corner walk and, when finite, is the cost of one |
| D17.Solution | src/bin/d17.rs:149-174 | the least heat loss over all walks from top-left to bottom-right with runs of `first..=last`, attained by a walk unless `usize::MAX` |
| D17.Answers | src/bin/d17.rs:176-181 | the answers for run lengths 1..=3 and 4..=10: each at most `usize::MAX`, at most every corner walk's loss, and, below `usize::MAX`, the loss of some corner walk |
| D18.NewSeg | src/bin/d18.rs:31-38 | `Seg::new` keeps the smaller then the larger x, and the smaller then the larger y, whatever the argument order |
| D18.NewSegOrderFree | src/bin/d18.rs:31-38 | the argument order does not matter, and a segment already in order is kept |
| D18.FromCoords | src/bin/d18.rs:40-42 | `from_coords` is the smallest ordered box holding both vertices |
| D18.FromCoordsSymmetric | src/bin/d18.rs:40-42 | `from_coords` gives the same segment from either end |
| D18.LenCountsPoints | src/bin/d18.rs:46-52 | `len` counts the lattice points of an axis-aligned segment, each once and no other |
| D18.Trace | src/bin/d18.rs:131-166 | one vertex per move |
| D18.TraceSteps | src/bin/d18.rs:138-163 | vertex i is the previous vertex (the origin for the first) moved by move i |
| D18.Step | src/bin/d18.rs:138-144 | one move digs an axis-aligned segment of |val| + 1 lattice points |
| D18.TraceSegments | src/bin/d18.rs:135-146 | every dig step of the plan is such a segment |
| D18.HexDigitValue | src/bin/d18.rs:155 | a hex digit's value is below 16 |
| D18.Moves | src/bin/d18.rs:135-162 | one move per line, read from the letter and number (part 1) or the colour code (part 2) |
| D18.TraceSnoc | src/bin/d18.rs:135-146 | one more line appends its end point to the vertices |
| D18.GetVertices | src/bin/d18.rs:131-166 | `get_vertices_1`/`get_vertices_2` return the vertex after each move |
| D18.Perimeter | src/bin/d18.rs:170-175 | one segment between each two consecutive vertices, then the one from the first vertex to the last |
| D18.Links | src/bin/d18.rs:172-174 | the loop pushes the segment between each two consecutive vertices |
| D18.PerimeterJoins | src/bin/d18.rs:170-175 | every vertex is an end of the segment before it and of the one after it, the closing one included |
| D18.MinX | src/bin/d18.rs:181 | the least x of the vertices, attained by one |
| D18.MinY | src/bin/d18.rs:182 | the least y of the vertices, attained by one |
| D18.MaxX | src/bin/d18.rs:183 | the greatest x of the vertices, attained by one |
| D18.MaxY | src/bin/d18.rs:184 | the greatest y of the vertices, attained by one |
| D18.FromVertices | src/bin/d18.rs:168-191 | `from_vertices`: the perimeter segments, the vertices, and their bounding box |
| D18.SegInBounds | src/bin/d18.rs:173-184 | the bounding box holds the segment between any two vertices |
| D18.PerimeterInBounds | src/bin/d18.rs:170-187 | every perimeter segment lies inside the bounding box |
| D18.EdgeMatchMeaning | src/bin/d18.rs:8-15 | on an axis-aligned segment the edge test is exactly "the point lies on the segment" |
| D18.CrossesVertical | src/bin/d18.rs:20 | only a segment with vertical extent is crossed, so a horizontal one never counts |
| D18.Crossings | src/bin/d18.rs:17-21 | at most one crossing per segment |
| D18.NoCrossings | src/bin/d18.rs:17-21 | when no segment is crossed the count is 0 |
| D18.WithinBox | src/bin/d18.rs:7-24 | a point inside a polygon whose segments lie in a box is right of its left side and between its bottom and top |
| D18.WithinBounds | src/bin/d18.rs:181-187 | a point inside the polygon `from_vertices` builds lies right of its least x and between its least and greatest y |
| D18.ClosedPlanAxisAligned | src/bin/d18.rs:131-175 | a dig plan ending back at the origin gives an axis-aligned perimeter, the closing segment included |
| D18.WithinMeaning | src/bin/d18.rs:7-24 | `is_within` holds exactly when the point is on some segment or the ray to its left crosses an odd number of segments |
| D18.Verticals | src/bin/d18.rs:178 | the vertical segments with height, in order |
| D18.CrossingsSnoc | src/bin/d18.rs:17-21 | one more segment adds one crossing exactly when it is crossed |
| D18.CrossingsVerticalOnly | src/bin/d18.rs:176-179 | keeping only the vertical segments changes no crossing count |
| D18.SquareTrace | src/bin/d18.rs:131-147 | R 2, U 2, L 2, D 2 traces the corners of a 2-by-2 square |
| D18.SquareInside | src/bin/d18.rs:7-24 | the centre of that square is inside, (3, 1) outside, and the corner (0, 0) on the edge |
| D18.SquarePerimeter | src/bin/d18.rs:170-175 | the square's perimeter is its four sides |
| D18.SquareCrossings | src/bin/d18.rs:17-21 | the ray from the centre crosses one side, the ray from (3, 1) two |
| D18.Insert | src/bin/d18.rs:199-200 | inserting into a strictly increasing list keeps it strictly increasing and adds exactly that value |
| D18.SortedDistinct | src/bin/d18.rs:198-204 | `sort` then `dedup`: strictly increasing, with exactly the values of the input |
| D18.IncreasingUnique | src/bin/d18.rs:199-200 | two strictly increasing lists with the same values are equal, so `sort` + `dedup` has one result |
| D18.Xs | src/bin/d18.rs:198 | the vertices' x values, in order |
| D18.Ys | src/bin/d18.rs:202 | the vertices' y values, in order |
| D18.CellRow | src/bin/d18.rs:210-212 | one cell per window of ys |
| D18.CellsLength | src/bin/d18.rs:208-213 | there are (len(xs) - 1)(len(ys) - 1) cells |
| D18.CellAt | src/bin/d18.rs:209-213 | cell (i, j) spans the i-th x window and the j-th y window |
| D18.CellsBetween | src/bin/d18.rs:209-213 | cells between strictly increasing breakpoints have positive size and no breakpoint inside |
| D18.AddCellRow | src/bin/d18.rs:210-212 | the inner loop appends one cell per window of ys |
| D18.Breakpoints | src/bin/d18.rs:198-213 | the sorted distinct xs and ys, and the cells between consecutive ones |
| D18.BuildGrid | src/bin/d18.rs:249-260 | the grid of the traced vertices and its perimeter |
| D18.Len | src/bin/d18.rs:46-52 | a segment's length is at least one |
| D18.HexValue | src/bin/d18.rs:155 | `from_str_radix(_, 16)` of n hex digits is below 16^n |
| D18.Move1 | src/bin/d18.rs:136-144 | a part 1 move has the direction its letter names and the distance its number writes |
| D18.Move2 | src/bin/d18.rs:154-162 | a part 2 move has the direction its code digit names and a distance below 16^5 |

## Left out

- Day 6 (`src/bin/d6.rs`) is not part of this model: its answers come from `f64` square roots, floors and ceilings.
- Reading the input files, `println!` and `main` are replaced by a `string` parameter and a returned result.
- Overflow of `usize`, `u32` and `i64` is not modelled: integers are unbounded. Day 17 keeps `usize::MAX` as the unreached label, and the update never adds to it, because only popped tiles, whose labels are finite, are expanded.
- The `Display` and `Debug` impls of days 10, 11, 14, 16 and 18 only format output. Day 16's `Display` indexes with `y * height + x` (src/bin/d16.rs:83), which is only right for square grids.
- Day 14 part 2 is left out: `get_hash` uses the standard library's opaque `DefaultHasher` (src/bin/d14.rs:44-48), and the cycle search over a million spin cycles is built on it (src/bin/d14.rs:151-174).
- Day 18's `f32` centre tests `Seg::is_within` and `Rect::is_within` (src/bin/d18.rs:54-105) and the volume sum built on them (src/bin/d18.rs:214-243) are floating point, so they are left out. The model stops at the grid of breakpoint cells.
- Day 3's gear pairing in `solution_2` (src/bin/d3.rs:182-205) is left out. It relies on `HashSet` duplicate detection and can count a gear twice at the grid's edge, so the intended result is unclear. `get_possible_gears` is modelled.
- The `BinaryHeap` internals and the `Cell` keys of days 10 and 17 are not modelled. In day 17 the source mutates keys after insertion, so Rust's heap does not always pop the minimum. The model keeps a sequence of (snapshot, tile) entries and pops an entry with the least snapshot. The proofs compare the live label, so they hold for any pop order.
- `HashMap` iteration order (day 7 part 2 joker merge, day 12 states) is not modelled. The model proves that the results do not depend on it: `D7Part2.MergeChoiceFree`, and day 12's transfer sums counts over the key set.
- D10.WellFormed: requires every line to be as long as the first. The source also reads ragged lines, and then `get(x, y)` reads `y * width + x` across row boundaries; that is not modelled.
- D14.Grid.constructor: requires every line to be as long as the first, and so does `D14.Solution1`. The source takes the height as the cell count divided by the first line's width, so ragged lines shift the rows; that is not modelled.
- D16.Grid.constructor: requires every line to be as long as the first, and so do `D16.Solution1`, `D16.Solution2` and their corrected variants, for the same reason as day 14.
- D17.DigitGrid: requires lines of equal length and no carriage return. The source computes the height as (text length + 1) / (width + 1), which a `\r\n` line ending or a ragged line miscounts; that is not modelled.
- Text.IsNat: a decimal number is a non-empty run of ASCII digits. `str::parse` also accepts a leading `+`, which no puzzle input has.
- D7Part1.Sort: proved to give an ascending permutation of the hands. That hands comparing Equal keep their input order, as Rust's stable sort guarantees, is not proved. Such hands have the same cards, and their order matters only through their bids.
- D7Part1.WellFormed: a hand must have exactly five cards. The source classifies hands of other lengths too, but every puzzle hand has five cards.
- D7Part2.GetHandType2: proved to equal the source's merge-then-classify rule. It is not proved that giving all jokers to a most frequent card gives the strongest type over every substitution.
- D18.Moves: in part 2, `WellFormed2` requires the distance to be exactly five hex digits without a sign. `i64::from_str_radix` would also accept a leading sign.
- D12.Solution: requires an unfold factor of at least 1. With 0 the unfolded row is a single space, and `Row::from` panics on `split[0]`.
- D8.Solution1: requires that the walk reaches `ZZZ` (Walkable1), because otherwise the source loops forever.
- D8.Solution2: requires that every start reaches an end node on a pass boundary (Walkable2), for the same reason.
- D16.Solution1: requires width <= height, because the source bounds downward moves by the width and can index past the grid when a beam moves down off the bottom row (see Findings); the requirement also excludes wide grids on which the source answers normally, such as `..`. `D16.Solution1Fixed` drops the requirement.
- D16.Solution2: requires width <= height, because the source can index past the grid when a beam moves down off the bottom row; the requirement also excludes wide grids on which the source answers normally, as for `D16.Solution1`. `D16.Solution2Fixed` drops the requirement.
- D15.Solution2: labels are ASCII characters. The source hashes UTF-8 bytes, which are the same for ASCII.
- D10.Solution2: the enclosed-tile scan treats `S` like `-`, as the source does (src/bin/d10.rs:254,267). A loop whose start stands for `|`, `L`, `F`, `7` or `J` can be miscounted, and the model keeps that behaviour.
- D5.Solution2: states only that the answer is the location of some number in the seed ranges, not that it is the lowest one. The as-written split can drop seeds (see Findings), so the answer need not be the lowest location over all seeds. `D5.Solution2Fixed` runs the same pipeline with the corrected split and proves the lowest location.

## Findings

| source | as written | input that shows it | evidently intended | confidence | as-written member | corrected member |
|---|---|---|---|---|---|---|
| src/bin/d5.rs:183-220 | `Seed::split` returns no pieces when the seed shares exactly one end with the source range and sticks out past the other end | seed start 7, length 5 against source range 7..8 (`Mapping(7, 30, 2)`), and seed start 4, length 5 against the same range | split into the part inside the range and the part outside it: `[Seed(7, 2), Seed(9, 3)]` and `[Seed(4, 3), Seed(7, 2)]` | not executed | D5.SplitLosesSeed | D5.SplitFixed |
| src/bin/d16.rs:152-170 | a beam moving down stops when `y` reaches `width - 1`, not `height - 1` | a one-wide, two-high grid of `.` with the beam entering the top tile: one tile is energised instead of two | compare `y` with the height, so the whole column is energised | not executed | D16.TallGridStopsEarly | D16.ColumnFullyLit |
| src/bin/d11.rs:36-37 | `expand` grows the width and height by the number of empty columns and rows, not by that number times `expansion - 1` | `..#` expanded by 3: the galaxy moves to x = 6 while the width becomes 5 | width + gaps * (expansion - 1), so every galaxy stays inside the grid | not executed | D11.WidthLagsGalaxies | D11.ExpandedInBounds |

`D5.SplitEmpty` states exactly when the as-written split loses a seed, and `D5.SplitFixedAgrees` shows that the corrected split gives the same pieces in every other case. The day 5 pipeline takes the split as a parameter. `D5.Solution2` runs it with the as-written split, as the source does. `D5.Solution2Fixed` runs it with the corrected split and proves that the answer is the lowest location. `D16.Solution1` and `D16.Solution2` keep the as-written width bound and require width <= height, so that no beam leaves the grid. `D16.Solution1Fixed` and `D16.Solution2Fixed` bound downward moves by the height and accept a grid of any shape. The day 11 width is not read after `expand`, so the day 11 answers are unaffected.
