# n-in-a-row: the `Field` board, modelled in Dafny

This project models the `Field` board of the n-in-a-row game analyser. The
board is a Connect-Four grid of 7 columns by 6 rows. Row 0 is at the bottom.
A cell is empty or holds a one-character token. `_player` records which side
the searches take.

The model has two layers.

- **Values.** The modules `Board`, `Notation`, `Win`, `Threat` and `Search`
  define each operation of the field as a function on an immutable snapshot
  (`Board.Snapshot`: the cells and `_player`). The properties the source
  promises are proved about these functions.
- **The object.** `FieldObject.Field` is a class over a 7 x 6 `array2`. Its
  constructor, `Fill` and `DoStep` update the cells in place. Its other
  methods run the source's loops and recursions over fresh copies. Every
  method is proved equal to the value-level function it implements.

Two searches are modelled.

- `isSuccessful` is exhaustive. When the mover is `_player` it asks whether
  `some` reply succeeds; otherwise whether `every` reply does. `fill` sets
  `_player` and every copy inherits it (field.js:28), so the search keeps the
  side of `_player` all the way down, whichever side moves first. This is
  modelled exactly as written, including how a full board is treated.
- `_getStepAnalysis` is limited by depth. Its verdict is proved sound against
  an independent game-theoretic reference, `Search.CanForce`: "the player can
  force a four in a row, or a board on which the other side cannot move".
  The source's `every` is vacuously true over seven impossible replies, so a
  board the mover fills without a four counts as a win for the mover. The
  reference keeps that reading.

## Model

| member | source | states |
|---|---|---|
| Board.EmptyGrid | field.js:18-19 | a new matrix has 7 columns of 6 cells, all empty |
| Board.FirstEmpty | field.js:88 | the `findIndex` for an empty cell: none exactly when the column is full; otherwise the found row is empty and every row below it is occupied |
| Board.StackedFirstEmpty | field.js:88 | under gravity, the lowest empty row is the number of tokens in the column |
| Board.RowIndex | field.js:244-255 | fails exactly when the bottom cell is empty; otherwise the row is occupied, so is every row below it, and the row above is empty or off the board |
| Board.RowIndexStacked | field.js:244-255 | under gravity: fails exactly on an empty column, answers 5 on a full column, and otherwise answers the token count minus one |
| Board.Another | field.js:98-100 | the result is 'y' or 'r'; it is 'r' exactly when the input is 'y'; it never equals the input |
| Board.AnotherSwaps | field.js:98-100 | on 'y' and 'r' the mapping is an involution that swaps them |
| Board.Play | field.js:105-108 | the copy is refused exactly when the column is full; otherwise it keeps `_player` and every other column, has one more token in the column, and one empty cell less on the board |
| Board.PlayLowestEmpty | field.js:86-96 | the token lands in the lowest empty cell, and no other cell of the column changes |
| Board.PlayStacked | field.js:86-96 | a step keeps gravity, lands on top of the existing tokens, and the topmost-token lookup then finds it |
| Notation.Split | field.js:43 | `split(',')` gives at least one piece, and no piece contains the delimiter |
| Notation.JoinSplit | field.js:43 | the pieces joined with ',' give the text back |
| Notation.SplitJoin | field.js:43 | pieces without ',' come back unchanged from join then split |
| Notation.Filled | field.js:40-51 | the grid `fill` leaves: each piece written from the bottom of its column, within the 7 x 6 bounds, every other cell kept; its properties are stated by Notation.FilledStacked, Notation.ParseRender and FieldObject.Field.Fill |
| Notation.FilledStacked | field.js:43-51 | `fill` keeps gravity on a board that has it |
| Notation.FilledEmptyStacked | field.js:40-51 | `fill` on a fresh field always gives a position under gravity |
| Notation.ParseRender | field.js:40-54 | for a position under gravity, filling an empty field with its notation rebuilds that position |
| Win.Scans | field.js:110-122 | the scan table of `_processDirections`; Win.ScansSafe states its start ranges and that every cell it reaches is on the board |
| Win.ScansSafe | field.js:110-122 | every cell the scan table reaches is on the board; the start ranges are exactly columns 0..3 (horizontal, diagonals), rows 0..2 (vertical, rising) and rows 3..5 (falling) |
| Win.DirectionWon | field.js:129-146 | `_hasDirectionWon`: some start cell of the scan begins four cells of the player; FieldObject.Field.HasDirectionWon computes it and Win.WonIffHasFour relates it to the board |
| Win.Won | field.js:124-127 | `_hasWon`: some scan of the table finds four; Win.WonIffHasFour states it exactly, Win.WonHasToken a consequence |
| Win.WonIffHasFour | field.js:124-146 | `_hasWon(p)` holds exactly when four cells in a line on one of the four axes all hold `p` |
| Win.WonHasToken | field.js:124-146 | a win needs a token of the player on the board |
| Threat.Reach | field.js:207-225 | each walk stops within the four-cell limit; the cells it passes are on the board and empty or the player's own, and the cell it stops at is not |
| Threat.AxisScore | field.js:227 | each axis contributes at most 4 |
| Threat.ProbableWins | field.js:194-202 | fails exactly when the column is empty; otherwise the total is at most 16 |
| Threat.AxesScore | field.js:198-201 | the sum of the four axes is at most 16 |
| Threat.ReachStops | field.js:207-215 | the `positiveOffset` loop stops at one more than the forward reach |
| Threat.BackwardStops | field.js:217-225 | the `negativeOffset` loop stops at minus one minus the backward reach |
| Threat.AxisScoreCountsWindows | field.js:204-238 | the axis score equals the number of four-cell windows through the cell whose other three cells are on the board and empty or the player's own |
| Search.IsSuccessful | field.js:61-81 | false on a full column; when the move makes four in a row, true exactly when the mover is `_player` |
| Search.SomeSuccessful | field.js:76-77 | `some` over the seven reply columns; Search.SuccessfulReachesWin and FieldObject.Field.SomeSuccessful state it |
| Search.EverySuccessful | field.js:78-79 | `every` over the seven reply columns; Search.OpponentStepNeedsAllReplies and FieldObject.Field.EverySuccessful state it |
| Search.LastCellNotSuccessful | field.js:61-81 | a move that fills the last empty cell without a four is never successful |
| Search.FullBoardNotSuccessful | field.js:62-66 | on a full board no step is successful |
| Search.SuccessfulReachesWin | field.js:61-81 | a successful step has a continuation that ends in a four in a row of `_player` |
| Search.OpponentStepNeedsAllReplies | field.js:76-80 | when the mover is not `_player`, success requires every reply column to be open |
| Search.MaxDefined | field.js:190 | `_.max` of the defined counts: none exactly when no count is defined; otherwise one of the counts, and no smaller than any of them |
| Search.ProbableOf | field.js:190 | `_.map(analyticses, 'probableWinsCount')` for one entry: nothing for a null analysis or a missing count; Search.MaxDefined states the maximum over them |
| Search.Verdict | field.js:185-189 | the opponent wins exactly when some child records the opponent; the mover wins exactly when no child records the opponent and every child is null or records the mover; no other verdict is possible |
| Search.StepAnalysis | field.js:162-192 | null exactly when the column is full; `wins` is absent, the mover or the opponent; `probableWinsCount` is missing exactly when the move makes four in a row, and the record is then `{wins: player}` alone; otherwise it is the heuristic count on the board after the move; both counts are at most 16; at depth 1 there is no `anotherProbableWinsCount` |
| Search.LastCellAnalysis | field.js:182-190 | a move that fills the board without a four, with depth to spare, is recorded as a win for the mover and has no reply count |
| Search.GetStepAnalysis | field.js:148-157 | seven entries; an entry is null exactly when its column is full; otherwise it is tagged with its column and holds the depth-6 analysis |
| Search.MoverVerdictSound | field.js:185-189 | a verdict naming the mover is sound: the mover can force a four or a full board |
| Search.RepliesSound | field.js:187-188 | when every reply is impossible or recorded as a win for the mover, the mover has an answer to every reply |
| Search.OpponentVerdictSound | field.js:185-189 | a verdict naming the opponent is sound: the move does not win, and the opponent has a reply from which it can force a four or a full board |
| FieldObject.Field.constructor | field.js:15-30 | a fresh matrix: empty with `_player` undefined, or a cell-by-cell copy of the given field with its `_player` |
| FieldObject.Field.Fill | field.js:40-54 | the new cells are the old ones overwritten by the pieces of the split text (at most 7 pieces of at most 6 characters); `_player` is the argument |
| FieldObject.Field.FindEmpty | field.js:88 | the `findIndex` loop returns the lowest empty row, or -1 on a full column |
| FieldObject.Field.DoStep | field.js:86-96 | true exactly when the column was not full; the new cells are those of the value-level step; on a full column nothing changes |
| FieldObject.Field.NextStepFieldOrNull | field.js:105-108 | null exactly when the column is full; otherwise a fresh field whose state is the value-level step from this one |
| FieldObject.Field.HasDirectionWon | field.js:129-146 | for begin arguments that are not negative, as in every table entry, the nested `some` loops with the inner `k` loop answer exactly the scan's win predicate |
| FieldObject.Field.HasWon | field.js:124-127 | the loop over the scan table answers exactly `_hasWon` on the current cells |
| FieldObject.Field.GetRowIndex | field.js:244-255 | the lookup on the array agrees with the value-level topmost-token lookup, failure included |
| FieldObject.Field.DirectionProbableWinsCount | field.js:204-238 | the two `for` loops with `break` compute exactly the axis score |
| FieldObject.Field.AxesCount | field.js:198-201 | the four calls sum to the value-level axis total |
| FieldObject.Field.ProbableWinsCount | field.js:194-202 | agrees with the value-level heuristic, including the failure on an empty column |
| FieldObject.Field.IsSuccessful | field.js:61-81 | the recursion through fresh copies answers exactly the value-level `isSuccessful` |
| FieldObject.Field.SomeSuccessful | field.js:76-77 | the short-circuit loop answers whether some reply column is successful |
| FieldObject.Field.EverySuccessful | field.js:78-79 | the short-circuit loop answers whether every reply column is successful |
| FieldObject.Field.GetStepAnalysisAt | field.js:162-192 | the recursion through fresh copies answers exactly the value-level analysis |
| FieldObject.Field.ReplyAnalyses | field.js:183-184 | the `map` over the columns gives the seven child analyses in column order |
| FieldObject.Field.GetStepAnalysis | field.js:148-157 | the loop over the columns gives exactly the value-level `getStepAnalysis` |
| Fixtures.FillsColumns | spec/field.spec.js:13-24 | `fill(',,yrrry,yyyyyy,rrrr')` gives the listed matrix |
| Fixtures.NoFalsePositives | spec/field.spec.js:33-37 | no win for either colour on `ryyy,r,r` |
| Fixtures.VerticalWin | spec/field.spec.js:39-42 | `yyyy` is a win for 'y' and not for 'r' |
| Fixtures.VerticalWinRefilled | spec/field.spec.js:43-45 | a second `fill('rrrr')` makes it a win for 'r' and not for 'y' |
| Fixtures.HorizontalWinOnTheLeft | spec/field.spec.js:48-52 | `y,y,y,y` is a win for 'y' only |
| Fixtures.HorizontalWinOnTheRight | spec/field.spec.js:54-58 | `,,,r,r,r,r` is a win for 'r' only |
| Fixtures.UpDiagonalWin | spec/field.spec.js:60-64 | `,,y,ry,rry,rrry` is a win for 'y' only |
| Fixtures.DownDiagonalWin | spec/field.spec.js:66-70 | `,,rrry,rry,ry,y` is a win for 'y' only |
| Fixtures.ProbableWinsInColumn0 | spec/field.spec.js:74-77 | count 3 |
| Fixtures.ProbableWinsInColumn1 | spec/field.spec.js:78-81 | count 4 |
| Fixtures.ProbableWinsInColumn2 | spec/field.spec.js:82-85 | count 5 |
| Fixtures.ProbableWinsAtPoint3And2 | spec/field.spec.js:86-89 | count 13 |
| Fixtures.ProbableWinsAtPoint3And3 | spec/field.spec.js:90-93 | count 13 |
| Fixtures.ProbableWinsAtPoint6And5 | spec/field.spec.js:94-97 | count 3 |
| Fixtures.ForeignCellHorizontallyOnTheRight | spec/field.spec.js:98-101 | count 2 |
| Fixtures.ForeignCellHorizontallyOnTheLeft | spec/field.spec.js:102-105 | count 2 |
| Fixtures.ForeignCellVerticallyOnTheBottom | spec/field.spec.js:106-109 | count 2 |
| Fixtures.ForeignCellUpDiagonallyOnTheRight | spec/field.spec.js:110-113 | count 2 |
| Fixtures.ForeignCellUpDiagonallyOnTheLeft | spec/field.spec.js:114-117 | count 2 |
| Fixtures.ForeignCellDownDiagonallyOnTheRight | spec/field.spec.js:118-121 | count 2 |
| Fixtures.ForeignCellDownDiagonallyOnTheLeft | spec/field.spec.js:122-125 | count 2 |
| Fixtures.RowIndexOfEmptyColumn | spec/field.spec.js:129-131 | the lookup fails on an empty column |
| Fixtures.RowIndexUsually | spec/field.spec.js:132-135 | row 3 for `yyyy` |
| Fixtures.RowIndexOfFullColumn | spec/field.spec.js:136-139 | row 5 for a full column |
| Fixtures.StepOnEmptyColumn | spec/field.spec.js:143-146 | the token lands in row 0 |
| Fixtures.StepOnUsualColumn | spec/field.spec.js:147-151 | the token lands on the two tokens already there |
| Fixtures.StepOnFullColumn | spec/field.spec.js:152-155 | a full column refuses the step |

## Left out

- index.js is not part of this model. It parses the command line, prints
  messages and calls an `analyzeStep` that `field.js` does not define.
- The lodash helpers `_.max`, `_.map` and `_.findIndex` are modelled as plain
  definitions: `Search.MaxDefined`, a sequence comprehension, and
  `Board.FirstEmpty` with its loop `FieldObject.Field.FindEmpty`.
- A token is a Dafny `char`, not a JavaScript one-code-unit string. Player
  arguments are characters. Values that are not strings (for example a number
  passed as a player) are not modelled. An undefined `_player` is `None`.
- Column indexes outside 0..6 are excluded by `requires`. In the source they
  crash with a `TypeError` when `columns[columnIndex]` is undefined; that
  crash is not modelled.
- The fixture "Sets `_player`" (spec/field.spec.js:26-29) has no lemma of its
  own. The `ensures player == p` of `FieldObject.Field.Fill` states it for
  every call.
- The disabled `xdescribe` fixture (spec/field.spec.js:158-167) is skipped in
  the source, so it is not modelled.
- Running time is not modelled. Termination of the exhaustive search is
  proved with the number of empty cells as the measure; its cost is not.
- The fixtures are proved for the value-level functions, not replayed on a
  `Field` object. The object's methods are tied to the same functions by
  their contracts.
- Search.MoverVerdictSound and Search.OpponentVerdictSound require the mover
  to be 'y' or 'r'. For any other token, `_getAnotherPlayer` does not swap
  back to it, and the verdict then says nothing about the game.
- A player token equal to ',' is not covered by Notation.ParseRender, since
  the notation cannot write it.
- FieldObject.Field.HasDirectionWon requires begin arguments that are not
  negative. The source adds the raw begin to the position within the slice,
  which differs from the sliced start for a negative begin; the scan table
  never passes one.
