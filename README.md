# 2048 board logic in Dafny

This project models the board logic of the console 2048 game in
`Game2048/Game2048.hpp` and proves what it does. The modelled board logic
covers:

- the 4x4 grid of tile values, the count of empty cells, the score and the
  game status;
- the move that slides every row or column toward one edge, combining
  equal neighbours once;
- the spawn of a 2 or 4 into a random empty cell;
- the loss check that runs once the board is full;
- the reset that starts a new game.

It has three modules, one per file:

- `line.dfy` (module `Line`) works on one row or column read from the edge
  the tiles slide toward. It has two parts:
  - a reference definition of a slide: `Compact` drops the empty cells,
    `Merge` combines equal neighbours pairwise from the leading edge with
    no tile combined twice, and `SlideLine` pads the result with empty cells;
  - the game's own one-pass algorithm over a line, which keeps a "last
    settled" cursor. `Step` is one move-or-merge and `Pass` is the pass up to
    a given offset. The pass invariant `PassInv` proves that the pass
    computes the reference slide, including its points, its 2048 flag and an
    exact "moved" flag.
- `board.dfy` (module `Board`) works on the whole board. It holds:
  - the types `Direction`, `GameStatus` and `Pos`, and the reverse-delta
    table;
  - the board as a flat row-major sequence of 16 cells, and the lines of a
    board for a direction;
  - the reference result of a move (`MoveBoard`, `MoveScore`, `MoveWins`);
  - the k-th empty cell that a spawn fills (`KthEmpty`);
  - the loss check (`CanMerge`);
  - the single-tile operation `MoveOrMerge`, and lemmas showing that it is
    one step of the line pass.
- `game.dfy` (module `Game`) is the class `Game2048`. It keeps the board in
  place in an `array<nat>` of 16 cells, plus `emptyCount`, `score` and
  `status`. Its methods follow the original's methods loop for loop, and
  each is proved against the functions above. The doubly nested loop of
  `ProcessMove` is split into four methods:
  - `SlideLines` is the outer loop over the lines;
  - `ProcessLine` is one pass of that loop, which sets up the cursor and the
    loop bounds for one line;
  - `ScanLine` is the inner loop over that line;
  - `ScanStep` is one turn of the inner loop.

  All the loop bounds are computed exactly as the original computes them.

Randomness is an input. The original draws a position index in
`[0, emptyCount - 1]` and a value 2 or 4 from a seeded generator. Here the
caller supplies:

- `k`, the index of the chosen cell among the empty cells in row-major
  order;
- `v`, which must be 2 or 4.

Every result is proved for every such choice. The 4x4 array and its flat
view are one flat array here: cell `(x, y)` is at index `4 * y + x`.

`HasPossibleMerges` compares every pair of neighbouring cells, empty ones
included. It runs only on a full board, so empty cells never take part.
`Board.LossCheckExact` shows that looking only at the right and lower
neighbours is exact: on a full board that scan finds a pair exactly when
some move would change the board.

## Model

| member | source | states |
|---|---|---|
| Game.Game2048.constructor | Game2048/Game2048.hpp:563-575 | A new game has every cell empty, 16 empty cells, score 0 and status InGame. |
| Game.Game2048.HasPossibleMerges | Game2048/Game2048.hpp:159-179 | The row-major scan returns true exactly when some cell equals its right or lower neighbour (`CanMerge`). |
| Game.Game2048.SpawnRandomTile | Game2048/Game2048.hpp:181-223 | On a full board: returns false and changes nothing. Otherwise: writes v into the k-th empty cell in row-major order, lowers the empty count by one, keeps the score, and sets LostGame exactly when the board is now full with no equal right or lower neighbours. The empty count stays equal to the number of empty cells. |
| Game.Game2048.MoveOrMergeTile | Game2048/Game2048.hpp:226-283 | Does on the array what `MoveOrMerge` says. An empty target changes nothing. A tile moves into an empty cursor cell. A tile merges into an equal cursor tile: the score rises by the merged value, the empty count rises by one, a 2048 sets WinGame and the cursor advances. A tile meeting a different cursor tile is stacked in the next cell, and the cursor advances even when the tile is already there. |
| Board.MoveOrMergeCounts | Game2048/Game2048.hpp:243-280 | One move-or-merge keeps the total of the tile values. The empty count goes up by one exactly when points are gained (a merge) and is otherwise unchanged. |
| Board.MoveOrMergeMoved | Game2048/Game2048.hpp:228-282 | The returned flag is true exactly when the board changed. |
| Game.Game2048.GetTileOnLines | Game2048/Game2048.hpp:141-144 | The tile `GetTile` reads at a cell is column x of row y: offset x of that row and offset y of that column as the lines of a move see them. |
| Board.ValidPosIsCell | Game2048/Game2048.hpp:152-156 | A position is valid exactly when it is one of the 16 cells of the board, and a valid position is the cell at its own flat index. |
| Board.ReverseDelta | Game2048/Game2048.hpp:234-241 | Each table entry is a unit step along the line's own axis (horizontal exactly for Left and Right). It points down or right when the tiles slide up or left, and up or left otherwise. |
| Line.Step | Game2048/Game2048.hpp:226-283 | One move-or-merge on a line keeps its length. The cursor stays or advances by one and never passes the scanned offset. The moved flag becomes true exactly when it already was or the line changed. Points never fall, and when points are gained the cursor advances past the merged tile. |
| Board.MoveOrMerge | Game2048/Game2048.hpp:226-283 | One move-or-merge on the flat board keeps its size. Either nothing changes or the scanned cell is left empty. Points are gained only by a merge, which also advances the cursor and counts as a move. The win flag is raised exactly when the merge makes 2048. |
| Line.Pass | Game2048/Game2048.hpp:328-343 | The state of a line after the inner loop has examined the offsets before j. The line keeps its length and the cursor is strictly behind the scan. What that state holds is stated by `Line.PassKeepsInv` and `Line.PassIsSlide`. |
| Board.CanStackRoom | Game2048/Game2048.hpp:264-276 | The room for stacking a tile, stated on cell positions (`CanStack`, what the runtime assertion at line 275 checks), gives the same room on flat indices (`StackRoom`). So the cell after the cursor is on the board and is the tile's own cell or empty. |
| Board.AdvanceIndex | Game2048/Game2048.hpp:234-241 | Adding the reverse delta of a direction to a cell moves its flat index by that direction's stride. |
| Board.LinePosStep | Game2048/Game2048.hpp:234-253 | Advancing the cursor by the reverse delta moves it one cell further from the leading edge on the same line. |
| Board.LinePos | Game2048/Game2048.hpp:324-338 | The cell at offset k of line o lies on line o at offset k, and it is a valid position exactly when o and k are in range. |
| Board.PassAdvance | Game2048/Game2048.hpp:328-343 | One turn of the inner loop is one step of the line pass. The target and the cursor are distinct valid cells. They meet `CanStack`, so the runtime assertion at line 275 holds at every call the move makes. Moving or merging the target gives the pass's next line, cursor, points, win flag and moved flag. |
| Game.Game2048.ScanStep | Game2048/Game2048.hpp:328-343 | The same statement, on the game object. |
| Game.Game2048.ScanLine | Game2048/Game2048.hpp:328-343 | The inner loop over one line, starting with the cursor at the leading cell and the scan at the next cell, writes back the result of the whole line pass. The other lines are kept, and the pass's points, win flag and moved flag are applied. |
| Line.PassKeepsInv | Game2048/Game2048.hpp:318-343 | Every state the line pass reaches keeps the pass invariant: the unexamined cells are untouched, the cells between the cursor and the scan are empty, and the final result is already determined. |
| Line.PassIsSlide | Game2048/Game2048.hpp:318-343 | The whole pass over a line gives the reference slide `SlideLine`, its points `LineScore` and its 2048 flag `LineWins`. It reports a move exactly when the line changed. |
| Game.Game2048.ProcessLine | Game2048/Game2048.hpp:318-344 | One pass of the outer loop replaces that line by its slide and keeps the other lines. It adds the line's points, sets WinGame exactly when the slide makes a 2048, and returns whether the line changed. |
| Game.Game2048.SlideLines | Game2048/Game2048.hpp:318-344 | The outer loop makes the board `MoveBoard`, adds `MoveScore`, sets WinGame exactly when `MoveWins`, and returns whether the board changed. |
| Game.Game2048.ProcessMove | Game2048/Game2048.hpp:285-352 | Outside InGame: returns false and nothing changes. Otherwise every line is slid and the score rises by the points of all merges and never falls. If nothing moved, the board and status stay and no points are gained. If a 2048 was made, the status is WinGame and no tile is spawned. Otherwise a tile is spawned into the k-th empty cell of the moved board, and the game is lost exactly when that fills the board with no equal neighbours. |
| Line.RuleExamples | Game2048/Game2048.hpp:318-343 | No tile is combined twice in a move: 2 2 2 2 becomes 4 4 (not 8), and 2 2 4 becomes 4 4. Two merges in one line add both values to the score. |
| Line.SlideLinePacked | Game2048/Game2048.hpp:318-343 | After a slide the tiles are contiguous against the leading edge. They are the line's own tiles, in order, with equal neighbours combined pairwise from the leading edge. |
| Line.SlideLineConservesSum | Game2048/Game2048.hpp:246-280 | Sliding a line keeps the total of its tile values. |
| Board.MoveBoardSum | Game2048/Game2048.hpp:318-344 | A move keeps the total of the tile values on the board. |
| Board.MoveBoardLines | Game2048/Game2048.hpp:318-344 | A move slides each line of its direction independently. |
| Board.MoveBoardChanged | Game2048/Game2048.hpp:317-351 | A move changes the board exactly when it changes some line. |
| Board.MovePrefixStep | Game2048/Game2048.hpp:318-344 | Processing line n, after lines 0 to n-1: that line is still as it was, and it is slid in place. Its points and win flag are added, and the board has changed exactly when it had already changed or this line moves. |
| Board.UnchangedMoveGainsNothing | Game2048/Game2048.hpp:346-351 | A move that changes nothing gains no points and makes no 2048. |
| Line.SlideUnchangedGainsNothing | Game2048/Game2048.hpp:246-263 | A slide that leaves a line as it was gains nothing and makes no 2048. |
| Board.MoveLeavesRoom | Game2048/Game2048.hpp:346-349 | A move that changes the board leaves an empty cell, so the spawn after it always finds one. |
| Line.SlideMovedLeavesRoom | Game2048/Game2048.hpp:246-280 | A slide that changes a line leaves an empty cell in it. |
| Board.KthEmpty | Game2048/Game2048.hpp:192-211 | The k-th empty cell in row-major order is an empty cell with exactly k empty cells before it. |
| Board.KthEmptyUnique | Game2048/Game2048.hpp:195-211 | An empty cell with exactly k empty cells before it is the k-th empty cell, so the scan's stopping point is unique. |
| Board.LossCheckExact | Game2048/Game2048.hpp:159-179 | On a full board, some cell equals its right or lower neighbour exactly when some direction's move would change the board. A lost board admits no move, and a full board that is not lost admits one. |
| Line.SlideFullLine | Game2048/Game2048.hpp:246-271 | A line without empty cells stays as it is exactly when no two neighbours are equal. |
| Board.FullMoveChanges | Game2048/Game2048.hpp:318-344 | On a full board, a move changes something exactly when two equal neighbours lie along its lines. |
| Game.Game2048.ResetGame | Game2048/Game2048.hpp:477-490 | Clears the board and resets the empty count to 16, the score to 0 and the status to InGame. Two tiles are spawned: v1 at empty cell k1, then v2 at empty cell k2 of the remaining ones. That ends with exactly two tiles, 14 empty cells, score 0 and InGame. |
| Board.KthEmptyAfterOne | Game2048/Game2048.hpp:489-490 | On an empty board with one tile at k1, the k2-th empty cell is k2 if k2 < k1 and k2 + 1 otherwise. |

## Left out

- Random generation is not modelled: the seeded generator, the uniform
  position draw and the 0.9/0.1 weights of `GenerateRandTileVal` (lines
  146-150 and 570-572). The spawn position index `k` and the value `v` are
  parameters instead, and every result holds for every admissible choice.
- Console input and output are not modelled. This covers the board and
  info printing, the screen clear and redraw at the end of `ResetGame`, the
  key registration, the game loop, `main.cpp`, `Console_Output.hpp` and the
  key tables. None of them changes the board state except through the
  modelled operations.
- `GetTile` returns a reference in the original. Here it reads a value, and
  the methods write cells through the array directly at the same index.
- The C++ `assert(valNewLast == 0)` in `MoveOrMergeTile` becomes the
  precondition `CanStack`. Every call from the move is proved to meet it.
- `MoveOrMergeTile` also requires the target and the cursor to be distinct
  cells. The original does not check this, and every call from the move is
  proved to meet it (`Board.PassAdvance`).
- The spawn index of a move is a parameter `k` of `ProcessMove`, required
  to be in range for the board after the move; the original draws it at
  that moment.
- Tile values and the score are `uint64_t` in the original. The model uses
  unbounded naturals and does not model wrap-around. A 4x4 board cannot
  hold a tile near 2^64, but the score's overflow after an astronomically
  long game is outside the model.
- The `Pos` operators `operator-` (lines 85-91), `operator-=` (101-107),
  `operator+` (77-83) and `operator!=` (114-117) are never used by the
  board logic and are not modelled. `operator+=` and `operator==` are
  `Advance` and `Pos` equality. The `Enum_End` sentinel of `Direction`
  only sizes the delta table.
- The constructor's console argument, its seed, its weights and its hiding
  of the cursor are not modelled.
