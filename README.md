# Tetris engine model

A Dafny model of the game engine inside `src/App.jsx` of a React Tetris game.
The board is a fixed grid of 20 rows of 10 integer cells: 0 is an empty
cell and 1..5 is the colour of a settled piece. Five literal pieces are
drawn at random. A falling piece moves left, right and down and turns a
quarter clockwise, each move gated by a collision check. A timer tick lets
the piece fall one row. When it cannot fall, the tick settles the piece:
it is stamped into the board, full rows are cleared at 100 points each,
the next piece is promoted to column 4, row 0, and a new next piece is
drawn. A promoted piece that collides there ends the game.

The project has seven modules:

- `Board` (board.dfy): grid dimensions and well-formedness.
- `Pieces` (pieces.dfy): the piece literals and `rotateBlock`.
- `Placement` (placement.dfy):
  - `checkCollision`, `mergeBlock` and `getDropPosition`, written as loops
    over the board and the shape;
  - each loop is proved against a specification function (`Collides`,
    `Merged`).
- `LineClear` (lines.dfy): `removeFullLines`, proved against `Cleared` and
  `FullRows`.
- `Rules` (rules.dfy):
  - the engine state as a record (board, falling piece, next piece,
    column, row, score, started, paused);
  - one transition function per handler and one for the tick;
  - the invariant `Inv` that every transition keeps.
- `Engine` (engine.dfy):
  - the component's state variables as the fields of class `Game`;
  - every handler and the tick as a method that updates those fields;
  - each method is proved to perform exactly its `Rules` transition.
- `Findings` (findings.dfy): two concrete runs in which the source, as
  written, breaks `Inv` (see "## Findings").

The random choice in `getRandomBlock` is an index parameter in `[0, 5)`.
Each key press or timer tick is one sequential transition.

## Model

| member | source | states |
|---|---|---|
| Board.EmptyRow | src/App.jsx:111 | the padding row has 10 cells, all empty |
| Board.EmptyGrid | src/App.jsx:6-10 | the initial board is well formed: 20 rows of 10 cells, every cell 0 |
| Pieces.Tetromino | src/App.jsx:34-72 | each of the five literals is a rectangle at most 3 by 3 with a filled cell, its filled cells hold its colour, and literal i has colour i + 1 |
| Pieces.Rotate | src/App.jsx:148-156 | an h by w shape becomes a w by h shape with cell (i, j) equal to the old cell (h-1-j, i); the colour is kept |
| Pieces.RotateProper | src/App.jsx:148-156 | turning a piece in play keeps it a rectangle of its own colour with a filled cell |
| Pieces.RotateTwice | src/App.jsx:148-156 | two turns give the half-turn: cell (i, j) comes from (h-1-i, w-1-j), dimensions unchanged |
| Pieces.RotateFourTimes | src/App.jsx:148-156 | four turns give back the original piece |
| Pieces.RotateExample | src/App.jsx:148-156 | the first literal `[[1,1,1],[0,1,0]]` turns into `[[0,1],[1,1],[0,1]]` |
| Placement.CheckCollision | src/App.jsx:79-92 | the scan answers true exactly when some filled cell lands left of column 0, right of column 9, below row 19 or on an occupied cell |
| Placement.FreeIsInBounds | src/App.jsx:79-92 | a piece that does not collide lies on the board, on empty cells only |
| Placement.FreeAboveFloor | src/App.jsx:79-92 | a piece with a filled cell that does not collide at row oy has oy < 20 |
| Placement.MergeBlock | src/App.jsx:94-104 | the copy equals the input board with the piece's colour written under each filled piece cell |
| Placement.MergedAt | src/App.jsx:94-104 | a 20 by 10 board that matches the stamped board cell by cell is the stamped board |
| Placement.MergedWellFormed | src/App.jsx:94-104 | stamping keeps the board well formed, and every cell outside the piece's footprint keeps its value |
| Placement.MergedOccupies | src/App.jsx:94-104 | after stamping, the piece collides at its own position |
| Placement.GetDropPosition | src/App.jsx:158-164 | the loop ends for a piece with a filled cell; the result d satisfies 0 <= d < 20, the piece is free at every row 1..d, and it collides at row d + 1 |
| LineClear.Kept | src/App.jsx:107 | the filter keeps exactly the rows that are not full, each one a row of the input, and drops as many rows as are full |
| LineClear.Cleared | src/App.jsx:106-114 | the cleared board has the input's height, and each of its rows is an empty row or a row of the input |
| LineClear.RemoveFullLines | src/App.jsx:106-114 | the loops produce the cleared board of 20 rows, and the score rises by exactly 100 per full row of the input |
| LineClear.NoFullRows | src/App.jsx:107-108 | the count of full rows is 0 exactly when no row is full |
| LineClear.KeptAll | src/App.jsx:107 | without full rows the filter keeps every row |
| LineClear.NoFullRowsUnchanged | src/App.jsx:107-111 | a board without full rows comes back equal, with 0 added to the score |
| LineClear.ClearedShape | src/App.jsx:106-114 | a well-formed board stays well formed; the top k rows are empty, k being the number of full rows, and below them are the non-full rows in their original order |
| LineClear.ClearedShaped | src/App.jsx:106-114 | clearing keeps 20 rows of 10 cells |
| LineClear.ClearedIdempotent | src/App.jsx:106-114 | a cleared board has no full row, so a second pass changes nothing and scores nothing |
| Rules.Initial | src/App.jsx:6-21 | the state before the first game keeps the invariant and is not started |
| Rules.MoveLeft | src/App.jsx:249-254 | the column drops by one exactly when it is above 0 and the piece is free there; otherwise nothing changes; no other field changes |
| Rules.MoveRight | src/App.jsx:255-260 | the column rises by one exactly when it is below 9 and the piece is free there; otherwise nothing changes; no other field changes |
| Rules.MoveDown | src/App.jsx:261-264 | the row rises by one exactly when the piece is free one row lower; otherwise nothing changes; no other field changes |
| Rules.RotatePiece | src/App.jsx:265-270 | the piece is replaced by its turned form only when the turned form is free at the same column and row; no other field changes |
| Rules.PauseResume | src/App.jsx:271 | only the paused flag changes, and it flips |
| Rules.KeyDown | src/App.jsx:273-296 | a stopped or paused game ignores keys, an unknown key changes nothing, and no key changes the board, the score, the started flag or the next piece |
| Rules.StartGameAsWritten | src/App.jsx:302-307 | the game runs unpaused with two fresh literals; the board, the score, the column and the row stay as the last game left them |
| Rules.StartGame | src/App.jsx:302-307 | corrected start: as the written start, with the first piece at column 4, row 0 |
| Rules.Promoted | src/App.jsx:202 | the promoted piece is the next piece when there is one |
| Rules.TickAsWritten | src/App.jsx:190-222 | the tick as written. Paused or stopped: nothing changes. Free below: only the row rises. On landing, the game goes on exactly when the promoted piece is free at (4, 0) on the board from before the merge. If it goes on: cleared board, score + 100 per full row, promoted piece at column 4, row 0. If it ends: empty board, score 0, column and falling piece kept |
| Rules.Tick | src/App.jsx:190-222 | as the written tick, except that on landing the game goes on exactly when the promoted piece is free at (4, 0) on the cleared, merged board |
| Rules.SpawnFitsEmpty | src/App.jsx:302-307 | every literal is free at column 4, row 0 of the empty board |
| Rules.StartGameKeepsInv | src/App.jsx:302-307 | the corrected start keeps the invariant |
| Rules.HandlersKeepInv | src/App.jsx:249-271 | each move, the turn and the pause toggle keep the invariant |
| Rules.KeyDownKeepsInv | src/App.jsx:273-296 | every key press keeps the invariant |
| Rules.TickKeepsInv | src/App.jsx:190-222 | the corrected tick keeps the invariant: in a running game the falling piece always stands on free cells of the board |
| Rules.SettleKeepsInv | src/App.jsx:195-219 | the corrected settle, both the game-over and the continue branch, keeps the invariant |
| Findings.StartAfterGameOverOverhangs | src/App.jsx:302-307 | a game over from a state the invariant admits leaves column 8; the written start then places a three-wide piece over the right wall, breaking the invariant, while the corrected start keeps it |
| Findings.StackedLands | src/App.jsx:190-195 | the sample state meets the invariant and its square cannot fall |
| Findings.StackedSettles | src/App.jsx:196-200 | settling the square clears no row, and literal 0 collides at (4, 0) on the merged board |
| Findings.StackedSpawnFree | src/App.jsx:204 | on the board from before the merge, literal 0 is free at (4, 0) |
| Findings.StaleSpawnCheckOverlaps | src/App.jsx:202-219 | the written tick keeps the game running with the new piece on top of the settled one, breaking the invariant; the corrected tick ends the game |
| Engine.Game.constructor | src/App.jsx:6-21 | the fields start as the initial state |
| Engine.Game.StartGame | src/App.jsx:302-307 | the Play button updates the fields exactly as the corrected start and keeps the invariant |
| Engine.Game.PauseResume | src/App.jsx:271 | the fields change exactly as the pause toggle says |
| Engine.Game.MoveLeft | src/App.jsx:249-254 | the fields change exactly as Rules.MoveLeft says, and the invariant is kept |
| Engine.Game.MoveRight | src/App.jsx:255-260 | the fields change exactly as Rules.MoveRight says, and the invariant is kept |
| Engine.Game.MoveDown | src/App.jsx:261-264 | the fields change exactly as Rules.MoveDown says, and the invariant is kept |
| Engine.Game.Rotate | src/App.jsx:265-270 | the fields change exactly as Rules.RotatePiece says, and the invariant is kept |
| Engine.Game.KeyDown | src/App.jsx:273-296 | the key listener changes the fields exactly as Rules.KeyDown says, and the invariant is kept |
| Engine.Game.Tick | src/App.jsx:190-222 | one timer tick changes the fields exactly as the corrected Rules.Tick says, and the invariant is kept |
| Engine.Game.Settle | src/App.jsx:195-219 | the settling branch runs mergeBlock, removeFullLines and the spawn check on a piece that stands on free cells, and ends in the state the corrected settle describes; Engine.Game.Tick, its only caller, keeps the invariant around it |
| Engine.Game.EndGame | src/App.jsx:204-213 | game over: not started, empty board, score 0, row 0 and a fresh next piece; the column and the falling piece are kept |
| Engine.Game.Respawn | src/App.jsx:196-218 | the game goes on: cleared board, new score, promoted piece at column 4, row 0, and a fresh next piece |

## Left out

- Drawing is not modelled: `drawGrid`, `drawBlock`, the canvas setup of the main effect, the `colors` table and the JSX markup (src/App.jsx:23-32, 116-146, 166-188, 309-344). They only present the state.
- The `alert` shown on game over is not modelled, since it is a UI side effect.
- The timer and listener wiring is not modelled: `setInterval`/`clearInterval`, the `keydown` listener registration and the effect dependency lists (src/App.jsx:227-239, 298-300). Each tick and each key press is one sequential transition instead.
- React's batching of setters, functional-updater interleavings and stale closures are not modelled. In particular, the tick reads `y` and `grid` from the render in which the timer was armed. The model treats them as the current state.
- `Math.random` in `getRandomBlock` (src/App.jsx:74-77) is not modelled. Callers pass the drawn literal's index instead.
- `intervalSpeed` is not modelled, because it never changes.
- The effect at src/App.jsx:241-247 is not modelled. `currentBlock` is always an object, so its guard never holds.
- The handlers are not modelled for a missing piece. `Engine.Game.MoveLeft` and the other handlers require a falling piece to exist. The key listener only reaches them in a running game, and a running game always has one.
- src/components/Modal.jsx and tailwind.config.js are not part of this model. They hold no engine logic.
- Placement.Collides: rows above the board (negative `offsetY`) are outside its domain, and every caller requires `oy >= 0`.
  - For such a row the source reads `grid[yPos]`, which is undefined, and then throws on `[xPos]`.
  - The game only ever uses rows from 0 downward.
  - For a negative row the code throws, and the model follows the code.
- Placement.MergeBlock: requires the piece's footprint on the board. The source would grow a row beyond column 9, or fail on a row past 19.
  - In the corrected model the requires always holds, because Rules.Inv keeps the falling piece on free cells.
  - In the program as written it can fail: after the stale-column start of the first finding, a piece at column 8 overhangs the wall and settles there. The source then stores an eleventh, never-read entry in row 0 (src/App.jsx:99), while Merged, and so Rules.TickAsWritten, drops that cell.
- Rules.StartGame: does not clear the board or the score, just as `startGame` resets neither. Rules.Inv proves that a stopped game already has an empty board and a score of 0.
- Rules.TickAsWritten: game over takes the board and score reset at src/App.jsx:207-212 as final. The pending `setGrid` updater at src/App.jsx:196-200 is dropped, and so is the `setScore` call inside `removeFullLines`. Both were queued earlier in the same tick; the model gives the later setters precedence.
- Pieces.Rotate: requires a rectangular shape. Every literal is one, and rotation keeps shapes rectangular.

## Findings

| source | as written | input that shows it | evidently intended | confidence | as-written member | corrected member |
|---|---|---|---|---|---|---|
| src/App.jsx:302-307 | `startGame` never resets the column or the row. A game over leaves the column where the last piece stood, and the next game's first piece appears there. | In `Findings.NearTop`, the square falls at column 8 and the next piece (literal 0) is blocked at (4, 0), so the game ends with the column at 8. Play then draws literal 0, three cells wide, at column 8: its right cell is at column 10, beyond the wall. | The first piece starts at column 4, row 0, like every promoted piece (src/App.jsx:217-218). | not executed | Rules.StartGameAsWritten (Findings.StartAfterGameOverOverhangs) | Rules.StartGame |
| src/App.jsx:204 | The spawn check tests the promoted piece against `grid`, the board from before the landing piece was merged. | In `Findings.Stacked`, the square lands at rows 0-1, columns 4-5, and literal 0 is next. On the old board, literal 0 is free at (4, 0), so the game goes on. On the new board, its cells lie on top of the square's cells. | Game over exactly when the promoted piece collides with the board it will fall into: the merged and cleared board. | not executed | Rules.TickAsWritten (Findings.StaleSpawnCheckOverlaps) | Rules.Tick (Rules.TickKeepsInv) |
