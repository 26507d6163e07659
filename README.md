# Tetris engines in Dafny

This project models the rule engines of a browser Tetris game and proves properties
about them. The game has three parts:

- **The full engine** (`src/components/game/TetrisGame.jsx`):
  - a 20x10 board of piece names;
  - a current, a next and a held piece;
  - a 7-bag of piece names;
  - four rotations per piece with horizontal wall kicks;
  - hard drop, locking, line clearing with 100 points per row;
  - 4x4 previews of the next and the held piece.
- **The minimal engine** (`src/useGameLogic.ts`): one catalog piece on a board that never
  changes, with moves that are refused when they would collide.
- **The catalog** (`src/constants.ts`): seven 0/1 shape matrices with colours, and the board
  dimensions.

The modules are:

- `Grid` (`grid.dfy`): grids of optional cells, shared by both engines. It holds:
  - stamping blocks into a grid (`Stamp`);
  - the reference definition of line clearing, `ClearFull`, which keeps the non-full rows
    in order and puts one empty row on top per removed row.
- `Catalog` (`catalog.dfy`): the literal shape and colour table and the board size.
- `Pieces` (`pieces.dfy`): the interface of the piece-offset module that the full engine
  imports. It holds:
  - the seven names;
  - an abstract rotation table with four non-empty block lists per name;
  - the bag refill predicate `IsShuffle`, proved equal to "a permutation of the seven names".
- `Rules` (`rules.dfy`): the stateless rules of the full engine:
  - the collision test;
  - the rotation arithmetic and the kick search;
  - the hard-drop descent, the lock write loop and the line-clearing loop;
  - the preview grids;
  - the bag draw step.

  All loops of the engine except those of `renderBoard` are methods here, each proved equal
  to a reference function. The loops of `renderBoard` are in `Game.TetrisGame.RenderBoard`,
  whose contract states the drawn board cell by cell.
- `Game` (`game.dfy`): the class `TetrisGame`. Its fields are the component's state, and it
  has one method per command. Every command keeps `Valid()`:
  - a 20x10 board;
  - a rotation in 0..3;
  - a score that is a non-negative multiple of 100;
  - a bag of at most seven distinct names.

  Every move, rotation, drop and hold keeps `Settled()`: while the game runs, no row is full
  and the current piece overlaps nothing and stays inside the walls.
- `GameLogic` (`game_logic.dfy`): the minimal engine as functions over its state.

A state update takes effect at once, so a later read in the same command sees it.
Randomness is a nondeterministic choice (`:|`) or a parameter:
- the shuffle is some permutation of the seven names;
- a pick from an empty bag is some name;
- the index `pick` chooses an entry of the minimal engine's catalog.

## Model

| member | source | states |
|---|---|---|
| Catalog.Tetrominoes | src/constants.ts:8-16 | the table has exactly the keys I, J, L, O, S, T, Z; every shape is 0/1, rectangular, has four 1-cells, one or two rows and at most four columns; I is 1x4 and O is 2x2; the seven colours are pairwise distinct |
| Catalog.TableKeys | src/constants.ts:8-16 | the literal table has exactly the seven keys |
| Catalog.TableShaped | src/constants.ts:9-15 | every entry is a well-shaped tetromino matrix |
| Catalog.TableColorsDistinct | src/constants.ts:9-15 | no two entries share a colour |
| Catalog.TableIAndO | src/constants.ts:9-12 | I is one row of four cells and O is two rows of two |
| Grid.EmptyGrid | src/components/game/TetrisGame.jsx:479-481 | an h by w grid whose every cell is empty |
| Grid.StampAt | src/components/game/TetrisGame.jsx:205-220 | writing blocks keeps the dimensions and sets exactly the in-range cells some block covers; every other cell keeps its old value |
| Grid.StampCovers | src/components/game/TetrisGame.jsx:217-219 | a block whose cell is inside the grid leaves the value there |
| Grid.RowFull | src/components/game/TetrisGame.jsx:329 | the left-to-right scan of a row accepts it exactly when no cell is empty |
| Grid.NonFullRows | src/components/game/TetrisGame.jsx:328-335 | the kept rows have the board's width, none of them is full, and a board without full rows is kept whole |
| Grid.EmptyRowNotFull | src/components/game/TetrisGame.jsx:331 | the row pushed on top is never full |
| Grid.NonFullAppend | src/components/game/TetrisGame.jsx:328-335 | keeping the non-full rows distributes over concatenation |
| Grid.ClearFullSpec | src/components/game/TetrisGame.jsx:324-341 | clearing keeps 20x10; the top FullCount rows are empty and the rest are the old non-full rows in their old order; no full row remains; with no full row the board is unchanged |
| Grid.ClearFullIdempotent | src/components/game/TetrisGame.jsx:324-341 | clearing a cleared board changes nothing |
| Pieces.AllNamesShuffle | src/components/game/TetrisGame.jsx:25 | the name list itself is a refill (seven names, no repeats, every name present) |
| Pieces.ShuffleIsPermutation | src/components/game/TetrisGame.jsx:25 | a refill is exactly a sequence with the same multiset as the seven names |
| Pieces.PermutedShuffle | src/components/game/TetrisGame.jsx:25 | any reordering of a refill is a refill |
| Rules.CreateEmptyBoard | src/components/game/TetrisGame.jsx:479-481 | 20 rows of 10 empty cells, none of them full |
| Rules.AnyBlockHits | src/components/game/TetrisGame.jsx:124-137 | the block scan reports a hit if and only if some block is out of the left, right or bottom bound or lands on an occupied cell at a row of at least 0 |
| Rules.Collides | src/components/game/TetrisGame.jsx:119-138 | without a current piece every position collides; otherwise a position collides if and only if some block of the rotation hits |
| Rules.EmptyBoardCollision | src/components/game/TetrisGame.jsx:128-133 | on the empty board only the side and bottom bounds can cause a hit |
| Rules.SpawnFitsEmptyBoard | src/components/game/TetrisGame.jsx:140-153 | with offsets inside the 4x4 box, every piece fits at the spawn point of the empty board in rotation 0 |
| Rules.RotatedLeft | src/components/game/TetrisGame.jsx:233 | the left turn stays in 0..3 and a right turn undoes it |
| Rules.RotatedRight | src/components/game/TetrisGame.jsx:251 | the right turn stays in 0..3 and a left turn undoes it |
| Rules.FirstFit | src/components/game/TetrisGame.jsx:234-247 | the index of the first of the offsets 0, -1, 1, -2, 2 at which the piece fits: every earlier offset collides and the chosen one is free; the length of the list means none fits |
| Rules.FirstFitIs | src/components/game/TetrisGame.jsx:234-247 | an index with collisions before it and a fit at it is the first fit |
| Rules.KickSearch | src/components/game/TetrisGame.jsx:234-247 | the scan (origin, then kicks -1, 1, -2, 2, stopping at the first free one) returns exactly the first fit |
| Rules.RestingRow | src/components/game/TetrisGame.jsx:200-203 | the resting row is at or below the start row, every row between them is free, and the row below it collides |
| Rules.DropRow | src/components/game/TetrisGame.jsx:200-203 | the descent loop terminates and stops at the resting row |
| Rules.FirstAbove | src/components/game/TetrisGame.jsx:208-215 | every block before the index lands at a row of at least 0, and the block at the index, if any, lands above the top |
| Rules.WriteBlocks | src/components/game/TetrisGame.jsx:205-220 | the write loop keeps a 20x10 board; it ends the game exactly when some block lands above the top; the board holds the pieces written before that block and nothing else changes |
| Rules.CollapseFullRows | src/components/game/TetrisGame.jsx:324-335 | the splice-and-rescan loop computes the reference clearing and counts exactly the full rows |
| Rules.MaxOf | src/components/game/TetrisGame.jsx:163-164 | the maximum bounds every entry and is one of them |
| Rules.Xs | src/components/game/TetrisGame.jsx:163 | the x offsets of the blocks, in order |
| Rules.Ys | src/components/game/TetrisGame.jsx:164 | the y offsets of the blocks, in order |
| Rules.CentreOffset | src/components/game/TetrisGame.jsx:165-166 | the floor of half the free space; for an extent of 1 to 4 the shape fits and the margin after it is at most one larger than the one before |
| Rules.Preview | src/components/game/TetrisGame.jsx:371-392 | the preview is always a 4x4 grid |
| Rules.PreviewCells | src/components/game/TetrisGame.jsx:371-392 | with no piece the preview is empty; otherwise a cell holds the name exactly when a centred rotation-0 block lands on it |
| Rules.PreviewBlockShown | src/components/game/TetrisGame.jsx:168-174 | a block whose centred cell is inside the grid is drawn |
| Rules.PreviewShowsWholeShape | src/components/game/TetrisGame.jsx:163-174 | a shape whose offsets lie in the 4x4 box is drawn whole: every block lands inside the grid and shows the name |
| Rules.RenderPreview | src/components/game/TetrisGame.jsx:371-392 | the grid loop computes the preview |
| Rules.DrawKeepsNoDup | src/components/game/TetrisGame.jsx:30-39 | a draw keeps the bag free of repeats and at most seven long |
| Rules.SevenDrawsFromRefill | src/components/game/TetrisGame.jsx:30-39 | seven draws from a refill yield the refill itself, so each name exactly once, and leave the bag empty |
| Game.TetrisGame.constructor | src/components/game/TetrisGame.jsx:10-21 | the initial state: empty board, no pieces, origin position, rotation 0, score 0, not started, hold allowed, empty bag |
| Game.TetrisGame.CheckCollision | src/components/game/TetrisGame.jsx:119-138 | on the current fields: without a current piece every position collides; otherwise a position collides if and only if some block of the rotation is out of the side or bottom bound or on an occupied cell at a row of at least 0 |
| Game.TetrisGame.InitializeBag | src/components/game/TetrisGame.jsx:24-27 | the bag becomes a permutation of the seven names |
| Game.TetrisGame.GetRandomPiece | src/components/game/TetrisGame.jsx:30-39 | a non-empty bag yields its head and loses it; an empty bag is refilled and an arbitrary name is returned |
| Game.TetrisGame.ResetForStart | src/components/game/TetrisGame.jsx:43-49 | empty board, score 0, not over, started, not paused, no held piece, hold allowed |
| Game.TetrisGame.StartGame | src/components/game/TetrisGame.jsx:42-60 | the resets, then current, next and the remaining bag together form one refill; the piece is at the spawn point in rotation 0; with boxed offsets the fresh game is settled |
| Game.TetrisGame.DrawForSpawn | src/components/game/TetrisGame.jsx:141-142 | the old next piece or a fresh draw, then one more draw from the bag that remains |
| Game.TetrisGame.SpawnNewPiece | src/components/game/TetrisGame.jsx:140-153 | the drawn pieces become current and next, at the spawn point in rotation 0 with hold allowed; the game is over exactly when it was already or the new piece collides there |
| Game.TetrisGame.HoldCurrentPiece | src/components/game/TetrisGame.jsx:268-292 | nothing changes when hold is not allowed or there is no piece; otherwise the old current piece is held, the old held piece (bag unchanged) or a fresh draw becomes current at the spawn point in rotation 0, hold is blocked, and a blocked spawn ends the game; the play invariant is kept |
| Game.TetrisGame.MoveLeft | src/components/game/TetrisGame.jsx:179-182 | only x changes, by -1, and only when the target is free; the play invariant is kept |
| Game.TetrisGame.MoveRight | src/components/game/TetrisGame.jsx:184-187 | only x changes, by +1, and only when the target is free; the play invariant is kept |
| Game.TetrisGame.MoveDown | src/components/game/TetrisGame.jsx:189-195 | a free target moves the piece one row down and changes nothing else; a blocked one locks the piece at its row; without a piece nothing changes; the play invariant is kept |
| Game.TetrisGame.HardDrop | src/components/game/TetrisGame.jsx:197-230 | without a piece nothing changes; otherwise the piece locks at its resting row and the result is settled |
| Game.TetrisGame.LockAt | src/components/game/TetrisGame.jsx:294-322 | a block above the top ends the game, keeps the cells written before it and changes nothing else; otherwise the rows are cleared, 100 points per removed row are added and the next piece spawns; the result is settled |
| Game.TetrisGame.ClearLines | src/components/game/TetrisGame.jsx:324-341 | the board becomes the reference clearing with no full row; the score rises by 100 per removed row; with no full row neither changes |
| Game.TetrisGame.RotateTo | src/components/game/TetrisGame.jsx:232-266 | the first free offset of origin and kicks -1, 1, -2, 2 is taken with the new rotation; the row never changes; when nothing fits nothing changes; the play invariant is kept |
| Game.TetrisGame.CommitTurn | src/components/game/TetrisGame.jsx:242-244 | a turn that fits sets the column and the rotation and nothing else, and keeps the play invariant |
| Game.TetrisGame.RotateLeft | src/components/game/TetrisGame.jsx:232-248 | a kicked turn to (r + 3) mod 4 |
| Game.TetrisGame.RotateRight | src/components/game/TetrisGame.jsx:250-266 | a kicked turn to (r + 1) mod 4 |
| Game.TetrisGame.TogglePause | src/components/game/TetrisGame.jsx:106-108 | the pause flag flips |
| Game.TetrisGame.RenderBoard | src/components/game/TetrisGame.jsx:343-369 | a 20x10 copy of the board where, while the game runs, exactly the in-range cells of the current piece show its name |
| Game.TetrisGame.RenderNextPiece | src/components/game/TetrisGame.jsx:371-392 | the preview of the next piece |
| Game.TetrisGame.RenderHoldPiece | src/components/game/TetrisGame.jsx:156-177 | the preview of the held piece |
| GameLogic.CreateEmptyBoard | src/useGameLogic.ts:6-7 | 20 rows of 10 empty cells |
| GameLogic.RandomTetromino | src/useGameLogic.ts:9-13 | a catalog entry's shape and colour, well shaped, at x = 4 and y = 0 |
| GameLogic.RowHits | src/useGameLogic.ts:38-48 | the inner scan is true exactly when some cell of the row from the given column hits |
| GameLogic.ShapeHits | src/useGameLogic.ts:37-49 | the outer scan is true exactly when some cell of the rows from the given row hits |
| GameLogic.CheckCollision | src/useGameLogic.ts:36-50 | true exactly when some 1-cell of the moved shape is out of the left, right or bottom bound or on an occupied cell at a row of at least 0 |
| GameLogic.MoveTetromino | src/useGameLogic.ts:26-31 | shape and colour are kept; a colliding move returns the previous piece; a free move adds dx to x and dy to y |
| GameLogic.ShiftedCollision | src/useGameLogic.ts:40-41 | testing a move is testing the moved piece where it stands |
| GameLogic.MoveKeepsFit | src/useGameLogic.ts:26-31 | a piece that fits still fits after any move |
| GameLogic.InitialState | src/useGameLogic.ts:16-17 | the empty board and a catalog piece |
| GameLogic.Step | src/useGameLogic.ts:26-31 | one move leaves the board as it was, and a piece that fits keeps fitting |
| GameLogic.Run | src/useGameLogic.ts:19-31 | no sequence of moves (ticks or key presses) changes the board, and a fitting piece keeps fitting |
| GameLogic.SpawnFits | src/useGameLogic.ts:9-13 | every catalog piece at its spawn point fits on the empty board |
| GameLogic.PlayStaysOnEmptyBoard | src/useGameLogic.ts:16-33 | from the initial state, after any moves, the board is empty and the piece fits |

## Left out

- The ticking timers (src/components/game/TetrisGame.jsx:63-71, src/useGameLogic.ts:19-24)
  and the keyboard listener (src/components/game/TetrisGame.jsx:74-117) are left out. A tick
  is a `MoveDown` (or a `Step` by (0, 1)), and a key press is the matching method. The
  guards on `gameStarted`, `gameOver` and `isPaused` in those handlers belong to the
  caller: the methods do not require them. As written, the `p` key runs inside the
  `isPaused` guard, so it can only pause. Resuming takes the button at
  src/components/game/TetrisGame.jsx:405.
- All JSX, CSS, src/GameBoard.tsx and src/App.tsx are left out; they are display only.
- The distribution of `Math.random` and of the comparator-sort shuffle is not modelled. A
  refill is any permutation, a pick from an empty bag is any name, and the minimal
  engine's pick is the index parameter `pick`.
- React batches state updates and handlers read values captured at render time. The
  model uses sequential semantics instead:
  - the two draws in `startGame` and `spawnNewPiece` see successive bags;
  - the spawn check sees the board after clearing and the new piece;
  - the hold check sees the new current piece.

  As written, the code can draw the same head twice, test the spawn of the old piece, or
  test the pre-clear board.
- The offsets of the `./tetrominoes` module are not part of this model. The table is a
  constructor parameter with seven names, four rotations and non-empty block lists.
  `Game.TetrisGame.StartGame` adds `BoxedTable` only for its `Settled` conclusion.
  `Rules.PreviewShowsWholeShape` assumes the same of rotation 0.
- The board is a `seq` of rows that the methods reassign, not a shared 2D array. The one
  observable effect of the row sharing is modelled exactly: on the game-over path of
  `lockPiece` / `hardDrop`, the cells written before the break stay on the board. Other
  aliasing is not modelled.
- `lockPiece` and `hardDrop` share one method, `Game.TetrisGame.LockAt`. The loops of
  `hardDrop`, `lockPiece`, `clearLines`, the rotation kicks and the previews are methods
  of `Rules`, and the command methods call them on the current fields.
- The `position` object is the two fields `posX` and `posY`.
- `Math.max` of an empty offset list (`-Infinity`) cannot arise, because every rotation has
  at least one block.
