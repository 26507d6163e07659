/** The minimal engine (src/useGameLogic.ts): a catalog piece placed on a board that
    never changes, a collision test over the 0/1 shape matrix, and a move that is
    refused when it would collide. The hook's state is the pair of board and piece;
    each tick or key press is one `MoveTetromino` on it. */
module GameLogic {
  import opened Grid
  import Catalog

  type Board = seq<seq<Option<string>>>

  predicate IsBoard(b: Board) {
    IsGrid(b, Catalog.BoardHeight, Catalog.BoardWidth)
  }

  /** A catalog entry together with its position: `Tetromino & { x, y }`. */
  datatype Placed = Placed(shape: seq<seq<int>>, color: string, x: int, y: int)

  /** `createEmptyBoard`: 20 rows of 10 empty cells. */
  function CreateEmptyBoard(): (b: Board)
    ensures IsBoard(b)
    ensures forall r, c :: 0 <= r < Catalog.BoardHeight && 0 <= c < Catalog.BoardWidth ==> b[r][c] == None
  {
    EmptyGrid(Catalog.BoardHeight, Catalog.BoardWidth)
  }

  /** The spawn column `Math.floor(BOARD_WIDTH / 2) - 1`. */
  const SpawnX: int := Catalog.BoardWidth / 2 - 1

  /** `randomTetromino`, given the random index `pick` into the catalog keys: that
      entry's shape and colour at column 4 of the top row. */
  function RandomTetromino(pick: nat): (t: Placed)
    requires pick < |Catalog.TetrominoKeys|
    ensures Catalog.TetrominoKeys[pick] in Catalog.Tetrominoes()
    ensures t.shape == Catalog.Tetrominoes()[Catalog.TetrominoKeys[pick]].shape
    ensures t.color == Catalog.Tetrominoes()[Catalog.TetrominoKeys[pick]].color
    ensures Catalog.WellShaped(t.shape)
    ensures t.x == 4 && t.y == 0
  {
    var entry := Catalog.Tetrominoes()[Catalog.TetrominoKeys[pick]];
    Placed(entry.shape, entry.color, SpawnX, 0)
  }

  /** The cell in row `r`, column `c` of the shape, moved by (dx, dy), is a 1-cell
      that lands outside the left, right or bottom bound, or on an occupied cell with a
      row index of at least 0. */
  predicate CellHits(t: Placed, dx: int, dy: int, board: Board, r: int, c: int)
    requires IsBoard(board) && 0 <= r < |t.shape| && 0 <= c < |t.shape[r]|
  {
    var nx, ny := t.x + c + dx, t.y + r + dy;
    t.shape[r][c] != 0 &&
    (nx < 0 || nx >= Catalog.BoardWidth || ny >= Catalog.BoardHeight || (ny >= 0 && board[ny][nx].Some?))
  }

  /** The inner `row.some(...)` over the cells of row `r` from column `c` on. */
  function RowHits(t: Placed, dx: int, dy: int, board: Board, r: int, c: nat): (hit: bool)
    requires IsBoard(board) && 0 <= r < |t.shape| && c <= |t.shape[r]|
    ensures hit <==> exists k :: c <= k < |t.shape[r]| && CellHits(t, dx, dy, board, r, k)
    decreases |t.shape[r]| - c
  {
    if c == |t.shape[r]| then false
    else CellHits(t, dx, dy, board, r, c) || RowHits(t, dx, dy, board, r, c + 1)
  }

  /** The outer `shape.some(...)` over the rows from row `r` on. */
  function ShapeHits(t: Placed, dx: int, dy: int, board: Board, r: nat): (hit: bool)
    requires IsBoard(board) && r <= |t.shape|
    ensures hit <==> exists i, k :: r <= i < |t.shape| && 0 <= k < |t.shape[i]| && CellHits(t, dx, dy, board, i, k)
    decreases |t.shape| - r
  {
    if r == |t.shape| then false
    else RowHits(t, dx, dy, board, r, 0) || ShapeHits(t, dx, dy, board, r + 1)
  }

  /** `checkCollision(tetromino, dx, dy, board)`: some 1-cell of the moved piece hits. */
  function CheckCollision(t: Placed, dx: int, dy: int, board: Board): (hit: bool)
    requires IsBoard(board)
    ensures hit <==> exists r, c :: 0 <= r < |t.shape| && 0 <= c < |t.shape[r]| && CellHits(t, dx, dy, board, r, c)
  {
    ShapeHits(t, dx, dy, board, 0)
  }

  /** `moveTetromino(dx, dy)` applied to the previous piece: refused when the moved
      piece would collide, otherwise the same shape and colour shifted by (dx, dy). */
  function MoveTetromino(prev: Placed, dx: int, dy: int, board: Board): (next: Placed)
    requires IsBoard(board)
    ensures next.shape == prev.shape && next.color == prev.color
    ensures CheckCollision(prev, dx, dy, board) ==> next == prev
    ensures !CheckCollision(prev, dx, dy, board) ==> next.x == prev.x + dx && next.y == prev.y + dy
  {
    if CheckCollision(prev, dx, dy, board) then prev
    else prev.(x := prev.x + dx, y := prev.y + dy)
  }

  /** Testing a move by (dx, dy) is testing the shifted piece where it stands. */
  lemma ShiftedCollision(t: Placed, dx: int, dy: int, board: Board)
    requires IsBoard(board)
    ensures CheckCollision(t, dx, dy, board) == CheckCollision(t.(x := t.x + dx, y := t.y + dy), 0, 0, board)
  {
    var u := t.(x := t.x + dx, y := t.y + dy);
    forall r, c | 0 <= r < |t.shape| && 0 <= c < |t.shape[r]|
      ensures CellHits(t, dx, dy, board, r, c) == CellHits(u, 0, 0, board, r, c)
    {
    }
  }

  /** A piece that fits where it stands still fits after any move. */
  lemma MoveKeepsFit(prev: Placed, dx: int, dy: int, board: Board)
    requires IsBoard(board) && !CheckCollision(prev, 0, 0, board)
    ensures !CheckCollision(MoveTetromino(prev, dx, dy, board), 0, 0, board)
  {
    ShiftedCollision(prev, dx, dy, board);
  }

  /** The state of the hook: the board and the falling piece. */
  datatype HookState = HookState(board: Board, tetromino: Placed)

  /** The state after mounting, for the random index `pick`: the empty board and a
      catalog piece. */
  function InitialState(pick: nat): (s: HookState)
    requires pick < |Catalog.TetrominoKeys|
    ensures IsBoard(s.board) && s.board == CreateEmptyBoard()
    ensures s.tetromino == RandomTetromino(pick)
  {
    HookState(CreateEmptyBoard(), RandomTetromino(pick))
  }

  /** One `moveTetromino(dx, dy)`: the board stays, and a piece that fits keeps fitting. */
  function Step(s: HookState, dx: int, dy: int): (s': HookState)
    requires IsBoard(s.board)
    ensures s'.board == s.board
    ensures !CheckCollision(s.tetromino, 0, 0, s.board) ==> !CheckCollision(s'.tetromino, 0, 0, s'.board)
  {
    if !CheckCollision(s.tetromino, 0, 0, s.board) then
      MoveKeepsFit(s.tetromino, dx, dy, s.board);
      HookState(s.board, MoveTetromino(s.tetromino, dx, dy, s.board))
    else
      HookState(s.board, MoveTetromino(s.tetromino, dx, dy, s.board))
  }

  /** A sequence of moves, the timer's `(0, 1)` or any other offsets, in order: no
      sequence of moves changes the board, and a piece that fits keeps fitting. */
  function Run(s: HookState, moves: seq<(int, int)>): (s': HookState)
    requires IsBoard(s.board)
    ensures s'.board == s.board
    ensures !CheckCollision(s.tetromino, 0, 0, s.board) ==> !CheckCollision(s'.tetromino, 0, 0, s.board)
    decreases |moves|
  {
    if moves == [] then s
    else Run(Step(s, moves[0].0, moves[0].1), moves[1..])
  }

  /** Every catalog piece fits at the spawn point of the empty board: its at most two
      rows and four columns land in rows 0..1 and columns 4..7. */
  lemma SpawnFits(pick: nat)
    requires pick < |Catalog.TetrominoKeys|
    ensures !CheckCollision(RandomTetromino(pick), 0, 0, CreateEmptyBoard())
  {
    var t := RandomTetromino(pick);
    var e := CreateEmptyBoard();
    assert Catalog.WellShaped(t.shape);
    forall r, c | 0 <= r < |t.shape| && 0 <= c < |t.shape[r]| ensures !CellHits(t, 0, 0, e, r, c) {
      assert 0 <= r < 2 && 0 <= c < 4;
      assert e[r][SpawnX + c] == None;
    }
  }

  /** From the initial state, whatever the moves: the board is still the empty board and
      the piece overlaps nothing and stays inside the side and bottom walls. */
  lemma PlayStaysOnEmptyBoard(pick: nat, moves: seq<(int, int)>)
    requires pick < |Catalog.TetrominoKeys|
    ensures Run(InitialState(pick), moves).board == CreateEmptyBoard()
    ensures !CheckCollision(Run(InitialState(pick), moves).tetromino, 0, 0, CreateEmptyBoard())
  {
    SpawnFits(pick);
  }
}
