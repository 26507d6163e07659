/** The state machine of the full engine (src/components/game/TetrisGame.jsx). The
    component's state hooks become the fields of one `TetrisGame` object and each
    command handler a method that updates them. A state update takes effect at once,
    so a later read in the same handler sees it (sequential semantics). */
module Game {
  import opened Grid
  import opened Pieces
  import opened Rules

  class TetrisGame {
    /** The shape table of the `./tetrominoes` module. */
    const shapes: ShapeTable

    var board: Board
    var currentPiece: Option<PieceName>
    var nextPiece: Option<PieceName>
    var posX: int
    var posY: int
    var rotation: int
    var gameOver: bool
    var score: int
    var isPaused: bool
    var gameStarted: bool
    var holdPiece: Option<PieceName>
    var canHold: bool
    var pieceBag: seq<PieceName>

    /** The invariant every command keeps: a 20x10 board, a rotation index in 0..3, a
        score made of whole line bonuses, and a bag of at most seven distinct names. */
    ghost predicate Valid()
      reads this`board, this`rotation, this`score, this`pieceBag
    {
      WellFormedTable(shapes) && IsBoard(board) && 0 <= rotation < 4
      && score >= 0 && score % 100 == 0
      && NoDup(pieceBag) && |pieceBag| <= 7
    }

    /** The play invariant: while the game is not over, no row is full and the current
        piece, if any, overlaps nothing and stays inside the side and bottom walls. */
    ghost predicate Settled()
      reads this`board, this`rotation, this`score, this`pieceBag
      reads this`gameOver, this`currentPiece, this`posX, this`posY
      requires Valid()
    {
      !gameOver ==> NoFullRow(board) && (currentPiece.Some? ==> !CheckCollision(posX, posY, rotation))
    }

    /** `checkCollision`: the current piece, in rotation `rot` at (x, y), against the
        board. Without a current piece every position collides. */
    function CheckCollision(x: int, y: int, rot: int): (c: bool)
      reads this`board, this`rotation, this`score, this`pieceBag, this`currentPiece
      requires Valid() && 0 <= rot < 4
      ensures currentPiece.None? ==> c
      ensures currentPiece.Some? ==>
        (c <==> exists i :: 0 <= i < |shapes[currentPiece.value][rot]| && BlockHits(board, shapes[currentPiece.value][rot][i], x, y))
    {
      Collides(board, shapes, currentPiece, x, y, rot)
    }

    /** The initial state of a mounted component. */
    constructor (table: ShapeTable)
      requires WellFormedTable(table)
      ensures Valid() && Settled()
      ensures shapes == table && board == CreateEmptyBoard()
      ensures currentPiece.None? && nextPiece.None? && holdPiece.None?
      ensures posX == 0 && posY == 0 && rotation == 0
      ensures !gameOver && score == 0 && !isPaused && !gameStarted && canHold && pieceBag == []
    {
      shapes := table;
      board := CreateEmptyBoard();
      currentPiece, nextPiece, holdPiece := None, None, None;
      posX, posY, rotation := 0, 0, 0;
      gameOver, score, isPaused, gameStarted := false, 0, false, false;
      canHold := true;
      pieceBag := [];
    }

    /** `initializeBag`: the bag becomes some ordering of the seven names. */
    method InitializeBag()
      requires Valid()
      modifies this`pieceBag
      ensures Valid() && IsShuffle(pieceBag)
    {
      AllNamesShuffle();
      var newBag: seq<PieceName> :| IsShuffle(newBag);
      assert IsShuffle(newBag);
      pieceBag := newBag;
    }

    /** `getRandomPiece`: pop the head of the bag; from an empty bag, refill it and
        return an arbitrary name. */
    method GetRandomPiece() returns (name: PieceName)
      requires Valid()
      modifies this`pieceBag
      ensures Valid()
      ensures DrawStep(old(pieceBag), name, pieceBag)
    {
      if |pieceBag| == 0 {
        InitializeBag();
        name :| true;
        return;
      }
      name := pieceBag[0];
      pieceBag := pieceBag[1..];
      DrawKeepsNoDup(old(pieceBag), name, pieceBag);
    }

    /** `startGame`: reset the board, score and flags, refill the bag and take the
        current and next pieces from the refill. A fresh game starts settled whenever
        the shapes lie in their 4x4 box. */
    method StartGame()
      requires Valid()
      modifies this
      ensures Valid()
      ensures board == CreateEmptyBoard() && score == 0
      ensures !gameOver && gameStarted && !isPaused && holdPiece.None? && canHold
      ensures currentPiece.Some? && nextPiece.Some?
      ensures IsShuffle([currentPiece.value, nextPiece.value] + pieceBag)
      ensures posX == SpawnX && posY == 0 && rotation == 0
      ensures BoxedTable(shapes) ==> Settled()
    {
      ResetForStart();
      InitializeBag();
      ghost var bag := pieceBag;
      var firstPiece := GetRandomPiece();
      var next := GetRandomPiece();
      assert firstPiece == bag[0] && next == bag[1] && pieceBag == bag[2..] by {
        assert bag[1..][1..] == bag[2..];
      }
      currentPiece, nextPiece, posX, posY, rotation := Some(firstPiece), Some(next), SpawnX, 0, 0;
      assert [firstPiece, next] + pieceBag == bag;
      if BoxedTable(shapes) {
        SpawnFitsEmptyBoard(shapes, firstPiece);
      }
    }

    /** The resets `startGame` performs before drawing. */
    method ResetForStart()
      requires Valid()
      modifies this`board, this`score, this`gameOver, this`gameStarted, this`isPaused, this`holdPiece, this`canHold
      ensures Valid()
      ensures board == CreateEmptyBoard() && score == 0
      ensures !gameOver && gameStarted && !isPaused && holdPiece.None? && canHold
    {
      board, score, gameOver, gameStarted := CreateEmptyBoard(), 0, false, true;
      isPaused, holdPiece, canHold := false, None, true;
    }

    /** `spawnNewPiece`: the next piece (or a fresh draw when there is none) becomes
        current at the spawn point, a new next piece is drawn, holding is allowed again,
        and the game ends when the new piece collides there. */
    method SpawnNewPiece()
      requires Valid()
      modifies this`currentPiece, this`nextPiece, this`posX, this`posY, this`rotation
      modifies this`canHold, this`gameOver, this`pieceBag
      ensures Valid()
      ensures currentPiece.Some? && nextPiece.Some?
      ensures SpawnDraws(old(nextPiece), old(pieceBag), currentPiece.value, nextPiece.value, pieceBag)
      ensures posX == SpawnX && posY == 0 && rotation == 0 && canHold
      ensures gameOver == (old(gameOver) || CheckCollision(SpawnX, 0, 0))
    {
      var newPieceName, next := DrawForSpawn();
      var blocked := Collides(board, shapes, Some(newPieceName), SpawnX, 0, 0);
      currentPiece, nextPiece, posX, posY, rotation, canHold := Some(newPieceName), Some(next), SpawnX, 0, 0, true;
      if blocked {
        gameOver := true;
      }
    }

    /** The two draws of `spawnNewPiece`: `nextPiece || getRandomPiece()`, then
        `getRandomPiece()`. */
    method DrawForSpawn() returns (current: PieceName, next: PieceName)
      requires Valid()
      modifies this`pieceBag
      ensures Valid()
      ensures SpawnDraws(nextPiece, old(pieceBag), current, next, pieceBag)
    {
      if nextPiece.Some? {
        current := nextPiece.value;
      } else {
        current := GetRandomPiece();
      }
      ghost var mid := pieceBag;
      next := GetRandomPiece();
      assert nextPiece.None? ==> DrawStep(old(pieceBag), current, mid) && DrawStep(mid, next, pieceBag);
    }

    /** `holdCurrentPiece`: once per spawned piece, put the current piece on hold and
        continue with the previously held one (or a fresh draw) at the spawn point. */
    method HoldCurrentPiece()
      requires Valid()
      modifies this`holdPiece, this`currentPiece, this`posX, this`posY, this`rotation
      modifies this`canHold, this`gameOver, this`pieceBag
      ensures Valid()
      ensures !old(canHold) || old(currentPiece).None? ==> unchanged(this)
      ensures old(canHold) && old(currentPiece).Some? ==>
        holdPiece == old(currentPiece) && currentPiece.Some?
        && (old(holdPiece).Some? ==> currentPiece == old(holdPiece) && pieceBag == old(pieceBag))
        && (old(holdPiece).None? ==> DrawStep(old(pieceBag), currentPiece.value, pieceBag))
        && posX == SpawnX && posY == 0 && rotation == 0 && !canHold
        && gameOver == (old(gameOver) || CheckCollision(SpawnX, 0, 0))
      ensures old(Settled()) ==> Settled()
    {
      if !canHold || currentPiece.None? {
        return;
      }
      var newHold := currentPiece.value;
      var newCurrent: PieceName;
      if holdPiece.Some? {
        newCurrent := holdPiece.value;
      } else {
        newCurrent := GetRandomPiece();
      }
      var blocked := Collides(board, shapes, Some(newCurrent), SpawnX, 0, 0);
      holdPiece, currentPiece, posX, posY, rotation, canHold := Some(newHold), Some(newCurrent), SpawnX, 0, 0, false;
      if blocked {
        gameOver := true;
      }
    }

    /** `moveLeft`: one column left unless the piece would collide there. */
    method MoveLeft()
      requires Valid()
      modifies this`posX
      ensures Valid()
      ensures posX == if old(CheckCollision(posX - 1, posY, rotation)) then old(posX) else old(posX) - 1
      ensures old(Settled()) ==> Settled()
    {
      if CheckCollision(posX - 1, posY, rotation) {
        return;
      }
      posX := posX - 1;
    }

    /** `moveRight`: one column right unless the piece would collide there. */
    method MoveRight()
      requires Valid()
      modifies this`posX
      ensures Valid()
      ensures posX == if old(CheckCollision(posX + 1, posY, rotation)) then old(posX) else old(posX) + 1
      ensures old(Settled()) ==> Settled()
    {
      if CheckCollision(posX + 1, posY, rotation) {
        return;
      }
      posX := posX + 1;
    }

    /** Only the row of the piece has changed. */
    twostate predicate OnlyRowChanged()
      reads this
    {
      board == old(board) && currentPiece == old(currentPiece) && nextPiece == old(nextPiece)
      && posX == old(posX) && rotation == old(rotation) && gameOver == old(gameOver)
      && score == old(score) && isPaused == old(isPaused) && gameStarted == old(gameStarted)
      && holdPiece == old(holdPiece) && canHold == old(canHold) && pieceBag == old(pieceBag)
    }

    /** `moveDown`: one row down when that row is free; otherwise the piece locks where
        it is (nothing happens without a current piece). */
    method MoveDown()
      requires Valid()
      modifies this
      ensures Valid()
      ensures !old(CheckCollision(posX, posY + 1, rotation)) ==> posY == old(posY) + 1 && OnlyRowChanged()
      ensures old(currentPiece).None? ==> unchanged(this)
      ensures old(currentPiece).Some? && old(CheckCollision(posX, posY + 1, rotation)) ==>
        LockedAt(old(posY)) && Settled()
      ensures old(Settled()) ==> Settled()
    {
      if CheckCollision(posX, posY + 1, rotation) {
        if currentPiece.Some? {
          LockAt(posY);
        }
        return;
      }
      posY := posY + 1;
    }

    /** `hardDrop`: the piece falls to its resting row and locks there. */
    method HardDrop()
      requires Valid()
      modifies this
      ensures Valid()
      ensures old(currentPiece).None? ==> unchanged(this)
      ensures old(currentPiece).Some? ==>
        LockedAt(RestingRow(old(board), shapes, old(currentPiece), old(posX), old(posY), old(rotation)))
        && Settled()
      ensures old(Settled()) ==> Settled()
    {
      if currentPiece.None? {
        return;
      }
      var dropY := DropRow(board, shapes, currentPiece, posX, posY, rotation);
      LockAt(dropY);
    }

    /** The outcome of locking the current piece of the old state at row `lockY`. The
        blocks are written in order; the first block above the top row ends the game,
        and the blocks written before it stay on the board, which nothing else changes.
        Otherwise full rows are cleared, 100 points are scored per cleared row, and the
        next piece spawns. */
    twostate predicate LockedAt(lockY: int)
      reads this
      requires old(Valid()) && old(currentPiece).Some? && Valid()
    {
      var p := old(currentPiece).value;
      var blocks := shapes[p][old(rotation)];
      var k := FirstAbove(blocks, lockY);
      var stamped := Stamp(old(board), blocks[..k], old(posX), lockY, p);
      if k < |blocks| then
        gameOver && board == stamped
        && score == old(score) && currentPiece == old(currentPiece) && nextPiece == old(nextPiece)
        && posX == old(posX) && posY == old(posY) && rotation == old(rotation)
        && holdPiece == old(holdPiece) && canHold == old(canHold) && pieceBag == old(pieceBag)
        && isPaused == old(isPaused) && gameStarted == old(gameStarted)
      else
        board == ClearFull(stamped, BoardWidth) && score == old(score) + 100 * FullCount(stamped)
        && currentPiece.Some? && nextPiece.Some?
        && SpawnDraws(old(nextPiece), old(pieceBag), currentPiece.value, nextPiece.value, pieceBag)
        && posX == SpawnX && posY == 0 && rotation == 0 && canHold
        && gameOver == (old(gameOver) || CheckCollision(SpawnX, 0, 0))
        && holdPiece == old(holdPiece) && isPaused == old(isPaused) && gameStarted == old(gameStarted)
    }

    /** The lock step shared by `lockPiece` (at the current row) and `hardDrop` (at the
        resting row). The copy of the board shares its rows with the state, so the cells
        written before a block above the top row remain when the game ends. */
    method LockAt(lockY: int)
      requires Valid() && currentPiece.Some?
      modifies this
      ensures Valid() && Settled()
      ensures LockedAt(lockY)
    {
      var p := currentPiece.value;
      var newBoard, gameEnd := WriteBlocks(board, shapes[p][rotation], posX, lockY, p);
      board := newBoard;
      if gameEnd {
        gameOver := true;
        return;
      }
      ClearLines(newBoard);
      SpawnNewPiece();
    }

    /** `clearLines`: remove the full rows of `boardState`, pad the top with empty rows
        and score 100 per removed row; with no full row nothing changes. */
    method ClearLines(boardState: Board)
      requires Valid() && IsBoard(boardState) && board == boardState
      modifies this`board, this`score
      ensures Valid() && NoFullRow(board)
      ensures board == ClearFull(boardState, BoardWidth)
      ensures score == old(score) + 100 * FullCount(boardState)
      ensures FullCount(boardState) == 0 ==> board == old(board) && score == old(score)
    {
      ClearFullSpec(boardState, BoardHeight, BoardWidth);
      var newBoard, linesCleared := CollapseFullRows(boardState);
      if linesCleared > 0 {
        score := score + linesCleared * 100;
        board := newBoard;
      }
    }

    /** The turn that `rotateLeft` / `rotateRight` commit: the first of the unchanged
        origin and the kicks -1, 1, -2, 2 at which the piece fits in `newRotation`; the
        row never changes, and nothing changes when no offset fits. */
    twostate predicate RotatedTo(newRotation: int)
      reads this
      requires old(Valid()) && 0 <= newRotation < 4
    {
      var k := FirstFit(old(board), shapes, old(currentPiece), old(posX), old(posY), newRotation, KickOffsets);
      if k < |KickOffsets| then posX == old(posX) + KickOffsets[k] && rotation == newRotation
      else posX == old(posX) && rotation == old(rotation)
    }

    /** The body shared by `rotateLeft` and `rotateRight`. */
    method RotateTo(newRotation: int)
      requires Valid() && 0 <= newRotation < 4
      modifies this`posX, this`rotation
      ensures Valid() && RotatedTo(newRotation)
      ensures old(Settled()) ==> Settled()
    {
      var k := KickSearch(board, shapes, currentPiece, posX, posY, newRotation);
      if k < |KickOffsets| {
        CommitTurn(posX + KickOffsets[k], newRotation);
      }
    }

    /** The commit of a turn that fits: `setPosition` with the kicked column and
        `setRotation`. */
    method CommitTurn(newX: int, newRotation: int)
      requires Valid() && 0 <= newRotation < 4
      requires !Collides(board, shapes, currentPiece, newX, posY, newRotation)
      modifies this`posX, this`rotation
      ensures Valid() && posX == newX && rotation == newRotation
      ensures old(Settled()) ==> Settled()
    {
      posX, rotation := newX, newRotation;
    }

    /** `rotateLeft`: a quarter turn to `(rotation + 3) % 4`, kicked when needed. */
    method RotateLeft()
      requires Valid()
      modifies this`posX, this`rotation
      ensures Valid() && RotatedTo(RotatedLeft(old(rotation)))
      ensures old(Settled()) ==> Settled()
    {
      RotateTo(RotatedLeft(rotation));
    }

    /** `rotateRight`: a quarter turn to `(rotation + 1) % 4`, kicked when needed. */
    method RotateRight()
      requires Valid()
      modifies this`posX, this`rotation
      ensures Valid() && RotatedTo(RotatedRight(old(rotation)))
      ensures old(Settled()) ==> Settled()
    {
      RotateTo(RotatedRight(rotation));
    }

    /** The `p` key: flip the pause flag. */
    method TogglePause()
      modifies this`isPaused
      ensures isPaused == !old(isPaused)
    {
      isPaused := !isPaused;
    }

    /** `renderBoard`: a copy of the board with the current piece drawn over it while
        the game is running; blocks outside the board are not drawn. */
    method RenderBoard() returns (displayBoard: Board)
      requires Valid()
      ensures IsBoard(displayBoard)
      ensures forall r, c :: 0 <= r < BoardHeight && 0 <= c < BoardWidth ==>
        displayBoard[r][c] ==
          if currentPiece.Some? && !gameOver &&
             exists i :: 0 <= i < |shapes[currentPiece.value][rotation]| &&
               Covers(shapes[currentPiece.value][rotation][i], posX, posY, r, c)
          then currentPiece else board[r][c]
    {
      displayBoard := CreateEmptyBoard();
      var y := 0;
      while y < BoardHeight
        invariant 0 <= y <= BoardHeight && IsBoard(displayBoard)
        invariant forall r, c :: 0 <= r < BoardHeight && 0 <= c < BoardWidth ==>
          displayBoard[r][c] == if r < y then board[r][c] else None
      {
        var x := 0;
        while x < BoardWidth
          invariant 0 <= x <= BoardWidth && IsBoard(displayBoard)
          invariant forall r, c :: 0 <= r < BoardHeight && 0 <= c < BoardWidth ==>
            displayBoard[r][c] == if r < y || (r == y && c < x) then board[r][c] else None
        {
          if board[y][x].Some? {
            displayBoard := displayBoard[y := displayBoard[y][x := board[y][x]]];
          }
          x := x + 1;
        }
        y := y + 1;
      }
      assert displayBoard == board by {
        assert forall r :: 0 <= r < BoardHeight ==> displayBoard[r] == board[r];
      }
      if currentPiece.None? || gameOver {
        return;
      }
      var p := currentPiece.value;
      var shape := shapes[p][rotation];
      var i := 0;
      while i < |shape|
        invariant 0 <= i <= |shape|
        invariant displayBoard == Stamp(board, shape[..i], posX, posY, p)
        invariant IsBoard(displayBoard)
      {
        var y := posY + shape[i].y;
        var x := posX + shape[i].x;
        assert shape[..i + 1][..i] == shape[..i];
        if y >= 0 && x >= 0 && x < BoardWidth && y < BoardHeight {
          displayBoard := displayBoard[y := displayBoard[y][x := Some(p)]];
        }
        i := i + 1;
        StampDims(board, BoardHeight, BoardWidth, shape[..i], posX, posY, p);
      }
      assert shape[..i] == shape;
      StampAt(board, BoardHeight, BoardWidth, shape, posX, posY, p);
    }

    /** `renderNextPiece`: the 4x4 preview of the next piece. */
    method RenderNextPiece() returns (grid: Board)
      requires Valid()
      ensures grid == Preview(shapes, nextPiece)
    {
      grid := RenderPreview(shapes, nextPiece);
    }

    /** `renderHoldPiece`: the 4x4 preview of the held piece. */
    method RenderHoldPiece() returns (grid: Board)
      requires Valid()
      ensures grid == Preview(shapes, holdPiece)
    {
      grid := RenderPreview(shapes, holdPiece);
    }
  }
}
