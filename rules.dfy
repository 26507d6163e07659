/** The rules of the full engine (src/components/game/TetrisGame.jsx) that do not
    depend on its mutable state: the board dimensions and spawn point, the collision
    test, rotation arithmetic and wall kicks, the hard-drop descent, the lock scan, line
    clearing, the 4x4 previews and the bag draw. The state machine that uses them is
    the class `Game.TetrisGame`. */
module Rules {
  import opened Grid
  import opened Pieces

  const BoardWidth: int := 10
  const BoardHeight: int := 20

  /** The spawn column `Math.floor(BOARD_WIDTH / 2) - 1`; the spawn row is 0. */
  const SpawnX: int := BoardWidth / 2 - 1

  type Cell = Option<PieceName>
  type Board = seq<seq<Cell>>

  predicate IsBoard<T>(b: seq<seq<Option<T>>>) {
    IsGrid(b, BoardHeight, BoardWidth)
  }

  /** `createEmptyBoard`: 20 rows of 10 empty cells. */
  function CreateEmptyBoard(): (b: Board)
    ensures IsBoard(b)
    ensures forall r, c :: 0 <= r < BoardHeight && 0 <= c < BoardWidth ==> b[r][c] == None
    ensures NoFullRow(b)
  {
    var e := EmptyGrid(BoardHeight, BoardWidth);
    assert forall r :: 0 <= r < BoardHeight ==> e[r][0] == None;
    e
  }

  // ---------------------------------------------------------------------------
  // Collision

  /** One block of a piece placed at (x, y) is out of the left, right or bottom bound,
      or lands on an occupied cell. A block above the top row (y < 0) is checked against
      the three bounds only. */
  predicate BlockHits<T>(b: seq<seq<Option<T>>>, blk: Block, x: int, y: int)
    requires IsBoard(b)
  {
    var nx, ny := x + blk.x, y + blk.y;
    nx < 0 || nx >= BoardWidth || ny >= BoardHeight || (ny >= 0 && b[ny][nx].Some?)
  }

  /** The scan of `checkCollision` over the blocks of a shape, in order, stopping at the
      first block that hits. It finds a hit exactly when some block hits. */
  function AnyBlockHits<T>(b: seq<seq<Option<T>>>, blocks: seq<Block>, x: int, y: int): (hit: bool)
    requires IsBoard(b)
    ensures hit <==> exists i :: 0 <= i < |blocks| && BlockHits(b, blocks[i], x, y)
  {
    if blocks == [] then false
    else if BlockHits(b, blocks[0], x, y) then true
    else
      assert forall i :: 1 <= i < |blocks| ==> blocks[i] == blocks[1..][i - 1];
      AnyBlockHits(b, blocks[1..], x, y)
  }

  /** `checkCollision(x, y, rot)` for the current piece `piece`: with no current piece
      every position collides; otherwise a position collides exactly when one of the
      blocks of the rotation is out of the side or bottom bound or on an occupied cell. */
  function Collides(b: Board, t: ShapeTable, piece: Option<PieceName>, x: int, y: int, rot: int): (c: bool)
    requires IsBoard(b) && WellFormedTable(t) && 0 <= rot < 4
    ensures piece.None? ==> c
    ensures piece.Some? ==>
      (c <==> exists i :: 0 <= i < |t[piece.value][rot]| && BlockHits(b, t[piece.value][rot][i], x, y))
  {
    piece.None? || AnyBlockHits(b, t[piece.value][rot], x, y)
  }

  /** On the empty board a placement collides exactly when a block is out of the left,
      right or bottom bound. */
  lemma EmptyBoardCollision(blocks: seq<Block>, x: int, y: int)
    ensures AnyBlockHits(CreateEmptyBoard(), blocks, x, y) <==>
      exists i :: 0 <= i < |blocks| &&
        (x + blocks[i].x < 0 || x + blocks[i].x >= BoardWidth || y + blocks[i].y >= BoardHeight)
  {
    var e := CreateEmptyBoard();
    assert forall i :: 0 <= i < |blocks| ==>
      (BlockHits(e, blocks[i], x, y) <==>
        (x + blocks[i].x < 0 || x + blocks[i].x >= BoardWidth || y + blocks[i].y >= BoardHeight));
  }

  /** With every offset in its 4x4 box, each piece fits at the spawn point of the empty
      board in rotation 0. */
  lemma SpawnFitsEmptyBoard(t: ShapeTable, n: PieceName)
    requires WellFormedTable(t) && BoxedTable(t)
    ensures !Collides(CreateEmptyBoard(), t, Some(n), SpawnX, 0, 0)
  {
    EmptyBoardCollision(t[n][0], SpawnX, 0);
  }

  // ---------------------------------------------------------------------------
  // Rotation and wall kicks

  /** A quarter turn to the left, wrapping from 0 to 3; turning right again undoes it. */
  function RotatedLeft(r: int): (r': int)
    requires 0 <= r < 4
    ensures 0 <= r' < 4 && (r' + 1) % 4 == r
  {
    (r - 1 + 4) % 4
  }

  /** A quarter turn to the right, wrapping from 3 to 0; turning left again undoes it. */
  function RotatedRight(r: int): (r': int)
    requires 0 <= r < 4
    ensures 0 <= r' < 4 && RotatedLeft(r') == r
  {
    (r + 1) % 4
  }

  /** The x-offsets a rotation tries, in order: the unchanged origin, then the wall
      kicks `[-1, 1, -2, 2]`. */
  const KickOffsets: seq<int> := [0, -1, 1, -2, 2]

  /** The index of the first offset at which the piece fits in rotation `rot` at row
      `y`, or `|offsets|` when it fits at none. */
  function FirstFit(b: Board, t: ShapeTable, piece: Option<PieceName>, x: int, y: int, rot: int, offsets: seq<int>): (k: nat)
    requires IsBoard(b) && WellFormedTable(t) && 0 <= rot < 4
    ensures k <= |offsets|
    ensures forall j :: 0 <= j < k ==> Collides(b, t, piece, x + offsets[j], y, rot)
    ensures k < |offsets| ==> !Collides(b, t, piece, x + offsets[k], y, rot)
    decreases |offsets|
  {
    if offsets == [] then 0
    else if !Collides(b, t, piece, x + offsets[0], y, rot) then 0
    else 1 + FirstFit(b, t, piece, x, y, rot, offsets[1..])
  }

  /** The first fitting offset is the one where a scan that found only collisions
      before it finds a fit (or runs out). */
  lemma FirstFitIs(b: Board, t: ShapeTable, piece: Option<PieceName>, x: int, y: int, rot: int, offsets: seq<int>, i: nat)
    requires IsBoard(b) && WellFormedTable(t) && 0 <= rot < 4 && i <= |offsets|
    requires forall j :: 0 <= j < i ==> Collides(b, t, piece, x + offsets[j], y, rot)
    requires i < |offsets| ==> !Collides(b, t, piece, x + offsets[i], y, rot)
    ensures FirstFit(b, t, piece, x, y, rot, offsets) == i
  {
  }

  /** The search of `rotateLeft` / `rotateRight`: try the unchanged origin, then each
      kick of `[-1, 1, -2, 2]` in order, and stop at the first that fits. The result
      indexes `KickOffsets`; `|KickOffsets|` means that nothing fits. */
  method KickSearch(b: Board, t: ShapeTable, piece: Option<PieceName>, x: int, y: int, newRotation: int)
    returns (k: nat)
    requires IsBoard(b) && WellFormedTable(t) && 0 <= newRotation < 4
    ensures k == FirstFit(b, t, piece, x, y, newRotation, KickOffsets)
  {
    if !Collides(b, t, piece, x, y, newRotation) {
      assert KickOffsets[0] == 0;
      FirstFitIs(b, t, piece, x, y, newRotation, KickOffsets, 0);
      return 0;
    }
    assert Collides(b, t, piece, x + KickOffsets[0], y, newRotation);
    var kicks := [-1, 1, -2, 2];
    var i := 0;
    while i < |kicks|
      invariant 0 <= i <= |kicks|
      invariant forall j :: 0 <= j <= i ==> Collides(b, t, piece, x + KickOffsets[j], y, newRotation)
    {
      var kick := kicks[i];
      assert KickOffsets[i + 1] == kick;
      if !Collides(b, t, piece, x + kick, y, newRotation) {
        FirstFitIs(b, t, piece, x, y, newRotation, KickOffsets, i + 1);
        return i + 1;
      }
      i := i + 1;
    }
    FirstFitIs(b, t, piece, x, y, newRotation, KickOffsets, |KickOffsets|);
    return |KickOffsets|;
  }

  // ---------------------------------------------------------------------------
  // Hard drop and locking

  /** The row where `hardDrop` leaves a piece that starts at row `y`: the first row at
      or below `y` whose successor collides. It exists because the shape is non-empty, so
      the bottom bound stops the descent. */
  function RestingRow(b: Board, t: ShapeTable, piece: Option<PieceName>, x: int, y: int, rot: int): (dropY: int)
    requires IsBoard(b) && WellFormedTable(t) && 0 <= rot < 4
    ensures dropY >= y
    ensures Collides(b, t, piece, x, dropY + 1, rot)
    ensures forall k :: y < k <= dropY ==> !Collides(b, t, piece, x, k, rot)
    decreases if piece.None? then 0 else BoardHeight - y - t[piece.value][rot][0].y
  {
    if Collides(b, t, piece, x, y + 1, rot) then y
    else
      assert !BlockHits(b, t[piece.value][rot][0], x, y + 1);
      RestingRow(b, t, piece, x, y + 1, rot)
  }

  /** The descent loop of `hardDrop`: starting at `y`, step down while the next row is
      free. */
  method DropRow(b: Board, t: ShapeTable, piece: Option<PieceName>, x: int, y: int, rot: int) returns (dropY: int)
    requires IsBoard(b) && WellFormedTable(t) && 0 <= rot < 4
    ensures dropY == RestingRow(b, t, piece, x, y, rot)
  {
    dropY := y;
    while !Collides(b, t, piece, x, dropY + 1, rot)
      invariant RestingRow(b, t, piece, x, dropY, rot) == RestingRow(b, t, piece, x, y, rot)
      decreases if piece.None? then 0 else BoardHeight - dropY - t[piece.value][rot][0].y
    {
      assert !BlockHits(b, t[piece.value][rot][0], x, dropY + 1);
      dropY := dropY + 1;
    }
  }

  /** The index of the first block that would be locked above the top row when the
      piece rests at row `y`, or `|blocks|` when none would; the lock loop breaks there. */
  function FirstAbove(blocks: seq<Block>, y: int): (k: nat)
    ensures k <= |blocks|
    ensures forall i :: 0 <= i < k ==> y + blocks[i].y >= 0
    ensures k < |blocks| ==> y + blocks[k].y < 0
  {
    if blocks == [] then 0
    else if y + blocks[0].y < 0 then 0
    else 1 + FirstAbove(blocks[1..], y)
  }

  /** The write loop of `lockPiece` / `hardDrop`: write `p` into the in-range cells of
      the blocks in order, stopping at the first block above the top row. `gameEnd` says
      whether that stop happened; the cells written before it are in `newBoard`. */
  method WriteBlocks(b: Board, blocks: seq<Block>, x: int, y: int, p: PieceName)
    returns (newBoard: Board, gameEnd: bool)
    requires IsBoard(b)
    ensures IsBoard(newBoard)
    ensures gameEnd <==> FirstAbove(blocks, y) < |blocks|
    ensures newBoard == Stamp(b, blocks[..FirstAbove(blocks, y)], x, y, p)
  {
    newBoard, gameEnd := b, false;
    var i := 0;
    while i < |blocks|
      invariant 0 <= i <= |blocks|
      invariant newBoard == Stamp(b, blocks[..i], x, y, p)
      invariant IsBoard(newBoard)
      invariant forall j :: 0 <= j < i ==> y + blocks[j].y >= 0
    {
      var ny := y + blocks[i].y;
      var nx := x + blocks[i].x;
      if ny < 0 {
        gameEnd := true;
        break;
      }
      assert blocks[..i + 1][..i] == blocks[..i];
      if ny >= 0 && nx >= 0 && nx < BoardWidth && ny < BoardHeight {
        newBoard := newBoard[ny := newBoard[ny][nx := Some(p)]];
      }
      i := i + 1;
      StampDims(b, BoardHeight, BoardWidth, blocks[..i], x, y, p);
    }
    assert gameEnd ==> i == FirstAbove(blocks, y) < |blocks|;
    assert !gameEnd ==> i == FirstAbove(blocks, y) == |blocks| && blocks[..i] == blocks;
  }

  // ---------------------------------------------------------------------------
  // Line clearing

  /** The computation of `clearLines`: scan rows from the bottom; a full row is spliced
      out, an empty row is pushed on top, and the same index is examined again. Returns
      the new rows and the number of rows removed. */
  method CollapseFullRows(boardState: Board) returns (newBoard: Board, linesCleared: nat)
    requires IsBoard(boardState)
    ensures newBoard == ClearFull(boardState, BoardWidth)
    ensures linesCleared == FullCount(boardState)
  {
    ghost var b := boardState;
    newBoard, linesCleared := boardState, 0;
    var y := BoardHeight - 1;
    ghost var j := |b|;
    EmptyRowNotFull<PieceName>(BoardWidth);
    assert b[j..] == [] && b[..j] == b;
    while y >= 0
      invariant -1 <= y && 0 <= j <= |b|
      invariant newBoard == EmptyRows(linesCleared, BoardWidth) + b[..j] + NonFull(b[j..])
      invariant |newBoard| == |b|
      invariant j > 0 ==> y + 1 == linesCleared + j
      invariant j == 0 ==> y + 1 <= linesCleared
      decreases y + 1 + j
    {
      ScanRow(newBoard, b, linesCleared, j, BoardWidth, y);
      if RowFull(newBoard[y]) {
        SpliceFullRow(newBoard, b, linesCleared, j, BoardWidth);
        newBoard := [EmptyRow(BoardWidth)] + newBoard[..y] + newBoard[y + 1..];
        linesCleared := linesCleared + 1;
        j := j - 1;
        y := y + 1;
      } else if j > 0 && y >= linesCleared {
        KeepRow(newBoard, b, linesCleared, j, BoardWidth);
        j := j - 1;
      }
      y := y - 1;
    }
    assert b[0..] == b;
  }

  // ---------------------------------------------------------------------------
  // Previews

  const PreviewSize: int := 4

  /** The x offsets of the blocks, in block order. */
  function Xs(blocks: seq<Block>): (xs: seq<int>)
    ensures |xs| == |blocks| && forall i :: 0 <= i < |blocks| ==> xs[i] == blocks[i].x
  {
    seq(|blocks|, i requires 0 <= i < |blocks| => blocks[i].x)
  }

  /** The y offsets of the blocks, in block order. */
  function Ys(blocks: seq<Block>): (ys: seq<int>)
    ensures |ys| == |blocks| && forall i :: 0 <= i < |blocks| ==> ys[i] == blocks[i].y
  {
    seq(|blocks|, i requires 0 <= i < |blocks| => blocks[i].y)
  }

  /** The largest entry of a non-empty list. */
  function MaxOf(s: seq<int>): (m: int)
    requires |s| > 0
    ensures forall i :: 0 <= i < |s| ==> s[i] <= m
    ensures exists i :: 0 <= i < |s| && s[i] == m
  {
    if |s| == 1 then s[0]
    else
      var rest := MaxOf(s[1..]);
      assert forall i :: 1 <= i < |s| ==> s[i] == s[1..][i - 1];
      if s[0] >= rest then s[0] else rest
  }

  /** Half the free space of the 4-cell preview, rounded down: the margin placed
      before a shape of that extent. For an extent of 1 to 4 the shape fits and the two margins differ by at most one,
      the larger one after the shape. */
  function CentreOffset(extent: int): (off: int)
    ensures 2 * off <= PreviewSize - extent < 2 * off + 2
    ensures 1 <= extent <= PreviewSize ==>
      0 <= off && off + extent <= PreviewSize && 0 <= (PreviewSize - extent - off) - off <= 1
  {
    (PreviewSize - extent) / 2
  }

  /** `offsetX` of the previews: the margin before a shape as wide as its largest x
      offset plus one. */
  function OffsetX(shape: seq<Block>): int
    requires |shape| > 0
  {
    CentreOffset(MaxOf(Xs(shape)) + 1)
  }

  /** `offsetY` of the previews, from the largest y offset. */
  function OffsetY(shape: seq<Block>): int
    requires |shape| > 0
  {
    CentreOffset(MaxOf(Ys(shape)) + 1)
  }

  /** What `renderNextPiece` / `renderHoldPiece` draw: a 4x4 grid holding the piece's
      rotation-0 blocks shifted by the centring offsets, clipped to the grid, or an empty
      grid when there is no piece. */
  function Preview(t: ShapeTable, piece: Option<PieceName>): (g: Board)
    requires WellFormedTable(t)
    ensures IsGrid(g, PreviewSize, PreviewSize)
  {
    if piece.None? then EmptyGrid(PreviewSize, PreviewSize)
    else
      var shape := t[piece.value][0];
      StampDims(EmptyGrid<PieceName>(PreviewSize, PreviewSize), PreviewSize, PreviewSize, shape,
        OffsetX(shape), OffsetY(shape), piece.value);
      Stamp(EmptyGrid(PreviewSize, PreviewSize), shape,
        OffsetX(shape), OffsetY(shape), piece.value)
  }

  /** The preview is a 4x4 grid whose cells hold the piece name exactly where a shifted
      block lands, and are empty elsewhere. */
  lemma PreviewCells(t: ShapeTable, piece: Option<PieceName>)
    requires WellFormedTable(t)
    ensures IsGrid(Preview(t, piece), PreviewSize, PreviewSize)
    ensures piece.None? ==> forall r, c :: 0 <= r < PreviewSize && 0 <= c < PreviewSize ==> Preview(t, piece)[r][c] == None
    ensures piece.Some? ==>
      var shape := t[piece.value][0];
      var ox, oy := OffsetX(shape), OffsetY(shape);
      forall r, c :: 0 <= r < PreviewSize && 0 <= c < PreviewSize ==>
        Preview(t, piece)[r][c] ==
          if exists i :: 0 <= i < |shape| && Covers(shape[i], ox, oy, r, c) then piece else None
  {
    if piece.Some? {
      var shape := t[piece.value][0];
      var ox, oy := OffsetX(shape), OffsetY(shape);
      PreviewIsStamp(t, piece.value);
      StampAt(EmptyGrid<PieceName>(PreviewSize, PreviewSize), PreviewSize, PreviewSize, shape, ox, oy, piece.value);
    }
  }

  /** The preview of a piece is its rotation-0 blocks stamped at the centring offsets. */
  lemma PreviewIsStamp(t: ShapeTable, n: PieceName)
    requires WellFormedTable(t)
    ensures Preview(t, Some(n)) == Stamp(EmptyGrid(PreviewSize, PreviewSize), t[n][0],
      OffsetX(t[n][0]), OffsetY(t[n][0]), n)
  {
  }

  /** A block whose shifted cell lies inside the grid is drawn there. */
  lemma PreviewBlockShown(t: ShapeTable, n: PieceName, i: int)
    requires WellFormedTable(t) && 0 <= i < |t[n][0]|
    requires 0 <= t[n][0][i].x + OffsetX(t[n][0]) < PreviewSize
    requires 0 <= t[n][0][i].y + OffsetY(t[n][0]) < PreviewSize
    ensures Preview(t, Some(n))[t[n][0][i].y + OffsetY(t[n][0])]
                               [t[n][0][i].x + OffsetX(t[n][0])] == Some(n)
  {
    var shape := t[n][0];
    var ox, oy := OffsetX(shape), OffsetY(shape);
    PreviewIsStamp(t, n);
    StampCovers(EmptyGrid<PieceName>(PreviewSize, PreviewSize), PreviewSize, PreviewSize, shape, ox, oy, n, i);
  }

  /** A rotation-0 shape whose offsets lie in the 4x4 box is drawn whole: each of its
      blocks lands inside the grid and is shown. */
  lemma PreviewShowsWholeShape(t: ShapeTable, n: PieceName, i: int)
    requires WellFormedTable(t)
    requires forall k :: 0 <= k < |t[n][0]| ==> 0 <= t[n][0][k].x < PreviewSize && 0 <= t[n][0][k].y < PreviewSize
    requires 0 <= i < |t[n][0]|
    ensures 0 <= t[n][0][i].x + OffsetX(t[n][0]) < PreviewSize
    ensures 0 <= t[n][0][i].y + OffsetY(t[n][0]) < PreviewSize
    ensures Preview(t, Some(n))[t[n][0][i].y + OffsetY(t[n][0])]
                               [t[n][0][i].x + OffsetX(t[n][0])] == Some(n)
  {
    var shape := t[n][0];
    var mx, my := MaxOf(Xs(shape)), MaxOf(Ys(shape));
    assert 1 <= mx + 1 <= PreviewSize by {
      assert Xs(shape)[0] <= mx;
      var k :| 0 <= k < |shape| && Xs(shape)[k] == mx;
    }
    assert 1 <= my + 1 <= PreviewSize by {
      assert Ys(shape)[0] <= my;
      var k :| 0 <= k < |shape| && Ys(shape)[k] == my;
    }
    assert Xs(shape)[i] <= mx;
    assert Ys(shape)[i] <= my;
    PreviewBlockShown(t, n, i);
  }

  /** The grid loop of `renderNextPiece` / `renderHoldPiece`: start from an empty 4x4
      grid and, for each rotation-0 block in order, write the name into its shifted cell
      when that cell is inside the grid. */
  method RenderPreview(t: ShapeTable, piece: Option<PieceName>) returns (grid: Board)
    requires WellFormedTable(t)
    ensures grid == Preview(t, piece)
  {
    grid := EmptyGrid(PreviewSize, PreviewSize);
    if piece.None? {
      return;
    }
    var name := piece.value;
    var shape := t[name][0];
    var width := MaxOf(Xs(shape)) + 1;
    var height := MaxOf(Ys(shape)) + 1;
    var offsetX := CentreOffset(width);
    var offsetY := CentreOffset(height);
    assert offsetX == OffsetX(shape) && offsetY == OffsetY(shape);
    ghost var empty := grid;
    var i := 0;
    while i < |shape|
      invariant 0 <= i <= |shape|
      invariant grid == Stamp(empty, shape[..i], offsetX, offsetY, name)
      invariant IsGrid(grid, PreviewSize, PreviewSize)
    {
      var x := shape[i].x + offsetX;
      var y := shape[i].y + offsetY;
      ghost var before := grid;
      PutDims(before, PreviewSize, PreviewSize, x, y, name);
      if x >= 0 && x < PreviewSize && y >= 0 && y < PreviewSize {
        grid := grid[y := grid[y][x := Some(name)]];
      }
      assert grid == Put(before, x, y, name);
      StampNext(empty, shape, i, offsetX, offsetY, name);
      assert offsetX + shape[i].x == x && offsetY + shape[i].y == y;
      i := i + 1;
    }
    assert shape[..i] == shape;
    PreviewIsStamp(t, name);
  }

  // ---------------------------------------------------------------------------
  // The bag

  /** One `getRandomPiece` call taking `bag` to `bag'` and returning `drawn`: a non-empty
      bag yields its head and loses exactly it; an empty bag is refilled with a shuffle of
      all seven names and the returned name is an arbitrary one, not taken from it. */
  predicate DrawStep(bag: seq<PieceName>, drawn: PieceName, bag': seq<PieceName>) {
    if bag != [] then drawn == bag[0] && bag' == bag[1..] else IsShuffle(bag')
  }

  /** Drawing keeps the bag free of repeated names. */
  lemma DrawKeepsNoDup(bag: seq<PieceName>, drawn: PieceName, bag': seq<PieceName>)
    requires NoDup(bag) && DrawStep(bag, drawn, bag')
    ensures NoDup(bag') && |bag'| <= 7
  {
    if bag != [] {
      assert forall i :: 0 <= i < |bag'| ==> bag'[i] == bag[i + 1];
      if |bag| > 7 {
        var first := bag[..8];
        NamesAtMostSeven(set k | 0 <= k < |first| :: first[k]);
        CardinalityOfDistinct(first);
      }
    }
  }

  /** There are seven piece names. */
  lemma NamesAtMostSeven(names: set<PieceName>)
    ensures |names| <= 7
  {
    assert names <= {I, J, L, O, S, T, Z} by {
      forall n | n in names ensures n in {I, J, L, O, S, T, Z} {
        match n { case I => case J => case L => case O => case S => case T => case Z => }
      }
    }
    assert |{I, J, L, O, S, T, Z}| == 7;
    BoundedSubset(names, {I, J, L, O, S, T, Z});
  }

  lemma BoundedSubset(a: set<PieceName>, b: set<PieceName>)
    requires a <= b
    ensures |a| <= |b|
  {
    assert b == a + (b - a);
  }

  /** A list without repeats has as many distinct elements as entries. */
  lemma {:induction false} CardinalityOfDistinct(s: seq<PieceName>)
    requires NoDup(s)
    ensures |set k | 0 <= k < |s| :: s[k]| == |s|
  {
    if s != [] {
      var front := s[..|s| - 1];
      CardinalityOfDistinct(front);
      var a := set k | 0 <= k < |front| :: front[k];
      var all := set k | 0 <= k < |s| :: s[k];
      assert all == a + {s[|s| - 1]};
      assert s[|s| - 1] !in a;
    }
  }

  /** The draws of one spawn: the new current piece is the old next piece when there
      was one and a fresh draw otherwise; the new next piece is drawn after it. */
  ghost predicate SpawnDraws(oldNext: Option<PieceName>, bag: seq<PieceName>,
                       current: PieceName, next: PieceName, bag': seq<PieceName>) {
    if oldNext.Some? then current == oldNext.value && DrawStep(bag, next, bag')
    else exists mid :: DrawStep(bag, current, mid) && DrawStep(mid, next, bag')
  }

  /** `drawn[i]` is drawn from `bags[i]`, leaving `bags[i + 1]`. */
  predicate DrawChain(bags: seq<seq<PieceName>>, drawn: seq<PieceName>) {
    |bags| == |drawn| + 1 && forall i :: 0 <= i < |drawn| ==> DrawStep(bags[i], drawn[i], bags[i + 1])
  }

  lemma {:induction false} DrawChainPops(bags: seq<seq<PieceName>>, drawn: seq<PieceName>, k: nat)
    requires DrawChain(bags, drawn) && k <= |drawn| && k <= |bags[0]|
    ensures drawn[..k] == bags[0][..k] && bags[k] == bags[0][k..]
  {
    if k > 0 {
      DrawChainPops(bags, drawn, k - 1);
      assert DrawStep(bags[k - 1], drawn[k - 1], bags[k]);
      assert bags[k - 1] == bags[0][k - 1..] && |bags[k - 1]| > 0;
      assert bags[0][k - 1..][1..] == bags[0][k..];
      assert drawn[..k] == drawn[..k - 1] + [drawn[k - 1]];
      assert bags[0][..k] == bags[0][..k - 1] + [bags[0][k - 1]];
    }
  }

  /** Seven consecutive draws starting from a fresh refill yield every name exactly
      once: the drawn names are the refill itself. */
  lemma SevenDrawsFromRefill(bags: seq<seq<PieceName>>, drawn: seq<PieceName>)
    requires DrawChain(bags, drawn) && |drawn| == 7 && IsShuffle(bags[0])
    ensures drawn == bags[0] && IsShuffle(drawn)
    ensures bags[7] == []
  {
    DrawChainPops(bags, drawn, 7);
    assert drawn[..7] == drawn;
    assert bags[0][..7] == bags[0];
  }
}
