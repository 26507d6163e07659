/** Grids of optional cells, shared by both engines: the 20x10 board, the 4x4 preview
    grids, and the row operations used by line clearing. A cell is either empty
    (`None`, the source's `null`) or holds a payload (a piece name in the full engine,
    a string in the minimal one). */
module Grid {

  datatype Option<T> = None | Some(value: T)

  /** One occupied cell of a piece shape, as an offset from the piece origin. */
  datatype Block = Block(x: int, y: int)

  /** `g` has `h` rows of `w` cells each. */
  predicate IsGrid<T>(g: seq<seq<Option<T>>>, h: nat, w: nat) {
    |g| == h && forall r :: 0 <= r < h ==> |g[r]| == w
  }

  function EmptyRow<T>(w: nat): (row: seq<Option<T>>)
    ensures |row| == w
    ensures forall c :: 0 <= c < w ==> row[c] == None
  {
    seq(w, _ => None)
  }

  /** A grid of `h` rows, each a fresh row of `w` empty cells. */
  function EmptyGrid<T>(h: nat, w: nat): (g: seq<seq<Option<T>>>)
    ensures IsGrid(g, h, w)
    ensures forall r, c :: 0 <= r < h && 0 <= c < w ==> g[r][c] == None
  {
    seq(h, _ => EmptyRow(w))
  }

  /** `k` empty rows of width `w`. */
  function EmptyRows<T>(k: nat, w: nat): (rows: seq<seq<Option<T>>>)
    ensures IsGrid(rows, k, w)
    ensures forall r :: 0 <= r < k ==> rows[r] == EmptyRow(w)
  {
    seq(k, _ => EmptyRow(w))
  }

  /** The block `blk` of a piece whose origin is (x, y) lands on column `c` of row `r`. */
  predicate Covers(blk: Block, x: int, y: int, r: int, c: int) {
    y + blk.y == r && x + blk.x == c
  }

  /** Writes `v` into cell (c, r) when that cell lies inside the grid; outside, nothing. */
  function Put<T>(g: seq<seq<Option<T>>>, c: int, r: int, v: T): seq<seq<Option<T>>> {
    if 0 <= r < |g| && 0 <= c < |g[r]| then g[r := g[r][c := Some(v)]] else g
  }

  /** Writes `v` into the in-range cells of `blocks` placed at origin (x, y), one block
      after the other (the last block is written last). */
  function Stamp<T>(g: seq<seq<Option<T>>>, blocks: seq<Block>, x: int, y: int, v: T): seq<seq<Option<T>>>
  {
    if blocks == [] then g
    else
      var last := blocks[|blocks| - 1];
      Put(Stamp(g, blocks[..|blocks| - 1], x, y, v), x + last.x, y + last.y, v)
  }

  /** Stamping keeps the dimensions. */
  lemma {:induction false} StampDims<T>(g: seq<seq<Option<T>>>, h: nat, w: nat, blocks: seq<Block>, x: int, y: int, v: T)
    requires IsGrid(g, h, w)
    ensures IsGrid(Stamp(g, blocks, x, y, v), h, w)
  {
    if blocks != [] {
      StampDims(g, h, w, blocks[..|blocks| - 1], x, y, v);
    }
  }

  /** `Put` writes the cell when it is inside the grid, and leaves the grid alone
      otherwise; either way the dimensions stay. */
  lemma PutDims<T>(g: seq<seq<Option<T>>>, h: nat, w: nat, c: int, r: int, v: T)
    requires IsGrid(g, h, w)
    ensures IsGrid(Put(g, c, r, v), h, w)
    ensures 0 <= r < h && 0 <= c < w ==> Put(g, c, r, v) == g[r := g[r][c := Some(v)]]
    ensures !(0 <= r < h && 0 <= c < w) ==> Put(g, c, r, v) == g
  {
  }

  /** Stamping one more block of the list is one more `Put`. */
  lemma StampNext<T>(g: seq<seq<Option<T>>>, blocks: seq<Block>, i: int, x: int, y: int, v: T)
    requires 0 <= i < |blocks|
    ensures Stamp(g, blocks[..i + 1], x, y, v) == Put(Stamp(g, blocks[..i], x, y, v), x + blocks[i].x, y + blocks[i].y, v)
  {
    assert blocks[..i + 1][..i] == blocks[..i];
  }

  /** Stamping keeps the dimensions, writes `v` into exactly the cells some block
      covers, and leaves every other cell as it was. */
  lemma {:induction false} StampAt<T>(g: seq<seq<Option<T>>>, h: nat, w: nat, blocks: seq<Block>, x: int, y: int, v: T)
    requires IsGrid(g, h, w)
    ensures IsGrid(Stamp(g, blocks, x, y, v), h, w)
    ensures forall r, c :: 0 <= r < h && 0 <= c < w ==>
      Stamp(g, blocks, x, y, v)[r][c] ==
        if exists i :: 0 <= i < |blocks| && Covers(blocks[i], x, y, r, c) then Some(v) else g[r][c]
  {
    if blocks != [] {
      var n := |blocks| - 1;
      var front := blocks[..n];
      StampAt(g, h, w, front, x, y, v);
      forall r, c | 0 <= r < h && 0 <= c < w
        ensures Stamp(g, blocks, x, y, v)[r][c] ==
          if exists i :: 0 <= i < |blocks| && Covers(blocks[i], x, y, r, c) then Some(v) else g[r][c]
      {
        if Covers(blocks[n], x, y, r, c) {
        } else if exists i :: 0 <= i < |front| && Covers(front[i], x, y, r, c) {
          var i :| 0 <= i < |front| && Covers(front[i], x, y, r, c);
          assert Covers(blocks[i], x, y, r, c);
        } else {
          forall i | 0 <= i < |blocks| ensures !Covers(blocks[i], x, y, r, c) {
            if i < n { assert blocks[i] == front[i]; }
          }
        }
      }
    }
  }

  /** A block whose cell lies inside the grid leaves `v` there. */
  lemma StampCovers<T>(g: seq<seq<Option<T>>>, h: nat, w: nat, blocks: seq<Block>, x: int, y: int, v: T, i: int)
    requires IsGrid(g, h, w) && 0 <= i < |blocks|
    requires 0 <= y + blocks[i].y < h && 0 <= x + blocks[i].x < w
    ensures IsGrid(Stamp(g, blocks, x, y, v), h, w)
    ensures Stamp(g, blocks, x, y, v)[y + blocks[i].y][x + blocks[i].x] == Some(v)
  {
    StampAt(g, h, w, blocks, x, y, v);
    assert Covers(blocks[i], x, y, y + blocks[i].y, x + blocks[i].x);
  }

  /** The test of `clearLines` that every cell of a row is set, scanning from the left
      and stopping at the first empty cell: it holds exactly when no cell is empty. */
  predicate RowFull<T>(row: seq<Option<T>>): (full: bool)
    ensures full <==> forall c :: 0 <= c < |row| ==> row[c].Some?
  {
    row == [] || (row[0].Some? && RowFull(row[1..]))
  }

  predicate NoFullRow<T>(g: seq<seq<Option<T>>>) {
    forall r :: 0 <= r < |g| ==> !RowFull(g[r])
  }

  /** The rows of `g` that are not full, in their original order. */
  function NonFull<T>(g: seq<seq<Option<T>>>): (kept: seq<seq<Option<T>>>)
    ensures |kept| <= |g|
  {
    if g == [] then []
    else (if RowFull(g[0]) then [] else [g[0]]) + NonFull(g[1..])
  }

  /** The number of full rows of `g`. */
  function FullCount<T>(g: seq<seq<Option<T>>>): nat {
    |g| - |NonFull(g)|
  }

  /** The board after line clearing: the full rows are gone, the others keep their
      order and sit at the bottom, and one empty row per removed row fills the top. */
  function ClearFull<T>(g: seq<seq<Option<T>>>, w: nat): seq<seq<Option<T>>> {
    EmptyRows(FullCount(g), w) + NonFull(g)
  }

  lemma {:induction false} NonFullRows<T>(g: seq<seq<Option<T>>>, h: nat, w: nat)
    requires IsGrid(g, h, w)
    ensures IsGrid(NonFull(g), |NonFull(g)|, w)
    ensures NoFullRow(NonFull(g))
    ensures NoFullRow(g) ==> NonFull(g) == g
    ensures |NonFull(g)| == |g| ==> NonFull(g) == g
  {
    if g != [] {
      NonFullRows(g[1..], h - 1, w);
    }
  }

  lemma EmptyRowNotFull<T>(w: nat)
    requires w > 0
    ensures !RowFull(EmptyRow<T>(w))
  {
    assert EmptyRow<T>(w)[0] == None;
  }

  /** Filtering distributes over concatenation. */
  lemma {:induction false} NonFullAppend<T>(a: seq<seq<Option<T>>>, b: seq<seq<Option<T>>>)
    ensures NonFull(a + b) == NonFull(a) + NonFull(b)
  {
    if a == [] {
      assert a + b == b;
    } else {
      assert (a + b)[1..] == a[1..] + b;
      NonFullAppend(a[1..], b);
    }
  }

  /** Empty rows of positive width are not full, so the filter keeps them all. */
  lemma {:induction false} NonFullOfEmpty<T>(k: nat, w: nat)
    requires w > 0
    ensures NonFull(EmptyRows<T>(k, w)) == EmptyRows<T>(k, w)
  {
    if k > 0 {
      EmptyRowNotFull<T>(w);
      assert EmptyRows<T>(k, w)[1..] == EmptyRows<T>(k - 1, w);
      NonFullOfEmpty<T>(k - 1, w);
    }
  }

  // The scan of line clearing works on `l` empty rows, then the unscanned rows
  // `b[..j]`, then the already filtered rows `NonFull(b[j..])`.

  /** The row at index `y` of the scan: an empty row inside the padding, else the last
      unscanned row when `y` is just above the filtered part. */
  lemma ScanRow<T>(nb: seq<seq<Option<T>>>, b: seq<seq<Option<T>>>, l: nat, j: nat, w: nat, y: int)
    requires w > 0 && j <= |b| && nb == EmptyRows<T>(l, w) + b[..j] + NonFull(b[j..])
    requires 0 <= y < l + j || (j == 0 && 0 <= y < l)
    ensures 0 <= y < |nb|
    ensures y < l ==> !RowFull(nb[y])
    ensures y >= l && j > 0 && y == l + j - 1 ==> nb[y] == b[j - 1]
  {
    if y < l {
      assert nb[y] == EmptyRows<T>(l, w)[y];
      EmptyRowNotFull<T>(w);
    }
  }

  /** Splicing out the full last unscanned row and pushing an empty row on top. */
  lemma SpliceFullRow<T>(nb: seq<seq<Option<T>>>, b: seq<seq<Option<T>>>, l: nat, j: nat, w: nat)
    requires 0 < j <= |b| && nb == EmptyRows<T>(l, w) + b[..j] + NonFull(b[j..])
    requires RowFull(b[j - 1])
    ensures [EmptyRow(w)] + nb[..l + j - 1] + nb[l + j..] == EmptyRows<T>(l + 1, w) + b[..j - 1] + NonFull(b[j - 1..])
  {
    var e := EmptyRows<T>(l, w);
    assert b[..j] == b[..j - 1] + [b[j - 1]];
    assert b[j - 1..][1..] == b[j..];
    assert nb[..l + j - 1] == e + b[..j - 1];
    assert nb[l + j..] == NonFull(b[j..]);
    assert [EmptyRow<T>(w)] + e == EmptyRows<T>(l + 1, w);
  }

  /** Moving past a non-full last unscanned row. */
  lemma KeepRow<T>(nb: seq<seq<Option<T>>>, b: seq<seq<Option<T>>>, l: nat, j: nat, w: nat)
    requires 0 < j <= |b| && nb == EmptyRows<T>(l, w) + b[..j] + NonFull(b[j..])
    requires !RowFull(b[j - 1])
    ensures nb == EmptyRows<T>(l, w) + b[..j - 1] + NonFull(b[j - 1..])
  {
    assert b[..j] == b[..j - 1] + [b[j - 1]];
    assert b[j - 1..][1..] == b[j..];
  }

  /** What line clearing promises: the dimensions stay, the top rows are empty, the
      rows below them are the old non-full rows in their old order, no full row
      survives, and a board without full rows is left as it is. */
  lemma ClearFullSpec<T>(g: seq<seq<Option<T>>>, h: nat, w: nat)
    requires IsGrid(g, h, w) && w > 0
    ensures IsGrid(ClearFull(g, w), h, w)
    ensures forall r :: 0 <= r < FullCount(g) ==> ClearFull(g, w)[r] == EmptyRow(w)
    ensures ClearFull(g, w)[FullCount(g)..] == NonFull(g)
    ensures NoFullRow(ClearFull(g, w))
    ensures FullCount(ClearFull(g, w)) == 0
    ensures NoFullRow(g) ==> FullCount(g) == 0
    ensures FullCount(g) == 0 ==> ClearFull(g, w) == g
  {
    var e := EmptyRows<T>(FullCount(g), w);
    NonFullRows(g, h, w);
    EmptyRowNotFull<T>(w);
    NonFullAppend(e, NonFull(g));
    NonFullOfEmpty<T>(FullCount(g), w);
    NonFullRows(NonFull(g), |NonFull(g)|, w);
    assert NonFull(ClearFull(g, w)) == ClearFull(g, w);
    forall r | 0 <= r < |ClearFull(g, w)| ensures !RowFull(ClearFull(g, w)[r]) {
      if r >= |e| { assert ClearFull(g, w)[r] == NonFull(g)[r - |e|]; }
    }
    if FullCount(g) == 0 {
      assert e == [];
    }
  }

  /** Clearing twice is clearing once. */
  lemma ClearFullIdempotent<T>(g: seq<seq<Option<T>>>, h: nat, w: nat)
    requires IsGrid(g, h, w) && w > 0
    ensures ClearFull(ClearFull(g, w), w) == ClearFull(g, w)
  {
    ClearFullSpec(g, h, w);
    ClearFullSpec(ClearFull(g, w), h, w);
  }
}
