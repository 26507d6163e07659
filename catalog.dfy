/** The shape and colour table of the minimal engine and its board dimensions
    (src/constants.ts). Each shape is a matrix of 0/1 cells, row by row. */
module Catalog {

  const BoardWidth: int := 10
  const BoardHeight: int := 20

  datatype Tetromino = Tetromino(shape: seq<seq<int>>, color: string)

  /** The keys of the table in declaration order (the order `Object.keys` yields). */
  const TetrominoKeys: seq<string> := ["I", "J", "L", "O", "S", "T", "Z"]

  /** Every cell is 0 or 1. */
  predicate IsBinary(m: seq<seq<int>>) {
    forall r, c :: 0 <= r < |m| && 0 <= c < |m[r]| ==> m[r][c] == 0 || m[r][c] == 1
  }

  /** All rows have the length of the first. */
  predicate IsRectangular(m: seq<seq<int>>) {
    forall r :: 0 <= r < |m| ==> |m[r]| == |m[0]|
  }

  function RowOnes(row: seq<int>): nat {
    if row == [] then 0 else (if row[0] == 1 then 1 else 0) + RowOnes(row[1..])
  }

  /** The number of cells equal to 1. */
  function CountOnes(m: seq<seq<int>>): nat {
    if m == [] then 0 else RowOnes(m[0]) + CountOnes(m[1..])
  }

  /** A tetromino shape: four cells equal to 1, the rest 0, rectangular, one or two
      rows of at most four columns. */
  predicate WellShaped(m: seq<seq<int>>) {
    IsBinary(m) && IsRectangular(m) && CountOnes(m) == 4
    && 1 <= |m| <= 2 && forall r :: 0 <= r < |m| ==> |m[r]| <= 4
  }

  const ShapeI: seq<seq<int>> := [[1, 1, 1, 1]]
  const ShapeJ: seq<seq<int>> := [[0, 0, 1], [1, 1, 1]]
  const ShapeL: seq<seq<int>> := [[1, 0, 0], [1, 1, 1]]
  const ShapeO: seq<seq<int>> := [[1, 1], [1, 1]]
  const ShapeS: seq<seq<int>> := [[0, 1, 1], [1, 1, 0]]
  const ShapeT: seq<seq<int>> := [[0, 1, 0], [1, 1, 1]]
  const ShapeZ: seq<seq<int>> := [[1, 1, 0], [0, 1, 1]]

  /** The two-row shapes with three columns have their four 1-cells split 1+3, 3+1
      or 2+2 between the rows. */
  lemma ThreeWideShaped(m: seq<seq<int>>)
    requires m in {ShapeJ, ShapeL, ShapeS, ShapeT, ShapeZ}
    ensures WellShaped(m)
  {
    assert |m| == 2 && |m[0]| == 3 && |m[1]| == 3;
    assert m[1..][1..] == [];
    assert m[0][1..][1..][1..] == [] && m[1][1..][1..][1..] == [];
  }

  /** The one-row shape has its four cells in its single row. */
  lemma ShapeIShaped()
    ensures WellShaped(ShapeI)
  {
    assert ShapeI[1..] == [] && ShapeI[0][1..][1..][1..][1..] == [];
  }

  /** The square has two 1-cells in each of its two rows. */
  lemma ShapeOShaped()
    ensures WellShaped(ShapeO)
  {
    assert ShapeO[1..][1..] == [] && ShapeO[0][1..][1..] == [] && ShapeO[1][1..][1..] == [];
  }

  lemma ShapesWellShaped()
    ensures WellShaped(ShapeI) && WellShaped(ShapeO)
    ensures WellShaped(ShapeJ) && WellShaped(ShapeL) && WellShaped(ShapeS)
    ensures WellShaped(ShapeT) && WellShaped(ShapeZ)
  {
    ShapeIShaped();
    ShapeOShaped();
    ThreeWideShaped(ShapeJ);
    ThreeWideShaped(ShapeL);
    ThreeWideShaped(ShapeS);
    ThreeWideShaped(ShapeT);
    ThreeWideShaped(ShapeZ);
  }

  /** The literal table. */
  const Table: map<string, Tetromino> := map[
    "I" := Tetromino(ShapeI, "cyan"),
    "J" := Tetromino(ShapeJ, "blue"),
    "L" := Tetromino(ShapeL, "orange"),
    "O" := Tetromino(ShapeO, "yellow"),
    "S" := Tetromino(ShapeS, "green"),
    "T" := Tetromino(ShapeT, "purple"),
    "Z" := Tetromino(ShapeZ, "red")
  ]

  lemma EntryWellShaped(k: string)
    requires k in Table
    ensures WellShaped(Table[k].shape)
  {
    ShapesWellShaped();
    assert k == "I" || k == "J" || k == "L" || k == "O" || k == "S" || k == "T" || k == "Z";
  }

  /** The seven colours start with seven different letters. */
  lemma ColorsDistinct(k1: string, k2: string)
    requires k1 in Table && k2 in Table && k1 != k2
    ensures Table[k1].color != Table[k2].color
  {
    var initials := map["I" := 'c', "J" := 'b', "L" := 'o', "O" := 'y', "S" := 'g', "T" := 'p', "Z" := 'r'];
    assert k1 in initials && k2 in initials;
    assert Table[k1].color[0] == initials[k1];
    assert Table[k2].color[0] == initials[k2];
  }

  /** The table has exactly the seven keys. */
  lemma TableKeys()
    ensures Table.Keys == {"I", "J", "L", "O", "S", "T", "Z"}
  {
  }

  /** Every entry is a tetromino shape. */
  lemma TableShaped()
    ensures forall k :: k in Table ==> WellShaped(Table[k].shape)
  {
    forall k | k in Table ensures WellShaped(Table[k].shape) {
      EntryWellShaped(k);
    }
  }

  /** No two entries share a colour. */
  lemma TableColorsDistinct()
    ensures forall k1, k2 :: k1 in Table && k2 in Table && k1 != k2 ==> Table[k1].color != Table[k2].color
  {
    forall k1, k2 | k1 in Table && k2 in Table && k1 != k2 ensures Table[k1].color != Table[k2].color {
      ColorsDistinct(k1, k2);
    }
  }

  /** The I entry is one row of four cells and the O entry two rows of two. */
  lemma TableIAndO()
    ensures "I" in Table && |Table["I"].shape| == 1 && |Table["I"].shape[0]| == 4
    ensures "O" in Table && |Table["O"].shape| == 2 && |Table["O"].shape[0]| == 2
  {
    assert Table["I"].shape == ShapeI && Table["O"].shape == ShapeO;
  }

  /** The exported catalog: seven well-shaped tetrominoes with distinct colours. */
  function Tetrominoes(): (t: map<string, Tetromino>)
    ensures t.Keys == {"I", "J", "L", "O", "S", "T", "Z"}
    ensures forall k :: k in t ==> WellShaped(t[k].shape)
    ensures |t["I"].shape| == 1 && |t["I"].shape[0]| == 4
    ensures |t["O"].shape| == 2 && |t["O"].shape[0]| == 2
    ensures forall k1, k2 :: k1 in t && k2 in t && k1 != k2 ==> t[k1].color != t[k2].color
  {
    TableKeys();
    TableShaped();
    TableColorsDistinct();
    TableIAndO();
    Table
  }
}
