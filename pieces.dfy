/** The piece names and rotation table the full engine imports from its
    `./tetrominoes` module. That module's offsets are not part of this model, so the
    table is a parameter of the engine, constrained only by what the engine relies on:
    seven names, four rotations per name, and a non-empty block list per rotation. */
module Pieces {
  import opened Grid

  datatype PieceName = I | J | L | O | S | T | Z

  /** `TetrominoNames`: every name once. */
  const AllNames: seq<PieceName> := [I, J, L, O, S, T, Z]

  /** `Tetrominoes[name][rot]`: the blocks of each name in each rotation. */
  type ShapeTable = map<PieceName, seq<seq<Block>>>

  predicate WellFormedTable(t: ShapeTable) {
    forall n: PieceName :: n in t && |t[n]| == 4 && forall r :: 0 <= r < 4 ==> |t[n][r]| > 0
  }

  /** Every block offset lies in the 4x4 box the previews draw into. The engine does
      not need this; it is what makes a fresh game start collision-free. */
  predicate BoxedTable(t: ShapeTable)
    requires WellFormedTable(t)
  {
    forall n: PieceName, r, i :: 0 <= r < 4 && 0 <= i < |t[n][r]| ==>
      0 <= t[n][r][i].x < 4 && 0 <= t[n][r][i].y < 4
  }

  predicate NoDup(s: seq<PieceName>) {
    forall i, j :: 0 <= i < j < |s| ==> s[i] != s[j]
  }

  /** A refill of the bag: the seven names, each exactly once, in some order. */
  predicate IsShuffle(s: seq<PieceName>) {
    |s| == 7 && NoDup(s) && forall n: PieceName :: n in s
  }

  /** A list without repeats holds each value at most once. */
  lemma {:induction false} NoDupCount(s: seq<PieceName>, n: PieceName)
    requires NoDup(s)
    ensures multiset(s)[n] <= 1
  {
    if s != [] {
      assert s == [s[0]] + s[1..];
      assert NoDup(s[1..]) by {
        forall i, j | 0 <= i < j < |s[1..]| ensures s[1..][i] != s[1..][j] {
          assert s[1..][i] == s[i + 1] && s[1..][j] == s[j + 1];
        }
      }
      NoDupCount(s[1..], n);
      if s[0] == n {
        assert n !in s[1..] by {
          forall k | 0 <= k < |s[1..]| ensures s[1..][k] != n {
            assert s[1..][k] == s[k + 1];
          }
        }
      }
    }
  }

  /** `TetrominoNames` itself is a refill. */
  lemma AllNamesShuffle()
    ensures IsShuffle(AllNames)
  {
    forall n: PieceName ensures n in AllNames {
      match n { case I => case J => case L => case O => case S => case T => case Z => }
    }
  }

  /** Two refills hold the same names with the same multiplicities. */
  lemma ShufflesSameMultiset(a: seq<PieceName>, b: seq<PieceName>)
    requires IsShuffle(a) && IsShuffle(b)
    ensures multiset(a) == multiset(b)
  {
    forall n: PieceName ensures multiset(a)[n] == multiset(b)[n] {
      NoDupCount(a, n);
      NoDupCount(b, n);
      assert n in a && n in b;
    }
  }

  /** A reordering of a refill is a refill. */
  lemma PermutedShuffle(a: seq<PieceName>, b: seq<PieceName>)
    requires IsShuffle(a) && multiset(b) == multiset(a)
    ensures IsShuffle(b)
  {
    assert |b| == |multiset(b)| == |multiset(a)| == 7;
    forall n: PieceName ensures n in b {
      assert n in a;
      assert n in multiset(a);
    }
    forall i, j | 0 <= i < j < |b| ensures b[i] != b[j] {
      if b[i] == b[j] {
        assert b == b[..j] + b[j..];
        assert b[i] in multiset(b[..j]);
        NoDupCount(a, b[i]);
        assert false;
      }
    }
  }

  /** The refills are exactly the permutations of `TetrominoNames`, the orderings the
      shuffle of `initializeBag` can produce. */
  lemma ShuffleIsPermutation(s: seq<PieceName>)
    ensures IsShuffle(s) <==> multiset(s) == multiset(AllNames)
  {
    AllNamesShuffle();
    if IsShuffle(s) {
      ShufflesSameMultiset(s, AllNames);
    }
    if multiset(s) == multiset(AllNames) {
      PermutedShuffle(AllNames, s);
    }
  }
}
