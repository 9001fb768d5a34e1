/**
 * The completion test of the Sudoku game: the pure helpers of `SudokuGame`
 * (`__check_block`, `__check_row`, `__check_col`, `__check_sqr`) and the
 * predicate that `check_win` computes, with the column and square helpers
 * indexed as intended (see README).
 */
module Rules {
  import opened Parser

  /** `set(range(1, 10))`. */
  const Digits: set<int> := {1, 2, 3, 4, 5, 6, 7, 8, 9}

  /** `set(block)`. */
  function SetOf(block: seq<int>): set<int>
  {
    set x | x in block
  }

  /** `__check_block`: the values in the block, as a set, are exactly 1..9. */
  predicate CheckBlock(block: seq<int>)
  {
    SetOf(block) == Digits
  }

  /** A block passes exactly when every value in it is one of 1..9 and each of 1..9 occurs in it. */
  lemma BlockMembers(block: seq<int>)
    ensures CheckBlock(block) <==>
              (forall x :: x in block ==> 1 <= x <= 9) && (forall d :: 1 <= d <= 9 ==> d in block)
  {
    if (forall x :: x in block ==> 1 <= x <= 9) && (forall d :: 1 <= d <= 9 ==> d in block) {
      forall x ensures x in SetOf(block) <==> x in Digits {
        if x in Digits {
          assert 1 <= x <= 9;
        }
      }
    }
    if SetOf(block) == Digits {
      forall x | x in block ensures 1 <= x <= 9 {
        assert x in SetOf(block);
      }
      forall d | 1 <= d <= 9 ensures d in block {
        assert d in Digits;
      }
    }
  }

  /** Column `c`: `puzzle[r][c]` for r in 0..8. */
  function Column(b: Board, c: int): (col: seq<int>)
    requires IsBoard(b) && 0 <= c < 9
    ensures |col| == 9
  {
    seq(9, r requires 0 <= r < 9 => b[r][c])
  }

  /**
   * Square (sr, sc): rows 3*sr..3*sr+2 and columns 3*sc..3*sc+2, row by row,
   * as the comprehension in `__check_sqr` lists them.
   */
  function Square(b: Board, sr: int, sc: int): (sq: seq<int>)
    requires IsBoard(b) && 0 <= sr < 3 && 0 <= sc < 3
    ensures |sq| == 9
  {
    seq(9, k requires 0 <= k < 9 => b[3 * sr + k / 3][3 * sc + k % 3])
  }

  /** A square lists three slices of three cells, one from each of its rows, top to bottom. */
  lemma SquareIsRowSlices(b: Board, sr: int, sc: int)
    requires IsBoard(b) && 0 <= sr < 3 && 0 <= sc < 3
    ensures Square(b, sr, sc) ==
              b[3 * sr][3 * sc..3 * sc + 3] + b[3 * sr + 1][3 * sc..3 * sc + 3] + b[3 * sr + 2][3 * sc..3 * sc + 3]
  {
    var rows := b[3 * sr][3 * sc..3 * sc + 3] + b[3 * sr + 1][3 * sc..3 * sc + 3] + b[3 * sr + 2][3 * sc..3 * sc + 3];
    forall k | 0 <= k < 9 ensures Square(b, sr, sc)[k] == rows[k] {
      assert k == 3 * (k / 3) + k % 3;
    }
  }

  /** `__check_row`. */
  predicate CheckRow(b: Board, r: int)
    requires IsBoard(b) && 0 <= r < 9
  {
    CheckBlock(b[r])
  }

  /** `__check_col`, over the intended column. */
  predicate CheckCol(b: Board, c: int)
    requires IsBoard(b) && 0 <= c < 9
  {
    CheckBlock(Column(b, c))
  }

  /** Row r passes exactly when its cells are in 1..9 and pairwise different. */
  lemma RowIsPermutation(b: Board, r: int)
    requires IsBoard(b) && 0 <= r < 9
    ensures CheckRow(b, r) <==>
              && (forall j :: 0 <= j < 9 ==> 1 <= b[r][j] <= 9)
              && (forall j, j2 :: 0 <= j < j2 < 9 ==> b[r][j] != b[r][j2])
  {
    CheckBlockIsPermutation(b[r]);
  }

  /** Column c passes exactly when its cells are in 1..9 and pairwise different. */
  lemma ColumnIsPermutation(b: Board, c: int)
    requires IsBoard(b) && 0 <= c < 9
    ensures CheckCol(b, c) <==>
              && (forall i :: 0 <= i < 9 ==> 1 <= b[i][c] <= 9)
              && (forall i, i2 :: 0 <= i < i2 < 9 ==> b[i][c] != b[i2][c])
  {
    var col := Column(b, c);
    CheckBlockIsPermutation(col);
    assert forall i :: 0 <= i < 9 ==> col[i] == b[i][c];
  }

  /** Cell (i, j) lies in square (sr, sc). */
  predicate InSquare(i: int, j: int, sr: int, sc: int)
  {
    0 <= i < 9 && 0 <= j < 9 && i / 3 == sr && j / 3 == sc
  }

  /** The cells of square (sr, sc) are in 1..9 and pairwise different. */
  ghost predicate SquareRules(b: Board, sr: int, sc: int)
    requires IsBoard(b)
  {
    && (forall i, j :: InSquare(i, j, sr, sc) ==> 1 <= b[i][j] <= 9)
    && (forall i, j, i2, j2 ::
          InSquare(i, j, sr, sc) && InSquare(i2, j2, sr, sc) && (i, j) != (i2, j2) ==> b[i][j] != b[i2][j2])
  }

  /** `__check_sqr`, over the intended square; it takes the two coordinates the call in `check_win` passes. */
  predicate CheckSqr(b: Board, sr: int, sc: int)
    requires IsBoard(b) && 0 <= sr < 3 && 0 <= sc < 3
  {
    CheckBlock(Square(b, sr, sc))
  }

  /** The first loop of `check_win`: every row passes. */
  predicate RowsPass(b: Board)
    requires IsBoard(b)
  {
    forall r :: 0 <= r < 9 ==> CheckRow(b, r)
  }

  /** The second loop of `check_win`: every column passes. */
  predicate ColsPass(b: Board)
    requires IsBoard(b)
  {
    forall c :: 0 <= c < 9 ==> CheckCol(b, c)
  }

  /** The third loop of `check_win`: every square passes. */
  predicate SquaresPass(b: Board)
    requires IsBoard(b)
  {
    forall sr, sc :: 0 <= sr < 3 && 0 <= sc < 3 ==> CheckSqr(b, sr, sc)
  }

  /** What `check_win` answers: all rows, columns and squares pass. */
  predicate IsSolved(b: Board)
    requires IsBoard(b)
  {
    RowsPass(b) && ColsPass(b) && SquaresPass(b)
  }

  // ---------------------------------------------------------------------------
  // The block test as a permutation test

  /** No value occurs twice. */
  ghost predicate Distinct(s: seq<int>)
  {
    forall p, q :: 0 <= p < q < |s| ==> s[p] != s[q]
  }

  /** Every value is one of 1..9. */
  ghost predicate InDigits(s: seq<int>)
  {
    forall p :: 0 <= p < |s| ==> 1 <= s[p] <= 9
  }

  /** A sequence has at most as many distinct values as elements, and as many exactly when it repeats none. */
  lemma {:induction false} SetOfCard(s: seq<int>)
    ensures |SetOf(s)| <= |s|
    ensures |SetOf(s)| == |s| <==> Distinct(s)
  {
    if s != [] {
      var t := s[1..];
      SetOfCard(t);
      assert SetOf(s) == {s[0]} + SetOf(t) by {
        assert forall x :: x in s <==> x == s[0] || x in t;
      }
      if s[0] in t {
        var q :| 0 <= q < |t| && t[q] == s[0];
        assert s[0] == s[q + 1];
        assert SetOf(s) == SetOf(t);
      } else {
        assert SetOf(s) == SetOf(t) + {s[0]};
        assert |SetOf(s)| == |SetOf(t)| + 1;
        if Distinct(t) {
          forall p, q | 0 <= p < q < |s| ensures s[p] != s[q] {
            if p > 0 {
              assert s[p] == t[p - 1] && s[q] == t[q - 1];
            } else {
              assert s[q] == t[q - 1];
            }
          }
        } else {
          var p, q :| 0 <= p < q < |t| && t[p] == t[q];
          assert s[p + 1] == s[q + 1];
        }
      }
    }
  }

  /** A subset is no larger than its superset. */
  lemma SubsetCard(a: set<int>, b: set<int>)
    requires a <= b
    ensures |a| <= |b|
  {
    assert b == a + (b - a);
  }

  /** A finite set inside another of the same size is that set. */
  lemma SubsetSameCard(a: set<int>, b: set<int>)
    requires a <= b && |a| == |b|
    ensures a == b
  {
    assert |b - a| == |b| - |a|;
    assert b - a == {};
  }

  /**
   * A nine-cell block passes `__check_block` exactly when it is a permutation
   * of 1..9: every value is a digit 1..9 and no value repeats.
   */
  lemma CheckBlockIsPermutation(block: seq<int>)
    requires |block| == 9
    ensures CheckBlock(block) <==> InDigits(block) && Distinct(block)
  {
    if CheckBlock(block) {
      PassingBlockIsPermutation(block);
    }
    if InDigits(block) && Distinct(block) {
      PermutationPasses(block);
    }
  }

  lemma PassingBlockIsPermutation(block: seq<int>)
    requires |block| == 9 && CheckBlock(block)
    ensures InDigits(block) && Distinct(block)
  {
    SetOfCard(block);
    DigitsCard();
    forall p | 0 <= p < 9 ensures 1 <= block[p] <= 9 {
      assert block[p] in SetOf(block);
    }
  }

  lemma PermutationPasses(block: seq<int>)
    requires |block| == 9 && InDigits(block) && Distinct(block)
    ensures CheckBlock(block)
  {
    SetOfCard(block);
    DigitsCard();
    forall x | x in SetOf(block) ensures x in Digits {
      var p :| 0 <= p < 9 && block[p] == x;
    }
    SubsetSameCard(SetOf(block), Digits);
  }

  lemma DigitsCard()
    ensures |Digits| == 9
  {
  }

  /** A block that holds a blank (0) never passes. */
  lemma BlankBlockFails(block: seq<int>)
    requires exists p :: 0 <= p < |block| && block[p] == 0
    ensures !CheckBlock(block)
  {
    var p :| 0 <= p < |block| && block[p] == 0;
    assert 0 in SetOf(block);
  }

  // ---------------------------------------------------------------------------
  // The win predicate against the rules of Sudoku

  /** Cells (i, j) and (i2, j2) lie in the same 3x3 square. */
  predicate SameSquare(i: int, j: int, i2: int, j2: int)
  {
    i / 3 == i2 / 3 && j / 3 == j2 / 3
  }

  /**
   * A solved Sudoku, stated cell by cell: every cell is 1..9 and two distinct
   * cells in the same row, the same column or the same square differ.
   */
  ghost predicate SudokuRules(b: Board)
    requires IsBoard(b)
  {
    && (forall i, j :: 0 <= i < 9 && 0 <= j < 9 ==> 1 <= b[i][j] <= 9)
    && (forall i, j, j2 :: 0 <= i < 9 && 0 <= j < j2 < 9 ==> b[i][j] != b[i][j2])
    && (forall i, i2, j :: 0 <= i < i2 < 9 && 0 <= j < 9 ==> b[i][j] != b[i2][j])
    && (forall i, j, i2, j2 ::
          (0 <= i < 9 && 0 <= j < 9 && 0 <= i2 < 9 && 0 <= j2 < 9 &&
           SameSquare(i, j, i2, j2) && (i, j) != (i2, j2)) ==> b[i][j] != b[i2][j2])
  }

  /** Cell (i, j) is element 3 * (i % 3) + j % 3 of its square. */
  lemma SquareCell(b: Board, i: int, j: int)
    requires IsBoard(b) && 0 <= i < 9 && 0 <= j < 9
    ensures 0 <= 3 * (i % 3) + j % 3 < 9
    ensures Square(b, i / 3, j / 3)[3 * (i % 3) + j % 3] == b[i][j]
  {
    var k := 3 * (i % 3) + j % 3;
    assert k / 3 == i % 3 && k % 3 == j % 3;
  }

  /** Element k of square (sr, sc) is a cell of that square. */
  lemma SquareElement(sr: int, sc: int, k: int)
    requires 0 <= sr < 3 && 0 <= sc < 3 && 0 <= k < 9
    ensures (3 * sr + k / 3) / 3 == sr && (3 * sc + k % 3) / 3 == sc
    ensures 0 <= 3 * sr + k / 3 < 9 && 0 <= 3 * sc + k % 3 < 9
  {
  }

  /** Two different elements of one square are two different cells. */
  lemma SquareElementsDiffer(sr: int, sc: int, p: int, q: int)
    requires 0 <= sr < 3 && 0 <= sc < 3 && 0 <= p < q < 9
    ensures (3 * sr + p / 3, 3 * sc + p % 3) != (3 * sr + q / 3, 3 * sc + q % 3)
  {
    assert p == 3 * (p / 3) + p % 3 && q == 3 * (q / 3) + q % 3;
  }

  /** Two different cells of one square are two different elements of it. */
  lemma SquareCellsDiffer(i: int, j: int, i2: int, j2: int)
    requires 0 <= i < 9 && 0 <= j < 9 && 0 <= i2 < 9 && 0 <= j2 < 9
    requires SameSquare(i, j, i2, j2) && (i, j) != (i2, j2)
    ensures 3 * (i % 3) + j % 3 != 3 * (i2 % 3) + j2 % 3
  {
    assert i == 3 * (i / 3) + i % 3 && i2 == 3 * (i2 / 3) + i2 % 3;
    assert j == 3 * (j / 3) + j % 3 && j2 == 3 * (j2 / 3) + j2 % 3;
  }

  /** Square (sr, sc) passes exactly when its cells are in 1..9 and pairwise different. */
  lemma SquareIsPermutation(b: Board, sr: int, sc: int)
    requires IsBoard(b) && 0 <= sr < 3 && 0 <= sc < 3
    ensures CheckSqr(b, sr, sc) <==> SquareRules(b, sr, sc)
  {
    var sq := Square(b, sr, sc);
    CheckBlockIsPermutation(sq);
    if InDigits(sq) && Distinct(sq) {
      PermutationSquareKeepsRules(b, sr, sc);
    }
    if SquareRules(b, sr, sc) {
      RulesMakePermutationSquare(b, sr, sc);
    }
  }

  lemma PermutationSquareKeepsRules(b: Board, sr: int, sc: int)
    requires IsBoard(b) && 0 <= sr < 3 && 0 <= sc < 3
    requires InDigits(Square(b, sr, sc)) && Distinct(Square(b, sr, sc))
    ensures SquareRules(b, sr, sc)
  {
    var sq := Square(b, sr, sc);
    forall i, j | InSquare(i, j, sr, sc) ensures 1 <= b[i][j] <= 9 {
      SquareCell(b, i, j);
    }
    forall i, j, i2, j2 | InSquare(i, j, sr, sc) && InSquare(i2, j2, sr, sc) && (i, j) != (i2, j2)
      ensures b[i][j] != b[i2][j2]
    {
      SquareCell(b, i, j);
      SquareCell(b, i2, j2);
      SquareCellsDiffer(i, j, i2, j2);
      var p, q := 3 * (i % 3) + j % 3, 3 * (i2 % 3) + j2 % 3;
      if p < q {
        assert sq[p] != sq[q];
      } else {
        assert sq[q] != sq[p];
      }
    }
  }

  lemma RulesMakePermutationSquare(b: Board, sr: int, sc: int)
    requires IsBoard(b) && 0 <= sr < 3 && 0 <= sc < 3 && SquareRules(b, sr, sc)
    ensures InDigits(Square(b, sr, sc)) && Distinct(Square(b, sr, sc))
  {
    var sq := Square(b, sr, sc);
    forall p | 0 <= p < 9 ensures 1 <= sq[p] <= 9 {
      SquareElement(sr, sc, p);
      assert InSquare(3 * sr + p / 3, 3 * sc + p % 3, sr, sc);
    }
    forall p, q | 0 <= p < q < 9 ensures sq[p] != sq[q] {
      SquareElement(sr, sc, p);
      SquareElement(sr, sc, q);
      SquareElementsDiffer(sr, sc, p, q);
      assert InSquare(3 * sr + p / 3, 3 * sc + p % 3, sr, sc);
      assert InSquare(3 * sr + q / 3, 3 * sc + q % 3, sr, sc);
    }
  }

  /**
   * `check_win`'s answer is exactly "this board is a solved Sudoku": every row,
   * column and square passing the block test is the cell-wise rules.
   */
  lemma SolvedIffRules(b: Board)
    requires IsBoard(b)
    ensures IsSolved(b) <==> SudokuRules(b)
  {
    if IsSolved(b) {
      forall i | 0 <= i < 9 ensures (forall j :: 0 <= j < 9 ==> 1 <= b[i][j] <= 9) &&
                                    (forall j, j2 :: 0 <= j < j2 < 9 ==> b[i][j] != b[i][j2]) {
        assert CheckRow(b, i);
        RowIsPermutation(b, i);
      }
      forall i, i2, j | 0 <= i < i2 < 9 && 0 <= j < 9 ensures b[i][j] != b[i2][j] {
        assert CheckCol(b, j);
        ColumnIsPermutation(b, j);
      }
      forall i, j, i2, j2 |
        (0 <= i < 9 && 0 <= j < 9 && 0 <= i2 < 9 && 0 <= j2 < 9 &&
         SameSquare(i, j, i2, j2) && (i, j) != (i2, j2))
        ensures b[i][j] != b[i2][j2]
      {
        assert CheckSqr(b, i / 3, j / 3);
        SquareIsPermutation(b, i / 3, j / 3);
        assert InSquare(i, j, i / 3, j / 3) && InSquare(i2, j2, i / 3, j / 3);
      }
    }
    if SudokuRules(b) {
      forall r | 0 <= r < 9 ensures CheckRow(b, r) {
        RowIsPermutation(b, r);
      }
      forall c | 0 <= c < 9 ensures CheckCol(b, c) {
        ColumnIsPermutation(b, c);
      }
      forall sr, sc | 0 <= sr < 3 && 0 <= sc < 3 ensures CheckSqr(b, sr, sc) {
        forall i, j, i2, j2 | InSquare(i, j, sr, sc) && InSquare(i2, j2, sr, sc) && (i, j) != (i2, j2)
          ensures b[i][j] != b[i2][j2]
        {
          assert SameSquare(i, j, i2, j2);
        }
        SquareIsPermutation(b, sr, sc);
      }
    }
  }

  /** A board with a blank cell is never solved. */
  lemma BlankBoardUnsolved(b: Board, i: int, j: int)
    requires IsBoard(b) && 0 <= i < 9 && 0 <= j < 9 && b[i][j] == 0
    ensures !IsSolved(b)
  {
    BlankBlockFails(b[i]);
    assert !CheckRow(b, i);
  }
}
