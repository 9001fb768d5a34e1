/**
 * Worked examples on concrete boards: one completed grid that wins, the same
 * grid with one cell changed that does not, and board files the reader
 * rejects.
 */
module Scenarios {
  import opened Parser
  import opened Rules

  /** A completed grid whose first row is 534678912. */
  function Solution(): (b: Board)
    ensures IsBoard(b)
  {
    [[5, 3, 4, 6, 7, 8, 9, 1, 2],
     [6, 7, 2, 1, 9, 5, 3, 4, 8],
     [1, 9, 8, 3, 4, 2, 5, 6, 7],
     [8, 5, 9, 7, 6, 1, 4, 2, 3],
     [4, 2, 6, 8, 5, 3, 7, 9, 1],
     [7, 1, 3, 9, 2, 4, 8, 5, 6],
     [9, 6, 1, 5, 3, 7, 2, 8, 4],
     [2, 8, 7, 4, 1, 9, 6, 3, 5],
     [3, 4, 5, 2, 8, 6, 1, 7, 9]]
  }

  /** Nine cells that hold every digit 1..9 pass the block test. */
  lemma CoversDigits(s: seq<int>)
    requires |s| == 9
    requires 1 in s && 2 in s && 3 in s && 4 in s && 5 in s && 6 in s && 7 in s && 8 in s && 9 in s
    ensures CheckBlock(s)
  {
    SetOfCard(s);
    DigitsCard();
    assert Digits <= SetOf(s);
    SubsetCard(Digits, SetOf(s));
    SubsetSameCard(Digits, SetOf(s));
  }

  lemma SolutionRows()
    ensures forall r :: 0 <= r < 9 ==> CheckRow(Solution(), r)
  {
    var b := Solution();
    forall r | 0 <= r < 9 ensures CheckRow(b, r) {
      CoversDigits(b[r]);
    }
  }

  lemma SolutionColumns()
    ensures forall c :: 0 <= c < 9 ==> CheckCol(Solution(), c)
  {
    var b := Solution();
    forall c | 0 <= c < 9 ensures CheckCol(b, c) {
      var col := Column(b, c);
      assert col == [b[0][c], b[1][c], b[2][c], b[3][c], b[4][c], b[5][c], b[6][c], b[7][c], b[8][c]];
      CoversDigits(col);
    }
  }

  lemma SolutionSquares()
    ensures forall sr, sc :: 0 <= sr < 3 && 0 <= sc < 3 ==> CheckSqr(Solution(), sr, sc)
  {
    SolutionSquare00(); SolutionSquare01(); SolutionSquare02();
    SolutionSquare10(); SolutionSquare11(); SolutionSquare12();
    SolutionSquare20(); SolutionSquare21(); SolutionSquare22();
    forall sr, sc | 0 <= sr < 3 && 0 <= sc < 3 ensures CheckSqr(Solution(), sr, sc) {
      assert sr == 0 || sr == 1 || sr == 2;
      assert sc == 0 || sc == 1 || sc == 2;
    }
  }

  lemma SolutionSquare00()
    ensures CheckSqr(Solution(), 0, 0)
  {
    var sq := Square(Solution(), 0, 0);
    assert sq[0] == 5 && sq[1] == 3 && sq[2] == 4 && sq[3] == 6 && sq[4] == 7 && sq[5] == 2 && sq[6] == 1 && sq[7] == 9 && sq[8] == 8;
    CoversDigits(sq);
  }

  lemma SolutionSquare01()
    ensures CheckSqr(Solution(), 0, 1)
  {
    var sq := Square(Solution(), 0, 1);
    assert sq[0] == 6 && sq[1] == 7 && sq[2] == 8 && sq[3] == 1 && sq[4] == 9 && sq[5] == 5 && sq[6] == 3 && sq[7] == 4 && sq[8] == 2;
    CoversDigits(sq);
  }

  lemma SolutionSquare02()
    ensures CheckSqr(Solution(), 0, 2)
  {
    var sq := Square(Solution(), 0, 2);
    assert sq[0] == 9 && sq[1] == 1 && sq[2] == 2 && sq[3] == 3 && sq[4] == 4 && sq[5] == 8 && sq[6] == 5 && sq[7] == 6 && sq[8] == 7;
    CoversDigits(sq);
  }

  lemma SolutionSquare10()
    ensures CheckSqr(Solution(), 1, 0)
  {
    var sq := Square(Solution(), 1, 0);
    assert sq[0] == 8 && sq[1] == 5 && sq[2] == 9 && sq[3] == 4 && sq[4] == 2 && sq[5] == 6 && sq[6] == 7 && sq[7] == 1 && sq[8] == 3;
    CoversDigits(sq);
  }

  lemma SolutionSquare11()
    ensures CheckSqr(Solution(), 1, 1)
  {
    var sq := Square(Solution(), 1, 1);
    assert sq[0] == 7 && sq[1] == 6 && sq[2] == 1 && sq[3] == 8 && sq[4] == 5 && sq[5] == 3 && sq[6] == 9 && sq[7] == 2 && sq[8] == 4;
    CoversDigits(sq);
  }

  lemma SolutionSquare12()
    ensures CheckSqr(Solution(), 1, 2)
  {
    var sq := Square(Solution(), 1, 2);
    assert sq[0] == 4 && sq[1] == 2 && sq[2] == 3 && sq[3] == 7 && sq[4] == 9 && sq[5] == 1 && sq[6] == 8 && sq[7] == 5 && sq[8] == 6;
    CoversDigits(sq);
  }

  lemma SolutionSquare20()
    ensures CheckSqr(Solution(), 2, 0)
  {
    var sq := Square(Solution(), 2, 0);
    assert sq[0] == 9 && sq[1] == 6 && sq[2] == 1 && sq[3] == 2 && sq[4] == 8 && sq[5] == 7 && sq[6] == 3 && sq[7] == 4 && sq[8] == 5;
    CoversDigits(sq);
  }

  lemma SolutionSquare21()
    ensures CheckSqr(Solution(), 2, 1)
  {
    var sq := Square(Solution(), 2, 1);
    assert sq[0] == 5 && sq[1] == 3 && sq[2] == 7 && sq[3] == 4 && sq[4] == 1 && sq[5] == 9 && sq[6] == 2 && sq[7] == 8 && sq[8] == 6;
    CoversDigits(sq);
  }

  lemma SolutionSquare22()
    ensures CheckSqr(Solution(), 2, 2)
  {
    var sq := Square(Solution(), 2, 2);
    assert sq[0] == 2 && sq[1] == 8 && sq[2] == 4 && sq[3] == 6 && sq[4] == 3 && sq[5] == 5 && sq[6] == 1 && sq[7] == 7 && sq[8] == 9;
    CoversDigits(sq);
  }

  /** The completed grid, written as a board file and read back, wins. */
  lemma SolutionWins()
    ensures Parse(Format(Solution())) == Success(Solution())
    ensures IsSolved(Solution())
  {
    FormatThenParse(Solution());
    SolutionRows();
    SolutionColumns();
    SolutionSquares();
  }

  /** Overwriting the 5 at (0, 0) with a 1 repeats the 1 of row 0: no win. */
  lemma BrokenSolutionLoses()
    ensures IsBoard(Solution()[0 := Solution()[0][0 := 1]])
    ensures !IsSolved(Solution()[0 := Solution()[0][0 := 1]])
  {
    var b := Solution()[0 := Solution()[0][0 := 1]];
    CheckBlockIsPermutation(b[0]);
    assert b[0][0] == b[0][7];
    assert !CheckRow(b, 0);
  }

  /** A board file with its last line missing: the count error. */
  lemma MissingLine(b: Board)
    requires IsBoard(b)
    ensures Parse(Format(b)[..8]) == Failure(LineCount)
  {
    var lines := Format(b)[..8];
    forall i | 0 <= i < 8 ensures RowOk(Strip(lines[i])) {
      FormatLineThenRead(b[i]);
    }
    ParseLinesOk(lines);
  }

  /** A board file with one of its lines repeated at the end: the count error. */
  lemma ExtraLine(b: Board, k: int)
    requires IsBoard(b) && 0 <= k < 9
    ensures Parse(Format(b) + [Format(b)[k]]) == Failure(LineCount)
  {
    var lines := Format(b) + [Format(b)[k]];
    forall i | 0 <= i < 10 ensures RowOk(Strip(lines[i])) {
      var r := if i < 9 then i else k;
      assert lines[i] == FormatLine(b[r]);
      FormatLineThenRead(b[r]);
    }
    ParseLinesOk(lines);
  }

  /** A first line of eight characters: the length error, whatever follows. */
  lemma ShortLine(rest: seq<string>)
    ensures Parse(["53467891"] + rest) == Failure(LineLength)
  {
    var lines := ["53467891"] + rest;
    StripNoSpace("53467891");
    assert |Strip(lines[0])| == 8;
    assert FirstBad(lines, 0);
    ParseLinesFirstBad(lines, 0);
  }

  /** A first line of nine characters with a letter in it: the digit error, whatever follows. */
  lemma LetterInLine(rest: seq<string>)
    ensures Parse(["53467891x"] + rest) == Failure(NotDigit)
  {
    var lines := ["53467891x"] + rest;
    StripNoSpace("53467891x");
    assert !IsDigit(lines[0][8]);
    assert FirstBad(lines, 0);
    ParseLinesFirstBad(lines, 0);
  }
}
