/**
 * The game state (`SudokuGame`): the starting puzzle as read from the board
 * file, the working puzzle the player fills in, and the game-over flag.
 */
module Game {
  import opened Parser
  import opened Rules

  class SudokuGame {
    /** The puzzle as loaded; never changed after loading. */
    const startPuzzle: Board
    /** The working puzzle; it exists once `Start` has run. */
    var puzzle: Board
    var gameOver: bool

    /** The starting puzzle is a board. */
    predicate Loaded()
    {
      IsBoard(startPuzzle)
    }

    /** Loaded and started: the working puzzle is a board as well. */
    predicate Valid()
      reads this
    {
      Loaded() && IsBoard(puzzle)
    }

    /** Every given cell (non-zero in the starting puzzle) still holds its value. */
    predicate GivensKept()
      reads this
      requires Valid()
    {
      forall i, j :: 0 <= i < 9 && 0 <= j < 9 && startPuzzle[i][j] != 0 ==> puzzle[i][j] == startPuzzle[i][j]
    }

    /**
     * `SudokuGame.__init__` once the board file is read. The source creates
     * `puzzle` and `game_over` only in `start`; here they begin empty and false.
     */
    constructor (board: Board)
      requires IsBoard(board)
      ensures startPuzzle == board && Loaded()
      ensures puzzle == [] && !gameOver
    {
      startPuzzle := board;
      puzzle := [];
      gameOver := false;
    }

    /** `start`: a fresh cell-by-cell copy of the starting puzzle, and the game is on again. */
    method Start()
      requires Loaded()
      modifies this
      ensures Valid() && GivensKept()
      ensures puzzle == startPuzzle && !gameOver
      ensures forall i, j :: 0 <= i < 9 && 0 <= j < 9 ==> puzzle[i][j] == startPuzzle[i][j]
    {
      gameOver := false;
      puzzle := [];
      for i := 0 to 9
        invariant |puzzle| == i && !gameOver
        invariant forall k :: 0 <= k < i ==> puzzle[k] == startPuzzle[k]
      {
        puzzle := puzzle + [[]];
        for j := 0 to 9
          invariant |puzzle| == i + 1 && !gameOver
          invariant forall k :: 0 <= k < i ==> puzzle[k] == startPuzzle[k]
          invariant puzzle[i] == startPuzzle[i][..j]
        {
          puzzle := puzzle[i := puzzle[i] + [startPuzzle[i][j]]];
        }
        assert startPuzzle[i][..9] == startPuzzle[i];
      }
    }

    /**
     * `check_win`: rows, then columns, then squares, leaving at the first
     * block that fails; only a full pass sets the game-over flag.
     */
    method CheckWin() returns (won: bool)
      requires Valid()
      modifies this`gameOver
      ensures won == IsSolved(puzzle)
      ensures gameOver == (old(gameOver) || won)
    {
      var b := puzzle;
      for row := 0 to 9
        invariant gameOver == old(gameOver)
        invariant forall r :: 0 <= r < row ==> CheckRow(b, r)
      {
        if !CheckRow(b, row) {
          assert !IsSolved(b);
          return false;
        }
      }
      assert RowsPass(b);
      for column := 0 to 9
        invariant gameOver == old(gameOver)
        invariant forall c :: 0 <= c < column ==> CheckCol(b, c)
      {
        if !CheckCol(b, column) {
          assert !IsSolved(b);
          return false;
        }
      }
      assert ColsPass(b);
      for row := 0 to 3
        invariant gameOver == old(gameOver)
        invariant forall sr, sc :: 0 <= sr < row && 0 <= sc < 3 ==> CheckSqr(b, sr, sc)
      {
        for column := 0 to 3
          invariant gameOver == old(gameOver)
          invariant forall sr, sc :: 0 <= sr < row && 0 <= sc < 3 ==> CheckSqr(b, sr, sc)
          invariant forall sc :: 0 <= sc < column ==> CheckSqr(b, row, sc)
        {
          if !CheckSqr(b, row, column) {
            assert !IsSolved(b);
            return false;
          }
        }
      }
      assert SquaresPass(b);
      assert IsSolved(b);
      gameOver := true;
      return true;
    }
  }

  /** Reading the board file and creating the game; a read error stops it. */
  method NewGame(boardFile: seq<string>) returns (r: Result<SudokuGame, SudokuError>)
    ensures r.Failure? <==> Parse(boardFile).Failure?
    ensures r.Failure? ==> r.error == Parse(boardFile).error
    ensures r.Success? ==> fresh(r.value) && r.value.Loaded()
    ensures r.Success? ==> r.value.startPuzzle == Parse(boardFile).value
    ensures r.Success? ==> r.value.puzzle == [] && !r.value.gameOver
  {
    var board := CreateBoard(boardFile);
    match board
    case Failure(e) =>
      return Failure(e);
    case Success(b) =>
      ParseSuccess(boardFile);
      var game := new SudokuGame(b);
      return Success(game);
  }

  /** Two calls of `check_win` in a row give the same answer. */
  method CheckWinTwice(game: SudokuGame) returns (first: bool, second: bool)
    requires game.Valid()
    modifies game`gameOver
    ensures first == second == IsSolved(game.puzzle)
    ensures game.gameOver == (old(game.gameOver) || first)
  {
    first := game.CheckWin();
    second := game.CheckWin();
  }

  /** Two calls of `start` in a row leave the state of one call. */
  method StartTwice(game: SudokuGame)
    requires game.Loaded()
    modifies game
    ensures game.puzzle == game.startPuzzle && !game.gameOver
  {
    game.Start();
    ghost var once := game.puzzle;
    game.Start();
    assert game.puzzle == once;
  }
}
