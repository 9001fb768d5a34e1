/**
 * The state the Tk interface (`SudokuUI`) keeps and changes: the selected
 * cell (the cursor) and the one write into the working puzzle. Drawing,
 * focus and the mapping from pixels to cells are not modelled: a click
 * arrives as the (row, column) it landed on.
 */
module Ui {
  import opened Parser
  import opened Rules
  import opened Game

  /** The keys that enter a value: those in `"1234567890"` (0 clears a cell). */
  predicate IsDigitKey(ch: char)
  {
    ch in "1234567890"
  }

  lemma DigitKeyIsDigit(ch: char)
    requires IsDigitKey(ch)
    ensures IsDigit(ch)
  {
  }

  class SudokuUI {
    const game: SudokuGame
    /** The selected cell; (-1, -1) when nothing is selected. */
    var row: int
    var col: int

    /** The cursor is either unset or on the board. */
    predicate CursorOk()
      reads this
    {
      (row == -1 && col == -1) || (0 <= row < 9 && 0 <= col < 9)
    }

    /** The cursor, when set, is on a cell that is open in the starting puzzle. */
    predicate Protected()
      reads this
      requires game.Loaded()
    {
      CursorOk() && (0 <= row ==> game.startPuzzle[row][col] == 0)
    }

    /** A key press now would write into the puzzle. */
    predicate WillEnter(ch: char)
      reads this, game
    {
      !game.gameOver && col >= 0 && row >= 0 && IsDigitKey(ch)
    }

    /** `SudokuUI.__init__`: the cursor starts on cell (0, 0). */
    constructor (game: SudokuGame)
      ensures this.game == game && row == 0 && col == 0 && CursorOk()
    {
      this.game := game;
      row, col := 0, 0;
    }

    /** The corrected start: nothing is selected until a cell is clicked. */
    constructor Deselected(game: SudokuGame)
      requires game.Loaded()
      ensures this.game == game && row == -1 && col == -1 && Protected()
    {
      this.game := game;
      row, col := -1, -1;
    }

    /**
     * `__cell_clicked` for a click on cell (r, c): ignored once the game is
     * over; clicking the selected cell deselects it; another cell is selected
     * only if it is blank in the working puzzle.
     */
    method CellClicked(r: int, c: int)
      requires 0 <= r < 9 && 0 <= c < 9 && game.Valid()
      modifies this
      ensures game.gameOver ==> row == old(row) && col == old(col)
      ensures !game.gameOver && (r, c) == (old(row), old(col)) ==> row == -1 && col == -1
      ensures !game.gameOver && (r, c) != (old(row), old(col)) && game.puzzle[r][c] == 0 ==>
                row == r && col == c
      ensures !game.gameOver && (r, c) != (old(row), old(col)) && game.puzzle[r][c] != 0 ==>
                row == old(row) && col == old(col)
      ensures old(CursorOk()) ==> CursorOk()
      ensures old(Protected()) && game.GivensKept() ==> Protected()
    {
      if game.gameOver {
        return;
      }
      if (r, c) == (row, col) {
        row, col := -1, -1;
      } else if game.puzzle[r][c] == 0 {
        row, col := r, c;
      }
    }

    /**
     * `__key_pressed`: while the game is on, a cursor is set and the key is a
     * digit, the digit goes into the selected cell, the cursor is cleared and
     * the win check runs; otherwise nothing happens.
     */
    method KeyPressed(ch: char)
      requires game.Valid() && CursorOk()
      modifies this, game
      ensures game.Valid() && CursorOk()
      ensures old(WillEnter(ch)) ==>
                && IsDigit(ch)
                && game.puzzle == old(game.puzzle)[old(row) := old(game.puzzle)[old(row)][old(col) := DigitValue(ch)]]
                && row == -1 && col == -1
                && game.gameOver == IsSolved(game.puzzle)
      ensures !old(WillEnter(ch)) ==>
                && game.puzzle == old(game.puzzle) && game.gameOver == old(game.gameOver)
                && row == old(row) && col == old(col)
      ensures forall i, j :: 0 <= i < 9 && 0 <= j < 9 && (i, j) != (old(row), old(col)) ==>
                game.puzzle[i][j] == old(game.puzzle)[i][j]
      ensures old(Protected()) && old(game.GivensKept()) ==> Protected() && game.GivensKept()
    {
      if game.gameOver {
        return;
      }
      if col >= 0 && row >= 0 && IsDigitKey(ch) {
        DigitKeyIsDigit(ch);
        game.puzzle := game.puzzle[row := game.puzzle[row][col := DigitValue(ch)]];
        col, row := -1, -1;
        var won := game.CheckWin();
      }
    }

    /** `__clear_answers`: the game starts over; the cursor stays where it is. */
    method ClearAnswers()
      requires game.Loaded()
      modifies game
      ensures game.Valid() && game.GivensKept()
      ensures game.puzzle == game.startPuzzle && !game.gameOver
      ensures row == old(row) && col == old(col)
    {
      game.Start();
    }
  }

  /** What the player can do: click a cell, press a key, or press "Clear answers". */
  datatype Event = Click(r: int, c: int) | Key(ch: char) | Clear

  predicate OnBoard(e: Event)
  {
    e.Click? ==> 0 <= e.r < 9 && 0 <= e.c < 9
  }

  /**
   * A session that starts with nothing selected: whatever the player does,
   * no given cell of the starting puzzle is ever overwritten.
   */
  method DeselectedSession(game: SudokuGame, events: seq<Event>) returns (ui: SudokuUI)
    requires game.Loaded()
    requires forall n :: 0 <= n < |events| ==> OnBoard(events[n])
    modifies game
    ensures fresh(ui) && ui.game == game
    ensures game.Valid() && game.GivensKept()
  {
    game.Start();
    ui := new SudokuUI.Deselected(game);
    for n := 0 to |events|
      invariant ui.game == game && game.Valid() && game.GivensKept() && ui.Protected()
    {
      match events[n]
      case Click(r, c) => ui.CellClicked(r, c);
      case Key(ch) => ui.KeyPressed(ch);
      case Clear => ui.ClearAnswers();
    }
  }

  /**
   * With the cursor starting on (0, 0), clicking a given cell leaves it there,
   * and the next digit key overwrites the given value 5 at (0, 0).
   */
  method GivenCellOverwritten() returns (given: int, now: int)
    ensures given == 5 && now == 1
  {
    var board := [
      [5, 3, 0, 0, 7, 0, 0, 0, 0],
      [6, 0, 0, 1, 9, 5, 0, 0, 0],
      [0, 9, 8, 0, 0, 0, 0, 6, 0],
      [8, 0, 0, 0, 6, 0, 0, 0, 3],
      [4, 0, 0, 8, 0, 3, 0, 0, 1],
      [7, 0, 0, 0, 2, 0, 0, 0, 6],
      [0, 6, 0, 0, 0, 0, 2, 8, 0],
      [0, 0, 0, 4, 1, 9, 0, 0, 5],
      [0, 0, 0, 0, 8, 0, 0, 7, 9]];
    var game := new SudokuGame(board);
    game.Start();
    var ui := new SudokuUI(game);
    ui.CellClicked(0, 1);
    ui.KeyPressed('1');
    given, now := game.startPuzzle[0][0], game.puzzle[0][0];
  }
}
