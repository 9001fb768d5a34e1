# Sudoku game state, modelled in Dafny

This is a model of the non-drawing logic of the Tk Sudoku game in
`sudoku_py/sudoku.py`, with proofs about it. It has four parts.

- **The board-file reader** (`SudokuBoard.__create_board`), in `parser.dfy`.
  - The input is a sequence of lines. Each line is stripped of surrounding whitespace.
  - A stripped line must be exactly nine characters long, and every character must be a digit '0'..'9'. The 0 digit is a blank cell.
  - There must be exactly nine lines.
  - The checks run in reading order, so the first violation decides the error: `LineLength`, `NotDigit` or `LineCount` (the count is checked last).
  - The reader is there twice:
    - `Parse` is a specification function;
    - `CreateBoard` uses the source's nested loops with early exits and is proved equal to `Parse`.
  - `Format` writes a board back as nine lines of digits. It exists for the round-trip lemmas.
- **The game state** (`SudokuGame`), in `game.dfy`, with rules in `rules.dfy`.
  - The starting puzzle is a constant. The working puzzle and the game-over flag are fields.
  - `Start` rebuilds the working puzzle cell by cell.
  - `CheckWin` tests the 9 rows, the 9 columns and the 9 squares against {1..9}. It leaves at the first block that fails, and only a full pass sets the game-over flag.
  - The column and square helpers use the intended indexing:
    - column `c` is `puzzle[r][c]` for `r` in 0..8;
    - square `(R, C)` covers rows `3R..3R+2` and columns `3C..3C+2`, row by row.
  - The pure helpers are the predicates `Rules.CheckBlock`, `Rules.CheckRow`, `Rules.CheckCol` and `Rules.CheckSqr`. `Rules.IsSolved` is what `check_win` answers.
- **The selection and entry rules of the interface** (`SudokuUI.__cell_clicked`, `__key_pressed`, `__clear_answers`), in `ui.dfy`.
  - This covers the cursor `(row, col)`, the one write into the working puzzle, and the win check that follows the write.
- **Worked examples** in `scenarios.dfy`: a completed grid that is read back and wins, a one-cell change that loses, and board files that are rejected.

The source has three faults in `check_win`. The code calls `__check_column` and `__check_square` (lines 273 and 277), but the helpers are defined as `__check_col` and `__check_sqr` (lines 288 and 291). The helpers also use names that do not exist at that point: `column` at line 289, and `row` and `col` at lines 295-296. And `__check_sqr` is declared at line 291 with one parameter, `sqr`, which it never uses, while the call at line 277 passes two arguments (the square's row and column). As written, then, `check_win` fails with an error as soon as every row passes. The model uses the indexing those helpers evidently mean. `Rules.CheckSqr` takes the two square coordinates, following the call at line 277 rather than the definition at line 291.

`strip()` at line 215 removes whitespace at both ends of a line. `SudokuGame` has no method that takes a cell's (row, col); the only write to a cell is the assignment at line 167, in `__key_pressed`. The given/entered distinction only picks a colour in `__draw_puzzle` (lines 104-105). `Game.SudokuGame.GivensKept` states that distinction as an invariant. It holds over any sequence of events only from a start with nothing selected (`Ui.DeselectedSession`); the start as written, with the cursor on (0, 0), breaks it (`Ui.GivenCellOverwritten`, under "## Findings").

## Model

| member | source | states |
|---|---|---|
| Parser.Message | sudoku_py/sudoku.py:218-240 | the text raised with each error (lines 220-222, 231-233 and 240): the length error, the digit error and the line-count error, word for word |
| Parser.IsDigit | sudoku_py/sudoku.py:230 | `charac.isdigit()` holds for '0'..'9' only: one byte of a Python 2 string |
| Parser.DigitValue | sudoku_py/sudoku.py:236 | `int(charac)` of a digit character is a cell value in 0..9 |
| Parser.IsSpace | sudoku_py/sudoku.py:215 | the characters `strip()` removes from a Python 2 byte string: space, tab, newline, CR, VT and FF |
| Parser.StripLeft | sudoku_py/sudoku.py:215 | drops the leading run of whitespace (space, tab, newline, CR, VT, FF), the first half of `strip()`; its properties are in `Parser.StripLeftSpec` |
| Parser.StripRight | sudoku_py/sudoku.py:215 | drops the trailing run of whitespace, the second half of `strip()`; its properties are in `Parser.StripRightSpec` |
| Parser.Strip | sudoku_py/sudoku.py:215 | `line.strip()`: leading, then trailing whitespace dropped. `Parser.StripSpec` and `Parser.StripUnique` pin it down |
| Parser.StripLeftSpec | sudoku_py/sudoku.py:215 | the result is a suffix of the line, everything dropped is whitespace, and it does not start with whitespace |
| Parser.StripRightSpec | sudoku_py/sudoku.py:215 | the result is a prefix of the line, everything dropped is whitespace, and it does not end with whitespace |
| Parser.StripSpec | sudoku_py/sudoku.py:215 | `line.strip()` is an infix of the line with only whitespace around it, and it neither starts nor ends with whitespace |
| Parser.StripUnique | sudoku_py/sudoku.py:215 | any infix of the line with only whitespace around it and no whitespace at its ends is `line.strip()`, so those properties determine the result |
| Parser.StripNoSpace | sudoku_py/sudoku.py:215 | stripping a line that holds no whitespace leaves it unchanged |
| Parser.Parse | sudoku_py/sudoku.py:209-243 | the reader specification that `CreateBoard` is proved equal to: every line in order (strip, then the length check, then the digit check), then the line count. Its own contract: a board that is read came from exactly 9 lines and is 9x9 with values in 0..9. `ParseOutcome` gives every outcome |
| Parser.ParseLinesShape | sudoku_py/sudoku.py:214-236 | reading that succeeds gives one row per line, each of nine values in 0..9 |
| Parser.CreateBoard | sudoku_py/sudoku.py:209-243 | the looping reader with early raises returns exactly what the reader specification `Parse` returns, on every input |
| Parser.ParseLinesPrefixFailure | sudoku_py/sudoku.py:214-236 | once some line has failed, the lines after it do not change the error |
| Parser.ParseLinesOk | sudoku_py/sudoku.py:214-236 | when every stripped line is nine digits, reading succeeds with one row per line, and row i is the digit values of stripped line i |
| Parser.ParseLinesFirstBad | sudoku_py/sudoku.py:214-236 | the first failing line decides the error: the length error if its stripped length is not 9, otherwise the digit error |
| Parser.FindFirstBad | sudoku_py/sudoku.py:214 | if some line fails a per-line check, there is a first such line in reading order |
| Parser.ParseOutcome | sudoku_py/sudoku.py:214-240 | each outcome holds if and only if its condition holds. Success: every line passes and there are 9 lines. Count error: every line passes but there are not 9 lines. Length error: the first failing line has the wrong length. Digit error: the first failing line is 9 long but holds a non-digit |
| Parser.ParseSuccess | sudoku_py/sudoku.py:209-243 | a board that is read has 9 rows of 9 values in 0..9, the file had 9 lines, and cell (i, j) is the value of character j of stripped line i |
| Parser.FormatThenParse | sudoku_py/sudoku.py:209-243 | every 9x9 board of values in 0..9, written as nine digit lines, is read back as itself |
| Parser.ParseThenFormat | sudoku_py/sudoku.py:209-243 | a board that is read, written back, gives exactly the stripped lines it came from |
| Rules.SetOf | sudoku_py/sudoku.py:283 | `set(block)`: the values that occur in the block, with order and repeats forgotten; `Rules.SetOfCard` bounds its size |
| Rules.Digits | sudoku_py/sudoku.py:283 | `set(range(1, 10))`: the values 1 to 9 |
| Rules.CheckBlock | sudoku_py/sudoku.py:282-283 | `__check_block`: `set(block) == set(range(1, 10))`. `Rules.BlockMembers` and `Rules.CheckBlockIsPermutation` state what passing means |
| Rules.BlockMembers | sudoku_py/sudoku.py:283 | a block passes exactly when every value in it is one of 1..9 and each of 1..9 occurs in it |
| Rules.CheckRow | sudoku_py/sudoku.py:285-286 | `__check_row`: the block test on row r of the working puzzle; `Rules.RowIsPermutation` states it cell by cell |
| Rules.RowIsPermutation | sudoku_py/sudoku.py:285-286 | row r passes exactly when its nine cells are in 1..9 and pairwise different |
| Rules.Column | sudoku_py/sudoku.py:289 | the comprehension at line 289 with the intended index: nine values, the r-th of which is `puzzle[r][c]`. The source writes the undefined `column` where `col` is meant |
| Rules.CheckCol | sudoku_py/sudoku.py:288-289 | `__check_col`: the block test on the intended column, the cells `puzzle[r][c]` for r in 0..8. The source uses the undefined name `column` where the parameter `col` is meant. `Rules.ColumnIsPermutation` states it cell by cell |
| Rules.ColumnIsPermutation | sudoku_py/sudoku.py:288-289 | column c passes exactly when its cells `puzzle[r][c]`, r in 0..8, are in 1..9 and pairwise different |
| Rules.CheckSqr | sudoku_py/sudoku.py:291-298 | `__check_sqr`: the block test on `Rules.Square`, the intended square (R, C), whose cells are rows 3R..3R+2 and columns 3C..3C+2, listed row by row. The source uses the undefined names `row` and `col` where the square's coordinates are meant. `Rules.SquareIsPermutation` states it cell by cell |
| Rules.SquareIsPermutation | sudoku_py/sudoku.py:291-298 | square (R, C) passes exactly when all the cells (i, j) with i / 3 = R and j / 3 = C are in 1..9 and pairwise different |
| Rules.IsSolved | sudoku_py/sudoku.py:268-280 | the answer of `check_win`: all 9 rows, then all 9 columns, then all 9 squares pass. `Rules.SolvedIffRules` states what it means |
| Rules.SquareIsRowSlices | sudoku_py/sudoku.py:294-296 | a square lists its cells in the comprehension's order: the three cells of its top row, then the middle row, then the bottom row |
| Rules.SetOfCard | sudoku_py/sudoku.py:283 | `set(block)` has at most as many elements as the block, and exactly as many if and only if no value repeats |
| Rules.CheckBlockIsPermutation | sudoku_py/sudoku.py:282-283 | a block of nine passes `__check_block` if and only if its values are all in 1..9 and pairwise distinct, so it is a permutation of 1..9 |
| Rules.BlankBlockFails | sudoku_py/sudoku.py:283 | a block holding a 0 never passes |
| Rules.SolvedIffRules | sudoku_py/sudoku.py:268-298 | the win predicate holds if and only if every cell is in 1..9 and any two different cells that share a row, a column or a square hold different values |
| Rules.BlankBoardUnsolved | sudoku_py/sudoku.py:269-271 | a board with any blank cell is not a win |
| Game.SudokuGame.constructor | sudoku_py/sudoku.py:252-255 | the starting puzzle is the board that was read; no working puzzle exists yet and the game is not over |
| Game.SudokuGame.Start | sudoku_py/sudoku.py:257-266 | the working puzzle becomes a cell-by-cell copy of the starting puzzle, the game-over flag is cleared, and every given cell holds its given value |
| Game.SudokuGame.CheckWin | sudoku_py/sudoku.py:268-280 | the answer is true if and only if all rows, columns and squares pass. The flag is set on true and left unchanged on false. Only the flag may change; the puzzle is untouched |
| Game.NewGame | sudoku_py/sudoku.py:252-255 | creating a game fails exactly when reading the board file fails, with the same error; otherwise the game's starting puzzle is the board that was read |
| Game.CheckWinTwice | sudoku_py/sudoku.py:268-280 | two checks in a row give the same answer, the win predicate of the unchanged puzzle |
| Game.StartTwice | sudoku_py/sudoku.py:257-266 | two calls of start leave the state of one: the copy of the starting puzzle, game not over |
| Ui.IsDigitKey | sudoku_py/sudoku.py:165 | `event.char in "1234567890"` for a one-character key: the key is one of the ten digits |
| Ui.DigitKeyIsDigit | sudoku_py/sudoku.py:165-167 | a key in "1234567890" is a digit, so `int(event.char)` is defined |
| Ui.SudokuUI.constructor | sudoku_py/sudoku.py:42-48 | the cursor starts on cell (0, 0) |
| Ui.SudokuUI.CellClicked | sudoku_py/sudoku.py:117-135 | while the game is over, nothing changes. Clicking the selected cell deselects it to (-1, -1). Clicking another cell selects it when it is blank in the working puzzle, and otherwise changes nothing. A cursor that was unset or on the board stays so |
| Ui.SudokuUI.KeyPressed | sudoku_py/sudoku.py:158-180 | while the game is on, with a cursor set and a digit key, exactly the selected cell takes the digit's value, the cursor becomes (-1, -1) and the game-over flag becomes the win predicate of the new puzzle. In every other case nothing changes. No other cell ever changes |
| Ui.SudokuUI.ClearAnswers | sudoku_py/sudoku.py:111-114 | the game restarts from the starting puzzle, and the cursor stays where it was |
| Ui.SudokuUI.Deselected | sudoku_py/sudoku.py:48 | corrected start: nothing is selected, so the cursor is never on a given cell |
| Ui.DeselectedSession | sudoku_py/sudoku.py:117-180 | starting deselected, any sequence of clicks, digit keys and restarts keeps every given cell of the starting puzzle |
| Ui.GivenCellOverwritten | sudoku_py/sudoku.py:48 | as written, for the puzzle with a given 5 at (0, 0): a click on a given cell leaves the cursor on (0, 0), and the key '1' then overwrites the 5 |
| Scenarios.SolutionWins | sudoku_py/sudoku.py:268-280 | the sample grid, written as a board file, is read back as itself and is a win |
| Scenarios.BrokenSolutionLoses | sudoku_py/sudoku.py:269-271 | the same grid with 1 written over the 5 at (0, 0) is not a win: row 0 repeats the 1 |
| Scenarios.MissingLine | sudoku_py/sudoku.py:239-240 | a board file of eight good lines gives the count error |
| Scenarios.ExtraLine | sudoku_py/sudoku.py:239-240 | a board file of ten good lines gives the count error |
| Scenarios.ShortLine | sudoku_py/sudoku.py:218-222 | a first line of eight characters gives the length error, whatever follows |
| Scenarios.LetterInLine | sudoku_py/sudoku.py:228-233 | a first line of nine characters with a letter in it gives the digit error, whatever follows |

## Left out

- Drawing and widgets are not modelled: `__initUI`, `__draw_grid`, `__draw_puzzle`, `__draw_cursor` and `__draw_victory`, along with the canvas tags and focus. They change no game state. `__draw_victory` is also declared without `self` at line 183, so calling it after a win would raise. `game_over` is already set by then, so the modelled state is unaffected.
- The mapping from click pixels to cells (lines 122-129) is not modelled. `Ui.SudokuUI.CellClicked` takes the resolved (row, column), which is in 0..8 for clicks inside the grid. Clicks in the margin are not modelled. Those give -1 or 9, and Python would index from the end or raise.
- `parse_arguments`, the `BOARDS` list, opening the file and the main loop (lines 16-35 and 301-319) are not modelled. The reader's input is the sequence of lines already read from the file.
- Each character of a board-file line stands for one byte of the file. The source, in Python 2, reads bytes, so `len(line)` at line 218 counts bytes. A line such as `12345678é` in UTF-8 is ten bytes and gets the length error. In the model, `é` would be one character, giving the digit error. Multi-byte characters are not modelled.
- Errors carry only their kind. `Parser.Message` gives the text the source raises; a Python exception is not modelled.
- The calls to the misnamed helpers and the undefined names in `check_win`'s helpers are not modelled, so the AttributeError and NameError they produce are not either. Nor is the TypeError from the arity mismatch: `__check_sqr` takes one argument (line 291) but is called with two (line 277). The intended column and square indexing is modelled instead, as described above, and `Rules.CheckSqr` follows the two-argument call.
- A key is a single character. `"" in "1234567890"` is true in Python, so an empty `event.char` would make `int("")` raise. Unicode `isdigit` is not modelled either; a digit is '0'..'9'.
- `SudokuGame.__init__` does not create `puzzle` or `game_over`; `start` creates them. Here the constructor sets them to an empty puzzle and `false`, and every operation on the working puzzle requires `Start` to have run (`Valid`).
- The in-place `list.append` in `__create_board` and `start` is modelled as sequence concatenation on a local or a field, not as Python list objects that could be aliased.

## Findings

| source | as written | input that shows it | evidently intended | confidence | as-written member | corrected member |
|---|---|---|---|---|---|---|
| sudoku_py/sudoku.py:48 | the cursor starts on (0, 0) without checking the board, and a click on a given cell leaves it there | a puzzle with a given 5 at (0, 0): start, click the given cell (0, 1), press '1'; cell (0, 0) now holds 1 | nothing is selected at start, so only a blank cell is ever written and the givens are never overwritten | not executed; medium | Ui.GivenCellOverwritten | Ui.SudokuUI.Deselected, Ui.DeselectedSession |
