/**
 * The board-file reader of the Sudoku game (`SudokuBoard.__create_board`).
 *
 * A board file is a sequence of text lines. Every line is stripped of
 * surrounding whitespace and must then hold exactly nine digit characters;
 * digit '0' is a blank cell, '1' to '9' a given value. There must be exactly
 * nine lines. The first violation, in reading order, decides the error.
 */
module Parser {

  datatype Result<+T, +E> = Success(value: T) | Failure(error: E)

  /** The three ways a board file can be rejected (all raised as `SudokuError`). */
  datatype SudokuError = LineLength | NotDigit | LineCount

  /** The text the source attaches to each error. */
  function Message(e: SudokuError): string
  {
    match e
    case LineLength => "Each line in the sudoku puzzle must be 9 chars long"
    case NotDigit => "Each set of characters in the sudoku puzzle must be within 0-9"
    case LineCount => "Error: length of board must be 9"
  }

  /** A matrix of cell values; 0 is a blank cell. */
  type Board = seq<seq<int>>

  /** Nine rows of nine values, each value in 0..9. */
  predicate IsBoard(b: Board)
  {
    |b| == 9 && forall i :: 0 <= i < 9 ==> |b[i]| == 9 && forall j :: 0 <= j < 9 ==> 0 <= b[i][j] <= 9
  }

  // ---------------------------------------------------------------------------
  // Characters

  /**
   * The characters `strip()` removes from a Python 2 byte string: space, tab,
   * newline, CR, VT, FF. Each character of a line stands for one byte of the file.
   */
  predicate IsSpace(c: char)
  {
    c == ' ' || c == '\t' || c == '\n' || c == '\r' || c == '\U{000B}' || c == '\U{000C}'
  }

  /** `isdigit()` on one byte of the line. */
  predicate IsDigit(c: char)
  {
    '0' <= c <= '9'
  }

  /** `int(c)` for a digit character. */
  function DigitValue(c: char): (v: int)
    requires IsDigit(c)
    ensures 0 <= v <= 9
  {
    c as int - '0' as int
  }

  /** The digit character of a cell value; the inverse of DigitValue. */
  function DigitChar(v: int): (c: char)
    requires 0 <= v <= 9
    ensures IsDigit(c) && DigitValue(c) == v
  {
    ('0' as int + v) as char
  }

  lemma DigitCharValue(c: char)
    requires IsDigit(c)
    ensures DigitChar(DigitValue(c)) == c
  {
  }

  // ---------------------------------------------------------------------------
  // Stripping

  /** Drops the leading whitespace. */
  function StripLeft(s: string): string
    decreases |s|
  {
    if s != [] && IsSpace(s[0]) then StripLeft(s[1..]) else s
  }

  /** Drops the trailing whitespace. */
  function StripRight(s: string): string
    decreases |s|
  {
    if s != [] && IsSpace(s[|s| - 1]) then StripRight(s[..|s| - 1]) else s
  }

  /** `line.strip()`: leading, then trailing whitespace dropped. */
  function Strip(s: string): string
  {
    StripRight(StripLeft(s))
  }

  /** A suffix of `s` that only whitespace precedes and that does not start with whitespace. */
  lemma {:induction false} StripLeftSpec(s: string)
    ensures |StripLeft(s)| <= |s| && StripLeft(s) == s[|s| - |StripLeft(s)|..]
    ensures forall k :: 0 <= k < |s| - |StripLeft(s)| ==> IsSpace(s[k])
    ensures StripLeft(s) == [] || !IsSpace(StripLeft(s)[0])
    decreases |s|
  {
    if s != [] && IsSpace(s[0]) {
      StripLeftSpec(s[1..]);
      forall k | 1 <= k < |s| - |StripLeft(s)| ensures IsSpace(s[k]) {
        assert s[k] == s[1..][k - 1];
      }
    }
  }

  /** A prefix of `s` that only whitespace follows and that does not end with whitespace. */
  lemma {:induction false} StripRightSpec(s: string)
    ensures |StripRight(s)| <= |s| && StripRight(s) == s[..|StripRight(s)|]
    ensures forall k :: |StripRight(s)| <= k < |s| ==> IsSpace(s[k])
    ensures StripRight(s) == [] || !IsSpace(StripRight(s)[|StripRight(s)| - 1])
    decreases |s|
  {
    if s != [] && IsSpace(s[|s| - 1]) {
      var t := s[..|s| - 1];
      StripRightSpec(t);
      forall k | |StripRight(s)| <= k < |s| - 1 ensures IsSpace(s[k]) {
        assert s[k] == t[k];
      }
      assert t[..|StripRight(t)|] == s[..|StripRight(t)|];
    }
  }

  /** No whitespace at either end of `r`. */
  predicate Trimmed(r: string)
  {
    r == [] || (!IsSpace(r[0]) && !IsSpace(r[|r| - 1]))
  }

  /** `r` occurs in `s` at `i`, with only whitespace around it. */
  ghost predicate StrippedAt(s: string, r: string, i: int)
  {
    && 0 <= i <= i + |r| <= |s|
    && r == s[i..i + |r|]
    && (forall k :: 0 <= k < i ==> IsSpace(s[k]))
    && (forall k :: i + |r| <= k < |s| ==> IsSpace(s[k]))
  }

  /**
   * `line.strip()` is an infix of the line with only whitespace around it and
   * none at its ends.
   */
  lemma StripSpec(s: string)
    ensures Trimmed(Strip(s))
    ensures exists i :: StrippedAt(s, Strip(s), i)
  {
    var left := StripLeft(s);
    StripLeftSpec(s);
    StripRightSpec(left);
    var r := Strip(s);
    var i := |s| - |left|;
    assert r == s[i..i + |r|];
    assert StrippedAt(s, r, i);
  }

  /** Any infix with only whitespace around it and none at its ends is `line.strip()`. */
  lemma StripUnique(s: string, r: string, i: int)
    requires StrippedAt(s, r, i) && Trimmed(r)
    ensures r == Strip(s)
  {
    StripSpec(s);
    var t := Strip(s);
    var j :| StrippedAt(s, t, j);
    assert r != [] ==> s[i] == r[0] && s[i + |r| - 1] == r[|r| - 1];
    assert t != [] ==> s[j] == t[0] && s[j + |t| - 1] == t[|t| - 1];
    assert r != [] && t != [] ==> i == j && |r| == |t|;
  }

  /** A line with no whitespace in it is its own stripped form. */
  lemma StripNoSpace(s: string)
    requires forall k :: 0 <= k < |s| ==> !IsSpace(s[k])
    ensures Strip(s) == s
  {
    assert StripLeft(s) == s;
  }

  // ---------------------------------------------------------------------------
  // The parser as a specification function

  predicate AllDigits(s: string)
  {
    forall k :: 0 <= k < |s| ==> IsDigit(s[k])
  }

  /** A stripped line that passes both per-line checks. */
  predicate RowOk(s: string)
  {
    |s| == 9 && AllDigits(s)
  }

  /** The digit values of a line of digits, in character order. */
  function DigitsOf(s: string): (row: seq<int>)
    requires AllDigits(s)
    ensures |row| == |s|
  {
    seq(|s|, k requires 0 <= k < |s| => DigitValue(s[k]))
  }

  /** One stripped line: the length check first, then the digit check. */
  function ParseRow(line: string): Result<seq<int>, SudokuError>
  {
    if |line| != 9 then Failure(LineLength)
    else if !AllDigits(line) then Failure(NotDigit)
    else Success(DigitsOf(line))
  }

  /** All lines in order, stopping at the first line that fails; no count check yet. */
  function ParseLines(lines: seq<string>): Result<Board, SudokuError>
    decreases |lines|
  {
    if lines == [] then Success([])
    else
      match ParseLines(lines[..|lines| - 1])
      case Failure(e) => Failure(e)
      case Success(b) =>
        match ParseRow(Strip(lines[|lines| - 1]))
        case Failure(e) => Failure(e)
        case Success(row) => Success(b + [row])
  }

  /** The whole reader: every line, then the line count. */
  function Parse(lines: seq<string>): (r: Result<Board, SudokuError>)
    ensures r.Success? ==> |lines| == 9 && IsBoard(r.value)
  {
    ParseLinesShape(lines);
    match ParseLines(lines)
    case Failure(e) => Failure(e)
    case Success(b) => if |b| != 9 then Failure(LineCount) else Success(b)
  }

  /** Reading that succeeds gives one row of nine values in 0..9 per line. */
  lemma {:induction false} ParseLinesShape(lines: seq<string>)
    ensures ParseLines(lines).Success? ==> |ParseLines(lines).value| == |lines|
    ensures ParseLines(lines).Success? ==> forall i :: 0 <= i < |lines| ==>
              |ParseLines(lines).value[i]| == 9 &&
              forall j :: 0 <= j < 9 ==> 0 <= ParseLines(lines).value[i][j] <= 9
    decreases |lines|
  {
    if lines != [] {
      var prefix := lines[..|lines| - 1];
      ParseLinesShape(prefix);
      if ParseLines(lines).Success? {
        var b := ParseLines(prefix).value;
        var last := Strip(lines[|lines| - 1]);
        assert ParseRow(last).Success?;
        assert ParseLines(lines).value == b + [DigitsOf(last)];
      }
    }
  }

  // ---------------------------------------------------------------------------
  // The reader as the source writes it: nested loops with early raises

  /** `SudokuBoard.__create_board`, over lines already read from the file. */
  method CreateBoard(boardFile: seq<string>) returns (r: Result<Board, SudokuError>)
    ensures r == Parse(boardFile)
  {
    var board: Board := [];
    for i := 0 to |boardFile|
      invariant ParseLines(boardFile[..i]) == Success(board)
    {
      assert boardFile[..i + 1][..i] == boardFile[..i];
      var line := Strip(boardFile[i]);
      if |line| != 9 {
        assert ParseLines(boardFile[..i + 1]) == Failure(LineLength);
        ParseLinesPrefixFailure(boardFile, i + 1);
        assert Parse(boardFile) == Failure(LineLength);
        return Failure(LineLength);
      }
      // the source appends an empty row to `board` and then fills it in
      var row: seq<int> := [];
      for k := 0 to |line|
        invariant |row| == k
        invariant forall j :: 0 <= j < k ==> IsDigit(line[j]) && row[j] == DigitValue(line[j])
      {
        if !IsDigit(line[k]) {
          assert ParseRow(line) == Failure(NotDigit);
          assert ParseLines(boardFile[..i + 1]) == Failure(NotDigit);
          ParseLinesPrefixFailure(boardFile, i + 1);
          assert Parse(boardFile) == Failure(NotDigit);
          return Failure(NotDigit);
        }
        row := row + [DigitValue(line[k])];
      }
      assert row == DigitsOf(line);
      board := board + [row];
    }
    assert boardFile[..|boardFile|] == boardFile;
    assert ParseLines(boardFile) == Success(board);
    if |board| != 9 {
      assert Parse(boardFile) == Failure(LineCount);
      return Failure(LineCount);
    }
    assert Parse(boardFile) == Success(board);
    return Success(board);
  }

  // ---------------------------------------------------------------------------
  // What the reader accepts and how it fails

  /** Every line is nine digits once stripped. */
  ghost predicate AllRowsOk(lines: seq<string>)
  {
    forall i :: 0 <= i < |lines| ==> RowOk(Strip(lines[i]))
  }

  /** Line `i` is the first line, in reading order, that fails a per-line check. */
  ghost predicate FirstBad(lines: seq<string>, i: int)
  {
    0 <= i < |lines| && !RowOk(Strip(lines[i])) && forall j :: 0 <= j < i ==> RowOk(Strip(lines[j]))
  }

  /** A failure while reading the first `n` lines is the failure of the whole file. */
  lemma {:induction false} ParseLinesPrefixFailure(lines: seq<string>, n: nat)
    requires n <= |lines| && ParseLines(lines[..n]).Failure?
    ensures ParseLines(lines) == ParseLines(lines[..n])
    decreases |lines| - n
  {
    if n < |lines| {
      var m := |lines| - 1;
      var prefix := lines[..m];
      assert prefix[..n] == lines[..n];
      ParseLinesPrefixFailure(prefix, n);
      assert ParseLines(prefix) == ParseLines(lines[..n]);
      assert ParseLines(lines) == ParseLines(prefix) by {
        assert lines[..|lines| - 1] == prefix;
      }
    } else {
      assert lines[..n] == lines;
    }
  }

  /** When every line passes, row `i` of the result is the digits of stripped line `i`. */
  lemma {:induction false} ParseLinesOk(lines: seq<string>)
    requires AllRowsOk(lines)
    ensures ParseLines(lines).Success?
    ensures |ParseLines(lines).value| == |lines|
    ensures forall i :: 0 <= i < |lines| ==> ParseLines(lines).value[i] == DigitsOf(Strip(lines[i]))
    decreases |lines|
  {
    if lines != [] {
      var m := |lines| - 1;
      var prefix := lines[..m];
      assert AllRowsOk(prefix) by {
        forall i | 0 <= i < m ensures RowOk(Strip(prefix[i])) {
          assert prefix[i] == lines[i];
        }
      }
      ParseLinesOk(prefix);
      var last := Strip(lines[m]);
      assert RowOk(last);
      assert ParseRow(last) == Success(DigitsOf(last));
      var b := ParseLines(prefix).value;
      assert ParseLines(lines) == Success(b + [DigitsOf(last)]);
      forall i | 0 <= i < |lines|
        ensures (b + [DigitsOf(last)])[i] == DigitsOf(Strip(lines[i]))
      {
        if i < m {
          assert prefix[i] == lines[i];
        }
      }
    }
  }

  /** The first failing line decides the error: length before digits. */
  lemma {:induction false} ParseLinesFirstBad(lines: seq<string>, i: int)
    requires FirstBad(lines, i)
    ensures ParseLines(lines) == Failure(if |Strip(lines[i])| != 9 then LineLength else NotDigit)
    decreases |lines|
  {
    var m := |lines| - 1;
    var prefix := lines[..m];
    if i == m {
      assert AllRowsOk(prefix) by {
        forall k | 0 <= k < m ensures RowOk(Strip(prefix[k])) {
          assert prefix[k] == lines[k];
        }
      }
      ParseLinesOk(prefix);
    } else {
      assert FirstBad(prefix, i) by {
        assert prefix[i] == lines[i];
        forall k | 0 <= k < i ensures RowOk(Strip(prefix[k])) {
          assert prefix[k] == lines[k];
        }
      }
      ParseLinesFirstBad(prefix, i);
    }
  }

  /** Some line fails a per-line check, so there is a first one. */
  lemma {:induction false} FindFirstBad(lines: seq<string>) returns (i: int)
    requires !AllRowsOk(lines)
    ensures FirstBad(lines, i)
    decreases |lines|
  {
    var m := |lines| - 1;
    assert forall k :: 0 <= k < m ==> lines[..m][k] == lines[k];
    if AllRowsOk(lines[..m]) {
      i := m;
    } else {
      i := FindFirstBad(lines[..m]);
    }
  }

  /** There is only one first failing line. */
  lemma FirstBadUnique(lines: seq<string>, i: int, i': int)
    requires FirstBad(lines, i) && FirstBad(lines, i')
    ensures i == i'
  {
  }

  /**
   * The outcome of the reader, case by case: the first line (in order) that
   * is not nine characters long once stripped gives the length error; failing
   * that, a non-digit gives the digit error; the count error comes only when
   * every line passed; otherwise the file is read.
   */
  lemma ParseOutcome(lines: seq<string>)
    ensures Parse(lines).Success? <==> AllRowsOk(lines) && |lines| == 9
    ensures Parse(lines) == Failure(LineCount) <==> AllRowsOk(lines) && |lines| != 9
    ensures Parse(lines) == Failure(LineLength) <==>
              exists i :: FirstBad(lines, i) && |Strip(lines[i])| != 9
    ensures Parse(lines) == Failure(NotDigit) <==>
              exists i :: FirstBad(lines, i) && |Strip(lines[i])| == 9
  {
    if AllRowsOk(lines) {
      ParseLinesOk(lines);
    } else {
      var i := FindFirstBad(lines);
      ParseLinesFirstBad(lines, i);
      forall i' | FirstBad(lines, i') ensures i' == i {
        FirstBadUnique(lines, i, i');
      }
    }
  }

  /**
   * A board that is read has nine rows of nine values in 0..9, and cell (i, j)
   * is the value of character j of stripped line i.
   */
  lemma ParseSuccess(lines: seq<string>)
    requires Parse(lines).Success?
    ensures IsBoard(Parse(lines).value)
    ensures |lines| == 9
    ensures forall i, j :: 0 <= i < 9 && 0 <= j < 9 ==>
              |Strip(lines[i])| == 9 && IsDigit(Strip(lines[i])[j]) &&
              Parse(lines).value[i][j] == DigitValue(Strip(lines[i])[j])
  {
    ParseOutcome(lines);
    ParseLinesOk(lines);
  }

  // ---------------------------------------------------------------------------
  // Writing a board back as a board file

  /** The nine lines of nine digits that stand for a board. */
  function Format(b: Board): (lines: seq<string>)
    requires IsBoard(b)
    ensures |lines| == 9 && forall i :: 0 <= i < 9 ==> lines[i] == FormatLine(b[i])
  {
    seq(9, i requires 0 <= i < 9 => FormatLine(b[i]))
  }

  /** One row of cell values as a line of digit characters. */
  function FormatLine(row: seq<int>): (line: string)
    requires forall j :: 0 <= j < |row| ==> 0 <= row[j] <= 9
    ensures |line| == |row| && AllDigits(line)
  {
    seq(|row|, j requires 0 <= j < |row| => DigitChar(row[j]))
  }

  /** Reading a formatted board gives the board back. */
  lemma FormatThenParse(b: Board)
    requires IsBoard(b)
    ensures Parse(Format(b)) == Success(b)
  {
    var lines := Format(b);
    forall i | 0 <= i < 9 ensures RowOk(Strip(lines[i])) && DigitsOf(Strip(lines[i])) == b[i] {
      FormatLineThenRead(b[i]);
    }
    ParseLinesOk(lines);
    assert ParseLines(lines).value == b;
  }

  /** One formatted row has no whitespace to strip and reads back as the row. */
  lemma FormatLineThenRead(row: seq<int>)
    requires forall j :: 0 <= j < |row| ==> 0 <= row[j] <= 9
    ensures Strip(FormatLine(row)) == FormatLine(row)
    ensures DigitsOf(FormatLine(row)) == row
  {
    var line := FormatLine(row);
    forall k | 0 <= k < |line| ensures !IsSpace(line[k]) {
      assert IsDigit(line[k]);
    }
    StripNoSpace(line);
    var d := DigitsOf(line);
    forall j | 0 <= j < |row| ensures d[j] == row[j] {
      assert line[j] == DigitChar(row[j]);
    }
  }

  /** A line of nine digits, read and written back, is itself. */
  lemma ReadThenFormatLine(line: string)
    requires RowOk(line)
    ensures FormatLine(DigitsOf(line)) == line
  {
    var back := FormatLine(DigitsOf(line));
    forall j | 0 <= j < 9 ensures back[j] == line[j] {
      DigitCharValue(line[j]);
    }
  }

  /** A board that is read, formatted, gives the stripped lines it came from. */
  lemma ParseThenFormat(lines: seq<string>)
    requires Parse(lines).Success?
    ensures IsBoard(Parse(lines).value)
    ensures |lines| == 9
    ensures Format(Parse(lines).value) == seq(9, i requires 0 <= i < 9 => Strip(lines[i]))
  {
    ParseOutcome(lines);
    ParseLinesOk(lines);
    var b := Parse(lines).value;
    assert b == ParseLines(lines).value;
    var stripped := seq(9, i requires 0 <= i < 9 => Strip(lines[i]));
    forall i | 0 <= i < 9 ensures Format(b)[i] == stripped[i] {
      ReadThenFormatLine(Strip(lines[i]));
    }
  }
}
