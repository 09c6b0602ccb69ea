/**
 The rule evaluator of the tic-tac-toe game: the cell values, the 9-cell
 row-major board, the eight winning lines, winner detection and draw
 detection (src/App.js, `calculateWinner` and `isBoardFull`).
 */
module Rules {

  /** A square holds nothing (JavaScript `null`) or one of the two marks. */
  datatype Cell = Empty | X | O

  /** A position on the board, row-major: row = i / 3, column = i % 3. */
  type Index = i: nat | i < 9

  /** A board snapshot: exactly nine squares. */
  type Board = s: seq<Cell> | |s| == 9
    witness [Empty, Empty, Empty, Empty, Empty, Empty, Empty, Empty, Empty]

  /** The initial board, `Array(9).fill(null)`. */
  const EmptyBoard: Board := [Empty, Empty, Empty, Empty, Empty, Empty, Empty, Empty, Empty]

  /** Three board positions that win when they hold the same mark. */
  datatype Line = Line(a: Index, b: Index, c: Index)

  /** The fixed enumeration order: rows top to bottom, columns left to right,
      then the two diagonals. */
  const Lines: seq<Line> := [
    Line(0, 1, 2),
    Line(3, 4, 5),
    Line(6, 7, 8),
    Line(0, 3, 6),
    Line(1, 4, 7),
    Line(2, 5, 8),
    Line(0, 4, 8),
    Line(2, 4, 6)
  ]

  /** What `calculateWinner` returns: `[null, []]` or `[mark, line]`. */
  datatype Winner = NoWinner | Won(mark: Cell, line: Line)

  /** The three squares of `line` are filled and hold the same mark. */
  predicate Complete(squares: Board, line: Line)
  {
    squares[line.a] != Empty && squares[line.a] == squares[line.b] && squares[line.a] == squares[line.c]
  }

  /** Line number `k` of the table is complete and no earlier line is. */
  ghost predicate FirstComplete(squares: Board, k: nat)
  {
    && k < |Lines|
    && Complete(squares, Lines[k])
    && forall j :: 0 <= j < k ==> !Complete(squares, Lines[j])
  }

  /** No line of the table is complete. */
  ghost predicate NoCompleteLine(squares: Board)
  {
    forall j :: 0 <= j < |Lines| ==> !Complete(squares, Lines[j])
  }

  /** The scan of `calculateWinner` from table position `k` on: it answers the
      first complete line at or after `k`, or no winner when there is none. */
  function ScanFrom(squares: Board, k: nat): (r: Winner)
    requires k <= |Lines|
    decreases |Lines| - k
    ensures r.NoWinner? <==> forall j :: k <= j < |Lines| ==> !Complete(squares, Lines[j])
    ensures r.Won? ==>
              exists j :: && k <= j < |Lines|
                          && r == Won(squares[Lines[j].a], Lines[j])
                          && Complete(squares, Lines[j])
                          && forall j' :: k <= j' < j ==> !Complete(squares, Lines[j'])
  {
    if k == |Lines| then NoWinner
    else if Complete(squares, Lines[k]) then Won(squares[Lines[k].a], Lines[k])
    else ScanFrom(squares, k + 1)
  }

  /** `calculateWinner`: the mark and line of the first complete line in the
      table order, or no winner. */
  function CalculateWinner(squares: Board): (r: Winner)
    ensures r.NoWinner? <==> NoCompleteLine(squares)
    ensures r.Won? ==> exists k: nat :: FirstComplete(squares, k) && r.line == Lines[k]
    ensures r.Won? ==>
              && r.line in Lines
              && r.mark != Empty
              && squares[r.line.a] == r.mark
              && squares[r.line.b] == r.mark
              && squares[r.line.c] == r.mark
  {
    ScanFrom(squares, 0)
  }

  /** Whatever line is first complete in the table order is the one reported,
      with the mark its squares hold; so the answer is fully determined. */
  lemma WinnerIsFirstCompleteLine(squares: Board, k: nat)
    requires FirstComplete(squares, k)
    ensures CalculateWinner(squares) == Won(squares[Lines[k].a], Lines[k])
  {
  }

  /** Any complete line of the table makes `calculateWinner` report a winner. */
  lemma CompleteLineWins(squares: Board, line: Line)
    requires line in Lines
    requires Complete(squares, line)
    ensures CalculateWinner(squares).Won?
  {
  }

  /** The number of squares of `s` holding `c`. */
  function CountOf(s: seq<Cell>, c: Cell): (n: nat)
    ensures n <= |s|
  {
    if |s| == 0 then 0
    else (if s[0] == c then 1 else 0) + CountOf(s[1..], c)
  }

  /** The board is full exactly when no square is empty. */
  lemma {:induction false} FullIffNoEmptySquare(s: seq<Cell>)
    ensures (forall i :: 0 <= i < |s| ==> s[i] != Empty) <==> CountOf(s, Empty) == 0
  {
    if |s| > 0 {
      FullIffNoEmptySquare(s[1..]);
      assert forall i :: 0 < i < |s| ==> s[i] == s[1..][i - 1];
    }
  }

  /** `isBoardFull`: `squares.every((x) => x)`, every square is filled. */
  predicate IsBoardFull(squares: seq<Cell>)
    ensures IsBoardFull(squares) <==> CountOf(squares, Empty) == 0
  {
    FullIffNoEmptySquare(squares);
    forall i :: 0 <= i < |squares| ==> squares[i] != Empty
  }

  /** Filling one empty square with a mark adds one to that mark's count,
      takes one from the empty count and leaves the other mark's count alone. */
  lemma {:induction false} CountAfterFill(s: seq<Cell>, i: nat, m: Cell)
    requires i < |s| && s[i] == Empty && m != Empty
    ensures CountOf(s[i := m], m) == CountOf(s, m) + 1
    ensures CountOf(s[i := m], Empty) == CountOf(s, Empty) - 1
    ensures forall c :: c != m && c != Empty ==> CountOf(s[i := m], c) == CountOf(s, c)
  {
    if i == 0 {
      assert s[i := m][1..] == s[1..];
    } else {
      CountAfterFill(s[1..], i - 1, m);
      assert s[i := m][1..] == s[1..][i - 1 := m];
    }
  }

  /** The draw of `Board`: no winner and a full board. */
  predicate IsDraw(squares: Board)
    ensures IsDraw(squares) <==> NoCompleteLine(squares) && Empty !in squares
  {
    CalculateWinner(squares).NoWinner? && IsBoardFull(squares)
  }

  /** A position is never both won and drawn, and a full board without a
      complete line is a draw. */
  lemma WonAndDrawnExclusive(squares: Board)
    ensures !(CalculateWinner(squares).Won? && IsDraw(squares))
    ensures IsDraw(squares) <==> NoCompleteLine(squares) && CountOf(squares, Empty) == 0
  {
    FullIffNoEmptySquare(squares);
  }

  /** The empty board has no winner and is not full. */
  lemma EmptyBoardInProgress()
    ensures CalculateWinner(EmptyBoard) == NoWinner
    ensures !IsBoardFull(EmptyBoard)
    ensures CountOf(EmptyBoard, Empty) == 9
    ensures CountOf(EmptyBoard, X) == 0 && CountOf(EmptyBoard, O) == 0
  {
    assert NoCompleteLine(EmptyBoard) && EmptyBoard[0] == Empty;
  }
}
