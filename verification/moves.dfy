/**
 The move applier: the rule part of `Board.handleClick` (src/App.js).
 A click is ignored when the position is won or drawn or the square is
 taken; otherwise it yields a fresh board with the mover's mark added.
 */
module Moves {
  import opened Rules

  /** What a click produces: nothing reaches `onPlay`, or the next board. */
  datatype ClickResult = Ignored | Played(next: Board)

  /** The mark placed by the player to move: "X" when `xIsNext`, else "O". */
  function PlayerMark(xIsNext: bool): (m: Cell)
    ensures m != Empty
    ensures m == X <==> xIsNext
    ensures m == O <==> !xIsNext
  {
    if xIsNext then X else O
  }

  /** The position is over: somebody won or the board is drawn. */
  predicate GameOver(squares: Board)
    ensures GameOver(squares) <==> !NoCompleteLine(squares) || Empty !in squares
  {
    CalculateWinner(squares).Won? || IsDraw(squares)
  }

  /** `handleClick(i)` on the board `squares` with `xIsNext`. The index is a
      board position by type: the source never range-checks it and the board
      layout only ever passes 0..8. */
  function HandleClick(squares: Board, i: Index, xIsNext: bool): (r: ClickResult)
    ensures r.Ignored? <==> GameOver(squares) || squares[i] != Empty
    ensures r.Played? ==> r.next[i] == PlayerMark(xIsNext)
    ensures r.Played? ==> forall j: Index :: j != i ==> r.next[j] == squares[j]
  {
    if GameOver(squares) || squares[i] != Empty then
      Ignored
    else
      Played(squares[i := PlayerMark(xIsNext)])
  }

  /** An accepted click fills exactly one empty square: the mover's count
      rises by one, the empty count falls by one, the opponent's is kept. */
  lemma MoveFillsOneSquare(squares: Board, i: Index, xIsNext: bool)
    requires HandleClick(squares, i, xIsNext).Played?
    ensures var next := HandleClick(squares, i, xIsNext).next;
            && CountOf(next, PlayerMark(xIsNext)) == CountOf(squares, PlayerMark(xIsNext)) + 1
            && CountOf(next, Empty) == CountOf(squares, Empty) - 1
            && CountOf(next, PlayerMark(!xIsNext)) == CountOf(squares, PlayerMark(!xIsNext))
  {
    CountAfterFill(squares, i, PlayerMark(xIsNext));
  }

  /** Every line completed on the board after an accepted click runs through
      the clicked square and holds the clicker's mark: the board before the
      click had no complete line at all. */
  lemma FreshLinesThroughMove(squares: Board, i: Index, xIsNext: bool, line: Line)
    requires HandleClick(squares, i, xIsNext).Played?
    requires line in Lines
    requires Complete(HandleClick(squares, i, xIsNext).next, line)
    ensures i == line.a || i == line.b || i == line.c
    ensures HandleClick(squares, i, xIsNext).next[line.a] == PlayerMark(xIsNext)
  {
  }

  /** A click on an empty square of a position without a complete line is
      accepted, whoever is to move, and writes the mover's mark there. */
  lemma OpenSquareAccepts(squares: Board, i: Index, xIsNext: bool)
    requires NoCompleteLine(squares) && squares[i] == Empty
    ensures HandleClick(squares, i, xIsNext) == Played(squares[i := PlayerMark(xIsNext)])
  {
  }

  /** Any full board without a complete line is a draw, and every click on
      it is ignored, whoever is to move. */
  lemma FullLineFreeBoardIsDraw(squares: Board, i: Index, xIsNext: bool)
    requires NoCompleteLine(squares) && IsBoardFull(squares)
    ensures IsDraw(squares)
    ensures HandleClick(squares, i, xIsNext) == Ignored
  {
  }
}
