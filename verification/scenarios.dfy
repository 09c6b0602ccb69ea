/**
 Concrete positions and histories, stated as lemmas: a top-row win,
 a nine-move game that ends in a win, a drawn game, branching after a jump
 back, and the initial state. The move sequence of each of the three games
 is stated click by click, one lemma per click, from the empty board to the
 end position.
 */
module Scenarios {
  import opened Rules
  import opened Moves
  import opened History

  const E := Empty

  /** After X@0, O@4, X@1, O@5, X@2 the top row is X's and every further
      click is ignored, whoever is to move. */
  lemma TopRowWin()
    ensures CalculateWinner([X, X, X, E, O, O, E, E, E]) == Won(X, Line(0, 1, 2))
    ensures forall i: Index, xIsNext: bool :: HandleClick([X, X, X, E, O, O, E, E, E], i, xIsNext) == Ignored
  {
    var b := [X, X, X, E, O, O, E, E, E];
    WinnerIsFirstCompleteLine(b, 0);
  }

  /** X@0, O@1, X@2, O@3, X@4, O@6, X@5, O@7, X@8 is not a draw: the last
      move completes both the right column and the main diagonal, and the
      column comes first in the table. */
  lemma NineMovesEndInWin()
    ensures CalculateWinner([X, O, X, O, X, X, O, O, X]) == Won(X, Line(2, 5, 8))
    ensures !IsDraw([X, O, X, O, X, X, O, O, X])
  {
    var b := [X, O, X, O, X, X, O, O, X];
    assert FirstComplete(b, 5);
    WinnerIsFirstCompleteLine(b, 5);
  }

  /** X@0, O@1, X@2, O@4, X@3, O@5, X@7, O@6, X@8 fills the board without a
      three-in-a-row: a draw, after which every click is ignored. */
  lemma FullBoardDraw()
    ensures IsDraw([X, O, X, X, O, O, O, X, X])
    ensures forall i: Index, xIsNext: bool :: HandleClick([X, O, X, X, O, O, O, X, X], i, xIsNext) == Ignored
  {
    var b := [X, O, X, X, O, O, O, X, X];
    assert NoCompleteLine(b) && Empty !in b;
    assert GameOver(b);
  }

  // The clicks X@0, O@4, X@1, O@5, X@2 of `TopRowWin`, one lemma per click:
  // each click is accepted and yields the next position, starting from the
  // empty board.

  /** Click 1: X@0. */
  lemma TopRowWinClick1()
    ensures HandleClick([E, E, E, E, E, E, E, E, E], 0, true) == Played([X, E, E, E, E, E, E, E, E])
  {
    var b := [E, E, E, E, E, E, E, E, E];
    assert NoCompleteLine(b);
    assert b[0 := X] == [X, E, E, E, E, E, E, E, E];
    OpenSquareAccepts(b, 0, true);
  }

  /** Click 2: O@4. */
  lemma TopRowWinClick2()
    ensures HandleClick([X, E, E, E, E, E, E, E, E], 4, false) == Played([X, E, E, E, O, E, E, E, E])
  {
    var b := [X, E, E, E, E, E, E, E, E];
    assert NoCompleteLine(b);
    assert b[4 := O] == [X, E, E, E, O, E, E, E, E];
    OpenSquareAccepts(b, 4, false);
  }

  /** Click 3: X@1. */
  lemma TopRowWinClick3()
    ensures HandleClick([X, E, E, E, O, E, E, E, E], 1, true) == Played([X, X, E, E, O, E, E, E, E])
  {
    var b := [X, E, E, E, O, E, E, E, E];
    assert NoCompleteLine(b);
    assert b[1 := X] == [X, X, E, E, O, E, E, E, E];
    OpenSquareAccepts(b, 1, true);
  }

  /** Click 4: O@5. */
  lemma TopRowWinClick4()
    ensures HandleClick([X, X, E, E, O, E, E, E, E], 5, false) == Played([X, X, E, E, O, O, E, E, E])
  {
    var b := [X, X, E, E, O, E, E, E, E];
    assert NoCompleteLine(b);
    assert b[5 := O] == [X, X, E, E, O, O, E, E, E];
    OpenSquareAccepts(b, 5, false);
  }

  /** Click 5: X@2. */
  lemma TopRowWinClick5()
    ensures HandleClick([X, X, E, E, O, O, E, E, E], 2, true) == Played([X, X, X, E, O, O, E, E, E])
  {
    var b := [X, X, E, E, O, O, E, E, E];
    assert NoCompleteLine(b);
    assert b[2 := X] == [X, X, X, E, O, O, E, E, E];
    OpenSquareAccepts(b, 2, true);
  }

  // The clicks X@0, O@1, X@2, O@3, X@4, O@6, X@5, O@7, X@8 of
  // `NineMovesEndInWin`, one lemma per click: each click is accepted and
  // yields the next position. Click 1 is `TopRowWinClick1`.

  /** Click 2: O@1. */
  lemma NineMovesEndInWinClick2()
    ensures HandleClick([X, E, E, E, E, E, E, E, E], 1, false) == Played([X, O, E, E, E, E, E, E, E])
  {
    var b := [X, E, E, E, E, E, E, E, E];
    assert NoCompleteLine(b);
    assert b[1 := O] == [X, O, E, E, E, E, E, E, E];
    OpenSquareAccepts(b, 1, false);
  }

  /** Click 3: X@2. */
  lemma NineMovesEndInWinClick3()
    ensures HandleClick([X, O, E, E, E, E, E, E, E], 2, true) == Played([X, O, X, E, E, E, E, E, E])
  {
    var b := [X, O, E, E, E, E, E, E, E];
    assert NoCompleteLine(b);
    assert b[2 := X] == [X, O, X, E, E, E, E, E, E];
    OpenSquareAccepts(b, 2, true);
  }

  /** Click 4: O@3. */
  lemma NineMovesEndInWinClick4()
    ensures HandleClick([X, O, X, E, E, E, E, E, E], 3, false) == Played([X, O, X, O, E, E, E, E, E])
  {
    var b := [X, O, X, E, E, E, E, E, E];
    assert NoCompleteLine(b);
    assert b[3 := O] == [X, O, X, O, E, E, E, E, E];
    OpenSquareAccepts(b, 3, false);
  }

  /** Click 5: X@4. */
  lemma NineMovesEndInWinClick5()
    ensures HandleClick([X, O, X, O, E, E, E, E, E], 4, true) == Played([X, O, X, O, X, E, E, E, E])
  {
    var b := [X, O, X, O, E, E, E, E, E];
    assert NoCompleteLine(b);
    assert b[4 := X] == [X, O, X, O, X, E, E, E, E];
    OpenSquareAccepts(b, 4, true);
  }

  /** Click 6: O@6. */
  lemma NineMovesEndInWinClick6()
    ensures HandleClick([X, O, X, O, X, E, E, E, E], 6, false) == Played([X, O, X, O, X, E, O, E, E])
  {
    var b := [X, O, X, O, X, E, E, E, E];
    assert NoCompleteLine(b);
    assert b[6 := O] == [X, O, X, O, X, E, O, E, E];
    OpenSquareAccepts(b, 6, false);
  }

  /** Click 7: X@5. */
  lemma NineMovesEndInWinClick7()
    ensures HandleClick([X, O, X, O, X, E, O, E, E], 5, true) == Played([X, O, X, O, X, X, O, E, E])
  {
    var b := [X, O, X, O, X, E, O, E, E];
    assert NoCompleteLine(b);
    assert b[5 := X] == [X, O, X, O, X, X, O, E, E];
    OpenSquareAccepts(b, 5, true);
  }

  /** Click 8: O@7. */
  lemma NineMovesEndInWinClick8()
    ensures HandleClick([X, O, X, O, X, X, O, E, E], 7, false) == Played([X, O, X, O, X, X, O, O, E])
  {
    var b := [X, O, X, O, X, X, O, E, E];
    assert NoCompleteLine(b);
    assert b[7 := O] == [X, O, X, O, X, X, O, O, E];
    OpenSquareAccepts(b, 7, false);
  }

  /** Click 9: X@8. */
  lemma NineMovesEndInWinClick9()
    ensures HandleClick([X, O, X, O, X, X, O, O, E], 8, true) == Played([X, O, X, O, X, X, O, O, X])
  {
    var b := [X, O, X, O, X, X, O, O, E];
    assert NoCompleteLine(b);
    assert b[8 := X] == [X, O, X, O, X, X, O, O, X];
    OpenSquareAccepts(b, 8, true);
  }

  // The clicks X@0, O@1, X@2, O@4, X@3, O@5, X@7, O@6, X@8 of
  // `FullBoardDraw`, one lemma per click: each click is accepted and yields
  // the next position. Clicks 1 to 3 are those of `NineMovesEndInWin`.

  /** Click 4: O@4. */
  lemma FullBoardDrawClick4()
    ensures HandleClick([X, O, X, E, E, E, E, E, E], 4, false) == Played([X, O, X, E, O, E, E, E, E])
  {
    var b := [X, O, X, E, E, E, E, E, E];
    assert NoCompleteLine(b);
    assert b[4 := O] == [X, O, X, E, O, E, E, E, E];
    OpenSquareAccepts(b, 4, false);
  }

  /** Click 5: X@3. */
  lemma FullBoardDrawClick5()
    ensures HandleClick([X, O, X, E, O, E, E, E, E], 3, true) == Played([X, O, X, X, O, E, E, E, E])
  {
    var b := [X, O, X, E, O, E, E, E, E];
    assert NoCompleteLine(b);
    assert b[3 := X] == [X, O, X, X, O, E, E, E, E];
    OpenSquareAccepts(b, 3, true);
  }

  /** Click 6: O@5. */
  lemma FullBoardDrawClick6()
    ensures HandleClick([X, O, X, X, O, E, E, E, E], 5, false) == Played([X, O, X, X, O, O, E, E, E])
  {
    var b := [X, O, X, X, O, E, E, E, E];
    assert NoCompleteLine(b);
    assert b[5 := O] == [X, O, X, X, O, O, E, E, E];
    OpenSquareAccepts(b, 5, false);
  }

  /** Click 7: X@7. */
  lemma FullBoardDrawClick7()
    ensures HandleClick([X, O, X, X, O, O, E, E, E], 7, true) == Played([X, O, X, X, O, O, E, X, E])
  {
    var b := [X, O, X, X, O, O, E, E, E];
    assert NoCompleteLine(b);
    assert b[7 := X] == [X, O, X, X, O, O, E, X, E];
    OpenSquareAccepts(b, 7, true);
  }

  /** Click 8: O@6. */
  lemma FullBoardDrawClick8()
    ensures HandleClick([X, O, X, X, O, O, E, X, E], 6, false) == Played([X, O, X, X, O, O, O, X, E])
  {
    var b := [X, O, X, X, O, O, E, X, E];
    assert NoCompleteLine(b);
    assert b[6 := O] == [X, O, X, X, O, O, O, X, E];
    OpenSquareAccepts(b, 6, false);
  }

  /** Click 9: X@8. */
  lemma FullBoardDrawClick9()
    ensures HandleClick([X, O, X, X, O, O, O, X, E], 8, true) == Played([X, O, X, X, O, O, O, X, X])
  {
    var b := [X, O, X, X, O, O, O, X, E];
    assert NoCompleteLine(b);
    assert b[8 := X] == [X, O, X, X, O, O, O, X, X];
    OpenSquareAccepts(b, 8, true);
  }

  /** With four snapshots recorded and the cursor on the last, jumping back
      to move 1 and playing drops the snapshots of moves 2 and 3. */
  lemma JumpBackThenPlay(b0: Board, b1: Board, b2: Board, b3: Board, next: Board)
    ensures HandlePlay(JumpTo(Game([b0, b1, b2, b3], 3), 1), next) == Game([b0, b1, next], 2)
  {
  }

  /** The initial state: no winner, no draw, one snapshot, cursor 0, X to
      move. */
  lemma StartOfGame()
    ensures CalculateWinner(CurrentSquares(Init())) == NoWinner
    ensures !IsDraw(CurrentSquares(Init()))
    ensures |Init().history| == 1 && Init().currentMove == 0
    ensures XIsNext(Init())
  {
  }
}
