/**
 The history manager of `Game` (src/App.js): the list of board snapshots,
 the cursor `currentMove` into it, `handlePlay`, `jumpTo`, the turn derived
 from the cursor's parity, and the board's click wired to `handlePlay`.
 The two `useState` cells are one immutable record, updated at once.
 */
module History {
  import opened Rules
  import opened Moves

  /** The state of one game session. */
  datatype Game = Game(history: seq<Board>, currentMove: nat)

  /** The cursor points into a non-empty history. */
  predicate Valid(g: Game)
  {
    1 <= |g.history| && g.currentMove < |g.history|
  }

  /** The initial state: one empty board, cursor 0. */
  function Init(): (g: Game)
    ensures Valid(g)
    ensures |g.history| == 1 && g.currentMove == 0
    ensures forall i: Index :: g.history[0][i] == Empty
    ensures CalculateWinner(g.history[0]).NoWinner? && !IsBoardFull(g.history[0])
  {
    assert EmptyBoard[0] == Empty && NoCompleteLine(EmptyBoard);
    Game([EmptyBoard], 0)
  }

  /** `xIsNext`: X moves when the cursor is even, O when it is odd. X makes
      plies 0, 2, 4, ... and O plies 1, 3, 5, ..., so X is to move exactly
      when both have made equally many of the plies before the cursor. */
  predicate XIsNext(g: Game)
    ensures XIsNext(g) <==> (g.currentMove + 1) / 2 == g.currentMove / 2
  {
    g.currentMove % 2 == 0
  }

  /** `currentSquares`, the snapshot at the cursor. */
  function CurrentSquares(g: Game): (r: Board)
    requires Valid(g)
    ensures r in g.history
  {
    g.history[g.currentMove]
  }

  /** JavaScript's `s.slice(0, n)`: the first `n` elements, or all of them
      when there are fewer. */
  function Take<T>(s: seq<T>, n: nat): (r: seq<T>)
    ensures |r| == if n <= |s| then n else |s|
    ensures forall k :: 0 <= k < |r| ==> r[k] == s[k]
  {
    if n <= |s| then s[..n] else s
  }

  /** `handlePlay(nextSquares)`: keep the snapshots up to the cursor, drop
      the rest, append the new board and move the cursor onto it. */
  function HandlePlay(g: Game, nextSquares: Board): (r: Game)
    ensures Valid(r)
    ensures r.currentMove == |r.history| - 1
    ensures r.history[r.currentMove] == nextSquares
    ensures Valid(g) ==> r.currentMove == g.currentMove + 1
    ensures Valid(g) ==> |r.history| == g.currentMove + 2
    ensures Valid(g) ==> forall k :: 0 <= k <= g.currentMove ==> r.history[k] == g.history[k]
  {
    var nextHistory := Take(g.history, g.currentMove + 1) + [nextSquares];
    Game(nextHistory, |nextHistory| - 1)
  }

  /** `jumpTo(nextMove)`: only the cursor moves. The source does not check
      the index; a cursor past the end has no board to show. */
  function JumpTo(g: Game, nextMove: nat): (r: Game)
    requires nextMove < |g.history|
    ensures Valid(r)
    ensures r.history == g.history
    ensures r.currentMove == nextMove
    ensures CurrentSquares(r) == g.history[nextMove]
  {
    Game(g.history, nextMove)
  }

  /** A click on square `i` of the rendered board: `Board.handleClick` on
      the current snapshot and turn, with `onPlay` bound to `handlePlay`. */
  function Click(g: Game, i: Index): (r: Game)
    requires Valid(g)
    ensures Valid(r)
    ensures HandleClick(CurrentSquares(g), i, XIsNext(g)).Ignored? ==> r == g
    ensures HandleClick(CurrentSquares(g), i, XIsNext(g)).Played? ==>
              && |r.history| == g.currentMove + 2
              && r.currentMove == g.currentMove + 1
              && XIsNext(r) == !XIsNext(g)
              && CurrentSquares(r) == HandleClick(CurrentSquares(g), i, XIsNext(g)).next
  {
    match HandleClick(CurrentSquares(g), i, XIsNext(g))
    case Ignored => g
    case Played(next) => HandlePlay(g, next)
  }

  /** `next` is `prev` after an accepted click by the player to move at
      ply number `ply` (X on even plies). */
  ghost predicate IsMove(prev: Board, next: Board, ply: nat)
  {
    var xIsNext := ply % 2 == 0;
    exists i: Index :: AcceptedClick(prev, i, xIsNext, next)
  }

  /** A click on `i` by the given player turns `prev` into `next`. */
  predicate AcceptedClick(prev: Board, i: Index, xIsNext: bool, next: Board)
  {
    HandleClick(prev, i, xIsNext) == Played(next)
  }

  /** A state the game can reach: a valid cursor, the empty board first and
      every later snapshot one accepted move after its predecessor. */
  ghost predicate Reachable(g: Game)
  {
    && Valid(g)
    && g.history[0] == EmptyBoard
    && forall k :: 0 < k < |g.history| ==> IsMove(g.history[k - 1], g.history[k], k - 1)
  }

  lemma InitIsReachable()
    ensures Reachable(Init())
  {
  }

  /** A click keeps the game reachable. */
  lemma ClickPreservesReachable(g: Game, i: Index)
    requires Reachable(g)
    ensures Reachable(Click(g, i))
  {
    var c := g.currentMove;
    match HandleClick(CurrentSquares(g), i, XIsNext(g))
    case Ignored =>
    case Played(next) =>
      var r := Click(g, i);
      assert r == HandlePlay(g, next);
      forall k | 0 < k < |r.history|
        ensures IsMove(r.history[k - 1], r.history[k], k - 1)
      {
        if k <= c {
          assert r.history[k - 1] == g.history[k - 1] && r.history[k] == g.history[k];
          assert IsMove(g.history[k - 1], g.history[k], k - 1);
          assert IsMove(r.history[k - 1], r.history[k], k - 1);
        } else {
          assert k - 1 == c && r.history[k - 1] == CurrentSquares(g) && r.history[k] == next;
          assert XIsNext(g) == ((k - 1) % 2 == 0);
          assert AcceptedClick(r.history[k - 1], i, (k - 1) % 2 == 0, r.history[k]);
          assert IsMove(r.history[k - 1], r.history[k], k - 1);
        }
      }
  }

  /** A jump keeps the game reachable. */
  lemma JumpToPreservesReachable(g: Game, nextMove: nat)
    requires Reachable(g)
    requires nextMove < |g.history|
    ensures Reachable(JumpTo(g, nextMove))
  {
  }

  /** In a reachable game the snapshot at ply `k` holds `k` marks, X having
      made (k + 1) / 2 of them and O the other k / 2. */
  lemma {:induction false} SnapshotCounts(g: Game, k: nat)
    requires Reachable(g)
    requires k < |g.history|
    ensures CountOf(g.history[k], Empty) == 9 - k
    ensures CountOf(g.history[k], X) == (k + 1) / 2
    ensures CountOf(g.history[k], O) == k / 2
  {
    if k == 0 {
      EmptyBoardInProgress();
    } else {
      SnapshotCounts(g, k - 1);
      assert IsMove(g.history[k - 1], g.history[k], k - 1);
      var i: Index :| AcceptedClick(g.history[k - 1], i, (k - 1) % 2 == 0, g.history[k]);
      MoveFillsOneSquare(g.history[k - 1], i, (k - 1) % 2 == 0);
    }
  }

  /** A reachable game records at most the empty board and nine moves. */
  lemma HistoryBounded(g: Game)
    requires Reachable(g)
    ensures |g.history| <= 10
  {
    SnapshotCounts(g, |g.history| - 1);
  }

  /** The parity-derived turn agrees with the board: X is to move exactly
      when the two marks are equally many, and otherwise X leads by one. */
  lemma TurnMatchesBoard(g: Game)
    requires Reachable(g)
    ensures var sq := CurrentSquares(g);
            && (XIsNext(g) <==> CountOf(sq, X) == CountOf(sq, O))
            && (!XIsNext(g) <==> CountOf(sq, X) == CountOf(sq, O) + 1)
  {
    SnapshotCounts(g, g.currentMove);
  }

  /** Every snapshot but the last was still in progress when the next move
      was made. */
  lemma OnlyLastSnapshotTerminal(g: Game, k: nat)
    requires Reachable(g)
    requires k + 1 < |g.history|
    ensures !GameOver(g.history[k])
  {
    assert IsMove(g.history[k], g.history[k + 1], k);
  }

  /** In a reachable game every complete line of a snapshot belongs to the
      player who made its last move, X after an odd number of plies and O
      after an even one; the empty first snapshot has none. So the two
      players never both hold a line, and the reported winner is the last
      mover. */
  lemma {:induction false} LinesBelongToLastMover(g: Game, k: nat)
    requires Reachable(g)
    requires k < |g.history|
    ensures k == 0 ==> NoCompleteLine(g.history[k])
    ensures k > 0 ==> forall j :: 0 <= j < |Lines| && Complete(g.history[k], Lines[j]) ==>
                        g.history[k][Lines[j].a] == PlayerMark((k - 1) % 2 == 0)
    ensures CalculateWinner(g.history[k]).Won? ==>
              k >= 1 && CalculateWinner(g.history[k]).mark == PlayerMark((k - 1) % 2 == 0)
  {
    if k == 0 {
      EmptyBoardInProgress();
    } else {
      assert IsMove(g.history[k - 1], g.history[k], k - 1);
      var i: Index :| AcceptedClick(g.history[k - 1], i, (k - 1) % 2 == 0, g.history[k]);
      forall j | 0 <= j < |Lines| && Complete(g.history[k], Lines[j])
        ensures g.history[k][Lines[j].a] == PlayerMark((k - 1) % 2 == 0)
      {
        FreshLinesThroughMove(g.history[k - 1], i, (k - 1) % 2 == 0, Lines[j]);
      }
    }
  }

  /** A move played after jumping back discards the snapshots that followed
      the jump target: play, jump to the old cursor, play again, and the
      first played board is gone. */
  lemma BranchDiscardsFuture(g: Game, first: Board, second: Board)
    requires Valid(g)
    ensures var g1 := HandlePlay(g, first);
            var g2 := HandlePlay(JumpTo(g1, g.currentMove), second);
            && g2.history == g.history[..g.currentMove + 1] + [second]
            && g2.currentMove == g1.currentMove
  {
  }
}
