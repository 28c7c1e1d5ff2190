/** The game engine of the activity: the board as a 3x3 array that taps
    write into, the player to move, the game-over flag and the two scores,
    updated in place. OnCellClicked, UpdateScores and ResetGame are proved to
    move the state exactly as Rules.CellClicked, Rules.Credit and Rules.Reset
    say; InitializeBoard leaves the board equal to EmptyBoard; CheckWin and
    CheckDraw change nothing and return exactly Wins and Full of the board.
    The constructor, OnCellClicked and ResetGame establish or keep Valid(). */
module Engine {
  import opened Grid
  import Rules

  class Game {
    /** The nine cells, `board[row, col]`; the array itself is never replaced. */
    const board: array2<Cell>
    var currentPlayer: Player
    var gameOver: bool
    /** Points of player one, who plays X. */
    var playerOneScore: nat
    /** Points of player two, who plays O. */
    var playerTwoScore: nat

    predicate Shaped()
    {
      board.Length0 == 3 && board.Length1 == 3
    }

    /** The board the array holds. */
    function Snapshot(): (b: Board)
      reads board
      requires Shaped()
      ensures forall i: Index, j: Index :: b[i][j] == board[i, j]
    {
      seq(3, i requires 0 <= i < 3 reads board => seq(3, j requires 0 <= j < 3 reads board => board[i, j]))
    }

    /** The whole engine state as a value. */
    function State(): Rules.GameState
      reads this, board
      requires Shaped()
    {
      Rules.GameState(Snapshot(), currentPlayer, gameOver, playerOneScore, playerTwoScore)
    }

    /** The invariant of every reachable state (see Rules.Consistent). */
    ghost predicate Valid()
      reads this, board
    {
      Shaped() && Rules.Consistent(State())
    }

    /** A new session: X to move, no points, and the board cleared. */
    constructor ()
      ensures Valid() && fresh(board)
      ensures State() == Rules.Initial()
    {
      board := new Cell[3, 3];
      currentPlayer := X;
      gameOver := false;
      playerOneScore := 0;
      playerTwoScore := 0;
      new;
      InitializeBoard();
    }

    /** Clears every cell, row by row. */
    method InitializeBoard()
      requires Shaped()
      modifies board
      ensures Snapshot() == EmptyBoard
    {
      for i := 0 to 3
        invariant forall k, l :: 0 <= k < i && 0 <= l < 3 ==> board[k, l] == Empty
      {
        for j := 0 to 3
          invariant forall k, l :: 0 <= k < i && 0 <= l < 3 ==> board[k, l] == Empty
          invariant forall l :: 0 <= l < j ==> board[i, l] == Empty
        {
          board[i, j] := Empty;
        }
      }
      SameCells(Snapshot(), EmptyBoard);
    }

    /** A tap on cell (r, c). */
    method OnCellClicked(r: Index, c: Index)
      requires Valid()
      modifies this, board
      ensures Valid()
      ensures State() == Rules.CellClicked(old(State()), r, c)
    {
      if board[r, c] != Empty || gameOver {
        return;
      }
      ghost var before := State();
      Rules.ClickPreservesConsistent(before, r, c);
      board[r, c] := Taken(currentPlayer);
      SameCells(Snapshot(), Place(before.board, r, c, before.current));
      var won := CheckWin();
      if won {
        gameOver := true;
        UpdateScores();
        return;
      }
      var draw := CheckDraw();
      if draw {
        gameOver := true;
        return;
      }
      currentPlayer := Other(currentPlayer);
    }

    /** Looks for a line of the current player's mark: rows, then columns,
        then the two diagonals. */
    method CheckWin() returns (won: bool)
      requires Shaped()
      ensures won == Wins(Snapshot(), currentPlayer)
    {
      var mark := Taken(currentPlayer);
      for i := 0 to 3
        invariant forall k :: 0 <= k < i ==> !RowFilled(Snapshot(), k, currentPlayer)
      {
        if board[i, 0] == mark && board[i, 1] == mark && board[i, 2] == mark {
          assert RowFilled(Snapshot(), i, currentPlayer);
          return true;
        }
      }
      for i := 0 to 3
        invariant forall k :: 0 <= k < i ==> !ColumnFilled(Snapshot(), k, currentPlayer)
      {
        if board[0, i] == mark && board[1, i] == mark && board[2, i] == mark {
          assert ColumnFilled(Snapshot(), i, currentPlayer);
          return true;
        }
      }
      if board[0, 0] == mark && board[1, 1] == mark && board[2, 2] == mark {
        return true;
      }
      if board[0, 2] == mark && board[1, 1] == mark && board[2, 0] == mark {
        return true;
      }
      return false;
    }

    /** Reports whether no cell is empty any more. */
    method CheckDraw() returns (draw: bool)
      requires Shaped()
      ensures draw == Full(Snapshot())
    {
      for i := 0 to 3
        invariant forall k, l :: 0 <= k < i && 0 <= l < 3 ==> board[k, l] != Empty
      {
        for j := 0 to 3
          invariant forall l :: 0 <= l < j ==> board[i, l] != Empty
        {
          if board[i, j] == Empty {
            assert Snapshot()[i][j] == Empty;
            return false;
          }
        }
      }
      return true;
    }

    /** One point to the current player. */
    method UpdateScores()
      requires Shaped()
      modifies this
      ensures State() == Rules.Credit(old(State()), old(currentPlayer))
    {
      if currentPlayer == X {
        playerOneScore := playerOneScore + 1;
      } else {
        playerTwoScore := playerTwoScore + 1;
      }
    }

    /** A new round; the scores are kept. */
    method ResetGame()
      requires Shaped()
      modifies this, board
      ensures Valid()
      ensures State() == Rules.Reset(old(State()))
    {
      gameOver := false;
      currentPlayer := X;
      InitializeBoard();
    }
  }
}
