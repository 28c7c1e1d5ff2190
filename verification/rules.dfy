/** The rules of one game session as a state machine over values: what a tap
    on a cell and a new-game request do to the board, the player to move, the
    game-over flag and the two scores, the invariant every reachable state
    keeps, and what follows from it. */
module Rules {
  import opened Grid

  /** Everything the engine remembers: the board, whose turn it is, whether
      the round is over, and the points of player one (X) and player two (O). */
  datatype GameState = GameState(board: Board, current: Player, gameOver: bool, scoreX: nat, scoreO: nat)

  /** The session as it starts: an empty board, X to move, no points. */
  function Initial(): (s: GameState)
    ensures Consistent(s)
  {
    EmptyBoardTally(X);
    EmptyBoardTally(O);
    GameState(EmptyBoard, X, false, 0, 0)
  }

  /** The score bump of a win: one point to `p`, nothing else changes. */
  function Credit(s: GameState, p: Player): (t: GameState)
    ensures t.scoreX == s.scoreX + (if p == X then 1 else 0)
    ensures t.scoreO == s.scoreO + (if p == O then 1 else 0)
    ensures t.(scoreX := s.scoreX, scoreO := s.scoreO) == s
  {
    match p
    case X => s.(scoreX := s.scoreX + 1)
    case O => s.(scoreO := s.scoreO + 1)
  }

  /** A tap on cell (r, c). Ignored on an occupied cell or after the round is
      over; otherwise the mover's mark is written, then a line of the mover's
      mark ends the round with a point for the mover, else a full board ends
      it as a draw, else the turn passes. */
  function CellClicked(s: GameState, r: Index, c: Index): (t: GameState)
    ensures t.scoreX >= s.scoreX && t.scoreO >= s.scoreO
    ensures t.scoreX + t.scoreO <= s.scoreX + s.scoreO + 1
    ensures forall i: Index, j: Index :: (i != r || j != c) ==> t.board[i][j] == s.board[i][j]
    ensures s.board[r][c] != Empty ==> t.board[r][c] == s.board[r][c]
    ensures s.gameOver ==> t == s
  {
    if s.board[r][c] != Empty || s.gameOver then s
    else
      var b := Place(s.board, r, c, s.current);
      if Wins(b, s.current) then Credit(s.(board := b, gameOver := true), s.current)
      else if Full(b) then s.(board := b, gameOver := true)
      else s.(board := b, current := Other(s.current))
  }

  /** A new round: the session's starting board, player and flag, with the
      scores carried over. */
  function Reset(s: GameState): (t: GameState)
    ensures t == Initial().(scoreX := s.scoreX, scoreO := s.scoreO)
    ensures Consistent(t)
  {
    EmptyBoardTally(X);
    EmptyBoardTally(O);
    s.(board := EmptyBoard, current := X, gameOver := false)
  }

  /** What the user can do: tap a cell, or ask for a new game. */
  datatype Action = Tap(row: Index, col: Index) | NewGame

  function Apply(s: GameState, a: Action): GameState
  {
    match a
    case Tap(r, c) => CellClicked(s, r, c)
    case NewGame => Reset(s)
  }

  /** The state after a sequence of actions. */
  function Run(s: GameState, acts: seq<Action>): GameState
    decreases |acts|
  {
    if acts == [] then s else Run(Apply(s, acts[0]), acts[1..])
  }

  // ---------------------------------------------------------------------
  // The invariant of reachable states

  /** While a round is open, X has as many marks as O when X is to move,
      and one more when O is to move. */
  predicate Alternating(s: GameState)
  {
    var x, o := Tally(s.board, Taken(X)), Tally(s.board, Taken(O));
    !s.gameOver ==> if s.current == X then x == o else x == o + 1
  }

  /** A finished round was finished by the move of `s.current`, whose turn
      is not passed on: it holds a line or filled the board, and it has just
      made the last mark. */
  predicate ConcludedByMover(s: GameState)
  {
    var x, o := Tally(s.board, Taken(X)), Tally(s.board, Taken(O));
    s.gameOver ==>
      (Wins(s.board, s.current) || Full(s.board)) && if s.current == X then x == o + 1 else x == o
  }

  /** The invariant of every reachable state: the marks alternate, the
      opponent of `s.current` never holds a line, an open round has neither a
      line nor a full board, and a finished round was finished by the mover. */
  predicate Consistent(s: GameState)
  {
    Alternating(s) && ConcludedByMover(s) &&
    !Wins(s.board, Other(s.current)) &&
    (!s.gameOver ==> !Wins(s.board, s.current) && !Full(s.board))
  }

  /** A tap keeps the invariant. */
  lemma ClickPreservesConsistent(s: GameState, r: Index, c: Index)
    requires Consistent(s)
    ensures Consistent(CellClicked(s, r, c))
  {
    if s.board[r][c] == Empty && !s.gameOver {
      var p := s.current;
      var b := Place(s.board, r, c, p);
      TallyPlace(s.board, r, c, p, Taken(X));
      TallyPlace(s.board, r, c, p, Taken(O));
      PlaceKeepsNoWin(s.board, r, c, p, Other(p));
    }
  }

  /** Because the opponent never holds a line, looking only for a line of
      the mover's mark, as the engine does, misses no win. */
  lemma OnlyMoverCanWin(s: GameState, r: Index, c: Index)
    requires Consistent(s) && !s.gameOver && s.board[r][c] == Empty
    ensures !Wins(Place(s.board, r, c, s.current), Other(s.current))
  {
    PlaceKeepsNoWin(s.board, r, c, s.current, Other(s.current));
  }

  /** A full board in a reachable state ends the round, and it is always X
      who filled it: five X marks against four O marks. */
  lemma FullBoardFilledByX(s: GameState)
    requires Consistent(s) && Full(s.board)
    ensures s.gameOver && s.current == X
    ensures Tally(s.board, Taken(X)) == 5 && Tally(s.board, Taken(O)) == 4
  {
    FullIffNoEmpty(s.board);
    TallyTotal(s.board);
  }

  // ---------------------------------------------------------------------
  // The four outcomes of a tap

  /** An occupied cell or a finished round: nothing changes. */
  lemma ClickIgnored(s: GameState, r: Index, c: Index)
    requires s.board[r][c] != Empty || s.gameOver
    ensures CellClicked(s, r, c) == s
  {
  }

  /** The mover completes a line: the round ends, the turn stays, and the
      mover alone gains one point. */
  lemma ClickWins(s: GameState, r: Index, c: Index)
    requires !s.gameOver && s.board[r][c] == Empty
    requires Wins(Place(s.board, r, c, s.current), s.current)
    ensures var t := CellClicked(s, r, c);
      t.board == Place(s.board, r, c, s.current) && t.gameOver && t.current == s.current &&
      (s.current == X ==> t.scoreX == s.scoreX + 1 && t.scoreO == s.scoreO) &&
      (s.current == O ==> t.scoreO == s.scoreO + 1 && t.scoreX == s.scoreX)
  {
  }

  /** The board fills up without a line: the round ends as a draw and no
      score changes. */
  lemma ClickDraws(s: GameState, r: Index, c: Index)
    requires !s.gameOver && s.board[r][c] == Empty
    requires !Wins(Place(s.board, r, c, s.current), s.current)
    requires Full(Place(s.board, r, c, s.current))
    ensures var t := CellClicked(s, r, c);
      t.board == Place(s.board, r, c, s.current) && t.gameOver && t.current == s.current &&
      t.scoreX == s.scoreX && t.scoreO == s.scoreO
  {
  }

  /** Neither a line nor a full board: the turn passes to the other player
      and the round goes on. */
  lemma ClickContinues(s: GameState, r: Index, c: Index)
    requires !s.gameOver && s.board[r][c] == Empty
    requires !Wins(Place(s.board, r, c, s.current), s.current)
    requires !Full(Place(s.board, r, c, s.current))
    ensures var t := CellClicked(s, r, c);
      t.board == Place(s.board, r, c, s.current) && !t.gameOver && t.current == Other(s.current) &&
      t.scoreX == s.scoreX && t.scoreO == s.scoreO
  {
  }

  // ---------------------------------------------------------------------
  // Sequences of actions

  /** Every state reached from a consistent one is consistent. */
  lemma {:induction false} RunKeepsConsistent(s: GameState, acts: seq<Action>)
    requires Consistent(s)
    ensures Consistent(Run(s, acts))
    decreases |acts|
  {
    if acts != [] {
      if acts[0].Tap? {
        ClickPreservesConsistent(s, acts[0].row, acts[0].col);
      }
      RunKeepsConsistent(Apply(s, acts[0]), acts[1..]);
    }
  }

  /** Scores never decrease, whatever the user does. */
  lemma {:induction false} RunScoresMonotone(s: GameState, acts: seq<Action>)
    ensures Run(s, acts).scoreX >= s.scoreX && Run(s, acts).scoreO >= s.scoreO
    decreases |acts|
  {
    if acts != [] {
      RunScoresMonotone(Apply(s, acts[0]), acts[1..]);
    }
  }

  /** A finished round stays as it is, board, turn and scores, until a new
      game is requested. */
  lemma {:induction false} ConcludedUntilNewGame(s: GameState, acts: seq<Action>)
    requires s.gameOver
    requires forall k :: 0 <= k < |acts| ==> acts[k].Tap?
    ensures Run(s, acts) == s
    decreases |acts|
  {
    if acts != [] {
      ConcludedUntilNewGame(Apply(s, acts[0]), acts[1..]);
    }
  }

  // ---------------------------------------------------------------------
  // Two rounds played out

  /** A tap on a free cell of an open round that yields the board `next`
      (the mover's mark added at (r, c)), with no line for the mover and the
      bottom-right corner still free: the turn passes. The free corner is a
      cheap witness that `next` is not full; it suits the two rounds below,
      which both fill that corner last, and no other use. */
  lemma QuietMove(s: GameState, r: Index, c: Index, next: Board)
    requires !s.gameOver && s.board[r][c] == Empty
    requires forall i: Index, j: Index :: next[i][j] == if i == r && j == c then Taken(s.current) else s.board[i][j]
    requires !Wins(next, s.current) && next[2][2] == Empty
    ensures CellClicked(s, r, c) == s.(board := next, current := Other(s.current))
  {
    SameCells(Place(s.board, r, c, s.current), next);
  }

  /** Short names for the cells of the boards written out below. */
  const XMark: Cell := Taken(X)
  const OMark: Cell := Taken(O)
  const Free: Cell := Empty

  /** From a fresh round, X takes the top row while O plays the middle row:
      X wins and player one gains one point. */
  lemma TopRowWinForX(x: nat, o: nat)
    ensures var t1 := CellClicked(GameState(EmptyBoard, X, false, x, o), 0, 0);
      var t2 := CellClicked(t1, 1, 0);
      var t3 := CellClicked(t2, 0, 1);
      var t4 := CellClicked(t3, 1, 1);
      var t := CellClicked(t4, 0, 2);
      t.gameOver && t.current == X && t.scoreX == x + 1 && t.scoreO == o
  {
    var s0 := GameState(EmptyBoard, X, false, x, o);
    var s1 := GameState([[XMark, Free, Free], [Free, Free, Free], [Free, Free, Free]], O, false, x, o);
    var s2 := GameState([[XMark, Free, Free], [OMark, Free, Free], [Free, Free, Free]], X, false, x, o);
    var s3 := GameState([[XMark, XMark, Free], [OMark, Free, Free], [Free, Free, Free]], O, false, x, o);
    var s4 := GameState([[XMark, XMark, Free], [OMark, OMark, Free], [Free, Free, Free]], X, false, x, o);
    QuietMove(s0, 0, 0, s1.board);
    QuietMove(s1, 1, 0, s2.board);
    QuietMove(s2, 0, 1, s3.board);
    QuietMove(s3, 1, 1, s4.board);
    assert RowFilled(Place(s4.board, 0, 2, X), 0, X);
  }

  /** The first five moves of the drawn round below. */
  lemma DrawOpening(x: nat, o: nat)
    ensures var t1 := CellClicked(GameState(EmptyBoard, X, false, x, o), 0, 0);
      var t2 := CellClicked(t1, 0, 1);
      var t3 := CellClicked(t2, 0, 2);
      var t4 := CellClicked(t3, 1, 1);
      var t5 := CellClicked(t4, 1, 0);
      t5 == GameState([[XMark, OMark, XMark], [XMark, OMark, Free], [Free, Free, Free]], O, false, x, o)
  {
    var s0 := GameState(EmptyBoard, X, false, x, o);
    var s1 := GameState([[XMark, Free, Free], [Free, Free, Free], [Free, Free, Free]], O, false, x, o);
    var s2 := GameState([[XMark, OMark, Free], [Free, Free, Free], [Free, Free, Free]], X, false, x, o);
    var s3 := GameState([[XMark, OMark, XMark], [Free, Free, Free], [Free, Free, Free]], O, false, x, o);
    var s4 := GameState([[XMark, OMark, XMark], [Free, OMark, Free], [Free, Free, Free]], X, false, x, o);
    var s5 := GameState([[XMark, OMark, XMark], [XMark, OMark, Free], [Free, Free, Free]], O, false, x, o);
    QuietMove(s0, 0, 0, s1.board);
    QuietMove(s1, 0, 1, s2.board);
    QuietMove(s2, 0, 2, s3.board);
    QuietMove(s3, 1, 1, s4.board);
    QuietMove(s4, 1, 0, s5.board);
  }

  /** The last four moves of the drawn round below. */
  lemma DrawEnding(x: nat, o: nat)
    ensures var t6 := CellClicked(GameState([[XMark, OMark, XMark], [XMark, OMark, Free], [Free, Free, Free]], O, false, x, o), 1, 2);
      var t7 := CellClicked(t6, 2, 1);
      var t8 := CellClicked(t7, 2, 0);
      var t := CellClicked(t8, 2, 2);
      t == GameState([[XMark, OMark, XMark], [XMark, OMark, OMark], [OMark, XMark, XMark]], X, true, x, o)
  {
    var s5 := GameState([[XMark, OMark, XMark], [XMark, OMark, Free], [Free, Free, Free]], O, false, x, o);
    var s6 := GameState([[XMark, OMark, XMark], [XMark, OMark, OMark], [Free, Free, Free]], X, false, x, o);
    var s7 := GameState([[XMark, OMark, XMark], [XMark, OMark, OMark], [Free, XMark, Free]], O, false, x, o);
    var s8 := GameState([[XMark, OMark, XMark], [XMark, OMark, OMark], [OMark, XMark, Free]], X, false, x, o);
    var b9 := [[XMark, OMark, XMark], [XMark, OMark, OMark], [OMark, XMark, XMark]];
    QuietMove(s5, 1, 2, s6.board);
    QuietMove(s6, 2, 1, s7.board);
    QuietMove(s7, 2, 0, s8.board);
    SameCells(Place(s8.board, 2, 2, X), b9);
    assert Full(b9);
  }

  /** From a fresh round, nine alternating moves end in the board
        X O X
        X O O
        O X X
      which holds no line: a draw, with no score change. */
  lemma FullBoardDraw(x: nat, o: nat)
    ensures var t1 := CellClicked(GameState(EmptyBoard, X, false, x, o), 0, 0);
      var t2 := CellClicked(t1, 0, 1);
      var t3 := CellClicked(t2, 0, 2);
      var t4 := CellClicked(t3, 1, 1);
      var t5 := CellClicked(t4, 1, 0);
      var t6 := CellClicked(t5, 1, 2);
      var t7 := CellClicked(t6, 2, 1);
      var t8 := CellClicked(t7, 2, 0);
      var t := CellClicked(t8, 2, 2);
      t.gameOver && t.current == X && t.scoreX == x && t.scoreO == o &&
      t.board == [[XMark, OMark, XMark], [XMark, OMark, OMark], [OMark, XMark, XMark]]
  {
    DrawOpening(x, o);
    DrawEnding(x, o);
  }
}
