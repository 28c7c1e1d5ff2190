/** The 3x3 tic-tac-toe board as a value: players, cells, the eight lines
    and mark counting. The game engine keeps the board in an array; this
    module gives the value that array denotes and the facts about it that
    the rules rely on. */
module Grid {

  /** The two players; X always opens a round. */
  datatype Player = X | O

  /** A cell holds no mark (the empty text of the source) or one player's mark. */
  datatype Cell = Empty | Taken(owner: Player)

  /** The player who moves after `p`. */
  function Other(p: Player): (q: Player)
    ensures q != p
  {
    if p == X then O else X
  }

  /** A row or column number. */
  type Index = i: int | 0 <= i < 3

  /** A board, indexed `b[row][col]`. */
  type Board = b: seq<seq<Cell>> | |b| == 3 && forall i :: 0 <= i < |b| ==> |b[i]| == 3
    witness [[Empty, Empty, Empty], [Empty, Empty, Empty], [Empty, Empty, Empty]]

  const EmptyBoard: Board := [[Empty, Empty, Empty], [Empty, Empty, Empty], [Empty, Empty, Empty]]

  /** Two boards that agree on every cell are the same board. */
  lemma SameCells(a: Board, b: Board)
    requires forall i: Index, j: Index :: a[i][j] == b[i][j]
    ensures a == b
  {
    forall i: Index
      ensures a[i] == b[i]
    {
      assert forall j: Index :: a[i][j] == b[i][j];
    }
  }

  /** The board after `p` writes its mark into cell (r, c). */
  function Place(b: Board, r: Index, c: Index, p: Player): (b': Board)
    ensures forall i: Index, j: Index :: b'[i][j] == if i == r && j == c then Taken(p) else b[i][j]
  {
    b[r := b[r][c := Taken(p)]]
  }

  predicate RowFilled(b: Board, i: Index, p: Player)
  {
    b[i][0] == Taken(p) && b[i][1] == Taken(p) && b[i][2] == Taken(p)
  }

  predicate ColumnFilled(b: Board, j: Index, p: Player)
  {
    b[0][j] == Taken(p) && b[1][j] == Taken(p) && b[2][j] == Taken(p)
  }

  predicate DiagonalFilled(b: Board, p: Player)
  {
    b[0][0] == Taken(p) && b[1][1] == Taken(p) && b[2][2] == Taken(p)
  }

  predicate AntiDiagonalFilled(b: Board, p: Player)
  {
    b[0][2] == Taken(p) && b[1][1] == Taken(p) && b[2][0] == Taken(p)
  }

  /** `p` holds all three cells of some row, column or diagonal, in the order
      the engine examines them. */
  predicate Wins(b: Board, p: Player)
  {
    RowFilled(b, 0, p) || RowFilled(b, 1, p) || RowFilled(b, 2, p) ||
    ColumnFilled(b, 0, p) || ColumnFilled(b, 1, p) || ColumnFilled(b, 2, p) ||
    DiagonalFilled(b, p) || AntiDiagonalFilled(b, p)
  }

  /** No cell is empty. */
  predicate Full(b: Board)
  {
    forall i: Index, j: Index :: b[i][j] != Empty
  }

  /** The eight winning lines as a table of (row, col) triples: an independent
      description of what `Wins` checks. */
  const Lines: seq<seq<(Index, Index)>> := [
    [(0, 0), (0, 1), (0, 2)], [(1, 0), (1, 1), (1, 2)], [(2, 0), (2, 1), (2, 2)],
    [(0, 0), (1, 0), (2, 0)], [(0, 1), (1, 1), (2, 1)], [(0, 2), (1, 2), (2, 2)],
    [(0, 0), (1, 1), (2, 2)], [(0, 2), (1, 1), (2, 0)]
  ]

  predicate LineFilled(b: Board, line: seq<(Index, Index)>, p: Player)
  {
    forall k :: 0 <= k < |line| ==> b[line[k].0][line[k].1] == Taken(p)
  }

  /** `Wins` holds exactly when one of the eight lines of the table is all `p`. */
  lemma WinsByLineTable(b: Board, p: Player)
    ensures Wins(b, p) <==> exists n :: 0 <= n < |Lines| && LineFilled(b, Lines[n], p)
  {
    if Wins(b, p) {
      var n :=
        if RowFilled(b, 0, p) then 0 else if RowFilled(b, 1, p) then 1
        else if RowFilled(b, 2, p) then 2 else if ColumnFilled(b, 0, p) then 3
        else if ColumnFilled(b, 1, p) then 4 else if ColumnFilled(b, 2, p) then 5
        else if DiagonalFilled(b, p) then 6 else 7;
      assert LineFilled(b, Lines[n], p);
    }
    if n :| 0 <= n < |Lines| && LineFilled(b, Lines[n], p) {
      var line := Lines[n];
      assert b[line[0].0][line[0].1] == Taken(p);
      assert b[line[1].0][line[1].1] == Taken(p);
      assert b[line[2].0][line[2].1] == Taken(p);
    }
  }

  /** A mark for `p` can never complete a line for anybody else. */
  lemma PlaceKeepsNoWin(b: Board, r: Index, c: Index, p: Player, q: Player)
    requires q != p && !Wins(b, q)
    ensures !Wins(Place(b, r, c, p), q)
  {
    var b' := Place(b, r, c, p);
    forall i: Index, j: Index | b'[i][j] == Taken(q)
      ensures b[i][j] == Taken(q)
    {
    }
  }

  /** How many entries of `cs` equal `x`. */
  function Count(cs: seq<Cell>, x: Cell): (n: nat)
    ensures n <= |cs|
  {
    if cs == [] then 0 else (if cs[0] == x then 1 else 0) + Count(cs[1..], x)
  }

  /** The cells of a board, row by row. */
  function Cells(b: Board): seq<Cell>
  {
    b[0] + b[1] + b[2]
  }

  /** How many cells of the board equal `x`. */
  function Tally(b: Board, x: Cell): (n: nat)
    ensures n <= 9
  {
    Count(Cells(b), x)
  }

  lemma {:induction false} CountAppend(s: seq<Cell>, t: seq<Cell>, x: Cell)
    ensures Count(s + t, x) == Count(s, x) + Count(t, x)
  {
    if s == [] {
      assert s + t == t;
    } else {
      assert (s + t)[1..] == s[1..] + t;
      CountAppend(s[1..], t, x);
    }
  }

  /** Overwriting entry `k` with `v` removes one occurrence of the old entry
      and adds one of `v`. */
  lemma {:induction false} CountUpdate(cs: seq<Cell>, k: nat, v: Cell, x: Cell)
    requires k < |cs|
    ensures Count(cs[k := v], x) == Count(cs, x) - (if cs[k] == x then 1 else 0) + (if v == x then 1 else 0)
  {
    if k == 0 {
      assert cs[k := v][1..] == cs[1..];
    } else {
      assert cs[k := v][1..] == cs[1..][k - 1 := v];
      CountUpdate(cs[1..], k - 1, v, x);
    }
  }

  lemma {:induction false} CountNone(cs: seq<Cell>, x: Cell)
    ensures Count(cs, x) == 0 <==> forall k :: 0 <= k < |cs| ==> cs[k] != x
  {
    if cs != [] {
      CountNone(cs[1..], x);
      assert forall k :: 1 <= k < |cs| ==> cs[k] == cs[1..][k - 1];
    }
  }

  /** Every entry is empty, an X or an O. */
  lemma {:induction false} CountPartition(cs: seq<Cell>)
    ensures Count(cs, Empty) + Count(cs, Taken(X)) + Count(cs, Taken(O)) == |cs|
  {
    if cs != [] {
      CountPartition(cs[1..]);
      match cs[0]
      case Empty =>
      case Taken(p) => assert p == X || p == O;
    }
  }

  /** The tally of any value on a board splits over its rows. */
  lemma TallyRows(b: Board, x: Cell)
    ensures Tally(b, x) == Count(b[0], x) + Count(b[1], x) + Count(b[2], x)
  {
    CountAppend(b[0] + b[1], b[2], x);
    CountAppend(b[0], b[1], x);
  }

  /** The nine cells are split among empty, X and O. */
  lemma TallyTotal(b: Board)
    ensures Tally(b, Empty) + Tally(b, Taken(X)) + Tally(b, Taken(O)) == 9
  {
    CountPartition(Cells(b));
  }

  /** Placing a mark in an empty cell adds one mark of that player and takes
      one empty cell away; every other tally stays. */
  lemma TallyPlace(b: Board, r: Index, c: Index, p: Player, x: Cell)
    requires b[r][c] == Empty
    ensures Tally(Place(b, r, c, p), x) ==
            Tally(b, x) + (if x == Taken(p) then 1 else 0) - (if x == Empty then 1 else 0)
  {
    var b' := Place(b, r, c, p);
    TallyRows(b, x);
    TallyRows(b', x);
    assert b'[r] == b[r][c := Taken(p)];
    CountUpdate(b[r], c, Taken(p), x);
    forall i: Index | i != r
      ensures b'[i] == b[i]
    {
    }
  }

  /** A board is full exactly when no cell is counted as empty. */
  lemma FullIffNoEmpty(b: Board)
    ensures Full(b) <==> Tally(b, Empty) == 0
  {
    TallyRows(b, Empty);
    forall i: Index
      ensures Count(b[i], Empty) == 0 <==> forall j: Index :: b[i][j] != Empty
    {
      CountNone(b[i], Empty);
    }
  }

  /** The empty board holds no mark of either player and is not full. */
  lemma EmptyBoardTally(p: Player)
    ensures Tally(EmptyBoard, Taken(p)) == 0
    ensures !Full(EmptyBoard) && !Wins(EmptyBoard, p)
  {
    var cs := Cells(EmptyBoard);
    assert forall k :: 0 <= k < |cs| ==> cs[k] == Empty;
    CountNone(cs, Taken(p));
    assert EmptyBoard[0][0] == Empty;
  }
}
