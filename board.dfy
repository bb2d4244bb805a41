/**
 * The 3x3 board of a tic-tac-toe game and its two terminal tests:
 * `check_winner_board` (some row, column or diagonal held by one player)
 * and `is_board_full_board` (no empty cell left).
 */
module Board {

  /** One cell of the board: " ", "X" or "O". */
  datatype Cell = Empty | X | O

  /** The fixed triples the source scans, in its order: rows, columns, diagonals. */
  const WinConditions: seq<(nat, nat, nat)> :=
    [(0, 1, 2), (3, 4, 5), (6, 7, 8),
     (0, 3, 6), (1, 4, 7), (2, 5, 8),
     (0, 4, 8), (2, 4, 6)]

  /** A board of the game always has nine cells. */
  predicate IsBoard(b: seq<Cell>) {
    |b| == 9
  }

  function EmptyBoard(): (b: seq<Cell>)
    ensures IsBoard(b) && forall i | 0 <= i < 9 :: b[i] == Empty
  {
    [Empty, Empty, Empty, Empty, Empty, Empty, Empty, Empty, Empty]
  }

  /** All three cells of `line` hold `player`. */
  predicate Holds(player: Cell, b: seq<Cell>, line: (nat, nat, nat))
    requires IsBoard(b) && line.0 < 9 && line.1 < 9 && line.2 < 9
  {
    b[line.0] == player && b[line.1] == player && b[line.2] == player
  }

  /** `check_winner_board`: some win condition is held by `player`. */
  predicate CheckWinnerBoard(player: Cell, b: seq<Cell>)
    requires IsBoard(b)
  {
    exists k | 0 <= k < |WinConditions| :: Holds(player, b, WinConditions[k])
  }

  /** `is_board_full_board`: no cell is " ". */
  predicate IsBoardFullBoard(b: seq<Cell>) {
    Empty !in b
  }

  /** Number of cells of `b` that hold `c`. */
  function Count(b: seq<Cell>, c: Cell): nat {
    if b == [] then 0 else (if b[0] == c then 1 else 0) + Count(b[1..], c)
  }

  /** Cell at row `r`, column `c` (both in 0..2) of the 3x3 grid. */
  function At(b: seq<Cell>, r: nat, c: nat): Cell
    requires IsBoard(b) && r < 3 && c < 3
  {
    b[3 * r + c]
  }

  predicate RowHeld(player: Cell, b: seq<Cell>, r: nat)
    requires IsBoard(b) && r < 3
  {
    forall c | 0 <= c < 3 :: At(b, r, c) == player
  }

  predicate ColumnHeld(player: Cell, b: seq<Cell>, c: nat)
    requires IsBoard(b) && c < 3
  {
    forall r | 0 <= r < 3 :: At(b, r, c) == player
  }

  /** Cell `d` of the anti-diagonal, from the top-right corner down. */
  function AntiDiagonalAt(b: seq<Cell>, d: nat): Cell
    requires IsBoard(b) && d < 3
  {
    At(b, d, 2 - d)
  }

  /**
   * Reference definition of a win on the 3x3 grid, by coordinates: a full
   * row, a full column, the main diagonal or the anti-diagonal.
   */
  ghost predicate ThreeInARow(player: Cell, b: seq<Cell>)
    requires IsBoard(b)
  {
    || (exists r | 0 <= r < 3 :: RowHeld(player, b, r))
    || (exists c | 0 <= c < 3 :: ColumnHeld(player, b, c))
    || (forall d | 0 <= d < 3 :: At(b, d, d) == player)
    || (forall d | 0 <= d < 3 :: AntiDiagonalAt(b, d) == player)
  }

  /** The scan over the eight triples is exactly "three in a row" on the grid. */
  lemma CheckWinnerIsThreeInARow(player: Cell, b: seq<Cell>)
    requires IsBoard(b)
    ensures CheckWinnerBoard(player, b) <==> ThreeInARow(player, b)
  {
    if CheckWinnerBoard(player, b) {
      WinningTripleIsThreeInARow(player, b);
    }
    if ThreeInARow(player, b) {
      ThreeInARowIsWinningTriple(player, b);
    }
  }

  /** Each of the eight triples is a row, a column or a diagonal. */
  lemma WinningTripleIsThreeInARow(player: Cell, b: seq<Cell>)
    requires IsBoard(b) && CheckWinnerBoard(player, b)
    ensures ThreeInARow(player, b)
  {
    var k :| 0 <= k < |WinConditions| && Holds(player, b, WinConditions[k]);
    if k < 3 {
      assert RowHeld(player, b, k);
    } else if k < 6 {
      assert ColumnHeld(player, b, k - 3);
    } else if k == 6 {
      assert forall d | 0 <= d < 3 :: At(b, d, d) == player;
    } else {
      assert forall d | 0 <= d < 3 :: AntiDiagonalAt(b, d) == player;
    }
  }

  /** Every row, column and diagonal is one of the eight triples. */
  lemma ThreeInARowIsWinningTriple(player: Cell, b: seq<Cell>)
    requires IsBoard(b) && ThreeInARow(player, b)
    ensures CheckWinnerBoard(player, b)
  {
    if r :| 0 <= r < 3 && RowHeld(player, b, r) {
      assert At(b, r, 0) == player && At(b, r, 1) == player && At(b, r, 2) == player;
      assert Holds(player, b, WinConditions[r]);
    } else if c :| 0 <= c < 3 && ColumnHeld(player, b, c) {
      assert At(b, 0, c) == player && At(b, 1, c) == player && At(b, 2, c) == player;
      assert Holds(player, b, WinConditions[3 + c]);
    } else if forall d | 0 <= d < 3 :: At(b, d, d) == player {
      assert At(b, 0, 0) == player && At(b, 1, 1) == player && At(b, 2, 2) == player;
      assert Holds(player, b, WinConditions[6]);
    } else {
      assert AntiDiagonalAt(b, 0) == player && AntiDiagonalAt(b, 1) == player;
      assert AntiDiagonalAt(b, 2) == player;
      assert Holds(player, b, WinConditions[7]);
    }
  }

  /** A full board has no empty cell to count, and only a full board. */
  lemma {:induction false} FullIffNoEmptyCount(b: seq<Cell>)
    ensures IsBoardFullBoard(b) <==> Count(b, Empty) == 0
  {
    if b != [] {
      FullIffNoEmptyCount(b[1..]);
      assert b == [b[0]] + b[1..];
    }
  }

  /** Writing `m` over cell `i` moves one cell from the old value's count to `m`'s. */
  lemma {:induction false} CountAfterWrite(b: seq<Cell>, i: nat, m: Cell, c: Cell)
    requires i < |b|
    ensures Count(b[i := m], c) ==
              Count(b, c) - (if b[i] == c then 1 else 0) + (if m == c then 1 else 0)
  {
    if i == 0 {
      assert b[i := m][1..] == b[1..];
    } else {
      CountAfterWrite(b[1..], i - 1, m, c);
      assert b[i := m][1..] == b[1..][i - 1 := m];
    }
  }

  /**
   * Placing a mark other than `player` cannot give `player` a line, and a
   * line held by `player` survives a write to a cell it does not occupy.
   */
  lemma OtherMarkKeepsLines(player: Cell, b: seq<Cell>, i: nat, m: Cell)
    requires IsBoard(b) && i < 9 && m != player
    ensures CheckWinnerBoard(player, b[i := m]) ==> CheckWinnerBoard(player, b)
  {
    if CheckWinnerBoard(player, b[i := m]) {
      var k :| 0 <= k < |WinConditions| && Holds(player, b[i := m], WinConditions[k]);
      assert Holds(player, b, WinConditions[k]);
    }
  }

  lemma LineSurvivesWriteOffLine(player: Cell, b: seq<Cell>, i: nat, m: Cell)
    requires IsBoard(b) && i < 9 && b[i] != player
    ensures CheckWinnerBoard(player, b) ==> CheckWinnerBoard(player, b[i := m])
  {
    if CheckWinnerBoard(player, b) {
      var k :| 0 <= k < |WinConditions| && Holds(player, b, WinConditions[k]);
      assert Holds(player, b[i := m], WinConditions[k]);
    }
  }
}
