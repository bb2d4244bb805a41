/**
 * The computer opponent's search: the minimax value of a board and the
 * reply `computer_move` picks with it. Both are stated here as pure
 * functions over board values; the in-place search of the game class is
 * proved to compute them.
 */
module Search {
  import opened Wrappers
  import opened Board

  /** Integer stand-ins for the source's `float("-inf")` and `float("inf")`. */
  const NegInf: int := -2
  const PosInf: int := 2

  /** O is the maximising side and X the minimising side. */
  function Mover(maximizing: bool): Cell {
    if maximizing then O else X
  }

  /** The starting best score of a scan: -inf when maximising, +inf when minimising. */
  function Sentinel(maximizing: bool): int {
    if maximizing then NegInf else PosInf
  }

  function Max(a: int, b: int): int { if a >= b then a else b }

  function Min(a: int, b: int): int { if a <= b then a else b }

  /**
   * `minimax(board, depth, is_maximizing)`: an O line scores +1, then an X
   * line -1, then a full board 0; otherwise the best over the empty cells,
   * scanned 0..8, of the value after the side to move plays there.
   */
  function Value(b: seq<Cell>, maximizing: bool): (v: int)
    requires IsBoard(b)
    ensures -1 <= v <= 1
    decreases Count(b, Empty), 1, 0
  {
    if CheckWinnerBoard(O, b) then 1
    else if CheckWinnerBoard(X, b) then -1
    else if IsBoardFullBoard(b) then 0
    else Scan(b, 0, maximizing, Sentinel(maximizing))
  }

  /** The loop of `minimax` over cells `i`..8, with `best` the score so far. */
  function Scan(b: seq<Cell>, i: nat, maximizing: bool, best: int): (r: int)
    requires IsBoard(b) && i <= 9
    requires best == Sentinel(maximizing) || -1 <= best <= 1
    ensures r == Sentinel(maximizing) || -1 <= r <= 1
    ensures (-1 <= best <= 1 || exists j | i <= j < 9 :: b[j] == Empty) ==> -1 <= r <= 1
    ensures best == Sentinel(maximizing) && (forall j | i <= j < 9 :: b[j] != Empty) ==> r == best
    decreases Count(b, Empty), 0, 9 - i
  {
    if i == 9 then best
    else if b[i] == Empty then
      var score := ChildValue(b, i, maximizing);
      Scan(b, i + 1, maximizing, if maximizing then Max(score, best) else Min(score, best))
    else
      Scan(b, i + 1, maximizing, best)
  }

  /** The value of the side to move playing the empty cell `j`. */
  function ChildValue(b: seq<Cell>, j: nat, maximizing: bool): (v: int)
    requires IsBoard(b) && j < 9 && b[j] == Empty
    ensures -1 <= v <= 1
    decreases Count(b, Empty), 0, 0
  {
    CountAfterWrite(b, j, Mover(maximizing), Empty);
    Value(b[j := Mover(maximizing)], !maximizing)
  }

  /**
   * The terminal tests come in a fixed order: a board on which both players
   * hold a line scores as an O win, whichever side is to move.
   */
  lemma OWinCheckedFirst(maximizing: bool)
    ensures Value([O, O, O, X, X, X, Empty, Empty, Empty], maximizing) == 1
  {
    assert Holds(O, [O, O, O, X, X, X, Empty, Empty, Empty], WinConditions[0]);
  }

  /** The score `computer_move` gives to an O at the empty cell `j`. */
  function OScore(b: seq<Cell>, j: nat): (v: int)
    requires IsBoard(b) && j < 9 && b[j] == Empty
    ensures -1 <= v <= 1
    ensures CheckWinnerBoard(O, b[j := O]) ==> v == 1
  {
    assert Mover(true) == O;
    var v := ChildValue(b, j, true);
    assert v == Value(b[j := O], false);
    v
  }

  /** The scan ends on its starting score or on the value of some empty cell it passed. */
  lemma {:induction false} ScanIsAttained(b: seq<Cell>, i: nat, maximizing: bool, best: int)
    requires IsBoard(b) && i <= 9
    requires best == Sentinel(maximizing) || -1 <= best <= 1
    ensures var r := Scan(b, i, maximizing, best);
      r == best || exists j | i <= j < 9 && b[j] == Empty :: r == ChildValue(b, j, maximizing)
    decreases 9 - i
  {
    if i < 9 {
      if b[i] == Empty {
        var score := ChildValue(b, i, maximizing);
        ScanIsAttained(b, i + 1, maximizing, if maximizing then Max(score, best) else Min(score, best));
      } else {
        ScanIsAttained(b, i + 1, maximizing, best);
      }
    }
  }

  /** O's scan ends at or above its starting score and every empty cell's value it passes. */
  lemma {:induction false} MaxScanIsUpperBound(b: seq<Cell>, i: nat, best: int)
    requires IsBoard(b) && i <= 9
    requires best == Sentinel(true) || -1 <= best <= 1
    ensures var r := Scan(b, i, true, best);
      r >= best && forall j | i <= j < 9 && b[j] == Empty :: ChildValue(b, j, true) <= r
    decreases 9 - i
  {
    if i < 9 {
      if b[i] == Empty {
        MaxScanIsUpperBound(b, i + 1, Max(ChildValue(b, i, true), best));
      } else {
        MaxScanIsUpperBound(b, i + 1, best);
      }
    }
  }

  /** X's scan ends at or below its starting score and every empty cell's value it passes. */
  lemma {:induction false} MinScanIsLowerBound(b: seq<Cell>, i: nat, best: int)
    requires IsBoard(b) && i <= 9
    requires best == Sentinel(false) || -1 <= best <= 1
    ensures var r := Scan(b, i, false, best);
      r <= best && forall j | i <= j < 9 && b[j] == Empty :: ChildValue(b, j, false) >= r
    decreases 9 - i
  {
    if i < 9 {
      if b[i] == Empty {
        MinScanIsLowerBound(b, i + 1, Min(ChildValue(b, i, false), best));
      } else {
        MinScanIsLowerBound(b, i + 1, best);
      }
    }
  }

  /**
   * On an undecided board the minimax value is the best reply of the side to
   * move: O takes the largest child value, X the smallest, and some empty cell
   * attains it.
   */
  lemma ValueOfOpenBoard(b: seq<Cell>, maximizing: bool)
    requires IsBoard(b)
    requires !CheckWinnerBoard(O, b) && !CheckWinnerBoard(X, b) && !IsBoardFullBoard(b)
    ensures exists j | 0 <= j < 9 && b[j] == Empty :: Value(b, maximizing) == ChildValue(b, j, maximizing)
    ensures maximizing ==>
      forall j | 0 <= j < 9 && b[j] == Empty :: ChildValue(b, j, true) <= Value(b, true)
    ensures !maximizing ==>
      forall j | 0 <= j < 9 && b[j] == Empty :: ChildValue(b, j, false) >= Value(b, false)
  {
    ScanIsAttained(b, 0, maximizing, Sentinel(maximizing));
    if maximizing {
      MaxScanIsUpperBound(b, 0, Sentinel(true));
    } else {
      MinScanIsLowerBound(b, 0, Sentinel(false));
    }
  }

  /**
   * The score `computer_move` gets from `minimax` for each cell it tries:
   * `OScore` on an empty cell; an occupied cell is never scored.
   */
  function Scores(b: seq<Cell>): (sc: seq<int>)
    requires IsBoard(b)
    ensures |sc| == 9
    ensures forall j | 0 <= j < 9 && b[j] == Empty :: sc[j] == OScore(b, j) && sc[j] > NegInf
  {
    seq(9, j requires 0 <= j < 9 => if b[j] == Empty then OScore(b, j) else 0)
  }

  /**
   * The loop of `computer_move` over cells `i`..8, given the score of each
   * cell: a cell replaces the best move only when its score is strictly
   * greater than the best score so far.
   */
  function ChooseScan(b: seq<Cell>, scores: seq<int>, i: nat, bestScore: int, bestMove: Option<nat>): (r: Option<nat>)
    requires IsBoard(b) && |scores| == 9 && i <= 9
    requires bestMove.Some? ==> bestMove.value < 9
    ensures r.Some? ==> r.value < 9
    decreases |b| - i
  {
    if i == 9 then bestMove
    else if b[i] == Empty && scores[i] > bestScore then ChooseScan(b, scores, i + 1, scores[i], Some(i))
    else ChooseScan(b, scores, i + 1, bestScore, bestMove)
  }

  /**
   * The cell `computer_move` plays: none exactly on a full board, and
   * otherwise the lowest-index empty cell of maximal minimax score.
   */
  function BestMove(b: seq<Cell>): (r: Option<nat>)
    requires IsBoard(b)
    ensures r.None? <==> IsBoardFullBoard(b)
    ensures r.Some? ==> IsFirstBestReply(b, r.value)
  {
    ChooseScanFindsFirstBest(b, Scores(b), 0, NegInf, None);
    ChooseScan(b, Scores(b), 0, NegInf, None)
  }

  /** `k` is the first empty cell of maximal minimax score for O. */
  ghost predicate IsFirstBestReply(b: seq<Cell>, k: nat)
    requires IsBoard(b)
  {
    IsFirstBest(b, Scores(b), k)
  }

  /** `k` is the first empty cell of maximal score, by the scores given. */
  ghost predicate IsFirstBest(b: seq<Cell>, scores: seq<int>, k: nat)
    requires IsBoard(b) && |scores| == 9
  {
    && k < 9 && b[k] == Empty
    && (forall j | 0 <= j < 9 && b[j] == Empty :: scores[j] <= scores[k])
    && (forall j | 0 <= j < k && b[j] == Empty :: scores[j] < scores[k])
  }

  /** What the loop of `computer_move` knows after scanning cells 0..i-1. */
  ghost predicate ChoiceSoFar(b: seq<Cell>, scores: seq<int>, i: nat, bestScore: int, bestMove: Option<nat>)
    requires IsBoard(b) && |scores| == 9 && i <= 9
  {
    match bestMove
    case None =>
      bestScore == NegInf && forall j | 0 <= j < i :: b[j] != Empty
    case Some(k) =>
      && k < i && b[k] == Empty && bestScore == scores[k]
      && (forall j | 0 <= j < i && b[j] == Empty :: scores[j] <= bestScore)
      && (forall j | 0 <= j < k && b[j] == Empty :: scores[j] < bestScore)
  }

  lemma {:induction false} ChooseScanFindsFirstBest(
    b: seq<Cell>, scores: seq<int>, i: nat, bestScore: int, bestMove: Option<nat>)
    requires IsBoard(b) && |scores| == 9 && i <= 9
    requires forall j | 0 <= j < 9 && b[j] == Empty :: scores[j] > NegInf
    requires ChoiceSoFar(b, scores, i, bestScore, bestMove)
    ensures bestMove.Some? ==> bestMove.value < 9
    ensures var r := ChooseScan(b, scores, i, bestScore, bestMove);
      && (r.None? <==> IsBoardFullBoard(b))
      && (r.Some? ==> IsFirstBest(b, scores, r.value))
    decreases 9 - i
  {
    if i == 9 {
      if bestMove.None? {
        assert forall j | 0 <= j < 9 :: b[j] != Empty;
      } else {
        assert b[bestMove.value] == Empty;
      }
    } else if b[i] == Empty && scores[i] > bestScore {
      ChooseScanFindsFirstBest(b, scores, i + 1, scores[i], Some(i));
    } else {
      ChooseScanFindsFirstBest(b, scores, i + 1, bestScore, bestMove);
    }
  }

  /** When O can complete a line at once, the chosen reply is a forced win (score +1). */
  lemma ComputerSecuresWin(b: seq<Cell>, j: nat)
    requires IsBoard(b) && j < 9 && b[j] == Empty
    requires CheckWinnerBoard(O, b[j := O])
    ensures BestMove(b).Some? && IsFirstBestReply(b, BestMove(b).value)
    ensures OScore(b, BestMove(b).value) == 1
  {
    assert Value(b[j := O], false) == 1;
  }

  /**
   * When X threatens to complete a line at `t`, O has no immediate win, and
   * blocking at `t` does not lose, the computer blocks at `t`: every other
   * reply lets X win next move.
   */
  lemma ComputerBlocksThreat(b: seq<Cell>, t: nat)
    requires IsBoard(b) && t < 9 && b[t] == Empty
    requires !CheckWinnerBoard(X, b) && CheckWinnerBoard(X, b[t := X])
    requires forall j | 0 <= j < 9 && b[j] == Empty :: !CheckWinnerBoard(O, b[j := O])
    requires OScore(b, t) > -1
    ensures BestMove(b) == Some(t)
  {
    var k := BestMove(b).value;
    if k != t {
      var b' := b[k := O];
      OtherMarkKeepsLines(X, b, k, O);
      assert b'[t] == Empty;
      OtherMarkKeepsLines(O, b', t, X);
      LineSurvivesWriteOffLine(X, b[t := X], k, O);
      assert b'[t := X] == b[t := X][k := O];
      assert ChildValue(b', t, false) == -1;
      ValueOfOpenBoard(b', false);
      assert false;
    }
  }
}
