/**
 * The single-player game engine, `TicTacToeGame`: a human move as X, an
 * immediate reply by the computer as O, and the win / full-board checks
 * that end the game. The pure functions below specify one move on a
 * snapshot of the game; the class keeps the board in a mutable array and
 * its methods are proved to act as those functions say.
 */
module Game {
  import opened Wrappers
  import opened Board
  import opened Search

  /** The dictionary returned by `get_game_state`. */
  datatype GameState = GameState(
    gameId: string,
    board: seq<Cell>,
    currentPlayer: string,
    winner: string,
    gameOver: bool)

  /** The value `make_move` returns, with the state it leaves behind. */
  datatype MoveResult = MoveResult(ok: bool, state: GameState)

  /** A game as `__init__` creates it when only an identifier is given. */
  function NewGame(gameId: string): (s: GameState)
    ensures IsBoard(s.board) && Count(s.board, Empty) == 9
    ensures s.gameId == gameId && s.currentPlayer == "X" && s.winner == "" && !s.gameOver
  {
    GameState(gameId, EmptyBoard(), "X", "", false)
  }

  /** `after` is `before` with one O on its first best-scoring empty cell `k`. */
  ghost predicate RepliedAt(before: seq<Cell>, after: seq<Cell>, k: int)
    requires IsBoard(before)
  {
    0 <= k < 9 && IsFirstBestReply(before, k) && after == before[k := O]
  }

  /** The computer placed exactly one O, on the first best-scoring empty cell of `before`. */
  ghost predicate Replied(before: seq<Cell>, after: seq<Cell>)
    requires IsBoard(before)
  {
    exists k :: RepliedAt(before, after, k)
  }

  /**
   * `computer_move` on a snapshot: nothing happens on a finished game or a
   * full board; otherwise one O goes to the first best-scoring empty cell,
   * and the game ends on an O line or a full board, or passes back to X.
   */
  function ComputerMoveSpec(s: GameState): (r: GameState)
    requires IsBoard(s.board)
    ensures IsBoard(r.board) && r.gameId == s.gameId
    ensures s.gameOver || IsBoardFullBoard(s.board) ==> r == s
    ensures !s.gameOver && !IsBoardFullBoard(s.board) ==>
      && Replied(s.board, r.board)
      && (CheckWinnerBoard(O, r.board) ==> r.winner == "O" && r.gameOver && r.currentPlayer == s.currentPlayer)
      && (!CheckWinnerBoard(O, r.board) ==> r.winner == s.winner)
      && (!CheckWinnerBoard(O, r.board) && IsBoardFullBoard(r.board) ==>
            r.gameOver && r.currentPlayer == s.currentPlayer)
      && (!CheckWinnerBoard(O, r.board) && !IsBoardFullBoard(r.board) ==>
            !r.gameOver && r.currentPlayer == "X")
  {
    if s.gameOver then s
    else match BestMove(s.board)
      case None => s
      case Some(k) =>
        var b := s.board[k := O];
        assert RepliedAt(s.board, b, k);
        if CheckWinnerBoard(O, b) then s.(board := b, winner := "O", gameOver := true)
        else if IsBoardFullBoard(b) then s.(board := b, gameOver := true)
        else s.(board := b, currentPlayer := "X")
  }

  /**
   * `make_move(position)` on a snapshot, without the save to the database.
   * The human always plays X.
   */
  function MakeMoveSpec(s: GameState, position: nat): (r: MoveResult)
    requires IsBoard(s.board) && position < 9
    ensures IsBoard(r.state.board) && r.state.gameId == s.gameId
    // rejected exactly on a finished game or a taken cell, and then nothing changes
    ensures r.ok <==> !s.gameOver && s.board[position] == Empty
    ensures !r.ok ==> r.state == s
    // no occupied cell is ever overwritten; X lands on `position`, O only on an empty cell
    ensures r.ok ==> r.state.board[position] == X
    ensures forall i | 0 <= i < 9 && s.board[i] != Empty :: r.state.board[i] == s.board[i]
    ensures forall i | 0 <= i < 9 && i != position && r.state.board[i] != s.board[i] ::
      s.board[i] == Empty && r.state.board[i] == O
    // X completes a line: X wins and the computer does not reply
    ensures r.ok && CheckWinnerBoard(X, s.board[position := X]) ==>
      r.state.board == s.board[position := X] && r.state.winner == "X" && r.state.gameOver
    // X fills the board without a line: the game ends, the winner is untouched
    ensures r.ok && !CheckWinnerBoard(X, s.board[position := X]) && IsBoardFullBoard(s.board[position := X]) ==>
      r.state.board == s.board[position := X] && r.state.winner == s.winner && r.state.gameOver
    // otherwise exactly one O, at the first best-scoring empty cell
    ensures r.ok && !CheckWinnerBoard(X, s.board[position := X]) && !IsBoardFullBoard(s.board[position := X]) ==>
      Replied(s.board[position := X], r.state.board)
    // and then the outcome of the game is the one of the computer's reply
    ensures r.ok && !CheckWinnerBoard(X, s.board[position := X]) && !IsBoardFullBoard(s.board[position := X]) ==>
      r.state == ComputerMoveSpec(s.(board := s.board[position := X]))
    // the turn is never handed to O
    ensures r.state.currentPlayer == s.currentPlayer || r.state.currentPlayer == "X"
    // every other outcome keeps the player to move
    ensures !(r.ok && !CheckWinnerBoard(X, s.board[position := X]) && !IsBoardFullBoard(s.board[position := X])) ==>
      r.state.currentPlayer == s.currentPlayer
  {
    if s.gameOver || s.board[position] != Empty then
      MoveResult(false, s)
    else
      var b := s.board[position := X];
      if CheckWinnerBoard(X, b) then
        MoveResult(true, s.(board := b, winner := "X", gameOver := true))
      else if IsBoardFullBoard(b) then
        MoveResult(true, s.(board := b, gameOver := true))
      else
        MoveResult(true, ComputerMoveSpec(s.(board := b)))
  }

  /**
   * The states the engine can reach from a new game: X's turn, X has as
   * many marks as O or one more, `winner` names exactly the player holding
   * a line, and the game is over exactly when someone won or the board is
   * full; while it runs the marks are even.
   */
  ghost predicate Coherent(s: GameState) {
    && IsBoard(s.board)
    && s.currentPlayer == "X"
    && (Count(s.board, X) == Count(s.board, O) || Count(s.board, X) == Count(s.board, O) + 1)
    && (s.winner == "" || s.winner == "X" || s.winner == "O")
    && (s.winner == "X" <==> CheckWinnerBoard(X, s.board))
    && (s.winner == "O" <==> CheckWinnerBoard(O, s.board))
    && (s.gameOver <==> s.winner != "" || IsBoardFullBoard(s.board))
    && (!s.gameOver ==> Count(s.board, X) == Count(s.board, O))
  }

  lemma NewGameIsCoherent(gameId: string)
    ensures Coherent(NewGame(gameId))
  {
    var b := NewGame(gameId).board;
    NoLineWithOneMark(X, b, 0);
    NoLineWithOneMark(O, b, 0);
    assert b[0] == Empty;
  }

  /** Every accepted move keeps the game coherent. */
  lemma MakeMovePreservesCoherent(s: GameState, position: nat)
    requires Coherent(s) && position < 9
    ensures Coherent(MakeMoveSpec(s, position).state)
  {
    var r := MakeMoveSpec(s, position);
    if r.ok {
      var b0 := s.board;
      var b1 := b0[position := X];
      OtherMarkKeepsLines(O, b0, position, X);
      CountAfterWrite(b0, position, X, X);
      CountAfterWrite(b0, position, X, O);
      if !CheckWinnerBoard(X, b1) && !IsBoardFullBoard(b1) {
        var k := BestMove(b1).value;
        OtherMarkKeepsLines(X, b1, k, O);
        CountAfterWrite(b1, k, O, X);
        CountAfterWrite(b1, k, O, O);
        assert r.state.board == b1[k := O];
      }
    }
  }

  /** `make_move` applied to each position of `moves` in turn. */
  function Play(s: GameState, moves: seq<nat>): (r: GameState)
    requires IsBoard(s.board)
    requires forall i | 0 <= i < |moves| :: moves[i] < 9
    ensures IsBoard(r.board) && r.gameId == s.gameId
    decreases |moves|
  {
    if moves == [] then s
    else Play(MakeMoveSpec(s, moves[0]).state, moves[1..])
  }

  /** Over any sequence of moves, no occupied cell is ever overwritten. */
  lemma {:induction false} PlayNeverOverwrites(s: GameState, moves: seq<nat>)
    requires IsBoard(s.board)
    requires forall i | 0 <= i < |moves| :: moves[i] < 9
    ensures forall i | 0 <= i < 9 && s.board[i] != Empty :: Play(s, moves).board[i] == s.board[i]
    decreases |moves|
  {
    if moves != [] {
      PlayNeverOverwrites(MakeMoveSpec(s, moves[0]).state, moves[1..]);
    }
  }

  /** A finished game is frozen: every later move is rejected and nothing changes. */
  lemma {:induction false} PlayFrozenWhenOver(s: GameState, moves: seq<nat>)
    requires IsBoard(s.board) && s.gameOver
    requires forall i | 0 <= i < |moves| :: moves[i] < 9
    ensures Play(s, moves) == s
    decreases |moves|
  {
    if moves != [] {
      assert !MakeMoveSpec(s, moves[0]).ok;
      PlayFrozenWhenOver(s, moves[1..]);
    }
  }

  /** Every sequence of moves from a coherent game ends in a coherent game. */
  lemma {:induction false} PlayPreservesCoherent(s: GameState, moves: seq<nat>)
    requires Coherent(s)
    requires forall i | 0 <= i < |moves| :: moves[i] < 9
    ensures Coherent(Play(s, moves))
    decreases |moves|
  {
    if moves != [] {
      MakeMovePreservesCoherent(s, moves[0]);
      PlayPreservesCoherent(MakeMoveSpec(s, moves[0]).state, moves[1..]);
    }
  }

  /** A player with a single mark on the board holds no line. */
  lemma NoLineWithOneMark(player: Cell, b: seq<Cell>, p: nat)
    requires IsBoard(b) && p < 9
    requires forall i | 0 <= i < 9 && i != p :: b[i] != player
    ensures !CheckWinnerBoard(player, b)
  {
  }

  /**
   * The first move of a new game: X lands on the chosen cell, exactly one O
   * lands on another cell, and the game goes on with X to move.
   */
  lemma FirstMoveOfNewGame(gameId: string, position: nat)
    requires position < 9
    ensures var r := MakeMoveSpec(NewGame(gameId), position);
      && r.ok && !r.state.gameOver && r.state.currentPlayer == "X"
      && r.state.board[position] == X
      && Count(r.state.board, X) == 1 && Count(r.state.board, O) == 1
  {
    var s := NewGame(gameId);
    FirstMoveOnEmptyBoard(s, position);
    assert Count(s.board, X) == 0 && Count(s.board, O) == 0;
  }

  /** A move on an empty board of a running game draws exactly one reply. */
  lemma FirstMoveOnEmptyBoard(s: GameState, position: nat)
    requires IsBoard(s.board) && position < 9 && !s.gameOver
    requires forall i | 0 <= i < 9 :: s.board[i] == Empty
    ensures var r := MakeMoveSpec(s, position);
      && r.ok && !r.state.gameOver && r.state.currentPlayer == "X"
      && r.state.board[position] == X
      && Count(r.state.board, X) == Count(s.board, X) + 1
      && Count(r.state.board, O) == Count(s.board, O) + 1
  {
    var b1 := s.board[position := X];
    NoLineWithOneMark(X, b1, position);
    assert b1[if position == 0 then 1 else 0] == Empty;
    var c := ComputerMoveSpec(s.(board := b1));
    assert MakeMoveSpec(s, position).state == c;
    var k :| RepliedAt(b1, c.board, k);
    NoLineWithOneMark(O, c.board, k);
    assert c.board[if position != 0 && k != 0 then 0 else if position != 1 && k != 1 then 1 else 2] == Empty;
    CountAfterWrite(s.board, position, X, X);
    CountAfterWrite(s.board, position, X, O);
    CountAfterWrite(b1, k, O, X);
    CountAfterWrite(b1, k, O, O);
  }

  /**
   * X to move on "X X _ / O O _ / _ _ _": playing cell 2 completes the top
   * row, X wins and the game is over.
   */
  lemma TopRowWinEndsGame()
    ensures var s := GameState("g", [X, X, Empty, O, O, Empty, Empty, Empty, Empty], "X", "", false);
      var r := MakeMoveSpec(s, 2);
      r.ok && CheckWinnerBoard(X, r.state.board) && r.state.winner == "X" && r.state.gameOver
  {
    var b := [X, X, Empty, O, O, Empty, Empty, Empty, Empty][2 := X];
    assert Holds(X, b, WinConditions[0]);
  }

  /** The game object; `board` is the list of nine cells it updates in place. */
  class TicTacToeGame {
    var gameId: string
    var board: array<Cell>
    var currentPlayer: string
    var winner: string
    var gameOver: bool

    ghost predicate Valid()
      reads this
    {
      board.Length == 9
    }

    /**
     * `__init__`: a given board is shared with the caller, not copied;
     * without one the board is nine empty cells.
     */
    constructor (gameId: string, board: array?<Cell> := null, currentPlayer: string := "X",
                 winner: string := "", gameOver: bool := false)
      requires board != null ==> board.Length == 9
      ensures Valid()
      ensures board != null ==> this.board == board
      ensures board == null ==> fresh(this.board) && this.board[..] == EmptyBoard()
      ensures this.gameId == gameId && this.currentPlayer == currentPlayer
      ensures this.winner == winner && this.gameOver == gameOver
    {
      this.gameId := gameId;
      if board != null {
        this.board := board;
      } else {
        this.board := new Cell[9](_ => Empty);
      }
      this.currentPlayer := currentPlayer;
      this.winner := winner;
      this.gameOver := gameOver;
      new;
      assert board == null ==> this.board[..] == EmptyBoard();
    }

    /** `get_game_state`: a snapshot of the fields. */
    function GetGameState(): (s: GameState)
      reads this, board
      requires Valid()
      ensures IsBoard(s.board) && s.board == board[..]
      ensures s.gameId == gameId && s.currentPlayer == currentPlayer
      ensures s.winner == winner && s.gameOver == gameOver
    {
      GameState(gameId, board[..], currentPlayer, winner, gameOver)
    }

    /** `check_winner`: whether `player` holds a row, column or diagonal of this board. */
    predicate CheckWinner(player: Cell)
      reads this, board
      requires Valid()
      ensures CheckWinner(player) <==> ThreeInARow(player, board[..])
    {
      CheckWinnerIsThreeInARow(player, board[..]);
      CheckWinnerBoard(player, board[..])
    }

    /** `is_board_full`: whether no cell of this board is empty. */
    predicate IsBoardFull()
      reads this, board
      requires Valid()
      ensures IsBoardFull() <==> Count(board[..], Empty) == 0
    {
      FullIffNoEmptyCount(board[..]);
      IsBoardFullBoard(board[..])
    }

    /**
     * `minimax(board, depth, is_maximizing)`: searches by placing a mark in
     * `b`, recursing and undoing the placement, so `b` ends as it began.
     */
    method Minimax(b: array<Cell>, depth: nat, isMaximizing: bool) returns (score: int)
      requires b.Length == 9
      modifies b
      ensures b[..] == old(b[..])
      ensures score == Value(old(b[..]), isMaximizing)
      decreases Count(b[..], Empty)
    {
      if CheckWinnerBoard(O, b[..]) {
        return 1;
      }
      if CheckWinnerBoard(X, b[..]) {
        return -1;
      }
      if IsBoardFullBoard(b[..]) {
        return 0;
      }
      ghost var b0 := b[..];
      if isMaximizing {
        var bestScore := NegInf;
        for i := 0 to 9
          invariant b[..] == b0
          invariant bestScore == NegInf || -1 <= bestScore <= 1
          invariant Scan(b0, i, true, bestScore) == Scan(b0, 0, true, NegInf)
        {
          if b[i] == Empty {
            b[i] := O;
            CountAfterWrite(b0, i, O, Empty);
            var s := Minimax(b, depth + 1, false);
            b[i] := Empty;
            assert b[..] == b0;
            bestScore := Max(s, bestScore);
          }
        }
        return bestScore;
      } else {
        var bestScore := PosInf;
        for i := 0 to 9
          invariant b[..] == b0
          invariant bestScore == PosInf || -1 <= bestScore <= 1
          invariant Scan(b0, i, false, bestScore) == Scan(b0, 0, false, PosInf)
        {
          if b[i] == Empty {
            b[i] := X;
            CountAfterWrite(b0, i, X, Empty);
            var s := Minimax(b, depth + 1, true);
            b[i] := Empty;
            assert b[..] == b0;
            bestScore := Min(s, bestScore);
          }
        }
        return bestScore;
      }
    }

    /**
     * The scoring loop of `computer_move`: each empty cell is tried for O,
     * scored by minimax and cleared again; the first best cell wins.
     */
    method ChooseReply() returns (bestMove: Option<nat>)
      requires Valid()
      modifies board
      ensures board[..] == old(board[..])
      ensures bestMove == BestMove(board[..])
    {
      ghost var b0 := board[..];
      var bestScore := NegInf;
      bestMove := None;
      for i := 0 to 9
        invariant board[..] == b0
        invariant bestMove.Some? ==> bestMove.value < 9
        invariant ChooseScan(b0, Scores(b0), i, bestScore, bestMove) == BestMove(b0)
      {
        if board[i] == Empty {
          board[i] := O;
          var score := Minimax(board, 0, false);
          board[i] := Empty;
          assert board[..] == b0;
          assert score == Scores(b0)[i];
          if score > bestScore {
            bestScore := score;
            bestMove := Some(i);
          }
        }
      }
    }

    /**
     * `computer_move`: tries O on every empty cell 0..8 with `minimax`,
     * keeps the first strictly best, and plays it.
     */
    method ComputerMove()
      requires Valid()
      modifies this, board
      ensures Valid() && board == old(board)
      ensures GetGameState() == ComputerMoveSpec(old(GetGameState()))
    {
      if gameOver {
        return;
      }
      var bestMove := ChooseReply();
      if bestMove.Some? {
        board[bestMove.value] := O;
        if CheckWinner(O) {
          winner := "O";
          gameOver := true;
        } else if IsBoardFull() {
          gameOver := true;
        } else {
          currentPlayer := "X";
        }
      }
    }

    /**
     * `make_move(position)`: the human's X, then either the end of the game
     * or the computer's reply. Returns false, changing nothing, on a
     * finished game or a taken cell.
     */
    method MakeMove(position: nat) returns (ok: bool)
      requires Valid() && position < 9
      modifies this, board
      ensures Valid() && board == old(board)
      ensures MoveResult(ok, GetGameState()) == MakeMoveSpec(old(GetGameState()), position)
    {
      if gameOver || board[position] != Empty {
        return false;
      }
      board[position] := X;
      if CheckWinner(X) {
        winner := "X";
        gameOver := true;
      } else if IsBoardFull() {
        gameOver := true;
      } else {
        ComputerMove();
      }
      return true;
    }
  }
}
