/**
 * The decisions the live game endpoint takes on its own: who may join a
 * game's room, which `make_move` requests are refused and with what error,
 * and what the end-of-game notice says.
 */
module Session {
  import opened Wrappers
  import opened Board
  import opened Game

  /** The game type as the access rule sees it: `VS_COMPUTER` or any other. */
  datatype GameType = VsComputer | VsPlayer

  /**
   * A stored game as the endpoint reads it: the decoded game state, the
   * owner `user_id` (nullable), and the `game_type`, `player_x` and
   * `player_o` attributes it reads, taken here as given inputs.
   */
  datatype GameRecord = GameRecord(
    state: GameState,
    ownerId: Option<int>,
    gameType: GameType,
    playerX: Option<int>,
    playerO: Option<int>)

  /**
   * The room access rule: a game against the computer admits only its
   * owner; any other game admits only the users bound to X or to O.
   */
  function MayJoin(g: GameRecord, user: int): (ok: bool)
    ensures ok ==> g.ownerId == Some(user) || g.playerX == Some(user) || g.playerO == Some(user)
    ensures g.gameType == VsComputer ==> (ok <==> g.ownerId == Some(user))
    ensures g.gameType != VsComputer ==> (ok <==> Some(user) in {g.playerX, g.playerO})
  {
    if g.gameType == VsComputer then g.ownerId == Some(user)
    else g.playerX == Some(user) || g.playerO == Some(user)
  }

  /** In a game against the computer the X and O seats play no part in access. */
  lemma SeatsIgnoredAgainstComputer(g: GameRecord, x: Option<int>, o: Option<int>, user: int)
    requires g.gameType == VsComputer
    ensures MayJoin(g.(playerX := x, playerO := o), user) == MayJoin(g, user)
  {
  }

  /** In a game between players the owner plays no part in access. */
  lemma OwnerIgnoredBetweenPlayers(g: GameRecord, owner: Option<int>, user: int)
    requires g.gameType == VsPlayer
    ensures MayJoin(g.(ownerId := owner), user) == MayJoin(g, user)
  {
  }

  /** The errors a refused `make_move` request reports to its sender. */
  datatype MoveError = GameIsOver | NotYourTurn | InvalidPosition | PositionTaken

  function ErrorMessage(e: MoveError): string {
    match e
    case GameIsOver => "Game is over"
    case NotYourTurn => "Not your turn"
    case InvalidPosition => "Invalid position"
    case PositionTaken => "Position already taken"
  }

  /** The four errors reach the client as four different texts. */
  lemma ErrorMessageIdentifiesError(e1: MoveError, e2: MoveError)
    ensures ErrorMessage(e1) == ErrorMessage(e2) <==> e1 == e2
  {
  }

  predicate InRange(position: Option<int>) {
    position.Some? && 0 <= position.value <= 8
  }

  /**
   * The five checks of a `make_move` request in the order the endpoint makes
   * them, each with whether it passes and the error it reports otherwise.
   */
  function Checks(g: GameRecord, user: int, position: Option<int>): (cs: seq<(bool, MoveError)>)
    requires IsBoard(g.state.board)
    ensures |cs| == 5
  {
    [ (!g.state.gameOver, GameIsOver),
      (!(g.state.currentPlayer == "X" && g.playerX != Some(user)), NotYourTurn),
      (!(g.state.currentPlayer == "O" && g.playerO != Some(user)), NotYourTurn),
      (InRange(position), InvalidPosition),
      (InRange(position) && g.state.board[position.value] == Empty, PositionTaken) ]
  }

  /**
   * The validation chain of a `make_move` request: the first failing check
   * decides the error; a request that passes them all names an empty cell
   * of a running game.
   */
  function ValidateMove(g: GameRecord, user: int, position: Option<int>): (r: Result<nat, MoveError>)
    requires IsBoard(g.state.board)
    ensures r.Success? <==> forall i | 0 <= i < 5 :: Checks(g, user, position)[i].0
    ensures r.Success? ==>
      && r.value < 9 && position == Some(r.value as int)
      && !g.state.gameOver && g.state.board[r.value] == Empty
    ensures r.Failure? ==> exists i | 0 <= i < 5 ::
      && !Checks(g, user, position)[i].0
      && Checks(g, user, position)[i].1 == r.error
      && forall j | 0 <= j < i :: Checks(g, user, position)[j].0
  {
    var cs := Checks(g, user, position);
    if g.state.gameOver then
      assert !cs[0].0;
      Failure(GameIsOver)
    else if g.state.currentPlayer == "X" && g.playerX != Some(user) then
      assert cs[0].0 && !cs[1].0;
      Failure(NotYourTurn)
    else if g.state.currentPlayer == "O" && g.playerO != Some(user) then
      assert cs[0].0 && cs[1].0 && !cs[2].0;
      Failure(NotYourTurn)
    else if position.None? || position.value < 0 || position.value > 8 then
      assert cs[0].0 && cs[1].0 && cs[2].0 && !cs[3].0;
      Failure(InvalidPosition)
    else if g.state.board[position.value] != Empty then
      assert cs[0].0 && cs[1].0 && cs[2].0 && cs[3].0 && !cs[4].0;
      Failure(PositionTaken)
    else
      Success(position.value)
  }

  const TieMessage: string := "Game over! It's a tie!"

  /** The end-of-game notice: a tie when `winner` is null or empty, else the winner. */
  function GameOverMessage(winner: Option<string>): (m: string)
    ensures m == TieMessage <==> winner.None? || winner.value == ""
    ensures winner.Some? && winner.value != "" ==> m == "Game over! Winner: " + winner.value
  {
    if winner.Some? && winner.value != "" then
      var m := "Game over! Winner: " + winner.value;
      assert m[11] != TieMessage[11];
      m
    else TieMessage
  }

  /** In a game the engine has kept coherent, the notice names the player holding a line, if any. */
  lemma NoticeNamesLineHolder(s: GameState)
    requires Coherent(s) && s.gameOver
    ensures GameOverMessage(Some(s.winner)) == TieMessage <==>
      !CheckWinnerBoard(X, s.board) && !CheckWinnerBoard(O, s.board)
    ensures CheckWinnerBoard(X, s.board) ==> GameOverMessage(Some(s.winner)) == "Game over! Winner: X"
    ensures CheckWinnerBoard(O, s.board) ==> GameOverMessage(Some(s.winner)) == "Game over! Winner: O"
  {
  }

  /** What the endpoint does with one `make_move` request. */
  datatype Reply =
    | SendError(message: string)                              // to the sender only
    | BroadcastState(state: GameState, notice: Option<string>) // to the whole room
    | Silent                                                  // `make_move` returned false

  function HandleMakeMove(g: GameRecord, user: int, position: Option<int>): (r: Reply)
    requires IsBoard(g.state.board)
    ensures r.SendError? <==> ValidateMove(g, user, position).Failure?
    ensures r.SendError? ==> r.message == ErrorMessage(ValidateMove(g, user, position).error)
    // a request that passes validation is always applied
    ensures !r.Silent?
    ensures r.BroadcastState? ==>
      && r.state == MakeMoveSpec(g.state, ValidateMove(g, user, position).value).state
      && (r.notice.Some? <==> r.state.gameOver)
      && (r.notice.Some? ==> r.notice.value == GameOverMessage(Some(r.state.winner)))
  {
    match ValidateMove(g, user, position)
    case Failure(e) => SendError(ErrorMessage(e))
    case Success(p) =>
      var m := MakeMoveSpec(g.state, p);
      if !m.ok then Silent
      else BroadcastState(m.state, if m.state.gameOver then Some(GameOverMessage(Some(m.state.winner))) else None)
  }

  /**
   * In a game the engine has kept coherent it is always X's turn, so only
   * the user bound to X gets a move through, and the move is an X.
   */
  lemma OnlyPlayerXMoves(g: GameRecord, user: int, position: Option<int>)
    requires Coherent(g.state)
    requires ValidateMove(g, user, position).Success?
    ensures g.playerX == Some(user)
    ensures var p := ValidateMove(g, user, position).value;
      MakeMoveSpec(g.state, p).state.board[p] == X
  {
    assert Checks(g, user, position)[1].0;
  }
}
