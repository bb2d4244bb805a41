# Tic-tac-toe game engine and live-room registry, in Dafny

This project models the core of a tic-tac-toe web service:

- the single-player game engine `TicTacToeGame` (`backend/app/services/game.py`).
  A human plays X. The computer answers at once as O, choosing its cell by
  an exhaustive minimax search.
- the live side of the game endpoint (`backend/app/api/v1/websocket.py`).
  This covers the `ConnectionManager` registry of game rooms, the rule for
  who may join a room, and the validation chain of a `make_move` request.
  It also covers the end-of-game notice.

The modules follow the program:

| file | module | models |
|---|---|---|
| `board.dfy` | `Board` | cells, the eight winning triples, the win and full-board tests |
| `search.dfy` | `Search` | `minimax` and the choice of `computer_move`, as pure functions |
| `game.dfy` | `Game` | the game state, one move as a pure function, the `TicTacToeGame` class with its array board |
| `registry.dfy` | `Registry` | `ConnectionManager`: rooms and user connections, as values and as a class |
| `session.dfy` | `Session` | room access, move validation, the game-over notice, one `make_move` request end to end |
| `wrappers.dfy` | `Wrappers` | `Option` and `Result` |

The imperative parts keep their imperative form:

- The board is an `array<Cell>` that `make_move`, `computer_move` and
  `minimax` change in place.
- `minimax` places a mark, recurses and then clears the mark.
- `ConnectionManager` updates its two maps in place.

Each method is proved equal to a pure function of the old state:

- `MakeMoveSpec` and `ComputerMoveSpec` specify a move;
- `Value` specifies `minimax`;
- `BestMove` specifies the computer's choice;
- `AfterConnect`, `AfterDisconnect` and `AfterBroadcast` specify the registry.

The properties are proved as lemmas about those functions:

- The computer plays the first empty cell of maximal minimax score.
- When O can complete a line at once, the chosen cell scores +1: a forced
  win, though not necessarily the cell that completes the line. The search
  has no depth term, so a slower forced win at a lower index is preferred.
- It blocks an immediate threat of X when O has no immediate win and the
  block does not lose.
- No move overwrites a cell.
- A finished game is frozen.
- Every move keeps a game coherent. Counts, winner and status agree, and it stays X's turn.
- Disconnecting a fresh handle undoes its connect when the user had no
  recorded connection and the registry held no empty room. A reconnecting
  user who then drops the new handle loses the older mapping
  (`Registry.DroppingNewHandleForgetsOlder`).
- Rooms never stay empty after a disconnect.

Some behaviour of the code differs from what one might expect. The model
follows the code:

- **A reconnect does not replace the old handle.** `connect` adds the new
  handle to the room and keeps the earlier one. A user who joins twice is
  in the room with both handles and receives every broadcast twice
  (`Registry.RejoinKeepsBothHandles`). Only the user-to-handle map is
  overwritten.
- **The engine always plays X and always answers as O.** This holds in
  games between two players too. `current_player` is only ever set to
  `"X"`, so in a game the engine keeps coherent only the user bound to X can
  move (`Session.OnlyPlayerXMoves`). The "O's turn" check of the endpoint
  never fires.
- **A broadcast can leave an empty room entry behind.**
  (`Registry.BroadcastCanLeaveEmptyRoom`)
- **"No winner" is the empty string inside the engine.** The notice treats
  a null winner and an empty winner alike, as a tie
  (`Session.GameOverMessage`).
- **The search sentinels are integers.** `float("-inf")` and `float("inf")`
  are modelled as -2 and +2. Every real score is -1, 0 or 1, so the
  comparisons are unchanged.

## Model

| member | source | states |
|---|---|---|
| `Board.EmptyBoard` | backend/app/services/game.py:20 | a default board has nine cells, all empty |
| `Board.CheckWinnerBoard` | backend/app/services/game.py:154-171 | true when one of the eight listed triples holds the player's mark in all three cells; `Board.CheckWinnerIsThreeInARow` proves it equals three in a row on the grid |
| `Board.IsBoardFullBoard` | backend/app/services/game.py:177-179 | true when no cell is empty; `Board.FullIffNoEmptyCount` proves it equals a zero count of empty cells |
| `Board.CheckWinnerIsThreeInARow` | backend/app/services/game.py:154-171 | the scan over the eight listed triples succeeds exactly when the player holds a full row, column, main diagonal or anti-diagonal of the 3x3 grid |
| `Board.WinningTripleIsThreeInARow` | backend/app/services/game.py:157-170 | each listed triple the player holds is a grid row, column or diagonal |
| `Board.ThreeInARowIsWinningTriple` | backend/app/services/game.py:157-170 | every grid row, column and diagonal the player holds is found by the scan |
| `Board.FullIffNoEmptyCount` | backend/app/services/game.py:177-179 | a board is full exactly when it has no empty cell to count |
| `Board.OtherMarkKeepsLines` | backend/app/services/game.py:154-171 | writing another player's mark never creates a line for this player |
| `Board.LineSurvivesWriteOffLine` | backend/app/services/game.py:154-171 | writing over a cell the player does not hold never breaks that player's line |
| `Search.Value` | backend/app/services/game.py:119-148 | `minimax` always returns one of the three scores -1, 0, +1, never an infinity |
| `Search.Scan` | backend/app/services/game.py:131-148 | the inner loop of `minimax` ends on a real score once it has a score or passes an empty cell; if it starts from its infinity and passes no empty cell, it keeps that infinity |
| `Search.OWinCheckedFirst` | backend/app/services/game.py:124-127 | the O-win test comes before the X-win test: a board where both hold a line scores +1 for either side to move |
| `Search.ScanIsAttained` | backend/app/services/game.py:131-148 | the loop's result is its starting score or the value of some empty cell it tried |
| `Search.MaxScanIsUpperBound` | backend/app/services/game.py:131-139 | on O's ply the result is at least the starting score and at least every tried cell's value |
| `Search.MinScanIsLowerBound` | backend/app/services/game.py:140-148 | on X's ply the result is at most the starting score and at most every tried cell's value |
| `Search.ValueOfOpenBoard` | backend/app/services/game.py:119-148 | on an undecided board, the minimax value is the maximum (O to move) or minimum (X to move) over the empty cells of the child values, and some empty cell attains it |
| `Search.Scores` | backend/app/services/game.py:98-102 | each empty cell's score is `minimax` after O plays there, which is always above the -inf start |
| `Search.ChooseScan` | backend/app/services/game.py:98-106 | the loop of `computer_move` only ever picks a board index |
| `Search.ChooseScanFindsFirstBest` | backend/app/services/game.py:95-106 | with a strict `>` the loop ends with no move exactly on a full board, and otherwise on the first empty cell of maximal score |
| `Search.BestMove` | backend/app/services/game.py:94-106 | `computer_move` places nothing exactly on a full board, and otherwise plays the lowest-index empty cell of maximal minimax score |
| `Search.OScore` | backend/app/services/game.py:99-102 | the score of an O on an empty cell is -1, 0 or +1, and +1 when that O completes a line |
| `Search.ComputerSecuresWin` | backend/app/services/game.py:94-109 | when O can complete a line at once, the chosen reply scores +1 (a forced win, not necessarily the completing cell) |
| `Search.ComputerBlocksThreat` | backend/app/services/game.py:94-109 | when X threatens a line at one cell, O has no immediate win and blocking does not lose, the computer blocks that cell |
| `Game.NewGame` | backend/app/services/game.py:11-23 | a new game has an empty board, X to move, no winner and is not over |
| `Game.ComputerMoveSpec` | backend/app/services/game.py:89-117 | a finished game or a full board is left alone; otherwise exactly one O lands on the first best empty cell, and the game ends with O as winner on an O line, ends on a full board, or passes back to X |
| `Game.MakeMoveSpec` | backend/app/services/game.py:68-87 | a move is refused exactly on a finished game or a taken cell, and then nothing changes; otherwise X lands on the cell and no occupied cell is overwritten; an X line ends the game won by X, a full board ends it, and otherwise the computer replies and the game's outcome is that of `ComputerMoveSpec`; the turn never passes to O, and outside a computer reply the player to move is unchanged |
| `Game.NewGameIsCoherent` | backend/app/services/game.py:11-23 | a new game satisfies the engine's invariant: counts balanced, winner matching the lines, over exactly on a win or a full board |
| `Game.MakeMovePreservesCoherent` | backend/app/services/game.py:68-117 | every move, accepted or refused, keeps the invariant |
| `Game.Play` | backend/app/services/game.py:68-87 | a sequence of moves keeps a nine-cell board and the game identifier |
| `Game.PlayNeverOverwrites` | backend/app/services/game.py:72-109 | over any sequence of moves no occupied cell ever changes |
| `Game.PlayFrozenWhenOver` | backend/app/services/game.py:72-73 | once a game is over every later move is refused and the state never changes |
| `Game.PlayPreservesCoherent` | backend/app/services/game.py:68-117 | every sequence of moves from a coherent game ends in a coherent game |
| `Game.NoLineWithOneMark` | backend/app/services/game.py:154-171 | a player with at most one mark holds no line |
| `Game.FirstMoveOfNewGame` | backend/app/services/game.py:68-117 | the first move of a new game puts X on the chosen cell and exactly one O elsewhere, and the game goes on with X to move |
| `Game.FirstMoveOnEmptyBoard` | backend/app/services/game.py:68-117 | a move on an empty board of a running game is accepted, adds one X and one O, and the game goes on |
| `Game.TopRowWinEndsGame` | backend/app/services/game.py:75-79 | X completing the top row wins and ends the game |
| `Game.TicTacToeGame.constructor` | backend/app/services/game.py:11-23 | a given board is shared, not copied; without one the board is nine empty cells; the other fields take the given values or the defaults |
| `Game.TicTacToeGame.GetGameState` | backend/app/services/game.py:181-189 | the result holds exactly the five fields, with the board as a copy of its cells rather than the live list |
| `Game.TicTacToeGame.CheckWinner` | backend/app/services/game.py:150-152 | true exactly when the player holds three in a row on this board |
| `Game.TicTacToeGame.IsBoardFull` | backend/app/services/game.py:173-175 | true exactly when this board has no empty cell |
| `Game.TicTacToeGame.Minimax` | backend/app/services/game.py:119-148 | the in-place search returns `Value` of the board it was given, and leaves the board as it found it |
| `Game.TicTacToeGame.ChooseReply` | backend/app/services/game.py:94-106 | the scoring loop leaves the board unchanged and returns `BestMove` of it |
| `Game.TicTacToeGame.ComputerMove` | backend/app/services/game.py:89-117 | the new state is `ComputerMoveSpec` of the old one |
| `Game.TicTacToeGame.MakeMove` | backend/app/services/game.py:68-87 | the result and the new state are `MakeMoveSpec` of the old state |
| `Registry.AfterConnect` | backend/app/api/v1/websocket.py:19-24 | the handle joins the game's room, creating it if absent; the user's recorded handle becomes it; no other room or user changes |
| `Registry.AfterDisconnect` | backend/app/api/v1/websocket.py:26-36 | the handle leaves the room and the room is dropped when it empties; the user entry is removed only if it is this handle; nothing else changes |
| `Registry.AfterBroadcast` | backend/app/api/v1/websocket.py:41-48 | the failing handles leave the room, the room entry is kept even when empty, and no other room and no user entry changes |
| `Registry.Delivered` | backend/app/api/v1/websocket.py:41-48 | a broadcast reaches exactly the room's handles that do not fail, and no handle of another room |
| `Registry.ConnectKeepsRoomsNonEmpty` | backend/app/api/v1/websocket.py:19-24 | connect never leaves an empty room entry |
| `Registry.DisconnectKeepsRoomsNonEmpty` | backend/app/api/v1/websocket.py:26-31 | disconnect never leaves an empty room entry |
| `Registry.BroadcastCanLeaveEmptyRoom` | backend/app/api/v1/websocket.py:41-48 | a broadcast where every send fails leaves an empty room entry, which disconnect never does |
| `Registry.DisconnectUndoesConnect` | backend/app/api/v1/websocket.py:19-36 | when no room entry is empty, connecting a new handle of a user with no recorded handle and then disconnecting it restores the registry exactly |
| `Registry.StaleDisconnectKeepsNewerConnection` | backend/app/api/v1/websocket.py:32-36 | when an old handle of a reconnected user disconnects, the user keeps the newer handle, which stays in the room |
| `Registry.DroppingNewHandleForgetsOlder` | backend/app/api/v1/websocket.py:19-36 | a user whose older handle is recorded and who connects and then drops a new handle ends with no recorded handle; the older one is not restored |
| `Registry.RejoinKeepsBothHandles` | backend/app/api/v1/websocket.py:19-24 | a user who connects twice has both handles in the room, and a broadcast reaches both |
| `Registry.Elements` | backend/app/api/v1/websocket.py:43 | the handles an iteration order lists are exactly its elements |
| `Registry.BroadcastAsWritten` | backend/app/api/v1/websocket.py:41-48 | iterating the live set: it raises exactly when some handle's send fails; with no failure it reaches every handle and leaves the room alone |
| `Registry.AsWrittenStopsAtFirstFailure` | backend/app/api/v1/websocket.py:43-48 | when the i-th handle is the first to fail, the code as written reaches exactly the handles before it, evicts that handle alone and raises |
| `Registry.AsWrittenMissesSecondFailure` | backend/app/api/v1/websocket.py:43-48 | with two failing handles the code as written evicts one and raises, where the intended broadcast evicts both |
| `Registry.AsWrittenSkipsHealthyHandle` | backend/app/api/v1/websocket.py:43-48 | a healthy handle iterated after a failing one never gets the message as written, where the intended broadcast reaches it |
| `Registry.ConnectionManager.State` | backend/app/api/v1/websocket.py:15-17 | the registry's state is exactly its two maps |
| `Registry.ConnectionManager.constructor` | backend/app/api/v1/websocket.py:15-17 | a new registry has no rooms and no user connections |
| `Registry.ConnectionManager.Connect` | backend/app/api/v1/websocket.py:19-24 | the new maps are `AfterConnect` of the old ones |
| `Registry.ConnectionManager.Disconnect` | backend/app/api/v1/websocket.py:26-36 | the new maps are `AfterDisconnect` of the old ones |
| `Registry.ConnectionManager.BroadcastToGame` | backend/app/api/v1/websocket.py:41-48 | the new maps are `AfterBroadcast` of the old ones, and the handles reached are `Delivered` |
| `Session.MayJoin` | backend/app/api/v1/websocket.py:96-104 | a game against the computer admits exactly its owner; any other game admits exactly the users bound to X or O |
| `Session.SeatsIgnoredAgainstComputer` | backend/app/api/v1/websocket.py:97-100 | in a game against the computer the X and O seats play no part in access |
| `Session.OwnerIgnoredBetweenPlayers` | backend/app/api/v1/websocket.py:101-104 | in a game between players the owner plays no part in access |
| `Session.ErrorMessage` | backend/app/api/v1/websocket.py:162-218 | the text sent to the client for each refusal; `Session.ErrorMessageIdentifiesError` proves the four texts distinct |
| `Session.ErrorMessageIdentifiesError` | backend/app/api/v1/websocket.py:162-218 | the four refusals reach the client as four different texts ("Game is over", "Not your turn", "Invalid position", "Position already taken") |
| `Session.Checks` | backend/app/api/v1/websocket.py:161-218 | a request goes through five checks, in the endpoint's order |
| `Session.ValidateMove` | backend/app/api/v1/websocket.py:161-218 | a request passes exactly when all five checks pass, and then names an empty in-range cell of a running game; otherwise the error is the one of the first failing check |
| `Session.GameOverMessage` | backend/app/api/v1/websocket.py:235-238 | the notice is the tie text exactly when the winner is null or empty, and otherwise names the winner |
| `Session.NoticeNamesLineHolder` | backend/app/api/v1/websocket.py:234-238 | for a finished coherent game the notice is a tie exactly when nobody holds a line, and otherwise names the holder |
| `Session.HandleMakeMove` | backend/app/api/v1/websocket.py:161-250 | a refused request sends its error to the sender only; a valid one is always applied, and the new state goes to the room, with a notice exactly when the game is over |
| `Session.OnlyPlayerXMoves` | backend/app/api/v1/websocket.py:173-193 | in a coherent game only the user bound to X gets a move through, and the move places an X |

## Left out

- Persistence is not modelled. This covers `from_db_model`, `to_db_model`, `save_to_db`, the JSON encoding of the board and the database session helper, since they are I/O. A move is modelled on the in-memory state, before the save.
- `generate_game_id` is not modelled. It reads the clock.
- Authentication through the token is not modelled. The user identifier is a parameter. The closes with code 1008 on a missing user or game are I/O.
- The HTTP routes, the `websocket_endpoint` receive loop, `accept`, `close`, `send_personal_message` and the JSON message payloads are transport. The model keeps what the endpoint decides: who may join, which error a request gets, and what is broadcast with which notice.
- The `chat_message` and `get_state` handlers are not modelled. They only forward text or state. The `player_joined` broadcast after a connect and the `player_left` broadcast after a disconnect are not modelled either: they only send a notice through the registry.
- Concurrency between connections is not modelled. Each operation runs alone. Another coroutine changing a room during an `await` is out of scope.
- The stored game record lacks the fields the endpoint reads. `GameModel` (`backend/app/models/game.py:8-21`) has no `game_type`, `player_x` or `player_o` column, and it defines no `GameType`, which the endpoint imports. As written, the import, the access rule and the two turn checks would fail before deciding anything. `Session.GameRecord` takes these three values as given inputs and models what the rule and the checks decide once they exist.
- Game types other than `VS_COMPUTER` are merged into one `VsPlayer` case, because the access rule only checks for `VS_COMPUTER`.
- A JSON `position` that is not an integer is not modelled. Only a missing position and an integer position are.
- Game.TicTacToeGame.MakeMove: requires a position in 0..8. Python would wrap a negative index and raise on one above 8, but both callers validate the range first: the live endpoint (`backend/app/api/v1/websocket.py:196` before `:220`) and the HTTP move route (`backend/app/api/v1/games.py:60` before `:78`).
- Game.TicTacToeGame.GetGameState: returns a copy of the board (`board[..]`) where the code puts the live list into the dictionary. Aliasing between the dictionary and the game is not modelled; no caller changes the dictionary or reads it after a later move (`backend/app/api/v1/websocket.py:111`, `:159`, `:222`; `backend/app/api/v1/games.py:26`, `:48`, `:81`).
- Game.TicTacToeGame.Minimax: the `depth` argument is accepted and never used, as in the code.
- Search.ComputerBlocksThreat: only immediate wins and blocks are proved. The general claim that the computer never loses a position it can hold is not proved.
- Registry.BroadcastAsWritten: the RuntimeError propagates into the endpoint, whose outer handler disconnects the sending user. That path is not modelled beyond the `raised` flag.

## Findings

| source | as written | input that shows it | evidently intended | confidence | as-written member | corrected member |
|---|---|---|---|---|---|---|
| backend/app/api/v1/websocket.py:43-48 | the loop iterates the live room set and discards a failing handle from that same set, so the next iteration step raises RuntimeError ("Set changed size during iteration") | a room {1, 2} where handle 1 fails and is iterated first: handle 2 never gets the message; if both fail, only 1 is evicted | iterate over a snapshot of the room, so every healthy handle is reached and every failing one is evicted | high, not executed | `Registry.BroadcastAsWritten` | `Registry.ConnectionManager.BroadcastToGame` |
