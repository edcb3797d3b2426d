# PrimeChess match core in Dafny

This project models the core of PrimeChess, a two-player online chess
application with a Node server and a React client. The model covers six
parts:

- **The move engine** (`src/utils/chessEngine.js`). It covers board
  copies, the king search, the attack test, check, per-piece move
  generation with the self-check filter, moves with automatic promotion
  to a queen, and the board text that `boardToFEN` writes and `parseFEN`
  reads. `EngineSpec` gives a declarative reference for what each piece
  may do and what attacks a square. The lemmas prove that the engine's
  loops compute exactly that reference.
- **The game-end rules** (`checkmate.js`, `drawRules.js`). They cover
  checkmate, stalemate, insufficient material, the repetition tracker
  and `evaluateDraw`.
- **The server's match registry** (`server/matchManager.js`) and its
  socket handlers (`server/server.js`). Each handler is a pure function
  from the registry and the event payload to a new registry and the
  outcome it broadcasts. An event sequence is a `Run` of `Step`s. Every
  step keeps the per-match invariant, and in every match that survives a
  step:
  - illegal-move counts, the player count and the move log only grow;
  - a finished match stays finished.
- **The client store** (`src/store/gameStore.js`):
  - selecting squares;
  - applying a move locally;
  - applying a board received from the server, with captures and check
    highlighting;
  - counting illegal moves;
  - resetting.
- **The client's displays:**
  - move notation (`moveNotation.js`), with a reader that reads the
    notation back;
  - the move list (`MoveHistory.jsx`);
  - the clock logic of `GameTimer.jsx`: time-control parsing, ticking,
    increment, penalty, display and server sync.
- **The PGN export** (`utils/PGN.js`).

The modules follow the source files:

| module | file | source |
|---|---|---|
| `Opt`, `Text` | text.dfy | JavaScript string operations: `trim`, `split`, `Number` |
| `Chess` | constants.dfy | `src/utils/constants.js` |
| `Counter`, `Js` | counter.dfy, jsnum.dfy | counting tables (`t[k] = (t[k] \|\| 0) + 1`) and JavaScript numbers that may be NaN |
| `Engine`, `EngineSpec`, `Fen` | engine.dfy, engine_spec.dfy, fen.dfy | `src/utils/chessEngine.js` |
| `Rules` | rules.dfy | `src/utils/checkmate.js`, `src/utils/drawRules.js` |
| `MoveString`, `Notation`, `MoveHistory` | movestring.dfy, notation.dfy, history.dfy | the move wire format, `src/utils/moveNotation.js`, `src/components/MoveHistory.jsx` |
| `MatchManager`, `Server` | matches.dfy, server.dfy | `server/matchManager.js`, `server/server.js` |
| `Store` | store.dfy | `src/store/gameStore.js` |
| `Timer` | timer.dfy | `src/components/GameTimer.jsx` |
| `Pgn` | pgn.dfy | `utils/PGN.js` |

## Inputs the model takes as parameters

Some source behaviour depends on I/O, clocks or randomness. The model
passes those values in as parameters:

- **UUID stream.** The fresh UUIDs that `createGameCode` draws are the
  parameter `uuids`.
- **PGN date.** The ISO timestamp that `generatePGN` takes from
  `new Date()` is the parameter `iso`.
- **Removal timer.** Several handlers start a five-second `setTimeout`
  that removes the match. The model splits this into two parts:
  - the handler's `Outcome` says whether it schedules removal
    (`SchedulesRemoval`);
  - the timer firing is a separate `RemovalDue` event.
- **Client ticks.** The client's one-second interval is one `Tick` call
  per second.
- **Sockets.** Socket ids are strings, and a broadcast is the `Outcome`
  value.
- **Connection guard.** `evaluateDraw` takes its socket only to test
  that it is present, so the model passes that test in as the boolean
  `connected`.

## Behaviour worth knowing

Several things the server does may surprise a reader of its handlers. The
model keeps each one, and the lemma named with it shows it:

- **A finished match can still change.** `setGameOver` overwrites an
  earlier result, and the `gameOver` and `illegalMove` handlers do not
  check whether the game is already over.
  - `Server.SecondGameOverOverwrites`: a second report replaces the
    result.
  - `Server.IllegalMoveAfterForfeitStillCounts`: a tenth illegal move
    still counts and still costs clock time.
- **Moves are never checked against the engine.** The server records any
  well-formed, on-board move from the side to move. This includes moves
  after the game is over, since `makeMove` checks only `gameStarted`
  (`Server.AnyOnBoardMoveIsRecorded`).
- **A named colour that is taken is never switched in practice.** The
  branch at `server/server.js:86` ("Color taken, assign the opposite")
  sends a joiner who names a colour held by another socket to the other
  colour. Every seating, however, remembers the socket along with the
  seat: `server/server.js:96-100` for a newcomer and `reconnectPlayer`
  for a reconnection. So a seat held by another socket always has a
  remembered socket, and the reconnection test at `server/server.js:82-83`
  succeeds unless the seated socket id is the empty string. The joiner
  then takes the seat over (`Server.NamedJoinTakesOverSeat`), and the
  switch at :86 happens only for an empty id
  (`Server.TakenSeatSwitchesOnlyForEmptyId`). Without a colour, a join
  gets Black whenever White is taken, as the comment at
  `server/server.js:77` says, even when Black is taken too
  (`Server.ColourlessThirdJoinTakesBlackSeat`).
- **Move and game-end guards use the join counter.** The intro check at
  `server/server.js:142` uses the seated socket ids, "not just
  playersJoined counter". The guards on moves, resignations and draw
  offers, however, test only the `playersJoined` counter, so they do not
  test whether two players are currently seated.
- **Clock reports are not filtered by the server.** The client filters
  drift of at most one second before it restores a server clock
  (`src/components/Game.jsx:469`). The server itself overwrites both
  clocks on every report with whatever the client sent
  (`MatchManager.UpdateTimer`). The model takes those values to be whole
  numbers or NaN.
- **Time controls are not validated.** `server/routes.js:14` checks a
  time control against the three known ones, but that router is never
  mounted. The handler that does create matches (`server/server.js:43-49`)
  accepts any text, and the clocks of the match may be NaN
  (`MatchManager.ClocksWithoutIncrement`).

## Model

| member | source | states |
|---|---|---|
| Chess.InitialKings | src/utils/constants.js:10-19 | The starting position has exactly one white king, on row 7 column 4, and exactly one black king, on row 0 column 4. |
| Chess.InitialPawnsAndEmptyMiddle | src/utils/constants.js:10-19 | Rows 6 and 1 are all white and all black pawns, rows 2-5 are empty, and the black pieces are exactly those on rows 0-1. |
| Engine.Put | src/utils/chessEngine.js:16-18 | The copied board has the new cell at (r, c) and every other cell unchanged. |
| Engine.FindKing | src/utils/chessEngine.js:21-28 | The result is the first square in row-major order holding that side's king, and it is absent exactly when no such square exists. |
| Engine.InCheck | src/utils/chessEngine.js:111-116 | A side without a king is never in check. When the side is in check, one of its kings is attacked by the other side. |
| Engine.MakeMove | src/utils/chessEngine.js:276-287 | The origin is emptied and the destination holds the moved piece, a pawn reaching the far row becoming a queen; every other square is unchanged. |
| Engine.LegalOnly | src/utils/chessEngine.js:119-130 | A candidate is kept exactly when making it does not leave the mover's king attacked. |
| Engine.GetMoves | src/utils/chessEngine.js:133-273 | There are no moves unless the square holds a piece of the side to move. Each destination is on the board, holds no piece of the mover, and does not leave the mover in check. |
| Engine.LegalCandidates | src/utils/chessEngine.js:272 | The self-check filter applied to any piece's candidates yields on-board destinations without own pieces that leave the mover out of check. |
| EngineSpec.JumpsMembers | src/utils/chessEngine.js:176-188 | A jump target is listed exactly when its offset is in the table, it is on the board and it holds no own piece. |
| EngineSpec.SlideMembers | src/utils/chessEngine.js:191-210 | A slide lists exactly the squares along the ray, up to and including the first occupied one, that hold no own piece. |
| EngineSpec.PawnMatchesPattern | src/utils/chessEngine.js:145-173 | A pawn's candidates are exactly the reference pattern: one square forward onto an empty square, two from the start row over empty squares, or a diagonal capture of an enemy piece. |
| EngineSpec.KnightMatchesPattern | src/utils/chessEngine.js:176-188 | A knight's candidates are exactly the on-board (1,2)/(2,1) jumps onto squares without own pieces. |
| EngineSpec.BishopMatchesPattern | src/utils/chessEngine.js:191-210 | A bishop's candidates are exactly the diagonal squares reached over empty squares that hold no own piece. |
| EngineSpec.RookMatchesPattern | src/utils/chessEngine.js:213-232 | A rook's candidates are exactly the rank and file squares reached over empty squares that hold no own piece. |
| EngineSpec.QueenMatchesPattern | src/utils/chessEngine.js:235-254 | A queen's candidates are exactly the squares a bishop or a rook on that square could reach. |
| EngineSpec.KingMatchesPattern | src/utils/chessEngine.js:257-269 | A king's candidates are exactly the neighbouring on-board squares without own pieces, with no castling. |
| EngineSpec.PseudoMatchesPattern | src/utils/chessEngine.js:143-269 | For every piece kind, the per-piece candidate list is exactly the reference pattern; an unknown kind has none. |
| EngineSpec.GetMovesMatchesRules | src/utils/chessEngine.js:133-273 | A square is in `getMoves` if and only if the origin holds the mover's piece, the piece's pattern reaches the square, and the move does not leave the mover in check. |
| EngineSpec.SeesIffSlideCovers | src/utils/chessEngine.js:59-92 | Looking outward from a square along rays of a class finds a given piece first exactly when that piece, sliding from its own square, covers the square. |
| EngineSpec.RayHitsSpec | src/utils/chessEngine.js:59-92 | The ray loop reports an attack exactly when, along some listed direction, the first occupied square holds the slider or a queen of the attacker. |
| EngineSpec.PawnAttack | src/utils/chessEngine.js:33-43 | The two pawn squares the source inspects hold an attacking pawn exactly when a pawn of that colour covers the square diagonally forward. |
| EngineSpec.KnightAttack | src/utils/chessEngine.js:46-56 | The knight table inspected from the attacked square finds a knight exactly when some knight of the attacker covers the square. |
| EngineSpec.KingAttack | src/utils/chessEngine.js:95-105 | The eight neighbour squares hold the attacker's king exactly when that king covers the square. |
| EngineSpec.AttackedMatchesReference | src/utils/chessEngine.js:31-108 | The attack test is true if and only if some piece of the attacking colour covers the square by its own movement rule. |
| EngineSpec.InCheckMatchesReference | src/utils/chessEngine.js:111-116 | A side is in check if and only if it has a king and the first one found is covered by an enemy piece. |
| Fen.ParseRow | src/utils/chessEngine.js:301-330 | A parsed row has exactly eight cells: the cells read, then empty cells up to eight. |
| Fen.ParseFEN | src/utils/chessEngine.js:295-339 | The result is always 8x8; row i is the parse of the i-th '/'-separated part, and rows without a part are empty. |
| Fen.ParseEncodedCells | src/utils/chessEngine.js:290-324 | Reading back a row written by `boardToFEN` yields that row, when every piece letter is one UTF-16 code unit other than '/'. |
| Fen.ParseBoardToFEN | src/utils/chessEngine.js:290-339 | `parseFEN(boardToFEN(b)) == b` for every 8x8 board whose piece letters are each one UTF-16 code unit other than '/'. |
| Fen.ParseBoardToFENStandard | src/utils/chessEngine.js:290-339 | The round trip holds for every 8x8 board of standard pieces. |
| Rules.Mobility | src/utils/checkmate.js:8-18 | Entry (r, c) says whether the piece of the side to move at (r, c) has a move. |
| Rules.NoMovesFromSpec | src/utils/checkmate.js:8-18 | The row-major scan from (r, c) finds nothing exactly when no later square has a move. |
| Rules.NoMovesIffNoLegalMove | src/utils/checkmate.js:8-18 | The scan over all squares finds nothing if and only if the side to move has no legal move. |
| Rules.IsCheckmate | src/utils/checkmate.js:4-21 | Checkmate holds if and only if the side to move is in check and has no legal move. |
| Rules.CheckmateByRules | src/utils/checkmate.js:4-21 | Checkmate holds if and only if the side is in check and every pattern move of every own piece leaves it in check. |
| Rules.IsStalemate | src/utils/drawRules.js:5-19 | Stalemate holds if and only if the side to move has no legal move and is not in check. |
| Rules.MateAndStalemateExclusive | src/utils/drawRules.js:5-19 | No position is both checkmate and stalemate. |
| Rules.Pieces | src/utils/drawRules.js:23-28 | The collected pieces contain no empty cell, and each piece value as often as the board does. |
| Rules.PiecesMembers | src/utils/drawRules.js:23-28 | A cell is collected if and only if it is a piece standing somewhere on the board. |
| Rules.IsInsufficientMaterial | src/utils/drawRules.js:22-40 | Insufficient material holds if and only if there are exactly two pieces, or exactly three of which one is a knight or bishop. |
| Rules.UpdateRepetition | src/utils/drawRules.js:48-50 | The position's count goes up by one and every other count is unchanged. |
| Rules.ThreefoldAfterUpdate | src/utils/drawRules.js:48-54 | After recording a position, some position has been seen three times if and only if that already held or this one had been seen twice. |
| Rules.EvaluateDraw | src/utils/drawRules.js:62-87 | Without a socket or code nothing changes. Otherwise the position is counted once, and the first of repetition, insufficient material and stalemate that holds is reported; when none is reported, none holds. |
| Rules.ThirdVisitIsRepetition | src/utils/drawRules.js:62-72 | From a fresh tracker, the same position evaluated three times reports repetition the third time and not before. |
| Counter.Bump | src/store/gameStore.js:232-240 | The key's count goes up by one, other counts are unchanged, and the key joins the table. |
| Js.MaxZero | server/server.js:228 | `Math.max(0, x)`: NaN stays NaN; a number becomes itself or 0, never negative. |
| MoveString.ParseMove | server/server.js:219-256 | Only a present move string can be accepted, and an accepted move has all four coordinates in 0..7. |
| MoveString.ParseSquareText | server/server.js:250-251 | "row,col" written from two numbers reads back as those two numbers. |
| MoveString.ParseFormatMove | server/server.js:219-256 | The move string "r,c->r,c" of four coordinates is accepted exactly when all four are on the board, and then reads back as those coordinates. |
| MoveString.ParseMoveNeedsArrow | server/server.js:220-221 | A move string without "->" is rejected as malformed. |
| Notation.FileIndexOfFile | src/utils/moveNotation.js:11-12 | Each column's file letter reads back as that column. |
| Notation.RankIndexOfRank | src/utils/moveNotation.js:11-12 | Each row's rank digit reads back as that row. |
| Notation.NotationMarks | src/utils/moveNotation.js:14-47 | The notation never contains '#'. It contains 'x' if and only if the target is occupied, and ends in '+' if and only if the move gives check. |
| Notation.NotationLength | src/utils/moveNotation.js:14-47 | For a standard piece on the board, the notation is 2 to 5 characters long. |
| Notation.ReadCompose | src/utils/moveNotation.js:22-45 | The notation reader reads any composed notation back into its lead, capture mark, target and check mark. |
| Notation.ReadMoveNotation | src/utils/moveNotation.js:14-47 | Reading back a move's notation gives the moved piece letter, the capturing pawn's file, the capture flag, the target square and the check flag. |
| MoveHistory.GetMoveDetails | src/components/MoveHistory.jsx:9-31 | Details keep the entry's notation and captured piece, check only when the entry's flag is true, and the full text is the two squares joined by the source's literal separator, the three characters "â†’" (U+00E2 U+2020 U+2019). |
| MoveHistory.DetailsOfFormattedMove | src/components/MoveHistory.jsx:9-31 | An entry holding an on-board move string shows the two squares in file-rank form. |
| MoveHistory.NoArrowNoDetails | src/components/MoveHistory.jsx:11-12 | An entry whose move string has no "->" shows nothing. |
| MoveHistory.EntryShownInItsGroup | src/components/MoveHistory.jsx:4-40 | Entry i is shown in group i/2: as White's move when i is even and as Black's when i is odd. A last group without a second entry shows no Black move. |
| MoveHistory.GroupMoves | src/components/MoveHistory.jsx:3-41 | There are ceil(n/2) groups, and group k pairs entry 2k with entry 2k+1. |
| Store.SelectSquare | src/store/gameStore.js:39-89 | Out of turn nothing changes. A click on the selected square deselects it, a click on an own piece selects it with its legal moves, and any other click with a selection hands the move over and clears the selection. Only the selection fields change. |
| Store.SelectKeepsSelectionOwn | src/store/gameStore.js:39-89 | The selection stays on an own piece, and a handed-over move starts on an own piece and ends on a square without one. |
| Store.SelectedDestinationsAreLegal | src/store/gameStore.js:58-65 | After selecting a piece, the listed destinations are exactly its pattern moves that leave the mover out of check. |
| Store.SecondClickDeselects | src/store/gameStore.js:52-56 | Clicking an own piece twice selects it and then returns the store to no selection, with no move. |
| Store.SelectThenTarget | src/store/gameStore.js:58-84 | Selecting a piece and clicking a square without an own piece hands over that move, legal or not, and clears the selection. |
| Store.CheckSquare | src/store/gameStore.js:100-106 | A highlighted square is given only in check, and holds the side's king. |
| Store.ApplyMove | src/store/gameStore.js:91-126 | The turn passes and the selection clears. The check flag is the new side's check, with a king square exactly when in check. One entry is appended, numbered only for White's move. Captures and the rest of the game are unchanged. |
| Store.ApplyMoveBoard | src/store/gameStore.js:93 | After `applyMove` only the two move squares differ: the origin is empty and the target holds the (promoted) piece. |
| Store.ApplyMoveEntry | src/store/gameStore.js:108-115 | The appended entry shows the move's squares, and its notation reads back as the piece, the capture, the target and the check. |
| Store.CapturedCell | src/store/gameStore.js:150 | The captured cell is the occupied target, and is absent exactly when the target is empty or off the board. |
| Store.RecordCapture | src/store/gameStore.js:151-172 | The captured piece's letter goes to the list of the colour opposite the capturing piece; nothing is recorded without a capture or capturer. |
| Store.ShowPosition | src/store/gameStore.js:189-216 | The store shows the new board and turn with no selection. A king square is set exactly when in check and a king exists, and history and captures are unchanged. |
| Store.FenEntry | src/store/gameStore.js:174-184 | The entry carries the check flag of the new position, a turn number exactly for White's move, the captured cell and the move string. |
| Store.ShowMove | src/store/gameStore.js:144-216 | With full move info, the position is shown, the entry appended and the capture recorded. |
| Store.ShowFEN | src/store/gameStore.js:128-224 | A throwing move info leaves the store unchanged. Otherwise the board and the given (or toggled) turn are shown, and check is off for info without an origin. Full info appends one entry and records the capture; without it, history and captures are unchanged. |
| Store.ShowFENHighlightsCheck | src/store/gameStore.js:189-198 | After `applyFEN` a king square is highlighted exactly when the check flag is set. |
| Store.ApplyFEN | src/store/gameStore.js:128-224 | Unless the move info throws, the board becomes the parsed text, always 8x8. |
| Store.ApplyFENRecordsCapture | src/store/gameStore.js:149-172 | A capture lands, as the captured letter, in the list of the colour opposite the mover; an empty target or origin records nothing. |
| Store.SetIllegalMove | src/store/gameStore.js:232-240 | The named colour's count goes up by one; every other count and field is unchanged. |
| Store.Reset | src/store/gameStore.js:242-263 | Every field returns to its initial value except the draw offer and the both-joined flag, which are kept. |
| Store.ResetIsFresh | src/store/gameStore.js:242-263 | A reset store has the initial board, White to move, no history, captures or illegal moves, no repetition, and resetting again changes nothing. |
| MatchManager.ColorNamed | server/server.js:227 | Exactly "white" and "black" name a colour, and the name reads back. |
| MatchManager.CodeFromUuid | server/matchManager.js:8 | The code is the first six characters of the UUID (fewer if it is shorter), with lower-case ASCII letters made capitals and every other character kept. |
| MatchManager.FirstFree | server/matchManager.js:7-9 | The result is the first index at or after `from` whose code is not taken; it is absent when all are taken. |
| MatchManager.CreateGameCode | server/matchManager.js:4-11 | The code is that of the first UUID whose code is free, and it is not in the registry; it is absent only when every drawn code is taken. |
| MatchManager.CreateMatch | server/matchManager.js:13-49 | A new match is stored under a free code and the code is appended to the key order; nothing else changes. |
| MatchManager.ClocksOfTimeControl | server/matchManager.js:15-39 | A time control "m+i" gives m·60000 ms on each clock and i·1000 ms increment. |
| MatchManager.ClocksWithoutIncrement | server/matchManager.js:15-39 | A time control without '+' gives a NaN increment, and a number clock exactly when the text is a number. |
| MatchManager.Clocks15Plus10 | src/utils/constants.js:21 | "15+10" gives 900000 ms per clock and a 10000 ms increment. |
| MatchManager.Clocks5Plus3 | src/utils/constants.js:21 | "5+3" gives 300000 ms per clock and a 3000 ms increment. |
| MatchManager.Clocks2Plus1 | src/utils/constants.js:21 | "2+1" gives 120000 ms per clock and a 1000 ms increment. |
| MatchManager.RemoveMatch | server/matchManager.js:52 | The code leaves the table and the key order; every other match is unchanged. |
| MatchManager.AddMove | server/matchManager.js:54-71 | The move is appended, the position stored and the half-move count increased. The turn flips and the mover's clock gains the increment, with the opponent's clock unchanged. An unknown code changes nothing. |
| MatchManager.AddIllegal | server/matchManager.js:73-76 | The named colour's count goes up by one and is returned. Any other name, or an unknown code, changes nothing that is modelled and returns no number. |
| MatchManager.UpdateTimer | server/matchManager.js:83-89 | Both clocks take the reported values (whole numbers or NaN), whatever the clocks held before; nothing else changes. |
| MatchManager.SetGameStarted | server/matchManager.js:91-99 | The started flag and the running clock both follow the argument; nothing else changes. |
| MatchManager.SetGameOver | server/matchManager.js:101-108 | The match is over and completed with this result, and the clock stops, even if it was over before. |
| MatchManager.UpdateGameState | server/matchManager.js:110-120 | A reported side to move replaces the server's; moves, seats, counts and clocks are unchanged. |
| MatchManager.ReconnectPlayer | server/matchManager.js:122-136 | The named colour's seat and remembered socket become the socket, and the other colour and the player count are unchanged. The flag says whether the match exists. |
| MatchManager.LowestSeatedIndexKey | server/matchManager.js:139-144 | Among array-index keys, the result is the numerically smallest one whose match seats the socket. |
| MatchManager.FirstSeatedNamedKey | server/matchManager.js:139-144 | Among the other keys, in insertion order, the result is the first whose match seats the socket. |
| MatchManager.FindMatchBySocketId | server/matchManager.js:138-146 | The result is the first match in JavaScript key order that seats the socket; it is absent exactly when none does. |
| MatchManager.FindMatchBySocketIdComplete | server/matchManager.js:138-146 | On a valid registry, nothing is found exactly when no stored match seats the socket. |
| MatchManager.AddNewMatchInv | server/matchManager.js:18-47 | A new match satisfies the match invariant, and adding it under a free code keeps the registry valid. |
| MatchManager.CreateMatchInv | server/matchManager.js:13-49 | Creating a match keeps the registry invariant. |
| Server.OnCreateGame | server/server.js:43-49 | A created game is stored under a code that was free, as a fresh match; otherwise nothing changes. |
| Server.TakeSeat | server/server.js:96-102 | A newcomer is seated and remembered in that colour and one more player is counted; the other seat and the game are unchanged. |
| Server.OnJoinGame | server/server.js:53-148 | A code with no stored match, or a finished match, is refused with no change. Otherwise the socket takes the assigned seat; a reconnection does not count a player and a newcomer does. The intro starts exactly when both seats are filled in a game not yet started. |
| Server.OnDisconnect | server/server.js:176-188 | In the first match seating the socket, the socket leaves every seat it holds. Remembered sockets, counts and the game are unchanged. |
| Server.Penalize | server/server.js:224-245 | The colour's count goes up by one and its clock loses 5000 ms, floored at 0. The remaining count is reported, and the ninth illegal move ends the game as a forfeit to the opponent. |
| Server.Mover | server/server.js:190-216 | The result is the seated colour of the socket, present exactly when the game has started, two players have joined and that colour is to move. |
| Server.OnMakeMove | server/server.js:190-344 | Out-of-turn or unseated moves are ignored and malformed moves are penalised. A well-formed move is recorded without any chess check, and the 150th half-move draws by the 75-move rule. |
| Server.OnIllegalMove | server/server.js:402-429 | "white" or "black" is penalised as above. Any other name counts nothing, costs Black 5000 ms and never forfeits. |
| Server.OnTimerUpdate | server/server.js:347-360 | Reported clock values (whole numbers or NaN) replace the server's unchecked and are echoed back. |
| Server.OnGameStarted | server/server.js:362-396 | The game starts exactly on the first report after two players joined. |
| Server.OnGameStateUpdate | server/server.js:398-400 | Only the side to move is taken from the client's state. |
| Server.OnResign | server/server.js:431-457 | A resignation is accepted exactly from the socket seated as the named colour in a started two-player game, and that colour loses. |
| Server.OnDrawOffer | server/server.js:459-481 | An offer is relayed exactly under the resignation's checks and changes nothing. |
| Server.OnAcceptDraw | server/server.js:483-489 | Any acceptance draws the game by agreement, with no check of an offer or a sender. |
| Server.OnDeclineDraw | server/server.js:491-493 | A decline is relayed and changes nothing. |
| Server.OnGameOver | server/server.js:496-508 | A reported result is recorded as given for a known code. |
| Server.OnCancelGame | server/server.js:512-536 | Only a seated player of a game not yet started removes the match. The two refusals carry the source's messages. |
| Server.JoinKeepsInv | server/server.js:53-148 | Joining keeps the registry invariant. |
| Server.MakeMoveKeepsInv | server/server.js:190-344 | A move event keeps the registry invariant. |
| Server.StepKeepsInv | server/server.js:51-537 | Every handler keeps the invariant of every match and of the registry. |
| Server.RunKeepsInv | server/server.js:51-537 | Any sequence of events keeps the invariant. |
| Server.StepMonotone | server/server.js:51-537 | In a match that survives a handler, illegal counts and players joined only grow, the move log only extends, and a finished match stays finished. |
| Server.FreshMatchSeatsWhiteThenBlack | server/server.js:76-79 | Two colourless joins seat White and then Black, and the second starts the intro. |
| Server.DisconnectThenRejoin | server/server.js:66-75 | A dropped player rejoining without a colour gets the same seat back as a reconnection, with the player count unchanged. |
| Server.ColourlessThirdJoinTakesBlackSeat | server/server.js:76-79 | A colourless third join while both seats are filled takes the Black seat. |
| Server.NamedJoinTakesOverSeat | server/server.js:80-85 | Naming a seat another socket holds takes it over as a reconnection. |
| Server.TakenSeatSwitchesOnlyForEmptyId | server/server.js:80-102 | Naming a colour whose seat another socket holds switches the joiner to the opposite colour if and only if the seated socket id is empty; otherwise the join is a reconnection to the named seat. |
| Server.NinthIllegalMoveForfeits | server/server.js:402-429 | The ninth illegal move forfeits to the opponent with none remaining, and schedules removal. |
| Server.IllegalMoveAfterForfeitStillCounts | server/server.js:402-429 | An illegal move after the forfeit still counts (ten), still costs 5000 ms and rewrites the result. |
| Server.SecondGameOverOverwrites | server/server.js:496-508 | A second game-over report replaces the first result. |
| Server.AnyOnBoardMoveIsRecorded | server/server.js:284-317 | Every on-board move of the seated side to move is recorded, whatever the position. |
| Server.HundredFiftiethHalfMoveDraws | server/server.js:338-343 | The 150th half-move draws by the 75-move rule and schedules removal. |
| Timer.CollapseRemovesSpace | src/components/GameTimer.jsx:9 | After collapsing white space, no white space is left, every other character comes from the input, and text without space is unchanged. |
| Timer.ReadParts | src/components/GameTimer.jsx:10-21 | An accepted time control has a positive whole number of minutes, in seconds. |
| Timer.ParseTimeControl | src/components/GameTimer.jsx:5-25 | A parsed time control comes from a non-empty text and has a positive whole number of minutes, in seconds. |
| Timer.ReadDigitParts | src/components/GameTimer.jsx:10-21 | "m+i" of digits reads as m·60 seconds and i increment when m > 0, and is rejected when m = 0. |
| Timer.ParsePlusSeparated | src/components/GameTimer.jsx:5-25 | "m+i" parses to m minutes and i seconds of increment when m > 0, and to nothing when m = 0. |
| Timer.ParseSpaceSeparated | src/components/GameTimer.jsx:7-9 | "m i" with any run of white space parses as "m+i". |
| Timer.SpacedPlusRejected | src/components/GameTimer.jsx:9-11 | "m + i" is rejected, since each space becomes another '+'. |
| Timer.MinutesOnlyRejected | src/components/GameTimer.jsx:10-11 | A bare number of minutes is rejected. |
| Timer.InitialClocks | src/components/GameTimer.jsx:29-34 | Both clocks start equal: at the parsed time and increment, or all zero when there is none. |
| Timer.Tick | src/components/GameTimer.jsx:151-169 | Only the clock of the side to move changes. It flags that side exactly when the clock is at or below 0, and is then set to 0; otherwise it loses one second. |
| Timer.CountDown | src/components/GameTimer.jsx:151-169 | n ticks from t seconds leave max(0, t - n), with one flag of the mover per tick past zero and the other clock unchanged. |
| Timer.ApplyIncrement | src/components/GameTimer.jsx:174-182 | The side that just moved (not the side to move) gains the increment; the side to move's clock is unchanged. |
| Timer.IncrementCommutesWithTick | src/components/GameTimer.jsx:151-182 | Applying the increment before or after a tick gives the same clocks and flag. |
| Timer.ApplyIllegalPenalty | src/components/GameTimer.jsx:191-200 | "white" charges White and any other name charges Black. The clock drops by 5 seconds, or to 0 when below 5, and the other clock is unchanged. |
| Timer.PenaltiesAccumulate | src/components/GameTimer.jsx:191-200 | k penalties leave max(0, t - 5k) and the other clock unchanged. |
| Timer.Pad2 | src/components/GameTimer.jsx:188 | A number below 60 is written as exactly two digits denoting it. |
| Timer.FormatTime | src/components/GameTimer.jsx:184-189 | The display is digits, ':', and two digits. |
| Timer.FormatTimeReadsBack | src/components/GameTimer.jsx:184-189 | The display of n seconds reads back as n (minutes·60 + seconds). |
| Timer.FormatTimeClamps | src/components/GameTimer.jsx:185 | NaN or a negative time shows "0:00". |
| Timer.Seconds | src/components/GameTimer.jsx:223-225 | Milliseconds become whole seconds, rounded down; NaN stays NaN. |
| Timer.RestoreState | src/components/GameTimer.jsx:219-236 | With all three values given, the clocks become their whole seconds; otherwise nothing changes. |
| Timer.GetCurrentTimes | src/components/GameTimer.jsx:238-244 | The clocks are reported in milliseconds. |
| Timer.RestoreCurrentTimes | src/components/GameTimer.jsx:219-244 | Restoring from the reported times gives back the same clocks. |
| Timer.CurrentTimesOfRestore | src/components/GameTimer.jsx:219-244 | Reporting after a restore gives each time rounded down to a whole second, less than 1000 ms below it. |
| Pgn.DateOf | utils/PGN.js:9 | The date is the first ten characters of the timestamp with each '-' written as '.'. |
| Pgn.DateOfIsoTimestamp | utils/PGN.js:9 | "yyyy-mm-dd…" gives "yyyy.mm.dd". |
| Pgn.TokensSnoc | utils/PGN.js:31-34 | One more loop iteration appends that move's token at the end. |
| Pgn.TokensAreTurns | utils/PGN.js:31-34 | The loop's tokens are the moves numbered by turn, in order: "1. a b 2. c d …". |
| Pgn.WriteMoves | utils/PGN.js:31-34 | The move loop writes the moves numbered by turn, each followed by a space. |
| Pgn.GeneratePgn | utils/PGN.js:4-37 | The PGN is the trimmed text of the eight tag lines, a blank line and the numbered moves. |
| Pgn.TagLinesShape | utils/PGN.js:11-26 | The tag lines open with '[' and end with "]" and a line break. |
| Pgn.HeaderShape | utils/PGN.js:11-28 | The header opens with '[' and ends with the tag lines' last ']' and two line breaks. |
| Pgn.PgnStartsWithTags | utils/PGN.js:8-36 | With moves, the PGN is the header, the blank line, then the movetext with only its trailing space trimmed. |
| Pgn.NoMovesEndsAtGameCode | utils/PGN.js:11-36 | Without moves, the PGN is the tag lines without the final line break, ending at the GameCode tag's ']'. |

## Left out

- Sockets, rooms, HTTP and logging are not modelled. A handler's broadcasts are summarised by its `Outcome`; what each emitted payload holds is not modelled.
- `joinSpectator` and the production static file serving are left out. They only read a match or serve files.
- `server/routes.js` is left out, including its time-control check. The server never mounts that router, and matches are created by `server/server.js:43-49` without validation.
- The game-state snapshot sent on join is not modelled.
- `updateGameState` is modelled only for `whiteToMove`. Move history, captures, check and draw offer are display copies the server never reads.
- The five-second removal timer is left out as a timer: the handler's outcome says it is scheduled, and `RemovalDue` is the timer firing.
- `Date.now()` in `updateTimer` and `setGameStarted` (`lastTimerUpdate`) is left out. Nothing reads it.
- The `moveHistory`, `capturedPieces`, `inCheck`, `checkSquare` and `drawOffer` fields of a server match are left out. The server only stores and re-sends them.
- Text.JsNumber: JavaScript `Number()` is modelled only for trimmed decimal digit strings, with "" giving 0. Signs, decimals, exponents and hex read as NaN, so a negative or fractional time control or coordinate is not modelled.
- The UUID generator is an input sequence, so `createGameCode`'s unbounded retry is bounded by that sequence.
- The React component structure, sounds, flashes and `setTimeout` effects of `GameTimer.jsx` are left out. So are its effects that reset or restore on prop changes (lines 41-146).
- Timer.RestoreState: JavaScript `null` passes the source's `!== undefined` test, but the model has one absent value, so a `null` reading is not distinguished.
- Timer.ApplyIllegalPenalty: the `remaining` argument only chooses whether a sound plays, so it is not a parameter.
- The store's plain setters, `setGameOver`, `setDrawOffer` and `clearDrawOffer` are left out. Each copies its argument into one field.
- Store.SelectSquare: requires an on-board square. The source indexes `board[row][col]`, which throws off the board on the player's turn or for an off-board row; an off-board column out of turn returns without a change, which the model does not cover.
- Store.ShowFEN: the parse of the FEN text is a parameter board; `ApplyFEN` composes it with `ParseFEN`.
- `isInsufficientMaterial` looks only at the piece count and one minor piece, so a position with two kings and two minor pieces is not insufficient. The model states the source's rule, not the chess rule.
- There is no castling or en passant in the source, so none in the model.
- The RepetitionTracker's `reset` is modelled as returning the fresh tracker.
- `generatePGN` reads the `completed` field but never uses it.
- Components other than `MoveHistory.jsx` and `GameTimer.jsx` (boards, modals, lobby, `useSocket.js`) are not part of this model.
- Server.OnJoinGame: a requested colour that names a field of the match holding null or the joining socket's id (`gameResult`, `whiteSocketId`, `blackSocketId`, `lastTimerUpdate`, `checkSquare`, `drawOffer`) is modelled like any other unknown name, as a White seat. The source instead writes the socket id into that field and into `blackSocketId` and counts one more player. The model has no field-by-name view of a match, so it cannot follow these writes.
- Server.OnJoinGame: `getMatch` also finds keys inherited by every JavaScript object, such as "constructor" or "__proto__", and the handlers then write seats onto those shared objects. The model treats such codes as codes with no stored match, which every handler refuses or ignores.
- JoinKeepsInv: holds for the modelled join only. In the source, a join naming `gameResult` leaves a result on a match that is not over, and one naming `whiteSocketId` can leave more remembered sockets than players joined, so the match invariant can break.
- StepKeepsInv: inherits the join gap above; every other handler keeps the invariant as the source does.
- RunKeepsInv: inherits the join gap above through `StepKeepsInv`.
- MatchManager.UpdateTimer: clock reports are modelled only as whole numbers or NaN. The source stores whatever JSON the client sends (a fraction, a string, null), and a string would later make the increment concatenate instead of add.
- Server.OnTimerUpdate: the same narrowing of the reported clock values as `MatchManager.UpdateTimer`.
- Fen.ParseFEN: reads the text as Unicode characters, while the source indexes UTF-16 code units. A piece letter outside the Basic Multilingual Plane is read differently, so the round-trip lemmas are stated only for letters that are one code unit.
- MatchManager.CodeFromUuid: upper-cases only ASCII letters, where `toUpperCase` maps every Unicode letter. A version 4 UUID holds only hexadecimal digits and '-', so codes of real UUIDs agree.
- ParseEncodedCells: stated only for rows whose piece letters are each one UTF-16 code unit other than '/', the letters the source reads back as written.
- Handler payloads are modelled as present and of the expected types. In the source, a missing payload makes the destructuring in `socket.on(..., ({code, ...}) => ...)` throw. A missing or non-string `timeControl` throws at `timeControl.split` (`server/matchManager.js:15`, reached from `server/server.js:44-46`). A missing `state` for an existing match throws at `state.moveHistory` (`server/matchManager.js:113`). Each such throw ends the handler, and the model does not cover it.
