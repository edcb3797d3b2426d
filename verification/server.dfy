/**
  `server/server.js`: the socket handlers that drive the match registry.

  Each handler is a function from the registry and the event's payload to
  the new registry and an `Outcome` naming what the handler broadcasts.
  The server never consults the move engine: a move string that parses to
  four in-range coordinates is accepted whatever the position. A forfeit,
  resignation, agreed draw or reported game end schedules the match's
  removal five seconds later; that timer firing is the `RemovalDue` event.
 */
module Server {
  import opened Opt
  import opened Text
  import opened Js
  import opened Chess
  import opened MatchManager
  import opened MoveString

  /** The ninth illegal move forfeits the game. */
  const ILLEGAL_MOVE_LIMIT := 9
  /** Each illegal move costs five seconds of clock. */
  const ILLEGAL_MOVE_TIME_PENALTY := 5000

  // ---------------------------------------------------------------- outcomes

  /** What a handler broadcasts; `Ignored` is a handler that returns silently. */
  datatype Outcome =
    | Ignored
    | InvalidCode
    | Joined(color: Color, reconnection: bool, introStart: bool)
    | MoveMade(move: string, fen: string, whiteTime: Number, blackTime: Number, drawn: bool)
    | Penalty(penalized: string, remaining: Option<int>, whiteTime: Number, blackTime: Number,
              forfeit: Option<GameResult>)
    | TimerSync(whiteTime: Number, blackTime: Number)
    | Started
    | DrawOffered(from: string)
    | DrawAccepted
    | DrawDeclined
    | Over(result: GameResult)
    | CancelRefused(message: string)
    | Cancelled
    | Created(code: Code)

  datatype Reply = Reply(reg: Registry, out: Outcome)

  /** The outcomes after which the handler sets the five-second removal timer. */
  predicate SchedulesRemoval(o: Outcome) {
    match o
    case MoveMade(_, _, _, _, drawn) => drawn
    case Penalty(_, _, _, _, forfeit) => forfeit.Some?
    case DrawAccepted => true
    case Over(_) => true
    case _ => false
  }

  /** The result string when `loser` loses. */
  function WinFor(loser: Color): string {
    if loser == White then "0-1" else "1-0"
  }

  // ---------------------------------------------------------------- creation

  /** `POST /create-game`: a new match under a fresh code. */
  function OnCreateGame(reg: Registry, uuids: seq<string>, tc: string): (r: Reply)
    ensures r.out.Created? ==> r.out.code !in reg.matches && r.out.code in r.reg.matches && r.reg.matches[r.out.code] == NewMatch(r.out.code, tc)
    ensures r.out.Created? || r.reg == reg
  {
    match CreateMatch(reg, uuids, tc)
    case None => Reply(reg, Ignored)
    case Some((reg', code)) => Reply(reg', Created(code))
  }

  // ---------------------------------------------------------------- joining

  /** JavaScript truthiness of a socket id: null and "" are false. */
  predicate Truthy(s: Option<SocketId>) {
    s.Some? && s.value != ""
  }

  /**
    The colour `joinGame` assigns and whether it counts as a reconnection.
    Without a requested colour: a remembered White socket that is no longer
    seated is reclaimed, then the same for Black, otherwise a newcomer gets
    White if that seat is empty and Black if not. With "white" or "black":
    a seat held by another socket is reclaimed when it remembers a socket,
    else the newcomer gets the other colour. Any other name is taken to read
    a field that is neither null nor this socket, as a missing field or an
    inherited method is, so the newcomer ends up as White. The name of a
    field that is null or holds this socket (`gameResult`, `whiteSocketId`,
    `blackSocketId`, ...) passes the source's test instead, and the source
    then writes the socket into that field and into `blackSocketId`; that
    path is not modelled.
   */
  function AssignColor(m: Match, sid: SocketId, requested: Option<string>): (r: (Color, bool))
  {
    if requested.None? || requested.value == "" then
      if Truthy(m.whiteSocketId) && m.whiteSocketId != m.white then (White, true)
      else if Truthy(m.blackSocketId) && m.blackSocketId != m.black then (Black, true)
      else (if m.white.Some? then Black else White, false)
    else
      match ColorNamed(requested.value)
      case None => (White, false)
      case Some(c) =>
        if Seat(m, c).Some? && Seat(m, c) != Some(sid) then
          if Truthy(LastSocket(m, c)) then (c, true) else (Opponent(c), false)
        else (c, false)
  }

  /** A newcomer takes the seat: seated, remembered, one more player joined. */
  function TakeSeat(m: Match, c: Color, sid: SocketId): (m': Match)
    ensures Seat(m', c) == Some(sid) && LastSocket(m', c) == Some(sid)
    ensures Seat(m', Opponent(c)) == Seat(m, Opponent(c)) && LastSocket(m', Opponent(c)) == LastSocket(m, Opponent(c))
    ensures m'.playersJoined == m.playersJoined + 1
    ensures m'.code == m.code && m'.timeControl == m.timeControl
    ensures SamePlay(m, m') && SameIllegal(m, m') && SameStatus(m, m') && SameClocks(m, m')
  {
    if c == White then m.(white := Some(sid), whiteSocketId := Some(sid), playersJoined := m.playersJoined + 1)
    else m.(black := Some(sid), blackSocketId := Some(sid), playersJoined := m.playersJoined + 1)
  }

  /**
    `joinGame`: refused for an unknown code or a finished match; otherwise
    the socket is seated in the assigned colour, and the intro starts once
    both seats are filled in a game not yet started.
   */
  function OnJoinGame(reg: Registry, sid: SocketId, code: Code, requested: Option<string>): (r: Reply)
    ensures OnlyTouches(reg, r.reg, code)
    ensures r.out.InvalidCode? <==> code !in reg.matches || reg.matches[code].gameOver || reg.matches[code].completed
    ensures r.out.InvalidCode? ==> r.reg == reg
    ensures r.out.InvalidCode? || r.out.Joined?
    ensures r.out.Joined? ==>
      var m, m', c := reg.matches[code], r.reg.matches[code], r.out.color;
      Seat(m', c) == Some(sid) && LastSocket(m', c) == Some(sid)
      && Seat(m', Opponent(c)) == Seat(m, Opponent(c)) && LastSocket(m', Opponent(c)) == LastSocket(m, Opponent(c))
      && (r.out.reconnection ==> m'.playersJoined == m.playersJoined && Truthy(LastSocket(m, c)))
      && (!r.out.reconnection ==> m'.playersJoined == m.playersJoined + 1)
      && (r.out.introStart <==> m'.white.Some? && m'.black.Some? && !m.gameStarted)
      && m'.code == m.code && SamePlay(m, m') && SameIllegal(m, m') && SameStatus(m, m') && SameClocks(m, m')
  {
    if code !in reg.matches then Reply(reg, InvalidCode)
    else
      var m := reg.matches[code];
      if m.gameOver || m.completed then Reply(reg, InvalidCode)
      else
        var (c, reconnection) := AssignColor(m, sid, requested);
        var reg' := if reconnection then ReconnectPlayer(reg, code, sid, ColorName(c)).0
                    else Put(reg, code, TakeSeat(m, c, sid));
        var m' := reg'.matches[code];
        Reply(reg', Joined(c, reconnection, m'.white.Some? && m'.black.Some? && !m'.gameStarted))
  }

  /**
    `disconnect`: in the first match (in key order) seating the socket, the
    socket leaves every seat it holds; the remembered sockets stay, so the
    player can reconnect.
   */
  function OnDisconnect(reg: Registry, sid: SocketId): (r: Reply)
    ensures r.out == Ignored
    ensures FindMatchBySocketId(reg, sid).None? ==> r.reg == reg
    ensures FindMatchBySocketId(reg, sid).Some? ==> OnlyTouches(reg, r.reg, FindMatchBySocketId(reg, sid).value)
    ensures FindMatchBySocketId(reg, sid).Some? ==>
      var code := FindMatchBySocketId(reg, sid).value;
      var m, m' := reg.matches[code], r.reg.matches[code];
      !Seated(m', sid)
      && (m.white != Some(sid) ==> m'.white == m.white) && (m.black != Some(sid) ==> m'.black == m.black)
      && m'.whiteSocketId == m.whiteSocketId && m'.blackSocketId == m.blackSocketId
      && m'.playersJoined == m.playersJoined && m'.code == m.code
      && SamePlay(m, m') && SameIllegal(m, m') && SameStatus(m, m') && SameClocks(m, m')
  {
    match FindMatchBySocketId(reg, sid)
    case None => Reply(reg, Ignored)
    case Some(code) =>
      var m := reg.matches[code];
      Reply(Put(reg, code, m.(white := if m.white == Some(sid) then None else m.white,
                              black := if m.black == Some(sid) then None else m.black)), Ignored)
  }

  // ---------------------------------------------------------------- moves

  /**
    The illegal-move penalty of `makeMove` and `illegalMove` for a named
    colour: one more illegal move, five seconds off that clock (not below 0),
    and on the ninth the opponent wins by forfeit.
   */
  function Penalize(reg: Registry, code: Code, c: Color): (r: Reply)
    requires code in reg.matches
    ensures OnlyTouches(reg, r.reg, code)
    ensures r.out.Penalty?
    ensures
      var m, m' := reg.matches[code], r.reg.matches[code];
      var n := IllegalCount(m, c) + 1;
      IllegalCount(m', c) == n && IllegalCount(m', Opponent(c)) == IllegalCount(m, Opponent(c))
      && Clock(m', c) == MaxZero(Minus(Clock(m, c), ILLEGAL_MOVE_TIME_PENALTY))
      && Clock(m', Opponent(c)) == Clock(m, Opponent(c)) && m'.increment == m.increment
      && r.out == Penalty(ColorName(c), Some(ILLEGAL_MOVE_LIMIT - n), m'.whiteTime, m'.blackTime, r.out.forfeit)
      && (r.out.forfeit.Some? <==> n >= ILLEGAL_MOVE_LIMIT)
      && (n >= ILLEGAL_MOVE_LIMIT ==>
            r.out.forfeit == Some(GameResult(WinFor(c), "Illegal move forfeit"))
            && m'.gameOver && m'.completed && !m'.timerActive && m'.gameResult == r.out.forfeit)
      && (n < ILLEGAL_MOVE_LIMIT ==> SameStatus(m, m'))
      && m'.gameStarted == m.gameStarted && SameSeats(m, m') && SamePlay(m, m')
  {
    var (reg1, count) := AddIllegal(reg, code, ColorName(c));
    var m1 := reg1.matches[code];
    var m2 := if c == White then m1.(whiteTime := MaxZero(Minus(m1.whiteTime, ILLEGAL_MOVE_TIME_PENALTY)))
              else m1.(blackTime := MaxZero(Minus(m1.blackTime, ILLEGAL_MOVE_TIME_PENALTY)));
    var reg2 := Put(reg1, code, m2);
    var n := count.value;
    if n >= ILLEGAL_MOVE_LIMIT then
      var res := GameResult(WinFor(c), "Illegal move forfeit");
      Reply(SetGameOver(reg2, code, res.result, res.reason),
            Penalty(ColorName(c), Some(ILLEGAL_MOVE_LIMIT - n), m2.whiteTime, m2.blackTime, Some(res)))
    else
      Reply(reg2, Penalty(ColorName(c), Some(ILLEGAL_MOVE_LIMIT - n), m2.whiteTime, m2.blackTime, None))
  }

  /** The checks `makeMove` makes before looking at the move: the colour of the seated mover, if any. */
  function Mover(reg: Registry, sid: SocketId, code: Code): (r: Option<Color>)
    ensures r.Some? <==> (code in reg.matches && reg.matches[code].gameStarted
      && reg.matches[code].playersJoined >= 2 && Seated(reg.matches[code], sid)
      && reg.matches[code].whiteToMove == (SeatOf(reg.matches[code], sid) == Some(White)))
    ensures r.Some? ==> r == SeatOf(reg.matches[code], sid)
  {
    if code !in reg.matches then None
    else
      var m := reg.matches[code];
      if !m.gameStarted || m.playersJoined < 2 then None
      else
        match SeatOf(m, sid)
        case None => None
        case Some(c) => if m.whiteToMove == (c == White) then Some(c) else None
  }

  /**
    `makeMove`: silently ignored unless the match has started with two
    players and the socket is seated as the side to move. A malformed move is
    penalised; a well-formed one is recorded without any chess check, and at
    150 half-moves the game is drawn by the 75-move rule.
   */
  function OnMakeMove(reg: Registry, sid: SocketId, code: Code, move: Option<string>, fen: string): (r: Reply)
    ensures OnlyTouches(reg, r.reg, code)
    ensures r.out.Ignored? <==> Mover(reg, sid, code).None?
    ensures r.out.Ignored? ==> r.reg == reg
    ensures Mover(reg, sid, code).Some? && ParseMove(move).None? ==>
      r == Penalize(reg, code, Mover(reg, sid, code).value)
    ensures Mover(reg, sid, code).Some? && ParseMove(move).Some? ==>
      var m, m' := reg.matches[code], r.reg.matches[code];
      r.out.MoveMade? && r.out.move == move.value && r.out.fen == fen
      && m'.moves == m.moves + [move.value] && m'.halfmoves == m.halfmoves + 1
      && m'.fen == fen && m'.whiteToMove == !m.whiteToMove
      && (r.out.drawn <==> m.halfmoves + 1 >= 150)
      && (r.out.drawn ==> m'.gameOver && m'.gameResult == Some(GameResult("1/2-1/2", "75-move rule")))
      && (!r.out.drawn ==> SameStatus(m, m'))
      && SameSeats(m, m') && SameIllegal(m, m')
  {
    match Mover(reg, sid, code)
    case None => Reply(reg, Ignored)
    case Some(c) =>
      match ParseMove(move)
      case None => Penalize(reg, code, c)
      case Some(_) =>
        // The source's "mark as started if it somehow was not" is unreachable: the match has started.
        var reg1 := AddMove(reg, code, move.value, fen);
        var m1 := reg1.matches[code];
        if Check75MoveRule(reg1, code) then
          Reply(SetGameOver(reg1, code, "1/2-1/2", "75-move rule"), MoveMade(move.value, fen, m1.whiteTime, m1.blackTime, true))
        else
          Reply(reg1, MoveMade(move.value, fen, m1.whiteTime, m1.blackTime, false))
  }

  /**
    `illegalMove`, reported by a client for a colour it names, without any
    check of who sends it: "white" or "black" is penalised as above. Any other
    name counts nothing (its count is NaN), costs Black five seconds and never
    forfeits.
   */
  function OnIllegalMove(reg: Registry, code: Code, color: string): (r: Reply)
    ensures OnlyTouches(reg, r.reg, code)
    ensures r.out.Ignored? <==> code !in reg.matches
    ensures r.out.Ignored? ==> r.reg == reg
    ensures code in reg.matches && ColorNamed(color).Some? ==> r == Penalize(reg, code, ColorNamed(color).value)
    ensures code in reg.matches && ColorNamed(color).None? ==>
      var m, m' := reg.matches[code], r.reg.matches[code];
      r.out == Penalty(color, None, m'.whiteTime, m'.blackTime, None)
      && m'.blackTime == MaxZero(Minus(m.blackTime, ILLEGAL_MOVE_TIME_PENALTY)) && m'.whiteTime == m.whiteTime
      && m'.increment == m.increment && SameSeats(m, m') && SamePlay(m, m') && SameIllegal(m, m') && SameStatus(m, m')
  {
    if code !in reg.matches then Reply(reg, Ignored)
    else
      match ColorNamed(color)
      case Some(c) => Penalize(reg, code, c)
      case None =>
        var m := reg.matches[code];
        var m' := m.(blackTime := MaxZero(Minus(m.blackTime, ILLEGAL_MOVE_TIME_PENALTY)));
        Reply(Put(reg, code, m'), Penalty(color, None, m'.whiteTime, m'.blackTime, None))
  }

  // ---------------------------------------------------------------- clocks and start

  /** `timerUpdate`: the client's clock readings replace the server's, unchecked. */
  function OnTimerUpdate(reg: Registry, code: Code, whiteTime: Number, blackTime: Number): (r: Reply)
    ensures r.out.Ignored? <==> code !in reg.matches
    ensures r.out.TimerSync? ==> r.out == TimerSync(whiteTime, blackTime) && r.reg == UpdateTimer(reg, code, whiteTime, blackTime)
    ensures r.out.Ignored? ==> r.reg == reg
  {
    if code !in reg.matches then Reply(reg, Ignored)
    else Reply(UpdateTimer(reg, code, whiteTime, blackTime), TimerSync(whiteTime, blackTime))
  }

  /** `gameStarted`: the first report after two players joined starts the game and its clock. */
  function OnGameStarted(reg: Registry, code: Code): (r: Reply)
    ensures r.out.Started? <==> code in reg.matches && reg.matches[code].playersJoined >= 2 && !reg.matches[code].gameStarted
    ensures r.out.Started? ==> r.reg == SetGameStarted(reg, code, true)
    ensures !r.out.Started? ==> r.out.Ignored? && r.reg == reg
  {
    if code !in reg.matches then Reply(reg, Ignored)
    else
      var m := reg.matches[code];
      if m.playersJoined < 2 || m.gameStarted then Reply(reg, Ignored)
      else Reply(SetGameStarted(reg, code, true), Started)
  }

  /** `gameStateUpdate`: only the side to move matters to the server. */
  function OnGameStateUpdate(reg: Registry, code: Code, whiteToMove: Option<bool>): (r: Reply)
    ensures r.out.Ignored? && r.reg == UpdateGameState(reg, code, whiteToMove)
  {
    Reply(UpdateGameState(reg, code, whiteToMove), Ignored)
  }

  // ---------------------------------------------------------------- endings

  /** The checks `resign` and `drawOffer` share: started, two players, the socket seated as `color`. */
  predicate SeatedAs(reg: Registry, sid: SocketId, code: Code, color: string) {
    code in reg.matches && reg.matches[code].gameStarted && reg.matches[code].playersJoined >= 2
    && SeatOf(reg.matches[code], sid).Some? && ColorName(SeatOf(reg.matches[code], sid).value) == color
  }

  /** `resign`: the resigning side loses, reason "<color> resigned". */
  function OnResign(reg: Registry, sid: SocketId, code: Code, color: string): (r: Reply)
    ensures r.out.Over? <==> SeatedAs(reg, sid, code, color)
    ensures !r.out.Over? ==> r.out.Ignored? && r.reg == reg
    ensures r.out.Over? ==>
      var c := SeatOf(reg.matches[code], sid).value;
      r.out.result == GameResult(WinFor(c), color + " resigned")
      && r.reg == SetGameOver(reg, code, WinFor(c), color + " resigned")
  {
    if !SeatedAs(reg, sid, code, color) then Reply(reg, Ignored)
    else
      var c := SeatOf(reg.matches[code], sid).value;
      Reply(SetGameOver(reg, code, WinFor(c), color + " resigned"), Over(GameResult(WinFor(c), color + " resigned")))
  }

  /** `drawOffer`: relayed when the offering socket is seated as the colour it names. */
  function OnDrawOffer(reg: Registry, sid: SocketId, code: Code, from: string): (r: Reply)
    ensures r.reg == reg
    ensures r.out.DrawOffered? <==> SeatedAs(reg, sid, code, from)
    ensures r.out.DrawOffered? ==> r.out.from == from
    ensures !r.out.DrawOffered? ==> r.out.Ignored?
  {
    if SeatedAs(reg, sid, code, from) then Reply(reg, DrawOffered(from)) else Reply(reg, Ignored)
  }

  /** `acceptDraw`: the game is drawn by agreement, with no check of who accepts or whether an offer stands. */
  function OnAcceptDraw(reg: Registry, code: Code): (r: Reply)
    ensures r.out.DrawAccepted?
    ensures r.reg == SetGameOver(reg, code, "1/2-1/2", "Draw by agreement")
  {
    Reply(SetGameOver(reg, code, "1/2-1/2", "Draw by agreement"), DrawAccepted)
  }

  /** `declineDraw`: relayed, nothing changes. */
  function OnDeclineDraw(reg: Registry, code: Code): (r: Reply)
    ensures r.reg == reg && r.out.DrawDeclined?
  {
    Reply(reg, DrawDeclined)
  }

  /** `gameOver`, reported by a client: the result is recorded as given. */
  function OnGameOver(reg: Registry, code: Code, result: string, reason: string): (r: Reply)
    ensures r.out.Ignored? <==> code !in reg.matches
    ensures r.out.Ignored? ==> r.reg == reg
    ensures r.out.Over? ==> r.out.result == GameResult(result, reason) && r.reg == SetGameOver(reg, code, result, reason)
  {
    if code !in reg.matches then Reply(reg, Ignored)
    else Reply(SetGameOver(reg, code, result, reason), Over(GameResult(result, reason)))
  }

  /** `cancelGame`: only a seated player of a game not yet started may cancel it. */
  function OnCancelGame(reg: Registry, sid: SocketId, code: Code): (r: Reply)
    ensures r.out.Ignored? <==> code !in reg.matches
    ensures r.out.Cancelled? <==> code in reg.matches && !reg.matches[code].gameStarted && Seated(reg.matches[code], sid)
    ensures r.out.Cancelled? ==> r.reg == RemoveMatch(reg, code)
    ensures !r.out.Cancelled? ==> r.reg == reg
    ensures r.out.CancelRefused? ==>
      r.out.message == if reg.matches[code].gameStarted then "Cannot cancel game that has already started" else "Only players can cancel the game"
  {
    if code !in reg.matches then Reply(reg, Ignored)
    else
      var m := reg.matches[code];
      if m.gameStarted then Reply(reg, CancelRefused("Cannot cancel game that has already started"))
      else if !Seated(m, sid) then Reply(reg, CancelRefused("Only players can cancel the game"))
      else Reply(RemoveMatch(reg, code), Cancelled)
  }

  // ---------------------------------------------------------------- dispatch

  datatype Event =
    | CreateGame(uuids: seq<string>, timeControl: string)
    | JoinGame(sid: SocketId, code: Code, playerColor: Option<string>)
    | Disconnect(sid: SocketId)
    | MakeMove(sid: SocketId, code: Code, move: Option<string>, fen: string)
    | TimerUpdate(code: Code, whiteTime: Number, blackTime: Number)
    | GameStarted(code: Code)
    | GameStateUpdate(code: Code, whiteToMove: Option<bool>)
    | IllegalMove(code: Code, color: string)
    | Resign(sid: SocketId, code: Code, color: string)
    | DrawOffer(sid: SocketId, code: Code, from: string)
    | AcceptDraw(code: Code)
    | DeclineDraw(code: Code)
    | GameOver(code: Code, result: string, reason: string)
    | EndGame(code: Code)
    | CancelGame(sid: SocketId, code: Code)
    | RemovalDue(code: Code)

  function Step(reg: Registry, e: Event): Reply {
    match e
    case CreateGame(uuids, tc) => OnCreateGame(reg, uuids, tc)
    case JoinGame(sid, code, color) => OnJoinGame(reg, sid, code, color)
    case Disconnect(sid) => OnDisconnect(reg, sid)
    case MakeMove(sid, code, move, fen) => OnMakeMove(reg, sid, code, move, fen)
    case TimerUpdate(code, wt, bt) => OnTimerUpdate(reg, code, wt, bt)
    case GameStarted(code) => OnGameStarted(reg, code)
    case GameStateUpdate(code, wtm) => OnGameStateUpdate(reg, code, wtm)
    case IllegalMove(code, color) => OnIllegalMove(reg, code, color)
    case Resign(sid, code, color) => OnResign(reg, sid, code, color)
    case DrawOffer(sid, code, from) => OnDrawOffer(reg, sid, code, from)
    case AcceptDraw(code) => OnAcceptDraw(reg, code)
    case DeclineDraw(code) => OnDeclineDraw(reg, code)
    case GameOver(code, result, reason) => OnGameOver(reg, code, result, reason)
    case EndGame(code) => Reply(RemoveMatch(reg, code), Ignored)
    case CancelGame(sid, code) => OnCancelGame(reg, sid, code)
    case RemovalDue(code) => Reply(RemoveMatch(reg, code), Ignored)
  }

  function Run(reg: Registry, events: seq<Event>): Registry
    decreases |events|
  {
    if events == [] then reg else Run(Step(reg, events[0]).reg, events[1..])
  }

  // ---------------------------------------------------------------- invariant

  /** Changing one match in a way that keeps its invariant and its code keeps the registry's invariant. */
  lemma TouchKeepsInv(reg: Registry, r: Registry, code: Code)
    requires Inv(reg) && OnlyTouches(reg, r, code)
    requires code in r.matches ==> MatchInv(r.matches[code]) && r.matches[code].code == code
    ensures Inv(r)
  {
  }

  lemma RemoveKeepsInv(reg: Registry, code: Code)
    requires Inv(reg)
    ensures Inv(RemoveMatch(reg, code))
  {
  }

  lemma JoinKeepsInv(reg: Registry, sid: SocketId, code: Code, requested: Option<string>)
    requires Inv(reg)
    ensures Inv(OnJoinGame(reg, sid, code, requested).reg)
  {
    var r := OnJoinGame(reg, sid, code, requested);
    if r.out.Joined? {
      var m, m' := reg.matches[code], r.reg.matches[code];
      assert MatchInv(m);
      assert Remembered(m') <= Remembered(m) + (if r.out.reconnection then 0 else 1);
      TouchKeepsInv(reg, r.reg, code);
    }
  }

  lemma DisconnectKeepsInv(reg: Registry, sid: SocketId)
    requires Inv(reg)
    ensures Inv(OnDisconnect(reg, sid).reg)
  {
    var found := FindMatchBySocketId(reg, sid);
    if found.Some? {
      TouchKeepsInv(reg, OnDisconnect(reg, sid).reg, found.value);
    }
  }

  lemma PenalizeKeepsInv(reg: Registry, code: Code, c: Color)
    requires Inv(reg) && code in reg.matches
    ensures Inv(Penalize(reg, code, c).reg)
  {
    TouchKeepsInv(reg, Penalize(reg, code, c).reg, code);
  }

  lemma MakeMoveKeepsInv(reg: Registry, sid: SocketId, code: Code, move: Option<string>, fen: string)
    requires Inv(reg)
    ensures Inv(OnMakeMove(reg, sid, code, move, fen).reg)
  {
    var mover := Mover(reg, sid, code);
    if mover.Some? {
      if ParseMove(move).None? {
        PenalizeKeepsInv(reg, code, mover.value);
      } else {
        TouchKeepsInv(reg, OnMakeMove(reg, sid, code, move, fen).reg, code);
      }
    }
  }

  lemma IllegalMoveKeepsInv(reg: Registry, code: Code, color: string)
    requires Inv(reg)
    ensures Inv(OnIllegalMove(reg, code, color).reg)
  {
    if code in reg.matches {
      if ColorNamed(color).Some? {
        PenalizeKeepsInv(reg, code, ColorNamed(color).value);
      } else {
        TouchKeepsInv(reg, OnIllegalMove(reg, code, color).reg, code);
      }
    }
  }

  lemma SetGameOverKeepsInv(reg: Registry, code: Code, result: string, reason: string)
    requires Inv(reg)
    ensures Inv(SetGameOver(reg, code, result, reason))
  {
    TouchKeepsInv(reg, SetGameOver(reg, code, result, reason), code);
  }

  /** The events that seat, unseat or remove: each keeps the invariant. */
  predicate SeatingEvent(e: Event) {
    e.CreateGame? || e.JoinGame? || e.Disconnect? || e.EndGame? || e.CancelGame? || e.RemovalDue?
  }

  /** The events of play: moves, clocks, start and illegal-move reports. */
  predicate PlayEvent(e: Event) {
    e.MakeMove? || e.TimerUpdate? || e.GameStarted? || e.GameStateUpdate? || e.IllegalMove?
  }

  lemma SeatingKeepsInv(reg: Registry, e: Event)
    requires Inv(reg) && SeatingEvent(e)
    ensures Inv(Step(reg, e).reg)
  {
    match e
    case CreateGame(uuids, tc) => CreateMatchInv(reg, uuids, tc);
    case JoinGame(sid, code, color) => JoinKeepsInv(reg, sid, code, color);
    case Disconnect(sid) => DisconnectKeepsInv(reg, sid);
    case EndGame(code) => RemoveKeepsInv(reg, code);
    case CancelGame(sid, code) => RemoveKeepsInv(reg, code);
    case RemovalDue(code) => RemoveKeepsInv(reg, code);
  }

  lemma PlayKeepsInv(reg: Registry, e: Event)
    requires Inv(reg) && PlayEvent(e)
    ensures Inv(Step(reg, e).reg)
  {
    match e
    case MakeMove(sid, code, move, fen) => MakeMoveKeepsInv(reg, sid, code, move, fen);
    case TimerUpdate(code, wt, bt) => TouchKeepsInv(reg, Step(reg, e).reg, code);
    case GameStarted(code) => TouchKeepsInv(reg, Step(reg, e).reg, code);
    case GameStateUpdate(code, wtm) => TouchKeepsInv(reg, Step(reg, e).reg, code);
    case IllegalMove(code, color) => IllegalMoveKeepsInv(reg, code, color);
  }

  lemma EndingKeepsInv(reg: Registry, e: Event)
    requires Inv(reg) && !SeatingEvent(e) && !PlayEvent(e)
    ensures Inv(Step(reg, e).reg)
  {
    match e
    case Resign(sid, code, color) =>
      if SeatedAs(reg, sid, code, color) {
        var c := SeatOf(reg.matches[code], sid).value;
        SetGameOverKeepsInv(reg, code, WinFor(c), color + " resigned");
      }
    case DrawOffer(sid, code, from) =>
    case AcceptDraw(code) => SetGameOverKeepsInv(reg, code, "1/2-1/2", "Draw by agreement");
    case DeclineDraw(code) =>
    case GameOver(code, result, reason) => SetGameOverKeepsInv(reg, code, result, reason);
  }

  /** Every handler keeps the invariant of every match and of the registry. */
  lemma StepKeepsInv(reg: Registry, e: Event)
    requires Inv(reg)
    ensures Inv(Step(reg, e).reg)
  {
    if SeatingEvent(e) {
      SeatingKeepsInv(reg, e);
    } else if PlayEvent(e) {
      PlayKeepsInv(reg, e);
    } else {
      EndingKeepsInv(reg, e);
    }
  }

  /** From the empty registry, any sequence of events leaves every match satisfying the invariant. */
  lemma {:induction false} RunKeepsInv(reg: Registry, events: seq<Event>)
    requires Inv(reg)
    ensures Inv(Run(reg, events))
    decreases |events|
  {
    if events != [] {
      StepKeepsInv(reg, events[0]);
      RunKeepsInv(Step(reg, events[0]).reg, events[1..]);
    }
  }

  /**
    What a handler never undoes in a match that survives it: illegal-move
    counts and the number of players joined only grow, the move log only
    extends, and a finished match stays finished.
   */
  predicate Grows(m: Match, m': Match) {
    m'.illegalWhite >= m.illegalWhite && m'.illegalBlack >= m.illegalBlack
    && m'.playersJoined >= m.playersJoined
    && m.moves <= m'.moves
    && (m.gameOver ==> m'.gameOver)
  }

  lemma PenalizeGrows(reg: Registry, code: Code, c: Color)
    requires code in reg.matches
    ensures Grows(reg.matches[code], Penalize(reg, code, c).reg.matches[code])
  {
    var m, m' := reg.matches[code], Penalize(reg, code, c).reg.matches[code];
    assert IllegalCount(m', c) >= IllegalCount(m, c);
  }

  lemma MakeMoveGrows(reg: Registry, sid: SocketId, code: Code, move: Option<string>, fen: string)
    requires code in reg.matches
    ensures Grows(reg.matches[code], OnMakeMove(reg, sid, code, move, fen).reg.matches[code])
  {
    if Mover(reg, sid, code).Some? && ParseMove(move).None? {
      PenalizeGrows(reg, code, Mover(reg, sid, code).value);
    }
  }

  lemma IllegalMoveGrows(reg: Registry, code: Code, color: string)
    requires code in reg.matches
    ensures Grows(reg.matches[code], OnIllegalMove(reg, code, color).reg.matches[code])
  {
    if ColorNamed(color).Some? {
      PenalizeGrows(reg, code, ColorNamed(color).value);
    }
  }

  lemma PlayMonotone(reg: Registry, e: Event, code: Code)
    requires PlayEvent(e) && code in reg.matches && code in Step(reg, e).reg.matches
    ensures Grows(reg.matches[code], Step(reg, e).reg.matches[code])
  {
    match e
    case MakeMove(sid, code', move, fen) =>
      if code' == code {
        MakeMoveGrows(reg, sid, code, move, fen);
      }
    case TimerUpdate(code', wt, bt) =>
    case GameStarted(code') =>
    case GameStateUpdate(code', wtm) =>
    case IllegalMove(code', color) =>
      if code' == code {
        IllegalMoveGrows(reg, code, color);
      }
  }

  lemma JoinGrows(reg: Registry, sid: SocketId, joined: Code, color: Option<string>, code: Code)
    requires code in reg.matches
    ensures code in OnJoinGame(reg, sid, joined, color).reg.matches
    ensures Grows(reg.matches[code], OnJoinGame(reg, sid, joined, color).reg.matches[code])
  {
    var r := OnJoinGame(reg, sid, joined, color);
    if joined != code || r.out.InvalidCode? {
      assert r.reg.matches[code] == reg.matches[code];
    }
  }

  lemma DisconnectGrows(reg: Registry, sid: SocketId, code: Code)
    requires code in reg.matches
    ensures code in OnDisconnect(reg, sid).reg.matches
    ensures Grows(reg.matches[code], OnDisconnect(reg, sid).reg.matches[code])
  {
    var found := FindMatchBySocketId(reg, sid);
    if found.None? || found.value != code {
      assert OnDisconnect(reg, sid).reg.matches[code] == reg.matches[code];
    }
  }

  lemma SeatingMonotone(reg: Registry, e: Event, code: Code)
    requires SeatingEvent(e) && code in reg.matches && code in Step(reg, e).reg.matches
    ensures Grows(reg.matches[code], Step(reg, e).reg.matches[code])
  {
    match e
    case CreateGame(uuids, tc) =>
      assert Step(reg, e).reg.matches[code] == reg.matches[code];
    case JoinGame(sid, code', color) =>
      JoinGrows(reg, sid, code', color, code);
    case Disconnect(sid) =>
      DisconnectGrows(reg, sid, code);
    case EndGame(code') =>
      assert Step(reg, e).reg.matches[code] == reg.matches[code];
    case CancelGame(sid, code') =>
      assert Step(reg, e).reg.matches[code] == reg.matches[code];
    case RemovalDue(code') =>
      assert Step(reg, e).reg.matches[code] == reg.matches[code];
  }

  lemma EndingMonotone(reg: Registry, e: Event, code: Code)
    requires !SeatingEvent(e) && !PlayEvent(e) && code in reg.matches && code in Step(reg, e).reg.matches
    ensures Grows(reg.matches[code], Step(reg, e).reg.matches[code])
  {
  }

  lemma StepMonotone(reg: Registry, e: Event, code: Code)
    requires code in reg.matches && code in Step(reg, e).reg.matches
    ensures Grows(reg.matches[code], Step(reg, e).reg.matches[code])
  {
    if SeatingEvent(e) {
      SeatingMonotone(reg, e, code);
    } else if PlayEvent(e) {
      PlayMonotone(reg, e, code);
    } else {
      EndingMonotone(reg, e, code);
    }
  }

  // ---------------------------------------------------------------- scenarios

  /**
    Two sockets joining a fresh match without asking for a colour get White
    and then Black, and the second join starts the intro.
   */
  lemma FreshMatchSeatsWhiteThenBlack(reg: Registry, code: Code, tc: string, s1: SocketId, s2: SocketId)
    requires code in reg.matches && reg.matches[code] == NewMatch(code, tc)
    ensures
      var r1 := OnJoinGame(reg, s1, code, None);
      var r2 := OnJoinGame(r1.reg, s2, code, None);
      r1.out == Joined(White, false, false) && r2.out == Joined(Black, false, true)
      && r2.reg.matches[code].white == Some(s1) && r2.reg.matches[code].black == Some(s2)
      && r2.reg.matches[code].playersJoined == 2
  {
  }

  /**
    A seated player whose socket drops and who comes back on a new socket
    without naming a colour gets the same seat back as a reconnection, and
    the player count does not change.
   */
  lemma DisconnectThenRejoin(reg: Registry, code: Code, s: SocketId, s2: SocketId)
    requires Inv(reg) && code in reg.matches
    requires reg.matches[code].white == Some(s) && s != "" && !reg.matches[code].gameOver
    requires forall k :: k in reg.matches && k != code ==> !Seated(reg.matches[k], s)
    ensures
      var r1 := OnDisconnect(reg, s);
      var r2 := OnJoinGame(r1.reg, s2, code, None);
      r2.out.Joined? && r2.out.color == White && r2.out.reconnection
      && r2.reg.matches[code].white == Some(s2)
      && r2.reg.matches[code].playersJoined == reg.matches[code].playersJoined
  {
    assert FindMatchBySocketId(reg, s) == Some(code);
  }

  /**
    As written, a third socket joining without a colour while both players
    are seated is not refused: it takes the Black seat from the seated player.
   */
  lemma ColourlessThirdJoinTakesBlackSeat(reg: Registry, code: Code, s3: SocketId)
    requires Inv(reg) && code in reg.matches && !reg.matches[code].gameOver
    requires reg.matches[code].white.Some? && reg.matches[code].black.Some?
    ensures
      var r := OnJoinGame(reg, s3, code, None);
      r.out.Joined? && r.out.color == Black && !r.out.reconnection
      && r.reg.matches[code].black == Some(s3)
  {
  }

  /**
    As written, a socket naming a colour whose seat another socket holds is
    treated as that player reconnecting and takes the seat over.
   */
  lemma NamedJoinTakesOverSeat(reg: Registry, code: Code, s1: SocketId, s2: SocketId)
    requires Inv(reg) && code in reg.matches && !reg.matches[code].gameOver
    requires reg.matches[code].white == Some(s1) && s1 != "" && s2 != s1
    ensures
      var r := OnJoinGame(reg, s2, code, Some("white"));
      r.out == Joined(White, true, false) || r.out == Joined(White, true, true)
    ensures OnJoinGame(reg, s2, code, Some("white")).reg.matches[code].white == Some(s2)
  {
  }

  /**
    Every seating also remembers the socket, so naming a colour that another
    socket holds sends the joiner to the other colour only when the seated
    socket id is the empty string; otherwise it is a takeover.
   */
  lemma TakenSeatSwitchesOnlyForEmptyId(reg: Registry, code: Code, c: Color, s1: SocketId, s2: SocketId)
    requires Inv(reg) && code in reg.matches && !reg.matches[code].gameOver
    requires Seat(reg.matches[code], c) == Some(s1) && s2 != s1
    ensures
      var r := OnJoinGame(reg, s2, code, Some(ColorName(c)));
      r.out.Joined?
      && (r.out.color == Opponent(c) <==> s1 == "")
      && (r.out.color == c <==> r.out.reconnection)
  {
  }

  /** The ninth illegal move of a colour forfeits the game to the opponent, with none remaining. */
  lemma NinthIllegalMoveForfeits(reg: Registry, code: Code, c: Color)
    requires code in reg.matches && IllegalCount(reg.matches[code], c) == 8
    ensures
      var r := OnIllegalMove(reg, code, ColorName(c));
      r.out.Penalty? && r.out.remaining == Some(0)
      && r.out.forfeit == Some(GameResult(if c == White then "0-1" else "1-0", "Illegal move forfeit"))
      && r.reg.matches[code].gameOver && SchedulesRemoval(r.out)
  {
  }

  /**
    As written, an illegal move reported after the forfeit is not ignored:
    the count goes to ten, the clock is charged again, and the result is
    written again.
   */
  lemma IllegalMoveAfterForfeitStillCounts(reg: Registry, code: Code, c: Color)
    requires code in reg.matches && IllegalCount(reg.matches[code], c) == 9 && reg.matches[code].gameOver
    requires Clock(reg.matches[code], c) == Num(60000)
    ensures
      var r := OnIllegalMove(reg, code, ColorName(c));
      r.out.Penalty? && r.out.remaining == Some(-1) && r.out.forfeit.Some?
      && IllegalCount(r.reg.matches[code], c) == 10
      && Clock(r.reg.matches[code], c) == Num(55000)
  {
  }

  /**
    As written, reporting the end of a game twice keeps the second result:
    the record is not frozen once the match is over.
   */
  lemma SecondGameOverOverwrites(reg: Registry, code: Code, r1: string, why1: string, r2: string, why2: string)
    requires code in reg.matches
    ensures
      var a := OnGameOver(reg, code, r1, why1);
      var b := OnGameOver(a.reg, code, r2, why2);
      b.out == Over(GameResult(r2, why2)) && b.reg.matches[code].gameResult == Some(GameResult(r2, why2))
  {
  }

  /**
    The server does not consult the move engine: every on-board coordinate
    move from the seated side to move is recorded, even after the game is
    over, whatever the position.
   */
  lemma AnyOnBoardMoveIsRecorded(reg: Registry, sid: SocketId, code: Code, c: Coords, fen: string)
    requires Mover(reg, sid, code).Some? && OnBoardCoords(c)
    ensures
      var r := OnMakeMove(reg, sid, code, Some(FormatMove(c)), fen);
      r.out.MoveMade? && r.reg.matches[code].moves == reg.matches[code].moves + [FormatMove(c)]
  {
    ParseFormatMove(c);
  }

  /** The 150th half-move ends the game as a draw by the 75-move rule. */
  lemma HundredFiftiethHalfMoveDraws(reg: Registry, sid: SocketId, code: Code, c: Coords, fen: string)
    requires Inv(reg) && Mover(reg, sid, code).Some? && OnBoardCoords(c)
    requires |reg.matches[code].moves| == 149
    ensures
      var r := OnMakeMove(reg, sid, code, Some(FormatMove(c)), fen);
      r.out.MoveMade? && r.out.drawn && SchedulesRemoval(r.out)
      && r.reg.matches[code].gameResult == Some(GameResult("1/2-1/2", "75-move rule"))
  {
    ParseFormatMove(c);
  }
}
