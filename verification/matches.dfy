/**
  `server/matchManager.js`: the server's table of matches, keyed by a short
  code, and the small updates the socket handlers make to one match.

  The table is a JavaScript object, so its key order is the language's
  property order: keys that are array indices (canonical decimal numbers
  below 2^32 - 1) come first in ascending numeric order, every other key
  follows in insertion order. `findMatchBySocketId` returns the first hit in
  that order, so the registry keeps the insertion order beside the map.
 */
module MatchManager {
  import opened Opt
  import opened Text
  import opened Js
  import opened Chess

  type SocketId = string
  type Code = string

  datatype GameResult = GameResult(result: string, reason: string)

  /**
    One match. `white` and `black` hold the socket now seated (None once it
    disconnects); `whiteSocketId` and `blackSocketId` remember the last socket
    that held the seat, which is what a reconnection is recognised by.
   */
  datatype Match = Match(
    code: Code,
    white: Option<SocketId>,
    black: Option<SocketId>,
    whiteSocketId: Option<SocketId>,
    blackSocketId: Option<SocketId>,
    playersJoined: nat,
    moves: seq<string>,
    fen: string,
    whiteToMove: bool,
    timeControl: string,
    halfmoves: nat,
    illegalWhite: nat,
    illegalBlack: nat,
    completed: bool,
    gameStarted: bool,
    gameOver: bool,
    gameResult: Option<GameResult>,
    whiteTime: Number,
    blackTime: Number,
    increment: Number,
    timerActive: bool)

  /** The colour names of the wire protocol. */
  function ColorName(c: Color): string {
    if c == White then "white" else "black"
  }

  function ColorNamed(name: string): (r: Option<Color>)
    ensures r.Some? <==> name == "white" || name == "black"
    ensures r.Some? ==> ColorName(r.value) == name
  {
    if name == "white" then Some(White) else if name == "black" then Some(Black) else None
  }

  function Seat(m: Match, c: Color): Option<SocketId> {
    if c == White then m.white else m.black
  }

  function LastSocket(m: Match, c: Color): Option<SocketId> {
    if c == White then m.whiteSocketId else m.blackSocketId
  }

  function Clock(m: Match, c: Color): Number {
    if c == White then m.whiteTime else m.blackTime
  }

  function IllegalCount(m: Match, c: Color): nat {
    if c == White then m.illegalWhite else m.illegalBlack
  }

  /** The colour `sid` is seated as, White checked first. */
  function SeatOf(m: Match, sid: SocketId): (r: Option<Color>)
    ensures r.Some? <==> Seated(m, sid)
    ensures r.Some? ==> Seat(m, r.value) == Some(sid)
    ensures r == Some(Black) ==> m.white != Some(sid)
  {
    if m.white == Some(sid) then Some(White) else if m.black == Some(sid) then Some(Black) else None
  }

  predicate Seated(m: Match, sid: SocketId) {
    m.white == Some(sid) || m.black == Some(sid)
  }

  // ------------------------------------------------------------ field groups

  predicate SameSeats(a: Match, b: Match) {
    a.code == b.code && a.timeControl == b.timeControl
    && a.white == b.white && a.black == b.black
    && a.whiteSocketId == b.whiteSocketId && a.blackSocketId == b.blackSocketId
    && a.playersJoined == b.playersJoined
  }

  predicate SamePlay(a: Match, b: Match) {
    a.moves == b.moves && a.fen == b.fen && a.whiteToMove == b.whiteToMove && a.halfmoves == b.halfmoves
  }

  predicate SameIllegal(a: Match, b: Match) {
    a.illegalWhite == b.illegalWhite && a.illegalBlack == b.illegalBlack
  }

  predicate SameStatus(a: Match, b: Match) {
    a.completed == b.completed && a.gameStarted == b.gameStarted && a.gameOver == b.gameOver
    && a.gameResult == b.gameResult && a.timerActive == b.timerActive
  }

  predicate SameClocks(a: Match, b: Match) {
    a.whiteTime == b.whiteTime && a.blackTime == b.blackTime && a.increment == b.increment
  }

  // ---------------------------------------------------------------- registry

  datatype Registry = Registry(order: seq<Code>, matches: map<Code, Match>)

  const EMPTY_REGISTRY := Registry([], map[])

  predicate Distinct(s: seq<Code>) {
    forall i, j :: 0 <= i < j < |s| ==> s[i] != s[j]
  }

  /** Each key is listed once in insertion order, and each match knows its own code. */
  predicate Valid(reg: Registry) {
    Distinct(reg.order)
    && (forall k :: k in reg.matches ==> k in reg.order)
    && (forall k :: k in reg.order ==> k in reg.matches)
    && (forall k :: k in reg.matches ==> reg.matches[k].code == k)
  }

  /** The registry differs from `reg` at most in the match under `code`. */
  predicate OnlyTouches(reg: Registry, r: Registry, code: Code) {
    r.order == reg.order && r.matches.Keys == reg.matches.Keys
    && forall k :: k in reg.matches && k != code ==> r.matches[k] == reg.matches[k]
  }

  function Put(reg: Registry, code: Code, m: Match): (r: Registry)
    requires code in reg.matches
    ensures OnlyTouches(reg, r, code) && r.matches[code] == m
    ensures Valid(reg) && m.code == code ==> Valid(r)
  {
    reg.(matches := reg.matches[code := m])
  }

  // ---------------------------------------------------------------- creation

  /** `uuid.slice(0, 6).toUpperCase()`: the first six characters, lower-case letters made capitals. */
  function CodeFromUuid(u: string): (c: Code)
    ensures |c| == if |u| < 6 then |u| else 6
    ensures forall i :: 0 <= i < |c| ==> if 'a' <= u[i] <= 'z' then c[i] as int == u[i] as int - 32 else c[i] == u[i]
  {
    ToUpperAscii(if |u| < 6 then u else u[..6])
  }

  /**
    `createGameCode`, with the stream of fresh UUIDs as a parameter: the code
    of the first UUID whose code is not taken. None only when the stream runs
    out, which the unbounded source loop never does.
   */
  function CreateGameCode(reg: Registry, uuids: seq<string>): (r: Option<Code>)
    ensures r.Some? ==> r.value !in reg.matches
    ensures r.Some? ==> exists i :: (0 <= i < |uuids| && r.value == CodeFromUuid(uuids[i])
      && forall j :: 0 <= j < i ==> CodeFromUuid(uuids[j]) in reg.matches)
    ensures r.None? <==> forall i :: 0 <= i < |uuids| ==> CodeFromUuid(uuids[i]) in reg.matches
  {
    var codes := seq(|uuids|, i requires 0 <= i < |uuids| => CodeFromUuid(uuids[i]));
    match FirstFree(reg, codes, 0)
    case Some(i) =>
      assert forall j :: 0 <= j < i ==> CodeFromUuid(uuids[j]) in reg.matches by {
        forall j | 0 <= j < i ensures CodeFromUuid(uuids[j]) in reg.matches {
          assert codes[j] == CodeFromUuid(uuids[j]);
        }
      }
      Some(codes[i])
    case None =>
      assert forall j :: 0 <= j < |uuids| ==> CodeFromUuid(uuids[j]) in reg.matches by {
        forall j | 0 <= j < |uuids| ensures CodeFromUuid(uuids[j]) in reg.matches {
          assert codes[j] == CodeFromUuid(uuids[j]);
        }
      }
      None
  }

  /** The first code at or after `from` that is not taken. */
  function FirstFree(reg: Registry, codes: seq<Code>, from: nat): (r: Option<nat>)
    requires from <= |codes|
    ensures r.Some? ==> from <= r.value < |codes| && codes[r.value] !in reg.matches
    ensures r.Some? ==> forall j :: from <= j < r.value ==> codes[j] in reg.matches
    ensures r.None? ==> forall j :: from <= j < |codes| ==> codes[j] in reg.matches
    decreases |codes| - from
  {
    if from == |codes| then None
    else if codes[from] !in reg.matches then Some(from)
    else FirstFree(reg, codes, from + 1)
  }

  /**
    `timeControl.split('+').map(Number)` scaled to milliseconds: the first
    part is minutes, the second seconds of increment. A missing second part
    is `undefined`, so the increment is NaN.
   */
  function Clocks(tc: string): (r: (Number, Number)) {
    var parts := Split(tc, "+");
    var minutes := OfParsed(JsNumber(parts[0]));
    var increment := if |parts| >= 2 then OfParsed(JsNumber(parts[1])) else NaN;
    (Times(minutes, 60 * 1000), Times(increment, 1000))
  }

  /** The record `createMatch` stores: nobody seated, White to move, clocks from the time control. */
  function NewMatch(code: Code, tc: string): Match {
    var (initial, increment) := Clocks(tc);
    Match(code, None, None, None, None, 0, [], "", true, tc, 0, 0, 0,
          false, false, false, None, initial, initial, increment, false)
  }

  /** `createMatch`: a fresh code, a new match under it, the code appended to the key order. */
  function CreateMatch(reg: Registry, uuids: seq<string>, tc: string): (r: Option<(Registry, Code)>)
    ensures r.None? <==> forall i :: 0 <= i < |uuids| ==> CodeFromUuid(uuids[i]) in reg.matches
    ensures r.Some? ==> (r.value.1 !in reg.matches
      && r.value.0.order == reg.order + [r.value.1]
      && r.value.0.matches == reg.matches[r.value.1 := NewMatch(r.value.1, tc)])
  {
    match CreateGameCode(reg, uuids)
    case None => None
    case Some(code) =>
      Some((Registry(reg.order + [code], reg.matches[code := NewMatch(code, tc)]), code))
  }

  /**
    A time control "m+i" of decimal digits gives m minutes on each clock and
    i seconds of increment (an empty part counts as 0, as `Number("")` does).
   */
  lemma ClocksOfTimeControl(x: string, y: string)
    requires AllDigits(x) && AllDigits(y)
    ensures Clocks(x + "+" + y) == (Num(DigitsValue(x) * 60000), Num(DigitsValue(y) * 1000))
  {
    SplitDigitsAtPlus(x, y);
    JsNumberOfDigits(x);
    JsNumberOfDigits(y);
  }

  /** A time control without "+" has no increment: `increment` is NaN. */
  lemma ClocksWithoutIncrement(tc: string)
    requires '+' !in tc
    ensures Clocks(tc).1 == NaN
    ensures Clocks(tc).0.Num? <==> JsNumber(tc).Some?
  {
    SplitWithoutSeparator(tc, "+");
  }

  /** The offered time controls in milliseconds: "15+10". */
  lemma Clocks15Plus10()
    ensures Clocks(VALID_TIME_CONTROLS[0]) == (Num(900000), Num(10000))
  {
    assert VALID_TIME_CONTROLS[0] == "15" + "+" + "10";
    TwoDigits('1', '5');
    TwoDigits('1', '0');
    ClocksOfTimeControl("15", "10");
  }

  /** "5+3". */
  lemma Clocks5Plus3()
    ensures Clocks(VALID_TIME_CONTROLS[1]) == (Num(300000), Num(3000))
  {
    assert VALID_TIME_CONTROLS[1] == "5" + "+" + "3";
    OneDigit('5');
    OneDigit('3');
    ClocksOfTimeControl("5", "3");
  }

  /** "2+1". */
  lemma Clocks2Plus1()
    ensures Clocks(VALID_TIME_CONTROLS[2]) == (Num(120000), Num(1000))
  {
    assert VALID_TIME_CONTROLS[2] == "2" + "+" + "1";
    OneDigit('2');
    OneDigit('1');
    ClocksOfTimeControl("2", "1");
  }

  lemma OneDigit(d: char)
    requires IsDigit(d)
    ensures AllDigits([d]) && DigitsValue([d]) == d as int - '0' as int
  {
    assert [d][..0] == [];
  }

  lemma TwoDigits(d: char, e: char)
    requires IsDigit(d) && IsDigit(e)
    ensures AllDigits([d, e]) && DigitsValue([d, e]) == (d as int - '0' as int) * 10 + (e as int - '0' as int)
  {
    assert [d, e][..1] == [d];
    OneDigit(d);
  }

  // ---------------------------------------------------------------- removal

  function Without(s: seq<Code>, x: Code): (r: seq<Code>)
    ensures forall y :: y in r <==> y in s && y != x
    ensures Distinct(s) ==> Distinct(r)
  {
    if s == [] then []
    else if s[0] == x then Without(s[1..], x)
    else
      assert Distinct(s) ==> s[0] !in s[1..];
      [s[0]] + Without(s[1..], x)
  }

  /** `removeMatch`: the code is gone, every other match is untouched. */
  function RemoveMatch(reg: Registry, code: Code): (r: Registry)
    ensures code !in r.matches && code !in r.order
    ensures forall k :: k != code ==> (k in r.matches <==> k in reg.matches)
    ensures forall k :: k != code && k in reg.matches ==> r.matches[k] == reg.matches[k]
    ensures Valid(reg) ==> Valid(r)
  {
    Registry(Without(reg.order, code), reg.matches - {code})
  }

  // ---------------------------------------------------------------- updates

  /**
    `addMove`: the move is logged, the position replaced, the half-move count
    raised, the increment credited to the side that just moved, and the turn
    passed. There is no check of whose turn it is or whether the game is over.
   */
  function AddMove(reg: Registry, code: Code, move: string, fen: string): (r: Registry)
    ensures OnlyTouches(reg, r, code)
    ensures code !in reg.matches ==> r == reg
    ensures code in reg.matches ==>
      var m, m' := reg.matches[code], r.matches[code];
      var mover := if m.whiteToMove then White else Black;
      m'.moves == m.moves + [move] && m'.fen == fen && m'.halfmoves == m.halfmoves + 1
      && m'.whiteToMove == !m.whiteToMove
      && Clock(m', mover) == Plus(Clock(m, mover), m.increment)
      && Clock(m', Opponent(mover)) == Clock(m, Opponent(mover))
      && m'.increment == m.increment
      && SameSeats(m, m') && SameIllegal(m, m') && SameStatus(m, m')
  {
    if code !in reg.matches then reg
    else
      var m := reg.matches[code];
      var m' := m.(moves := m.moves + [move], fen := fen, halfmoves := m.halfmoves + 1, whiteToMove := !m.whiteToMove);
      Put(reg, code, if m.whiteToMove then m'.(whiteTime := Plus(m.whiteTime, m.increment))
                     else m'.(blackTime := Plus(m.blackTime, m.increment)))
  }

  /**
    `addIllegal`: one more illegal move for the named colour, returning the
    new count. Any other name (or a missing match) yields no number.
   */
  function AddIllegal(reg: Registry, code: Code, color: string): (r: (Registry, Option<nat>))
    ensures OnlyTouches(reg, r.0, code)
    ensures r.1.Some? <==> code in reg.matches && ColorNamed(color).Some?
    ensures code !in reg.matches || ColorNamed(color).None? ==> r.0 == reg
    ensures code in reg.matches && ColorNamed(color).Some? ==>
      var m, m', c := reg.matches[code], r.0.matches[code], ColorNamed(color).value;
      IllegalCount(m', c) == IllegalCount(m, c) + 1 && r.1 == Some(IllegalCount(m', c))
      && IllegalCount(m', Opponent(c)) == IllegalCount(m, Opponent(c))
      && SameSeats(m, m') && SamePlay(m, m') && SameStatus(m, m') && SameClocks(m, m')
  {
    if code !in reg.matches then (reg, None)
    else
      var m := reg.matches[code];
      match ColorNamed(color)
      case None => (reg, None)
      case Some(White) => (Put(reg, code, m.(illegalWhite := m.illegalWhite + 1)), Some(m.illegalWhite + 1))
      case Some(Black) => (Put(reg, code, m.(illegalBlack := m.illegalBlack + 1)), Some(m.illegalBlack + 1))
  }

  /** `check75MoveRule`: the match exists and has reached 150 half-moves. */
  predicate Check75MoveRule(reg: Registry, code: Code) {
    code in reg.matches && reg.matches[code].halfmoves >= 150
  }

  /** `updateTimer`: both clocks take the reported values, whatever they were. */
  function UpdateTimer(reg: Registry, code: Code, whiteTime: Number, blackTime: Number): (r: Registry)
    ensures OnlyTouches(reg, r, code)
    ensures code !in reg.matches ==> r == reg
    ensures code in reg.matches ==>
      var m, m' := reg.matches[code], r.matches[code];
      m'.whiteTime == whiteTime && m'.blackTime == blackTime && m'.increment == m.increment
      && SameSeats(m, m') && SamePlay(m, m') && SameIllegal(m, m') && SameStatus(m, m')
  {
    if code !in reg.matches then reg
    else Put(reg, code, reg.matches[code].(whiteTime := whiteTime, blackTime := blackTime))
  }

  /** `setGameStarted`: the started flag and the running clock follow the argument together. */
  function SetGameStarted(reg: Registry, code: Code, started: bool): (r: Registry)
    ensures OnlyTouches(reg, r, code)
    ensures code !in reg.matches ==> r == reg
    ensures code in reg.matches ==>
      var m, m' := reg.matches[code], r.matches[code];
      m'.gameStarted == started && m'.timerActive == started
      && m'.gameOver == m.gameOver && m'.completed == m.completed && m'.gameResult == m.gameResult
      && SameSeats(m, m') && SamePlay(m, m') && SameIllegal(m, m') && SameClocks(m, m')
  {
    if code !in reg.matches then reg
    else Put(reg, code, reg.matches[code].(gameStarted := started, timerActive := started))
  }

  /**
    `setGameOver`: the match is over with this result and the clock stops.
    An earlier result is overwritten.
   */
  function SetGameOver(reg: Registry, code: Code, result: string, reason: string): (r: Registry)
    ensures OnlyTouches(reg, r, code)
    ensures code !in reg.matches ==> r == reg
    ensures code in reg.matches ==>
      var m, m' := reg.matches[code], r.matches[code];
      m'.gameOver && m'.completed && !m'.timerActive && m'.gameResult == Some(GameResult(result, reason))
      && m'.gameStarted == m.gameStarted
      && SameSeats(m, m') && SamePlay(m, m') && SameIllegal(m, m') && SameClocks(m, m')
  {
    if code !in reg.matches then reg
    else
      Put(reg, code, reg.matches[code].(gameOver := true, gameResult := Some(GameResult(result, reason)),
                                        timerActive := false, completed := true))
  }

  /**
    `updateGameState`, restricted to the one field the server itself reads
    back: the side to move, when the client sends it.
   */
  function UpdateGameState(reg: Registry, code: Code, whiteToMove: Option<bool>): (r: Registry)
    ensures OnlyTouches(reg, r, code)
    ensures code !in reg.matches || whiteToMove.None? ==> r == reg
    ensures code in reg.matches ==>
      var m, m' := reg.matches[code], r.matches[code];
      (whiteToMove.Some? ==> m'.whiteToMove == whiteToMove.value)
      && m'.moves == m.moves && m'.fen == m.fen && m'.halfmoves == m.halfmoves
      && SameSeats(m, m') && SameIllegal(m, m') && SameStatus(m, m') && SameClocks(m, m')
  {
    if code !in reg.matches || whiteToMove.None? then reg
    else Put(reg, code, reg.matches[code].(whiteToMove := whiteToMove.value))
  }

  /**
    `reconnectPlayer`: the named colour's seat and remembered socket both
    become `sid`; any other name changes nothing. The flag says whether the
    match exists.
   */
  function ReconnectPlayer(reg: Registry, code: Code, sid: SocketId, color: string): (r: (Registry, bool))
    ensures OnlyTouches(reg, r.0, code)
    ensures r.1 <==> code in reg.matches
    ensures code !in reg.matches || ColorNamed(color).None? ==> r.0 == reg
    ensures code in reg.matches && ColorNamed(color).Some? ==>
      var m, m', c := reg.matches[code], r.0.matches[code], ColorNamed(color).value;
      Seat(m', c) == Some(sid) && LastSocket(m', c) == Some(sid)
      && Seat(m', Opponent(c)) == Seat(m, Opponent(c)) && LastSocket(m', Opponent(c)) == LastSocket(m, Opponent(c))
      && m'.playersJoined == m.playersJoined && m'.code == m.code && m'.timeControl == m.timeControl
      && SamePlay(m, m') && SameIllegal(m, m') && SameStatus(m, m') && SameClocks(m, m')
  {
    if code !in reg.matches then (reg, false)
    else
      var m := reg.matches[code];
      match ColorNamed(color)
      case None => (reg, true)
      case Some(White) => (Put(reg, code, m.(whiteSocketId := Some(sid), white := Some(sid))), true)
      case Some(Black) => (Put(reg, code, m.(blackSocketId := Some(sid), black := Some(sid))), true)
  }

  // ------------------------------------------------------- lookup by socket

  /** A property key JavaScript enumerates as an array index. */
  predicate IsIndexKey(k: string) {
    1 <= |k| && AllDigits(k) && (|k| == 1 || k[0] != '0') && DigitsValue(k) < 0xFFFF_FFFF
  }

  predicate SeatedIn(reg: Registry, sid: SocketId, k: Code) {
    k in reg.matches && Seated(reg.matches[k], sid)
  }

  /** Among the index keys of `ks` whose match seats `sid`, the numerically smallest. */
  function LowestSeatedIndexKey(reg: Registry, sid: SocketId, ks: seq<Code>): (r: Option<Code>)
    ensures r.Some? ==> r.value in ks && IsIndexKey(r.value) && SeatedIn(reg, sid, r.value)
    ensures r.Some? ==> forall k :: k in ks && IsIndexKey(k) && SeatedIn(reg, sid, k) ==>
      DigitsValue(r.value) <= DigitsValue(k)
    ensures r.None? ==> forall k :: k in ks && IsIndexKey(k) ==> !SeatedIn(reg, sid, k)
  {
    if ks == [] then None
    else
      var rest := LowestSeatedIndexKey(reg, sid, ks[1..]);
      if IsIndexKey(ks[0]) && SeatedIn(reg, sid, ks[0]) && (rest.None? || DigitsValue(ks[0]) < DigitsValue(rest.value))
      then Some(ks[0])
      else rest
  }

  /** The first position at or after `from` holding a non-index key whose match seats `sid`. */
  function FirstSeatedNamedKey(reg: Registry, sid: SocketId, ks: seq<Code>, from: nat): (r: Option<nat>)
    requires from <= |ks|
    ensures r.Some? ==> from <= r.value < |ks| && !IsIndexKey(ks[r.value]) && SeatedIn(reg, sid, ks[r.value])
    ensures r.Some? ==> forall j :: from <= j < r.value && !IsIndexKey(ks[j]) ==> !SeatedIn(reg, sid, ks[j])
    ensures r.None? ==> forall j :: from <= j < |ks| && !IsIndexKey(ks[j]) ==> !SeatedIn(reg, sid, ks[j])
    decreases |ks| - from
  {
    if from == |ks| then None
    else if !IsIndexKey(ks[from]) && SeatedIn(reg, sid, ks[from]) then Some(from)
    else FirstSeatedNamedKey(reg, sid, ks, from + 1)
  }

  /**
    `findMatchBySocketId`: the first match, in the object's key order, in
    which `sid` holds a seat.
   */
  function FindMatchBySocketId(reg: Registry, sid: SocketId): (r: Option<Code>)
    ensures r.Some? ==> r.value in reg.order && SeatedIn(reg, sid, r.value)
    ensures r.None? <==> forall k :: k in reg.order ==> !SeatedIn(reg, sid, k)
    ensures r.Some? && IsIndexKey(r.value) ==>
      forall k :: k in reg.order && IsIndexKey(k) && SeatedIn(reg, sid, k) ==> DigitsValue(r.value) <= DigitsValue(k)
    ensures r.Some? && !IsIndexKey(r.value) ==>
      (forall k :: k in reg.order && IsIndexKey(k) ==> !SeatedIn(reg, sid, k))
      && exists i :: (0 <= i < |reg.order| && reg.order[i] == r.value
        && forall j :: 0 <= j < i && !IsIndexKey(reg.order[j]) ==> !SeatedIn(reg, sid, reg.order[j]))
  {
    match LowestSeatedIndexKey(reg, sid, reg.order)
    case Some(k) => Some(k)
    case None =>
      match FirstSeatedNamedKey(reg, sid, reg.order, 0)
      case Some(i) => Some(reg.order[i])
      case None => None
  }

  /** On a valid registry the lookup fails exactly when no match seats the socket. */
  lemma FindMatchBySocketIdComplete(reg: Registry, sid: SocketId)
    requires Valid(reg)
    ensures FindMatchBySocketId(reg, sid).None? <==> forall k :: k in reg.matches ==> !Seated(reg.matches[k], sid)
  {
  }

  // ---------------------------------------------------------------- invariant

  /** How many seats have ever been taken, counted by remembered sockets. */
  function Remembered(m: Match): nat {
    (if m.whiteSocketId.Some? then 1 else 0) + (if m.blackSocketId.Some? then 1 else 0)
  }

  /**
    What every match the server holds satisfies: a seated socket is the
    remembered one, the half-move count is the length of the move log, a
    match is over exactly when it is completed and has a result, the clock
    runs only in a started game, and no more seats were ever taken than
    players joined.
   */
  predicate MatchInv(m: Match) {
    (m.white.Some? ==> m.whiteSocketId == m.white)
    && (m.black.Some? ==> m.blackSocketId == m.black)
    && m.halfmoves == |m.moves|
    && m.completed == m.gameOver
    && (m.gameOver <==> m.gameResult.Some?)
    && (m.timerActive ==> m.gameStarted)
    && Remembered(m) <= m.playersJoined
  }

  predicate Inv(reg: Registry) {
    Valid(reg) && forall k :: k in reg.matches ==> MatchInv(reg.matches[k])
  }

  lemma AppendDistinct(s: seq<Code>, x: Code)
    requires Distinct(s) && x !in s
    ensures Distinct(s + [x])
  {
    forall i, j | 0 <= i < j < |s| + 1
      ensures (s + [x])[i] != (s + [x])[j]
    {
      if j == |s| {
        assert (s + [x])[i] == s[i];
      }
    }
  }

  lemma NewMatchInv(code: Code, tc: string)
    ensures MatchInv(NewMatch(code, tc)) && NewMatch(code, tc).code == code
  {
  }

  /** A new match satisfies the invariant, and adding it under a free code keeps the registry valid. */
  lemma AddNewMatchInv(reg: Registry, code: Code, tc: string)
    requires Inv(reg) && code !in reg.matches
    ensures Inv(Registry(reg.order + [code], reg.matches[code := NewMatch(code, tc)]))
  {
    AppendDistinct(reg.order, code);
    NewMatchInv(code, tc);
    var m := NewMatch(code, tc);
    var reg' := Registry(reg.order + [code], reg.matches[code := m]);
    assert forall k :: k in reg'.order ==> k in reg'.matches by {
      forall k | k in reg'.order ensures k in reg'.matches {
        if k != code {
          assert k in reg.order;
        }
      }
    }
    forall k | k in reg'.matches
      ensures MatchInv(reg'.matches[k]) && reg'.matches[k].code == k
    {
      if k != code {
        assert reg'.matches[k] == reg.matches[k];
      }
    }
  }

  lemma CreateMatchInv(reg: Registry, uuids: seq<string>, tc: string)
    requires Inv(reg)
    ensures CreateMatch(reg, uuids, tc).Some? ==> Inv(CreateMatch(reg, uuids, tc).value.0)
  {
    var r := CreateMatch(reg, uuids, tc);
    if r.Some? {
      AddNewMatchInv(reg, r.value.1, tc);
    }
  }
}
