/**
  `src/store/gameStore.js`: the client's game store and the transitions on
  it that carry logic: selecting squares, applying a move locally, applying
  a board received from the server, counting illegal moves and resetting.
  Each transition is a function from the old store to the new one; the
  setters that copy one argument into one field are not modelled.
 */
module Store {
  import opened Opt
  import opened Chess
  import opened Engine
  import opened EngineSpec
  import opened Counter
  import opened Fen
  import opened Rules
  import opened Notation
  import opened MoveString
  import opened MoveHistory

  /**
    The store's state. `selected` is the selected square, `legalMoves` its
    destinations; `drawOffer` is the colour with a pending offer; the two
    captured lists hold the piece letters each colour has lost.
   */
  datatype Store = Store(
    board: Board, whiteToMove: bool, selected: Option<Square>, legalMoves: seq<Square>, allowMoves: bool,
    inCheck: bool, checkSquare: Option<Square>,
    gameCode: string, playerColor: Option<Color>, timeControl: Option<string>,
    gameStarted: bool, gameOver: bool, gameResult: Option<(string, string)>,
    bothPlayersJoined: bool, tracker: Tracker, drawOffer: Option<Color>,
    history: seq<Entry>, capturedWhite: seq<char>, capturedBlack: seq<char>, illegalMoves: Counts)

  const INITIAL_ILLEGAL: Counts := map["white" := 0, "black" := 0]

  /** The store's initial state. */
  const INITIAL_STORE := Store(
    INITIAL_BOARD, true, None, [], false, false, None, "", None, None, false, false, None,
    false, FRESH_TRACKER, None, [], [], [], INITIAL_ILLEGAL)

  /**
    The fields no move transition touches are as they were: the game's
    identity, status, offers and counts. Only the position, the selection,
    the check highlight, the history and the captured lists may differ.
   */
  predicate SameGame(s: Store, t: Store) {
    t == s.(board := t.board, whiteToMove := t.whiteToMove, selected := t.selected, legalMoves := t.legalMoves,
            inCheck := t.inCheck, checkSquare := t.checkSquare, history := t.history,
            capturedWhite := t.capturedWhite, capturedBlack := t.capturedBlack)
  }

  // ---------------------------------------------------------------- selection

  /** The local player's colour is the side to move. */
  predicate IsPlayerTurn(s: Store) {
    (s.playerColor == Some(White) && s.whiteToMove) || (s.playerColor == Some(Black) && !s.whiteToMove)
  }

  /** The move a second click hands to the caller, `{from, to}`. */
  datatype Click = Click(from: Square, to: Square)

  /**
    `selectSquare(row, col)`. The source reads `board[row][col]` and throws
    off the board, so the square is required to be on it.
   */
  function SelectSquare(s: Store, row: int, col: int): (r: (Store, Option<Click>))
    requires ValidBoard(s.board) && InBounds(row, col)
    ensures !IsPlayerTurn(s) ==> r == (s, None)
    ensures r.1.Some? <==> IsPlayerTurn(s) && s.selected.Some? && s.selected != Some((row, col)) && !IsOwn(s.board[row][col], Side(s.whiteToMove))
    ensures r.1.Some? ==> r.1.value == Click(s.selected.value, (row, col))
    ensures IsPlayerTurn(s) ==> r.0.selected == (if s.selected != Some((row, col)) && IsOwn(s.board[row][col], Side(s.whiteToMove)) then Some((row, col)) else None)
    ensures IsPlayerTurn(s) && r.0.selected.Some? ==> r.0.legalMoves == GetMoves(row, col, s.board, s.whiteToMove)
    ensures IsPlayerTurn(s) && r.0.selected.None? ==> r.0.legalMoves == []
    ensures r.0 == s.(selected := r.0.selected, legalMoves := r.0.legalMoves)
  {
    if !IsPlayerTurn(s) then (s, None)
    else if s.selected == Some((row, col)) then (s.(selected := None, legalMoves := []), None)
    else if IsOwn(s.board[row][col], Side(s.whiteToMove)) then
      (s.(selected := Some((row, col)), legalMoves := GetMoves(row, col, s.board, s.whiteToMove)), None)
    else if s.selected.Some? then
      (s.(selected := None, legalMoves := []), Some(Click(s.selected.value, (row, col))))
    else (s.(selected := None, legalMoves := []), None)
  }

  /** The selection, when there is one, is a piece of the side to move on the board. */
  predicate SelectionOwn(s: Store) {
    ValidBoard(s.board) && (s.selected.Some? ==> InBounds(s.selected.value.0, s.selected.value.1) && IsOwn(s.board[s.selected.value.0][s.selected.value.1], Side(s.whiteToMove)))
  }

  /**
    Clicking keeps the selection on the mover's own piece, and a move handed
    to the caller always starts on the mover's own piece and ends on a
    square that does not hold one.
   */
  lemma SelectKeepsSelectionOwn(s: Store, row: int, col: int)
    requires SelectionOwn(s) && InBounds(row, col)
    ensures SelectionOwn(SelectSquare(s, row, col).0)
    ensures var c := SelectSquare(s, row, col).1;
            c.Some? ==> IsOwn(s.board[c.value.from.0][c.value.from.1], Side(s.whiteToMove)) && !IsOwn(s.board[c.value.to.0][c.value.to.1], Side(s.whiteToMove))
  {
  }

  /**
    After a click selects a piece, the listed destinations are exactly the
    squares its movement pattern reaches that leave the mover out of check.
   */
  lemma SelectedDestinationsAreLegal(s: Store, row: int, col: int, nr: int, nc: int)
    requires ValidBoard(s.board) && InBounds(row, col) && IsPlayerTurn(s)
    requires s.selected != Some((row, col)) && IsOwn(s.board[row][col], Side(s.whiteToMove))
    ensures (nr, nc) in SelectSquare(s, row, col).0.legalMoves <==>
      && PatternAllows(s.board, Side(s.whiteToMove), s.board[row][col].kind, row, col, nr, nc)
      && !InCheck(MakeMove(s.board, row, col, nr, nc), s.whiteToMove)
  {
    GetMovesMatchesRules(s.board, row, col, s.whiteToMove, nr, nc);
  }

  /** Clicking a piece of one's own twice selects and then deselects it, with no move. */
  lemma SecondClickDeselects(s: Store, row: int, col: int)
    requires ValidBoard(s.board) && InBounds(row, col) && IsPlayerTurn(s)
    requires s.selected != Some((row, col)) && IsOwn(s.board[row][col], Side(s.whiteToMove))
    ensures var once := SelectSquare(s, row, col).0;
            SelectSquare(once, row, col) == (s.(selected := None, legalMoves := []), None)
  {
  }

  /**
    Selecting a piece and then clicking a square without one of the mover's
    pieces hands over that move, legal or not, and clears the selection.
   */
  lemma SelectThenTarget(s: Store, row: int, col: int, tr: int, tc: int)
    requires ValidBoard(s.board) && InBounds(row, col) && InBounds(tr, tc) && IsPlayerTurn(s)
    requires s.selected != Some((row, col)) && IsOwn(s.board[row][col], Side(s.whiteToMove))
    requires !IsOwn(s.board[tr][tc], Side(s.whiteToMove))
    ensures var once := SelectSquare(s, row, col).0;
            var twice := SelectSquare(once, tr, tc);
            twice.1 == Some(Click((row, col), (tr, tc))) && twice.0.selected.None? && twice.0.legalMoves == []
  {
  }

  // ---------------------------------------------------------------- moves

  /** The king square to highlight: the side's king when it is in check. */
  function CheckSquare(b: Board, white: bool, check: bool): (k: Option<Square>)
    requires ValidBoard(b)
    ensures k.Some? ==> check && OnBoard(k.value) && b[k.value.0][k.value.1] == Piece(Side(white), KING)
  {
    if check then FindKing(b, white) else None
  }

  /** The move-list text of the move from (fr, fc) to (tr, tc). */
  function MoveText(fr: nat, fc: nat, tr: nat, tc: nat): string {
    FormatMove(Coords(fr, fc, tr, tc))
  }

  /**
    `applyMove`: the move is made on the local board without any legality
    check, the turn passes, the selection is cleared and one history entry
    is appended (numbered when white moved; no check flag or capture).
   */
  function ApplyMove(s: Store, fr: nat, fc: nat, tr: nat, tc: nat): (t: Store)
    requires ValidBoard(s.board) && InBounds(fr, fc) && InBounds(tr, tc)
    ensures ValidBoard(t.board)
    ensures t.whiteToMove == !s.whiteToMove
    ensures t.selected.None? && t.legalMoves == []
    ensures t.inCheck == InCheck(t.board, t.whiteToMove)
    ensures t.checkSquare.Some? <==> t.inCheck
    ensures |t.history| == |s.history| + 1 && t.history[..|s.history|] == s.history
    ensures t.history[|s.history|].turn.Some? <==> s.whiteToMove
    ensures t.capturedWhite == s.capturedWhite && t.capturedBlack == s.capturedBlack
    ensures SameGame(s, t)
  {
    var b := MakeMove(s.board, fr, fc, tr, tc);
    var wtm := !s.whiteToMove;
    var check := InCheck(b, wtm);
    var entry := Entry(MoveText(fr, fc, tr, tc), GetMoveNotation(s.board, fr, fc, tr, tc, check),
      if s.whiteToMove then Some(|s.history| / 2 + 1) else None, None, None);
    s.(board := b, whiteToMove := wtm, inCheck := check, checkSquare := CheckSquare(b, wtm, check),
       selected := None, legalMoves := [], history := s.history + [entry])
  }

  /**
    The board after `applyMove` differs from the old one only on the two
    squares of the move: the origin is emptied and the destination holds
    the moved piece (a pawn reaching the far row becoming a queen).
   */
  lemma ApplyMoveBoard(s: Store, fr: nat, fc: nat, tr: nat, tc: nat)
    requires ValidBoard(s.board) && InBounds(fr, fc) && InBounds(tr, tc) && (fr, fc) != (tr, tc)
    ensures var t := ApplyMove(s, fr, fc, tr, tc);
            && t.board[fr][fc] == Empty && t.board[tr][tc] == Promote(s.board[fr][fc], tr)
            && forall i, j :: InBounds(i, j) && (i, j) != (fr, fc) && (i, j) != (tr, tc) ==> t.board[i][j] == s.board[i][j]
  {
  }

  /**
    The entry `applyMove` appends shows the move's two squares in the move
    list, and its notation reads back as the moved piece, the capture, the
    destination and the check on the new position.
   */
  lemma ApplyMoveEntry(s: Store, fr: nat, fc: nat, tr: nat, tc: nat)
    requires ValidBoard(s.board) && InBounds(fr, fc) && InBounds(tr, tc)
    requires s.board[fr][fc].Piece? && StandardKind(s.board[fr][fc].kind)
    ensures var t := ApplyMove(s, fr, fc, tr, tc);
            var e := t.history[|s.history|];
            var d := GetMoveDetails(e);
            && d.Some? && d.value.from == [FILES[fc], RANKS[fr]] && d.value.to == [FILES[tc], RANKS[tr]]
            && ReadNotation(e.notation).Some?
            && ReadNotation(e.notation).value.toRow == tr && ReadNotation(e.notation).value.toCol == tc
            && ReadNotation(e.notation).value.capture == (s.board[tr][tc] != Empty)
            && ReadNotation(e.notation).value.check == t.inCheck
  {
    var t := ApplyMove(s, fr, fc, tr, tc);
    DetailsOfFormattedMove(Coords(fr, fc, tr, tc), t.history[|s.history|].notation, t.history[|s.history|].turn, None, None);
    ReadMoveNotation(s.board, fr, fc, tr, tc, t.inCheck);
  }

  /**
    The move info `applyFEN` may receive: none, one without an origin row
    or column, or all four coordinates.
   */
  datatype MoveInfo = NoInfo | NoOrigin | Info(fromRow: nat, fromCol: nat, toRow: nat, toCol: nat)

  /**
    With move info whose origin row, origin column or target row is off the
    board, the source throws (reading a row that does not exist) and its
    catch leaves the store as it was.
   */
  predicate Throws(info: MoveInfo) {
    info.Info? && !(info.fromRow < 8 && info.fromCol < 8 && info.toRow < 8)
  }

  /** The cell a move captured: what stood on the target, if anything. */
  function CapturedCell(b: Board, tr: nat, tc: nat): (x: Option<Cell>)
    requires ValidBoard(b) && tr < 8
    ensures x.Some? ==> x.value.Piece? && tc < 8 && x.value == b[tr][tc]
    ensures x.None? ==> tc >= 8 || b[tr][tc] == Empty
  {
    if tc < 8 && b[tr][tc] != Empty then Some(b[tr][tc]) else None
  }

  /**
    The captured lists after a capture: the captured piece's letter goes to
    the list of the colour opposite the capturing piece; nothing is recorded
    when there was no capture or the origin was empty.
   */
  function RecordCapture(whiteLost: seq<char>, blackLost: seq<char>, capturing: Cell, captured: Option<Cell>): (r: (seq<char>, seq<char>))
    requires captured.Some? ==> captured.value.Piece?
    ensures captured.None? || capturing.Empty? ==> r == (whiteLost, blackLost)
    ensures captured.Some? && capturing.Piece? && capturing.color == White ==> r == (whiteLost, blackLost + [captured.value.kind])
    ensures captured.Some? && capturing.Piece? && capturing.color == Black ==> r == (whiteLost + [captured.value.kind], blackLost)
  {
    match (capturing, captured)
    case (Piece(White, _), Some(x)) => (whiteLost, blackLost + [x.kind])
    case (Piece(Black, _), Some(x)) => (whiteLost + [x.kind], blackLost)
    case _ => (whiteLost, blackLost)
  }

  /**
    The store shows board `b` with `wtm` to move and no selection, and the
    game itself (code, colour, result, counts, offers) is as in `s`.
   */
  predicate Shows(s: Store, t: Store, b: Board, wtm: bool) {
    t.board == b && t.whiteToMove == wtm && t.selected.None? && t.legalMoves == [] && SameGame(s, t)
  }

  /**
    The part of `applyFEN` that does not depend on the move info: the new
    board and turn, the check flag and its king square, no selection.
   */
  function ShowPosition(s: Store, b: Board, wtm: bool, check: bool): (t: Store)
    requires ValidBoard(b)
    ensures Shows(s, t, b, wtm) && t.inCheck == check
    ensures t.checkSquare.Some? <==> check && FindKing(b, wtm).Some?
    ensures t.checkSquare.Some? ==> t.checkSquare == FindKing(b, wtm)
    ensures t.history == s.history && t.capturedWhite == s.capturedWhite && t.capturedBlack == s.capturedBlack
  {
    s.(board := b, whiteToMove := wtm, inCheck := check, checkSquare := CheckSquare(b, wtm, check),
       selected := None, legalMoves := [])
  }

  /**
    The history entry `applyFEN` writes for a move that has just been made
    on `before`, leaving `b` with `wtm` to move; `n` entries came before it.
   */
  function FenEntry(before: Board, b: Board, wtm: bool, n: nat, fr: nat, fc: nat, tr: nat, tc: nat): (e: Entry)
    requires ValidBoard(before) && ValidBoard(b) && fr < 8 && fc < 8 && tr < 8
    ensures e.inCheck == Some(InCheck(b, wtm))
    ensures e.turn.Some? <==> !wtm
    ensures e.captured == CapturedCell(before, tr, tc)
    ensures e.move == MoveText(fr, fc, tr, tc)
  {
    var check := InCheck(b, wtm);
    Entry(MoveText(fr, fc, tr, tc), GetMoveNotation(before, fr, fc, tr, tc, check),
      if !wtm then Some(n / 2 + 1) else None, Some(check), CapturedCell(before, tr, tc))
  }

  /** `applyFEN` with full move info for a move on the board: the position shown, the entry appended, the capture recorded. */
  function ShowMove(s: Store, b: Board, wtm: bool, fr: nat, fc: nat, tr: nat, tc: nat): (t: Store)
    requires ValidBoard(s.board) && ValidBoard(b) && fr < 8 && fc < 8 && tr < 8
    ensures Shows(s, t, b, wtm) && t.inCheck == InCheck(b, wtm)
    ensures t.checkSquare.Some? <==> t.inCheck
    ensures t.history == s.history + [FenEntry(s.board, b, wtm, |s.history|, fr, fc, tr, tc)]
    ensures (t.capturedWhite, t.capturedBlack) == RecordCapture(s.capturedWhite, s.capturedBlack, s.board[fr][fc], CapturedCell(s.board, tr, tc))
  {
    var (whiteLost, blackLost) := RecordCapture(s.capturedWhite, s.capturedBlack, s.board[fr][fc], CapturedCell(s.board, tr, tc));
    var shown := ShowPosition(s, b, wtm, InCheck(b, wtm));
    shown.(history := s.history + [FenEntry(s.board, b, wtm, |s.history|, fr, fc, tr, tc)],
           capturedWhite := whiteLost, capturedBlack := blackLost)
  }

  /**
    `applyFEN` once the text is parsed into `b`. The turn is the given one,
    or the other side's when none is given. With full move info one history
    entry is appended (numbered when it was white's move, with the check
    flag of the new position and the captured cell) and a capture is
    recorded. The check highlight follows the side to move, except that
    move info without an origin leaves it off.
   */
  function ShowFEN(s: Store, b: Board, newWhiteToMove: Option<bool>, info: MoveInfo): (t: Store)
    requires ValidBoard(s.board) && ValidBoard(b)
    ensures Throws(info) ==> t == s
    ensures !Throws(info) ==> Shows(s, t, b, if newWhiteToMove.Some? then newWhiteToMove.value else !s.whiteToMove)
    ensures !Throws(info) ==> t.inCheck == (!info.NoOrigin? && InCheck(b, t.whiteToMove))
    ensures info.Info? && !Throws(info) ==> t.history == s.history + [FenEntry(s.board, b, t.whiteToMove, |s.history|, info.fromRow, info.fromCol, info.toRow, info.toCol)]
    ensures info.Info? && !Throws(info) ==> (t.capturedWhite, t.capturedBlack) == RecordCapture(s.capturedWhite, s.capturedBlack, s.board[info.fromRow][info.fromCol], CapturedCell(s.board, info.toRow, info.toCol))
    ensures !info.Info? ==> t.history == s.history && t.capturedWhite == s.capturedWhite && t.capturedBlack == s.capturedBlack
  {
    if Throws(info) then s
    else
      var wtm := if newWhiteToMove.Some? then newWhiteToMove.value else !s.whiteToMove;
      match info
      case Info(fr, fc, tr, tc) => ShowMove(s, b, wtm, fr, fc, tr, tc)
      case NoOrigin => ShowPosition(s, b, wtm, false)
      case NoInfo => ShowPosition(s, b, wtm, InCheck(b, wtm))
  }

  /** After `applyFEN` a king square is highlighted exactly when the check flag is set. */
  lemma ShowFENHighlightsCheck(s: Store, b: Board, newWhiteToMove: Option<bool>, info: MoveInfo)
    requires ValidBoard(s.board) && ValidBoard(b) && !Throws(info)
    ensures var t := ShowFEN(s, b, newWhiteToMove, info);
            t.checkSquare.Some? <==> t.inCheck
  {
    var wtm := if newWhiteToMove.Some? then newWhiteToMove.value else !s.whiteToMove;
    if info.NoInfo? {
      assert InCheck(b, wtm) ==> FindKing(b, wtm).Some?;
    }
  }

  /**
    `applyFEN(fen, newWhiteToMove, moveInfo)`: unless the move info makes
    the source throw, the board becomes the parsed text; everything else is
    as `ShowFEN` says for that board.
   */
  function ApplyFEN(s: Store, fen: string, newWhiteToMove: Option<bool>, info: MoveInfo): (t: Store)
    requires ValidBoard(s.board)
    ensures Throws(info) ==> t == s
    ensures !Throws(info) ==> t.board == ParseFEN(fen) && ValidBoard(t.board)
  {
    ShowFEN(s, ParseFEN(fen), newWhiteToMove, info)
  }

  /**
    A capture reported with a move lands in the list of the colour opposite
    the capturing piece, as the captured piece's letter; an empty target
    records nothing.
   */
  lemma ApplyFENRecordsCapture(s: Store, fen: string, wtm: Option<bool>, fr: nat, fc: nat, tr: nat, tc: nat)
    requires ValidBoard(s.board) && fr < 8 && fc < 8 && tr < 8 && tc < 8
    ensures var t := ApplyFEN(s, fen, wtm, Info(fr, fc, tr, tc));
            var mover := s.board[fr][fc];
            var target := s.board[tr][tc];
            && (target == Empty || mover == Empty ==> t.capturedWhite == s.capturedWhite && t.capturedBlack == s.capturedBlack)
            && (target != Empty && mover.Piece? && mover.color == White ==> t.capturedBlack == s.capturedBlack + [target.kind] && t.capturedWhite == s.capturedWhite)
            && (target != Empty && mover.Piece? && mover.color == Black ==> t.capturedWhite == s.capturedWhite + [target.kind] && t.capturedBlack == s.capturedBlack)
  {
  }

  // ---------------------------------------------------------------- counts and reset

  /** `setIllegalMove(color)`: one more illegal move for that colour name, every other count as it was. */
  function SetIllegalMove(s: Store, color: string): (t: Store)
    ensures Count(t.illegalMoves, color) == Count(s.illegalMoves, color) + 1
    ensures forall k :: k != color ==> Count(t.illegalMoves, k) == Count(s.illegalMoves, k)
    ensures t == s.(illegalMoves := t.illegalMoves)
  {
    s.(illegalMoves := Bump(s.illegalMoves, color))
  }

  /**
    `reset`: every field back to its initial value except the draw offer
    and the both-players-joined flag, which it does not touch.
   */
  function Reset(s: Store): (t: Store)
    ensures t.drawOffer == s.drawOffer && t.bothPlayersJoined == s.bothPlayersJoined
    ensures t.(drawOffer := None, bothPlayersJoined := false) == INITIAL_STORE
  {
    INITIAL_STORE.(drawOffer := s.drawOffer, bothPlayersJoined := s.bothPlayersJoined)
  }

  /** A reset store is in the opening position with white to move and nothing recorded. */
  lemma ResetIsFresh(s: Store)
    ensures var t := Reset(s);
            && t.board == INITIAL_BOARD && t.whiteToMove && t.selected.None? && t.history == []
            && t.capturedWhite == [] && t.capturedBlack == [] && !t.gameOver && !t.inCheck
            && Count(t.illegalMoves, "white") == 0 && Count(t.illegalMoves, "black") == 0
            && !IsThreefold(t.tracker)
            && Reset(t) == t
  {
    FreshNotThreefold();
  }
}
