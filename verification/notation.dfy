/**
  `src/utils/moveNotation.js`: the short, algebraic-looking move text the
  client shows in its move list. Files run a..h from column 0 and ranks run
  8..1 from row 0. Check is marked with "+" only; mate is never detected.
  A lookup past the end of `FILES`, `RANKS` or the piece-symbol table is
  JavaScript's `undefined`, which string concatenation writes as
  "undefined" (and `undefined + undefined` is the number NaN).
 */
module Notation {
  import opened Opt
  import opened Chess

  const FILES := "abcdefgh"
  const RANKS := "87654321"

  predicate IndexOk(i: Option<int>) {
    i.Some? && 0 <= i.value < 8
  }

  /** `FILES[c]`: a letter, or "undefined" for a missing or out-of-range index. */
  function FileText(c: Option<int>): string {
    if IndexOk(c) then [FILES[c.value]] else "undefined"
  }

  /** `RANKS[r]`: a digit, or "undefined". */
  function RankText(r: Option<int>): string {
    if IndexOk(r) then [RANKS[r.value]] else "undefined"
  }

  /** `FILES[c] + RANKS[r]`; two missing halves add up to NaN. */
  function SquareName(r: Option<int>, c: Option<int>): string {
    if !IndexOk(r) && !IndexOk(c) then "NaN" else FileText(c) + RankText(r)
  }

  lemma SquareNameOnBoard(r: int, c: int)
    requires 0 <= r < 8 && 0 <= c < 8
    ensures SquareName(Some(r), Some(c)) == [FILES[c], RANKS[r]]
  {
  }

  /** The inverse of the file lookup. */
  function FileIndex(ch: char): (i: Option<int>)
    ensures i.Some? ==> 0 <= i.value < 8 && FILES[i.value] == ch
    ensures i.None? ==> ch !in FILES
  {
    match ch
    case 'a' => Some(0) case 'b' => Some(1) case 'c' => Some(2) case 'd' => Some(3)
    case 'e' => Some(4) case 'f' => Some(5) case 'g' => Some(6) case 'h' => Some(7)
    case _ => None
  }

  /** The inverse of the rank lookup. */
  function RankIndex(ch: char): (i: Option<int>)
    ensures i.Some? ==> 0 <= i.value < 8 && RANKS[i.value] == ch
    ensures i.None? ==> ch !in RANKS
  {
    match ch
    case '8' => Some(0) case '7' => Some(1) case '6' => Some(2) case '5' => Some(3)
    case '4' => Some(4) case '3' => Some(5) case '2' => Some(6) case '1' => Some(7)
    case _ => None
  }

  lemma FileIndexOfFile(c: int)
    requires 0 <= c < 8
    ensures FileIndex(FILES[c]) == Some(c)
  {
    if c < 4 {
      assert c == 0 || c == 1 || c == 2 || c == 3;
    } else {
      assert c == 4 || c == 5 || c == 6 || c == 7;
    }
  }

  lemma RankIndexOfRank(r: int)
    requires 0 <= r < 8
    ensures RankIndex(RANKS[r]) == Some(r)
  {
    if r < 4 {
      assert r == 0 || r == 1 || r == 2 || r == 3;
    } else {
      assert r == 4 || r == 5 || r == 6 || r == 7;
    }
  }

  predicate IsPawn(x: Cell) {
    x.Piece? && x.kind == PAWN
  }

  /** The piece letters that have an entry in the symbol table besides the pawn. */
  const SYMBOLS := "RNBQK"

  /** `PIECE_SYMBOLS[piece[1]]` for a piece that is not a pawn. */
  function PieceSymbol(x: Cell): string {
    if x.Piece? && x.kind in SYMBOLS then [x.kind] else "undefined"
  }

  /**
    `board[toRow][toCol] !== '.'`: a capture is announced when the target
    is occupied, and also when the column is off the board, where the
    lookup is `undefined`.
   */
  predicate Captures(board: Board, toRow: int, toCol: int)
    requires ValidBoard(board) && 0 <= toRow < 8
  {
    !(0 <= toCol < 8) || board[toRow][toCol] != Empty
  }

  /**
    `getMoveNotation`. A row outside the board, or an origin column outside
    it, makes the source throw, so those are required here; the target
    column may be anything. The post-move board the source also receives
    is never read and is not a parameter.
   */
  function GetMoveNotation(board: Board, fromRow: int, fromCol: int, toRow: int, toCol: int, inCheck: bool): string
    requires ValidBoard(board) && 0 <= fromRow < 8 && 0 <= fromCol < 8 && 0 <= toRow < 8
  {
    var piece := board[fromRow][fromCol];
    var capture := if Captures(board, toRow, toCol) then (if IsPawn(piece) then [FILES[fromCol]] else "") + "x" else "";
    Symbol(piece) + capture + SquareName(Some(toRow), Some(toCol)) + (if inCheck then "+" else "")
  }

  /** The symbol `getMoveNotation` puts first: nothing for a pawn, else the piece letter or "undefined". */
  function Symbol(piece: Cell): string {
    if IsPawn(piece) then "" else PieceSymbol(piece)
  }

  /** The notation split into its four parts: symbol, capture mark, target square, check mark. */
  lemma NotationParts(board: Board, fromRow: int, fromCol: int, toRow: int, toCol: int, inCheck: bool)
    requires ValidBoard(board) && 0 <= fromRow < 8 && 0 <= fromCol < 8 && 0 <= toRow < 8
    ensures var piece := board[fromRow][fromCol];
            var capture := if Captures(board, toRow, toCol) then (if IsPawn(piece) then [FILES[fromCol]] else "") + "x" else "";
            && GetMoveNotation(board, fromRow, fromCol, toRow, toCol, inCheck)
               == Symbol(piece) + capture + SquareName(Some(toRow), Some(toCol)) + (if inCheck then "+" else "")
            && 'x' !in Symbol(piece) && '#' !in Symbol(piece)
            && 'x' !in SquareName(Some(toRow), Some(toCol)) && '#' !in SquareName(Some(toRow), Some(toCol))
            && |SquareName(Some(toRow), Some(toCol))| >= 2
            && SquareName(Some(toRow), Some(toCol))[|SquareName(Some(toRow), Some(toCol))| - 1] == RANKS[toRow]
  {
  }

  /** The marks of a string laid out as symbol, capture part, target and check part. */
  lemma MarksOfParts(symbol: string, capture: string, target: string, check: string, captures: bool, inCheck: bool)
    requires 'x' !in symbol && '#' !in symbol && 'x' !in target && '#' !in target
    requires '#' !in capture && ('x' in capture <==> captures)
    requires |target| >= 2 && target[|target| - 1] != '+'
    requires check == if inCheck then "+" else ""
    ensures var n := symbol + capture + target + check;
            && '#' !in n && ('x' in n <==> captures)
            && |n| >= 2 && (n[|n| - 1] == '+' <==> inCheck)
  {
    var n := symbol + capture + target + check;
    assert n[|n| - 1] == if inCheck then '+' else target[|target| - 1];
  }

  /**
    What every notation string carries: never a mate sign; an "x" exactly
    when the target is occupied (or off the board); a final "+" exactly
    when the moved-to position is check.
   */
  lemma NotationMarks(board: Board, fromRow: int, fromCol: int, toRow: int, toCol: int, inCheck: bool)
    requires ValidBoard(board) && 0 <= fromRow < 8 && 0 <= fromCol < 8 && 0 <= toRow < 8
    ensures var n := GetMoveNotation(board, fromRow, fromCol, toRow, toCol, inCheck);
            && '#' !in n
            && ('x' in n <==> Captures(board, toRow, toCol))
            && |n| >= 2 && (n[|n| - 1] == '+' <==> inCheck)
  {
    var piece := board[fromRow][fromCol];
    var capture := if Captures(board, toRow, toCol) then (if IsPawn(piece) then [FILES[fromCol]] else "") + "x" else "";
    NotationParts(board, fromRow, fromCol, toRow, toCol, inCheck);
    MarksOfParts(Symbol(piece), capture, SquareName(Some(toRow), Some(toCol)), if inCheck then "+" else "", Captures(board, toRow, toCol), inCheck);
  }

  /** A standard piece moving onto the board is written in at most five characters. */
  lemma NotationLength(board: Board, fromRow: int, fromCol: int, toRow: int, toCol: int, inCheck: bool)
    requires ValidBoard(board) && 0 <= fromRow < 8 && 0 <= fromCol < 8 && 0 <= toRow < 8 && 0 <= toCol < 8
    requires board[fromRow][fromCol].Piece? && StandardKind(board[fromRow][fromCol].kind)
    ensures 2 <= |GetMoveNotation(board, fromRow, fromCol, toRow, toCol, inCheck)| <= 5
  {
    var piece := board[fromRow][fromCol];
    SquareNameOnBoard(toRow, toCol);
    assert |Symbol(piece)| <= 1;
  }

  // ------------------------------------------------------------ reading back

  /** What a notation string says: piece letter ('P' for a pawn), file of a capturing pawn, capture, target, check. */
  datatype Reading = Reading(piece: char, fromFile: Option<int>, capture: bool, toRow: int, toCol: int, check: bool)

  /** A reader for the notation the function above writes: a final "+" is the check mark, the rest is read by `ReadBody`. */
  function ReadNotation(n: string): Option<Reading> {
    if |n| > 0 && n[|n| - 1] == '+' then ReadBody(n[..|n| - 1], true) else ReadBody(n, false)
  }

  /** The notation without its check mark: the last two characters name the target, an "x" before them marks a capture. */
  function ReadBody(body: string, check: bool): Option<Reading> {
    if |body| < 2 then None
    else
      var file, rank := FileIndex(body[|body| - 2]), RankIndex(body[|body| - 1]);
      var pre := body[..|body| - 2];
      var capture := |pre| > 0 && pre[|pre| - 1] == 'x';
      var lead := if capture then pre[..|pre| - 1] else pre;
      if file.None? || rank.None? then None
      else ReadLead(lead, capture, rank.value, file.value, check)
  }

  /** What comes before the capture mark: nothing for a pawn, a piece letter, or a capturing pawn's file. */
  function ReadLead(lead: string, capture: bool, toRow: int, toCol: int, check: bool): Option<Reading> {
    if lead == [] then
      if capture then None else Some(Reading(PAWN, None, false, toRow, toCol, check))
    else if |lead| == 1 && lead[0] in SYMBOLS then
      Some(Reading(lead[0], None, capture, toRow, toCol, check))
    else if |lead| == 1 && capture && FileIndex(lead[0]).Some? then
      Some(Reading(PAWN, FileIndex(lead[0]), true, toRow, toCol, check))
    else None
  }

  /** The layout every notation string of an on-board move has. */
  function Compose(lead: string, capture: bool, toRow: int, toCol: int, check: bool): string
    requires 0 <= toRow < 8 && 0 <= toCol < 8
  {
    lead + (if capture then "x" else "") + [FILES[toCol], RANKS[toRow]] + (if check then "+" else "")
  }

  /** The check mark is read off the end and the rest is read as the body. */
  lemma ReadCheckMark(body: string, check: bool)
    requires |body| >= 2 && body[|body| - 1] != '+'
    ensures ReadNotation(body + (if check then "+" else "")) == ReadBody(body, check)
  {
    var n := body + (if check then "+" else "");
    if check {
      assert n[..|n| - 1] == body;
    } else {
      assert n == body;
    }
  }

  /** A body laid out as lead, capture mark and an on-board target reads back as that lead. */
  lemma ReadComposedBody(lead: string, capture: bool, toRow: int, toCol: int, check: bool)
    requires 0 <= toRow < 8 && 0 <= toCol < 8
    requires |lead| <= 1 && 'x' !in lead
    ensures ReadBody(lead + (if capture then "x" else "") + [FILES[toCol], RANKS[toRow]], check) == ReadLead(lead, capture, toRow, toCol, check)
  {
    var pre := lead + (if capture then "x" else "");
    var body := pre + [FILES[toCol], RANKS[toRow]];
    assert body[..|body| - 2] == pre;
    assert body[|body| - 2] == FILES[toCol] && body[|body| - 1] == RANKS[toRow];
    assert capture ==> pre[..|pre| - 1] == lead;
    FileIndexOfFile(toCol);
    RankIndexOfRank(toRow);
  }

  lemma ReadCompose(lead: string, capture: bool, toRow: int, toCol: int, check: bool)
    requires 0 <= toRow < 8 && 0 <= toCol < 8
    requires |lead| <= 1 && 'x' !in lead
    ensures ReadNotation(Compose(lead, capture, toRow, toCol, check)) == ReadLead(lead, capture, toRow, toCol, check)
  {
    var body := lead + (if capture then "x" else "") + [FILES[toCol], RANKS[toRow]];
    assert Compose(lead, capture, toRow, toCol, check) == body + (if check then "+" else "");
    assert body[|body| - 1] == RANKS[toRow];
    ReadCheckMark(body, check);
    ReadComposedBody(lead, capture, toRow, toCol, check);
  }

  /** The notation of a standard piece's on-board move, laid out as lead, capture mark, target and check mark. */
  lemma NotationIsComposed(board: Board, fromRow: int, fromCol: int, toRow: int, toCol: int, inCheck: bool)
    requires ValidBoard(board) && 0 <= fromRow < 8 && 0 <= fromCol < 8 && 0 <= toRow < 8 && 0 <= toCol < 8
    requires board[fromRow][fromCol].Piece? && StandardKind(board[fromRow][fromCol].kind)
    ensures var piece := board[fromRow][fromCol];
            var captured := board[toRow][toCol] != Empty;
            var lead := if IsPawn(piece) then (if captured then [FILES[fromCol]] else "") else [piece.kind];
            GetMoveNotation(board, fromRow, fromCol, toRow, toCol, inCheck) == Compose(lead, captured, toRow, toCol, inCheck)
  {
    var piece := board[fromRow][fromCol];
    SquareNameOnBoard(toRow, toCol);
    assert !IsPawn(piece) ==> PieceSymbol(piece) == [piece.kind];
  }

  lemma ReadLeadOfMove(piece: Cell, captured: bool, fromCol: int, toRow: int, toCol: int, inCheck: bool)
    requires piece.Piece? && StandardKind(piece.kind) && 0 <= fromCol < 8
    ensures var lead := if IsPawn(piece) then (if captured then [FILES[fromCol]] else "") else [piece.kind];
            ReadLead(lead, captured, toRow, toCol, inCheck)
            == Some(Reading(piece.kind, if IsPawn(piece) && captured then Some(fromCol) else None, captured, toRow, toCol, inCheck))
  {
    if IsPawn(piece) && captured {
      FileIndexOfFile(fromCol);
      assert FILES[fromCol] !in SYMBOLS;
    }
  }

  /**
    For a standard piece moving to a square on the board, the notation
    names the piece, the capturing pawn's file, whether the target was
    occupied, the target square and the check flag, and nothing else.
   */
  lemma ReadMoveNotation(board: Board, fromRow: int, fromCol: int, toRow: int, toCol: int, inCheck: bool)
    requires ValidBoard(board) && 0 <= fromRow < 8 && 0 <= fromCol < 8 && 0 <= toRow < 8 && 0 <= toCol < 8
    requires board[fromRow][fromCol].Piece? && StandardKind(board[fromRow][fromCol].kind)
    ensures var piece := board[fromRow][fromCol];
            var captured := board[toRow][toCol] != Empty;
            ReadNotation(GetMoveNotation(board, fromRow, fromCol, toRow, toCol, inCheck))
            == Some(Reading(piece.kind, if IsPawn(piece) && captured then Some(fromCol) else None, captured, toRow, toCol, inCheck))
  {
    var piece := board[fromRow][fromCol];
    var captured := board[toRow][toCol] != Empty;
    var lead := if IsPawn(piece) then (if captured then [FILES[fromCol]] else "") else [piece.kind];
    NotationIsComposed(board, fromRow, fromCol, toRow, toCol, inCheck);
    ReadCompose(lead, captured, toRow, toCol, inCheck);
    ReadLeadOfMove(piece, captured, fromCol, toRow, toCol, inCheck);
  }
}
