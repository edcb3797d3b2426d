/**
  The engine's own board serialisation, `boardToFEN` and `parseFEN`. It is
  not standard FEN: a row is the concatenation of its cells, an empty cell
  written "1" and a piece as its two-letter code ("wK"), and the rows are
  joined with "/". The parser is forgiving: it skips unknown characters,
  reads a trailing lone colour letter as an empty cell, and pads or cuts
  rows and the board to 8.
 */
module Fen {
  import opened Text
  import opened Chess

  function ColorLetter(c: Color): char {
    if c == White then 'w' else 'b'
  }

  function EncodeCell(x: Cell): string {
    match x
    case Empty => "1"
    case Piece(c, k) => [ColorLetter(c), k]
  }

  /** `row.map(p => p === EMPTY ? "1" : p).join("")`. */
  function EncodeRow(row: seq<Cell>): string {
    if row == [] then [] else EncodeCell(row[0]) + EncodeRow(row[1..])
  }

  function EncodeRows(b: Board): seq<string>
    ensures |EncodeRows(b)| == |b|
  {
    if b == [] then [] else [EncodeRow(b[0])] + EncodeRows(b[1..])
  }

  /** `boardToFEN`: the encoded rows joined with "/". */
  function BoardToFEN(b: Board): string {
    Join(EncodeRows(b), "/")
  }

  /**
    The cell-reading loop of `parseFEN` for one row: at most `room` cells
    are produced; "1" is an empty cell, a colour letter takes the next
    character as the piece letter (or is an empty cell when it is the last
    character), anything else is skipped.
   */
  function ParseCells(row: string, room: nat): (cells: seq<Cell>)
    ensures |cells| <= room
    decreases |row|
  {
    if row == [] || room == 0 then []
    else if row[0] == '1' then [Empty] + ParseCells(row[1..], room - 1)
    else if row[0] == 'w' || row[0] == 'b' then
      if |row| >= 2 then [Piece(if row[0] == 'w' then White else Black, row[1])] + ParseCells(row[2..], room - 1)
      else [Empty] + ParseCells(row[1..], room - 1)
    else ParseCells(row[1..], room)
  }

  function EmptyCells(n: nat): (s: seq<Cell>)
    ensures |s| == n && forall i :: 0 <= i < n ==> s[i] == Empty
  {
    if n == 0 then [] else [Empty] + EmptyCells(n - 1)
  }

  /** One row of `parseFEN`: the cells read, padded with empty cells to eight. */
  function ParseRow(row: string): (cells: seq<Cell>)
    ensures |cells| == 8
    ensures cells[..|ParseCells(row, 8)|] == ParseCells(row, 8)
    ensures forall i :: |ParseCells(row, 8)| <= i < 8 ==> cells[i] == Empty
  {
    var read := ParseCells(row, 8);
    read + EmptyCells(8 - |read|)
  }

  function ParseRows(rows: seq<string>): (b: Board)
    ensures |b| == |rows| && forall i :: 0 <= i < |rows| ==> b[i] == ParseRow(rows[i])
  {
    if rows == [] then [] else [ParseRow(rows[0])] + ParseRows(rows[1..])
  }

  function EmptyRows(n: nat): (b: Board)
    ensures |b| == n && forall i :: 0 <= i < n ==> b[i] == EMPTY_ROW
  {
    if n == 0 then [] else [EMPTY_ROW] + EmptyRows(n - 1)
  }

  /**
    `parseFEN`: always an 8x8 board. Row i is the parse of the i-th
    "/"-separated part when there is one and an empty row otherwise; parts
    beyond the eighth are ignored.
   */
  function ParseFEN(fen: string): (b: Board)
    ensures ValidBoard(b)
    ensures forall i :: 0 <= i < 8 && i < |Split(fen, "/")| ==> b[i] == ParseRow(Split(fen, "/")[i])
    ensures forall i :: |Split(fen, "/")| <= i < 8 ==> b[i] == EMPTY_ROW
  {
    var parsed := ParseRows(Split(fen, "/"));
    var padded := if |parsed| < 8 then parsed + EmptyRows(8 - |parsed|) else parsed;
    padded[..8]
  }

  // ---------------------------------------------------------------- round trip

  /**
    A piece letter that `parseFEN` reads back as written: not the row
    separator, and one UTF-16 code unit, since the source reads `row[i + 1]`.
   */
  predicate Encodable(k: char) {
    k != '/' && k < '\U{10000}'
  }

  /** Every piece letter on the board reads back as written. */
  predicate EncodableBoard(b: Board) {
    forall r, c :: 0 <= r < |b| && 0 <= c < |b[r]| && b[r][c].Piece? ==> Encodable(b[r][c].kind)
  }

  /** Reading one encoded cell in front of the rest yields that cell, then the rest. */
  lemma ParseEncodedCell(x: Cell, rest: string, room: nat)
    requires room > 0
    ensures ParseCells(EncodeCell(x) + rest, room) == [x] + ParseCells(rest, room - 1)
  {
    var text := EncodeCell(x) + rest;
    match x
    case Empty =>
      assert text[0] == '1' && text[1..] == rest;
    case Piece(c, k) =>
      assert text[0] == ColorLetter(c) && text[1] == k && text[2..] == rest;
  }

  /** Reading back a row `boardToFEN` wrote yields that row. */
  lemma {:induction false} ParseEncodedCells(row: seq<Cell>, room: nat)
    requires |row| <= room
    requires forall c :: 0 <= c < |row| && row[c].Piece? ==> Encodable(row[c].kind)
    ensures ParseCells(EncodeRow(row), room) == row
  {
    if row != [] {
      ParseEncodedCells(row[1..], room - 1);
      ParseEncodedCell(row[0], EncodeRow(row[1..]), room);
    }
  }

  lemma {:induction false} EncodedRowSlashFree(row: seq<Cell>)
    requires forall c :: 0 <= c < |row| && row[c].Piece? ==> row[c].kind != '/'
    ensures '/' !in EncodeRow(row)
  {
    if row != [] {
      EncodedRowSlashFree(row[1..]);
    }
  }

  /** `parseFEN(boardToFEN(b)) == b` for every 8x8 board whose piece letters read back. */
  lemma ParseBoardToFEN(b: Board)
    requires ValidBoard(b) && EncodableBoard(b)
    ensures ParseFEN(BoardToFEN(b)) == b
  {
    var rows := EncodeRows(b);
    forall i | 0 <= i < |rows|
      ensures '/' !in rows[i]
    {
      EncodedRowOf(b, i);
      EncodedRowSlashFree(b[i]);
    }
    SplitJoin(rows, '/');
    var parsed := ParseFEN(BoardToFEN(b));
    forall i | 0 <= i < 8
      ensures parsed[i] == b[i]
    {
      EncodedRowOf(b, i);
      ParseEncodedCells(b[i], 8);
      assert ParseRow(rows[i])[..8] == ParseRow(rows[i]);
    }
  }

  lemma {:induction false} EncodedRowOf(b: Board, i: nat)
    requires i < |b|
    ensures EncodeRows(b)[i] == EncodeRow(b[i])
  {
    if i > 0 {
      EncodedRowOf(b[1..], i - 1);
    }
  }

  /** In particular every board of the six standard piece letters survives the round trip. */
  lemma ParseBoardToFENStandard(b: Board)
    requires ValidBoard(b)
    requires forall r, c :: 0 <= r < 8 && 0 <= c < 8 && b[r][c].Piece? ==> StandardKind(b[r][c].kind)
    ensures ParseFEN(BoardToFEN(b)) == b
  {
    ParseBoardToFEN(b);
  }
}
