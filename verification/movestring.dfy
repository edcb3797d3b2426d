/**
  The move string client and server exchange, "fromRow,fromCol->toRow,toCol",
  and the server's format check of it in the `makeMove` handler of
  `server/server.js`.
 */
module MoveString {
  import opened Opt
  import opened Text

  datatype Coords = Coords(fromRow: nat, fromCol: nat, toRow: nat, toCol: nat)

  predicate OnBoardCoords(c: Coords) {
    c.fromRow <= 7 && c.fromCol <= 7 && c.toRow <= 7 && c.toCol <= 7
  }

  /** `Number(part)` for the i-th part, NaN (None) when there is no such part. */
  function NumberAt(parts: seq<string>, i: nat): Option<nat> {
    if i < |parts| then JsNumber(parts[i]) else None
  }

  /** `half.split(',').map(Number)`, keeping the first two numbers. */
  function SquareNumbers(half: string): (Option<nat>, Option<nat>) {
    var parts := Split(half, ",");
    (NumberAt(parts, 0), NumberAt(parts, 1))
  }

  /** Both numbers of a half, when neither is NaN. */
  function ParseSquare(half: string): (r: Option<(nat, nat)>)
  {
    var (row, col) := SquareNumbers(half);
    if row.Some? && col.Some? then Some((row.value, col.value)) else None
  }

  /**
    The format check of the `makeMove` handler. `None` stands for a payload
    that is not a string, on which `move.split` throws; the catch path treats
    it like a malformed move. Otherwise the text is cut at "->", both halves
    must be non-empty, each half is cut at "," and the first two numbers of
    each must be 0..7.
   */
  function ParseMove(move: Option<string>): (r: Option<Coords>)
    ensures r.Some? ==> OnBoardCoords(r.value)
    ensures move.None? ==> r.None?
  {
    if move.None? then None
    else
      var halves := Split(move.value, "->");
      var from := halves[0];
      var to := if |halves| >= 2 then halves[1] else "";
      if from == "" || to == "" then None
      else
        match (ParseSquare(from), ParseSquare(to))
        case (Some((fr, fc)), Some((tr, tc))) =>
          if fr <= 7 && fc <= 7 && tr <= 7 && tc <= 7 then Some(Coords(fr, fc, tr, tc)) else None
        case _ => None
  }

  /** The client's move string, `${fromRow},${fromCol}->${toRow},${toCol}`. */
  function FormatMove(c: Coords): string {
    SquareText(c.fromRow, c.fromCol) + "->" + SquareText(c.toRow, c.toCol)
  }

  function SquareText(row: nat, col: nat): string {
    NatToString(row) + "," + NatToString(col)
  }

  lemma DigitsFree(s: string, ch: char)
    requires AllDigits(s) && !IsDigit(ch)
    ensures ch !in s
  {
  }

  /** The numbers of a "row,col" half are read back. */
  lemma SquareNumbersOfText(row: nat, col: nat)
    ensures SquareNumbers(SquareText(row, col)) == (Some(row), Some(col))
  {
    var x, y := NatToString(row), NatToString(col);
    DigitsFree(x, ',');
    DigitsFree(y, ',');
    SplitAfterPrefix(x, ",", y);
    SplitWithoutSeparator(y, ",");
    JsNumberOfNatToString(row);
    JsNumberOfNatToString(col);
  }

  lemma ParseSquareText(row: nat, col: nat)
    ensures ParseSquare(SquareText(row, col)) == Some((row, col))
    ensures SquareText(row, col) != "" && '-' !in SquareText(row, col)
  {
    SquareNumbersOfText(row, col);
    DigitsFree(NatToString(row), '-');
    DigitsFree(NatToString(col), '-');
  }

  /**
    The move string the client writes is parsed back to its coordinates
    exactly when they are all on the board; otherwise it is illegal.
   */
  lemma ParseFormatMove(c: Coords)
    ensures ParseMove(Some(FormatMove(c))) == if OnBoardCoords(c) then Some(c) else None
  {
    var from, to := SquareText(c.fromRow, c.fromCol), SquareText(c.toRow, c.toCol);
    ParseSquareText(c.fromRow, c.fromCol);
    ParseSquareText(c.toRow, c.toCol);
    SplitAfterPrefix(from, "->", to);
    SplitWithoutSeparator(to, "->");
    assert Split(FormatMove(c), "->") == [from, to];
  }

  /** A move without "->", or with nothing on one side of it, is malformed. */
  lemma ParseMoveNeedsArrow(s: string)
    requires '-' !in s
    ensures ParseMove(Some(s)).None?
  {
    SplitWithoutSeparator(s, "->");
  }
}
