/**
  The move list of the client: the history entries the store keeps, and the
  grouping loop of `src/components/MoveHistory.jsx` that pairs them into
  numbered turns (white's move, then black's) and reads each entry's move
  string back into square names.
 */
module MoveHistory {
  import opened Opt
  import opened Text
  import opened Chess
  import opened Notation
  import opened MoveString

  /**
    One history entry. `turn` is absent on black's moves, `inCheck` on
    entries written by `applyMove`; `captured` is the captured cell, absent
    when nothing was taken.
   */
  datatype Entry = Entry(move: string, notation: string, turn: Option<nat>, inCheck: Option<bool>, captured: Option<Cell>)

  /** What the list shows for one entry. */
  datatype Details = Details(from: string, to: string, notation: string, full: string, inCheck: bool, captured: Option<Cell>)

  /** One row of the list: a turn number with white's and black's move. */
  datatype Group = Group(turn: nat, white: Option<Details>, black: Option<Details>)

  /**
    What the list puts between the two squares. The component's source file
    holds the UTF-8 bytes of a right arrow read back as Windows-1252 text, so
    the literal is the three characters U+00E2 U+2020 U+2019 ("â†’"), not
    the one character U+2192.
   */
  const ARROW := "\U{00E2}\U{2020}\U{2019}"

  function AsInt(o: Option<nat>): Option<int> {
    if o.Some? then Some(o.value) else None
  }

  /** `[row, col] = half.split(',').map(Number)`, then `files[col] + ranks[row]`. */
  function HalfSquare(half: string): string {
    var (row, col) := SquareNumbers(half);
    SquareName(AsInt(row), AsInt(col))
  }

  /** The two halves of a move string around "->", a missing second half read as "". */
  function Halves(move: string): (string, string) {
    var halves := Split(move, "->");
    (halves[0], if |halves| >= 2 then halves[1] else "")
  }

  /**
    `getMoveDetails`: nothing for an empty move string or one without a
    non-empty part on each side of "->"; otherwise the two square names, the
    entry's notation, check flag (false when absent) and captured piece.
   */
  function GetMoveDetails(e: Entry): (d: Option<Details>)
    ensures d.Some? ==> d.value.notation == e.notation && d.value.captured == e.captured
    ensures d.Some? ==> (d.value.inCheck <==> e.inCheck == Some(true))
    ensures d.Some? ==> d.value.full == d.value.from + ARROW + d.value.to
  {
    var (from, to) := Halves(e.move);
    if e.move == "" || from == "" || to == "" then None
    else
      var f, t := HalfSquare(from), HalfSquare(to);
      Some(Details(f, t, e.notation, f + ARROW + t, e.inCheck == Some(true), e.captured))
  }

  lemma HalvesOfFormattedMove(c: Coords)
    ensures Halves(FormatMove(c)) == (SquareText(c.fromRow, c.fromCol), SquareText(c.toRow, c.toCol))
  {
    var from, to := SquareText(c.fromRow, c.fromCol), SquareText(c.toRow, c.toCol);
    ParseSquareText(c.fromRow, c.fromCol);
    ParseSquareText(c.toRow, c.toCol);
    SplitAfterPrefix(from, "->", to);
    SplitWithoutSeparator(to, "->");
  }

  /** The half "row,col" of an on-board square names that square. */
  lemma HalfSquareOfText(row: nat, col: nat)
    requires row < 8 && col < 8
    ensures HalfSquare(SquareText(row, col)) == [FILES[col], RANKS[row]]
  {
    SquareNumbersOfText(row, col);
    assert HalfSquare(SquareText(row, col)) == SquareName(Some(row), Some(col));
    SquareNameOnBoard(row, col);
  }

  /** An entry whose move string has two non-empty halves shows their squares. */
  lemma DetailsOfHalves(e: Entry, from: string, to: string)
    requires Halves(e.move) == (from, to) && from != "" && to != ""
    ensures GetMoveDetails(e) == Some(Details(HalfSquare(from), HalfSquare(to), e.notation,
      HalfSquare(from) + ARROW + HalfSquare(to), e.inCheck == Some(true), e.captured))
  {
  }

  /**
    An entry holding the move string of an on-board move shows the two
    squares in file-rank form.
   */
  lemma DetailsOfFormattedMove(c: Coords, notation: string, turn: Option<nat>, inCheck: Option<bool>, captured: Option<Cell>)
    requires OnBoardCoords(c)
    ensures var d := GetMoveDetails(Entry(FormatMove(c), notation, turn, inCheck, captured));
            && d.Some?
            && d.value.from == [FILES[c.fromCol], RANKS[c.fromRow]]
            && d.value.to == [FILES[c.toCol], RANKS[c.toRow]]
  {
    var from, to := SquareText(c.fromRow, c.fromCol), SquareText(c.toRow, c.toCol);
    HalvesOfFormattedMove(c);
    DetailsOfHalves(Entry(FormatMove(c), notation, turn, inCheck, captured), from, to);
    HalfSquareOfText(c.fromRow, c.fromCol);
    HalfSquareOfText(c.toRow, c.toCol);
  }

  /** A move string without "->" shows nothing. */
  lemma NoArrowNoDetails(e: Entry)
    requires '-' !in e.move
    ensures GetMoveDetails(e).None?
  {
    SplitWithoutSeparator(e.move, "->");
  }

  // ---------------------------------------------------------------- grouping

  /** `whiteMove?.turn || Math.floor(i / 2) + 1` for group k (i = 2k). */
  function TurnLabel(moves: seq<Entry>, k: nat): nat
    requires 2 * k < |moves|
  {
    var t := moves[2 * k].turn;
    if t.Some? && t.value != 0 then t.value else k + 1
  }

  /** Group k of the list: entry 2k as white, entry 2k+1 (if any) as black. */
  function GroupAt(moves: seq<Entry>, k: nat): Group
    requires 2 * k < |moves|
  {
    Group(TurnLabel(moves, k), GetMoveDetails(moves[2 * k]), if 2 * k + 1 < |moves| then GetMoveDetails(moves[2 * k + 1]) else None)
  }

  /**
    Every entry is shown in exactly one group: entry i in group i/2, as
    white's move when i is even and as black's when it is odd; a group with
    no second entry shows no black move.
   */
  lemma EntryShownInItsGroup(moves: seq<Entry>, i: nat)
    requires i < |moves|
    ensures 2 * (i / 2) < |moves|
    ensures i % 2 == 0 ==> GroupAt(moves, i / 2).white == GetMoveDetails(moves[i])
    ensures i % 2 == 1 ==> GroupAt(moves, i / 2).black == GetMoveDetails(moves[i])
    ensures i % 2 == 0 && i + 1 == |moves| ==> GroupAt(moves, i / 2).black == None
  {
    var k := i / 2;
    if i % 2 == 0 {
      assert 2 * k == i;
      assert moves[2 * k] == moves[i];
    } else {
      assert 2 * k + 1 == i;
      assert moves[2 * k + 1] == moves[i];
    }
  }

  /**
    The grouping loop: group k pairs entry 2k (white) with entry 2k+1
    (black, absent past the end); there are ceil(n/2) groups and every entry
    is shown in exactly one of them.
   */
  method GroupMoves(moves: seq<Entry>) returns (groups: seq<Group>)
    ensures |groups| == (|moves| + 1) / 2
    ensures forall k :: 0 <= k < |groups| ==> 2 * k < |moves| && groups[k] == GroupAt(moves, k)
  {
    groups := [];
    var i := 0;
    while i < |moves|
      invariant i == 2 * |groups| && i <= |moves| + 1
      invariant forall k :: 0 <= k < |groups| ==> 2 * k < |moves|
      invariant forall k {:trigger groups[k]} :: 0 <= k < |groups| ==> groups[k] == GroupAt(moves, k)
    {
      groups := groups + [GroupAt(moves, |groups|)];
      i := i + 2;
    }
  }
}
