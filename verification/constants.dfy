/**
  The data every other module shares: colours, cells, the 8x8 board and the
  fixed tables of `src/utils/constants.js`.

  In the source a cell is the string "." or a two-character code such as
  "wK" (colour letter, piece letter). Here a cell is `Empty` or a `Piece`
  with a colour and the raw piece letter: the letter stays a `char` because
  the board parser accepts any character after a colour letter.
 */
module Chess {
  datatype Color = White | Black

  function Opponent(c: Color): Color {
    if c == White then Black else White
  }

  datatype Cell = Empty | Piece(color: Color, kind: char)

  /** Row 0 is rank 8 (Black's back rank), row 7 is rank 1 (White's back rank). */
  type Board = seq<seq<Cell>>

  predicate ValidBoard(b: Board) {
    |b| == 8 && forall r :: 0 <= r < 8 ==> |b[r]| == 8
  }

  const PAWN := 'P'
  const KNIGHT := 'N'
  const BISHOP := 'B'
  const ROOK := 'R'
  const QUEEN := 'Q'
  const KING := 'K'

  /** The six piece letters the engine gives moves to. */
  predicate StandardKind(k: char) {
    k == PAWN || k == KNIGHT || k == BISHOP || k == ROOK || k == QUEEN || k == KING
  }

  function W(k: char): Cell { Piece(White, k) }
  function B(k: char): Cell { Piece(Black, k) }

  const EMPTY_ROW: seq<Cell> := [Empty, Empty, Empty, Empty, Empty, Empty, Empty, Empty]

  /** The standard starting position. */
  const INITIAL_BOARD: Board := [
    [B(ROOK), B(KNIGHT), B(BISHOP), B(QUEEN), B(KING), B(BISHOP), B(KNIGHT), B(ROOK)],
    [B(PAWN), B(PAWN), B(PAWN), B(PAWN), B(PAWN), B(PAWN), B(PAWN), B(PAWN)],
    EMPTY_ROW,
    EMPTY_ROW,
    EMPTY_ROW,
    EMPTY_ROW,
    [W(PAWN), W(PAWN), W(PAWN), W(PAWN), W(PAWN), W(PAWN), W(PAWN), W(PAWN)],
    [W(ROOK), W(KNIGHT), W(BISHOP), W(QUEEN), W(KING), W(BISHOP), W(KNIGHT), W(ROOK)]
  ]

  /** The time controls offered, each "minutes+incrementSeconds". */
  const VALID_TIME_CONTROLS: seq<string> := ["15+10", "5+3", "2+1"]

  /** The starting position is an 8x8 board. */
  lemma InitialBoardIsValid()
    ensures ValidBoard(INITIAL_BOARD)
  {
  }

  /** Exactly one king per colour: White's on (7, 4), Black's on (0, 4). */
  lemma InitialKings()
    ensures forall r, c :: 0 <= r < 8 && 0 <= c < 8 ==>
      (INITIAL_BOARD[r][c] == W(KING) <==> (r, c) == (7, 4))
    ensures forall r, c :: 0 <= r < 8 && 0 <= c < 8 ==>
      (INITIAL_BOARD[r][c] == B(KING) <==> (r, c) == (0, 4))
  {
  }

  /**
    White pawns fill row 6 and Black pawns row 1, the rows from which the move
    generator allows the two-square step; rows 2 to 5 are empty.
   */
  lemma InitialPawnsAndEmptyMiddle()
    ensures forall c :: 0 <= c < 8 ==> INITIAL_BOARD[6][c] == W(PAWN) && INITIAL_BOARD[1][c] == B(PAWN)
    ensures forall r, c :: 2 <= r <= 5 && 0 <= c < 8 ==> INITIAL_BOARD[r][c] == Empty
    ensures forall r, c :: 0 <= r < 8 && 0 <= c < 8 && INITIAL_BOARD[r][c] != Empty ==>
      (INITIAL_BOARD[r][c].color == Black <==> r <= 1)
  {
  }
}
