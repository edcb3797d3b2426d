/**
  The board and move engine of `src/utils/chessEngine.js`: bounds, board
  copies with one cell replaced, king search, attack detection, check,
  per-piece move generation with the self-check filter, and move
  application with automatic promotion to a queen.

  There is no castling and no en passant. The engine's own colour test is
  `p[0] === "w"`; for a `Piece` that is `color == White`.
 */
module Engine {
  import opened Opt
  import opened Chess

  type Square = (int, int)

  predicate InBounds(r: int, c: int) {
    0 <= r < 8 && 0 <= c < 8
  }

  predicate OnBoard(s: Square) {
    InBounds(s.0, s.1)
  }

  /** The colour whose turn a `whiteToMove` flag denotes. */
  function Side(white: bool): Color {
    if white then White else Black
  }

  predicate IsOwn(x: Cell, side: Color) {
    x.Piece? && x.color == side
  }

  predicate IsEnemy(x: Cell, side: Color) {
    x.Piece? && x.color != side
  }

  /** The board with one cell replaced (a clone followed by one assignment). */
  function Put(b: Board, r: int, c: int, x: Cell): (b': Board)
    requires ValidBoard(b) && InBounds(r, c)
    ensures ValidBoard(b')
    ensures b'[r][c] == x
    ensures forall i, j :: InBounds(i, j) && (i, j) != (r, c) ==> b'[i][j] == b[i][j]
  {
    b[r := b[r][c := x]]
  }

  // ---------------------------------------------------------------- king search

  /** Row-major order: row by row, and left to right within a row. */
  predicate Before(a: Square, z: Square) {
    a.0 < z.0 || (a.0 == z.0 && a.1 < z.1)
  }

  /** The first cell equal to `x` at or after (r, c) in row-major order. */
  function FindFrom(b: Board, x: Cell, r: int, c: int): (k: Option<Square>)
    requires ValidBoard(b) && 0 <= r <= 8 && 0 <= c < 8
    ensures k.Some? ==> OnBoard(k.value) && b[k.value.0][k.value.1] == x && !Before(k.value, (r, c))
    ensures k.Some? ==> forall i, j :: InBounds(i, j) && !Before((i, j), (r, c)) && Before((i, j), k.value) ==> b[i][j] != x
    ensures k.None? ==> forall i, j :: InBounds(i, j) && !Before((i, j), (r, c)) ==> b[i][j] != x
    decreases 8 - r, 8 - c
  {
    if r == 8 then None
    else if b[r][c] == x then Some((r, c))
    else
      var next := if c == 7 then (r + 1, 0) else (r, c + 1);
      assert forall i, j :: InBounds(i, j) && !Before((i, j), (r, c)) ==> (i, j) == (r, c) || !Before((i, j), next);
      FindFrom(b, x, next.0, next.1)
  }

  /** `findKing`: the first square in row-major order holding the king of the given colour. */
  function FindKing(b: Board, white: bool): (k: Option<Square>)
    requires ValidBoard(b)
    ensures k.Some? ==> OnBoard(k.value) && b[k.value.0][k.value.1] == Piece(Side(white), KING)
    ensures k.Some? ==> forall i, j :: InBounds(i, j) && Before((i, j), k.value) ==> b[i][j] != Piece(Side(white), KING)
    ensures k.None? <==> forall i, j :: InBounds(i, j) ==> b[i][j] != Piece(Side(white), KING)
  {
    FindFrom(b, Piece(Side(white), KING), 0, 0)
  }

  // ---------------------------------------------------------------- geometry

  const KNIGHT_OFFSETS: seq<Square> := [(-2, -1), (-2, 1), (2, -1), (2, 1), (-1, -2), (-1, 2), (1, -2), (1, 2)]
  const DIAGONALS: seq<Square> := [(-1, -1), (-1, 1), (1, -1), (1, 1)]
  const STRAIGHTS: seq<Square> := [(-1, 0), (1, 0), (0, -1), (0, 1)]
  /** The king's eight neighbours; the queen walks the same eight directions in the same order. */
  const KING_DIRS: seq<Square> := [(-1, -1), (-1, 0), (-1, 1), (0, -1), (0, 1), (1, -1), (1, 0), (1, 1)]

  predicate IsDir(dr: int, dc: int) {
    -1 <= dr <= 1 && -1 <= dc <= 1 && (dr, dc) != (0, 0)
  }

  predicate AllDirs(dirs: seq<Square>) {
    forall i :: 0 <= i < |dirs| ==> IsDir(dirs[i].0, dirs[i].1)
  }

  /** `k` steps of the unit step `d` (which is -1, 0 or 1). */
  function Off(d: int, k: int): int {
    if d > 0 then k else if d < 0 then -k else 0
  }

  /** The square `k` steps from (r, c) in direction (dr, dc). */
  function Step(r: int, c: int, dr: int, dc: int, k: int): Square {
    (r + Off(dr, k), c + Off(dc, k))
  }

  predicate EmptyAt(b: Board, s: Square)
    requires ValidBoard(b)
  {
    OnBoard(s) && b[s.0][s.1] == Empty
  }

  /** Every square strictly between (r, c) and its `k`-th step along (dr, dc) is on the board and empty. */
  predicate Clear(b: Board, r: int, c: int, dr: int, dc: int, k: int)
    requires ValidBoard(b)
  {
    forall j :: 1 <= j < k ==> EmptyAt(b, Step(r, c, dr, dc, j))
  }

  /** A ray leaves the board within eight steps. */
  lemma StepLeavesBoard(r: int, c: int, dr: int, dc: int, k: int)
    requires InBounds(r, c) && IsDir(dr, dc) && k >= 8
    ensures !OnBoard(Step(r, c, dr, dc, k))
  {
  }

  // ---------------------------------------------------------------- attacks

  predicate PieceAt(b: Board, r: int, c: int, x: Cell)
    requires ValidBoard(b)
  {
    InBounds(r, c) && b[r][c] == x
  }

  /** Whether `x` stands on one of the squares (r, c) + offs[i]. */
  function JumpHolds(b: Board, r: int, c: int, offs: seq<Square>, x: Cell): bool
    requires ValidBoard(b)
  {
    if offs == [] then false
    else PieceAt(b, r + offs[0].0, c + offs[0].1, x) || JumpHolds(b, r, c, offs[1..], x)
  }

  /** The first occupied square at or beyond step `k` from (r, c) along (dr, dc). */
  function FirstOccupied(b: Board, r: int, c: int, dr: int, dc: int, k: nat): (s: Option<Square>)
    requires ValidBoard(b) && InBounds(r, c) && IsDir(dr, dc) && 1 <= k
    ensures s.Some? ==> OnBoard(s.value) && b[s.value.0][s.value.1] != Empty
    decreases 8 - k
  {
    var t := Step(r, c, dr, dc, k);
    if !OnBoard(t) then None
    else if b[t.0][t.1] != Empty then Some(t)
    else FirstOccupied(b, r, c, dr, dc, k + 1)
  }

  /**
    Whether the first piece met along one of the rays `dirs` from (r, c) is
    an `attacker` piece of kind `kind` or an `attacker` queen.
   */
  function RayHits(b: Board, r: int, c: int, dirs: seq<Square>, attacker: Color, kind: char): bool
    requires ValidBoard(b) && InBounds(r, c) && AllDirs(dirs)
  {
    if dirs == [] then false
    else
      var hit := FirstOccupied(b, r, c, dirs[0].0, dirs[0].1, 1);
      || (hit.Some? && b[hit.value.0][hit.value.1] in {Piece(attacker, kind), Piece(attacker, QUEEN)})
      || RayHits(b, r, c, dirs[1..], attacker, kind)
  }

  /**
    `attacked`: whether a piece of the `byWhite` colour attacks (r, c),
    checked as in the source from the target outwards: pawns (a White pawn
    on row r + 1, a Black pawn on row r - 1, one column either side),
    knights, bishop and queen along diagonals, rook and queen along files
    and ranks, and the king on the eight neighbours.
   */
  function Attacked(b: Board, r: int, c: int, byWhite: bool): bool
    requires ValidBoard(b) && InBounds(r, c)
  {
    var attacker := Side(byWhite);
    var pr := if byWhite then r + 1 else r - 1;
    || PieceAt(b, pr, c - 1, Piece(attacker, PAWN)) || PieceAt(b, pr, c + 1, Piece(attacker, PAWN))
    || JumpHolds(b, r, c, KNIGHT_OFFSETS, Piece(attacker, KNIGHT))
    || RayHits(b, r, c, DIAGONALS, attacker, BISHOP)
    || RayHits(b, r, c, STRAIGHTS, attacker, ROOK)
    || JumpHolds(b, r, c, KING_DIRS, Piece(attacker, KING))
  }

  /** `inCheck`: false without a king; otherwise whether the opponent attacks the king's square. */
  function InCheck(b: Board, white: bool): (r: bool)
    requires ValidBoard(b)
    ensures FindKing(b, white).None? ==> !r
    ensures r ==> exists kr, kc :: InBounds(kr, kc) && b[kr][kc] == Piece(Side(white), KING) && Attacked(b, kr, kc, !white)
  {
    match FindKing(b, white)
    case None => false
    case Some(k) => Attacked(b, k.0, k.1, !white)
  }

  // ---------------------------------------------------------------- moves

  /** The cell a piece becomes on reaching row `nr`: a pawn on the far rank becomes a queen. */
  function Promote(p: Cell, nr: int): Cell {
    if p == Piece(White, PAWN) && nr == 0 then Piece(White, QUEEN)
    else if p == Piece(Black, PAWN) && nr == 7 then Piece(Black, QUEEN)
    else p
  }

  /**
    `makeMove`: a new board with the piece from (r, c) on (nr, nc), the origin
    emptied, and promotion applied. The input board is a value and is not changed.
   */
  function MakeMove(b: Board, r: int, c: int, nr: int, nc: int): (nb: Board)
    requires ValidBoard(b) && InBounds(r, c) && InBounds(nr, nc)
    ensures ValidBoard(nb)
    ensures (r, c) != (nr, nc) ==> nb[r][c] == Empty && nb[nr][nc] == Promote(b[r][c], nr)
    ensures (r, c) == (nr, nc) ==> nb[r][c] == (if Promote(b[r][c], nr) != b[r][c] then Promote(b[r][c], nr) else Empty)
    ensures forall i, j :: InBounds(i, j) && (i, j) != (r, c) && (i, j) != (nr, nc) ==> nb[i][j] == b[i][j]
  {
    var p := b[r][c];
    var moved := Put(Put(b, nr, nc, p), r, c, Empty);
    if p == Piece(White, PAWN) && nr == 0 then Put(moved, nr, nc, Piece(White, QUEEN))
    else if p == Piece(Black, PAWN) && nr == 7 then Put(moved, nr, nc, Piece(Black, QUEEN))
    else moved
  }

  /**
    `kingInCheckAfter`: whether the mover is in check on the board the move
    produces. The source builds that board with the same four steps as
    `makeMove` (copy, place, empty the origin, promote).
   */
  function KingInCheckAfter(r: int, c: int, nr: int, nc: int, b: Board, whiteToMove: bool): bool
    requires ValidBoard(b) && InBounds(r, c) && InBounds(nr, nc)
  {
    InCheck(MakeMove(b, r, c, nr, nc), whiteToMove)
  }

  predicate AllOnBoard(s: seq<Square>) {
    forall i :: 0 <= i < |s| ==> OnBoard(s[i])
  }

  /** Squares (r, c) + offs[i] that are on the board and not held by `side`. */
  function Jumps(b: Board, side: Color, r: int, c: int, offs: seq<Square>): (s: seq<Square>)
    requires ValidBoard(b)
    ensures AllOnBoard(s)
    ensures forall t :: t in s ==> !IsOwn(b[t.0][t.1], side)
  {
    if offs == [] then []
    else
      var t := (r + offs[0].0, c + offs[0].1);
      var rest := Jumps(b, side, r, c, offs[1..]);
      if OnBoard(t) && !IsOwn(b[t.0][t.1], side) then [t] + rest else rest
  }

  /**
    The squares a slider of colour `side` on (r, c) reaches along (dr, dc)
    from step `k` on: empty squares up to the first occupied one, which is
    included only when it holds an enemy.
   */
  function Slide(b: Board, side: Color, r: int, c: int, dr: int, dc: int, k: nat): (s: seq<Square>)
    requires ValidBoard(b) && InBounds(r, c) && IsDir(dr, dc) && 1 <= k
    ensures AllOnBoard(s)
    decreases 8 - k
  {
    var t := Step(r, c, dr, dc, k);
    if !OnBoard(t) then []
    else if b[t.0][t.1] == Empty then [t] + Slide(b, side, r, c, dr, dc, k + 1)
    else if b[t.0][t.1].color != side then [t]
    else []
  }

  function Slides(b: Board, side: Color, r: int, c: int, dirs: seq<Square>): (s: seq<Square>)
    requires ValidBoard(b) && InBounds(r, c) && AllDirs(dirs)
    ensures AllOnBoard(s)
  {
    if dirs == [] then []
    else Slide(b, side, r, c, dirs[0].0, dirs[0].1, 1) + Slides(b, side, r, c, dirs[1..])
  }

  /** White pawns move towards row 0, Black pawns towards row 7. */
  function PawnDir(side: Color): int {
    if side == White then -1 else 1
  }

  function PawnStartRow(side: Color): int {
    if side == White then 6 else 1
  }

  function PawnCapture(b: Board, side: Color, nr: int, nc: int): (s: seq<Square>)
    requires ValidBoard(b)
  {
    if InBounds(nr, nc) && IsEnemy(b[nr][nc], side) then [(nr, nc)] else []
  }

  /** One step forward onto an empty square, two from the start row, diagonal captures. */
  function PawnMoves(b: Board, side: Color, r: int, c: int): (s: seq<Square>)
    requires ValidBoard(b) && InBounds(r, c)
    ensures AllOnBoard(s)
  {
    var dir := PawnDir(side);
    var nr := r + dir;
    var nr2 := r + 2 * dir;
    var forward :=
      if InBounds(nr, c) && b[nr][c] == Empty then
        [(nr, c)] + (if r == PawnStartRow(side) && InBounds(nr2, c) && b[nr2][c] == Empty then [(nr2, c)] else [])
      else [];
    forward + PawnCapture(b, side, nr, c - 1) + PawnCapture(b, side, nr, c + 1)
  }

  /** The moves the piece pattern allows before the self-check filter. */
  function PseudoMoves(b: Board, side: Color, kind: char, r: int, c: int): (s: seq<Square>)
    requires ValidBoard(b) && InBounds(r, c)
    ensures AllOnBoard(s)
  {
    if kind == PAWN then PawnMoves(b, side, r, c)
    else if kind == KNIGHT then Jumps(b, side, r, c, KNIGHT_OFFSETS)
    else if kind == BISHOP then Slides(b, side, r, c, DIAGONALS)
    else if kind == ROOK then Slides(b, side, r, c, STRAIGHTS)
    else if kind == QUEEN then Slides(b, side, r, c, KING_DIRS)
    else if kind == KING then Jumps(b, side, r, c, KING_DIRS)
    else []
  }

  /** The candidates whose move from (r, c) does not leave the mover in check, in order. */
  function LegalOnly(b: Board, r: int, c: int, whiteToMove: bool, cands: seq<Square>): (s: seq<Square>)
    requires ValidBoard(b) && InBounds(r, c) && AllOnBoard(cands)
    ensures AllOnBoard(s) && |s| <= |cands|
    ensures forall t :: t in s <==> t in cands && !KingInCheckAfter(r, c, t.0, t.1, b, whiteToMove)
  {
    if cands == [] then []
    else
      var rest := LegalOnly(b, r, c, whiteToMove, cands[1..]);
      assert forall t :: t in cands <==> t == cands[0] || t in cands[1..];
      if KingInCheckAfter(r, c, cands[0].0, cands[0].1, b, whiteToMove) then rest else [cands[0]] + rest
  }

  /**
    `getMoves`: the legal destinations of the piece on (r, c) when it is
    `whiteToMove`'s turn. Empty when the cell is empty or holds the other
    side's piece; every destination is on the board, not held by the mover,
    and leaves the mover out of check on the board `makeMove` produces.
   */
  function GetMoves(r: int, c: int, b: Board, whiteToMove: bool): (moves: seq<Square>)
    requires ValidBoard(b) && InBounds(r, c)
    ensures !IsOwn(b[r][c], Side(whiteToMove)) ==> moves == []
    ensures forall i :: 0 <= i < |moves| ==> OnBoard(moves[i]) && !IsOwn(b[moves[i].0][moves[i].1], Side(whiteToMove))
    ensures forall i :: 0 <= i < |moves| ==> OnBoard(moves[i]) && !InCheck(MakeMove(b, r, c, moves[i].0, moves[i].1), whiteToMove)
  {
    match b[r][c]
    case Empty => []
    case Piece(color, kind) =>
      if color != Side(whiteToMove) then []
      else
        var moves := LegalOnly(b, r, c, whiteToMove, PseudoMoves(b, color, kind, r, c));
        LegalCandidates(b, r, c, whiteToMove, kind, moves);
        moves
  }

  /** The filtered candidates of the mover's piece are on the board, not the mover's own, and leave it out of check. */
  lemma LegalCandidates(b: Board, r: int, c: int, whiteToMove: bool, kind: char, moves: seq<Square>)
    requires ValidBoard(b) && InBounds(r, c)
    requires moves == LegalOnly(b, r, c, whiteToMove, PseudoMoves(b, Side(whiteToMove), kind, r, c))
    ensures forall i :: 0 <= i < |moves| ==> OnBoard(moves[i]) && !IsOwn(b[moves[i].0][moves[i].1], Side(whiteToMove))
    ensures forall i :: 0 <= i < |moves| ==> OnBoard(moves[i]) && !InCheck(MakeMove(b, r, c, moves[i].0, moves[i].1), whiteToMove)
  {
    var cands := PseudoMoves(b, Side(whiteToMove), kind, r, c);
    PseudoTargetsNotOwn(b, Side(whiteToMove), kind, r, c);
    forall i | 0 <= i < |moves|
      ensures moves[i] in cands && !KingInCheckAfter(r, c, moves[i].0, moves[i].1, b, whiteToMove)
    {
      assert moves[i] in moves;
    }
  }

  /** No pattern ever offers a square held by the mover. */
  lemma PseudoTargetsNotOwn(b: Board, side: Color, kind: char, r: int, c: int)
    requires ValidBoard(b) && InBounds(r, c)
    ensures forall t :: t in PseudoMoves(b, side, kind, r, c) ==> !IsOwn(b[t.0][t.1], side)
  {
    if kind == PAWN {
      PawnTargetsNotOwn(b, side, r, c);
    } else if kind == BISHOP {
      SlidesNotOwn(b, side, r, c, DIAGONALS);
    } else if kind == ROOK {
      SlidesNotOwn(b, side, r, c, STRAIGHTS);
    } else if kind == QUEEN {
      SlidesNotOwn(b, side, r, c, KING_DIRS);
    }
  }

  lemma PawnTargetsNotOwn(b: Board, side: Color, r: int, c: int)
    requires ValidBoard(b) && InBounds(r, c)
    ensures forall t :: t in PawnMoves(b, side, r, c) ==> !IsOwn(b[t.0][t.1], side)
  {
  }

  lemma {:induction false} SlideNotOwn(b: Board, side: Color, r: int, c: int, dr: int, dc: int, k: nat)
    requires ValidBoard(b) && InBounds(r, c) && IsDir(dr, dc) && 1 <= k
    ensures forall t :: t in Slide(b, side, r, c, dr, dc, k) ==> !IsOwn(b[t.0][t.1], side)
    decreases 8 - k
  {
    var t := Step(r, c, dr, dc, k);
    if OnBoard(t) && b[t.0][t.1] == Empty {
      SlideNotOwn(b, side, r, c, dr, dc, k + 1);
    }
  }

  lemma {:induction false} SlidesNotOwn(b: Board, side: Color, r: int, c: int, dirs: seq<Square>)
    requires ValidBoard(b) && InBounds(r, c) && AllDirs(dirs)
    ensures forall t :: t in Slides(b, side, r, c, dirs) ==> !IsOwn(b[t.0][t.1], side)
  {
    if dirs != [] {
      SlideNotOwn(b, side, r, c, dirs[0].0, dirs[0].1, 1);
      SlidesNotOwn(b, side, r, c, dirs[1..]);
    }
  }
}
