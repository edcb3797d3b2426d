/**
  The end-of-game rules layered on the engine: checkmate and stalemate
  (a row-major scan of the mover's pieces), insufficient material, the
  threefold-repetition tracker and the order in which the client's draw
  evaluation tries them.
 */
module Rules {
  import opened Opt
  import opened Chess
  import opened Engine
  import opened EngineSpec
  import opened Fen
  import opened Counter

  /** The piece on (r, c) has a destination `getMoves` offers. */
  predicate CanMove(b: Board, whiteToMove: bool, r: int, c: int)
    requires ValidBoard(b) && InBounds(r, c)
  {
    GetMoves(r, c, b, whiteToMove) != []
  }

  /** Some piece of the side to move has a destination `getMoves` offers. */
  ghost predicate HasLegalMove(b: Board, whiteToMove: bool)
    requires ValidBoard(b)
  {
    exists r, c :: InBounds(r, c) && CanMove(b, whiteToMove, r, c)
  }

  /**
    For each square, whether the scan of `isCheckmate` and `isStalemate`
    finds a move there: empty squares and the other side's pieces are
    skipped, the mover's pieces are asked for `getMoves`. Skipping loses
    nothing, since only the mover's pieces have moves.
   */
  function Mobility(b: Board, whiteToMove: bool): (m: seq<seq<bool>>)
    requires ValidBoard(b)
    ensures |m| == 8 && forall r :: 0 <= r < 8 ==> |m[r]| == 8
    ensures forall r, c :: InBounds(r, c) ==> m[r][c] == CanMove(b, whiteToMove, r, c)
  {
    OnlyOwnPiecesMove(b, whiteToMove);
    seq(8, r requires 0 <= r < 8 => seq(8, c requires 0 <= c < 8 => IsOwn(b[r][c], Side(whiteToMove)) && CanMove(b, whiteToMove, r, c)))
  }

  /** The scan itself, from (r, c) on in row-major order, stopping at the first square with a move. */
  function NoMovesFrom(m: seq<seq<bool>>, r: int, c: int): bool
    requires |m| == 8 && (forall i :: 0 <= i < 8 ==> |m[i]| == 8) && 0 <= r <= 8 && 0 <= c < 8
    decreases 8 - r, 8 - c
  {
    if r == 8 then true
    else if m[r][c] then false
    else if c == 7 then NoMovesFrom(m, r + 1, 0)
    else NoMovesFrom(m, r, c + 1)
  }

  /** Only the mover's own pieces can have moves. */
  lemma OnlyOwnPiecesMove(b: Board, whiteToMove: bool)
    requires ValidBoard(b)
    ensures forall r, c :: InBounds(r, c) && CanMove(b, whiteToMove, r, c) ==> IsOwn(b[r][c], Side(whiteToMove))
  {
    forall r, c | InBounds(r, c) && !IsOwn(b[r][c], Side(whiteToMove))
      ensures !CanMove(b, whiteToMove, r, c)
    {
      assert GetMoves(r, c, b, whiteToMove) == [];
    }
  }

  /** The scan from (r, c) succeeds exactly when no square at or after (r, c) is marked. */
  lemma {:induction false} NoMovesFromSpec(m: seq<seq<bool>>, r: int, c: int)
    requires |m| == 8 && (forall i :: 0 <= i < 8 ==> |m[i]| == 8) && 0 <= r <= 8 && 0 <= c < 8
    ensures NoMovesFrom(m, r, c) <==> forall i, j :: InBounds(i, j) && !Before((i, j), (r, c)) ==> !m[i][j]
    decreases 8 - r, 8 - c
  {
    if r < 8 {
      if c == 7 {
        NoMovesFromSpec(m, r + 1, 0);
      } else {
        NoMovesFromSpec(m, r, c + 1);
      }
    }
  }

  /** The scan from the first square succeeds exactly when no square is marked. */
  lemma ScanFromStart(m: seq<seq<bool>>)
    requires |m| == 8 && (forall i :: 0 <= i < 8 ==> |m[i]| == 8)
    ensures NoMovesFrom(m, 0, 0) <==> forall i, j :: InBounds(i, j) ==> !m[i][j]
  {
    NoMovesFromSpec(m, 0, 0);
    assert forall i, j :: InBounds(i, j) ==> !Before((i, j), (0, 0));
  }

  /** A scan that finds nothing means no piece of the side to move has a move. */
  lemma ScanMissesNothing(b: Board, whiteToMove: bool)
    requires ValidBoard(b)
    ensures NoMovesFrom(Mobility(b, whiteToMove), 0, 0) ==> !HasLegalMove(b, whiteToMove)
  {
    var m := Mobility(b, whiteToMove);
    ScanFromStart(m);
    if NoMovesFrom(m, 0, 0) {
      forall r, c | InBounds(r, c)
        ensures !CanMove(b, whiteToMove, r, c)
      {
        assert !m[r][c];
      }
    }
  }

  /** With no piece able to move, the scan finds nothing. */
  lemma ScanFindsNothing(b: Board, whiteToMove: bool)
    requires ValidBoard(b)
    ensures !HasLegalMove(b, whiteToMove) ==> NoMovesFrom(Mobility(b, whiteToMove), 0, 0)
  {
    ScanFromStart(Mobility(b, whiteToMove));
  }

  lemma NoMovesIffNoLegalMove(b: Board, whiteToMove: bool)
    requires ValidBoard(b)
    ensures NoMovesFrom(Mobility(b, whiteToMove), 0, 0) <==> !HasLegalMove(b, whiteToMove)
  {
    ScanMissesNothing(b, whiteToMove);
    ScanFindsNothing(b, whiteToMove);
  }

  /** `isCheckmate`: in check, and no piece of the side to move has a move. */
  function IsCheckmate(b: Board, whiteToMove: bool): (mate: bool)
    requires ValidBoard(b)
    ensures mate <==> InCheck(b, whiteToMove) && !HasLegalMove(b, whiteToMove)
  {
    NoMovesIffNoLegalMove(b, whiteToMove);
    if !InCheck(b, whiteToMove) then false
    else NoMovesFrom(Mobility(b, whiteToMove), 0, 0)
  }

  /** `isStalemate`: no piece of the side to move has a move, and that side is not in check. */
  function IsStalemate(b: Board, whiteToMove: bool): (stale: bool)
    requires ValidBoard(b)
    ensures stale <==> !HasLegalMove(b, whiteToMove) && !InCheck(b, whiteToMove)
  {
    NoMovesIffNoLegalMove(b, whiteToMove);
    if !NoMovesFrom(Mobility(b, whiteToMove), 0, 0) then false
    else !InCheck(b, whiteToMove)
  }

  /** A position is never both checkmate and stalemate. */
  lemma MateAndStalemateExclusive(b: Board, whiteToMove: bool)
    requires ValidBoard(b)
    ensures !(IsCheckmate(b, whiteToMove) && IsStalemate(b, whiteToMove))
  {
  }

  /** Without a king of the side to move there is no check and hence no checkmate. */
  lemma NoKingNoMate(b: Board, whiteToMove: bool)
    requires ValidBoard(b) && FindKing(b, whiteToMove).None?
    ensures !IsCheckmate(b, whiteToMove)
  {
  }

  /**
    Checkmate in terms of the piece rules: the side is in check and every
    move the rules allow any of its pieces leaves it in check.
   */
  lemma CheckmateByRules(b: Board, whiteToMove: bool)
    requires ValidBoard(b)
    ensures IsCheckmate(b, whiteToMove) <==>
      && InCheck(b, whiteToMove)
      && forall r, c, nr, nc ::
           (InBounds(r, c) && IsOwn(b[r][c], Side(whiteToMove)) && PatternAllows(b, Side(whiteToMove), b[r][c].kind, r, c, nr, nc))
           ==> InCheck(MakeMove(b, r, c, nr, nc), whiteToMove)
  {
    var side := Side(whiteToMove);
    if HasLegalMove(b, whiteToMove) {
      var r, c :| InBounds(r, c) && CanMove(b, whiteToMove, r, c);
      var t := GetMoves(r, c, b, whiteToMove)[0];
      GetMovesMatchesRules(b, r, c, whiteToMove, t.0, t.1);
    }
    if exists r, c, nr, nc :: InBounds(r, c) && IsOwn(b[r][c], side)
         && PatternAllows(b, side, b[r][c].kind, r, c, nr, nc) && !InCheck(MakeMove(b, r, c, nr, nc), whiteToMove)
    {
      var r, c, nr, nc :| InBounds(r, c) && IsOwn(b[r][c], side)
         && PatternAllows(b, side, b[r][c].kind, r, c, nr, nc) && !InCheck(MakeMove(b, r, c, nr, nc), whiteToMove);
      GetMovesMatchesRules(b, r, c, whiteToMove, nr, nc);
      assert GetMoves(r, c, b, whiteToMove) != [];
    }
  }

  // ---------------------------------------------------------------- material

  /** The board's cells in row-major order. */
  function Flatten(b: Board): seq<Cell> {
    if b == [] then [] else b[0] + Flatten(b[1..])
  }

  function NonEmpty(cells: seq<Cell>): (ps: seq<Cell>)
    ensures Empty !in ps
    ensures forall x :: x != Empty ==> multiset(ps)[x] == multiset(cells)[x]
  {
    if cells == [] then []
    else
      assert cells == [cells[0]] + cells[1..];
      if cells[0] == Empty then NonEmpty(cells[1..]) else [cells[0]] + NonEmpty(cells[1..])
  }

  /** The `pieces` list of `isInsufficientMaterial`: every occupied cell, in row-major order. */
  function Pieces(b: Board): (ps: seq<Cell>)
    ensures Empty !in ps
    ensures forall x :: x != Empty ==> multiset(ps)[x] == multiset(Flatten(b))[x]
  {
    NonEmpty(Flatten(b))
  }

  lemma {:induction false} FlattenHas(b: Board, r: nat, c: nat)
    requires r < |b| && c < |b[r]|
    ensures b[r][c] in Flatten(b)
  {
    if r == 0 {
      assert Flatten(b)[c] == b[0][c];
    } else {
      FlattenHas(b[1..], r - 1, c);
    }
  }

  lemma {:induction false} FlattenFrom(b: Board, x: Cell)
    requires x in Flatten(b)
    ensures exists r, c :: 0 <= r < |b| && 0 <= c < |b[r]| && b[r][c] == x
  {
    if x in b[0] {
      var c :| 0 <= c < |b[0]| && b[0][c] == x;
    } else {
      FlattenFrom(b[1..], x);
      var r, c :| 0 <= r < |b[1..]| && 0 <= c < |b[1..][r]| && b[1..][r][c] == x;
      assert b[r + 1][c] == x;
    }
  }

  /** A piece is in the list exactly when it stands somewhere on the board. */
  lemma PiecesMembers(b: Board, x: Cell)
    ensures x in Pieces(b) <==> x != Empty && exists r, c :: 0 <= r < |b| && 0 <= c < |b[r]| && b[r][c] == x
  {
    if x in Pieces(b) {
      assert multiset(Pieces(b))[x] > 0;
      assert x in multiset(Flatten(b));
      FlattenFrom(b, x);
    }
    if x != Empty && exists r, c :: 0 <= r < |b| && 0 <= c < |b[r]| && b[r][c] == x {
      var r, c :| 0 <= r < |b| && 0 <= c < |b[r]| && b[r][c] == x;
      FlattenHas(b, r, c);
      assert multiset(Flatten(b))[x] > 0;
      assert x in multiset(Pieces(b));
    }
  }

  /** A knight or bishop of either colour. */
  predicate IsMinor(x: Cell) {
    x in {W(KNIGHT), W(BISHOP), B(KNIGHT), B(BISHOP)}
  }

  /**
    `isInsufficientMaterial`: exactly two pieces on the board (the two
    kings, in any legal position), or exactly three of which one is a knight
    or bishop. Only the count and the minor piece are looked at.
   */
  function IsInsufficientMaterial(b: Board): (r: bool)
    ensures r <==> |Pieces(b)| == 2 || (|Pieces(b)| == 3 && exists x :: x in Pieces(b) && IsMinor(x))
  {
    var ps := Pieces(b);
    if |ps| == 2 then true
    else if |ps| == 3 then W(KNIGHT) in ps || W(BISHOP) in ps || B(KNIGHT) in ps || B(BISHOP) in ps
    else false
  }

  // ---------------------------------------------------------------- repetition

  /** `RepetitionTracker`: how often each position fingerprint has been seen. */
  type Tracker = Counts

  const FRESH_TRACKER: Tracker := map[]

  /** `isThreefold`: some fingerprint has been seen at least three times. */
  predicate IsThreefold(t: Tracker) {
    exists k :: k in t && t[k] >= 3
  }

  /** `updateRepetition`. */
  function UpdateRepetition(t: Tracker, fen: string): (t': Tracker)
    ensures Count(t', fen) == Count(t, fen) + 1
    ensures forall k :: k != fen ==> Count(t', k) == Count(t, k)
  {
    Bump(t, fen)
  }

  /** A fresh (or reset) tracker is not threefold. */
  lemma FreshNotThreefold()
    ensures !IsThreefold(FRESH_TRACKER)
  {
  }

  /** An update makes the tracker threefold exactly when it already was, or this fingerprint had been seen twice. */
  lemma ThreefoldAfterUpdate(t: Tracker, fen: string)
    ensures IsThreefold(UpdateRepetition(t, fen)) <==> IsThreefold(t) || Count(t, fen) >= 2
  {
    var t' := UpdateRepetition(t, fen);
    if IsThreefold(t') {
      var k :| k in t' && t'[k] >= 3;
      assert Count(t', k) >= 3;
      if k != fen {
        assert Count(t, k) >= 3;
        assert k in t;
      }
    }
    if IsThreefold(t) {
      var k :| k in t && t[k] >= 3;
      assert Count(t', k) >= Count(t, k);
      assert k in t';
    }
    if Count(t, fen) >= 2 {
      assert fen in t' && t'[fen] >= 3;
    }
  }

  // ---------------------------------------------------------------- evaluateDraw

  datatype DrawReason = Repetition | Insufficient | Stalemate

  /** The reason strings sent with the "1/2-1/2" result. */
  function ReasonText(d: DrawReason): string {
    match d
    case Repetition => "Threefold repetition"
    case Insufficient => "Insufficient material"
    case Stalemate => "Stalemate"
  }

  const DRAW_RESULT := "1/2-1/2"

  /** The tracker after the call and the draw reported, if any (the function's return value is `reason.Some?`). */
  datatype DrawCheck = DrawCheck(tracker: Tracker, reason: Option<DrawReason>)

  /**
    `evaluateDraw`. Without a connection or with an empty game code nothing
    happens. Otherwise the board's fingerprint (its `boardToFEN` string) is
    recorded once, and then the first of threefold repetition, insufficient
    material and stalemate that holds is reported.
   */
  function EvaluateDraw(b: Board, whiteToMove: bool, t: Tracker, gameCode: Option<string>, connected: bool): (out: DrawCheck)
    requires ValidBoard(b)
    ensures !connected || gameCode.None? || gameCode == Some("") ==> out == DrawCheck(t, None)
    ensures connected && gameCode.Some? && gameCode != Some("") ==>
      && Count(out.tracker, BoardToFEN(b)) == Count(t, BoardToFEN(b)) + 1
      && (forall k :: k != BoardToFEN(b) ==> Count(out.tracker, k) == Count(t, k))
    ensures out.reason == Some(Repetition) ==> IsThreefold(out.tracker)
    ensures out.reason == Some(Insufficient) ==> !IsThreefold(out.tracker) && IsInsufficientMaterial(b)
    ensures out.reason == Some(Stalemate) ==>
      !IsThreefold(out.tracker) && !IsInsufficientMaterial(b) && !HasLegalMove(b, whiteToMove) && !InCheck(b, whiteToMove)
    ensures out.reason.None? && connected && gameCode.Some? && gameCode != Some("") ==>
      !IsThreefold(out.tracker) && !IsInsufficientMaterial(b) && !IsStalemate(b, whiteToMove)
  {
    if !connected || gameCode.None? || gameCode == Some("") then DrawCheck(t, None)
    else
      var t' := UpdateRepetition(t, BoardToFEN(b));
      if IsThreefold(t') then DrawCheck(t', Some(Repetition))
      else if IsInsufficientMaterial(b) then DrawCheck(t', Some(Insufficient))
      else if IsStalemate(b, whiteToMove) then DrawCheck(t', Some(Stalemate))
      else DrawCheck(t', None)
  }

  /**
    On the third visit to a position the draw is reported as repetition,
    whatever else holds; the first two visits to a fresh tracker never
    report repetition.
   */
  lemma ThirdVisitIsRepetition(b: Board, whiteToMove: bool, code: string)
    requires ValidBoard(b) && code != ""
    ensures var d1 := EvaluateDraw(b, whiteToMove, FRESH_TRACKER, Some(code), true);
      var d2 := EvaluateDraw(b, whiteToMove, d1.tracker, Some(code), true);
      var d3 := EvaluateDraw(b, whiteToMove, d2.tracker, Some(code), true);
      d1.reason != Some(Repetition) && d2.reason != Some(Repetition) && d3.reason == Some(Repetition)
  {
    var f := BoardToFEN(b);
    var d1 := EvaluateDraw(b, whiteToMove, FRESH_TRACKER, Some(code), true);
    var d2 := EvaluateDraw(b, whiteToMove, d1.tracker, Some(code), true);
    FreshNotThreefold();
    ThreefoldAfterUpdate(FRESH_TRACKER, f);
    ThreefoldAfterUpdate(d1.tracker, f);
    ThreefoldAfterUpdate(d2.tracker, f);
  }
}
