/**
  Declarative counterparts of the engine's move generator and attack test,
  and the lemmas that the engine's loops compute exactly these.

  A move pattern is stated from the moving piece ("this square is a knight's
  jump away", "the squares between are empty"); the attack test of the
  source instead looks outwards from the attacked square. The lemmas connect
  the two readings.
 */
module EngineSpec {
  import opened Opt
  import opened Chess
  import opened Engine

  function Abs(x: int): nat {
    if x < 0 then -x else x
  }

  predicate KnightDelta(dr: int, dc: int) {
    (Abs(dr) == 1 && Abs(dc) == 2) || (Abs(dr) == 2 && Abs(dc) == 1)
  }

  /** A unit direction of the requested class: diagonal, along a rank or file, or either. */
  predicate DirClass(dr: int, dc: int, diagonal: bool, straight: bool) {
    IsDir(dr, dc) && ((diagonal && dr != 0 && dc != 0) || (straight && (dr == 0 || dc == 0)))
  }

  /** (nr, nc) lies on a ray of the given class from (r, c) with only empty squares in between. */
  ghost predicate SlidesTo(b: Board, r: int, c: int, nr: int, nc: int, diagonal: bool, straight: bool)
    requires ValidBoard(b)
  {
    exists dr, dc, k :: DirClass(dr, dc, diagonal, straight) && 1 <= k && (nr, nc) == Step(r, c, dr, dc, k) && Clear(b, r, c, dr, dc, k)
  }

  /**
    The moves the piece rules allow a `side` piece of kind `kind` standing on
    (r, c), before the self-check filter.
   */
  ghost predicate PatternAllows(b: Board, side: Color, kind: char, r: int, c: int, nr: int, nc: int)
    requires ValidBoard(b) && InBounds(r, c)
  {
    && InBounds(nr, nc)
    && if kind == PAWN then
         var d := PawnDir(side);
         || (nc == c && nr == r + d && b[nr][nc] == Empty)
         || (nc == c && r == PawnStartRow(side) && nr == r + 2 * d && b[r + d][c] == Empty && b[nr][nc] == Empty)
         || ((nc == c - 1 || nc == c + 1) && nr == r + d && IsEnemy(b[nr][nc], side))
       else
         && !IsOwn(b[nr][nc], side)
         && if kind == KNIGHT then KnightDelta(nr - r, nc - c)
            else if kind == KING then IsDir(nr - r, nc - c)
            else if kind == BISHOP then SlidesTo(b, r, c, nr, nc, true, false)
            else if kind == ROOK then SlidesTo(b, r, c, nr, nc, false, true)
            else if kind == QUEEN then SlidesTo(b, r, c, nr, nc, true, true)
            else false
  }

  // ---------------------------------------------------------------- offset tables

  lemma KnightTable(dr: int, dc: int)
    ensures (dr, dc) in KNIGHT_OFFSETS <==> KnightDelta(dr, dc)
  {
  }

  lemma KingTable(dr: int, dc: int)
    ensures (dr, dc) in KING_DIRS <==> DirClass(dr, dc, true, true)
  {
  }

  lemma DiagonalTable(dr: int, dc: int)
    ensures (dr, dc) in DIAGONALS <==> DirClass(dr, dc, true, false)
  {
  }

  lemma StraightTable(dr: int, dc: int)
    ensures (dr, dc) in STRAIGHTS <==> DirClass(dr, dc, false, true)
  {
  }

  /** The queen reuses the king's direction table as its sliding directions. */
  lemma QueenTable()
    ensures forall dr, dc :: (dr, dc) in KING_DIRS <==> DirClass(dr, dc, true, true)
  {
    forall dr, dc ensures (dr, dc) in KING_DIRS <==> DirClass(dr, dc, true, true) {
      KingTable(dr, dc);
    }
  }

  // ---------------------------------------------------------------- generators

  lemma {:induction false} JumpsMembers(b: Board, side: Color, r: int, c: int, offs: seq<Square>, t: Square)
    requires ValidBoard(b)
    ensures t in Jumps(b, side, r, c, offs) <==> (t.0 - r, t.1 - c) in offs && OnBoard(t) && !IsOwn(b[t.0][t.1], side)
  {
    if offs != [] {
      JumpsMembers(b, side, r, c, offs[1..], t);
      assert (t.0 - r, t.1 - c) in offs <==> (t.0 - r, t.1 - c) == offs[0] || (t.0 - r, t.1 - c) in offs[1..];
    }
  }

  /** From a clear prefix of the ray, a slide returns exactly the clear squares that are not the mover's. */
  lemma {:induction false} SlideMembers(b: Board, side: Color, r: int, c: int, dr: int, dc: int, k0: nat, t: Square)
    requires ValidBoard(b) && InBounds(r, c) && IsDir(dr, dc) && 1 <= k0
    requires Clear(b, r, c, dr, dc, k0)
    ensures t in Slide(b, side, r, c, dr, dc, k0) <==>
      exists k :: k0 <= k && t == Step(r, c, dr, dc, k) && OnBoard(t) && Clear(b, r, c, dr, dc, k) && !IsOwn(b[t.0][t.1], side)
    decreases 8 - k0
  {
    var s := Step(r, c, dr, dc, k0);
    if !OnBoard(s) {
      forall k | k0 < k
        ensures !Clear(b, r, c, dr, dc, k)
      {
        assert !EmptyAt(b, Step(r, c, dr, dc, k0));
      }
    } else if b[s.0][s.1] == Empty {
      assert Clear(b, r, c, dr, dc, k0 + 1);
      SlideMembers(b, side, r, c, dr, dc, k0 + 1, t);
      if t == s {
        assert k0 <= k0 && t == Step(r, c, dr, dc, k0) && OnBoard(t) && Clear(b, r, c, dr, dc, k0) && !IsOwn(b[t.0][t.1], side);
      }
    } else {
      forall k | k0 < k
        ensures !Clear(b, r, c, dr, dc, k)
      {
        assert !EmptyAt(b, Step(r, c, dr, dc, k0));
      }
      if t == s && !IsOwn(b[t.0][t.1], side) {
        assert k0 <= k0 && t == Step(r, c, dr, dc, k0) && OnBoard(t) && Clear(b, r, c, dr, dc, k0) && !IsOwn(b[t.0][t.1], side);
      }
    }
  }

  lemma {:induction false} SlidesMembers(b: Board, side: Color, r: int, c: int, dirs: seq<Square>, t: Square)
    requires ValidBoard(b) && InBounds(r, c) && AllDirs(dirs)
    ensures t in Slides(b, side, r, c, dirs) <==> exists d :: d in dirs && t in Slide(b, side, r, c, d.0, d.1, 1)
  {
    if dirs != [] {
      SlidesMembers(b, side, r, c, dirs[1..], t);
      assert forall d :: d in dirs <==> d == dirs[0] || d in dirs[1..];
    }
  }

  /** The slider generator over a direction table produces exactly the slide pattern of that class. */
  lemma SlidesMatchPattern(b: Board, side: Color, r: int, c: int, dirs: seq<Square>, diagonal: bool, straight: bool, t: Square)
    requires ValidBoard(b) && InBounds(r, c) && AllDirs(dirs)
    requires forall dr, dc :: (dr, dc) in dirs <==> DirClass(dr, dc, diagonal, straight)
    ensures t in Slides(b, side, r, c, dirs) <==> OnBoard(t) && !IsOwn(b[t.0][t.1], side) && SlidesTo(b, r, c, t.0, t.1, diagonal, straight)
  {
    SlidesMembers(b, side, r, c, dirs, t);
    if t in Slides(b, side, r, c, dirs) {
      var d :| d in dirs && t in Slide(b, side, r, c, d.0, d.1, 1);
      SlideMembers(b, side, r, c, d.0, d.1, 1, t);
      var k :| 1 <= k && t == Step(r, c, d.0, d.1, k) && OnBoard(t) && Clear(b, r, c, d.0, d.1, k) && !IsOwn(b[t.0][t.1], side);
      assert DirClass(d.0, d.1, diagonal, straight);
    }
    if OnBoard(t) && !IsOwn(b[t.0][t.1], side) && SlidesTo(b, r, c, t.0, t.1, diagonal, straight) {
      var dr, dc, k :| DirClass(dr, dc, diagonal, straight) && 1 <= k && (t.0, t.1) == Step(r, c, dr, dc, k) && Clear(b, r, c, dr, dc, k);
      assert (dr, dc) in dirs;
      SlideMembers(b, side, r, c, dr, dc, 1, t);
    }
  }

  lemma PawnMatchesPattern(b: Board, side: Color, r: int, c: int, t: Square)
    requires ValidBoard(b) && InBounds(r, c)
    ensures t in PawnMoves(b, side, r, c) <==> PatternAllows(b, side, PAWN, r, c, t.0, t.1)
  {
  }

  lemma KnightMatchesPattern(b: Board, side: Color, r: int, c: int, t: Square)
    requires ValidBoard(b) && InBounds(r, c)
    ensures t in Jumps(b, side, r, c, KNIGHT_OFFSETS) <==> PatternAllows(b, side, KNIGHT, r, c, t.0, t.1)
  {
    JumpsMembers(b, side, r, c, KNIGHT_OFFSETS, t);
    KnightTable(t.0 - r, t.1 - c);
  }

  lemma KingMatchesPattern(b: Board, side: Color, r: int, c: int, t: Square)
    requires ValidBoard(b) && InBounds(r, c)
    ensures t in Jumps(b, side, r, c, KING_DIRS) <==> PatternAllows(b, side, KING, r, c, t.0, t.1)
  {
    JumpsMembers(b, side, r, c, KING_DIRS, t);
    KingTable(t.0 - r, t.1 - c);
  }

  lemma BishopMatchesPattern(b: Board, side: Color, r: int, c: int, t: Square)
    requires ValidBoard(b) && InBounds(r, c)
    ensures t in Slides(b, side, r, c, DIAGONALS) <==> PatternAllows(b, side, BISHOP, r, c, t.0, t.1)
  {
    forall dr, dc ensures (dr, dc) in DIAGONALS <==> DirClass(dr, dc, true, false) {
      DiagonalTable(dr, dc);
    }
    SlidesMatchPattern(b, side, r, c, DIAGONALS, true, false, t);
  }

  lemma RookMatchesPattern(b: Board, side: Color, r: int, c: int, t: Square)
    requires ValidBoard(b) && InBounds(r, c)
    ensures t in Slides(b, side, r, c, STRAIGHTS) <==> PatternAllows(b, side, ROOK, r, c, t.0, t.1)
  {
    forall dr, dc ensures (dr, dc) in STRAIGHTS <==> DirClass(dr, dc, false, true) {
      StraightTable(dr, dc);
    }
    SlidesMatchPattern(b, side, r, c, STRAIGHTS, false, true, t);
  }

  lemma QueenMatchesPattern(b: Board, side: Color, r: int, c: int, t: Square)
    requires ValidBoard(b) && InBounds(r, c)
    ensures t in Slides(b, side, r, c, KING_DIRS) <==> PatternAllows(b, side, QUEEN, r, c, t.0, t.1)
  {
    QueenSlides(b, side, r, c, t);
  }

  lemma QueenSlides(b: Board, side: Color, r: int, c: int, t: Square)
    requires ValidBoard(b) && InBounds(r, c)
    ensures t in Slides(b, side, r, c, KING_DIRS) <==> OnBoard(t) && !IsOwn(b[t.0][t.1], side) && SlidesTo(b, r, c, t.0, t.1, true, true)
  {
    QueenTable();
    SlidesMatchPattern(b, side, r, c, KING_DIRS, true, true, t);
  }

  /** The unfiltered generator is exactly the piece pattern. */
  lemma PseudoMatchesPattern(b: Board, side: Color, kind: char, r: int, c: int, t: Square)
    requires ValidBoard(b) && InBounds(r, c)
    ensures t in PseudoMoves(b, side, kind, r, c) <==> PatternAllows(b, side, kind, r, c, t.0, t.1)
  {
    if kind == PAWN {
      PawnMatchesPattern(b, side, r, c, t);
    } else if kind == KNIGHT {
      KnightMatchesPattern(b, side, r, c, t);
    } else if kind == KING {
      KingMatchesPattern(b, side, r, c, t);
    } else if kind == BISHOP {
      BishopMatchesPattern(b, side, r, c, t);
    } else if kind == ROOK {
      RookMatchesPattern(b, side, r, c, t);
    } else if kind == QUEEN {
      QueenMatchesPattern(b, side, r, c, t);
    }
  }

  /**
    `getMoves` returns exactly the squares the piece rules allow the mover's
    piece on (r, c) that do not leave the mover in check; for an empty cell
    or the other side's piece it returns nothing.
   */
  lemma GetMovesMatchesRules(b: Board, r: int, c: int, whiteToMove: bool, nr: int, nc: int)
    requires ValidBoard(b) && InBounds(r, c)
    ensures (nr, nc) in GetMoves(r, c, b, whiteToMove) <==>
      && IsOwn(b[r][c], Side(whiteToMove))
      && PatternAllows(b, Side(whiteToMove), b[r][c].kind, r, c, nr, nc)
      && !InCheck(MakeMove(b, r, c, nr, nc), whiteToMove)
  {
    if IsOwn(b[r][c], Side(whiteToMove)) {
      PseudoMatchesPattern(b, Side(whiteToMove), b[r][c].kind, r, c, (nr, nc));
    }
  }

  // ---------------------------------------------------------------- attacks, seen from the attacker

  /**
    Whether the cell `p` standing on (pr, pc) attacks (r, c): a pawn the two
    squares diagonally ahead of it, a knight and a king their jumps, a
    bishop, rook or queen every square along its rays up to and including
    the first occupied one. Cells with other piece letters attack nothing.
   */
  ghost predicate Covers(b: Board, p: Cell, pr: int, pc: int, r: int, c: int)
    requires ValidBoard(b)
  {
    match p
    case Empty => false
    case Piece(side, kind) =>
      if kind == PAWN then r == pr + PawnDir(side) && Abs(c - pc) == 1
      else if kind == KNIGHT then KnightDelta(r - pr, c - pc)
      else if kind == KING then IsDir(r - pr, c - pc)
      else if kind == BISHOP then SlidesTo(b, pr, pc, r, c, true, false)
      else if kind == ROOK then SlidesTo(b, pr, pc, r, c, false, true)
      else if kind == QUEEN then SlidesTo(b, pr, pc, r, c, true, true)
      else false
  }

  /** Some piece of `attacker`'s colour covers (r, c). */
  ghost predicate AttackedRef(b: Board, r: int, c: int, attacker: Color)
    requires ValidBoard(b)
  {
    exists pr, pc :: InBounds(pr, pc) && IsOwn(b[pr][pc], attacker) && Covers(b, b[pr][pc], pr, pc, r, c)
  }

  /** Some `x` piece covers (r, c). */
  ghost predicate KindCovers(b: Board, x: Cell, r: int, c: int)
    requires ValidBoard(b)
  {
    exists pr, pc :: PieceAt(b, pr, pc, x) && Covers(b, x, pr, pc, r, c)
  }

  /** Some `x` piece reaches (r, c) along a clear ray of the given class. */
  ghost predicate SlideCovers(b: Board, x: Cell, r: int, c: int, diagonal: bool, straight: bool)
    requires ValidBoard(b)
  {
    exists pr, pc :: PieceAt(b, pr, pc, x) && SlidesTo(b, pr, pc, r, c, diagonal, straight)
  }

  /** Looking from (r, c) along (dr, dc), the `k`-th square is `x` and every square before it is empty. */
  ghost predicate SeesAlong(b: Board, r: int, c: int, dr: int, dc: int, k: int, x: Cell)
    requires ValidBoard(b)
  {
    1 <= k && Clear(b, r, c, dr, dc, k) && PieceAt(b, Step(r, c, dr, dc, k).0, Step(r, c, dr, dc, k).1, x)
  }

  /** Looking from (r, c) along some ray of the class, the first piece met is `x`. */
  ghost predicate Sees(b: Board, r: int, c: int, diagonal: bool, straight: bool, x: Cell)
    requires ValidBoard(b)
  {
    exists dr, dc, k :: DirClass(dr, dc, diagonal, straight) && SeesAlong(b, r, c, dr, dc, k, x)
  }

  /** A clear ray read backwards is a clear ray: the squares between are the same ones. */
  lemma Reverse(b: Board, r: int, c: int, dr: int, dc: int, k: int)
    requires ValidBoard(b) && IsDir(dr, dc) && 1 <= k && Clear(b, r, c, dr, dc, k)
    ensures var p := Step(r, c, dr, dc, k);
      Step(p.0, p.1, -dr, -dc, k) == (r, c) && Clear(b, p.0, p.1, -dr, -dc, k)
  {
    var p := Step(r, c, dr, dc, k);
    var pr, pc, ndr, ndc := p.0, p.1, -dr, -dc;
    forall j | 1 <= j < k
      ensures EmptyAt(b, Step(pr, pc, ndr, ndc, j))
    {
      assert Step(pr, pc, ndr, ndc, j) == Step(r, c, dr, dc, k - j);
    }
  }

  lemma SeesIffSlideCovers(b: Board, r: int, c: int, diagonal: bool, straight: bool, x: Cell)
    requires ValidBoard(b)
    ensures Sees(b, r, c, diagonal, straight, x) <==> SlideCovers(b, x, r, c, diagonal, straight)
  {
    if Sees(b, r, c, diagonal, straight, x) {
      var dr, dc, k :| DirClass(dr, dc, diagonal, straight) && SeesAlong(b, r, c, dr, dc, k, x);
      var p := Step(r, c, dr, dc, k);
      Reverse(b, r, c, dr, dc, k);
      assert DirClass(-dr, -dc, diagonal, straight);
      assert SlidesTo(b, p.0, p.1, r, c, diagonal, straight);
      assert PieceAt(b, p.0, p.1, x);
    }
    if SlideCovers(b, x, r, c, diagonal, straight) {
      var pr, pc :| PieceAt(b, pr, pc, x) && SlidesTo(b, pr, pc, r, c, diagonal, straight);
      var dr, dc, k :| DirClass(dr, dc, diagonal, straight) && 1 <= k && (r, c) == Step(pr, pc, dr, dc, k) && Clear(b, pr, pc, dr, dc, k);
      Reverse(b, pr, pc, dr, dc, k);
      assert DirClass(-dr, -dc, diagonal, straight);
      assert SeesAlong(b, r, c, -dr, -dc, k, x);
    }
  }

  /** `FirstOccupied` from a clear prefix finds `x` exactly when some later square is `x` with only empty squares before it. */
  lemma {:induction false} FirstOccupiedSpec(b: Board, r: int, c: int, dr: int, dc: int, k0: nat, x: Cell)
    requires ValidBoard(b) && InBounds(r, c) && IsDir(dr, dc) && 1 <= k0 && x != Empty
    requires Clear(b, r, c, dr, dc, k0)
    ensures (var h := FirstOccupied(b, r, c, dr, dc, k0); h.Some? && b[h.value.0][h.value.1] == x) <==>
      exists k :: k0 <= k && SeesAlong(b, r, c, dr, dc, k, x)
    decreases 8 - k0
  {
    var s := Step(r, c, dr, dc, k0);
    if !OnBoard(s) {
      forall k | k0 <= k
        ensures !SeesAlong(b, r, c, dr, dc, k, x)
      {
        if k0 < k {
          assert !EmptyAt(b, Step(r, c, dr, dc, k0));
        }
      }
    } else if b[s.0][s.1] == Empty {
      assert Clear(b, r, c, dr, dc, k0 + 1);
      FirstOccupiedSpec(b, r, c, dr, dc, k0 + 1, x);
      assert !SeesAlong(b, r, c, dr, dc, k0, x);
      forall k | k0 <= k && SeesAlong(b, r, c, dr, dc, k, x)
        ensures k0 + 1 <= k
      {
      }
    } else {
      forall k | k0 < k
        ensures !SeesAlong(b, r, c, dr, dc, k, x)
      {
        assert !EmptyAt(b, Step(r, c, dr, dc, k0));
      }
      if b[s.0][s.1] == x {
        assert SeesAlong(b, r, c, dr, dc, k0, x);
      }
    }
  }

  /** `RayHits` holds exactly when along one of `dirs` the first piece met is the attacker's `kind` or queen. */
  lemma {:induction false} RayHitsSpec(b: Board, r: int, c: int, dirs: seq<Square>, attacker: Color, kind: char)
    requires ValidBoard(b) && InBounds(r, c) && AllDirs(dirs)
    ensures RayHits(b, r, c, dirs, attacker, kind) <==>
      exists d, k :: d in dirs && (SeesAlong(b, r, c, d.0, d.1, k, Piece(attacker, kind)) || SeesAlong(b, r, c, d.0, d.1, k, Piece(attacker, QUEEN)))
  {
    if dirs != [] {
      var d0 := dirs[0];
      RayHitsSpec(b, r, c, dirs[1..], attacker, kind);
      FirstOccupiedSpec(b, r, c, d0.0, d0.1, 1, Piece(attacker, kind));
      FirstOccupiedSpec(b, r, c, d0.0, d0.1, 1, Piece(attacker, QUEEN));
      assert forall d :: d in dirs <==> d == d0 || d in dirs[1..];
    }
  }

  /** `RayHits` over a complete direction table is "sees the piece or a queen" along that class. */
  lemma RayHitsClass(b: Board, r: int, c: int, dirs: seq<Square>, diagonal: bool, straight: bool, attacker: Color, kind: char)
    requires ValidBoard(b) && InBounds(r, c) && AllDirs(dirs)
    requires forall dr, dc :: (dr, dc) in dirs <==> DirClass(dr, dc, diagonal, straight)
    ensures RayHits(b, r, c, dirs, attacker, kind) <==>
      Sees(b, r, c, diagonal, straight, Piece(attacker, kind)) || Sees(b, r, c, diagonal, straight, Piece(attacker, QUEEN))
  {
    RayHitsSpec(b, r, c, dirs, attacker, kind);
    if RayHits(b, r, c, dirs, attacker, kind) {
      var d, k :| d in dirs && (SeesAlong(b, r, c, d.0, d.1, k, Piece(attacker, kind)) || SeesAlong(b, r, c, d.0, d.1, k, Piece(attacker, QUEEN)));
      assert DirClass(d.0, d.1, diagonal, straight);
    }
    if Sees(b, r, c, diagonal, straight, Piece(attacker, kind)) {
      var dr, dc, k :| DirClass(dr, dc, diagonal, straight) && SeesAlong(b, r, c, dr, dc, k, Piece(attacker, kind));
      assert (dr, dc) in dirs;
    }
    if Sees(b, r, c, diagonal, straight, Piece(attacker, QUEEN)) {
      var dr, dc, k :| DirClass(dr, dc, diagonal, straight) && SeesAlong(b, r, c, dr, dc, k, Piece(attacker, QUEEN));
      assert (dr, dc) in dirs;
    }
  }

  lemma {:induction false} JumpHoldsSpec(b: Board, r: int, c: int, offs: seq<Square>, x: Cell)
    requires ValidBoard(b)
    ensures JumpHolds(b, r, c, offs, x) <==> exists pr, pc :: (pr - r, pc - c) in offs && PieceAt(b, pr, pc, x)
  {
    if offs != [] {
      JumpHoldsSpec(b, r, c, offs[1..], x);
      assert forall d :: d in offs <==> d == offs[0] || d in offs[1..];
      var pr, pc := r + offs[0].0, c + offs[0].1;
      assert (pr - r, pc - c) == offs[0];
    }
  }

  lemma KnightAttack(b: Board, r: int, c: int, attacker: Color)
    requires ValidBoard(b)
    ensures JumpHolds(b, r, c, KNIGHT_OFFSETS, Piece(attacker, KNIGHT)) <==> KindCovers(b, Piece(attacker, KNIGHT), r, c)
  {
    var x := Piece(attacker, KNIGHT);
    JumpHoldsSpec(b, r, c, KNIGHT_OFFSETS, x);
    forall pr, pc
      ensures (pr - r, pc - c) in KNIGHT_OFFSETS <==> Covers(b, x, pr, pc, r, c)
    {
      KnightTable(pr - r, pc - c);
    }
  }

  lemma KingAttack(b: Board, r: int, c: int, attacker: Color)
    requires ValidBoard(b)
    ensures JumpHolds(b, r, c, KING_DIRS, Piece(attacker, KING)) <==> KindCovers(b, Piece(attacker, KING), r, c)
  {
    var x := Piece(attacker, KING);
    JumpHoldsSpec(b, r, c, KING_DIRS, x);
    forall pr, pc
      ensures (pr - r, pc - c) in KING_DIRS <==> Covers(b, x, pr, pc, r, c)
    {
      KingTable(pr - r, pc - c);
    }
  }

  lemma PawnAttack(b: Board, r: int, c: int, byWhite: bool)
    requires ValidBoard(b)
    ensures var x := Piece(Side(byWhite), PAWN);
      var pr := if byWhite then r + 1 else r - 1;
      PieceAt(b, pr, c - 1, x) || PieceAt(b, pr, c + 1, x) <==> KindCovers(b, x, r, c)
  {
    var x := Piece(Side(byWhite), PAWN);
    var pr := if byWhite then r + 1 else r - 1;
    if PieceAt(b, pr, c - 1, x) {
      assert Covers(b, x, pr, c - 1, r, c);
    }
    if PieceAt(b, pr, c + 1, x) {
      assert Covers(b, x, pr, c + 1, r, c);
    }
  }

  /** A queen's rays are the bishop's and the rook's together. */
  lemma QueenSplit(b: Board, x: Cell, r: int, c: int)
    requires ValidBoard(b)
    ensures SlideCovers(b, x, r, c, true, true) <==> SlideCovers(b, x, r, c, true, false) || SlideCovers(b, x, r, c, false, true)
  {
    if SlideCovers(b, x, r, c, true, true) {
      var pr, pc :| PieceAt(b, pr, pc, x) && SlidesTo(b, pr, pc, r, c, true, true);
      var dr, dc, k :| DirClass(dr, dc, true, true) && 1 <= k && (r, c) == Step(pr, pc, dr, dc, k) && Clear(b, pr, pc, dr, dc, k);
      if dr != 0 && dc != 0 {
        assert DirClass(dr, dc, true, false);
        assert SlidesTo(b, pr, pc, r, c, true, false);
      } else {
        assert DirClass(dr, dc, false, true);
        assert SlidesTo(b, pr, pc, r, c, false, true);
      }
    }
    if SlideCovers(b, x, r, c, true, false) {
      var pr, pc :| PieceAt(b, pr, pc, x) && SlidesTo(b, pr, pc, r, c, true, false);
      var dr, dc, k :| DirClass(dr, dc, true, false) && 1 <= k && (r, c) == Step(pr, pc, dr, dc, k) && Clear(b, pr, pc, dr, dc, k);
      assert DirClass(dr, dc, true, true);
      assert SlidesTo(b, pr, pc, r, c, true, true);
    }
    if SlideCovers(b, x, r, c, false, true) {
      var pr, pc :| PieceAt(b, pr, pc, x) && SlidesTo(b, pr, pc, r, c, false, true);
      var dr, dc, k :| DirClass(dr, dc, false, true) && 1 <= k && (r, c) == Step(pr, pc, dr, dc, k) && Clear(b, pr, pc, dr, dc, k);
      assert DirClass(dr, dc, true, true);
      assert SlidesTo(b, pr, pc, r, c, true, true);
    }
  }

  /** Some attacker piece covers the square exactly when some attacker piece of one of the six kinds does. */
  lemma AttackedRefByKind(b: Board, r: int, c: int, a: Color)
    requires ValidBoard(b)
    ensures AttackedRef(b, r, c, a) <==>
      || KindCovers(b, Piece(a, PAWN), r, c) || KindCovers(b, Piece(a, KNIGHT), r, c)
      || SlideCovers(b, Piece(a, BISHOP), r, c, true, false) || SlideCovers(b, Piece(a, ROOK), r, c, false, true)
      || SlideCovers(b, Piece(a, QUEEN), r, c, true, true) || KindCovers(b, Piece(a, KING), r, c)
  {
    if AttackedRef(b, r, c, a) {
      var pr, pc :| InBounds(pr, pc) && IsOwn(b[pr][pc], a) && Covers(b, b[pr][pc], pr, pc, r, c);
      assert PieceAt(b, pr, pc, b[pr][pc]);
    }
    if KindCovers(b, Piece(a, PAWN), r, c) {
      var pr, pc :| PieceAt(b, pr, pc, Piece(a, PAWN)) && Covers(b, Piece(a, PAWN), pr, pc, r, c);
      assert IsOwn(b[pr][pc], a);
    }
    if KindCovers(b, Piece(a, KNIGHT), r, c) {
      var pr, pc :| PieceAt(b, pr, pc, Piece(a, KNIGHT)) && Covers(b, Piece(a, KNIGHT), pr, pc, r, c);
      assert IsOwn(b[pr][pc], a);
    }
    if KindCovers(b, Piece(a, KING), r, c) {
      var pr, pc :| PieceAt(b, pr, pc, Piece(a, KING)) && Covers(b, Piece(a, KING), pr, pc, r, c);
      assert IsOwn(b[pr][pc], a);
    }
    if SlideCovers(b, Piece(a, BISHOP), r, c, true, false) {
      var pr, pc :| PieceAt(b, pr, pc, Piece(a, BISHOP)) && SlidesTo(b, pr, pc, r, c, true, false);
      assert Covers(b, b[pr][pc], pr, pc, r, c);
    }
    if SlideCovers(b, Piece(a, ROOK), r, c, false, true) {
      var pr, pc :| PieceAt(b, pr, pc, Piece(a, ROOK)) && SlidesTo(b, pr, pc, r, c, false, true);
      assert Covers(b, b[pr][pc], pr, pc, r, c);
    }
    if SlideCovers(b, Piece(a, QUEEN), r, c, true, true) {
      var pr, pc :| PieceAt(b, pr, pc, Piece(a, QUEEN)) && SlidesTo(b, pr, pc, r, c, true, true);
      assert Covers(b, b[pr][pc], pr, pc, r, c);
    }
  }

  /**
    `attacked`, which looks outwards from the target square, agrees with the
    piece-centred reading: some piece of the attacking colour covers the square.
   */
  lemma AttackedMatchesReference(b: Board, r: int, c: int, byWhite: bool)
    requires ValidBoard(b) && InBounds(r, c)
    ensures Attacked(b, r, c, byWhite) <==> AttackedRef(b, r, c, Side(byWhite))
  {
    var a := Side(byWhite);
    AttackedRefByKind(b, r, c, a);
    PawnAttack(b, r, c, byWhite);
    KnightAttack(b, r, c, a);
    KingAttack(b, r, c, a);
    forall dr, dc ensures (dr, dc) in DIAGONALS <==> DirClass(dr, dc, true, false) {
      DiagonalTable(dr, dc);
    }
    forall dr, dc ensures (dr, dc) in STRAIGHTS <==> DirClass(dr, dc, false, true) {
      StraightTable(dr, dc);
    }
    RayHitsClass(b, r, c, DIAGONALS, true, false, a, BISHOP);
    RayHitsClass(b, r, c, STRAIGHTS, false, true, a, ROOK);
    SeesIffSlideCovers(b, r, c, true, false, Piece(a, BISHOP));
    SeesIffSlideCovers(b, r, c, true, false, Piece(a, QUEEN));
    SeesIffSlideCovers(b, r, c, false, true, Piece(a, ROOK));
    SeesIffSlideCovers(b, r, c, false, true, Piece(a, QUEEN));
    QueenSplit(b, Piece(a, QUEEN), r, c);
  }

  /** `inCheck` is "the side's king, the first found in row-major order, is covered by an enemy piece". */
  lemma InCheckMatchesReference(b: Board, white: bool)
    requires ValidBoard(b)
    ensures InCheck(b, white) <==>
      FindKing(b, white).Some? && AttackedRef(b, FindKing(b, white).value.0, FindKing(b, white).value.1, Side(!white))
  {
    match FindKing(b, white)
    case None =>
    case Some(k) => AttackedMatchesReference(b, k.0, k.1, !white);
  }
}
