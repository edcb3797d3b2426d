/**
  The game record the client builds for the game-over download,
  `utils/PGN.js`: a fixed set of eight tag pairs in the style of section 8.1
  of the Portable Game Notation standard, a blank line, then the moves
  numbered by turn as in section 8.2 ("1. e4 e5 2. Nf3"), the whole text
  trimmed. The date comes in as the ISO timestamp the clock would give.
 */
module Pgn {
  import opened Text

  /** One tag line: `[Name "value"]` and a line break. */
  function Tag(name: string, value: string): string {
    "[" + name + " \"" + value + "\"]\n"
  }

  /** The first ten characters of an ISO timestamp with every '-' written as '.'. */
  function DateOf(iso: string): (date: string)
    ensures |date| == if |iso| < 10 then |iso| else 10
    ensures forall i :: 0 <= i < |date| ==> date[i] == if iso[i] == '-' then '.' else iso[i]
    ensures '-' !in date
  {
    var day := if |iso| < 10 then iso else iso[..10];
    seq(|day|, i requires 0 <= i < |day| => if day[i] == '-' then '.' else day[i])
  }

  /** An ISO date "yyyy-mm-dd..." becomes "yyyy.mm.dd". */
  lemma DateOfIsoTimestamp(iso: string)
    requires |iso| >= 10 && iso[4] == '-' && iso[7] == '-'
    requires forall i :: 0 <= i < 10 && i != 4 && i != 7 ==> IsDigit(iso[i])
    ensures DateOf(iso) == iso[..4] + "." + iso[5..7] + "." + iso[8..10]
  {
    var d, e := DateOf(iso), iso[..4] + "." + iso[5..7] + "." + iso[8..10];
    assert |d| == |e| == 10;
    forall i | 0 <= i < 10
      ensures d[i] == e[i]
    {
      if i != 4 && i != 7 {
        assert IsDigit(iso[i]);
      }
    }
  }

  /** The eight tag pairs, in order: Event, Site, Date, Round, White, Black, TimeControl, GameCode. */
  function TagPairs(date: string, timeControl: string, code: string): seq<(string, string)> {
    [ ("Event", "PrimeChess OTB Match"), ("Site", "PrimeChess"), ("Date", date), ("Round", "-"),
      ("White", "Player"), ("Black", "Guest"), ("TimeControl", timeControl), ("GameCode", code) ]
  }

  /** One tag line per pair, in the order given. */
  function TagLines(pairs: seq<(string, string)>): string
    decreases |pairs|
  {
    if pairs == [] then "" else Tag(pairs[0].0, pairs[0].1) + TagLines(pairs[1..])
  }

  /** The tag lines and the blank line that separates them from the moves. */
  function Header(date: string, timeControl: string, code: string): string {
    TagLines(TagPairs(date, timeControl, code)) + "\n"
  }

  // ---------------------------------------------------------------- movetext

  /** What the loop appends for move i: the turn number before white's moves, then the move and a space. */
  function Token(i: nat, move: string): string {
    (if i % 2 == 0 then NatToString(i / 2 + 1) + ". " else "") + move + " "
  }

  /** The tokens of moves i (inclusive) to j (exclusive), in order. */
  function Tokens(moves: seq<string>, i: nat, j: nat): string
    requires j <= |moves|
    decreases j - i
  {
    if i >= j then "" else Token(i, moves[i]) + Tokens(moves, i + 1, j)
  }

  /**
    The movetext by turns: the turn number, white's move and black's move,
    each followed by a space; a last turn with only white's move.
   */
  function Turns(moves: seq<string>, turn: nat): string
    decreases |moves|
  {
    if moves == [] then ""
    else if |moves| == 1 then NatToString(turn) + ". " + moves[0] + " "
    else NatToString(turn) + ". " + moves[0] + " " + (moves[1] + " " + Turns(moves[2..], turn + 1))
  }

  /** `pgn.trim()` of the header followed by the numbered moves. */
  function Pgn(date: string, timeControl: string, code: string, moves: seq<string>): string {
    Trim(Header(date, timeControl, code) + Turns(moves, 1))
  }

  /** The tokens one more move adds to the text go at its end. */
  lemma {:induction false} TokensSnoc(moves: seq<string>, i: nat, j: nat)
    requires i <= j < |moves|
    ensures Tokens(moves, i, j + 1) == Tokens(moves, i, j) + Token(j, moves[j])
    decreases j - i
  {
    if i < j {
      TokensSnoc(moves, i + 1, j);
    }
  }

  lemma TokensOfTurn(moves: seq<string>, i: nat)
    requires i % 2 == 0 && i + 2 <= |moves|
    ensures Tokens(moves, i, |moves|)
         == NatToString(i / 2 + 1) + ". " + moves[i] + " " + (moves[i + 1] + " " + Tokens(moves, i + 2, |moves|))
  {
    assert (i + 1) % 2 == 1;
    assert "" + moves[i + 1] == moves[i + 1];
  }

  lemma TurnsOfTwo(rest: seq<string>, turn: nat)
    requires |rest| >= 2
    ensures Turns(rest, turn) == NatToString(turn) + ". " + rest[0] + " " + (rest[1] + " " + Turns(rest[2..], turn + 1))
  {
  }

  /**
    Move by move, the loop writes the turns: from an even index i on, the
    tokens are the turns numbered from i/2 + 1, so every white move (even
    index i) is preceded by "(i/2 + 1). " and the moves keep their order,
    each followed by one space.
   */
  lemma {:induction false} TokensAreTurns(moves: seq<string>, i: nat)
    requires i % 2 == 0 && i <= |moves|
    ensures Tokens(moves, i, |moves|) == Turns(moves[i..], i / 2 + 1)
    decreases |moves| - i
  {
    var rest := moves[i..];
    if |rest| == 1 {
      assert Tokens(moves, i + 1, |moves|) == "";
      assert Tokens(moves, i, |moves|) == Token(i, moves[i]) + "";
    } else if |rest| >= 2 {
      TokensOfTurn(moves, i);
      TokensAreTurns(moves, i + 2);
      assert rest[2..] == moves[i + 2..];
      assert (i + 2) / 2 + 1 == i / 2 + 1 + 1;
      TurnsOfTwo(rest, i / 2 + 1);
    }
  }

  lemma AppendToken(text: string, i: nat, move: string)
    ensures (if i % 2 == 0 then text + NatToString(i / 2 + 1) + ". " else text) + move + " " == text + Token(i, move)
  {
  }

  /**
    The move loop of `generatePGN`: for every move its turn number (before
    white's moves) and the move, each followed by a space. It writes the
    turns in order.
   */
  method WriteMoves(moves: seq<string>) returns (text: string)
    ensures text == Turns(moves, 1)
  {
    text := "";
    var i := 0;
    while i < |moves|
      invariant 0 <= i <= |moves|
      invariant text == Tokens(moves, 0, i)
    {
      AppendToken(text, i, moves[i]);
      TokensSnoc(moves, 0, i);
      if i % 2 == 0 {
        text := text + NatToString(i / 2 + 1) + ". ";
      }
      text := text + moves[i] + " ";
      i := i + 1;
    }
    TokensAreTurns(moves, 0);
    assert moves[0..] == moves;
  }

  /** `generatePGN`: the tag lines, a blank line and the moves, trimmed. */
  method GeneratePgn(iso: string, moves: seq<string>, timeControl: string, code: string) returns (pgn: string)
    ensures pgn == Pgn(DateOf(iso), timeControl, code, moves)
  {
    var text := WriteMoves(moves);
    pgn := Trim(Header(DateOf(iso), timeControl, code) + text);
  }

  // -------------------------------------------------------------- properties

  lemma {:induction false} TrimEndKeepsPrefix(h: string, m: string, j: nat)
    requires j < |m| && !IsSpace(m[j])
    ensures TrimEnd(h + m) == h + TrimEnd(m)
    decreases |m|
  {
    var s := h + m;
    if IsSpace(m[|m| - 1]) {
      assert s[|s| - 1] == m[|m| - 1];
      assert s[..|s| - 1] == h + m[..|m| - 1];
      TrimEndKeepsPrefix(h, m[..|m| - 1], j);
    } else {
      assert s[|s| - 1] == m[|m| - 1];
    }
  }

  lemma TagShape(name: string, value: string)
    ensures var t := Tag(name, value); |t| >= 4 && t[0] == '[' && t[|t| - 2] == ']' && t[|t| - 1] == '\n'
  {
  }

  /** Tag lines open with '[' and end with "]" and a line break. */
  lemma {:induction false} TagLinesShape(pairs: seq<(string, string)>)
    requires pairs != []
    ensures var t := TagLines(pairs); |t| >= 4 && t[0] == '[' && t[|t| - 2] == ']' && t[|t| - 1] == '\n'
    decreases |pairs|
  {
    var first := Tag(pairs[0].0, pairs[0].1);
    TagShape(pairs[0].0, pairs[0].1);
    if |pairs| > 1 {
      TagLinesShape(pairs[1..]);
    } else {
      assert TagLines(pairs) == first + "";
    }
  }

  /** The header is text opening with '[' and ending in "]", a line break and the blank line. */
  lemma HeaderShape(date: string, timeControl: string, code: string)
    ensures var h := Header(date, timeControl, code);
            && |h| >= 5 && h[0] == '[' && h[|h| - 3] == ']'
            && h[..|h| - 1] == TagLines(TagPairs(date, timeControl, code))
            && h[..|h| - 2] + "\n\n" == h
  {
    TagLinesShape(TagPairs(date, timeControl, code));
  }

  /** Trimming text that opens with a non-space only trims the end of what follows a prefix. */
  lemma {:induction false} TrimAfterPrefix(h: string, m: string, j: nat)
    requires h != [] && !IsSpace(h[0])
    requires j < |m| && !IsSpace(m[j])
    ensures Trim(h + m) == h + TrimEnd(m)
  {
    assert (h + m)[0] == h[0];
    TrimEndKeepsPrefix(h, m, j);
  }

  /** Trimming text that opens and closes with non-spaces, followed by two line breaks, drops the breaks. */
  lemma TrimBlankLine(body: string)
    requires body != [] && !IsSpace(body[0]) && !IsSpace(body[|body| - 1])
    ensures Trim(body + "\n\n") == body
  {
    var s := body + "\n\n";
    assert s[0] == body[0];
    assert s[..|s| - 1] == body + "\n";
    assert (body + "\n")[..|body|] == body;
  }

  /**
    With at least one move, the text starts with the eight tag lines and a
    blank line, and what follows is the movetext with only its trailing
    space trimmed.
   */
  lemma {:induction false} PgnStartsWithTags(date: string, timeControl: string, code: string, moves: seq<string>)
    requires moves != []
    ensures Pgn(date, timeControl, code, moves) == Header(date, timeControl, code) + TrimEnd(Turns(moves, 1))
  {
    HeaderShape(date, timeControl, code);
    assert NatToString(1) == "1";
    TrimAfterPrefix(Header(date, timeControl, code), Turns(moves, 1), 0);
  }

  /** Without moves, the text ends at the GameCode tag: the tag lines minus the last line break. */
  lemma {:induction false} NoMovesEndsAtGameCode(date: string, timeControl: string, code: string)
    ensures Pgn(date, timeControl, code, []) + "\n" == TagLines(TagPairs(date, timeControl, code))
    ensures Pgn(date, timeControl, code, [])[|Pgn(date, timeControl, code, []) | - 1] == ']'
  {
    var h := Header(date, timeControl, code);
    HeaderShape(date, timeControl, code);
    var body := h[..|h| - 2];
    assert h + Turns([], 1) == body + "\n\n";
    TrimBlankLine(body);
    assert body + "\n" == h[..|h| - 1];
  }
}
