/**
  The client's chess clocks, `src/components/GameTimer.jsx`: reading a time
  control such as "15+10" or "15 10", the one-second tick, the increment,
  the illegal-move penalty, the `m:ss` display and the exchange of clock
  readings with the server (which counts in milliseconds).

  The component keeps its clocks in React state and drives the tick from an
  interval; here the state is a `Clocks` record and every update is a pure
  function of it. Clock values are JavaScript numbers (`Js.Number`), since a
  reading the server sends may be NaN.
 */
module Timer {
  import opened Opt
  import opened Text
  import opened Js
  import opened Chess
  import Engine

  // ------------------------------------------------------------ time control

  /**
    `s.replace(/\s+/g, '+')`: every maximal run of white space becomes one
    '+', written where the run ends.
   */
  function CollapseSpace(s: string): string
    decreases |s|
  {
    if s == [] then []
    else if !IsSpace(s[0]) then [s[0]] + CollapseSpace(s[1..])
    else if |s| > 1 && IsSpace(s[1]) then CollapseSpace(s[1..])
    else "+" + CollapseSpace(s[1..])
  }

  /**
    The result has no white space left, and every character of it that is
    not a '+' is a character of the input; text without white space is left
    as it is.
   */
  lemma {:induction false} CollapseRemovesSpace(s: string)
    ensures NoSpace(CollapseSpace(s))
    ensures forall ch :: ch in CollapseSpace(s) && ch != '+' ==> ch in s
    ensures NoSpace(s) ==> CollapseSpace(s) == s
    decreases |s|
  {
    if s != [] {
      CollapseRemovesSpace(s[1..]);
      assert forall ch :: ch in s[1..] ==> ch in s;
      if !IsSpace(s[0]) {
        assert NoSpace(s) ==> NoSpace(s[1..]);
        assert s == [s[0]] + s[1..];
      }
    }
  }

  /** A parsed time control: the starting time and the increment, both in seconds. */
  datatype TimeControl = TimeControl(seconds: nat, increment: nat)

  /** The text `parseTimeControl` splits: trimmed, with white-space runs turned into '+'. */
  function Normalize(s: string): string {
    CollapseSpace(Trim(s))
  }

  /**
    The text must split on '+' into exactly two numbers, the first (the
    minutes) positive; the result is in seconds.
   */
  function ReadParts(normalized: string): (r: Option<TimeControl>)
    ensures r.Some? ==> r.value.seconds > 0 && r.value.seconds % 60 == 0
  {
    var parts := Split(normalized, "+");
    if |parts| != 2 then None
    else
      match (JsNumber(parts[0]), JsNumber(parts[1]))
      case (Some(minutes), Some(inc)) =>
        if minutes > 0 then
          WholeMinutes(minutes);
          Some(TimeControl(minutes * 60, inc))
        else None
      case _ => None
  }

  /** `parseTimeControl`: nothing for an absent, empty or non-string value. */
  function ParseTimeControl(tc: Option<string>): (r: Option<TimeControl>)
    ensures r.Some? ==> r.value.seconds > 0 && r.value.seconds % 60 == 0
    ensures r.Some? ==> tc.Some? && tc.value != ""
  {
    if tc.None? || tc.value == "" then None
    else ReadParts(Normalize(tc.value))
  }

  lemma WholeMinutes(m: nat)
    ensures (m * 60) % 60 == 0
  {
  }

  lemma TrimKeepsUnpadded(s: string)
    requires s != [] && !IsSpace(s[0]) && !IsSpace(s[|s| - 1])
    ensures Trim(s) == s
  {
  }

  lemma CollapseKeepsPrefix(x: string, rest: string)
    requires NoSpace(x)
    ensures CollapseSpace(x + rest) == x + CollapseSpace(rest)
    decreases |x|
  {
    if x != [] {
      var s := x + rest;
      assert s[0] == x[0] && !IsSpace(s[0]);
      assert s[1..] == x[1..] + rest;
      CollapseKeepsPrefix(x[1..], rest);
      assert x == [x[0]] + x[1..];
    } else {
      assert x + rest == rest;
    }
  }

  /** A non-empty run of white space ahead of text that does not start with any becomes one '+'. */
  lemma CollapseRun(w: string, y: string)
    requires w != [] && forall i :: 0 <= i < |w| ==> IsSpace(w[i])
    requires y == [] || !IsSpace(y[0])
    ensures CollapseSpace(w + y) == "+" + CollapseSpace(y)
    decreases |w|
  {
    var s := w + y;
    assert s[0] == w[0];
    assert s[1..] == w[1..] + y;
    if |w| > 1 {
      assert s[1] == w[1];
      CollapseRun(w[1..], y);
    } else {
      assert w[1..] + y == y;
      assert |s| > 1 ==> s[1] == y[0];
    }
  }

  lemma NoPlusInDigits(x: string)
    requires AllDigits(x)
    ensures '+' !in x && ':' !in x
  {
    assert forall k :: 0 <= k < |x| ==> IsDigit(x[k]);
  }

  /** Digits, a run of white space, digits: the run is read as the '+' separator. */
  lemma {:induction false} NormalizeSpaced(x: string, w: string, y: string)
    requires x != [] && y != [] && AllDigits(x) && AllDigits(y) && w != []
    requires forall i :: 0 <= i < |w| ==> IsSpace(w[i])
    ensures Normalize(x + w + y) == x + "+" + y
  {
    var s := x + w + y;
    assert s[0] == x[0] && s[|s| - 1] == y[|y| - 1];
    TrimKeepsUnpadded(s);
    DigitsHaveNoSpace(x);
    DigitsHaveNoSpace(y);
    assert s == x + (w + y);
    CollapseKeepsPrefix(x, w + y);
    CollapseRun(w, y);
    CollapseRemovesSpace(y);
  }

  /** Text already in "m+i" form is left as it is. */
  lemma {:induction false} NormalizePlus(x: string, y: string)
    requires AllDigits(x) && AllDigits(y)
    ensures Normalize(x + "+" + y) == x + "+" + y
  {
    var s := x + "+" + y;
    DigitsHaveNoSpace(x);
    DigitsHaveNoSpace(y);
    assert NoSpace(s) by {
      forall i | 0 <= i < |s|
        ensures !IsSpace(s[i])
      {
        if i < |x| { assert s[i] == x[i]; }
        else if i > |x| { assert s[i] == y[i - |x| - 1]; }
      }
    }
    TrimNoSpace(s);
    CollapseRemovesSpace(s);
  }

  lemma {:induction false} ReadDigitParts(x: string, y: string)
    requires AllDigits(x) && AllDigits(y)
    ensures ReadParts(x + "+" + y) == if DigitsValue(x) > 0 then Some(TimeControl(DigitsValue(x) * 60, DigitsValue(y))) else None
  {
    SplitDigitsAtPlus(x, y);
    JsNumberOfDigits(x);
    JsNumberOfDigits(y);
  }

  /**
    "m+i" with decimal digits: m minutes in seconds and i seconds of
    increment when m is positive (an empty increment counts as 0), nothing
    when m is 0.
   */
  lemma {:induction false} ParsePlusSeparated(x: string, y: string)
    requires x != [] && AllDigits(x) && AllDigits(y)
    ensures DigitsValue(x) > 0 ==> ParseTimeControl(Some(x + "+" + y)) == Some(TimeControl(DigitsValue(x) * 60, DigitsValue(y)))
    ensures DigitsValue(x) == 0 ==> ParseTimeControl(Some(x + "+" + y)) == None
  {
    NormalizePlus(x, y);
    ReadDigitParts(x, y);
  }

  /** "m i" (any run of white space between): read exactly as "m+i". */
  lemma {:induction false} ParseSpaceSeparated(x: string, w: string, y: string)
    requires x != [] && y != [] && AllDigits(x) && AllDigits(y) && w != []
    requires forall i :: 0 <= i < |w| ==> IsSpace(w[i])
    ensures ParseTimeControl(Some(x + w + y)) == ParseTimeControl(Some(x + "+" + y))
  {
    NormalizeSpaced(x, w, y);
    NormalizePlus(x, y);
  }

  lemma {:induction false} CollapseSpacedPlusTail(y: string)
    requires y != [] && AllDigits(y)
    ensures CollapseSpace(" " + ("+" + (" " + y))) == "+" + ("+" + ("+" + y))
  {
    CollapseRun(" ", "+" + (" " + y));
    CollapseKeepsPrefix("+", " " + y);
    CollapseRun(" ", y);
    DigitsHaveNoSpace(y);
    CollapseRemovesSpace(y);
  }

  lemma {:induction false} NormalizeSpacedPlus(x: string, y: string)
    requires x != [] && y != [] && AllDigits(x) && AllDigits(y)
    ensures Normalize(x + " + " + y) == x + "+" + ("+" + ("+" + y))
  {
    var s := x + " + " + y;
    assert s[0] == x[0] && s[|s| - 1] == y[|y| - 1];
    TrimKeepsUnpadded(s);
    DigitsHaveNoSpace(x);
    assert s == x + (" " + ("+" + (" " + y)));
    CollapseKeepsPrefix(x, " " + ("+" + (" " + y)));
    CollapseSpacedPlusTail(y);
  }

  /**
    "m + i" is rejected: trimming keeps the inner spaces, each of them turns
    into another '+', and "m+++i" splits into four parts.
   */
  lemma {:induction false} SpacedPlusRejected(x: string, y: string)
    requires x != [] && y != [] && AllDigits(x) && AllDigits(y)
    ensures ParseTimeControl(Some(x + " + " + y)) == None
  {
    NormalizeSpacedPlus(x, y);
    NoPlusInDigits(x);
    NoPlusInDigits(y);
    SplitAfterPrefix(x, "+", "+" + ("+" + y));
    assert "+" + ("+" + y) == "" + "+" + ("" + "+" + y);
    SplitAfterPrefix("", "+", "" + "+" + y);
    assert "" + "+" + y == "" + "+" + y;
    SplitAfterPrefix("", "+", y);
    SplitWithoutSeparator(y, "+");
    assert |Split(x + "+" + ("+" + ("+" + y)), "+")| == 4;
  }

  /** A time control with no separator at all is rejected. */
  lemma {:induction false} MinutesOnlyRejected(x: string)
    requires AllDigits(x)
    ensures ParseTimeControl(Some(x)) == None
  {
    DigitsHaveNoSpace(x);
    TrimNoSpace(x);
    CollapseRemovesSpace(x);
    NoPlusInDigits(x);
    SplitWithoutSeparator(x, "+");
  }

  // ------------------------------------------------------------------ clocks

  /** The component's clock state, in seconds. */
  datatype Clocks = Clocks(white: Number, black: Number, increment: Number)

  function Clock(c: Clocks, white: bool): Number {
    if white then c.white else c.black
  }

  /** Both clocks start at the parsed time, and everything at 0 without one. */
  function InitialClocks(tc: Option<string>): (c: Clocks)
    ensures c.white == c.black
    ensures ParseTimeControl(tc).None? <==> c == Clocks(Num(0), Num(0), Num(0))
    ensures ParseTimeControl(tc).Some? ==>
              c.white == Num(ParseTimeControl(tc).value.seconds) && c.increment == Num(ParseTimeControl(tc).value.increment)
  {
    match ParseTimeControl(tc)
    case Some(p) => Clocks(Num(p.seconds), Num(p.seconds), Num(p.increment))
    case None => Clocks(Num(0), Num(0), Num(0))
  }

  /**
    One second of the interval: the clock of the side to move drops by one;
    a clock already at or below 0 is set to 0 and flags that side instead.
    The other clock and the increment are untouched.
   */
  function Tick(c: Clocks, whiteToMove: bool): (r: (Clocks, Option<Color>))
    ensures Clock(r.0, !whiteToMove) == Clock(c, !whiteToMove) && r.0.increment == c.increment
    ensures r.1.Some? <==> (Clock(c, whiteToMove).Num? && Clock(c, whiteToMove).v <= 0)
    ensures r.1.Some? ==> r.1.value == Engine.Side(whiteToMove) && Clock(r.0, whiteToMove) == Num(0)
    ensures r.1.None? ==> Clock(r.0, whiteToMove) == Minus(Clock(c, whiteToMove), 1)
  {
    if whiteToMove then
      if c.white.Num? && c.white.v <= 0 then (c.(white := Num(0)), Some(White))
      else (c.(white := Minus(c.white, 1)), None)
    else
      if c.black.Num? && c.black.v <= 0 then (c.(black := Num(0)), Some(Black))
      else (c.(black := Minus(c.black, 1)), None)
  }

  /** `n` ticks in a row with the same side to move, and the flags they raise. */
  function Run(c: Clocks, whiteToMove: bool, n: nat): (Clocks, seq<Color>)
    decreases n
  {
    if n == 0 then (c, [])
    else
      var (next, flag) := Tick(c, whiteToMove);
      var (last, flags) := Run(next, whiteToMove, n - 1);
      (last, (if flag.Some? then [flag.value] else []) + flags)
  }

  /**
    A clock showing t seconds runs down one second per tick and stops at 0:
    after n ticks it shows max(0, t - n), the side to move has been flagged
    once for every tick past the first t, and nothing else has changed.
   */
  lemma {:induction false} CountDown(c: Clocks, whiteToMove: bool, t: nat, n: nat)
    requires Clock(c, whiteToMove) == Num(t)
    ensures Clock(Run(c, whiteToMove, n).0, whiteToMove) == Num(if n <= t then t - n else 0)
    ensures Clock(Run(c, whiteToMove, n).0, !whiteToMove) == Clock(c, !whiteToMove)
    ensures Run(c, whiteToMove, n).0.increment == c.increment
    ensures |Run(c, whiteToMove, n).1| == if n <= t then 0 else n - t
    ensures forall k :: 0 <= k < |Run(c, whiteToMove, n).1| ==> Run(c, whiteToMove, n).1[k] == Engine.Side(whiteToMove)
    decreases n
  {
    if n > 0 {
      var (next, flag) := Tick(c, whiteToMove);
      var t' := if t == 0 then 0 else t - 1;
      CountDown(next, whiteToMove, t', n - 1);
    }
  }

  /**
    `applyIncrement`: the increment goes to the side that has just moved,
    the one not to move now; the clock of the side to move is untouched.
   */
  function ApplyIncrement(c: Clocks, whiteToMove: bool): (r: Clocks)
    ensures Clock(r, whiteToMove) == Clock(c, whiteToMove) && r.increment == c.increment
    ensures Clock(r, !whiteToMove) == Plus(Clock(c, !whiteToMove), c.increment)
  {
    if whiteToMove then c.(black := Plus(c.black, c.increment))
    else c.(white := Plus(c.white, c.increment))
  }

  /** The increment and the running clock touch different clocks, so their order does not matter. */
  lemma IncrementCommutesWithTick(c: Clocks, whiteToMove: bool)
    ensures Tick(ApplyIncrement(c, whiteToMove), whiteToMove).0 == ApplyIncrement(Tick(c, whiteToMove).0, whiteToMove)
    ensures Tick(ApplyIncrement(c, whiteToMove), whiteToMove).1 == Tick(c, whiteToMove).1
  {
  }

  /** Seconds an illegal move costs on the client's clock. */
  const PENALTY_SECONDS := 5

  /**
    `applyIllegalPenalty`: the clock of the named colour loses 5 seconds
    but never goes below 0; any name other than "white" charges black.
   */
  function ApplyIllegalPenalty(c: Clocks, color: string): (r: Clocks)
    ensures r.increment == c.increment
    ensures Clock(r, color != "white") == Clock(c, color != "white")
    ensures Clock(r, color == "white").Num? <==> Clock(c, color == "white").Num?
    ensures Clock(r, color == "white").Num? ==>
              var before, after := Clock(c, color == "white").v, Clock(r, color == "white").v;
              after >= 0 && (after == before - PENALTY_SECONDS || (after == 0 && before < PENALTY_SECONDS))
  {
    if color == "white" then c.(white := MaxZero(Minus(c.white, PENALTY_SECONDS)))
    else c.(black := MaxZero(Minus(c.black, PENALTY_SECONDS)))
  }

  function Penalize(c: Clocks, color: string, k: nat): Clocks
    decreases k
  {
    if k == 0 then c else Penalize(ApplyIllegalPenalty(c, color), color, k - 1)
  }

  /** k penalties take 5k seconds off a clock of t seconds, down to 0 and no further. */
  lemma {:induction false} PenaltiesAccumulate(c: Clocks, color: string, t: nat, k: nat)
    requires Clock(c, color == "white") == Num(t)
    ensures Clock(Penalize(c, color, k), color == "white") == Num(if t >= PENALTY_SECONDS * k then t - PENALTY_SECONDS * k else 0)
    ensures Clock(Penalize(c, color, k), color != "white") == Clock(c, color != "white")
    decreases k
  {
    if k > 0 {
      var next := ApplyIllegalPenalty(c, color);
      var t' := if t >= PENALTY_SECONDS then t - PENALTY_SECONDS else 0;
      PenaltiesAccumulate(next, color, t', k - 1);
    }
  }

  // ----------------------------------------------------------------- display

  /** `String(n).padStart(2, '0')` for a number of seconds below a minute. */
  function Pad2(n: nat): (s: string)
    requires n < 60
    ensures |s| == 2 && AllDigits(s) && DigitsValue(s) == n
  {
    if n < 10 then
      var s := "0" + NatToString(n);
      assert s[..1] == "0";
      s
    else
      assert NatToString(n) == NatToString(n / 10) + [DigitChar(n % 10)];
      NatToString(n)
  }

  /**
    `formatTime`: whole minutes, a colon and the seconds as two digits;
    NaN and negative times show as 0:00.
   */
  function FormatTime(t: Number): (text: string)
    ensures |text| >= 4 && text[|text| - 3] == ':'
    ensures AllDigits(text[..|text| - 3]) && AllDigits(text[|text| - 2..])
  {
    var s := if t.NaN? || t.v < 0 then 0 else t.v;
    var minutes, seconds := NatToString(s / 60), Pad2(s % 60);
    assert (minutes + ":" + seconds)[..|minutes|] == minutes;
    assert (minutes + ":" + seconds)[|minutes| + 1..] == seconds;
    minutes + ":" + seconds
  }

  /** The reading of an `m:ss` display back into seconds. */
  function ParseClock(text: string): Option<nat> {
    var parts := Split(text, ":");
    if |parts| != 2 then None
    else
      var (m, s) := (parts[0], parts[1]);
      if m == [] || |s| != 2 || !AllDigits(m) || !AllDigits(s) || DigitsValue(s) >= 60 then None
      else Some(DigitsValue(m) * 60 + DigitsValue(s))
  }

  /** The display of a non-negative time reads back as that time. */
  lemma {:induction false} FormatTimeReadsBack(n: nat)
    ensures ParseClock(FormatTime(Num(n))) == Some(n)
  {
    var minutes, seconds := NatToString(n / 60), Pad2(n % 60);
    assert FormatTime(Num(n)) == minutes + ":" + seconds;
    NoPlusInDigits(minutes);
    NoPlusInDigits(seconds);
    SplitAfterPrefix(minutes, ":", seconds);
    SplitWithoutSeparator(seconds, ":");
  }

  /** NaN and every negative time display as 0:00. */
  lemma FormatTimeClamps(t: Number)
    requires t.NaN? || t.v < 0
    ensures FormatTime(t) == "0:00"
  {
  }

  // ------------------------------------------------------ exchange with server

  /** `Math.floor(ms / 1000)`: milliseconds to whole seconds, rounding down. */
  function Seconds(ms: Number): (r: Number)
    ensures r.Num? <==> ms.Num?
    ensures r.Num? ==> r.v * 1000 <= ms.v < r.v * 1000 + 1000
  {
    if ms.NaN? then NaN else Num(ms.v / 1000)
  }

  /**
    `restoreState`: when the server sent all three readings (milliseconds),
    both clocks and the increment take them in whole seconds; when any is
    missing nothing changes.
   */
  function RestoreState(c: Clocks, wt: Option<Number>, bt: Option<Number>, inc: Option<Number>): (r: Clocks)
    ensures wt.Some? && bt.Some? && inc.Some? ==>
              r.white == Seconds(wt.value) && r.black == Seconds(bt.value) && r.increment == Seconds(inc.value)
    ensures !(wt.Some? && bt.Some? && inc.Some?) ==> r == c
  {
    if wt.Some? && bt.Some? && inc.Some? then Clocks(Seconds(wt.value), Seconds(bt.value), Seconds(inc.value))
    else c
  }

  /** `getCurrentTimes`: both clocks in milliseconds. */
  function GetCurrentTimes(c: Clocks): (r: (Number, Number))
    ensures r.0.Num? <==> c.white.Num?
    ensures r.1.Num? <==> c.black.Num?
    ensures r.0.Num? ==> r.0.v == c.white.v * 1000
    ensures r.1.Num? ==> r.1.v == c.black.v * 1000
  {
    (Times(c.white, 1000), Times(c.black, 1000))
  }

  /** Restoring the readings `getCurrentTimes` produced gives back the same clocks. */
  lemma RestoreCurrentTimes(c: Clocks, any: Clocks)
    ensures RestoreState(any, Some(GetCurrentTimes(c).0), Some(GetCurrentTimes(c).1), Some(Times(c.increment, 1000))) == c
  {
    SecondsOfWhole(c.white);
    SecondsOfWhole(c.black);
    SecondsOfWhole(c.increment);
  }

  lemma SecondsOfWhole(t: Number)
    ensures Seconds(Times(t, 1000)) == t
  {
    if t.Num? {
      assert (t.v * 1000) / 1000 == t.v;
    }
  }

  /**
    The other way round, a restored reading comes back rounded down to a
    whole second: at most 999 ms less than what the server sent.
   */
  lemma CurrentTimesOfRestore(c: Clocks, wt: Number, bt: Number, inc: Number)
    ensures var r := GetCurrentTimes(RestoreState(c, Some(wt), Some(bt), Some(inc)));
            && (r.0.Num? <==> wt.Num?) && (r.1.Num? <==> bt.Num?)
            && (r.0.Num? ==> r.0.v <= wt.v < r.0.v + 1000 && r.0.v % 1000 == 0)
            && (r.1.Num? ==> r.1.v <= bt.v < r.1.v + 1000 && r.1.v % 1000 == 0)
  {
  }
}
