/** The optional value used wherever the source has `null`, `undefined` or `NaN`. */
module Opt {
  datatype Option<T> = None | Some(value: T)
}

/**
  The handful of JavaScript string built-ins the source leans on, with their
  JavaScript meaning: `trim`, `split` on a separator string, the decimal
  rendering of a non-negative integer, and `Number(...)` restricted to
  decimal integers.
 */
module Text {
  import opened Opt

  /** The code points JavaScript's `trim` removes and its `\s` class matches. */
  predicate IsSpace(ch: char) {
    || ch == ' ' || ch == '\t' || ch == '\n' || ch == '\r'
    || ch == '\U{000B}' || ch == '\U{000C}' || ch == '\U{00A0}' || ch == '\U{1680}'
    || ('\U{2000}' <= ch <= '\U{200A}')
    || ch == '\U{2028}' || ch == '\U{2029}' || ch == '\U{202F}' || ch == '\U{205F}'
    || ch == '\U{3000}' || ch == '\U{FEFF}'
  }

  predicate NoSpace(s: string) {
    forall i :: 0 <= i < |s| ==> !IsSpace(s[i])
  }

  /** `String.prototype.trimStart`. */
  function TrimStart(s: string): (r: string)
    ensures |r| <= |s| && r == s[|s| - |r|..]
    ensures r == [] || !IsSpace(r[0])
    ensures forall i :: 0 <= i < |s| - |r| ==> IsSpace(s[i])
  {
    if s != [] && IsSpace(s[0]) then TrimStart(s[1..]) else s
  }

  /** `String.prototype.trimEnd`. */
  function TrimEnd(s: string): (r: string)
    ensures |r| <= |s| && r == s[..|r|]
    ensures r == [] || !IsSpace(r[|r| - 1])
    ensures forall i :: |r| <= i < |s| ==> IsSpace(s[i])
  {
    if s != [] && IsSpace(s[|s| - 1]) then TrimEnd(s[..|s| - 1]) else s
  }

  /** `String.prototype.trim`. */
  function Trim(s: string): string {
    TrimEnd(TrimStart(s))
  }

  lemma TrimNoSpace(s: string)
    requires NoSpace(s)
    ensures Trim(s) == s
  {
    if s != [] {
      assert !IsSpace(s[0]) && !IsSpace(s[|s| - 1]);
    }
  }

  predicate IsDigit(ch: char) {
    '0' <= ch <= '9'
  }

  predicate AllDigits(s: string) {
    forall i :: 0 <= i < |s| ==> IsDigit(s[i])
  }

  /** The value of a string of decimal digits, most significant first. */
  function DigitsValue(s: string): nat
    requires AllDigits(s)
  {
    if s == [] then 0
    else DigitsValue(s[..|s| - 1]) * 10 + (s[|s| - 1] as int - '0' as int)
  }

  function DigitChar(d: nat): (ch: char)
    requires d < 10
    ensures IsDigit(ch) && ch as int - '0' as int == d
  {
    (d + '0' as int) as char
  }

  /** The decimal rendering JavaScript gives a non-negative integer (`String(n)`). */
  function NatToString(n: nat): (s: string)
    ensures 1 <= |s| && AllDigits(s)
    ensures DigitsValue(s) == n
  {
    if n < 10 then [DigitChar(n)]
    else
      var prefix := NatToString(n / 10);
      var s := prefix + [DigitChar(n % 10)];
      assert s[..|s| - 1] == prefix;
      s
  }

  lemma DigitsHaveNoSpace(s: string)
    requires AllDigits(s)
    ensures NoSpace(s)
  {
  }

  /**
    JavaScript's `Number(s)` on the strings this system sends: surrounding
    white space is ignored, the empty string is 0, a run of decimal digits is
    its value, and everything else is `NaN` (here `None`).
   */
  function JsNumber(s: string): (r: Option<nat>)
    ensures r.Some? <==> (Trim(s) == [] || AllDigits(Trim(s)))
    ensures Trim(s) == [] ==> r == Some(0)
  {
    var t := Trim(s);
    if t == [] then Some(0)
    else if AllDigits(t) then Some(DigitsValue(t))
    else None
  }

  /** `Number(String(n)) === n`. */
  lemma JsNumberOfNatToString(n: nat)
    ensures JsNumber(NatToString(n)) == Some(n)
  {
    var s := NatToString(n);
    DigitsHaveNoSpace(s);
    TrimNoSpace(s);
  }

  /** `parts.join(sep)`. */
  function Join(parts: seq<string>, sep: string): string {
    if |parts| == 0 then []
    else if |parts| == 1 then parts[0]
    else parts[0] + sep + Join(parts[1..], sep)
  }

  predicate OccursAt(s: string, sep: string, j: int) {
    0 <= j && j + |sep| <= |s| && s[j..j + |sep|] == sep
  }

  /** `s.indexOf(sep, from)`: the first occurrence of `sep` at or after `from`. */
  function IndexOf(s: string, sep: string, from: nat): (r: Option<nat>)
    requires |sep| > 0
    ensures r.Some? ==> from <= r.value && OccursAt(s, sep, r.value)
    ensures r.Some? ==> forall k :: from <= k < r.value ==> !OccursAt(s, sep, k)
    ensures r.None? ==> forall k :: from <= k ==> !OccursAt(s, sep, k)
    decreases |s| - from
  {
    if from + |sep| > |s| then None
    else if s[from..from + |sep|] == sep then Some(from)
    else IndexOf(s, sep, from + 1)
  }

  /** `s.split(sep)` for a non-empty separator string. */
  function Split(s: string, sep: string): (parts: seq<string>)
    requires |sep| > 0
    ensures |parts| >= 1
    ensures Join(parts, sep) == s
    ensures forall k :: 0 <= k < |parts| ==> IndexOf(parts[k], sep, 0).None?
    decreases |s|
  {
    match IndexOf(s, sep, 0)
    case None => [s]
    case Some(i) =>
      var head := s[..i];
      var rest := Split(s[i + |sep|..], sep);
      assert IndexOf(head, sep, 0).None? by {
        forall k | 0 <= k
          ensures !OccursAt(head, sep, k)
        {
          if OccursAt(head, sep, k) {
            assert s[k..k + |sep|] == head[k..k + |sep|];
            assert OccursAt(s, sep, k);
          }
        }
      }
      assert s == head + sep + s[i + |sep|..];
      [head] + rest
  }

  /** The first occurrence is unique: whatever index has the "first" property is the one found. */
  lemma IndexOfIsFirst(s: string, sep: string, from: nat, j: nat)
    requires |sep| > 0 && from <= j && OccursAt(s, sep, j)
    requires forall k :: from <= k < j ==> !OccursAt(s, sep, k)
    ensures IndexOf(s, sep, from) == Some(j)
  {
  }

  /** Splitting a string the separator's first character never occurs in gives the string itself. */
  lemma {:induction false} SplitWithoutSeparator(s: string, sep: string)
    requires |sep| > 0 && sep[0] !in s
    ensures Split(s, sep) == [s]
  {
    forall k | 0 <= k
      ensures !OccursAt(s, sep, k)
    {
      if k + |sep| <= |s| {
        assert s[k..k + |sep|][0] == s[k];
      }
    }
  }

  /** The separator placed right after a prefix free of its first character is the first cut. */
  lemma {:induction false} SplitAfterPrefix(x: string, sep: string, y: string)
    requires |sep| > 0 && sep[0] !in x
    ensures Split(x + sep + y, sep) == [x] + Split(y, sep)
  {
    var s := x + sep + y;
    forall k | 0 <= k < |x|
      ensures !OccursAt(s, sep, k)
    {
      assert s[k] == x[k];
      if k + |sep| <= |s| {
        assert s[k..k + |sep|][0] == s[k];
      }
    }
    assert s[|x|..|x| + |sep|] == sep;
    IndexOfIsFirst(s, sep, 0, |x|);
    assert s[..|x|] == x;
    assert s[|x| + |sep|..] == y;
  }

  /** Splitting on a single character undoes joining with it, when no part contains it. */
  lemma {:induction false} SplitJoin(parts: seq<string>, ch: char)
    requires |parts| >= 1
    requires forall k :: 0 <= k < |parts| ==> ch !in parts[k]
    ensures Split(Join(parts, [ch]), [ch]) == parts
    decreases |parts|
  {
    if |parts| == 1 {
      SplitWithoutSeparator(parts[0], [ch]);
    } else {
      SplitAfterPrefix(parts[0], [ch], Join(parts[1..], [ch]));
      SplitJoin(parts[1..], ch);
      assert parts == [parts[0]] + parts[1..];
    }
  }

  /** Two digit strings joined by "+" split back into the two. */
  lemma SplitDigitsAtPlus(x: string, y: string)
    requires AllDigits(x) && AllDigits(y)
    ensures Split(x + "+" + y, "+") == [x, y]
  {
    assert '+' !in x && '+' !in y by {
      assert forall k :: 0 <= k < |x| ==> IsDigit(x[k]);
      assert forall k :: 0 <= k < |y| ==> IsDigit(y[k]);
    }
    SplitAfterPrefix(x, "+", y);
    SplitWithoutSeparator(y, "+");
  }

  /** `Number(s)` of a digit string is its decimal value. */
  lemma JsNumberOfDigits(x: string)
    requires AllDigits(x)
    ensures JsNumber(x) == Some(DigitsValue(x))
  {
    DigitsHaveNoSpace(x);
    TrimNoSpace(x);
  }

  /** ASCII `toUpperCase`; every other character is left as it is. */
  function ToUpperAscii(s: string): (r: string)
    ensures |r| == |s|
    ensures forall i :: 0 <= i < |s| ==> !('a' <= r[i] <= 'z')
    ensures forall i :: 0 <= i < |s| ==> ('a' <= s[i] <= 'z' ==> r[i] as int == s[i] as int - 32)
    ensures forall i :: 0 <= i < |s| ==> (!('a' <= s[i] <= 'z') ==> r[i] == s[i])
  {
    if s == [] then []
    else
      var ch := s[0];
      var up := if 'a' <= ch <= 'z' then (ch as int - 32) as char else ch;
      [up] + ToUpperAscii(s[1..])
  }
}
