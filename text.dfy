/**
 * The parts of Rust's `str` that the parsers rely on: `trim`,
 * `split_whitespace`, `lines` and `u8::from_str`, over strings as
 * sequences of Unicode scalar values.
 */
module Text {
  import opened Wrappers

  /** `char::is_whitespace`: the characters with the Unicode `White_Space` property. */
  predicate IsWhitespace(ch: char) {
    ('\U{0009}' <= ch <= '\U{000D}') || ch == ' ' || ch == '\U{0085}' || ch == '\U{00A0}' || ch == '\U{1680}'
    || ('\U{2000}' <= ch <= '\U{200A}') || ch == '\U{2028}' || ch == '\U{2029}' || ch == '\U{202F}'
    || ch == '\U{205F}' || ch == '\U{3000}'
  }

  predicate AllWhitespace(s: string) {
    forall i :: 0 <= i < |s| ==> IsWhitespace(s[i])
  }

  /** `trim_start`: what is left after the leading whitespace. */
  function TrimStart(s: string): (r: string)
    ensures |r| <= |s|
    ensures r == [] || !IsWhitespace(r[0])
  {
    if s == [] || !IsWhitespace(s[0]) then s else TrimStart(s[1..])
  }

  /**
   * `trim`: the string without its leading and trailing whitespace,
   * taken off one character at a time from either end.
   */
  function Trim(s: string): (r: string)
    ensures |r| <= |s|
    decreases |s|
  {
    if s == [] then s
    else if IsWhitespace(s[0]) then Trim(s[1..])
    else if IsWhitespace(s[|s| - 1]) then Trim(s[..|s| - 1])
    else s
  }

  /**
   * What `trim` keeps is the slice `s[i..j]` of the string, and what it
   * removes on either side is whitespace.
   */
  lemma {:induction false} TrimSlice(s: string) returns (i: int, j: int)
    ensures 0 <= i <= j <= |s| && Trim(s) == s[i..j]
    ensures AllWhitespace(s[..i]) && AllWhitespace(s[j..])
    decreases |s|
  {
    if s == [] {
      i, j := 0, 0;
    } else if IsWhitespace(s[0]) {
      var i', j' := TrimSlice(s[1..]);
      i, j := i' + 1, j' + 1;
      SliceAfterFirst(s, i', j');
    } else if IsWhitespace(s[|s| - 1]) {
      i, j := TrimSlice(s[..|s| - 1]);
      SliceBeforeLast(s, i, j);
    } else {
      i, j := 0, |s|;
    }
  }

  lemma SliceAfterFirst(s: string, i: int, j: int)
    requires s != [] && IsWhitespace(s[0]) && 0 <= i <= j <= |s| - 1
    requires AllWhitespace(s[1..][..i]) && AllWhitespace(s[1..][j..])
    ensures s[1..][i..j] == s[i + 1..j + 1]
    ensures AllWhitespace(s[..i + 1]) && AllWhitespace(s[j + 1..])
  {
    assert s[..i + 1] == [s[0]] + s[1..][..i];
    assert s[j + 1..] == s[1..][j..];
  }

  lemma SliceBeforeLast(s: string, i: int, j: int)
    requires s != [] && IsWhitespace(s[|s| - 1]) && 0 <= i <= j <= |s| - 1
    requires AllWhitespace(s[..|s| - 1][..i]) && AllWhitespace(s[..|s| - 1][j..])
    ensures s[..|s| - 1][i..j] == s[i..j]
    ensures AllWhitespace(s[..i]) && AllWhitespace(s[j..])
  {
    assert s[..i] == s[..|s| - 1][..i];
    assert s[j..] == s[..|s| - 1][j..] + [s[|s| - 1]];
  }

  /** What `trim` keeps neither starts nor ends with whitespace. */
  lemma {:induction false} TrimEnds(s: string)
    ensures Trim(s) == [] || (!IsWhitespace(Trim(s)[0]) && !IsWhitespace(Trim(s)[|Trim(s)| - 1]))
    decreases |s|
  {
    if s != [] {
      if IsWhitespace(s[0]) {
        TrimEnds(s[1..]);
      } else if IsWhitespace(s[|s| - 1]) {
        TrimEnds(s[..|s| - 1]);
      }
    }
  }

  /** A string with no whitespace at either end trims to itself. */
  lemma TrimUnpadded(s: string)
    requires s == [] || (!IsWhitespace(s[0]) && !IsWhitespace(s[|s| - 1]))
    ensures Trim(s) == s
  {
  }

  /** Whitespace around a string that has none at its ends is trimmed away. */
  lemma {:induction false} TrimPadded(before: string, s: string, after: string)
    requires AllWhitespace(before) && AllWhitespace(after)
    requires s != [] && !IsWhitespace(s[0]) && !IsWhitespace(s[|s| - 1])
    ensures Trim(before + s + after) == s
    decreases |before|
  {
    var x := before + s + after;
    if before == [] {
      assert x == s + after;
      TrimTrailing(s, after);
    } else {
      assert x[0] == before[0];
      assert x[1..] == before[1..] + s + after;
      TrimPadded(before[1..], s, after);
    }
  }

  lemma {:induction false} TrimTrailing(s: string, after: string)
    requires AllWhitespace(after)
    requires s != [] && !IsWhitespace(s[0]) && !IsWhitespace(s[|s| - 1])
    ensures Trim(s + after) == s
    decreases |after|
  {
    var x := s + after;
    if after == [] {
      assert x == s;
    } else {
      assert x[0] == s[0];
      assert x[|x| - 1] == after[|after| - 1];
      assert x[..|x| - 1] == s + after[..|after| - 1];
      TrimTrailing(s, after[..|after| - 1]);
    }
  }

  /** The length of the leading run of non-whitespace. */
  function WordLength(s: string): (n: nat)
    ensures n <= |s|
    ensures forall i :: 0 <= i < n ==> !IsWhitespace(s[i])
    ensures n == |s| || IsWhitespace(s[n])
  {
    if s == [] || IsWhitespace(s[0]) then 0 else 1 + WordLength(s[1..])
  }

  /** A non-empty run of non-whitespace. */
  predicate IsWord(w: string) {
    w != [] && forall i :: 0 <= i < |w| ==> !IsWhitespace(w[i])
  }

  /** `split_whitespace`: the maximal runs of non-whitespace, in order. */
  function SplitWhitespace(s: string): (r: seq<string>)
    ensures forall w :: w in r ==> IsWord(w)
    decreases |s|
  {
    var t := TrimStart(s);
    if t == [] then []
    else
      var n := WordLength(t);
      assert n >= 1;
      var w := t[..n];
      var rest := SplitWhitespace(t[n..]);
      assert IsWord(w);
      [w] + rest
  }

  /** Words followed by a space each. */
  function Spaced(words: seq<string>): string {
    if words == [] then [] else words[0] + " " + Spaced(words[1..])
  }

  /** `split_whitespace` recovers words written out one after another, each followed by a space. */
  lemma {:induction false} SplitSpaced(words: seq<string>)
    requires forall k :: 0 <= k < |words| ==> IsWord(words[k])
    ensures SplitWhitespace(Spaced(words)) == words
  {
    if words != [] {
      var w, rest := words[0], Spaced(words[1..]);
      assert Spaced(words) == w + (" " + rest);
      SplitAfterWord(w, " " + rest);
      SplitWhitespace1(rest);
      SplitSpaced(words[1..]);
      assert [w] + words[1..] == words;
    }
  }

  /** A word followed by whitespace is the first word of the split. */
  lemma SplitAfterWord(w: string, t: string)
    requires IsWord(w) && t != [] && IsWhitespace(t[0])
    ensures SplitWhitespace(w + t) == [w] + SplitWhitespace(t)
  {
    var s := w + t;
    assert TrimStart(s) == s;
    WordLengthOf(w, t);
    assert s[..|w|] == w;
    assert s[|w|..] == t;
  }

  lemma WordLengthOf(w: string, t: string)
    requires forall i :: 0 <= i < |w| ==> !IsWhitespace(w[i])
    requires t != [] && IsWhitespace(t[0])
    ensures WordLength(w + t) == |w|
  {
    if w != [] {
      assert (w + t)[1..] == w[1..] + t;
      WordLengthOf(w[1..], t);
    }
  }

  /** A leading space does not change the words. */
  lemma SplitWhitespace1(s: string)
    ensures SplitWhitespace(" " + s) == SplitWhitespace(s)
  {
    assert (" " + s)[1..] == s;
  }

  /** The length of the leading run of characters other than a line feed. */
  function LineLength(s: string): (n: nat)
    ensures n <= |s|
    ensures forall i :: 0 <= i < n ==> s[i] != '\n'
    ensures n == |s| || s[n] == '\n'
  {
    if s == [] || s[0] == '\n' then 0 else 1 + LineLength(s[1..])
  }

  /** A line ended by a line feed loses a carriage return in front of it. */
  function StripCr(line: string): (r: string)
    ensures r == line || (line == r + "\r")
  {
    if line != [] && line[|line| - 1] == '\r' then line[..|line| - 1] else line
  }

  /**
   * `lines`: the text split at each line feed, a carriage return just
   * before the line feed dropped, and no empty line after a final line
   * feed.
   */
  function Lines(s: string): seq<string>
    decreases |s|
  {
    if s == [] then []
    else
      var n := LineLength(s);
      if n == |s| then [s] else [StripCr(s[..n])] + Lines(s[n + 1..])
  }

  /** No line holds a line feed. */
  lemma {:induction false} LinesHaveNoLineFeed(s: string)
    ensures forall k :: 0 <= k < |Lines(s)| ==> '\n' !in Lines(s)[k]
    decreases |s|
  {
    if s != [] {
      var n := LineLength(s);
      if n == |s| {
        assert forall ch :: ch in s ==> ch != '\n';
      } else {
        assert forall ch :: ch in s[..n] ==> ch != '\n';
        LinesHaveNoLineFeed(s[n + 1..]);
      }
    }
  }

  /** A line without a line feed and not ending in a carriage return comes back out of `lines`. */
  lemma LinesCons(line: string, rest: string)
    requires '\n' !in line && (line == [] || line[|line| - 1] != '\r')
    ensures Lines(line + "\n" + rest) == [line] + Lines(rest)
  {
    var s := line + "\n" + rest;
    LineLengthOf(line, "\n" + rest);
    assert s == line + ("\n" + rest);
    assert s[..|line|] == line;
    assert s[|line| + 1..] == rest;
  }

  lemma LineLengthOf(line: string, t: string)
    requires '\n' !in line && t != [] && t[0] == '\n'
    ensures LineLength(line + t) == |line|
  {
    if line != [] {
      assert (line + t)[1..] == line[1..] + t;
      LineLengthOf(line[1..], t);
    }
  }

  // ---------------------------------------------------------------------
  // Unsigned decimal numbers

  predicate IsDigit(ch: char) {
    '0' <= ch <= '9'
  }

  function DigitValue(ch: char): nat
    requires IsDigit(ch)
  {
    ch as int - '0' as int
  }

  /** The value of a string of decimal digits, most significant first. */
  function DigitsValue(s: string): nat
    requires forall i :: 0 <= i < |s| ==> IsDigit(s[i])
  {
    if s == [] then 0 else DigitsValue(s[..|s| - 1]) * 10 + DigitValue(s[|s| - 1])
  }

  /**
   * `u8::from_str`: an optional `+` and at least one ASCII digit, with a
   * value that fits in eight bits; anything else is an error.
   */
  function ParseU8(s: string): (r: Option<int>)
    ensures r.Some? ==> 0 <= r.value < 256
  {
    var digits := if |s| > 0 && s[0] == '+' then s[1..] else s;
    if digits == [] || exists i :: 0 <= i < |digits| && !IsDigit(digits[i]) then None
    else if DigitsValue(digits) > 255 then None
    else Some(DigitsValue(digits))
  }

  /** The decimal digits of `n`, without leading zeros. */
  function Decimal(n: nat): (s: string)
    ensures s != [] && forall i :: 0 <= i < |s| ==> IsDigit(s[i])
  {
    var last := ['0' + (n % 10) as char];
    if n < 10 then last else Decimal(n / 10) + last
  }

  lemma {:induction false} DecimalValue(n: nat)
    ensures DigitsValue(Decimal(n)) == n
  {
    var s := Decimal(n);
    if n >= 10 {
      DecimalValue(n / 10);
      assert s[..|s| - 1] == Decimal(n / 10);
    }
  }

  /** Every turn number written in decimal, with or without a leading `+`, parses back. */
  lemma ParseDecimal(n: nat)
    requires n < 256
    ensures ParseU8(Decimal(n)) == Some(n)
    ensures ParseU8("+" + Decimal(n)) == Some(n)
  {
    DecimalValue(n);
    assert ("+" + Decimal(n))[1..] == Decimal(n);
  }
}
