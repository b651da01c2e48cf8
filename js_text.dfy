/**
 * The two JavaScript string primitives the forms rely on:
 * `String.prototype.trim` and `String.prototype.length`.
 *
 * Dafny's `char` is a Unicode scalar value, while a JavaScript string is a
 * sequence of UTF-16 code units, so `length` is modelled explicitly: a
 * character outside the Basic Multilingual Plane counts as two.
 */
module JsText {

  /**
   * The characters `trim` removes: ECMAScript's WhiteSpace (tab, vertical tab,
   * form feed, the byte order mark and every space separator of Unicode
   * category Zs) and LineTerminator (LF, CR, U+2028, U+2029).
   */
  predicate IsWhitespace(c: char) {
    var n := c as int;
    || n == 0x09 || n == 0x0A || n == 0x0B || n == 0x0C || n == 0x0D
    || n == 0x20 || n == 0xA0 || n == 0x1680
    || (0x2000 <= n <= 0x200A)
    || n == 0x2028 || n == 0x2029 || n == 0x202F || n == 0x205F
    || n == 0x3000 || n == 0xFEFF
  }

  /** True when `trim` leaves nothing of `s` (JavaScript `!s.trim()`). */
  predicate IsBlank(s: string) {
    forall i :: 0 <= i < |s| ==> IsWhitespace(s[i])
  }

  /** Number of UTF-16 code units needed for `c`. */
  function CodeUnits(c: char): nat {
    if c as int < 0x1_0000 then 1 else 2
  }

  /** `s.length` in JavaScript: UTF-16 code units, between |s| and 2 * |s|. */
  function JsLength(s: string): (n: nat)
    ensures |s| <= n <= 2 * |s|
    ensures n == 0 <==> s == []
  {
    if s == [] then 0 else CodeUnits(s[0]) + JsLength(s[1..])
  }

  lemma {:induction false} JsLengthAppend(a: string, b: string)
    ensures JsLength(a + b) == JsLength(a) + JsLength(b)
  {
    if a == [] {
      assert a + b == b;
    } else {
      assert (a + b)[0] == a[0];
      assert (a + b)[1..] == a[1..] + b;
      JsLengthAppend(a[1..], b);
    }
  }

  /** A contiguous piece of a string is never longer than the string. */
  lemma {:induction false} JsLengthSlice(s: string, i: nat, j: nat)
    requires i <= j <= |s|
    ensures JsLength(s[i..j]) <= JsLength(s)
  {
    var front := s[..j];
    assert front[..i] + front[i..] == front;
    assert front[i..] == s[i..j];
    JsLengthAppend(front[..i], front[i..]);
    assert front + s[j..] == s;
    JsLengthAppend(front, s[j..]);
  }

  /** Text made only of Basic Multilingual Plane characters has one code unit per character. */
  lemma {:induction false} JsLengthBmp(s: string)
    requires forall i :: 0 <= i < |s| ==> s[i] as int < 0x1_0000
    ensures JsLength(s) == |s|
  {
    if s != [] {
      JsLengthBmp(s[1..]);
    }
  }

  /** Length of the whitespace run at the start of `s`. */
  function LeadingWhitespace(s: string): (n: nat)
    ensures n <= |s|
    ensures forall i :: 0 <= i < n ==> IsWhitespace(s[i])
    ensures n < |s| ==> !IsWhitespace(s[n])
  {
    if s != [] && IsWhitespace(s[0]) then 1 + LeadingWhitespace(s[1..]) else 0
  }

  /** Length of the whitespace run at the end of `s`. */
  function TrailingWhitespace(s: string): (n: nat)
    ensures n <= |s|
    ensures forall i :: |s| - n <= i < |s| ==> IsWhitespace(s[i])
    ensures n < |s| ==> !IsWhitespace(s[|s| - 1 - n])
  {
    if s != [] && IsWhitespace(s[|s| - 1]) then 1 + TrailingWhitespace(s[..|s| - 1]) else 0
  }

  /**
   * `s.trim()`: `s` without its leading and trailing whitespace. The result is
   * the piece of `s` that follows the leading whitespace run and is followed
   * by whitespace only; it is empty exactly when `s` is blank, and otherwise
   * starts and ends with a non-whitespace character. `TrimNoLonger` bounds
   * its length.
   */
  function Trim(s: string): (r: string)
    ensures LeadingWhitespace(s) + |r| <= |s|
    ensures r == s[LeadingWhitespace(s)..LeadingWhitespace(s) + |r|]
    ensures forall k :: LeadingWhitespace(s) + |r| <= k < |s| ==> IsWhitespace(s[k])
    ensures r == [] <==> IsBlank(s)
    ensures r != [] ==> !IsWhitespace(r[0]) && !IsWhitespace(r[|r| - 1])
  {
    var a := LeadingWhitespace(s);
    var t := s[a..];
    var e := |t| - TrailingWhitespace(t);
    TrimTail(s, a, t, e);
    TrimEnds(s, a, t, e);
    s[a..a + e]
  }

  /** What follows the trimmed text is whitespace. */
  lemma TrimTail(s: string, a: nat, t: string, e: nat)
    requires a <= |s| && t == s[a..] && e == |t| - TrailingWhitespace(t)
    ensures forall k :: a + e <= k < |s| ==> IsWhitespace(s[k])
  {
    forall k | a + e <= k < |s| ensures IsWhitespace(s[k]) {
      assert s[k] == t[k - a];
    }
  }

  /** The trimmed text is empty only for blank input, and otherwise has non-whitespace ends. */
  lemma TrimEnds(s: string, a: nat, t: string, e: nat)
    requires a == LeadingWhitespace(s) && t == s[a..] && e == |t| - TrailingWhitespace(t)
    ensures a + e <= |s|
    ensures s[a..a + e] == [] <==> IsBlank(s)
    ensures s[a..a + e] != [] ==> !IsWhitespace(s[a..a + e][0]) && !IsWhitespace(s[a..a + e][e - 1])
  {
    if e != 0 {
      assert s[a..a + e][0] == s[a] == t[0];
      assert s[a..a + e][e - 1] == s[a + e - 1] == t[|t| - 1 - TrailingWhitespace(t)];
    }
  }

  /** Trimming never lengthens text, counted in characters or in code units. */
  lemma TrimNoLonger(s: string)
    ensures |Trim(s)| <= |s| && JsLength(Trim(s)) <= JsLength(s)
  {
    var a := LeadingWhitespace(s);
    JsLengthSlice(s, a, a + |Trim(s)|);
  }

  /** Trimming twice is trimming once. */
  lemma {:induction false} TrimIdempotent(s: string)
    ensures Trim(Trim(s)) == Trim(s)
  {
    TrimOfTrimmed(Trim(s));
  }

  /** Text that neither starts nor ends with whitespace is left as it is. */
  lemma {:induction false} TrimOfTrimmed(s: string)
    requires s != [] ==> !IsWhitespace(s[0]) && !IsWhitespace(s[|s| - 1])
    ensures Trim(s) == s
  {
    assert LeadingWhitespace(s) == 0;
    assert s != [] ==> TrailingWhitespace(s) == 0;
  }
}
