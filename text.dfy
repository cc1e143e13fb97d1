/**
 The JavaScript string operations the project search is built from:
 `toLowerCase`, `trim` and `includes`, on strings as sequences of characters.
 */
module Text {

  /**
   The characters `String.prototype.trim` strips: ECMAScript's WhiteSpace
   (tab, vertical tab, form feed, space, no-break space, byte order mark and
   the Unicode space separators) and LineTerminator (line feed, carriage
   return, line and paragraph separators).
   */
  predicate IsWhitespace(c: char)
  {
    || c == '\t' || c == '\n' || c == '\U{000B}' || c == '\U{000C}' || c == '\r'
    || c == ' ' || c == '\U{00A0}' || c == '\U{1680}'
    || ('\U{2000}' <= c <= '\U{200A}')
    || c == '\U{2028}' || c == '\U{2029}' || c == '\U{202F}' || c == '\U{205F}'
    || c == '\U{3000}' || c == '\U{FEFF}'
  }

  /** Upper-case letters of Basic Latin and Latin-1, each 32 code points above its lower-case form. */
  predicate IsUpper(c: char)
  {
    ('A' <= c <= 'Z') || ('\U{00C0}' <= c <= '\U{00DE}' && c != '\U{00D7}')
  }

  /** `toLowerCase` on one character. */
  function LowerChar(c: char): (r: char)
    ensures !IsUpper(r)
    ensures IsWhitespace(r) == IsWhitespace(c)
    ensures !IsUpper(c) ==> r == c
  {
    if IsUpper(c) then (c as int + 32) as char else c
  }

  /** `s.toLowerCase()`, character by character. */
  function ToLower(s: string): (r: string)
    ensures |r| == |s|
    ensures forall i :: 0 <= i < |s| ==> r[i] == LowerChar(s[i])
    ensures forall i :: 0 <= i < |r| ==> !IsUpper(r[i])
  {
    seq(|s|, i requires 0 <= i < |s| => LowerChar(s[i]))
  }

  /** Lower-casing twice is lower-casing once. */
  lemma ToLowerIdempotent(s: string)
    ensures ToLower(ToLower(s)) == ToLower(s)
  {
    var t := ToLower(s);
    assert forall i :: 0 <= i < |t| ==> ToLower(t)[i] == t[i];
  }

  /** The number of whitespace characters at the front of `s`. */
  function LeadingWhitespace(s: string): (n: nat)
    ensures n <= |s|
    ensures forall k :: 0 <= k < n ==> IsWhitespace(s[k])
    ensures n < |s| ==> !IsWhitespace(s[n])
  {
    if s == [] || !IsWhitespace(s[0]) then 0 else 1 + LeadingWhitespace(s[1..])
  }

  /** The number of whitespace characters at the end of `s`. */
  function TrailingWhitespace(s: string): (n: nat)
    ensures n <= |s|
    ensures forall k :: |s| - n <= k < |s| ==> IsWhitespace(s[k])
    ensures n < |s| ==> !IsWhitespace(s[|s| - n - 1])
  {
    if s == [] || !IsWhitespace(s[|s| - 1]) then 0 else 1 + TrailingWhitespace(s[..|s| - 1])
  }

  /** `needle` occurs in `hay` starting at position `i`. */
  predicate OccursAt(needle: string, hay: string, i: nat)
  {
    i + |needle| <= |hay| && hay[i..i + |needle|] == needle
  }

  /**
   `s.trim()`: `s` without its leading and trailing whitespace. The result is
   a slice of `s`, everything cut off is whitespace, the result neither starts
   nor ends with whitespace, and it is empty exactly when `s` is all
   whitespace.
   */
  function Trim(s: string): (r: string)
    ensures exists i: nat :: OccursAt(r, s, i) &&
                             (forall k :: 0 <= k < i ==> IsWhitespace(s[k])) &&
                             (forall k :: i + |r| <= k < |s| ==> IsWhitespace(s[k]))
    ensures r != [] ==> !IsWhitespace(r[0]) && !IsWhitespace(r[|r| - 1])
    ensures r == [] <==> forall k :: 0 <= k < |s| ==> IsWhitespace(s[k])
  {
    var i := LeadingWhitespace(s);
    var t := s[i..];
    var j := TrailingWhitespace(t);
    var r := t[..|t| - j];
    assert OccursAt(r, s, i);
    assert forall k :: i + |r| <= k < |s| ==> s[k] == t[k - i];
    r
  }

  /** Trimming a string without upper-case letters leaves none. */
  lemma TrimKeepsLowerCase(s: string)
    requires forall k :: 0 <= k < |s| ==> !IsUpper(s[k])
    ensures forall k :: 0 <= k < |Trim(s)| ==> !IsUpper(Trim(s)[k])
  {
    var r := Trim(s);
    var i: nat :| OccursAt(r, s, i);
    forall k | 0 <= k < |r|
      ensures !IsUpper(r[k])
    {
      assert r[k] == s[i..i + |r|][k] == s[i + k];
    }
  }

  /** Lower-casing keeps a string all-whitespace or not, so it keeps `trim()` empty or not. */
  lemma TrimToLowerEmpty(s: string)
    ensures Trim(ToLower(s)) == [] <==> Trim(s) == []
  {
    var t := ToLower(s);
    assert forall k :: 0 <= k < |s| ==> (IsWhitespace(t[k]) <==> IsWhitespace(s[k]));
  }

  /** `needle` occurs somewhere in `hay` as a contiguous run. */
  ghost predicate IsSubstring(needle: string, hay: string)
  {
    exists i: nat :: OccursAt(needle, hay, i)
  }

  /** `hay.includes(needle)`: a left-to-right scan for `needle`. */
  function Includes(hay: string, needle: string): (b: bool)
    ensures b <==> IsSubstring(needle, hay)
    decreases |hay|
  {
    if |needle| <= |hay| && hay[..|needle|] == needle then
      assert OccursAt(needle, hay, 0);
      true
    else if hay == [] then
      false
    else
      var b := Includes(hay[1..], needle);
      assert b ==> IsSubstring(needle, hay) by {
        if b {
          var i: nat :| OccursAt(needle, hay[1..], i);
          assert hay[1..][i..i + |needle|] == hay[i + 1..i + 1 + |needle|];
          assert OccursAt(needle, hay, i + 1);
        }
      }
      assert IsSubstring(needle, hay) ==> b by {
        if IsSubstring(needle, hay) {
          var i: nat :| OccursAt(needle, hay, i);
          assert i != 0;
          assert hay[1..][i - 1..i - 1 + |needle|] == hay[i..i + |needle|];
          assert OccursAt(needle, hay[1..], i - 1);
        }
      }
      b
  }
}
