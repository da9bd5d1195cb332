/**
 * The string primitives the server (Java) and the browser pages (JavaScript)
 * use to normalise user input: whitespace trimming and ASCII case mapping.
 */
module Text {

  /** `java.lang.String.trim` strips every code point at or below U+0020. */
  predicate IsJavaSpace(c: char) {
    c <= ' '
  }

  /** ECMAScript WhiteSpace and LineTerminator code points, stripped by `String.prototype.trim`. */
  predicate IsJsSpace(c: char) {
    || c == '\t' || c == '\n' || c == '\U{000B}' || c == '\U{000C}' || c == '\r' || c == ' '
    || c == '\U{00A0}' || c == '\U{1680}' || ('\U{2000}' <= c <= '\U{200A}')
    || c == '\U{2028}' || c == '\U{2029}' || c == '\U{202F}' || c == '\U{205F}'
    || c == '\U{3000}' || c == '\U{FEFF}'
  }

  /** Which characters a trimming function strips: Java's or JavaScript's. */
  datatype Whitespace = JavaWhitespace | JsWhitespace

  predicate IsSpace(ws: Whitespace, c: char) {
    match ws
    case JavaWhitespace => IsJavaSpace(c)
    case JsWhitespace => IsJsSpace(c)
  }

  /**
   * The index of the first character at or after `i` that is not a `ws`
   * character, or `|s|` when there is none.
   */
  function SkipSpaces(s: string, ws: Whitespace, i: nat): (n: nat)
    requires i <= |s|
    ensures i <= n <= |s|
    ensures forall k :: i <= k < n ==> IsSpace(ws, s[k])
    ensures n < |s| ==> !IsSpace(ws, s[n])
    decreases |s| - i
  {
    if i < |s| && IsSpace(ws, s[i]) then SkipSpaces(s, ws, i + 1) else i
  }

  /**
   * The end of `s[lo..hi]` once its trailing run of `ws` characters is
   * dropped.
   */
  function BackSpaces(s: string, ws: Whitespace, lo: nat, hi: nat): (n: nat)
    requires lo <= hi <= |s|
    ensures lo <= n <= hi
    ensures forall k :: n <= k < hi ==> IsSpace(ws, s[k])
    ensures n > lo ==> !IsSpace(ws, s[n - 1])
    decreases hi
  {
    if hi > lo && IsSpace(ws, s[hi - 1]) then BackSpaces(s, ws, lo, hi - 1) else hi
  }

  /**
   * `r` is the infix `s[i..j]` and everything of `s` outside it is a space.
   */
  ghost predicate Strips(s: string, r: string, i: int, j: int, ws: Whitespace) {
    && 0 <= i <= j <= |s|
    && r == s[i..j]
    && (forall k :: 0 <= k < i ==> IsSpace(ws, s[k]))
    && (forall k :: j <= k < |s| ==> IsSpace(ws, s[k]))
  }

  /**
   * Trimming keeps the infix of `s` left after removing the maximal runs of
   * `ws` characters at both ends; it is empty exactly when every
   * character of `s` is a space.
   */
  function Trim(s: string, ws: Whitespace): (r: string)
    ensures exists i, j :: Strips(s, r, i, j, ws)
    ensures r == [] || (!IsSpace(ws, r[0]) && !IsSpace(ws, r[|r| - 1]))
    ensures |r| == 0 <==> forall k :: 0 <= k < |s| ==> IsSpace(ws, s[k])
  {
    var i := SkipSpaces(s, ws, 0);
    var j := BackSpaces(s, ws, i, |s|);
    assert Strips(s, s[i..j], i, j, ws);
    s[i..j]
  }

  /** A string that already has no space at either end is left alone by trimming. */
  lemma TrimUnchanged(s: string, ws: Whitespace)
    requires s == [] || (!IsSpace(ws, s[0]) && !IsSpace(ws, s[|s| - 1]))
    ensures Trim(s, ws) == s
  {
    if s != [] {
      assert SkipSpaces(s, ws, 0) == 0;
      assert BackSpaces(s, ws, 0, |s|) == |s|;
    }
  }

  /** Trimming is idempotent. */
  lemma TrimIdempotent(s: string, ws: Whitespace)
    ensures Trim(Trim(s, ws), ws) == Trim(s, ws)
  {
    TrimUnchanged(Trim(s, ws), ws);
  }

  /** Java's `s.trim()`. */
  function JavaTrim(s: string): string {
    Trim(s, JavaWhitespace)
  }

  /** JavaScript's `s.trim()`. */
  function JsTrim(s: string): string {
    Trim(s, JsWhitespace)
  }

  /** Java's `s.trim().isEmpty()`. */
  predicate IsBlank(s: string) {
    |JavaTrim(s)| == 0
  }

  /** The empty string is blank, so a non-blank string is not empty. */
  lemma EmptyIsBlank()
    ensures IsBlank([])
  {
  }

  function UpperChar(c: char): char {
    if 'a' <= c <= 'z' then (c as int - 32) as char else c
  }

  function LowerChar(c: char): char {
    if 'A' <= c <= 'Z' then (c as int + 32) as char else c
  }

  /** `toUpperCase()` restricted to ASCII letters; every other character is kept. */
  function Upper(s: string): (r: string)
    ensures |r| == |s|
    ensures forall i :: 0 <= i < |s| ==> r[i] == UpperChar(s[i])
  {
    seq(|s|, i requires 0 <= i < |s| => UpperChar(s[i]))
  }

  /** `toLowerCase()` restricted to ASCII letters; every other character is kept. */
  function Lower(s: string): (r: string)
    ensures |r| == |s|
    ensures forall i :: 0 <= i < |s| ==> r[i] == LowerChar(s[i])
  {
    seq(|s|, i requires 0 <= i < |s| => LowerChar(s[i]))
  }

  /**
   * Upper-casing leaves no ASCII lower-case letter: each one becomes its
   * capital, and every other character is kept.
   */
  lemma UpperMapsLetters(s: string)
    ensures |Upper(s)| == |s|
    ensures forall i :: 0 <= i < |s| ==> !('a' <= Upper(s)[i] <= 'z')
    ensures forall i :: 0 <= i < |s| && 'a' <= s[i] <= 'z' ==>
      'A' <= Upper(s)[i] <= 'Z' && Upper(s)[i] as int == s[i] as int - 32
    ensures forall i :: 0 <= i < |s| && !('a' <= s[i] <= 'z') ==> Upper(s)[i] == s[i]
  {
  }

  /** Upper-casing twice is upper-casing once. */
  lemma UpperIdempotent(s: string)
    ensures Upper(Upper(s)) == Upper(s)
  {
    UpperMapsLetters(s);
  }

  /** Lower-casing an upper-cased string gives the lower-cased original. */
  lemma LowerOfUpper(s: string)
    ensures Lower(Upper(s)) == Lower(s)
  {
  }

  /** No character of `s` is an ASCII lower-case letter. */
  predicate NoLowerCase(s: string) {
    forall i :: 0 <= i < |s| ==> !('a' <= s[i] <= 'z')
  }

  /** Upper-casing gives a string with no lower-case letter. */
  lemma UpperHasNoLowerCase(s: string)
    ensures NoLowerCase(Upper(s))
  {
    UpperMapsLetters(s);
  }

  /** A string without lower-case letters is its own upper-case form. */
  lemma UpperFixed(s: string)
    requires NoLowerCase(s)
    ensures Upper(s) == s
  {
    UpperMapsLetters(s);
  }

  /** Trimming only drops characters, so it adds no lower-case letter. */
  lemma TrimKeepsNoLowerCase(s: string, ws: Whitespace)
    requires NoLowerCase(s)
    ensures NoLowerCase(Trim(s, ws))
  {
    var r := Trim(s, ws);
    var i, j :| Strips(s, r, i, j, ws);
    forall n | 0 <= n < |r| ensures !('a' <= r[n] <= 'z') {
      assert r[n] == s[i + n];
    }
  }
}
