/**
 * Character classes and string helpers with the meaning JavaScript gives them:
 * the `\s` / `String.prototype.trim` whitespace set, the `\w` word characters
 * used by `\b`, `\d` digits, and lower-casing (ASCII letters only).
 */
module Text {

  /** JavaScript WhiteSpace and LineTerminator code points: what `\s` matches and `trim` removes. */
  predicate IsSpace(c: char) {
    || c == '\t' || c == '\n' || c == '\U{000B}' || c == '\U{000C}' || c == '\r' || c == ' '
    || c == '\U{00A0}' || c == '\U{1680}' || ('\U{2000}' <= c <= '\U{200A}')
    || c == '\U{2028}' || c == '\U{2029}' || c == '\U{202F}' || c == '\U{205F}'
    || c == '\U{3000}' || c == '\U{FEFF}'
  }

  predicate IsDigit(c: char) {
    '0' <= c <= '9'
  }

  predicate IsAsciiLetter(c: char) {
    ('a' <= c <= 'z') || ('A' <= c <= 'Z')
  }

  /** `\w` outside Unicode mode: the characters on the inside of a `\b` boundary. */
  predicate IsWordChar(c: char) {
    IsAsciiLetter(c) || IsDigit(c) || c == '_'
  }

  /** The class `[a-zA-Z0-9\-\.]` of a spoken part identifier such as "AB-314.01". */
  predicate IsIdChar(c: char) {
    IsAsciiLetter(c) || IsDigit(c) || c == '-' || c == '.'
  }

  predicate AllSpace(s: string) {
    forall k :: 0 <= k < |s| ==> IsSpace(s[k])
  }

  predicate AllDigits(s: string) {
    forall k :: 0 <= k < |s| ==> IsDigit(s[k])
  }

  function LowerChar(c: char): (d: char)
    ensures 'A' <= c <= 'Z' ==> 'a' <= d <= 'z' && d as int == c as int + 32
    ensures !('A' <= c <= 'Z') ==> d == c
  {
    if 'A' <= c <= 'Z' then (c as int + 32) as char else c
  }

  /** Lower-casing of ASCII letters; every other character is kept. */
  function Lower(s: string): (r: string)
    ensures |r| == |s|
    ensures forall k :: 0 <= k < |s| ==> r[k] == LowerChar(s[k])
  {
    seq(|s|, k requires 0 <= k < |s| => LowerChar(s[k]))
  }

  /** A character that lower-cases to something other than an ASCII lower-case letter was already that character. */
  lemma LowerCharFixed(c: char, d: char)
    requires LowerChar(c) == d && !('a' <= d <= 'z')
    ensures c == d
  {
  }

  /** A string without upper-case ASCII letters is its own lower-case form. */
  lemma LowerOfLower(s: string)
    requires forall k :: 0 <= k < |s| ==> !('A' <= s[k] <= 'Z')
    ensures Lower(s) == s
  {
  }

  /** Index just past the maximal run of characters satisfying `inClass` that starts at `i`. */
  function RunEnd(t: string, i: nat, inClass: char -> bool): (j: nat)
    requires i <= |t|
    ensures i <= j <= |t|
    ensures forall k :: i <= k < j ==> inClass(t[k])
    ensures j == |t| || !inClass(t[j])
    decreases |t| - i
  {
    if i < |t| && inClass(t[i]) then RunEnd(t, i + 1, inClass) else i
  }

  /** A run is maximal exactly when it stops at the end of the text or at a character outside the class. */
  lemma RunEndUnique(t: string, i: nat, j: nat, inClass: char -> bool)
    requires i <= j <= |t|
    requires forall k :: i <= k < j ==> inClass(t[k])
    requires j == |t| || !inClass(t[j])
    ensures RunEnd(t, i, inClass) == j
  {
    var e := RunEnd(t, i, inClass);
    assert !(e < j) && !(j < e);
  }

  /** Every prefix of a run lies inside the maximal run. */
  lemma RunEndCovers(t: string, i: nat, j: nat, inClass: char -> bool)
    requires i <= j <= |t|
    requires forall k :: i <= k < j ==> inClass(t[k])
    ensures j <= RunEnd(t, i, inClass)
  {
    var e := RunEnd(t, i, inClass);
    assert !(e < j);
  }

  /** Index of the start of the maximal run of whitespace that ends at `j`, not going below `lo`. */
  function TrailStart(s: string, lo: nat, j: nat): (i: nat)
    requires lo <= j <= |s|
    ensures lo <= i <= j
    ensures forall k :: i <= k < j ==> IsSpace(s[k])
    ensures i == lo || !IsSpace(s[i - 1])
    decreases j
  {
    if j > lo && IsSpace(s[j - 1]) then TrailStart(s, lo, j - 1) else j
  }

  /** `String.prototype.trim`: drop leading and trailing whitespace and line terminators. */
  function Trim(s: string): (r: string)
    ensures r == [] || (!IsSpace(r[0]) && !IsSpace(r[|r| - 1]))
    ensures exists i, j :: 0 <= i <= j <= |s| && r == s[i..j] && AllSpace(s[..i]) && AllSpace(s[j..])
  {
    var i := RunEnd(s, 0, IsSpace);
    var j := TrailStart(s, i, |s|);
    assert AllSpace(s[..i]) && AllSpace(s[j..]);
    s[i..j]
  }

  /** Trimming a text that neither starts nor ends with white space returns it unchanged; in particular `trim` is idempotent. */
  lemma TrimFixed(s: string)
    requires s == [] || (!IsSpace(s[0]) && !IsSpace(s[|s| - 1]))
    ensures Trim(s) == s
  {
    RunEndUnique(s, 0, 0, IsSpace);
  }

  /** Lower-casing keeps white space where it was. */
  lemma LowerKeepsSpace(s: string)
    ensures forall k :: 0 <= k < |s| ==> (IsSpace(Lower(s)[k]) <==> IsSpace(s[k]))
  {
  }

  /** Trimming twice is the same as trimming once. */
  lemma TrimIdempotent(s: string)
    ensures Trim(Trim(s)) == Trim(s)
  {
    TrimFixed(Trim(s));
  }

}
