/**
 * The two global, case-insensitive patterns that pick facts out of a
 * transcript, `part\s+([a-zA-Z0-9\-\.]+)` and `dimension\s+(\d+(\.\d+)?)`.
 * `MatchAt` is the greedy match of a pattern at one position; `Matches` is
 * what the pattern means; `AllHits` is the list `matchAll` returns.
 */
module Patterns {
  import opened Options
  import opened Text
  import opened Scan

  datatype Keyword = Part | Dimension

  /** The literal that opens each pattern (compared case-insensitively). */
  function KeywordText(k: Keyword): string {
    match k
    case Part => "part"
    case Dimension => "dimension"
  }

  /** A spoken part identifier: one or more of `[a-zA-Z0-9\-\.]`. */
  predicate IsPartId(s: string) {
    |s| > 0 && forall k :: 0 <= k < |s| ==> IsIdChar(s[k])
  }

  /** A number of the form `\d+(\.\d+)?`. */
  predicate IsDecimal(s: string) {
    || (|s| > 0 && AllDigits(s))
    || exists i :: 0 < i < |s| - 1 && s[i] == '.' && AllDigits(s[..i]) && AllDigits(s[i + 1..])
  }

  predicate CaptureForm(k: Keyword, s: string) {
    match k
    case Part => IsPartId(s)
    case Dimension => IsDecimal(s)
  }

  /**
   * What the pattern means, without any greediness: `t[p..e]` is the keyword
   * in any letter case, then one or more whitespace characters up to `ws`,
   * then a captured group `t[ws..e]` of the right form.
   */
  ghost predicate Matches(k: Keyword, t: string, p: nat, ws: nat, e: nat) {
    var n := |KeywordText(k)|;
    && p + n < ws < e <= |t|
    && Lower(t[p..p + n]) == KeywordText(k)
    && AllSpace(t[p + n..ws])
    && CaptureForm(k, t[ws..e])
  }

  /** End of the optional `(\.\d+)` group that follows the integer digits ending at `d`. */
  function FractionEnd(t: string, d: nat): (e: nat)
    requires d <= |t|
    ensures d <= e <= |t|
  {
    if d + 1 < |t| && t[d] == '.' && IsDigit(t[d + 1]) then RunEnd(t, d + 1, IsDigit) else d
  }

  /** The greedy match of the pattern starting exactly at `p`, if there is one. */
  function MatchAt(k: Keyword, t: string, p: nat): (r: Option<Hit>)
    ensures r.Some? ==> r.value.start == p < r.value.end <= |t|
  {
    var kw := KeywordText(k);
    if p + |kw| <= |t| && Lower(t[p..p + |kw|]) == kw then
      var ws := RunEnd(t, p + |kw|, IsSpace);
      if ws == p + |kw| then None
      else
        match k
        case Part =>
          var e := RunEnd(t, ws, IsIdChar);
          if e == ws then None else Some(Hit(p, e, t[ws..e]))
        case Dimension =>
          var d := RunEnd(t, ws, IsDigit);
          if d == ws then None else var e := FractionEnd(t, d); Some(Hit(p, e, t[ws..e]))
    else None
  }

  /** Where the captured group of a hit begins. */
  function CaptureStart(h: Hit): int {
    h.end - |h.capture|
  }

  /** A hit of `MatchAt` is a match of the pattern, and its capture is the group's text. */
  lemma MatchAtSound(k: Keyword, t: string, p: nat)
    requires MatchAt(k, t, p).Some?
    ensures var h := MatchAt(k, t, p).value;
      && p < CaptureStart(h) && h.capture == t[CaptureStart(h)..h.end]
      && Matches(k, t, p, CaptureStart(h), h.end)
  {
    var n := |KeywordText(k)|;
    var h := MatchAt(k, t, p).value;
    var ws := RunEnd(t, p + n, IsSpace);
    assert h.capture == t[ws..h.end];
    assert CaptureStart(h) == ws;
    assert AllSpace(t[p + n..ws]);
    match k
    case Part =>
      assert forall j :: 0 <= j < |h.capture| ==> h.capture[j] == t[ws + j];
    case Dimension =>
      var d := RunEnd(t, ws, IsDigit);
      DecimalShape(t, ws, d, FractionEnd(t, d));
  }

  /**
   * Every match of the pattern at `p` is found by `MatchAt`, with the same
   * group start, and none is longer than the one `MatchAt` returns.
   */
  lemma MatchAtLongest(k: Keyword, t: string, p: nat, ws: nat, e: nat)
    requires Matches(k, t, p, ws, e)
    ensures MatchAt(k, t, p).Some?
    ensures ws == CaptureStart(MatchAt(k, t, p).value) && e <= MatchAt(k, t, p).value.end
  {
    var n := |KeywordText(k)|;
    CaptureStartNotSpace(k, t[ws..e]);
    assert t[ws..e][0] == t[ws];
    forall j | p + n <= j < ws
      ensures IsSpace(t[j])
    {
      assert t[p + n..ws][j - p - n] == t[j];
    }
    RunEndUnique(t, p + n, ws, IsSpace);
    match k
    case Part =>
      forall j | ws <= j < e
        ensures IsIdChar(t[j])
      {
        assert t[ws..e][j - ws] == t[j];
      }
      RunEndCovers(t, ws, e, IsIdChar);
    case Dimension =>
      var d := RunEnd(t, ws, IsDigit);
      RunEndCovers(t, ws, ws + 1, IsDigit);
      DecimalLongest(t, ws, d, e);
  }

  /**
   * `MatchAt` is the regex semantics: a hit is a match of the pattern whose
   * group is the text it captures, no match at `p` is longer, and `None`
   * means the pattern does not match at `p` at all.
   */
  lemma MatchAtCorrect(k: Keyword, t: string, p: nat)
    ensures MatchAt(k, t, p).Some? ==>
      var h := MatchAt(k, t, p).value;
      && p < CaptureStart(h) && h.capture == t[CaptureStart(h)..h.end]
      && Matches(k, t, p, CaptureStart(h), h.end)
    ensures MatchAt(k, t, p).Some? ==>
      forall ws: nat, e: nat :: Matches(k, t, p, ws, e) ==> ws == CaptureStart(MatchAt(k, t, p).value) && e <= MatchAt(k, t, p).value.end
    ensures MatchAt(k, t, p).None? ==> forall ws: nat, e: nat :: !Matches(k, t, p, ws, e)
  {
    if MatchAt(k, t, p).Some? {
      MatchAtSound(k, t, p);
    }
    forall ws: nat, e: nat | Matches(k, t, p, ws, e)
      ensures MatchAt(k, t, p).Some?
      ensures ws == CaptureStart(MatchAt(k, t, p).value) && e <= MatchAt(k, t, p).value.end
    {
      MatchAtLongest(k, t, p, ws, e);
    }
  }

  /** The group of either pattern never starts with whitespace. */
  lemma CaptureStartNotSpace(k: Keyword, s: string)
    requires CaptureForm(k, s)
    ensures |s| > 0 && !IsSpace(s[0])
    ensures k == Dimension ==> IsDigit(s[0])
    ensures k == Part ==> IsIdChar(s[0])
  {
    if k == Dimension && !(|s| > 0 && AllDigits(s)) {
      var i :| 0 < i < |s| - 1 && s[i] == '.' && AllDigits(s[..i]) && AllDigits(s[i + 1..]);
      assert s[..i][0] == s[0];
    }
  }

  /** The text the dimension scanner captures has the form `\d+(\.\d+)?`. */
  lemma DecimalShape(t: string, ws: nat, d: nat, e: nat)
    requires ws < d <= |t| && d == RunEnd(t, ws, IsDigit) && e == FractionEnd(t, d)
    ensures IsDecimal(t[ws..e])
  {
    var s := t[ws..e];
    if e == d {
      assert AllDigits(s);
    } else {
      var i := d - ws;
      assert s[i] == '.';
      assert s[..i] == t[ws..d];
      assert s[i + 1..] == t[d + 1..e];
    }
  }

  /** Digits of a slice are digits of the text. */
  lemma SliceDigits(t: string, a: nat, b: nat)
    requires a <= b <= |t| && AllDigits(t[a..b])
    ensures forall k :: a <= k < b ==> IsDigit(t[k])
  {
    forall k | a <= k < b
      ensures IsDigit(t[k])
    {
      assert t[a..b][k - a] == t[k];
    }
  }

  /** No number of the form `\d+(\.\d+)?` starting at `ws` runs past the greedy one. */
  lemma DecimalLongest(t: string, ws: nat, d: nat, e': nat)
    requires ws <= d <= |t| && d == RunEnd(t, ws, IsDigit)
    requires ws < e' <= |t| && IsDecimal(t[ws..e'])
    ensures e' <= FractionEnd(t, d)
  {
    var s := t[ws..e'];
    if |s| > 0 && AllDigits(s) {
      SliceDigits(t, ws, e');
      RunEndCovers(t, ws, e', IsDigit);
    } else {
      var i :| 0 < i < |s| - 1 && s[i] == '.' && AllDigits(s[..i]) && AllDigits(s[i + 1..]);
      var dot := ws + i;
      assert s[..i] == t[ws..dot];
      assert s[i + 1..] == t[dot + 1..e'];
      assert t[dot] == '.';
      SliceDigits(t, ws, dot);
      SliceDigits(t, dot + 1, e');
      RunEndCovers(t, ws, dot, IsDigit);
      assert dot == d;
      RunEndCovers(t, d + 1, e', IsDigit);
    }
  }

  /** The matcher of one pattern over one text. */
  function MatcherOf(k: Keyword, t: string): nat -> Option<Hit> {
    (p: nat) => MatchAt(k, t, p)
  }

  lemma MatcherProgresses(k: Keyword, t: string)
    ensures Progresses(MatcherOf(k, t), |t|)
  {
    forall p: nat
      ensures var r := MatcherOf(k, t)(p); r.Some? ==> r.value.start == p < r.value.end <= |t|
    {
      assert MatcherOf(k, t)(p) == MatchAt(k, t, p);
    }
  }

  /** `[...text.matchAll(pattern)]`: the leftmost, non-overlapping matches, in text order. */
  function AllHits(k: Keyword, t: string): (hs: seq<Hit>)
    ensures forall i, j :: 0 <= i < j < |hs| ==> hs[i].end <= hs[j].start
    ensures forall i :: 0 <= i < |hs| ==> hs[i].start < hs[i].end <= |t|
  {
    MatcherProgresses(k, t);
    ScanFrom(MatcherOf(k, t), |t|, 0)
  }

  /** The hits of `AllHits` are the leftmost non-overlapping matches, and no other sequence is. */
  lemma AllHitsLeftmost(k: Keyword, t: string, hs: seq<Hit>)
    ensures Leftmost(MatcherOf(k, t), |t|, 0, AllHits(k, t))
    ensures Leftmost(MatcherOf(k, t), |t|, 0, hs) ==> hs == AllHits(k, t)
  {
    MatcherProgresses(k, t);
    ScanLeftmost(MatcherOf(k, t), |t|, 0);
    if Leftmost(MatcherOf(k, t), |t|, 0, hs) {
      LeftmostUnique(MatcherOf(k, t), |t|, 0, hs);
    }
  }

  /** Every hit is a genuine, greedy match of the pattern, and its capture has the group's form. */
  lemma AllHitsMatch(k: Keyword, t: string, i: nat)
    requires i < |AllHits(k, t)|
    ensures var h := AllHits(k, t)[i];
      && h.start < CaptureStart(h) && h.capture == t[CaptureStart(h)..h.end]
      && Matches(k, t, h.start, CaptureStart(h), h.end)
      && CaptureForm(k, h.capture)
  {
    var hs := AllHits(k, t);
    MatcherProgresses(k, t);
    ScanLeftmost(MatcherOf(k, t), |t|, 0);
    LeftmostHits(MatcherOf(k, t), |t|, 0, hs);
    assert MatcherOf(k, t)(hs[i].start) == MatchAt(k, t, hs[i].start);
    MatchAtSound(k, t, hs[i].start);
  }

  /** A spelled-out or introduced number is not a dimension: "dimension is 5" has no match at the keyword. */
  lemma SpelledNumberNoDimension()
    ensures MatchAt(Dimension, "dimension is 5", 0).None?
  {
    var t := "dimension is 5";
    assert Lower(t[0..9]) == "dimension";
    RunEndUnique(t, 9, 10, IsSpace);
    assert !IsDigit(t[10]);
  }

  /** "part" in any case, and a sentence-ending dot is taken into the part identifier. */
  lemma TrailingDotCaptured()
    ensures MatchAt(Part, "Part AB-314.01.", 0) == Some(Hit(0, 15, "AB-314.01."))
  {
    var t := "Part AB-314.01.";
    assert Lower(t[0..4]) == "part";
    RunEndUnique(t, 4, 5, IsSpace);
    assert forall k :: 5 <= k < 15 ==> IsIdChar(t[k]);
    RunEndUnique(t, 5, 15, IsIdChar);
    assert t[5..15] == "AB-314.01.";
  }

  /** The group is one token: after "part number AB-1" the part is the word "number". */
  lemma PartTakesFirstWord()
    ensures MatchAt(Part, "part number AB-1", 0) == Some(Hit(0, 11, "number"))
  {
    var t := "part number AB-1";
    assert Lower(t[0..4]) == "part";
    RunEndUnique(t, 4, 5, IsSpace);
    assert forall k :: 5 <= k < 11 ==> IsIdChar(t[k]);
    assert !IsIdChar(t[11]);
    RunEndUnique(t, 5, 11, IsIdChar);
    assert t[5..11] == "number";
  }

  /** A match needs the keyword's first letter, in either case, where it starts. */
  lemma NoMatchOffKeyword(k: Keyword, t: string, a: nat, b: nat)
    requires b <= |t|
    requires forall q :: a <= q < b ==> LowerChar(t[q]) != KeywordText(k)[0]
    ensures NoMatchBetween(MatcherOf(k, t), a, b)
  {
    forall q: nat | a <= q < b
      ensures MatchAt(k, t, q).None?
    {
      var kw := KeywordText(k);
      if q + |kw| <= |t| {
        assert Lower(t[q..q + |kw|])[0] == LowerChar(t[q]);
      }
    }
  }

}
