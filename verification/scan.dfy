/**
 * Regex searching over any greedy matcher. `FirstHit` is one search as
 * `String.prototype.match` without the `g` flag performs it: the match at
 * the first position, from a starting point on, where the pattern matches.
 * `ScanFrom` is `matchAll` with the `g` flag: take the first hit, resume at
 * its end, and repeat.
 */
module Scan {
  import opened Options

  /** One match: where it starts and ends in the text, and what its group captured. */
  datatype Hit = Hit(start: nat, end: nat, capture: string)

  /** A matcher for a text of length `n`: a match found at `p` starts at `p` and is non-empty. */
  ghost predicate Progresses(m: nat -> Option<Hit>, n: nat) {
    forall p: nat :: m(p).Some? ==> m(p).value.start == p < m(p).value.end <= n
  }

  ghost predicate NoMatchBetween(m: nat -> Option<Hit>, a: nat, b: nat) {
    forall q: nat :: a <= q < b ==> m(q).None?
  }

  /** The match at the first position at or after `from` where the matcher succeeds. */
  function FirstHit(m: nat -> Option<Hit>, n: nat, from: nat): (r: Option<Hit>)
    requires Progresses(m, n)
    ensures r.Some? ==> from <= r.value.start && m(r.value.start) == r && NoMatchBetween(m, from, r.value.start)
    ensures r.None? ==> NoMatchBetween(m, from, n)
    decreases n - from
  {
    if from >= n then None
    else
      match m(from)
      case Some(h) => Some(h)
      case None => FirstHit(m, n, from + 1)
  }

  /** The first match is determined by where the matcher first succeeds. */
  lemma FirstHitUnique(m: nat -> Option<Hit>, n: nat, from: nat, s: nat)
    requires Progresses(m, n)
    requires from <= s && m(s).Some? && NoMatchBetween(m, from, s)
    ensures FirstHit(m, n, from) == m(s)
  {
    var r := FirstHit(m, n, from);
    if r.None? {
      assert m(s).value.end <= n;
    } else {
      assert !(r.value.start < s);
      assert !(s < r.value.start);
    }
  }

  /** All hits from `from` onward, leftmost first, each search resuming where the last hit ended. */
  function ScanFrom(m: nat -> Option<Hit>, n: nat, from: nat): (hs: seq<Hit>)
    requires Progresses(m, n)
    ensures forall i :: 0 <= i < |hs| ==> from <= hs[i].start < hs[i].end <= n
    ensures forall i, j :: 0 <= i < j < |hs| ==> hs[i].end <= hs[j].start
    decreases n - from
  {
    match FirstHit(m, n, from)
    case None => []
    case Some(h) => [h] + ScanFrom(m, n, h.end)
  }

  /**
   * `hs` is the sequence of leftmost, non-overlapping matches from `from`:
   * the first hit is the match at the first position at or after `from`
   * where the matcher succeeds, the rest are the leftmost matches from the
   * end of that hit, and when there are no hits nothing matches from `from` on.
   */
  ghost predicate Leftmost(m: nat -> Option<Hit>, n: nat, from: nat, hs: seq<Hit>)
    decreases |hs|
  {
    if |hs| == 0 then NoMatchBetween(m, from, n)
    else
      && from <= hs[0].start
      && NoMatchBetween(m, from, hs[0].start)
      && m(hs[0].start) == Some(hs[0])
      && Leftmost(m, n, hs[0].end, hs[1..])
  }

  /** The hits of a leftmost scan are matches of the matcher, each at or after `from`. */
  lemma {:induction false} LeftmostHits(m: nat -> Option<Hit>, n: nat, from: nat, hs: seq<Hit>)
    requires Progresses(m, n) && Leftmost(m, n, from, hs)
    ensures forall i :: 0 <= i < |hs| ==> m(hs[i].start) == Some(hs[i])
    ensures forall i :: 0 <= i < |hs| ==> from <= hs[i].start
    decreases |hs|
  {
    if |hs| > 0 {
      LeftmostHits(m, n, hs[0].end, hs[1..]);
      assert forall i :: 1 <= i < |hs| ==> hs[i] == hs[1..][i - 1];
    }
  }

  /** `ScanFrom` finds exactly the leftmost non-overlapping matches. */
  lemma {:induction false} ScanLeftmost(m: nat -> Option<Hit>, n: nat, from: nat)
    requires Progresses(m, n)
    ensures Leftmost(m, n, from, ScanFrom(m, n, from))
    decreases n - from
  {
    var hs := ScanFrom(m, n, from);
    match FirstHit(m, n, from)
    case None =>
    case Some(h) =>
      ScanLeftmost(m, n, h.end);
      assert hs[1..] == ScanFrom(m, n, h.end);
  }

  /** The leftmost non-overlapping matches are unique: any sequence with that property is what `ScanFrom` returns. */
  lemma {:induction false} LeftmostUnique(m: nat -> Option<Hit>, n: nat, from: nat, hs: seq<Hit>)
    requires Progresses(m, n) && Leftmost(m, n, from, hs)
    ensures hs == ScanFrom(m, n, from)
    decreases n - from
  {
    if |hs| == 0 {
      assert FirstHit(m, n, from).None?;
    } else {
      FirstHitUnique(m, n, from, hs[0].start);
      LeftmostUnique(m, n, hs[0].end, hs[1..]);
      assert hs == [hs[0]] + hs[1..];
    }
  }

}
