/**
 * The deterministic part of `transcribeAndParse`: from the trimmed
 * transcript text to `{part, measured, unit}` records. The i-th "part" match
 * is paired with the i-th "dimension" match, and the unit is looked up in the
 * 50 characters that start at that dimension keyword.
 */
module Transcription {
  import opened Options
  import opened Text
  import opened Units
  import opened Scan
  import opened Patterns
  import opened UnitToken

  /** One parsed measurement; `measured` keeps the digits as spoken, `unit` is a code or "". */
  datatype Record = Record(part: string, measured: string, unit: string)

  /** How many characters, from the dimension keyword on, are searched for a unit. */
  const UnitWindow: nat := 50

  function Min(a: nat, b: nat): nat {
    if a <= b then a else b
  }

  /** `rawText.slice(dimIndex, dimIndex + 50)`: both ends of the slice are clamped to the text. */
  function Window(t: string, d: nat): (w: string)
    ensures d <= |t| ==> |w| == Min(UnitWindow, |t| - d)
    ensures d > |t| ==> w == []
    ensures forall k :: 0 <= k < |w| ==> w[k] == t[d + k]
  {
    t[Min(d, |t|)..Min(d + UnitWindow, |t|)]
  }

  /** Every alternative of the unit pattern is a key of the synonym table, except the two symbols. */
  lemma AlternativesKnown()
    ensures forall i :: 0 <= i < |Alternatives| ==> Lookup(Alternatives[i]).Some? || Alternatives[i] in {"°", "%"}
  {
  }

  /** Whatever spelling of a unit the pattern matched normalises to a canonical code. */
  lemma MatchedUnitCanonical(u: string, i: nat)
    requires i < |Alternatives| && Lower(u) == Alternatives[i]
    ensures Normalize(u) in CanonicalCodes
  {
    AlternativesKnown();
    if Lookup(Lower(u)).None? {
      assert |u| == 1;
      LowerCharFixed(u[0], Lower(u)[0]);
      assert u == Lower(u);
    }
  }

  /** A unit token found by the pattern always normalises to a (non-empty) canonical code. */
  lemma FoundUnitCanonical(w: string)
    requires FindUnit(w).Some?
    ensures Normalize(FindUnit(w).value) in CanonicalCodes
    ensures Normalize(FindUnit(w).value) != ""
  {
    var i := FindUnitSpelling(w);
    MatchedUnitCanonical(FindUnit(w).value, i);
  }

  /**
   * The unit of a record whose dimension keyword is at `d`: `normalizeUnits`
   * of the unit token at the first position of the window where the pattern
   * matches, or "" when it matches nowhere in the window.
   */
  function UnitNear(t: string, d: nat): (unit: string)
    ensures unit == "" || unit in CanonicalCodes
    ensures unit == "" <==> forall p: nat :: p < |Window(t, d)| ==> UnitAt(Window(t, d), p).None?
    ensures forall p: nat ::
      UnitAt(Window(t, d), p).Some? && (forall q: nat :: q < p ==> UnitAt(Window(t, d), q).None?) ==>
        unit == Normalize(UnitAt(Window(t, d), p).value.capture)
  {
    var w := Window(t, d);
    match FindUnit(w)
    case None => ""
    case Some(u) =>
      FoundUnitCanonical(w);
      Normalize(u)
  }

  /** The captures of every hit have their group's form. */
  lemma CapturesWellFormed(k: Keyword, t: string)
    ensures forall i :: 0 <= i < |AllHits(k, t)| ==> CaptureForm(k, AllHits(k, t)[i].capture)
  {
    forall i | 0 <= i < |AllHits(k, t)|
      ensures CaptureForm(k, AllHits(k, t)[i].capture)
    {
      AllHitsMatch(k, t, i);
    }
  }

  /**
   * The extraction loop: pair the i-th part match with the i-th dimension
   * match, up to the shorter list, and look up the unit near the dimension.
   */
  function Extract(t: string): (rs: seq<Record>)
    ensures forall i :: 0 <= i < |rs| ==> IsPartId(rs[i].part) && IsDecimal(rs[i].measured)
    ensures forall i :: 0 <= i < |rs| ==> rs[i].unit == "" || rs[i].unit in CanonicalCodes
  {
    var parts := AllHits(Part, t);
    var dims := AllHits(Dimension, t);
    CapturesWellFormed(Part, t);
    CapturesWellFormed(Dimension, t);
    seq(Min(|parts|, |dims|), i requires 0 <= i < Min(|parts|, |dims|) =>
      Record(parts[i].capture, dims[i].capture, UnitNear(t, dims[i].start)))
  }

  /** Record i is built from the i-th hit of each pattern. */
  lemma ExtractFromHits(t: string)
    ensures var rs := Extract(t); var ps := AllHits(Part, t); var ds := AllHits(Dimension, t);
      && |rs| == Min(|ps|, |ds|)
      && forall i :: 0 <= i < |rs| ==>
        rs[i] == Record(ps[i].capture, ds[i].capture, UnitNear(t, ds[i].start))
  {
  }

  /**
   * Pairing is positional: for the leftmost non-overlapping part matches `ps`
   * and dimension matches `ds`, there are `min(|ps|, |ds|)` records and
   * record i takes its part from `ps[i]` and its number and unit from `ds[i]`.
   */
  lemma {:induction false} ExtractPairing(t: string, ps: seq<Hit>, ds: seq<Hit>)
    requires Leftmost(MatcherOf(Part, t), |t|, 0, ps)
    requires Leftmost(MatcherOf(Dimension, t), |t|, 0, ds)
    ensures |Extract(t)| == Min(|ps|, |ds|)
    ensures forall i :: 0 <= i < |Extract(t)| ==>
      Extract(t)[i] == Record(ps[i].capture, ds[i].capture, UnitNear(t, ds[i].start))
  {
    AllHitsLeftmost(Part, t, ps);
    AllHitsLeftmost(Dimension, t, ds);
    ExtractFromHits(t);
  }


  /** The transcript of the example below. */
  const SpelledExample := "part A dimension five part B dimension 7"

  /** The first "part" of the example matches, capturing "A". */
  lemma SpelledExampleFirstPart()
    ensures MatchAt(Part, SpelledExample, 0) == Some(Hit(0, 6, "A"))
  {
    var t := SpelledExample;
    assert t[0..4] == "part" by { assert forall k :: 0 <= k < 4 ==> t[k] == "part"[k]; }
    RunEndUnique(t, 4, 5, IsSpace);
    RunEndUnique(t, 5, 6, IsIdChar);
    assert t[5..6] == "A";
  }

  /** The second "part" of the example matches, capturing "B". */
  lemma SpelledExampleSecondPart()
    ensures MatchAt(Part, SpelledExample, 22) == Some(Hit(22, 28, "B"))
  {
    var t := SpelledExample;
    assert t[22..26] == "part" by { assert forall k :: 22 <= k < 26 ==> t[k] == "part"[k - 22]; }
    RunEndUnique(t, 26, 27, IsSpace);
    RunEndUnique(t, 27, 28, IsIdChar);
    assert t[27..28] == "B";
  }

  /** Both "part" mentions of the example match, and nothing else does. */
  lemma SpelledExampleParts()
    ensures Leftmost(MatcherOf(Part, SpelledExample), |SpelledExample|, 0, [Hit(0, 6, "A"), Hit(22, 28, "B")])
  {
    var t := SpelledExample;
    SpelledExampleFirstPart();
    SpelledExampleSecondPart();
    assert forall q :: 6 <= q < 22 || 28 <= q < |t| ==> LowerChar(t[q]) != 'p';
    NoMatchOffKeyword(Part, t, 6, 22);
    NoMatchOffKeyword(Part, t, 28, |t|);
    assert Leftmost(MatcherOf(Part, t), |t|, 28, []);
    assert Leftmost(MatcherOf(Part, t), |t|, 6, [Hit(22, 28, "B")]);
  }

  /** The first "dimension" of the example, followed by "five", does not match. */
  lemma SpelledExampleFirstDimension()
    ensures MatchAt(Dimension, SpelledExample, 7).None?
  {
    var t := SpelledExample;
    assert t[7..16] == "dimension" by { assert forall k :: 7 <= k < 16 ==> t[k] == "dimension"[k - 7]; }
    RunEndUnique(t, 16, 17, IsSpace);
    assert !IsDigit(t[17]);
  }

  /** The second "dimension" of the example matches, capturing "7". */
  lemma SpelledExampleSecondDimension()
    ensures MatchAt(Dimension, SpelledExample, 29) == Some(Hit(29, 40, "7"))
  {
    var t := SpelledExample;
    assert t[29..38] == "dimension" by { assert forall k :: 29 <= k < 38 ==> t[k] == "dimension"[k - 29]; }
    RunEndUnique(t, 38, 39, IsSpace);
    RunEndUnique(t, 39, 40, IsDigit);
    assert t[39..40] == "7";
  }

  /** Only the second "dimension" of the example matches: "five" is not digits. */
  lemma SpelledExampleDimensions()
    ensures Leftmost(MatcherOf(Dimension, SpelledExample), |SpelledExample|, 0, [Hit(29, 40, "7")])
  {
    var t := SpelledExample;
    SpelledExampleFirstDimension();
    SpelledExampleSecondDimension();
    assert forall q :: 0 <= q < 7 || 8 <= q < 29 ==> LowerChar(t[q]) != 'd';
    NoMatchOffKeyword(Dimension, t, 0, 7);
    NoMatchOffKeyword(Dimension, t, 8, 29);
    assert MatcherOf(Dimension, t)(7).None?;
    assert Leftmost(MatcherOf(Dimension, t), |t|, 40, []);
  }

  /**
   * Pairing is by position, not by proximity: a spelled-out number gives no
   * dimension match, so the next dimension is paired with the earlier part and
   * the later part is left without a record.
   */
  lemma SpelledNumberShiftsPairs()
    ensures var rs := Extract(SpelledExample);
      |rs| == 1 && rs[0].part == "A" && rs[0].measured == "7"
  {
    SpelledExampleParts();
    SpelledExampleDimensions();
    ExtractPairing(SpelledExample, [Hit(0, 6, "A"), Hit(22, 28, "B")], [Hit(29, 40, "7")]);
  }

}
