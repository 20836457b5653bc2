/**
 * The unit search of the extraction loop: the case-insensitive pattern
 * `\b(mm|millimeter(?:s)?|cm|...|newton(?:s)?)\b` applied once to a window
 * of the transcript. Alternatives are tried in the order they are written,
 * and an optional `s`/`es`/`age` suffix is tried before its absence.
 */
module UnitToken {
  import opened Options
  import opened Text
  import opened Scan

  /** The alternation, each optional suffix expanded in the order the regex engine tries it. */
  const Alternatives: seq<string> := [
    "mm", "millimeters", "millimeter", "cm", "centimeters", "centimeter",
    "m", "meters", "meter", "in", "inches", "inch", "ft", "feet", "foot",
    "kg", "kilograms", "kilogram", "g", "grams", "gram",
    "lb", "pounds", "pound", "lbs", "degrees", "degree", "°",
    "percentage", "percent", "%", "seconds", "second", "s",
    "min", "minutes", "minute", "newtons", "newton"
  ]

  /** Every alternative is a non-empty spelling. */
  lemma AlternativesNonEmpty()
    ensures forall i :: 0 <= i < |Alternatives| ==> |Alternatives[i]| > 0
  {
  }

  predicate IsWordAt(w: string, i: int) {
    0 <= i < |w| && IsWordChar(w[i])
  }

  /** `\b`: a word character on exactly one side of position `i`. */
  predicate Boundary(w: string, i: int) {
    IsWordAt(w, i - 1) != IsWordAt(w, i)
  }

  /** Alternative `a` matches at `p`, letter case ignored, with a `\b` on each side. */
  predicate AltAt(w: string, p: nat, a: string) {
    p + |a| <= |w| && Lower(w[p..p + |a|]) == a && Boundary(w, p) && Boundary(w, p + |a|)
  }

  /** The first alternative, from index `i` on, that matches at `p`. */
  function FirstAlt(w: string, p: nat, i: nat): (r: Option<nat>)
    requires i <= |Alternatives|
    ensures r.Some? ==> i <= r.value < |Alternatives| && AltAt(w, p, Alternatives[r.value])
    ensures r.Some? ==> forall j :: i <= j < r.value ==> !AltAt(w, p, Alternatives[j])
    ensures r.None? ==> forall j :: i <= j < |Alternatives| ==> !AltAt(w, p, Alternatives[j])
    decreases |Alternatives| - i
  {
    if i == |Alternatives| then None
    else if AltAt(w, p, Alternatives[i]) then Some(i)
    else FirstAlt(w, p, i + 1)
  }

  /**
   * The match of the whole pattern at `p`: there is one exactly when some
   * alternative fits there as a whole word, and it spans the first such
   * alternative in the order written.
   */
  function UnitAt(w: string, p: nat): (r: Option<Hit>)
    ensures r.Some? <==> exists i :: 0 <= i < |Alternatives| && AltAt(w, p, Alternatives[i])
    ensures r.Some? ==> r.value.start == p < r.value.end <= |w| && r.value.capture == w[p..r.value.end]
    ensures r.Some? ==> r.value.end == p + |Alternatives[FirstAlt(w, p, 0).value]|
  {
    AlternativesNonEmpty();
    match FirstAlt(w, p, 0)
    case None => None
    case Some(i) => Some(Hit(p, p + |Alternatives[i]|, w[p..p + |Alternatives[i]|]))
  }

  function UnitMatcher(w: string): nat -> Option<Hit> {
    (p: nat) => UnitAt(w, p)
  }

  lemma UnitMatcherProgresses(w: string)
    ensures Progresses(UnitMatcher(w), |w|)
  {
    forall p: nat
      ensures var r := UnitMatcher(w)(p); r.Some? ==> r.value.start == p < r.value.end <= |w|
    {
      assert UnitMatcher(w)(p) == UnitAt(w, p);
    }
  }

  /** The non-global search finds the match at `p` when nothing matches before `p`. */
  lemma UnitFirstHit(w: string)
    ensures Progresses(UnitMatcher(w), |w|)
    ensures forall p: nat :: UnitAt(w, p).Some? && (forall q: nat :: q < p ==> UnitAt(w, q).None?) ==>
      FirstHit(UnitMatcher(w), |w|, 0) == UnitAt(w, p)
    ensures FirstHit(UnitMatcher(w), |w|, 0).None? <==> forall p: nat :: p < |w| ==> UnitAt(w, p).None?
  {
    UnitMatcherProgresses(w);
    var m := UnitMatcher(w);
    assert forall q: nat :: m(q) == UnitAt(w, q);
    forall p: nat | UnitAt(w, p).Some? && (forall q: nat :: q < p ==> UnitAt(w, q).None?)
      ensures FirstHit(m, |w|, 0) == UnitAt(w, p)
    {
      FirstHitUnique(m, |w|, 0, p);
    }
    if FirstHit(m, |w|, 0).Some? {
      assert UnitAt(w, FirstHit(m, |w|, 0).value.start).Some?;
    }
  }

  /**
   * `w.match(pattern)`: the text matched at the first position where the
   * pattern matches, and nothing exactly when it matches nowhere.
   */
  function FindUnit(w: string): (r: Option<string>)
    ensures r.None? <==> forall p: nat :: p < |w| ==> UnitAt(w, p).None?
    ensures forall p: nat :: UnitAt(w, p).Some? && (forall q: nat :: q < p ==> UnitAt(w, q).None?) ==>
      r == Some(UnitAt(w, p).value.capture)
  {
    UnitFirstHit(w);
    match FirstHit(UnitMatcher(w), |w|, 0)
    case None => None
    case Some(h) => Some(h.capture)
  }

  /** The matched text is one of the alternatives, in some letter case, as a whole token. */
  lemma FindUnitSpelling(w: string) returns (i: nat)
    requires FindUnit(w).Some?
    ensures i < |Alternatives| && Lower(FindUnit(w).value) == Alternatives[i]
  {
    UnitMatcherProgresses(w);
    var h := FirstHit(UnitMatcher(w), |w|, 0).value;
    assert UnitMatcher(w)(h.start) == UnitAt(w, h.start);
    i := FirstAlt(w, h.start, 0).value;
    assert AltAt(w, h.start, Alternatives[i]);
  }

  /**
   * The two symbol alternatives are not word characters, so `\b` on both
   * sides holds only between two word characters: "°" and "%" match inside
   * "5°C" but never after a blank, at the end of the text or before a blank.
   */
  lemma SymbolNeedsWordNeighbours(w: string, p: nat, a: string)
    requires a == "°" || a == "%"
    requires AltAt(w, p, a)
    ensures IsWordAt(w, p - 1) && IsWordAt(w, p + 1)
  {
    LowerCharFixed(w[p], Lower(w[p..p + 1])[0]);
  }

  /** An alternative matches only where the text has its first letter, in either case. */
  lemma NoAltOffInitial(w: string, p: nat, a: string)
    requires p < |w| && |a| > 0 && LowerChar(w[p]) != a[0]
    ensures !AltAt(w, p, a)
  {
    if p + |a| <= |w| {
      assert Lower(w[p..p + |a|])[0] == LowerChar(w[p]);
    }
  }

  /** No alternative matches at a digit or a blank. */
  lemma NoAltAtDigitOrBlank(w: string, p: nat)
    requires p < |w| && (IsDigit(w[p]) || w[p] == ' ')
    ensures UnitAt(w, p).None?
  {
    AlternativesNonEmpty();
    assert forall j :: 0 <= j < |Alternatives| ==> !IsDigit(Alternatives[j][0]) && Alternatives[j][0] != ' ';
    forall j | 0 <= j < |Alternatives|
      ensures !AltAt(w, p, Alternatives[j])
    {
      NoAltOffInitial(w, p, Alternatives[j]);
    }
  }

  /** In "5 min" no alternative written before "min" matches at the "m": each has another first letter, is too long, or, like "m", ends inside a word. */
  lemma NothingBeforeMin()
    ensures forall j :: 0 <= j < 34 ==> !AltAt("5 min", 2, Alternatives[j])
  {
    AlternativesNonEmpty();
    forall j | 0 <= j < 34
      ensures !AltAt("5 min", 2, Alternatives[j])
    {
      if Alternatives[j][0] != 'm' {
        NoAltOffInitial("5 min", 2, Alternatives[j]);
      }
    }
  }

  /** The pattern matches "min" at the "m" of "5 min". */
  lemma MinAtTwo()
    ensures UnitAt("5 min", 2) == Some(Hit(2, 5, "min"))
  {
    var w := "5 min";
    assert Alternatives[34] == "min";
    assert w[2..5] == "min";
    assert AltAt(w, 2, Alternatives[34]);
    NothingBeforeMin();
    var r := FirstAlt(w, 2, 0);
    assert r.Some? && !(r.value < 34) && !(34 < r.value);
  }

  /** "min" is written after "m", but "m" needs a `\b` after it, so "5 min" gives "min". */
  lemma MinutesNotMetres()
    ensures FindUnit("5 min") == Some("min")
  {
    NoAltAtDigitOrBlank("5 min", 0);
    NoAltAtDigitOrBlank("5 min", 1);
    MinAtTwo();
  }

  /** In "5 inches" no alternative written before "inches" matches at the "i": "in" ends inside the word. */
  lemma NothingBeforeInches()
    ensures forall j :: 0 <= j < 10 ==> !AltAt("5 inches", 2, Alternatives[j])
  {
    AlternativesNonEmpty();
    forall j | 0 <= j < 10
      ensures !AltAt("5 inches", 2, Alternatives[j])
    {
      if Alternatives[j][0] != 'i' {
        NoAltOffInitial("5 inches", 2, Alternatives[j]);
      }
    }
  }

  /** The pattern matches "inches" at the "i" of "5 inches". */
  lemma InchesAtTwo()
    ensures UnitAt("5 inches", 2) == Some(Hit(2, 8, "inches"))
  {
    var w := "5 inches";
    assert Alternatives[10] == "inches";
    assert w[2..8] == "inches";
    assert AltAt(w, 2, Alternatives[10]);
    NothingBeforeInches();
    var r := FirstAlt(w, 2, 0);
    assert r.Some? && !(r.value < 10) && !(10 < r.value);
  }

  /** "in" is written before "inches" but needs a `\b` after it, so "5 inches" gives the whole word. */
  lemma InchesNotIn()
    ensures FindUnit("5 inches") == Some("inches")
  {
    NoAltAtDigitOrBlank("5 inches", 0);
    NoAltAtDigitOrBlank("5 inches", 1);
    InchesAtTwo();
  }

}
