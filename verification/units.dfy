/**
 * The unit synonym table of `normalizeUnits`: a case-insensitive lookup that
 * maps spoken or written unit names to short codes and passes anything else
 * through untouched.
 */
module Units {
  import opened Text

  import opened Options

  /**
   * The synonym table, keyed by lower-case spellings, one group per code.
   * Exactly the listed keys are present.
   */
  function Lookup(key: string): (r: Option<string>)
    ensures r.Some? ==> r.value in CanonicalCodes
  {
    if key in {"millimeter", "millimeters", "mm"} then Some("mm")
    else if key in {"centimeter", "centimeters", "cm"} then Some("cm")
    else if key in {"meter", "meters", "m"} then Some("m")
    else if key in {"inch", "inches", "in"} then Some("in")
    else if key in {"foot", "feet", "ft"} then Some("ft")
    else if key in {"kilogram", "kilograms", "kg"} then Some("kg")
    else if key in {"gram", "grams", "g"} then Some("g")
    else if key in {"pound", "pounds", "lbs", "lb"} then Some("lb")
    else if key in {"degree", "degrees"} then Some("°")
    else if key in {"second", "seconds", "s"} then Some("s")
    else if key in {"minute", "minutes", "min"} then Some("min")
    else if key in {"newton", "newtons"} then Some("N")
    else if key in {"percent", "percentage"} then Some("%")
    else None
  }

  /** The short codes the table produces. */
  const CanonicalCodes: set<string> := {"mm", "cm", "m", "in", "ft", "kg", "g", "lb", "°", "s", "min", "N", "%"}

  /**
   * `normalizeUnits`: the table's code when the lower-cased input is a key,
   * otherwise the input itself (no trimming, never a failure).
   */
  function Normalize(u: string): (r: string)
    ensures Lookup(Lower(u)).Some? ==> r == Lookup(Lower(u)).value && r in CanonicalCodes
    ensures Lookup(Lower(u)).None? ==> r == u
  {
    match Lookup(Lower(u))
    case Some(code) => code
    case None => u
  }

  /** Every canonical code is a fixed point of normalisation. */
  lemma CanonicalFixed(c: string)
    requires c in CanonicalCodes
    ensures Normalize(c) == c
  {
    if c == "N" {
      assert Lower(c) == "n";
    } else {
      LowerOfLower(c);
    }
  }

  /** Normalising twice gives the same result as normalising once. */
  lemma NormalizeIdempotent(u: string)
    ensures Normalize(Normalize(u)) == Normalize(u)
  {
    if Lookup(Lower(u)).Some? {
      CanonicalFixed(Normalize(u));
    }
  }

  /** Spellings that differ only in ASCII letter case reach the same code. */
  lemma NormalizeCaseInsensitive(u: string, v: string)
    requires Lower(u) == Lower(v) && Lookup(Lower(u)).Some?
    ensures Normalize(u) == Normalize(v) && Normalize(u) in CanonicalCodes
  {
  }

  /** Worked cases: any letter case of a synonym gives its code, and the pound spellings give "lb". */
  lemma NormalizeExamples()
    ensures Normalize("MILLIMETERS") == "mm" && Normalize("mm") == "mm" && Normalize("Millimeter") == "mm"
    ensures Normalize("Pounds") == "lb" && Normalize("lbs") == "lb"
  {
    assert Lower("MILLIMETERS") == "millimeters";
    assert Lower("Millimeter") == "millimeter";
    assert Lower("Pounds") == "pounds";
    LowerOfLower("mm");
    LowerOfLower("lbs");
  }

  /** Worked cases of pass-through: surrounding blanks are not trimmed, and unknown names come back as given. */
  lemma NormalizePassThroughExamples()
    ensures Normalize(" mm") == " mm"
    ensures Normalize("furlong") == "furlong"
    ensures Normalize("Furlong") == "Furlong"
  {
    LowerOfLower(" mm");
    LowerOfLower("furlong");
    assert Lower("Furlong") == "furlong";
  }

}
