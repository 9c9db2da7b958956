/** The popup's two field checks, `validateDataType` and
    `validateRegionCode`. */
module Validation {
  import opened JsValues
  import opened Text
  import opened RegionCode

  /** The endpoints the data-type selector may name. */
  const AllowedDataTypes: seq<string> := ["carbon-intensity", "electricity-mix"]

  /** `validateDataType(value)`: a string, and one of the allowed endpoints. */
  function ValidateDataType(value: JsValue): (ok: bool)
    ensures ok <==> value == Str("carbon-intensity") || value == Str("electricity-mix")
  {
    value.Str? && value.s in AllowedDataTypes
  }

  /** `validateRegionCode(value)`: a string whose trimmed, upper-cased form
      the pattern `^[A-Z]{2}(?:-[A-Z0-9]+)*$` matches. Only a string that is not
      blank can pass; `RegionCheckMeaning` states exactly which. */
  function ValidateRegionCode(value: JsValue): (ok: bool)
    ensures ok ==> value.Str? && Trim(value.s) != []
  {
    value.Str? && Matches(Normalize(value.s))
  }

  /** The check accepts exactly the strings whose normal form is a country
      code followed by `-`-led groups of capitals and digits. */
  lemma RegionCheckMeaning(value: JsValue)
    ensures ValidateRegionCode(value) <==> value.Str? && RegionPattern(Normalize(value.s))
    ensures ValidateRegionCode(value) <==> value.Str? && WellShaped(Normalize(value.s))
  {
    if value.Str? {
      MatchesIffPattern(Normalize(value.s));
      MatchesIffWellShaped(Normalize(value.s));
    }
  }

  /** Checking the normal form gives the same verdict as checking the raw
      input. */
  lemma RegionVerdictOfNormalForm(s: string)
    ensures ValidateRegionCode(Str(Normalize(s))) == ValidateRegionCode(Str(s))
  {
    NormalizeIdempotent(s);
  }

  /** Letter case and surrounding white space never change the verdict. */
  lemma RegionVerdictIgnoresCaseAndPadding(s: string, t: string, pre: string, post: string)
    requires Upper(s) == Upper(t)
    requires AllWhite(pre) && AllWhite(post)
    ensures ValidateRegionCode(Str(pre + s + post)) == ValidateRegionCode(Str(t))
  {
    NormalizeIgnoresCaseAndPadding(s, t, pre, post);
  }

  /** What an accepted input looks like once normalised. */
  lemma AcceptedRegionShape(s: string)
    requires ValidateRegionCode(Str(s))
    ensures var v := Normalize(s);
      && (|v| == 2 || |v| >= 4)
      && IsLetter(v[0]) && IsLetter(v[1])
      && v[|v| - 1] != '-'
      && (forall k :: 0 <= k < |v| - 1 ==> !(v[k] == '-' && v[k + 1] == '-'))
  {
    MatchesIffWellShaped(Normalize(s));
    AcceptedShape(Normalize(s));
  }

  /** An accepted region input is never blank, and its trimmed form (what the
      submit handler sends) is accepted too. */
  lemma AcceptedRegionTrimmed(s: string)
    requires ValidateRegionCode(Str(s))
    ensures Trim(s) != [] && ValidateRegionCode(Str(Trim(s)))
  {
    TrimIdempotent(s);
  }

  /** The data-type examples: only the two endpoint names, spelled exactly. */
  lemma DataTypeExamples()
    ensures ValidateDataType(Str("carbon-intensity")) && ValidateDataType(Str("electricity-mix"))
    ensures !ValidateDataType(Str("")) && !ValidateDataType(Str("Carbon-Intensity"))
    ensures !ValidateDataType(Undefined) && !ValidateDataType(Null)
  {
  }

  /** `"US-NEISO"` passes, as the comment above `validateRegionCode` says. */
  lemma RegionAcceptsNeiso()
    ensures ValidateRegionCode(Str("US-NEISO"))
  {
    NormalOfCapitals("US-NEISO");
    Examples();
  }

  /** `"USA"` (three letters) and `"US-"` (an empty group) fail. */
  lemma RegionRejectsUsaAndDash()
    ensures !ValidateRegionCode(Str("USA")) && !ValidateRegionCode(Str("US-"))
  {
    NormalOfCapitals("USA");
    NormalOfCapitals("US-");
    Examples();
  }

  /** The empty string, `"US--X"` (two dashes) and a non-string fail. */
  lemma RegionRejectsEmptyAndDoubleDash()
    ensures !ValidateRegionCode(Str("")) && !ValidateRegionCode(Str("US--X"))
    ensures !ValidateRegionCode(Undefined) && !ValidateRegionCode(Num(42.0))
  {
    NormalOfCapitals("");
    NormalOfCapitals("US--X");
    Examples();
  }

  /** Lower case passes: `"cm"` is accepted, because the input is
      upper-cased (`toUpperCase()` at src/index.js:25) before it is matched. */
  lemma RegionAcceptsLowerCase()
    ensures ValidateRegionCode(Str("cm"))
  {
    UpperOfAscii("cm");
    assert Upper("cm") == "CM";
    NormalOfCapitals("CM");
    assert Matches("CM");
    RegionVerdictIgnoresCaseAndPadding("cm", "CM", [], []);
    assert [] + "cm" + [] == "cm";
  }

  /** Surrounding white space passes too: `" cm\n"` is accepted. */
  lemma RegionAcceptsPadded()
    ensures ValidateRegionCode(Str(" cm\n"))
  {
    RegionAcceptsLowerCase();
    RegionVerdictIgnoresCaseAndPadding("cm", "cm", " ", "\n");
    assert " " + "cm" + "\n" == " cm\n";
  }

  /** A single character can pass: `toUpperCase()` turns `"\u00DF"` into
      `"SS"`, which the pattern accepts. */
  lemma RegionAcceptsSharpS()
    ensures ValidateRegionCode(Str("\U{DF}"))
  {
    assert Upper("\U{DF}") == "SS";
    NormalOfCapitals("SS");
    assert Matches("SS");
    RegionVerdictIgnoresCaseAndPadding("\U{DF}", "SS", [], []);
    assert [] + "\U{DF}" + [] == "\U{DF}";
  }
}
