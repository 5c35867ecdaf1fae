/** The utility functions shared by the older cleaners: lower-casing
    whitespace normalisation and the "basic cleaning" built on it. The
    rule-running loop of the same utilities is `RulePipeline.RunRegexRules`. */
module BasicCleaning {
  import opened PyStr

  /** No ASCII upper-case letter occurs in `s`. */
  predicate NoUpper(s: string)
  {
    forall i :: 0 <= i < |s| ==> !IsUpperAscii(s[i])
  }

  /** Every character of `s` is ASCII. */
  predicate AllAscii(s: string)
  {
    forall i :: 0 <= i < |s| ==> IsAscii(s[i])
  }

  /** `remove_extra_spaces(s)` of the utilities, which also lower-cases: the
      result is trimmed, single-spaced, free of upper-case letters, and
      apart from whitespace it is the input lower-cased. */
  function RemoveExtraSpacesLower(s: string): (r: string)
    ensures Trimmed(r) && SingleSpaced(r) && NoUpper(r)
    ensures RemoveWhitespace(r) == Lower(RemoveWhitespace(s))
    ensures AllAscii(s) ==> AllAscii(r)
  {
    var t := Lower(Strip(s));
    StripSpec(s);
    LowerKeepsSpaces(Strip(s));
    CollapseTrimmed(t);
    CollapseSingleSpaced(t);
    CollapseChars(t);
    CollapseKeepsText(t);
    StripKeepsText(s);
    LowerRemoveWhitespace(Strip(s));
    NormalisedChars(s);
    Collapse(t)
  }

  /** Every character the normalisation leaves is a space or a character of
      the input lower-cased: none is upper case, and none is non-ASCII unless
      the input had one. */
  lemma NormalisedChars(s: string)
    ensures NoUpper(Collapse(Lower(Strip(s))))
    ensures AllAscii(s) ==> AllAscii(Collapse(Lower(Strip(s))))
  {
    var r := Collapse(Lower(Strip(s)));
    forall i | 0 <= i < |r| ensures !IsUpperAscii(r[i]) && (AllAscii(s) ==> IsAscii(r[i])) {
      NormalisedChar(s, r[i]);
    }
  }

  /** One character of the normalised text: a space, or the lower case of a
      character of `s`. */
  lemma NormalisedChar(s: string, c: char)
    requires c in Collapse(Lower(Strip(s)))
    ensures !IsUpperAscii(c) && (AllAscii(s) ==> IsAscii(c))
  {
    CollapseChars(Lower(Strip(s)));
    if c != ' ' {
      LoweredChar(s, c);
    }
  }

  /** A character of the lower-cased stripped text is the lower case of a
      character of `s`. */
  lemma LoweredChar(s: string, c: char)
    requires c in Lower(Strip(s))
    ensures !IsUpperAscii(c) && (AllAscii(s) ==> IsAscii(c))
  {
    var t := Lower(Strip(s));
    var j :| 0 <= j < |t| && t[j] == c;
    StripChar(s, j);
    var x := s[StripStart(s) + j];
    assert c == LowerChar(x);
    assert AllAscii(s) ==> IsAscii(x);
    LowerCharLower(x);
  }

  /** A lower-cased character is not upper case, and stays ASCII. */
  lemma LowerCharLower(x: char)
    ensures !IsUpperAscii(LowerChar(x)) && (IsAscii(x) ==> IsAscii(LowerChar(x)))
  {
  }

  /** The `j`-th character of the stripped text sits at `StripStart(s) + j` in `s`. */
  lemma StripChar(s: string, j: nat)
    requires j < |Strip(s)|
    ensures StripStart(s) + j < |s| && Strip(s)[j] == s[StripStart(s) + j]
  {
    StripSpec(s);
  }

  /** A string without upper-case letters is its own lower case. */
  lemma LowerOfNoUpper(s: string)
    requires NoUpper(s)
    ensures Lower(s) == s
  {
  }

  /** `perform_basic_cleaning(s)`: non-ASCII characters deleted, then extra
      spaces removed and the text lower-cased. The result is ASCII, trimmed,
      single-spaced and lower-case. */
  function PerformBasicCleaning(s: string): (r: string)
    ensures AllAscii(r) && Trimmed(r) && SingleSpaced(r) && NoUpper(r)
    ensures RemoveWhitespace(r) == Lower(RemoveWhitespace(AsciiOnly(s)))
  {
    RemoveExtraSpacesLower(AsciiOnly(s))
  }

  /** Lower-casing whitespace normalisation reaches a fixed point in one
      application. */
  lemma RemoveExtraSpacesLowerIdempotent(s: string)
    ensures RemoveExtraSpacesLower(RemoveExtraSpacesLower(s)) == RemoveExtraSpacesLower(s)
  {
    var r := RemoveExtraSpacesLower(s);
    StripTrimmed(r);
    LowerOfNoUpper(r);
    CollapseFixed(r);
  }

  /** Cleaning an already cleaned value changes nothing. */
  lemma PerformBasicCleaningIdempotent(s: string)
    ensures PerformBasicCleaning(PerformBasicCleaning(s)) == PerformBasicCleaning(s)
  {
    var r := PerformBasicCleaning(s);
    AsciiOnlyFixed(r);
    RemoveExtraSpacesLowerIdempotent(AsciiOnly(s));
  }
}
