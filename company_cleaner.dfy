/** The company-name cleaner of the `company_cleaner` package. Its legal
    forms are one file keyed by language, then country; the dictionary in
    use is one country's map. Legal terms are normalised by splitting the
    name at the first match of the first canonical term whose variants
    match, cleaning both sides recursively, and joining them around the
    padded canonical term. */
module CompanyCleaner {
  import opened Py
  import opened Lib
  import opened PyDict
  import opened PyStr
  import opened Re
  import opened Alternation
  import opened RulePipeline
  import opened LegalForms
  import opened LegalTerms
  import opened NameCleaning
  import opened SimpleCleaner
  import Company

  /** `cleaning_rules_dict` of the package, written as the Python string
      literals evaluate. */
  const CompanyRulesDict: RuleTable := [
    ("remove_email", Rule("", @"\S*@\S*\s?")),
    ("remove_url", Rule("", @"https*\S+")),
    ("remove_www_address", Rule("", @"https?://[.\w]{3,}|www.[.\w]{3,}")),
    ("enforce_single_space_between_words", Rule(" ", @"\s+")),
    ("treat_AND", Rule(" and ", "(&)")),
    ("replace_hyphen_underscore_by_space", Rule(" ", "(-|_)")),
    ("remove_all_punctuation", Rule("", @"([^\w\s])")),
    ("remove_mentions", Rule("", @"@\S+")),
    ("remove_hashtags", Rule("", @"#\S+")),
    ("remove_numbers", Rule("", @"\w*\d+\w*")),
    ("remove_single_quote_next_character", Rule("", @"'\w+")),
    ("remove_words_in_parentheses", Rule("", @"\([^()]*\)"))
  ]

  /** `default_company_cleaning_rules` of the package. */
  const CompanyDefaultRules: seq<string> := [
    "remove_email",
    "remove_url",
    "remove_www_address",
    "remove_words_in_parentheses",
    "remove_numbers",
    "replace_hyphen_underscore_by_space",
    "remove_all_punctuation",
    "enforce_single_space_between_words"
  ]

  /** The language/country pairs the class lists as available. */
  const AvailableLegalTermsDict: seq<string> := ["en,us", "pt,pt", "pt,br", "fr,fr", "id,id"]

  /** The legal forms of every language, then every country. */
  type LanguageForms = Dict<string, Dict<string, LegalDict>>

  /** The package's legal-forms file: missing, or read with or without its
      `legal_forms` entry. */
  datatype FormsFile = NoFormsFile | FormsJson(legalForms: Option<LanguageForms>)

  /** Loading the legal-forms file. */
  function LoadForms(f: FormsFile): (r: Result<LanguageForms>)
    ensures f.NoFormsFile? <==> r == Err(LegalTermsDictionaryDoesNotExist)
    ensures f.FormsJson? && f.legalForms.None? <==> r == Err(LegalTermsDictionaryNotFound)
    ensures r.Ok? ==> f == FormsJson(Some(r.value))
  {
    match f
    case NoFormsFile => Err(LegalTermsDictionaryDoesNotExist)
    case FormsJson(None) => Err(LegalTermsDictionaryNotFound)
    case FormsJson(Some(d)) => Ok(d)
  }

  /** `set_current_legal_term_dict(language, country)`: the language is
      looked up first, then the country under it. */
  function SelectForms(forms: LanguageForms, language: string, country: string): (r: Result<LegalDict>)
    ensures !HasKey(forms, language) <==> r == Err(LanguageNotSupported)
    ensures HasKey(forms, language) && !HasKey(Get(forms, language), country) <==> r == Err(CountryNotSupported)
    ensures r.Ok? <==> HasKey(forms, language) && HasKey(Get(forms, language), country)
    ensures r.Ok? ==> r.value == Get(Get(forms, language), country)
  {
    if !HasKey(forms, language) then Err(LanguageNotSupported)
    else if !HasKey(Get(forms, language), country) then Err(CountryNotSupported)
    else Ok(Get(Get(forms, language), country))
  }

  /** The escaped, lower-cased variants of one canonical term. */
  function EscapedVariants(variants: seq<string>): seq<string>
  {
    seq(|variants|, i requires 0 <= i < |variants| => ReEscape(Lower(variants[i])))
  }

  /** `abbrev_regex` as written: the escaped, lower-cased variants joined
      by bars between `(\b` and `\b)`. The boundaries sit inside the
      group, so they bind to the first and the last alternative only: a
      middle variant need not be a word, the first need not end one and the
      last need not start one (`AbbrevPatternInsideWord`). */
  function AbbrevPattern(variants: seq<string>): (r: string)
    ensures |r| >= 6 && r[..3] == @"(\b" && r[|r| - 3..] == @"\b)"
  {
    @"(\b" + Join("|", EscapedVariants(variants)) + @"\b)"
  }

  /** The pattern `abbrev_regex` is evidently meant to be, one that finds
      any variant as a whole word: the same alternatives between `\b(` and
      `)\b`. */
  function WholeWordPattern(variants: seq<string>): (r: string)
    ensures |r| >= 6 && r[..3] == @"\b(" && r[|r| - 3..] == @")\b"
  {
    @"\b(" + Join("|", EscapedVariants(variants)) + @")\b"
  }

  /** The literals the alternation tries, in order: the lower-cased
      variants, or one empty literal when there is none. */
  function Alternatives(variants: seq<string>): (r: seq<string>)
    ensures r != []
    ensures variants != [] ==> |r| == |variants| && forall k :: 0 <= k < |r| ==> r[k] == Lower(variants[k])
  {
    if variants == [] then [""] else seq(|variants|, k requires 0 <= k < |variants| => Lower(variants[k]))
  }

  /** The alternatives' escaped join is the variants' escaped join. */
  lemma AlternativesJoin(variants: seq<string>)
    ensures EscapedJoin(Alternatives(variants)) == Join("|", EscapedVariants(variants))
  {
    var lits := Alternatives(variants);
    var xs := seq(|lits|, k requires 0 <= k < |lits| => ReEscape(lits[k]));
    if variants == [] {
      assert xs == [""];
    } else {
      assert xs == EscapedVariants(variants);
    }
  }

  /** `abbrev_regex` is the alternation with its boundaries inside the
      group, over the variants' literals. */
  lemma AbbrevPatternMeaning(variants: seq<string>)
    ensures AbbrevPattern(variants) == Render(InnerBoundaries(Alternatives(variants)))
  {
    AlternativesJoin(variants);
    InnerBoundariesText(Alternatives(variants));
  }

  /** The corrected pattern is the alternation with its boundaries outside
      the group, over the variants' literals, and searching a name with it
      finds the leftmost whole-word occurrence of a variant, or nothing
      exactly when no variant occurs in the name as a whole word. */
  lemma WholeWordPatternMeaning(variants: seq<string>, s: string)
    ensures WholeWordPattern(variants) == Render(OuterBoundaries(Alternatives(variants)))
    ensures var lits := Alternatives(variants);
      var r := Search(OuterBoundaries(lits), s);
      && (r.Some? ==> r.value.1 < |lits| && WholeWordAt(s, lits[r.value.1], r.value.0))
      && (r.Some? ==> forall q, j :: 0 <= q < r.value.0 && 0 <= j < |lits| ==> !WholeWordAt(s, lits[j], q))
      && (r.None? <==> forall q, j :: 0 <= q <= |s| && 0 <= j < |lits| ==> !WholeWordAt(s, lits[j], q))
  {
    AlternativesJoin(variants);
    OuterBoundariesText(Alternatives(variants));
    OuterSearch(Alternatives(variants), s);
  }

  /** For the variants "inc" and "incorporated", `abbrev_regex` finds "inc"
      at the start of "incorporated" in "acme incorporated", where it ends
      inside a word; the corrected pattern finds the whole word
      "incorporated". */
  lemma AbbrevPatternInsideWord()
    ensures var vs := ["inc", "incorporated"];
      var s := "acme incorporated";
      && AbbrevPattern(vs) == Render(InnerBoundaries(Alternatives(vs)))
      && Search(InnerBoundaries(Alternatives(vs)), s) == Some((5, 0))
      && !AtBoundary(s, 8)
      && WholeWordPattern(vs) == Render(OuterBoundaries(Alternatives(vs)))
      && Search(OuterBoundaries(Alternatives(vs)), s) == Some((5, 1))
  {
    var vs := ["inc", "incorporated"];
    AbbrevPatternMeaning(vs);
    AlternativesJoin(vs);
    OuterBoundariesText(Alternatives(vs));
    IncAlternatives(vs);
    InnerBoundariesMatchInsideWord();
  }

  /** Both variants are already lower case, so they are their own literals. */
  lemma IncAlternatives(vs: seq<string>)
    requires vs == ["inc", "incorporated"]
    ensures Alternatives(vs) == vs
  {
    var lits := Alternatives(vs);
    forall k | 0 <= k < 2 ensures lits[k] == vs[k] {
      forall i | 0 <= i < |vs[k]| ensures Lower(vs[k])[i] == vs[k][i] {
        assert !IsUpperAscii(vs[k][i]);
      }
    }
  }

  // ----- cleaning, as mutually recursive functions -----

  /** `get_clean_name(s)` for a string: unicode removal if set; strip and
      lower-case; the legal-term step if set; the default rules; the letter
      case; extra spaces removed. A failure is a missing rule (KeyError), an
      empty match (ValueError) or a match the name does not contain
      (RecursionError). */
  function CleanCompanyText(rt: Runtime, table: RuleTable, st: Settings, current: LegalDict, s: string): (r: Result<string>)
    ensures r.Ok? ==> Trimmed(r.value) && SingleSpaced(r.value)
    ensures r.Ok? && st.letterCase == "upper" ==> NoLower(r.value)
    ensures r.Err? ==> r.error.KeyError? || r.error == ValueError || r.error == RecursionError
    ensures r.Err? && AllKnown(table, st.defaultRules) ==> r.error == ValueError || r.error == RecursionError
    ensures !st.normalize ==> (r.Ok? <==> AllKnown(table, st.defaultRules))
    decreases |s|, 2, 0
  {
    var b := Prepare(st, s);
    var n :- if st.normalize then NormalizeFrom(rt, table, st, current, b, current) else Ok(b);
    CleanWithFails(rt, table, n, st.defaultRules);
    var c :- CleanWith(rt, table, n, st.defaultRules);
    Ok(Finish(st.letterCase, c))
  }

  /** CleanCompanyText stage by stage: prepare, normalise when asked, run
      the rules, finish. */
  lemma CleanCompanyTextSteps(rt: Runtime, table: RuleTable, st: Settings, current: LegalDict, s: string)
    ensures CleanCompanyText(rt, table, st, current, s)
      == (var b := Prepare(st, s);
          var n :- if st.normalize then NormalizeFrom(rt, table, st, current, b, current) else Ok(b);
          var c :- CleanWith(rt, table, n, st.defaultRules);
          Ok(Finish(st.letterCase, c)))
  {
  }

  /** The legal-term loop from the entry `terms[0]` on: the first term whose
      pattern `abbrev_regex` is found decides; when none is, the name is
      kept. */
  function NormalizeFrom(rt: Runtime, table: RuleTable, st: Settings, current: LegalDict, name: string,
                         terms: seq<(string, seq<string>)>): (r: Result<string>)
    ensures r.Err? ==> r.error.KeyError? || r.error == ValueError || r.error == RecursionError
    ensures r.Err? && AllKnown(table, st.defaultRules) ==> r.error == ValueError || r.error == RecursionError
    decreases |name|, 1, |terms|
  {
    if terms == [] then Ok(name)
    else
      match rt.search(AbbrevPattern(terms[0].1), name)
      case None => NormalizeFrom(rt, table, st, current, name, terms[1..])
      case Some(m) => NormalizeAround(rt, table, st, current, m, Padded(terms[0].0), name)
  }

  /** `replace_and_normalize(m, replacement, name)`: split the name around
      the first occurrence of `m`, clean both sides, and join them around
      the replacement with single spaces. An empty `m` makes `partition`
      raise ValueError; an `m` the name does not contain leaves the name
      whole, so cleaning it again finds the same match forever. */
  function NormalizeAround(rt: Runtime, table: RuleTable, st: Settings, current: LegalDict,
                               m: string, replacement: string, name: string): (r: Result<string>)
    ensures r.Err? ==> r.error.KeyError? || r.error == ValueError || r.error == RecursionError
    ensures r.Err? && AllKnown(table, st.defaultRules) ==> r.error == ValueError || r.error == RecursionError
    decreases |name|, 0, 0
  {
    var p :- Partition(name, m);
    if p.1 == [] then Err(RecursionError)
    else
      var left :- CleanCompanyText(rt, table, st, current, p.0);
      var right :- CleanCompanyText(rt, table, st, current, p.2);
      Ok(Join(" ", [left, replacement, right]))
  }

  /** `get_clean_name(v)`: a value that is not a string gives NaN, or raises
      CompanyNameIsNotAString in exception mode; a string is cleaned. */
  function CleanCompanyName(rt: Runtime, table: RuleTable, st: Settings, current: LegalDict, v: Value): (r: Result<Value>)
    ensures v.Null? ==> (r.Err? <==> st.raiseOnNonString)
    ensures v.Null? && r.Err? ==> r.error == CompanyNameIsNotAString
    ensures v.Null? && r.Ok? ==> r.value == Null
    ensures v.Str? && r.Ok? ==> r.value.Str? && Trimmed(r.value.s) && SingleSpaced(r.value.s)
  {
    match v
    case Null => if st.raiseOnNonString then Err(CompanyNameIsNotAString) else Ok(Null)
    case Str(s) =>
      var out :- CleanCompanyText(rt, table, st, current, s);
      Ok(Str(out))
  }

  class CompanyNameCleaner {
    const forms: LanguageForms
    var mode: ModeOfUse
    var defaultCleaningRules: seq<string>
    var normalizeLegalTerms: bool
    var currentDict: LegalDict
    var language: string
    var country: string
    var outputLettercase: string
    var removeUnicode: bool

    /** What the fields decide about cleaning one name; this cleaner has no
        accent stage, no post-processing rules and no end anchor. */
    function Settings(): Settings
      reads this
    {
      NameCleaning.Settings(mode == ExceptionMode, outputLettercase, removeUnicode, false,
                            defaultCleaningRules, None, normalizeLegalTerms, Anywhere)
    }

    /** The fields before the first dictionary is chosen. */
    constructor(forms: LanguageForms)
      ensures this.forms == forms && currentDict == []
      ensures language == Company.DefaultLanguage && country == Company.DefaultCountry
      ensures mode == SilentMode && defaultCleaningRules == CompanyDefaultRules && normalizeLegalTerms
      ensures outputLettercase == "lower" && !removeUnicode
    {
      this.forms := forms;
      mode := SilentMode;
      defaultCleaningRules := CompanyDefaultRules;
      normalizeLegalTerms := true;
      currentDict := [];
      language := Company.DefaultLanguage;
      country := Company.DefaultCountry;
      outputLettercase := "lower";
      removeUnicode := false;
    }

    /** `CompanyNameCleaner()`: load the legal forms, then select English
        for the United States; a missing file or entry, or a missing en/us
        dictionary, is raised. */
    static method New(file: FormsFile) returns (r: Result<CompanyNameCleaner>)
      ensures LoadForms(file).Err? ==> r == Err(LoadForms(file).error)
      ensures LoadForms(file).Ok? ==>
        var sel := SelectForms(LoadForms(file).value, Company.DefaultLanguage, Company.DefaultCountry);
        && (sel.Err? ==> r == Err(sel.error))
        && (sel.Ok? ==> r.Ok? && fresh(r.value) && r.value.forms == LoadForms(file).value && r.value.currentDict == sel.value)
      ensures r.Ok? ==>
        var c := r.value;
        && c.language == Company.DefaultLanguage && c.country == Company.DefaultCountry
        && c.mode == SilentMode && c.defaultCleaningRules == CompanyDefaultRules && c.normalizeLegalTerms
        && c.outputLettercase == "lower" && !c.removeUnicode
    {
      var forms := LoadForms(file);
      if forms.Err? {
        return Err(forms.error);
      }
      var c := new CompanyNameCleaner(forms.value);
      var s := c.SetCurrentLegalTermDict(Company.DefaultLanguage, Company.DefaultCountry);
      if s.Err? {
        return Err(s.error);
      }
      return Ok(c);
    }

    /** The `default_cleaning_rules` setter: a list of known rule names is
        stored; otherwise CleaningRuleNotFoundInTheDictionary is raised and
        the old list stays. */
    method SetDefaultCleaningRules(names: seq<string>) returns (r: Result<()>)
      modifies this
      ensures AllKnown(CompanyRulesDict, names) ==> r == Ok(()) && defaultCleaningRules == names
      ensures !AllKnown(CompanyRulesDict, names) ==>
        r == Err(CleaningRuleNotFoundInTheDictionary) && defaultCleaningRules == old(defaultCleaningRules)
      ensures mode == old(mode) && normalizeLegalTerms == old(normalizeLegalTerms) && currentDict == old(currentDict)
      ensures language == old(language) && country == old(country)
      ensures outputLettercase == old(outputLettercase) && removeUnicode == old(removeUnicode)
    {
      var ok := RulesExistIn(CompanyRulesDict, names);
      if !ok {
        return Err(CleaningRuleNotFoundInTheDictionary);
      }
      defaultCleaningRules := names;
      return Ok(());
    }

    /** `get_type_current_legal_term_dict`: the language, then the country. */
    method TypeCurrent() returns (r: seq<string>)
      ensures r == [language, country]
    {
      return [language, country];
    }

    /** `get_types_available_legal_term_dict`: the fixed list, which names
        the pair a new cleaner selects. */
    method TypesAvailable() returns (r: seq<string>)
      ensures r == AvailableLegalTermsDict
      ensures Company.DefaultLanguage + "," + Company.DefaultCountry in r
    {
      assert AvailableLegalTermsDict[0] == Company.DefaultLanguage + "," + Company.DefaultCountry;
      return AvailableLegalTermsDict;
    }

    /** `get_cleaning_rules_available`: the names of the rule table, in its order. */
    method CleaningRulesAvailable() returns (r: seq<string>)
      ensures |r| == |CompanyRulesDict|
      ensures forall i :: 0 <= i < |r| ==> r[i] == CompanyRulesDict[i].0
      ensures AllKnown(CompanyRulesDict, r)
    {
      r := Keys(CompanyRulesDict);
    }

    /** `set_current_legal_term_dict(language, country)`: on success the
        country's map becomes the dictionary in use and both names are
        recorded; on failure nothing changes. */
    method SetCurrentLegalTermDict(language: string, country: string) returns (r: Result<()>)
      modifies this
      ensures var sel := SelectForms(forms, language, country);
        && (sel.Err? ==> r == Err(sel.error) && currentDict == old(currentDict)
                         && this.language == old(this.language) && this.country == old(this.country))
        && (sel.Ok? ==> r == Ok(()) && currentDict == sel.value && this.language == language && this.country == country)
      ensures mode == old(mode) && defaultCleaningRules == old(defaultCleaningRules) && normalizeLegalTerms == old(normalizeLegalTerms)
      ensures outputLettercase == old(outputLettercase) && removeUnicode == old(removeUnicode)
    {
      if !HasKey(forms, language) {
        return Err(LanguageNotSupported);
      }
      var langDict := Get(forms, language);
      if !HasKey(langDict, country) {
        return Err(CountryNotSupported);
      }
      currentDict := Get(langDict, country);
      this.language := language;
      this.country := country;
      return Ok(());
    }

    /** `get_clean_name(v)` with the cleaner's settings and dictionary. */
    method GetCleanName(rt: Runtime, v: Value) returns (r: Result<Value>)
      ensures r == CleanCompanyName(rt, CompanyRulesDict, Settings(), currentDict, v)
    {
      if v.Null? {
        if mode == ExceptionMode {
          return Err(CompanyNameIsNotAString);
        }
        return Ok(Null);
      }
      var s := CleanText(rt, v.s);
      if s.Err? {
        return Err(s.error);
      }
      return Ok(Str(s.value));
    }

    /** The body of `get_clean_name` for a string, reassigning the name stage
        by stage. */
    method CleanText(rt: Runtime, s: string) returns (r: Result<string>)
      ensures r == CleanCompanyText(rt, CompanyRulesDict, Settings(), currentDict, s)
      decreases |s|, 2, 0
    {
      ghost var st := Settings();
      CleanCompanyTextSteps(rt, CompanyRulesDict, st, currentDict, s);
      var name := s;
      if removeUnicode {
        name := AsciiOnly(name);
      }
      name := Lower(Strip(name));
      assert name == Prepare(st, s);
      if normalizeLegalTerms {
        var n := NormalizeName(rt, name);
        if n.Err? {
          return Err(n.error);
        }
        name := n.value;
      }
      r := ApplyRulesAndCase(rt, name);
    }

    /** The legal-term loop: the first term whose pattern `abbrev_regex` is
        found splits the name, and the loop stops there. */
    method NormalizeName(rt: Runtime, name: string) returns (r: Result<string>)
      ensures r == NormalizeFrom(rt, CompanyRulesDict, Settings(), currentDict, name, currentDict)
      decreases |name|, 1, 0
    {
      var i := 0;
      while i < |currentDict|
        invariant 0 <= i <= |currentDict|
        invariant NormalizeFrom(rt, CompanyRulesDict, Settings(), currentDict, name, currentDict)
          == NormalizeFrom(rt, CompanyRulesDict, Settings(), currentDict, name, currentDict[i..])
      {
        var replacement := Padded(currentDict[i].0);
        var found := rt.search(AbbrevPattern(currentDict[i].1), name);
        if found.Some? {
          r := ReplaceAndNormalize(rt, found.value, replacement, name);
          return;
        }
        assert currentDict[i..][1..] == currentDict[i + 1..];
        i := i + 1;
      }
      return Ok(name);
    }

    /** The default rules, then the letter case, then extra spaces removed. */
    method ApplyRulesAndCase(rt: Runtime, name: string) returns (r: Result<string>)
      ensures r == (var c :- CleanWith(rt, CompanyRulesDict, name, defaultCleaningRules); Ok(Finish(outputLettercase, c)))
    {
      var d := BuildRuleDict(CompanyRulesDict, defaultCleaningRules);
      if d.Err? {
        return Err(d.error);
      }
      var out := RunRegexRules(rt, name, d.value);
      if outputLettercase == "upper" {
        out := Upper(out);
      } else if outputLettercase == "title" {
        out := Title(out);
      }
      out := RemoveExtraSpaces(out);
      return Ok(out);
    }

    /** `replace_and_normalize(m, replacement, name)`. */
    method ReplaceAndNormalize(rt: Runtime, m: string, replacement: string, name: string) returns (r: Result<string>)
      ensures r == NormalizeAround(rt, CompanyRulesDict, Settings(), currentDict, m, replacement, name)
      decreases |name|, 0, 0
    {
      var p := Partition(name, m);
      if p.Err? {
        return Err(p.error);
      }
      var (left, center, right) := p.value;
      if center == [] {
        return Err(RecursionError);
      }
      var l := CleanText(rt, left);
      if l.Err? {
        return Err(l.error);
      }
      var rr := CleanText(rt, right);
      if rr.Err? {
        return Err(rr.error);
      }
      return Ok(Join(" ", [l.value, replacement, rr.value]));
    }
  }

  // ----- lemmas -----

  /** The package's default rules are all rules of its table. */
  lemma CompanyDefaultRulesKnown()
    ensures AllKnown(CompanyRulesDict, CompanyDefaultRules)
  {
    assert Keys(CompanyRulesDict) == [
      "remove_email", "remove_url", "remove_www_address", "enforce_single_space_between_words", "treat_AND",
      "replace_hyphen_underscore_by_space", "remove_all_punctuation", "remove_mentions", "remove_hashtags",
      "remove_numbers", "remove_single_quote_next_character", "remove_words_in_parentheses"];
  }

  /** A term without variants gives the pattern of two word boundaries and
      nothing between them, which matches the empty string. */
  lemma NoVariantsPattern()
    ensures AbbrevPattern([]) == @"(\b\b)"
  {
  }

  /** A term with one variant looks for exactly that variant, lower-cased
      and escaped, as a whole word. */
  lemma OneVariantPattern(v: string)
    ensures AbbrevPattern([v]) == @"(\b" + ReEscape(Lower(v)) + @"\b)"
  {
    assert EscapedVariants([v]) == [ReEscape(Lower(v))];
  }

  /** When no term's pattern is found the legal-term step keeps the name. */
  lemma {:induction false} NormalizeNoMatch(rt: Runtime, table: RuleTable, st: Settings, current: LegalDict, name: string,
                                           terms: seq<(string, seq<string>)>)
    requires forall j :: 0 <= j < |terms| ==> rt.search(AbbrevPattern(terms[j].1), name).None?
    ensures NormalizeFrom(rt, table, st, current, name, terms) == Ok(name)
    decreases |terms|
  {
    if terms != [] {
      assert rt.search(AbbrevPattern(terms[0].1), name).None?;
      NormalizeNoMatch(rt, table, st, current, name, terms[1..]);
    }
  }

  /** The first term whose pattern is found decides the step, and the scan
      stops there: later terms play no part. */
  lemma {:induction false} NormalizeFirstMatch(rt: Runtime, table: RuleTable, st: Settings, current: LegalDict, name: string,
                                              terms: seq<(string, seq<string>)>, j: nat)
    requires j < |terms| && rt.search(AbbrevPattern(terms[j].1), name).Some?
    requires forall k :: 0 <= k < j ==> rt.search(AbbrevPattern(terms[k].1), name).None?
    ensures NormalizeFrom(rt, table, st, current, name, terms)
      == NormalizeAround(rt, table, st, current, rt.search(AbbrevPattern(terms[j].1), name).value, Padded(terms[j].0), name)
    decreases j
  {
    if j > 0 {
      assert rt.search(AbbrevPattern(terms[0].1), name).None?;
      assert terms[1..][j - 1] == terms[j];
      NormalizeFirstMatch(rt, table, st, current, name, terms[1..], j - 1);
    }
  }

  /** The runtime's `re.search` on the text of `p` does what Python's
      engine does, as `Search` describes it: the match is the literal of the
      alternative found. */
  predicate SearchesAsPython(rt: Runtime, p: AltPattern, s: string)
  {
    match Search(p, s)
    case None => rt.search(Render(p), s).None?
    case Some((_, k)) => k < |p.alts| && rt.search(Render(p), s) == Some(p.alts[k].lit)
  }

  /** The legal-term step as written splits "acme incorporated" inside the
      word "incorporated" when the term's variants are "inc" and
      "incorporated": `abbrev_regex` finds "inc", and the name is cleaned as
      the two sides "acme " and "orporated". */
  lemma CleanerSplitsInsideWord(rt: Runtime, table: RuleTable, st: Settings, current: LegalDict)
    requires SearchesAsPython(rt, InnerBoundaries(Alternatives(["inc", "incorporated"])), "acme incorporated")
    ensures var term := ("incorporated", ["inc", "incorporated"]);
      && rt.search(AbbrevPattern(term.1), "acme incorporated") == Some("inc")
      && NormalizeFrom(rt, table, st, current, "acme incorporated", [term])
         == (var left :- CleanCompanyText(rt, table, st, current, "acme ");
             var right :- CleanCompanyText(rt, table, st, current, "orporated");
             Ok(Join(" ", [left, Padded("incorporated"), right])))
  {
    IncSearched(rt);
    IncPartition();
    var term := ("incorporated", ["inc", "incorporated"]);
    assert [term][1..] == [];
  }

  /** Under Python's engine `abbrev_regex` for "inc" and "incorporated"
      finds "inc" in "acme incorporated". */
  lemma IncSearched(rt: Runtime)
    requires SearchesAsPython(rt, InnerBoundaries(Alternatives(["inc", "incorporated"])), "acme incorporated")
    ensures rt.search(AbbrevPattern(["inc", "incorporated"]), "acme incorporated") == Some("inc")
  {
    var vs := ["inc", "incorporated"];
    AbbrevPatternInsideWord();
    IncAlternatives(vs);
    assert InnerBoundaries(vs).alts[0].lit == "inc";
  }

  /** "acme incorporated".partition("inc") splits inside "incorporated". */
  lemma IncPartition()
    ensures Partition("acme incorporated", "inc") == Ok(("acme ", "inc", "orporated"))
  {
    IncFirstAt();
    PartitionAt("acme incorporated", "inc", 5);
    IncSides();
  }

  /** The first "inc" in "acme incorporated" starts at position 5. */
  lemma IncFirstAt()
    ensures OccursAt("acme incorporated", "inc", 5)
    ensures forall j :: 0 <= j < 5 ==> !OccursAt("acme incorporated", "inc", j)
  {
    var s := "acme incorporated";
    assert s[5] == 'i' && s[6] == 'n' && s[7] == 'c';
    assert s[5..8] == "inc";
    forall j | 0 <= j < 5 ensures !OccursAt(s, "inc", j) {
      assert s[j..j + 3][0] == s[j];
    }
  }

  lemma IncSides()
    ensures "acme incorporated"[..5] == "acme "
    ensures "acme incorporated"[8..] == "orporated"
  {
  }


  /** A match that occurs in the name splits it at its first occurrence
      into two strictly shorter parts, which are cleaned on their own and
      joined around the replacement by single spaces. */
  lemma NormalizeAroundSplits(rt: Runtime, table: RuleTable, st: Settings, current: LegalDict,
                              m: string, replacement: string, name: string)
    requires m != [] && Find(name, m).Some?
    ensures var i := Find(name, m).value;
      && |name[..i]| < |name| && |name[i + |m|..]| < |name|
      && NormalizeAround(rt, table, st, current, m, replacement, name)
        == (var left :- CleanCompanyText(rt, table, st, current, name[..i]);
            var right :- CleanCompanyText(rt, table, st, current, name[i + |m|..]);
            Ok(left + " " + replacement + " " + right))
  {
    var i := Find(name, m).value;
    PartitionFound(name, m);
    NormalizeAroundParts(rt, table, st, current, m, replacement, name, name[..i], m, name[i + |m|..]);
  }

  /** NormalizeAround once `partition` has split the name into `a`, a
      non-empty `b` and `c`. */
  lemma NormalizeAroundParts(rt: Runtime, table: RuleTable, st: Settings, current: LegalDict,
                             m: string, replacement: string, name: string, a: string, b: string, c: string)
    requires Partition(name, m) == Ok((a, b, c)) && b != []
    ensures NormalizeAround(rt, table, st, current, m, replacement, name)
      == (var left :- CleanCompanyText(rt, table, st, current, a);
          var right :- CleanCompanyText(rt, table, st, current, c);
          Ok(left + " " + replacement + " " + right))
  {
    var l := CleanCompanyText(rt, table, st, current, a);
    var r := CleanCompanyText(rt, table, st, current, c);
    if l.Ok? && r.Ok? {
      JoinThree(" ", l.value, replacement, r.value);
    }
  }

  /** Where the separator occurs, `partition` gives the text before its
      first occurrence, the separator, and the text after. */
  lemma PartitionFound(s: string, sep: string)
    requires sep != [] && Find(s, sep).Some?
    ensures Partition(s, sep) == Ok((s[..Find(s, sep).value], sep, s[Find(s, sep).value + |sep|..]))
  {
  }

  /** `sep.join([a, b, c])`. */
  lemma JoinThree(sep: string, a: string, b: string, c: string)
    ensures Join(sep, [a, b, c]) == a + sep + b + sep + c
  {
    assert [a, b, c][1..] == [b, c];
    assert [b, c][1..] == [c];
    assert Join(sep, [b, c]) == b + sep + c;
    assert Join(sep, [a, b, c]) == a + sep + (b + sep + c);
  }

  /** An empty match makes the split raise ValueError; a match the name
      does not contain raises RecursionError. */
  lemma NormalizeAroundFails(rt: Runtime, table: RuleTable, st: Settings, current: LegalDict,
                             m: string, replacement: string, name: string)
    ensures m == [] ==> NormalizeAround(rt, table, st, current, m, replacement, name) == Err(ValueError)
    ensures m != [] && Find(name, m).None? ==> NormalizeAround(rt, table, st, current, m, replacement, name) == Err(RecursionError)
  {
  }

  /** Preparing a prepared name changes nothing: a split that leaves the
      name whole hands the same text, and so the same match, to the next
      call, which is why such a split recurses without end. */
  lemma PrepareFixed(st: Settings, s: string)
    ensures Prepare(st, Prepare(st, s)) == Prepare(st, s)
  {
    var a := if st.removeUnicode then AsciiOnly(s) else s;
    var b := Lower(Strip(a));
    assert b == Prepare(st, s);
    var a' := if st.removeUnicode then AsciiOnly(b) else b;
    if st.removeUnicode {
      PreparedAscii(a);
      AsciiOnlyFixed(b);
    }
    assert a' == b;
    assert Prepare(st, b) == Lower(Strip(b));
    LowerStripFixed(a);
  }

  /** Stripping and lower-casing keep ASCII text ASCII. */
  lemma PreparedAscii(a: string)
    requires forall i :: 0 <= i < |a| ==> IsAscii(a[i])
    ensures forall i :: 0 <= i < |Lower(Strip(a))| ==> IsAscii(Lower(Strip(a))[i])
  {
    var t := Strip(a);
    StripSpec(a);
    forall i | 0 <= i < |t| ensures IsAscii(t[i]) {
      assert t[i] == a[StripStart(a) + i];
    }
  }

  /** Stripping and lower-casing twice is doing it once. */
  lemma LowerStripFixed(a: string)
    ensures Lower(Strip(Lower(Strip(a)))) == Lower(Strip(a))
  {
    var t := Strip(a);
    var b := Lower(t);
    assert Strip(b) == b by {
      StripSpec(a);
      LowerKeepsSpaces(t);
      StripTrimmed(b);
    }
    LowerTwice(t);
  }

  /** Lower-casing twice is lower-casing once. */
  lemma LowerTwice(t: string)
    ensures Lower(Lower(t)) == Lower(t)
  {
    forall i | 0 <= i < |t| ensures Lower(Lower(t))[i] == Lower(t)[i] {
      var c := t[i];
      assert LowerChar(LowerChar(c)) == LowerChar(c);
    }
  }

  /** Without legal-term normalisation a cleaner with the package's default
      rules never fails. */
  lemma CompanyCleanerDefaultsSucceed(rt: Runtime, st: Settings, current: LegalDict, s: string)
    requires st.defaultRules == CompanyDefaultRules && !st.normalize
    ensures CleanCompanyText(rt, CompanyRulesDict, st, current, s).Ok?
  {
    CompanyDefaultRulesKnown();
  }
}
