/** The oldest company-name cleaner (`company.py` at the package root): a
    function of the name, the legal-term switch and the letter case, over
    the constant tables of `cleaner_data.py`. Unicode is always removed,
    legal terms are replaced before the rules run, a variant is looked for
    only as a whole word with its dots left as they are, and its canonical
    term goes in without padding. */
module StatelessCompany {
  import opened Py
  import opened PyDict
  import opened PyStr
  import opened Re
  import opened RulePipeline
  import opened LegalForms
  import opened LegalTerms
  import opened NameCleaning
  import opened StatelessCleaning
  import CompanyCleaner

  /** `legal_terms_dict` of `cleaner_data.py`. */
  const CleanerLegalTerms: seq<(string, seq<string>)> := [
    ("Agrupamento Complementar de Empresas", ["ace", "a.c.e"]),
    ("Asociacion Civil", ["ac"]),
    ("Limited", ["ltd", "lt"]),
    ("Corporation", ["co", "c.o"]),
    ("Incorporated", ["inc", "inc."])
  ]

  /** `cleaning_rules_dict` of `cleaner_data.py`: the same twelve rules, in
      the same order, as the `company_cleaner` package's table. */
  const CleanerRulesDict: RuleTable := CompanyCleaner.CompanyRulesDict

  /** `default_company_cleaning_rules` of `cleaner_data.py`. */
  const CleanerDefaultRules: seq<string> := [
    "remove_email",
    "remove_url",
    "remove_www_address",
    "remove_numbers",
    "remove_words_in_parentheses",
    "replace_hyphen_underscore_by_space",
    "remove_all_punctuation",
    "enforce_single_space_between_words"
  ]

  /** `get_pattern_name_to_clean()`: the attribute names taken to hold company names. */
  function GetPatternNameToClean(): (r: seq<string>)
    ensures |r| == 4 && r[0] == "company_name" && "company" in r
    ensures forall i, j :: 0 <= i < j < |r| ==> r[i] != r[j]
  {
    ["company_name", "entity", "name", "company"]
  }

  /** The pattern for the variant `v`: lower-cased and wrapped in word
      boundaries, with nothing escaped and no end anchor. */
  function WordPattern(v: string): (p: string)
    ensures |p| == |v| + 4 && p[..2] == @"\b" && p[|p| - 2..] == @"\b"
    ensures p[2..|p| - 2] == Lower(v)
  {
    @"\b" + Lower(v) + @"\b"
  }

  /** The substitutions for one canonical term: each variant, in order,
      replaced by the lower-cased term. */
  function WordSubs(term: string, variants: seq<string>): (r: seq<Sub>)
    ensures |r| == |variants|
  {
    seq(|variants|, i requires 0 <= i < |variants| => Sub(WordPattern(variants[i]), Lower(term)))
  }

  /** The substitutions for a whole dictionary, term after term. */
  function AllWordSubs(d: seq<(string, seq<string>)>): seq<Sub>
    decreases |d|
  {
    if d == [] then [] else WordSubs(d[0].0, d[0].1) + AllWordSubs(d[1..])
  }

  /** `get_clean_name(v, normalize_legal_terms, output_lettercase)`: a value
      that is not a string raises AttributeError; a string has its non-ASCII
      characters removed, is stripped and lower-cased, has its legal terms
      replaced if asked, runs the default rules without reference
      resolution, takes the letter case and loses its extra spaces. */
  function CleanName(rt: Runtime, v: Value, normalize: bool, letterCase: string): (r: Result<string>)
    ensures r.Err? <==> v.Null?
    ensures r.Err? ==> r.error == AttributeError
    ensures r.Ok? ==> Trimmed(r.value) && SingleSpaced(r.value)
    ensures r.Ok? && letterCase == "upper" ==> NoLower(r.value)
  {
    match v
    case Null => Err(AttributeError)
    case Str(s) =>
      var b := Lower(Strip(AsciiOnly(s)));
      var n := if normalize then ApplySubs(rt, AllWordSubs(CleanerLegalTerms), b) else b;
      CleanerDefaultsSelected();
      Ok(Finish(letterCase, PlainRun(rt, SelectRules(CleanerRulesDict, CleanerDefaultRules).value, n)))
  }

  /** `get_clean_name` as the source writes it: the nested legal-term
      loops, the selection loop and the rule loop, each reassigning the name. */
  method GetCleanName(rt: Runtime, v: Value, normalize: bool, letterCase: string) returns (r: Result<string>)
    ensures r == CleanName(rt, v, normalize, letterCase)
  {
    var u := CleanUnicode(v);
    if u.Err? {
      return Err(u.error);
    }
    var name := Lower(Strip(u.value));
    if normalize {
      name := ReplaceLegalTerms(rt, CleanerLegalTerms, name);
    }
    CleanerDefaultsSelected();
    var d := BuildRuleDict(CleanerRulesDict, CleanerDefaultRules);
    var ruled := ApplyCleaningRules(rt, Str(name), d.value);
    name := ruled.value;
    if letterCase == "upper" {
      name := Upper(name);
    } else if letterCase == "title" {
      name := Title(name);
    }
    name := SimpleCleaner.RemoveExtraSpaces(name);
    return Ok(name);
  }

  /** The nested loops over the terms and their variants. */
  method ReplaceLegalTerms(rt: Runtime, d: seq<(string, seq<string>)>, name: string) returns (r: string)
    ensures r == ApplySubs(rt, AllWordSubs(d), name)
  {
    r := name;
    var i := 0;
    while i < |d|
      invariant 0 <= i <= |d|
      invariant ApplySubs(rt, AllWordSubs(d), name) == ApplySubs(rt, AllWordSubs(d[i..]), r)
    {
      assert d[i..][1..] == d[i + 1..];
      ApplySubsSplit(rt, WordSubs(d[i].0, d[i].1), AllWordSubs(d[i + 1..]), r);
      var replacement := Lower(d[i].0);
      var j := 0;
      ghost var start := r;
      while j < |d[i].1|
        invariant 0 <= j <= |d[i].1|
        invariant ApplySubs(rt, WordSubs(d[i].0, d[i].1), start) == ApplySubs(rt, WordSubs(d[i].0, d[i].1)[j..], r)
      {
        assert WordSubs(d[i].0, d[i].1)[j..][1..] == WordSubs(d[i].0, d[i].1)[j + 1..];
        r := rt.sub(@"\b" + Lower(d[i].1[j]) + @"\b", replacement, r);
        j := j + 1;
      }
      i := i + 1;
    }
  }

  // ----- lemmas -----

  /** Every default rule of `cleaner_data.py` is in its table, so the
      selection never fails. */
  lemma CleanerDefaultsSelected()
    ensures SelectRules(CleanerRulesDict, CleanerDefaultRules).Ok?
  {
    CompanyCleaner.CompanyDefaultRulesKnown();
    assert forall n :: n in CleanerDefaultRules ==> n in CompanyCleaner.CompanyDefaultRules;
    SelectRulesSpec(CleanerRulesDict, CleanerDefaultRules);
  }
  /** No rule of `cleaner_data.py` is the `the` special case, and no pattern
      of its table is the name of a default rule. */
  lemma CleanerPatternsAreNotNames()
    ensures PlaceTheRule !in CleanerDefaultRules
    ensures forall i :: 0 <= i < |CleanerRulesDict| ==> CleanerRulesDict[i].1.pattern !in CleanerDefaultRules
  {
  }

  /** On the selected default rules, the later cleaners' rule loop, with its
      reference resolution and its special case, does what this cleaner's
      plain loop does. */
  lemma CleanerRulesArePlain(rt: Runtime, s: string)
    ensures SelectRules(CleanerRulesDict, CleanerDefaultRules).Ok?
    ensures var d := SelectRules(CleanerRulesDict, CleanerDefaultRules).value;
      ApplyRegexRules(rt, s, d) == PlainRun(rt, d, s)
  {
    CleanerDefaultsSelected();
    var d := SelectRules(CleanerRulesDict, CleanerDefaultRules).value;
    forall i | 0 <= i < |d|
      ensures d[i].0 != PlaceTheRule && !HasKey(d, d[i].1.pattern)
    {
      SelectedEntryPlain(i);
    }
    PlainRunIsPipeline(rt, d, d, s);
  }

  /** One selected default rule is not the `the` special case, and its
      pattern names no selected rule. */
  lemma SelectedEntryPlain(i: nat)
    requires SelectRules(CleanerRulesDict, CleanerDefaultRules).Ok?
    requires i < |SelectRules(CleanerRulesDict, CleanerDefaultRules).value|
    ensures var d := SelectRules(CleanerRulesDict, CleanerDefaultRules).value;
      d[i].0 != PlaceTheRule && !HasKey(d, d[i].1.pattern)
  {
    var d := SelectRules(CleanerRulesDict, CleanerDefaultRules).value;
    SelectRulesSpec(CleanerRulesDict, CleanerDefaultRules);
    assert Keys(d) == Dedup(CleanerDefaultRules);
    DedupFromMembers(CleanerDefaultRules, []);
    CleanerPatternsAreNotNames();
    var k := d[i].0;
    assert Keys(d)[i] == k;
    assert k in CleanerDefaultRules;
    GetAt(d, i);
    var j := IndexOf(CleanerRulesDict, k);
    assert d[i].1 == CleanerRulesDict[j].1;
    assert d[i].1.pattern !in Keys(d);
  }

  /** Without legal terms, this cleaner is the current one with Unicode
      removal on, no accent stage, no post-processing rules and the default
      rules of `cleaner_data.py`: the same preparation, rules and finish. */
  lemma CleanNameIsCurrentWithoutTerms(rt: Runtime, s: string, letterCase: string)
    ensures CleanName(rt, Str(s), false, letterCase)
      == NameCleaning.CleanText(rt, CleanerRulesDict,
           NameCleaning.Settings(false, letterCase, true, false, CleanerDefaultRules, None, false, AtTheEnd), None, s)
  {
    var b := Lower(Strip(AsciiOnly(s)));
    CleanerRulesArePlain(rt, b);
  }
}
