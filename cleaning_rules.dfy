/** The rule table of the text cleaner and the default company pipeline.

    `cleaning_rules_dict` maps a rule name to its `[replacement, pattern]`
    pair; the patterns are written here exactly as the Python string
    literals evaluate (an unknown escape such as `\s` keeps its backslash). */
module CleaningRules {
  import opened PyDict
  import opened RulePipeline

  /** `cleaning_rules_dict`. */
  const CleaningRulesDict: RuleTable := [
    ("remove_email", Rule(@" ", @"\S*@\S*\s?")),
    ("remove_url", Rule(@" ", @"https*\S+")),
    ("remove_word_the_from_the_end", Rule(@" ", @"the$")),
    ("place_word_the_at_the_beginning", Rule(@" ", @"the$")),
    ("remove_www_address", Rule(@" ", @"https?://[.\w]{3,}|www.[.\w]{3,}")),
    ("enforce_single_space_between_words", Rule(@" ", @"\s+")),
    ("replace_amperstand_by_AND", Rule(@" and ", @"&")),
    ("add_space_between_amperstand", Rule(@" & ", @"&")),
    ("replace_amperstand_between_space_by_AND", Rule(@" and ", @"\s+&\s+")),
    ("replace_hyphen_by_space", Rule(@" ", @"-")),
    ("replace_hyphen_between_spaces_by_single_space", Rule(@" ", @"\s+-\s+")),
    ("replace_underscore_by_space", Rule(@" ", @"_")),
    ("replace_underscore_between_spaces_by_single_space", Rule(@" ", @"\s+_\s+")),
    ("remove_all_punctuation", Rule(@" ", @"([^\w\s])")),
    ("remove_all_letters", Rule(@"", @"[a-zA-Z]+")),
    ("remove_spaces", Rule(@"", @"\s")),
    ("remove_punctuation_except_dot", Rule(@" ", @"([^\w\s.])")),
    ("remove_mentions", Rule(@" ", @"@+")),
    ("remove_hashtags", Rule(@" ", @"#+")),
    ("remove_asterisk", Rule(@" ", @"\*+")),
    ("remove_numbers", Rule(@" ", @"\w*\d+\w*")),
    ("remove_text_puctuation", Rule(@" ", @"\;|\:|\,|\.|\?|\!|""|\|\/|\|")),
    ("remove_text_puctuation_except_dot", Rule(@" ", @"\;|\:|\,|\?|\!|""|\|\/|\|")),
    ("remove_math_symbols", Rule(@" ", @"\+|\-|\*|\>|\<|\=|\%")),
    ("remove_math_symbols_except_dash", Rule(@" ", @"\+|\*|\>|\<|\=|\%")),
    ("remove_parentheses", Rule(@" ", @"\(|\)")),
    ("remove_brackets", Rule(@" ", @"\[|\]")),
    ("remove_curly_brackets", Rule(@" ", @"\{|\}")),
    ("remove_single_quote_next_character", Rule(@" ", @"'\w+")),
    ("remove_single_quote", Rule(@" ", @"'")),
    ("remove_double_quote", Rule(@" ", @"""")),
    ("remove_words_in_parentheses", Rule(@" ", @"\([^()]*\)*")),
    ("remove_words_in_asterisk", Rule(@" ", @"\*[^()]*\*")),
    ("remove_question_marks_in_parentheses", Rule(@" ", @"\([?*^()]*\)")),
    ("repeat_remove_words_in_parentheses", Rule(@" ", @"remove_words_in_parentheses"))
  ]

  /** `default_company_cleaning_rules`: the pre-processing pipeline of the
      company-name cleaner, in order. */
  const DefaultCompanyCleaningRules: seq<string> := [
    "place_word_the_at_the_beginning",
    "remove_words_in_parentheses",
    "repeat_remove_words_in_parentheses",
    "remove_words_in_asterisk",
    "add_space_between_amperstand",
    "replace_amperstand_between_space_by_AND",
    "replace_hyphen_by_space",
    "replace_underscore_by_space",
    "remove_text_puctuation_except_dot",
    "remove_math_symbols",
    "remove_parentheses",
    "remove_brackets",
    "remove_curly_brackets",
    "remove_single_quote_next_character",
    "remove_double_quote",
    "enforce_single_space_between_words"
  ]

  /** `is_valid(names)`: every listed name is a rule of the table. */
  function IsValid(names: seq<string>): (b: bool)
    ensures b <==> forall n :: n in names ==> HasKey(CleaningRulesDict, n)
  {
    if names == [] then true
    else if !HasKey(CleaningRulesDict, names[0]) then false
    else
      assert forall n :: n in names <==> n == names[0] || n in names[1..];
      IsValid(names[1..])
  }

  /** Where each rule of the default pipeline sits in the table. */
  const DefaultRulePositions: seq<nat> := [3, 31, 34, 32, 7, 8, 9, 11, 22, 23, 25, 26, 27, 28, 30, 5]

  /** Every rule of the default pipeline is in the table. */
  lemma DefaultRulesValid()
    ensures IsValid(DefaultCompanyCleaningRules)
  {
    forall k | 0 <= k < |DefaultCompanyCleaningRules|
      ensures HasKey(CleaningRulesDict, DefaultCompanyCleaningRules[k])
    {
      var i := DefaultRulePositions[k];
      assert CleaningRulesDict[i].0 == DefaultCompanyCleaningRules[k];
      assert Keys(CleaningRulesDict)[i] == CleaningRulesDict[i].0;
    }
  }

  /** Every rule name of the default pipeline is longer than four
      characters, so no pattern as short as `the$` names one of them. */
  lemma DefaultNamesAreLong()
    ensures forall k :: 0 <= k < |DefaultCompanyCleaningRules| ==> |DefaultCompanyCleaningRules[k]| > 4
  {
  }

  /** The pipeline starts by moving a trailing "the" to the front and ends by
      collapsing whitespace runs. */
  lemma DefaultRulesEnds()
    ensures DefaultCompanyCleaningRules[0] == PlaceTheRule
    ensures DefaultCompanyCleaningRules[|DefaultCompanyCleaningRules| - 1] == "enforce_single_space_between_words"
  {
  }

  /** The rule found under `name` is the entry at position `i` of the table. */
  lemma LookUpAt(i: nat, name: string)
    requires i < |CleaningRulesDict| && CleaningRulesDict[i].0 == name
    requires forall j :: 0 <= j < i ==> CleaningRulesDict[j].0 != name
    ensures HasKey(CleaningRulesDict, name) && Get(CleaningRulesDict, name) == CleaningRulesDict[i].1
  {
    GetFirst(CleaningRulesDict, i, name);
  }

  lemma LookUpRemoveWordThe()
    ensures HasKey(CleaningRulesDict, "remove_word_the_from_the_end")
    ensures Get(CleaningRulesDict, "remove_word_the_from_the_end") == Rule(" ", "the$")
  {
    LookUpAt(2, "remove_word_the_from_the_end");
  }

  lemma LookUpPlaceThe()
    ensures HasKey(CleaningRulesDict, PlaceTheRule)
    ensures Get(CleaningRulesDict, PlaceTheRule) == Rule(" ", "the$")
  {
    LookUpAt(3, PlaceTheRule);
  }

  lemma LookUpWordsInParentheses()
    ensures HasKey(CleaningRulesDict, "remove_words_in_parentheses")
    ensures Get(CleaningRulesDict, "remove_words_in_parentheses") == Rule(" ", @"\([^()]*\)*")
  {
    LookUpAt(31, "remove_words_in_parentheses");
  }

  lemma LookUpRepeat()
    ensures HasKey(CleaningRulesDict, "repeat_remove_words_in_parentheses")
    ensures Get(CleaningRulesDict, "repeat_remove_words_in_parentheses") == Rule(" ", "remove_words_in_parentheses")
  {
    LookUpAt(34, "repeat_remove_words_in_parentheses");
  }

  /** The two rules about a trailing "the" share the pattern `the$` and the replacement " ". */
  lemma TheRulesShareTheirRule()
    ensures HasKey(CleaningRulesDict, PlaceTheRule)
    ensures HasKey(CleaningRulesDict, "remove_word_the_from_the_end")
    ensures Get(CleaningRulesDict, PlaceTheRule) == Get(CleaningRulesDict, "remove_word_the_from_the_end") == Rule(" ", "the$")
  {
    LookUpRemoveWordThe();
    LookUpPlaceThe();
  }

  /** Default cleaning selects every listed rule, as the table defines it. */
  lemma DefaultSelection(k: string)
    requires k in DefaultCompanyCleaningRules
    ensures SelectRules(CleaningRulesDict, DefaultCompanyCleaningRules).Ok?
    ensures var d := SelectRules(CleaningRulesDict, DefaultCompanyCleaningRules).value;
      HasKey(d, k) && HasKey(CleaningRulesDict, k) && Get(d, k) == Get(CleaningRulesDict, k)
  {
    DefaultRulesValid();
    SelectedRule(CleaningRulesDict, DefaultCompanyCleaningRules, k);
  }

  /** `repeat_remove_words_in_parentheses` names `remove_words_in_parentheses`;
      both are in the default pipeline, so during default cleaning the
      reference resolves to that rule. */
  lemma RepeatRuleResolves()
    ensures SelectRules(CleaningRulesDict, DefaultCompanyCleaningRules).Ok?
    ensures var d := SelectRules(CleaningRulesDict, DefaultCompanyCleaningRules).value;
      && HasKey(d, "repeat_remove_words_in_parentheses")
      && Get(d, "repeat_remove_words_in_parentheses").pattern == "remove_words_in_parentheses"
      && Resolve(d, Get(d, "repeat_remove_words_in_parentheses")) == Get(CleaningRulesDict, "remove_words_in_parentheses")
  {
    assert DefaultCompanyCleaningRules[1] == "remove_words_in_parentheses";
    assert DefaultCompanyCleaningRules[2] == "repeat_remove_words_in_parentheses";
    DefaultSelection("remove_words_in_parentheses");
    DefaultSelection("repeat_remove_words_in_parentheses");
    LookUpRepeat();
  }
}
