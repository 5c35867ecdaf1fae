/** The generic text cleaner: whitespace normalisation and the named-rule
    pipeline over the library's table of cleaning rules. */
module SimpleCleaner {
  import opened Py
  import opened PyDict
  import opened PyStr
  import opened Re
  import opened RulePipeline
  import opened CleaningRules

  /** `show_cleaning_rules()`: the names of the table, in its order; every
      one of them can be handed back to `apply_cleaning_rules`. */
  function ShowCleaningRules(): (r: seq<string>)
    ensures |r| == |CleaningRulesDict|
    ensures forall i :: 0 <= i < |r| ==> r[i] == CleaningRulesDict[i].0
    ensures IsValid(r)
  {
    Keys(CleaningRulesDict)
  }

  /** `remove_extra_spaces(s)`: no whitespace at either end, every inner
      whitespace run one plain space, and nothing else deleted or changed. */
  function RemoveExtraSpaces(s: string): (r: string)
    ensures Trimmed(r) && SingleSpaced(r)
    ensures RemoveWhitespace(r) == RemoveWhitespace(s)
  {
    var t := Strip(s);
    StripSpec(s);
    StripKeepsText(s);
    CollapseTrimmed(t);
    CollapseSingleSpaced(t);
    CollapseKeepsText(t);
    Collapse(t)
  }

  /** Removing extra spaces writes no character but a plain space that was not in its input. */
  lemma RemoveExtraSpacesChars(s: string)
    ensures forall c :: c in RemoveExtraSpaces(s) ==> c == ' ' || c in s
  {
    StripSpec(s);
    CollapseChars(Strip(s));
    forall c | c in Strip(s) ensures c in s {
      var k :| 0 <= k < |Strip(s)| && Strip(s)[k] == c;
      assert s[StripStart(s) + k] == c;
    }
  }

  /** Removing extra spaces twice is removing them once. */
  lemma RemoveExtraSpacesIdempotent(s: string)
    ensures RemoveExtraSpaces(RemoveExtraSpaces(s)) == RemoveExtraSpaces(s)
  {
    var r := RemoveExtraSpaces(s);
    StripTrimmed(r);
    CollapseFixed(r);
  }

  /** `apply_cleaning_rules(text, names)` as the source writes it: build a
      fresh dictionary of the named rules of the table, then run it. */
  method ApplyCleaningRules(rt: Runtime, text: string, names: seq<string>) returns (r: Result<string>)
    ensures r == CleanWith(rt, CleaningRulesDict, text, names)
  {
    var d := BuildRuleDict(CleaningRulesDict, names);
    if d.Err? {
      return Err(d.error);
    }
    var s := RunRegexRules(rt, text, d.value);
    return Ok(s);
  }

  /** Cleaning with the table fails exactly when a name is not one of its
      rules, and then with a KeyError naming the first such name. */
  lemma CleaningRulesErrors(rt: Runtime, text: string, names: seq<string>)
    ensures CleanWith(rt, CleaningRulesDict, text, names).Ok? <==> IsValid(names)
    ensures forall i :: (0 <= i < |names| && !HasKey(CleaningRulesDict, names[i]) && (forall j :: 0 <= j < i ==> HasKey(CleaningRulesDict, names[j])))
                ==> CleanWith(rt, CleaningRulesDict, text, names) == Err(KeyError(names[i]))
  {
    CleanWithErrors(rt, CleaningRulesDict, text, names);
  }

  /** The default pipeline begins with `place_word_the_at_the_beginning`: a
      text in which `the$` matches has its final "the" replaced and gets
      "the " in front before the remaining rules run. */
  lemma DefaultCleaningMovesTheFirst(rt: Runtime, text: string)
    ensures SelectRules(CleaningRulesDict, DefaultCompanyCleaningRules).Ok?
    ensures var d := SelectRules(CleaningRulesDict, DefaultCompanyCleaningRules).value;
      var rule := Rule(" ", "the$");
      var first := rt.sub(rule.pattern, rule.replacement, text);
      && |d| > 0 && d[0] == (PlaceTheRule, rule)
      && CleanWith(rt, CleaningRulesDict, text, DefaultCompanyCleaningRules) ==
        Ok(RunFrom(rt, d, d[1..], if rt.search(rule.pattern, text).Some? then "the " + first else first))
  {
    DefaultPlaceTheReady();
    CleanWithPlaceTheFirst(rt, CleaningRulesDict, text, DefaultCompanyCleaningRules, Rule(" ", "the$"));
  }

  lemma DefaultPlaceTheReady()
    ensures forall n :: n in DefaultCompanyCleaningRules ==> HasKey(CleaningRulesDict, n)
    ensures DefaultCompanyCleaningRules != [] && DefaultCompanyCleaningRules[0] == PlaceTheRule
    ensures HasKey(CleaningRulesDict, PlaceTheRule) && Get(CleaningRulesDict, PlaceTheRule) == Rule(" ", "the$")
    ensures "the$" !in DefaultCompanyCleaningRules
  {
    DefaultRulesValid();
    DefaultRulesEnds();
    LookUpPlaceThe();
    DefaultNamesAreLong();
  }
}
