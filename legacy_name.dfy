/** The older company-name cleaner, kept in two near-identical copies
    (`text/name.py` with `get_clean_data`/`get_clean_df`, and `company/name.py`
    with `get_clean_name`/`apply_cleaner_to_df`). It has the same dictionary
    selection as the current cleaner, but no accent or post-processing stage,
    an unchecked mode and letter case, and country values matched as they are. */
module LegacyName {
  import opened Py
  import opened Lib
  import opened PyDict
  import opened Re
  import opened RulePipeline
  import opened CleaningRules
  import opened LegalForms
  import opened LegalTerms
  import opened NameCleaning
  import opened Tabular
  import Company

  class CompanyNameCleaner {
    /** The rule table the cleaner validates and selects from: the
        `text` package's table for `text/name.py`; `company/name.py` reads
        `company.cleaning_rules`, which is not part of this model and is
        taken as given. */
    const ruleTable: RuleTable
    const store: LegalTermStore
    var mode: ModeOfUse
    var outputLettercase: string
    var normalizeLegalTerms: bool
    var removeUnicode: bool
    var defaultCleaningRules: seq<string>
    var location: LegalTermLocation

    /** What the fields decide about cleaning one name: no accent removal
        and no post-processing rules. */
    function Settings(): Settings
      reads this
    {
      NameCleaning.Settings(mode == ExceptionMode, outputLettercase, removeUnicode, false,
                            defaultCleaningRules, None, normalizeLegalTerms, location)
    }

    /** The fields before the first dictionary is chosen. */
    constructor(ruleTable: RuleTable, defaultRules: seq<string>, folder: Folder, available: Dict<string, seq<string>>)
      ensures fresh(store) && this.ruleTable == ruleTable
      ensures store.folder == folder && store.available == available
      ensures store.Selected() == Selection(Some([]), Company.DefaultCountry, Company.DefaultLanguage) && store.defaultDict == []
      ensures mode == SilentMode && outputLettercase == "lower" && normalizeLegalTerms && !removeUnicode
      ensures defaultCleaningRules == defaultRules && location == AtTheEnd
    {
      this.ruleTable := ruleTable;
      store := new LegalTermStore(folder, available, Company.DefaultCountry, Company.DefaultLanguage);
      mode := SilentMode;
      outputLettercase := "lower";
      normalizeLegalTerms := true;
      removeUnicode := false;
      defaultCleaningRules := defaultRules;
      location := AtTheEnd;
    }

    /** `CompanyNameCleaner()` of either copy, over its rule table and
        default rule list: load the manifest, select us/en and keep it as the
        default dictionary. */
    static method New(ruleTable: RuleTable, defaultRules: seq<string>, folder: Folder) returns (r: Result<CompanyNameCleaner>)
      ensures LoadAvailable(folder).Err? ==> r == Err(LoadAvailable(folder).error)
      ensures LoadAvailable(folder).Ok? ==>
        (r.Err? <==> Company.InitialSelection(folder, LoadAvailable(folder).value).0.Err?)
      ensures r.Ok? ==>
        var c := r.value;
        var sel := Company.InitialSelection(folder, LoadAvailable(folder).value).1;
        && fresh(c) && fresh(c.store) && c.ruleTable == ruleTable
        && c.store.folder == folder && c.store.available == LoadAvailable(folder).value
        && sel.current.Some? && c.store.Selected() == sel && c.store.defaultDict == sel.current.value
        && c.mode == SilentMode && c.outputLettercase == "lower" && c.normalizeLegalTerms && !c.removeUnicode
        && c.defaultCleaningRules == defaultRules && c.location == AtTheEnd
    {
      var available := LoadAvailable(folder);
      if available.Err? {
        return Err(available.error);
      }
      var c := new CompanyNameCleaner(ruleTable, defaultRules, folder, available.value);
      var s := c.store.SetCurrentLegalTermDict(Company.DefaultCountry, Company.DefaultLanguage, false);
      if s.Err? {
        return Err(s.error);
      }
      c.store.defaultDict := c.store.current.value;
      return Ok(c);
    }

    /** The `default_cleaning_rules` setter: a list of known rule names is
        stored; otherwise CleaningRuleNotFoundInTheDictionary is raised and
        the old list stays. */
    method SetDefaultCleaningRules(names: seq<string>) returns (r: Result<()>)
      modifies this
      ensures AllKnown(ruleTable, names) ==> r == Ok(()) && defaultCleaningRules == names
      ensures !AllKnown(ruleTable, names) ==>
        r == Err(CleaningRuleNotFoundInTheDictionary) && defaultCleaningRules == old(defaultCleaningRules)
      ensures mode == old(mode) && outputLettercase == old(outputLettercase) && normalizeLegalTerms == old(normalizeLegalTerms)
      ensures removeUnicode == old(removeUnicode) && location == old(location)
    {
      var ok := RulesExistIn(ruleTable, names);
      if !ok {
        return Err(CleaningRuleNotFoundInTheDictionary);
      }
      defaultCleaningRules := names;
      return Ok(());
    }

    /** `get_cleaning_rules_available`: the names of the rule table, in its order. */
    method CleaningRulesAvailable() returns (r: seq<string>)
      ensures |r| == |ruleTable|
      ensures forall i :: 0 <= i < |r| ==> r[i] == ruleTable[i].0
      ensures AllKnown(ruleTable, r)
    {
      r := Keys(ruleTable);
    }

    /** `get_info_default_legal_term_dict` as written, the same getter as in
        the current cleaner: the default country twice. */
    method InfoDefaultLegalTermDict() returns (r: seq<string>)
      ensures r == Company.InfoDefaultAsWritten()
      ensures Company.DefaultLanguage !in r
    {
      Company.InfoDefaultMissesLanguage();
      return [Company.DefaultCountry, Company.DefaultCountry];
    }

    /** `_apply_cleaning_rules`: the default rules selected from the table,
        in list order, then run; an unknown name raises KeyError. */
    method ApplyCleaningRules(rt: Runtime, name: string) returns (r: Result<string>)
      ensures r == CleanWith(rt, ruleTable, name, defaultCleaningRules)
    {
      var d := BuildRuleDict(ruleTable, defaultCleaningRules);
      if d.Err? {
        return Err(d.error);
      }
      var s := RunRegexRules(rt, name, d.value);
      return Ok(s);
    }

    /** `set_current_legal_term_dict` on the cleaner's dictionary fields. */
    method SetCurrentLegalTermDict(country: string, language: string, merge: bool) returns (r: Result<()>)
      modifies store
      ensures (r, store.Selected()) == SelectCurrent(store.folder, store.available, old(store.defaultDict), old(store.Selected()), country, language, merge)
      ensures store.defaultDict == old(store.defaultDict)
    {
      r := store.SetCurrentLegalTermDict(country, language, merge);
    }

    /** `get_clean_data` / `get_clean_name`. */
    method GetCleanName(rt: Runtime, v: Value) returns (r: Result<Value>)
      ensures r == CleanName(rt, ruleTable, Settings(), store.current, v)
    {
      r := CleanValue(rt, ruleTable, Settings(), store.current, v);
    }

    /** `get_clean_df` / `apply_cleaner_to_df`: country values are looked up
        in the manifest as they are. */
    method GetCleanDf(rt: Runtime, df: Frame, cols: Columns, merge: bool) returns (r: Result<Frame>)
      modifies store
      ensures (r, store.Selected())
        == CleanDf(Cleaning(rt, ruleTable, Settings()), Library(store.folder, store.available, old(store.defaultDict)),
                   Raw, merge, old(store.Selected()), df, cols)
      ensures store.defaultDict == old(store.defaultDict)
    {
      r := CleanDataFrame(Cleaning(rt, ruleTable, Settings()), Raw, merge, store, df, cols);
    }
  }

  // ----- lemmas -----

  /** The older cleaners differ from the current one by their two missing
      stages only: with accent removal off and no post-processing rules, the
      current cleaner's settings clean exactly as the older cleaner does. */
  lemma SameAsCurrentWithoutLaterStages(rt: Runtime, table: RuleTable, st: Settings, current: Option<LegalDict>, s: string)
    ensures CleanText(rt, table, st.(removeAccents := false, postRules := None), current, s)
      == (var c :- CleanWith(rt, table, Prepare(st, s), st.defaultRules);
          var d :- LegalStage(rt, st, current, c);
          Ok(Finish(st.letterCase, d)))
  {
  }

  /** A country value is matched as it is: a string key is looked up
      without lower-casing, so "US" does not select the "us" dictionary
      unless the manifest lists "US", and a null value always falls back to
      the default dictionary. */
  lemma RawCountryKeys(lib: Library, merge: bool, g: Value)
    ensures g.Null? ==> GroupDict(lib, Raw, merge, g) == Some(lib.default)
    ensures g.Str? && !HasKey(lib.available, g.s) ==> GroupDict(lib, Raw, merge, g) == Some(lib.default)
    ensures g.Str? && HasKey(lib.available, g.s) ==>
      GroupDict(lib, Raw, merge, g) == SelectCurrent(lib.folder, lib.available, lib.default, Selection(None, "", ""), g.s, "", merge).1.current
  {
  }
}
