/** The current company-name cleaner: the base cleaner's mode and letter
    case, the rule lists, the legal-term switches and the dictionary fields,
    with `clean` and `clean_df` over them. */
module Company {
  import opened Py
  import opened PyDict
  import opened Re
  import opened RulePipeline
  import opened CleaningRules
  import opened LegalForms
  import opened LegalTerms
  import opened NameCleaning
  import opened Tabular
  import opened SimpleCleaner
  import BaseCleaner

  const DefaultCountry: string := "us"
  const DefaultLanguage: string := "en"

  /** What `get_info_default_legal_term_dict` is meant to report: the
      country and the language the default dictionary is selected with, in
      the order `get_info_current_legal_term_dict` uses. */
  function InfoDefault(): (r: seq<string>)
    ensures |r| == 2 && r[0] == DefaultCountry && r[1] == DefaultLanguage
  {
    [DefaultCountry, DefaultLanguage]
  }

  /** `get_info_default_legal_term_dict` as written: the country twice. */
  function InfoDefaultAsWritten(): (r: seq<string>)
    ensures |r| == 2 && r[0] == DefaultCountry
  {
    [DefaultCountry, DefaultCountry]
  }

  /** The dictionary a new cleaner selects and keeps as its default. */
  function InitialSelection(folder: Folder, available: Dict<string, seq<string>>): (Result<()>, Selection)
  {
    SelectCurrent(folder, available, [], Selection(Some([]), DefaultCountry, DefaultLanguage), DefaultCountry, DefaultLanguage, false)
  }

  class CompanyNameCleaner {
    const base: BaseCleaner.BaseCleaner
    const store: LegalTermStore
    var defaultCleaningRules: seq<string>
    var postCleaningRules: Option<seq<string>>
    var normalizeLegalTerms: bool
    var removeUnicode: bool
    var removeAccents: bool
    var location: LegalTermLocation

    /** What the fields decide about cleaning one name. */
    function Settings(): Settings
      reads this, base
    {
      NameCleaning.Settings(base.mode == BaseCleaner.ExceptionMode, base.letterCase, removeUnicode, removeAccents,
                            defaultCleaningRules, postCleaningRules, normalizeLegalTerms, location)
    }

    /** The fields before the first dictionary is chosen. */
    constructor(folder: Folder, available: Dict<string, seq<string>>)
      ensures fresh(base) && fresh(store)
      ensures base.mode == BaseCleaner.SilentMode && base.letterCase == BaseCleaner.LowerLetterCase
      ensures store.folder == folder && store.available == available
      ensures store.Selected() == Selection(Some([]), DefaultCountry, DefaultLanguage) && store.defaultDict == []
      ensures defaultCleaningRules == DefaultCompanyCleaningRules && postCleaningRules.None?
      ensures normalizeLegalTerms && !removeUnicode && !removeAccents && location == AtTheEnd
    {
      base := new BaseCleaner.BaseCleaner();
      store := new LegalTermStore(folder, available, DefaultCountry, DefaultLanguage);
      defaultCleaningRules := DefaultCompanyCleaningRules;
      postCleaningRules := None;
      normalizeLegalTerms := true;
      removeUnicode := false;
      removeAccents := false;
      location := AtTheEnd;
    }

    /** `CompanyNameCleaner()`: load the manifest, select us/en and keep it
        as the default dictionary. A missing or malformed manifest or us/en
        file is raised as the loaders raise it. */
    static method New(folder: Folder) returns (r: Result<CompanyNameCleaner>)
      ensures LoadAvailable(folder).Err? ==> r == Err(LoadAvailable(folder).error)
      ensures LoadAvailable(folder).Ok? ==>
        (r.Err? <==> InitialSelection(folder, LoadAvailable(folder).value).0.Err?)
      ensures r.Ok? ==>
        var c := r.value;
        var sel := InitialSelection(folder, LoadAvailable(folder).value).1;
        && fresh(c) && fresh(c.base) && fresh(c.store)
        && c.store.folder == folder && c.store.available == LoadAvailable(folder).value
        && sel.current.Some? && c.store.Selected() == sel && c.store.defaultDict == sel.current.value
        && [c.store.country, c.store.language] == InfoDefault()
        && c.base.mode == BaseCleaner.SilentMode && c.base.letterCase == BaseCleaner.LowerLetterCase
        && c.defaultCleaningRules == DefaultCompanyCleaningRules && c.postCleaningRules.None?
        && c.normalizeLegalTerms && !c.removeUnicode && !c.removeAccents && c.location == AtTheEnd
    {
      var available := LoadAvailable(folder);
      if available.Err? {
        return Err(available.error);
      }
      var c := new CompanyNameCleaner(folder, available.value);
      var s := c.store.SetCurrentLegalTermDict(DefaultCountry, DefaultLanguage, false);
      if s.Err? {
        return Err(s.error);
      }
      c.store.defaultDict := c.store.current.value;
      return Ok(c);
    }

    /** The `default_cleaning_rules` setter: a list of known rule names is
        stored; otherwise CleaningRuleNotFoundInTheDictionary is raised and
        the old list stays. */
    method SetDefaultCleaningRules(names: seq<string>) returns (r: Result<()>)
      modifies this
      ensures IsValid(names) ==> r == Ok(()) && defaultCleaningRules == names
      ensures !IsValid(names) ==> r == Err(CleaningRuleNotFoundInTheDictionary) && defaultCleaningRules == old(defaultCleaningRules)
      ensures postCleaningRules == old(postCleaningRules) && normalizeLegalTerms == old(normalizeLegalTerms)
      ensures removeUnicode == old(removeUnicode) && removeAccents == old(removeAccents) && location == old(location)
    {
      if !IsValid(names) {
        return Err(CleaningRuleNotFoundInTheDictionary);
      }
      defaultCleaningRules := names;
      return Ok(());
    }

    /** The `post_cleaning_rules` setter: None switches the post-processing
        off; a list of known rule names is stored; otherwise
        CleaningRuleNotFoundInTheDictionary is raised and the old value stays. */
    method SetPostCleaningRules(names: Option<seq<string>>) returns (r: Result<()>)
      modifies this
      ensures names.None? ==> r == Ok(()) && postCleaningRules.None?
      ensures names.Some? && IsValid(names.value) ==> r == Ok(()) && postCleaningRules == names
      ensures names.Some? && !IsValid(names.value) ==>
        r == Err(CleaningRuleNotFoundInTheDictionary) && postCleaningRules == old(postCleaningRules)
      ensures defaultCleaningRules == old(defaultCleaningRules) && normalizeLegalTerms == old(normalizeLegalTerms)
      ensures removeUnicode == old(removeUnicode) && removeAccents == old(removeAccents) && location == old(location)
    {
      if names.Some? {
        if !IsValid(names.value) {
          return Err(CleaningRuleNotFoundInTheDictionary);
        }
        postCleaningRules := names;
      } else {
        postCleaningRules := None;
      }
      return Ok(());
    }

    /** `reset_default_cleaning_rules`: back to the library's default list. */
    method ResetDefaultCleaningRules()
      modifies this
      ensures defaultCleaningRules == DefaultCompanyCleaningRules && IsValid(defaultCleaningRules)
      ensures postCleaningRules == old(postCleaningRules) && normalizeLegalTerms == old(normalizeLegalTerms)
      ensures removeUnicode == old(removeUnicode) && removeAccents == old(removeAccents) && location == old(location)
    {
      DefaultRulesValid();
      defaultCleaningRules := DefaultCompanyCleaningRules;
    }

    /** `get_info_default_legal_term_dict` as written: the default country
        twice, so the default language is missing (`InfoDefaultMissesLanguage`). */
    method InfoDefaultLegalTermDict() returns (r: seq<string>)
      ensures r == InfoDefaultAsWritten()
      ensures DefaultLanguage !in r
    {
      InfoDefaultMissesLanguage();
      return [DefaultCountry, DefaultCountry];
    }

    /** `set_current_legal_term_dict` on the cleaner's dictionary fields. */
    method SetCurrentLegalTermDict(country: string, language: string, merge: bool) returns (r: Result<()>)
      modifies store
      ensures (r, store.Selected()) == SelectCurrent(store.folder, store.available, old(store.defaultDict), old(store.Selected()), country, language, merge)
      ensures store.defaultDict == old(store.defaultDict)
    {
      r := store.SetCurrentLegalTermDict(country, language, merge);
    }

    /** `clean(company_name)` with the cleaner's settings and dictionary in use. */
    method Clean(rt: Runtime, v: Value) returns (r: Result<Value>)
      ensures r == CleanName(rt, CleaningRulesDict, Settings(), store.current, v)
    {
      r := CleanValue(rt, CleaningRulesDict, Settings(), store.current, v);
    }

    /** `clean_df(df, in_company_name, out_company_name, in_country,
        merge_legal_terms)`: country values are lower-cased before they are
        looked up in the manifest. */
    method CleanDf(rt: Runtime, df: Frame, cols: Columns, merge: bool) returns (r: Result<Frame>)
      modifies store
      ensures (r, store.Selected())
        == Tabular.CleanDf(Cleaning(rt, CleaningRulesDict, Settings()), Library(store.folder, store.available, old(store.defaultDict)),
                           Lowered, merge, old(store.Selected()), df, cols)
      ensures store.defaultDict == old(store.defaultDict)
    {
      r := CleanDataFrame(Cleaning(rt, CleaningRulesDict, Settings()), Lowered, merge, store, df, cols);
    }
  }

  // ----- lemmas -----

  /** `get_info_default_legal_term_dict` as written reports the country in
      the place of the language: "en" is missing from it, and it differs from
      what a new cleaner reports as its current selection. */
  lemma InfoDefaultMissesLanguage()
    ensures DefaultLanguage !in InfoDefaultAsWritten()
    ensures InfoDefaultAsWritten() != InfoDefault()
  {
    assert InfoDefaultAsWritten()[1] != InfoDefault()[1];
  }

  /** A new cleaner cleans a string with the default rules, with legal-term
      normalisation against us/en, in lower case; it never raises for a
      missing dictionary, and fails only if a default rule were missing from
      the table, which none is. */
  lemma NewCleanerCleans(rt: Runtime, folder: Folder, s: string)
    requires LoadAvailable(folder).Ok? && InitialSelection(folder, LoadAvailable(folder).value).0.Ok?
    ensures var sel := InitialSelection(folder, LoadAvailable(folder).value).1;
      var st := NameCleaning.Settings(false, BaseCleaner.LowerLetterCase, false, false, DefaultCompanyCleaningRules, None, true, AtTheEnd);
      && sel.current.Some?
      && CleanName(rt, CleaningRulesDict, st, sel.current, Str(s)).Ok?
      && CleanName(rt, CleaningRulesDict, st, sel.current, Null) == Ok(Null)
  {
    InitialSelectionPicks(folder, LoadAvailable(folder).value);
    DefaultSettingsClean(rt, InitialSelection(folder, LoadAvailable(folder).value).1.current, s);
  }

  /** With the settings of a new cleaner and any dictionary in use, every
      string cleans and a non-string gives NaN. */
  lemma DefaultSettingsClean(rt: Runtime, current: Option<LegalDict>, s: string)
    requires current.Some?
    ensures var st := NameCleaning.Settings(false, BaseCleaner.LowerLetterCase, false, false, DefaultCompanyCleaningRules, None, true, AtTheEnd);
      && CleanName(rt, CleaningRulesDict, st, current, Str(s)).Ok?
      && CleanName(rt, CleaningRulesDict, st, current, Null) == Ok(Null)
  {
    assert AllKnown(CleaningRulesDict, DefaultCompanyCleaningRules) by {
      DefaultPlaceTheReady();
    }
    KnownRulesClean(rt, CleaningRulesDict, DefaultCompanyCleaningRules, current, s);
  }

  /** The same for any table whose rules include the default list. */
  lemma KnownRulesClean(rt: Runtime, table: RuleTable, names: seq<string>, current: Option<LegalDict>, s: string)
    requires AllKnown(table, names) && current.Some?
    ensures var st := NameCleaning.Settings(false, BaseCleaner.LowerLetterCase, false, false, names, None, true, AtTheEnd);
      && CleanName(rt, table, st, current, Str(s)).Ok?
      && CleanName(rt, table, st, current, Null) == Ok(Null)
  {
    var st := NameCleaning.Settings(false, BaseCleaner.LowerLetterCase, false, false, names, None, true, AtTheEnd);
    CleanNameSucceeds(rt, table, st, current, s);
  }

  /** Selecting us/en picks one language's dictionary, never None. */
  lemma InitialSelectionPicks(folder: Folder, available: Dict<string, seq<string>>)
    ensures InitialSelection(folder, available).0.Ok? ==> InitialSelection(folder, available).1.current.Some?
  {
  }
}
