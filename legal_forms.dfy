/** Legal-form dictionaries and the choice of the one in use.

    A legal-form dictionary maps a canonical legal term ("limited") to the
    variants that stand for it (["ltd", "lt"]). The library ships one JSON
    file per country, mapping each language to such a dictionary, and a
    manifest listing the supported countries. Reading those files is
    input: the folder's contents are a parameter of the model, and a file
    that is absent or lacks its "legal_forms" entry is an outcome of the
    loader. */
module LegalForms {
  import opened Py
  import opened PyDict

  /** Canonical term -> variants, in file order. */
  type LegalDict = Dict<string, seq<string>>

  /** Language -> legal-form dictionary: the "legal_forms" entry of one country's file. */
  type CountryForms = Dict<string, LegalDict>

  /** The file `<country>_legal_forms.json`: absent, or present with or
      without its "legal_forms" entry. */
  datatype CountryFile = Missing | Loaded(legalForms: Option<CountryForms>)

  /** `available_legal_forms.json`: absent, or present with or without its
      "legal_forms" entry, which maps each supported country to its languages. */
  datatype ManifestFile = NoManifest | Manifest(legalForms: Option<Dict<string, seq<string>>>)

  /** The folder `legal_forms`; a country without an entry in `files` has no file. */
  datatype Folder = Folder(manifest: ManifestFile, files: map<string, CountryFile>)

  /** The recorded selection: the dictionary in use (None after
      concatenating a file with no languages), its country and its language. */
  datatype Selection = Selection(current: Option<LegalDict>, country: string, language: string)

  /** Loading the manifest: the countries supported. */
  function LoadAvailable(folder: Folder): (r: Result<Dict<string, seq<string>>>)
    ensures folder.manifest.NoManifest? <==> r == Err(ListOfLegalTermsAvailableDoesNotExist)
    ensures folder.manifest.Manifest? && folder.manifest.legalForms.None? <==> r == Err(KeyError("legal_forms"))
  {
    match folder.manifest
    case NoManifest => Err(ListOfLegalTermsAvailableDoesNotExist)
    case Manifest(entry) => if entry.None? then Err(KeyError("legal_forms")) else Ok(entry.value)
  }

  /** Loading the file of `country`. */
  function LoadLegalTermsDict(folder: Folder, country: string): (r: Result<CountryForms>)
    ensures r.Err? <==> country !in folder.files || folder.files[country] == Missing || folder.files[country].legalForms.None?
    ensures r.Err? ==> r.error == (if country !in folder.files || folder.files[country] == Missing
                                   then LegalTermsDictionaryDoesNotExist else LegalTermsDictionaryNotFound)
  {
    if country !in folder.files || folder.files[country] == Missing then Err(LegalTermsDictionaryDoesNotExist)
    else if folder.files[country].legalForms.None? then Err(LegalTermsDictionaryNotFound)
    else Ok(folder.files[country].legalForms.value)
  }

  // ----- concatenating the languages of a file -----

  /** One iteration of the concatenation: the first dictionary is taken as
      it is, every later one is merged in with `dict.update`. */
  function ConcatStep(acc: Option<LegalDict>, d: LegalDict): Option<LegalDict>
  {
    if acc.None? then Some(d) else Some(Update(acc.value, d))
  }

  function ConcatFrom(forms: seq<(string, LegalDict)>, acc: Option<LegalDict>): Option<LegalDict>
    decreases |forms|
  {
    if forms == [] then acc else ConcatFrom(forms[1..], ConcatStep(acc, forms[0].1))
  }

  /** All languages of a file folded into one dictionary; None when the file has no language. */
  function ConcatLanguages(forms: CountryForms): (r: Option<LegalDict>)
    ensures r.None? <==> forms == []
  {
    ConcatNone(forms);
    ConcatFrom(forms, None)
  }

  /** The loop over the languages of a file, folding each into the result. */
  method ConcatenateLanguages(forms: CountryForms) returns (c: Option<LegalDict>)
    ensures c == ConcatLanguages(forms)
  {
    c := None;
    var i := 0;
    while i < |forms|
      invariant 0 <= i <= |forms|
      invariant ConcatLanguages(forms) == ConcatFrom(forms[i..], c)
    {
      assert forms[i..][1..] == forms[i + 1..];
      if c.None? {
        c := Some(forms[i].1);
      } else {
        c := Some(Update(c.value, forms[i].1));
      }
      i := i + 1;
    }
  }

  /** The loop adding each default term the selection lacks. Over a
      selection of None the first default term raises AttributeError. */
  method MergeDefault(picked: Option<LegalDict>, default: LegalDict) returns (r: Result<Option<LegalDict>>)
    ensures r.Err? <==> picked.None? && default != []
    ensures r.Err? ==> r.error == AttributeError
    ensures r.Ok? ==> r.value == if picked.Some? then Some(MergeMissing(picked.value, default)) else None
  {
    if picked.None? {
      if default != [] {
        return Err(AttributeError);
      }
      return Ok(None);
    }
    var cur := picked.value;
    var j := 0;
    while j < |default|
      invariant 0 <= j <= |default|
      invariant MergeMissing(picked.value, default) == MergeMissing(cur, default[j..])
    {
      assert default[j..][1..] == default[j + 1..];
      if !HasKey(cur, default[j].0) {
        cur := Set(cur, default[j].0, default[j].1);
      }
      j := j + 1;
    }
    return Ok(Some(cur));
  }

  // ----- the selection -----

  /** `set_current_legal_term_dict(country, language, merge)`: the outcome and
      the selection it leaves, from the selection `s` and the default
      dictionary `default`. Rejections leave `s` as it was; the merge of a
      file without languages into a non-empty default fails after the
      dictionary in use has been set to None. */
  function SelectCurrent(folder: Folder, available: Dict<string, seq<string>>, default: LegalDict, s: Selection,
                         country: string, language: string, merge: bool): (r: (Result<()>, Selection))
    ensures !HasKey(available, country) ==> r == (Err(CountryNotSupported), s)
    ensures r.0.Ok? ==> r.1.country == country && r.1.language == language
  {
    if !HasKey(available, country) then (Err(CountryNotSupported), s)
    else
      var loaded := LoadLegalTermsDict(folder, country);
      if loaded.Err? then (Err(loaded.error), s)
      else
        var forms := loaded.value;
        if language != "" && !HasKey(forms, language) then (Err(LanguageNotSupported), s)
        else SelectFrom(forms, default, s, country, language, merge)
  }

  /** The selection once the country's file is loaded and the language is
      known: one language's map, or all of them concatenated, then merged
      with the default when asked. */
  function SelectFrom(forms: CountryForms, default: LegalDict, s: Selection,
                      country: string, language: string, merge: bool): (Result<()>, Selection)
    requires language == "" || HasKey(forms, language)
  {
    var picked := if language != "" then Some(Get(forms, language)) else ConcatLanguages(forms);
    if !merge then (Ok(()), Selection(picked, country, language))
    else if picked.Some? then (Ok(()), Selection(Some(MergeMissing(picked.value, default)), country, language))
    else if default == [] then (Ok(()), Selection(None, country, language))
    else (Err(AttributeError), s.(current := None))
  }

  /** The fields `set_current_legal_term_dict` reads and writes. One store
      serves each of the cleaners that select their dictionary by country. */
  class LegalTermStore {
    const folder: Folder
    const available: Dict<string, seq<string>>
    var defaultDict: LegalDict
    var current: Option<LegalDict>
    var country: string
    var language: string

    function Selected(): Selection
      reads this
    {
      Selection(current, country, language)
    }

    /** The fields as a new cleaner sets them before choosing its first dictionary. */
    constructor(folder: Folder, available: Dict<string, seq<string>>, country: string, language: string)
      ensures this.folder == folder && this.available == available
      ensures defaultDict == [] && current == Some([])
      ensures this.country == country && this.language == language
    {
      this.folder := folder;
      this.available := available;
      defaultDict := [];
      current := Some([]);
      this.country := country;
      this.language := language;
    }

    /** `get_info_current_legal_term_dict`: the recorded country, then
        language, as the current and the older cleaners report them. */
    method InfoCurrent() returns (r: seq<string>)
      ensures r == [country, language]
    {
      return [country, language];
    }

    /** `set_current_legal_term_dict(country, language, merge_legal_terms)`
        as the source writes it; the loops of the concatenation and of the
        merge are `ConcatenateLanguages` and `MergeDefault`. */
    method SetCurrentLegalTermDict(country: string, language: string, merge: bool) returns (r: Result<()>)
      modifies this
      ensures (r, Selected()) == SelectCurrent(folder, available, old(defaultDict), old(Selected()), country, language, merge)
      ensures defaultDict == old(defaultDict)
    {
      if !HasKey(available, country) {
        return Err(CountryNotSupported);
      }
      var loaded := LoadLegalTermsDict(folder, country);
      if loaded.Err? {
        return Err(loaded.error);
      }
      var forms := loaded.value;
      if language != "" && !HasKey(forms, language) {
        return Err(LanguageNotSupported);
      }
      r := SetFromForms(forms, country, language, merge);
    }

    /** The rest of `set_current_legal_term_dict` once the file is loaded:
        the dictionary in use is written, then merged with the default when
        asked, then the country and language are recorded. */
    method SetFromForms(forms: CountryForms, country: string, language: string, merge: bool) returns (r: Result<()>)
      requires language == "" || HasKey(forms, language)
      modifies this
      ensures (r, Selected()) == SelectFrom(forms, old(defaultDict), old(Selected()), country, language, merge)
      ensures defaultDict == old(defaultDict)
    {
      if language != "" {
        current := Some(Get(forms, language));
      } else {
        current := ConcatenateLanguages(forms);
      }
      if merge {
        var merged := MergeDefault(current, defaultDict);
        if merged.Err? {
          current := None;
          return Err(merged.error);
        }
        current := merged.value;
      }
      this.language := language;
      this.country := country;
      return Ok(());
    }
  }

  // ----- lemmas: the concatenation -----

  /** The concatenation of `a + [x]` is that of `a` with `x` folded in last. */
  lemma {:induction false} ConcatFromSnoc(a: seq<(string, LegalDict)>, x: (string, LegalDict), acc: Option<LegalDict>)
    ensures ConcatFrom(a + [x], acc) == ConcatStep(ConcatFrom(a, acc), x.1)
    decreases |a|
  {
    if a == [] {
      assert a + [x] == [x];
    } else {
      assert (a + [x])[0] == a[0];
      assert (a + [x])[1..] == a[1..] + [x];
      ConcatFromSnoc(a[1..], x, ConcatStep(acc, a[0].1));
    }
  }

  lemma ConcatSnoc(a: seq<(string, LegalDict)>, x: (string, LegalDict))
    ensures ConcatFrom(a + [x], None) == ConcatStep(ConcatFrom(a, None), x.1)
    ensures ConcatFrom(a, None).None? <==> a == []
  {
    ConcatFromSnoc(a, x, None);
    ConcatNone(a);
  }

  lemma {:induction false} ConcatNone(a: seq<(string, LegalDict)>)
    ensures ConcatFrom(a, None).None? <==> a == []
    decreases |a|
  {
    if a != [] {
      var last := a[|a| - 1];
      assert a == a[..|a| - 1] + [last];
      ConcatFromSnoc(a[..|a| - 1], last, None);
    }
  }

  /** A term is in the concatenation exactly when some language has it, and
      it carries the variants of the last language that has it: a later
      language wins on a shared term. */
  lemma {:induction false} ConcatLastWins(forms: seq<(string, LegalDict)>, i: nat, k: string)
    requires i < |forms| && HasKey(forms[i].1, k)
    requires forall j :: i < j < |forms| ==> !HasKey(forms[j].1, k)
    ensures ConcatFrom(forms, None).Some?
    ensures HasKey(ConcatFrom(forms, None).value, k)
    ensures Get(ConcatFrom(forms, None).value, k) == Get(forms[i].1, k)
    decreases |forms|
  {
    var n := |forms|;
    var init := forms[..n - 1];
    var last := forms[n - 1];
    assert forms == init + [last];
    ConcatSnoc(init, last);
    var before := ConcatFrom(init, None);
    if i == n - 1 {
      if before.Some? {
        UpdateGet(before.value, last.1, k);
      }
    } else {
      ConcatLastWins(init, i, k);
      UpdateGet(before.value, last.1, k);
    }
  }

  /** The concatenation holds exactly the terms of the languages. */
  lemma {:induction false} ConcatTerms(forms: seq<(string, LegalDict)>, k: string)
    requires forms != []
    ensures ConcatFrom(forms, None).Some?
    ensures HasKey(ConcatFrom(forms, None).value, k) <==> exists i :: 0 <= i < |forms| && HasKey(forms[i].1, k)
    decreases |forms|
  {
    var n := |forms|;
    var init := forms[..n - 1];
    var last := forms[n - 1];
    assert forms == init + [last];
    ConcatSnoc(init, last);
    if init == [] {
      assert ConcatFrom(forms, None) == Some(last.1);
      if HasKey(last.1, k) {
        assert HasKey(forms[0].1, k);
      }
    } else {
      ConcatTerms(init, k);
      var before := ConcatFrom(init, None).value;
      assert ConcatFrom(forms, None) == Some(Update(before, last.1));
      UpdateGet(before, last.1, k);
      if HasKey(Update(before, last.1), k) && !HasKey(last.1, k) {
        var i :| 0 <= i < |init| && HasKey(init[i].1, k);
        assert init[i] == forms[i];
      }
      forall i | 0 <= i < |forms| && HasKey(forms[i].1, k)
        ensures HasKey(Update(before, last.1), k)
      {
        if i < n - 1 {
          assert init[i] == forms[i];
        }
      }
    }
  }

  /** The terms of the first language keep their positions at the front of
      the concatenation; later languages only append new terms after them. */
  lemma {:induction false} ConcatFirstLanguageFirst(forms: seq<(string, LegalDict)>)
    requires forms != []
    ensures ConcatFrom(forms, None).Some?
    ensures |Keys(forms[0].1)| <= |Keys(ConcatFrom(forms, None).value)|
    ensures Keys(ConcatFrom(forms, None).value)[..|Keys(forms[0].1)|] == Keys(forms[0].1)
    decreases |forms|
  {
    var n := |forms|;
    var init := forms[..n - 1];
    var last := forms[n - 1];
    assert forms == init + [last];
    ConcatSnoc(init, last);
    if init != [] {
      ConcatFirstLanguageFirst(init);
      var before := ConcatFrom(init, None).value;
      UpdateKeys(before, last.1);
      assert init[0] == forms[0];
      assert Keys(Update(before, last.1))[..|Keys(before)|] == Keys(before);
    }
  }

  // ----- lemmas: the selection -----

  /** The checks run in order: an unsupported country, a missing file, a
      file without its entry and an unknown language each raise their own
      exception and leave the selection as it was. */
  lemma SelectCurrentRejects(folder: Folder, available: Dict<string, seq<string>>, default: LegalDict, s: Selection,
                             country: string, language: string, merge: bool)
    ensures var r := SelectCurrent(folder, available, default, s, country, language, merge);
      && (!HasKey(available, country) ==> r == (Err(CountryNotSupported), s))
      && (HasKey(available, country) && LoadLegalTermsDict(folder, country).Err? ==>
            r == (Err(LoadLegalTermsDict(folder, country).error), s))
      && ((HasKey(available, country) && LoadLegalTermsDict(folder, country).Ok? && language != ""
           && !HasKey(LoadLegalTermsDict(folder, country).value, language))
            ==> r == (Err(LanguageNotSupported), s))
  {
  }

  /** On success the recorded country and language are the arguments; a
      failure leaves the selection unchanged, except that a merge into a
      file without languages fails after clearing the dictionary in use. */
  lemma SelectCurrentRecords(folder: Folder, available: Dict<string, seq<string>>, default: LegalDict, s: Selection,
                             country: string, language: string, merge: bool)
    ensures var r := SelectCurrent(folder, available, default, s, country, language, merge);
      && (r.0.Ok? ==> r.1.country == country && r.1.language == language)
      && (r.0.Err? && r.0.error != AttributeError ==> r.1 == s)
      && (r.0 == Err(AttributeError) <==>
            merge && default != [] && language == "" && HasKey(available, country)
            && LoadLegalTermsDict(folder, country) == Ok([]))
      && (r.0 == Err(AttributeError) ==> r.1 == s.(current := None))
  {
    if HasKey(available, country) && LoadLegalTermsDict(folder, country).Ok? && language == "" {
      ConcatNone(LoadLegalTermsDict(folder, country).value);
    }
  }

  /** With a supported language, the dictionary in use is that language's
      dictionary, completed by the default when merging. */
  lemma SelectOneLanguage(folder: Folder, available: Dict<string, seq<string>>, default: LegalDict, s: Selection,
                          country: string, language: string, merge: bool)
    requires HasKey(available, country) && LoadLegalTermsDict(folder, country).Ok?
    requires language != "" && HasKey(LoadLegalTermsDict(folder, country).value, language)
    ensures var r := SelectCurrent(folder, available, default, s, country, language, merge);
      var chosen := Get(LoadLegalTermsDict(folder, country).value, language);
      && r.0 == Ok(())
      && r.1.current == Some(if merge then MergeMissing(chosen, default) else chosen)
  {
  }

  /** Without a language, the dictionary in use is every language's
      dictionary folded with `dict.update`: a term is in it when some language
      has it, with the variants of the last such language. */
  lemma SelectAllLanguages(folder: Folder, available: Dict<string, seq<string>>, default: LegalDict, s: Selection,
                           country: string, k: string, i: nat)
    requires HasKey(available, country) && LoadLegalTermsDict(folder, country).Ok?
    requires var forms := LoadLegalTermsDict(folder, country).value;
      i < |forms| && HasKey(forms[i].1, k) && forall j :: i < j < |forms| ==> !HasKey(forms[j].1, k)
    ensures var r := SelectCurrent(folder, available, default, s, country, "", false);
      var forms := LoadLegalTermsDict(folder, country).value;
      && r.0 == Ok(()) && r.1.current.Some?
      && HasKey(r.1.current.value, k) && Get(r.1.current.value, k) == Get(forms[i].1, k)
  {
    ConcatLastWins(LoadLegalTermsDict(folder, country).value, i, k);
  }

  /** Merging completes the selection with the default: every default term
      the selection lacks is added with the default's variants, and a term
      already selected keeps its own variants. */
  lemma SelectMerged(folder: Folder, available: Dict<string, seq<string>>, default: LegalDict, s: Selection,
                     country: string, language: string, k: string)
    requires SelectCurrent(folder, available, default, s, country, language, false).1.current.Some?
    requires SelectCurrent(folder, available, default, s, country, language, false).0.Ok?
    ensures var picked := SelectCurrent(folder, available, default, s, country, language, false).1.current.value;
      var r := SelectCurrent(folder, available, default, s, country, language, true);
      && r.0 == Ok(()) && r.1.current.Some?
      && (HasKey(r.1.current.value, k) <==> HasKey(picked, k) || HasKey(default, k))
      && (HasKey(picked, k) ==> Get(r.1.current.value, k) == Get(picked, k))
      && (!HasKey(picked, k) && HasKey(default, k) ==> Get(r.1.current.value, k) == Get(default, k))
  {
    var picked := SelectCurrent(folder, available, default, s, country, language, false).1.current.value;
    SelectMergeOfPlain(folder, available, default, s, country, language);
    MergeMissingGet(picked, default, k);
  }

  /** A selection that succeeds and picks a dictionary without merging
      picks, when merging, that dictionary completed by the default. */
  lemma SelectMergeOfPlain(folder: Folder, available: Dict<string, seq<string>>, default: LegalDict, s: Selection,
                           country: string, language: string)
    requires SelectCurrent(folder, available, default, s, country, language, false).1.current.Some?
    requires SelectCurrent(folder, available, default, s, country, language, false).0.Ok?
    ensures var picked := SelectCurrent(folder, available, default, s, country, language, false).1.current.value;
      SelectCurrent(folder, available, default, s, country, language, true)
        == (Ok(()), Selection(Some(MergeMissing(picked, default)), country, language))
  {
    assert HasKey(available, country);
    var forms := LoadLegalTermsDict(folder, country).value;
    assert language == "" || HasKey(forms, language);
  }
}
