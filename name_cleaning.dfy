/** Cleaning one company name: the stage order shared by the current
    `CompanyNameCleaner.clean` and the older `get_clean_data` /
    `get_clean_name`, which are the same stages with accent removal off and
    no post-processing rules. */
module NameCleaning {
  import opened Py
  import opened PyStr
  import opened Re
  import opened RulePipeline
  import opened LegalForms
  import opened LegalTerms
  import opened SimpleCleaner
  import opened BasicCleaning
  import opened PyDict

  /** What a cleaner's fields decide about cleaning one name. */
  datatype Settings = Settings(
    raiseOnNonString: bool,
    letterCase: string,
    removeUnicode: bool,
    removeAccents: bool,
    defaultRules: seq<string>,
    postRules: Option<seq<string>>,
    normalize: bool,
    location: LegalTermLocation)

  /** No ASCII lower-case letter occurs in `s`. */
  predicate NoLower(s: string)
  {
    forall i :: 0 <= i < |s| ==> !IsLowerAscii(s[i])
  }

  /** The output letter case: "upper" and "title" convert, any other value leaves the text alone. */
  function ApplyLetterCase(letterCase: string, s: string): (r: string)
    ensures |r| == |s|
    ensures letterCase == "upper" ==> NoLower(r)
  {
    if letterCase == "upper" then Upper(s)
    else if letterCase == "title" then Title(s)
    else s
  }

  /** The first stages: unicode removal if set, then strip and lower-case. */
  function Prepare(st: Settings, s: string): (r: string)
    ensures |r| <= |s|
  {
    Lower(Strip(if st.removeUnicode then AsciiOnly(s) else s))
  }

  /** Legal-term normalisation if set; it raises AttributeError when the
      dictionary in use is None. */
  function LegalStage(rt: Runtime, st: Settings, current: Option<LegalDict>, s: string): (r: Result<string>)
    ensures r.Err? <==> st.normalize && current.None?
    ensures r.Err? ==> r.error == AttributeError
  {
    if !st.normalize then Ok(s)
    else if current.None? then Err(AttributeError)
    else Ok(NormalizeLegalTerms(rt, current.value, st.location, s))
  }

  /** Accent removal if set, then the post-processing rules if any. */
  function PostStage(rt: Runtime, table: RuleTable, st: Settings, s: string): Result<string>
  {
    var e := if st.removeAccents then rt.unidecode(s) else s;
    if st.postRules.None? then Ok(e) else CleanWith(rt, table, e, st.postRules.value)
  }

  /** The last stages: the letter case, then extra spaces removed. */
  function Finish(letterCase: string, s: string): (r: string)
    ensures Trimmed(r) && SingleSpaced(r)
    ensures letterCase == "upper" ==> NoLower(r)
  {
    var g := ApplyLetterCase(letterCase, s);
    if letterCase == "upper" then
      NoLowerKept(g);
      RemoveExtraSpaces(g)
    else
      RemoveExtraSpaces(g)
  }

  /** Removing extra spaces adds no lower-case letter. */
  lemma NoLowerKept(s: string)
    requires NoLower(s)
    ensures NoLower(RemoveExtraSpaces(s))
  {
    var r := RemoveExtraSpaces(s);
    RemoveExtraSpacesChars(s);
    forall i | 0 <= i < |r| ensures !IsLowerAscii(r[i]) {
      assert r[i] in r;
      if r[i] != ' ' {
        var k :| 0 <= k < |s| && s[k] == r[i];
      }
    }
  }

  /** The stages for a string, in their order: unicode removal if set;
      strip and lower-case; the default rules; the legal terms if set
      (raising AttributeError when the dictionary in use is None); accent
      removal if set; the post-processing rules if any; the letter case;
      extra spaces removed. */
  function CleanText(rt: Runtime, table: RuleTable, st: Settings, current: Option<LegalDict>, s: string): (r: Result<string>)
    ensures r.Ok? ==> Trimmed(r.value) && SingleSpaced(r.value)
    ensures r.Ok? && st.letterCase == "upper" ==> NoLower(r.value)
  {
    var c :- CleanWith(rt, table, Prepare(st, s), st.defaultRules);
    var d :- LegalStage(rt, st, current, c);
    var f :- PostStage(rt, table, st, d);
    Ok(Finish(st.letterCase, f))
  }

  /** `clean(value)`: a value that is not a string gives NaN, or raises
      CompanyNameIsNotAString in exception mode; a string is cleaned. */
  function CleanName(rt: Runtime, table: RuleTable, st: Settings, current: Option<LegalDict>, v: Value): (r: Result<Value>)
    ensures v.Null? ==> (r.Err? <==> st.raiseOnNonString)
    ensures v.Null? && r.Err? ==> r.error == CompanyNameIsNotAString
    ensures v.Null? && r.Ok? ==> r.value == Null
    ensures v.Str? && r.Ok? ==> r.value.Str? && Trimmed(r.value.s) && SingleSpaced(r.value.s)
  {
    match v
    case Null => if st.raiseOnNonString then Err(CompanyNameIsNotAString) else Ok(Null)
    case Str(s) =>
      var out :- CleanText(rt, table, st, current, s);
      Ok(Str(out))
  }

  /** `clean` as the source writes it, reassigning the name stage by stage. */
  method CleanValue(rt: Runtime, table: RuleTable, st: Settings, current: Option<LegalDict>, v: Value) returns (r: Result<Value>)
    ensures r == CleanName(rt, table, st, current, v)
  {
    if v.Null? {
      if st.raiseOnNonString {
        return Err(CompanyNameIsNotAString);
      }
      return Ok(Null);
    }
    var name := v.s;
    if st.removeUnicode {
      name := AsciiOnly(name);
    }
    name := Lower(Strip(name));
    assert name == Prepare(st, v.s);
    var pre := BuildRuleDict(table, st.defaultRules);
    if pre.Err? {
      assert CleanWith(rt, table, Prepare(st, v.s), st.defaultRules) == Err(pre.error);
      return Err(pre.error);
    }
    name := RunRegexRules(rt, name, pre.value);
    ghost var c := name;
    assert CleanWith(rt, table, Prepare(st, v.s), st.defaultRules) == Ok(c);
    if st.normalize {
      if current.None? {
        return Err(AttributeError);
      }
      name := ApplyNormalizationOfLegalTerms(rt, current.value, st.location, name);
    }
    assert LegalStage(rt, st, current, c) == Ok(name);
    ghost var d := name;
    if st.removeAccents {
      name := rt.unidecode(name);
    }
    if st.postRules.Some? {
      var post := BuildRuleDict(table, st.postRules.value);
      if post.Err? {
        assert PostStage(rt, table, st, d) == Err(post.error);
        return Err(post.error);
      }
      name := RunRegexRules(rt, name, post.value);
    }
    assert PostStage(rt, table, st, d) == Ok(name);
    ghost var f := name;
    if st.letterCase == "upper" {
      name := Upper(name);
    } else if st.letterCase == "title" {
      name := Title(name);
    }
    name := RemoveExtraSpaces(name);
    assert name == Finish(st.letterCase, f);
    assert CleanText(rt, table, st, current, v.s) == Ok(name);
    return Ok(Str(name));
  }

  // ----- lemmas -----

  /** Every name in `names` is a rule of `table`. */
  predicate AllKnown(table: RuleTable, names: seq<string>)
  {
    forall n :: n in names ==> HasKey(table, n)
  }

  /** `__cleaning_rules_exist_in_dict(names)` of the older cleaners: the
      loop with its early return; true exactly when every name is a rule of
      the table. */
  method RulesExistIn(table: RuleTable, names: seq<string>) returns (b: bool)
    ensures b <==> AllKnown(table, names)
  {
    var i := 0;
    while i < |names|
      invariant 0 <= i <= |names|
      invariant forall j :: 0 <= j < i ==> HasKey(table, names[j])
    {
      if !HasKey(table, names[i]) {
        return false;
      }
      i := i + 1;
    }
    return true;
  }

  /** The rule stages fail exactly when a name is not in the table, and then with a KeyError. */
  lemma CleanWithFails(rt: Runtime, table: RuleTable, text: string, names: seq<string>)
    ensures CleanWith(rt, table, text, names).Ok? <==> AllKnown(table, names)
    ensures CleanWith(rt, table, text, names).Err? ==> CleanWith(rt, table, text, names).error.KeyError?
  {
    CleanWithErrors(rt, table, text, names);
    SelectFromKeyError(table, names, []);
  }

  /** Cleaning a string fails exactly when a listed rule is not in the
      table, or legal terms are to be normalised while the dictionary in use
      is None; the failure is a KeyError or an AttributeError. */
  lemma CleanTextErrors(rt: Runtime, table: RuleTable, st: Settings, current: Option<LegalDict>, s: string)
    ensures var r := CleanText(rt, table, st, current, s);
      && (r.Ok? <==>
            AllKnown(table, st.defaultRules)
            && (st.normalize ==> current.Some?)
            && (st.postRules.Some? ==> AllKnown(table, st.postRules.value)))
      && (r.Err? ==> r.error.KeyError? || r.error == AttributeError)
  {
    var b := Prepare(st, s);
    CleanWithFails(rt, table, b, st.defaultRules);
    var c := CleanWith(rt, table, b, st.defaultRules);
    if c.Ok? {
      var d := LegalStage(rt, st, current, c.value);
      if d.Ok? && st.postRules.Some? {
        var e := if st.removeAccents then rt.unidecode(d.value) else d.value;
        CleanWithFails(rt, table, e, st.postRules.value);
        assert PostStage(rt, table, st, d.value) == CleanWith(rt, table, e, st.postRules.value);
      }
    }
  }

  /** With known default rules, no post-processing rules and a dictionary
      in use, every string cleans without error. */
  lemma CleanNameSucceeds(rt: Runtime, table: RuleTable, st: Settings, current: Option<LegalDict>, s: string)
    requires AllKnown(table, st.defaultRules) && st.postRules.None? && current.Some?
    ensures CleanName(rt, table, st, current, Str(s)).Ok?
  {
    CleanTextErrors(rt, table, st, current, s);
  }

  /** Without normalisation the dictionary in use plays no part. */
  lemma CleanTextIgnoresDictionary(rt: Runtime, table: RuleTable, st: Settings, c1: Option<LegalDict>, c2: Option<LegalDict>, s: string)
    requires !st.normalize
    ensures CleanText(rt, table, st, c1, s) == CleanText(rt, table, st, c2, s)
  {
  }

  /** With every optional stage off (no rules, no legal terms, no accent
      removal, lower case), cleaning is the utilities' lower-casing
      whitespace normalisation, and with unicode removal on it is their
      `perform_basic_cleaning`. */
  lemma CleanTextBasic(rt: Runtime, table: RuleTable, st: Settings, current: Option<LegalDict>, s: string)
    requires st.defaultRules == [] && !st.normalize && !st.removeAccents && st.postRules.None?
    requires st.letterCase != "upper" && st.letterCase != "title"
    ensures CleanText(rt, table, st, current, s)
      == Ok(if st.removeUnicode then PerformBasicCleaning(s) else RemoveExtraSpacesLower(s))
  {
    var a := if st.removeUnicode then AsciiOnly(s) else s;
    var b := Prepare(st, s);
    assert SelectRules(table, []) == Ok([]);
    assert CleanWith(rt, table, b, []) == Ok(b);
    assert PostStage(rt, table, st, b) == Ok(b);
    StripSpec(a);
    LowerKeepsSpaces(Strip(a));
    StripTrimmed(b);
    assert Finish(st.letterCase, b) == Collapse(b);
  }
}
