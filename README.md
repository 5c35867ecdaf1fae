# Company-name normalisation engine of financial-entity-cleaner, in Dafny

This project models the engine that `financial-entity-cleaner` uses to turn a
noisy company name into a canonical string, and proves properties of it.
The engine has several generations, and each is modelled in its own module.

- **Rule pipeline** (`RulePipeline`, `CleaningRules`, `SimpleCleaner`).
  - A rule is a named `[replacement, pattern]` pair.
  - A dictionary of rules runs as an ordered fold, each rule on the output of the previous one.
  - A pattern that is the name of another rule of the same dictionary stands for that rule's pair. This is one hop only.
  - `place_word_the_at_the_beginning` searches before it substitutes, and prefixes `the ` when it matched.
  - Rule lists are selected from the table in list order. A repeated name runs once. An unknown name raises KeyError.
- **Legal-form dictionaries** (`LegalForms`).
  - `set_current_legal_term_dict` checks the country against the manifest.
  - It loads that country's file, then either picks one language's map or folds all of them with `dict.update`.
  - When asked, it merges in the us/en default without overriding selected terms.
  - It records the selection in the cleaner's fields (the class `LegalTermStore`).
- **Legal-term normaliser** (`LegalTerms`).
  - Each variant becomes a pattern: lower-cased, dots escaped or wrapped in `\b`, with `$` when looking at the end only.
  - The replacement is the lower-cased canonical term padded with spaces.
  - Substitutions run term by term, then variant by variant.
- **Cleaning one name** (`NameCleaning`). The stage order of `clean`: optional unicode removal, strip and lower-case, default rules, legal terms, optional accent removal, optional post rules, letter case, whitespace collapse.
- **Tabular driver** (`Tabular`). `clean_df` does the following:
  - It checks the columns, copies the table and adds an all-NaN output column.
  - It loops over the distinct country values. For each one it swaps the dictionary in use (the default when the country is unsupported), then cleans the rows of that country's mask.
  - It puts the dictionary back on return.
- **Current cleaner** (`BaseCleaner`, `Company`). The validated `mode` and `letter_case` setters, the rule-list setters, and `clean`/`clean_df` over the fields.
- **Older generations.**
  - `LegacyName` covers `text/name.py` and its copy `company/name.py`. They have no accent or post stage, and country values are not lower-cased.
  - `CompanyCleaner` covers `company_cleaner/company.py`. It selects `[language][country]` and normalises by splitting the name recursively at the first legal-term match.
  - `Alternation` gives that package's legal-term pattern, a group of literal alternatives with `\b` word boundaries, the meaning `re.search` gives it: the leftmost match, alternatives tried in order.
  - `StatelessCompany` and `StatelessCleaning` cover the stateless `company.py` and `simple_cleaner.py`. Legal terms run first, with no padding and no rule indirection.
- **Helpers** (`PyStr`, `BasicCleaning`, `Utility`). Python's `strip`, whitespace collapse, the ASCII filter and whitespace deletion, written out over characters. The lower-casing `utils` helpers. `get_missing_items`.

Regular expressions (`re.sub`, `re.search`) and `unidecode` are not written
out: every cleaning function takes them as a parameter `rt: Runtime` of total
functions. Python dicts are association lists with unique keys in insertion
order; `d[k] = v` and `dict.update` keep an existing key's position. NaN is the
value `Null`. JSON files are values (`Folder`, `FormsFile`) that the loaders
read, including the missing-file and missing-entry cases.

Behaviour of the code worth noting:

- The `the` rule prefixes the literal text `the `.
- `clean_df` restores only the dictionary in use. It does not restore the recorded country and language, and it does so only on normal return: there is no `finally`.
- A row whose country is the string `"nan"` falls in no mask and keeps NaN (`Tabular.CleanDfNanCountry`). A null country is grouped through `str(country) == 'nan'`.
- Rule names are checked by the setters. The defaults chosen at construction are not checked; a missing rule surfaces as a KeyError when a name is cleaned.

## Model

All source paths are under `financial_entity_cleaner/`.

| member | source | states |
|---|---|---|
| BaseCleaner.BaseCleaner.constructor | financial_entity_cleaner/utils/base_cleaner.py:53-61 | a new cleaner is silent and lower-cases its output |
| BaseCleaner.BaseCleaner.SetMode | financial_entity_cleaner/utils/base_cleaner.py:89-93 | "silent" and "exception" are stored; anything else raises FinancialCleanerError with its message and keeps the old mode; the letter case never changes |
| BaseCleaner.BaseCleaner.SetLetterCase | financial_entity_cleaner/utils/base_cleaner.py:114-118 | "lower", "upper" and "title" are stored; anything else raises with its message and keeps the old case; the mode never changes |
| BaseCleaner.BaseCleaner.Mode | financial_entity_cleaner/utils/base_cleaner.py:63-87 | the getter returns the last accepted mode, which is always silent or exception |
| BaseCleaner.BaseCleaner.LetterCase | financial_entity_cleaner/utils/base_cleaner.py:95-112 | the getter returns the last accepted case, which is always one of the three |
| CleaningRules.IsValid | financial_entity_cleaner/text/cleaning_rules.py:59-75 | true exactly when every listed name is a key of the table; the empty list is valid |
| CleaningRules.DefaultRulesValid | financial_entity_cleaner/text/cleaning_rules.py:1-56 | every name of the default pipeline is a key of the rule table |
| CleaningRules.DefaultNamesAreLong | financial_entity_cleaner/text/cleaning_rules.py:39-56 | every default rule name is longer than four characters, so none is a pattern such as `the$` |
| CleaningRules.DefaultRulesEnds | financial_entity_cleaner/text/cleaning_rules.py:39-56 | the default pipeline starts with `place_word_the_at_the_beginning` and ends with `enforce_single_space_between_words` |
| CleaningRules.TheRulesShareTheirRule | financial_entity_cleaner/text/cleaning_rules.py:4-5 | the two trailing-"the" rules are the same `[" ", "the$"]` pair |
| CleaningRules.DefaultSelection | financial_entity_cleaner/text/simple_cleaner.py:118-123 | selecting the default pipeline succeeds, and each listed name maps to the table's rule of that name |
| CleaningRules.RepeatRuleResolves | financial_entity_cleaner/text/cleaning_rules.py:33-42 | the only reference rule names `remove_words_in_parentheses`; both are in the default list, so the reference resolves to that rule's pair |
| SimpleCleaner.ShowCleaningRules | financial_entity_cleaner/text/simple_cleaner.py:38-49 | exactly the table's keys, in table order, and every one is a valid rule name |
| SimpleCleaner.RemoveExtraSpaces | financial_entity_cleaner/text/simple_cleaner.py:67-84 | no whitespace at either end, no two adjacent whitespace characters, and the characters other than whitespace are the input's, in order and in their case |
| SimpleCleaner.RemoveExtraSpacesChars | financial_entity_cleaner/text/simple_cleaner.py:79-84 | every character of the output is a plain space or a character of the input |
| SimpleCleaner.RemoveExtraSpacesIdempotent | financial_entity_cleaner/text/simple_cleaner.py:67-84 | applying it twice equals applying it once |
| SimpleCleaner.ApplyCleaningRules | financial_entity_cleaner/text/simple_cleaner.py:118-126 | the dictionary-filling loop and the run give the selection of the named rules run in order, or the KeyError of the selection |
| SimpleCleaner.CleaningRulesErrors | financial_entity_cleaner/text/simple_cleaner.py:118-126 | cleaning fails exactly when a name is not in the table, and then with a KeyError for the first such name |
| SimpleCleaner.DefaultCleaningMovesTheFirst | financial_entity_cleaner/text/simple_cleaner.py:169-179 | default cleaning starts with the `the` step on the input (substitute `the$`, prefix `the ` when it matched) and then runs the remaining rules |
| SimpleCleaner.DefaultPlaceTheReady | financial_entity_cleaner/text/cleaning_rules.py:5 | the default list is known to the table, starts with the `the` rule, whose pair is `[" ", "the$"]`, and `the$` is not a selected name |
| PyStr.AsciiOnly | financial_entity_cleaner/utils/simple_cleaner.py:31-44 | the result is no longer than the input and all ASCII |
| PyStr.AsciiOnlySpec | financial_entity_cleaner/text/simple_cleaner.py:51-65 | `remove_unicode` keeps exactly the ASCII characters in order: it distributes over concatenation, keeps an ASCII character, drops others, and fixes all-ASCII strings |
| PyStr.RemoveWhitespace | financial_entity_cleaner/text/simple_cleaner.py:86-100 | no whitespace character is left |
| PyStr.RemoveWhitespaceSpec | financial_entity_cleaner/utils/simple_cleaner.py:66-79 | `remove_all_spaces` deletes every whitespace character and nothing else: it distributes over concatenation, deletes one whitespace character, keeps any other |
| PyStr.Strip | financial_entity_cleaner/company/company.py:411 | `str.strip()`: neither end is whitespace, and the result is no longer than the input |
| PyStr.StripSpec | financial_entity_cleaner/text/simple_cleaner.py:80 | strip removes the whitespace at both ends and nothing else: the result is the slice of the input between its leading and its trailing whitespace |
| PyStr.Collapse | financial_entity_cleaner/text/simple_cleaner.py:83 | `re.sub(r"\s+", " ", s)`, a definition: its properties are CollapseSingleSpaced, CollapseIdempotent and CollapseTrimmed |
| PyStr.CollapseSingleSpaced | financial_entity_cleaner/text/simple_cleaner.py:83 | after the collapse every whitespace character is a plain space and no two are adjacent |
| PyStr.CollapseIdempotent | financial_entity_cleaner/text/simple_cleaner.py:83 | collapsing twice is collapsing once |
| PyStr.CollapseTrimmed | financial_entity_cleaner/text/simple_cleaner.py:80-83 | a trimmed string stays trimmed after the collapse |
| PyStr.Lower | financial_entity_cleaner/company/company.py:411 | `str.lower()`: the same length, each character lower-cased on its own (ASCII letters; others unchanged) |
| PyStr.Upper | financial_entity_cleaner/company/company.py:431-432 | `str.upper()`: the same length, each character upper-cased on its own (ASCII letters; others unchanged) |
| PyStr.Title | financial_entity_cleaner/company/company.py:433-434 | `str.title()` keeps the length; the letter cases it gives are TitleSpec |
| PyStr.TitleSpec | financial_entity_cleaner/company/company.py:433-434 | a letter after a letter is lower-cased, any other letter upper-cased, and every other character is kept |
| PyStr.Partition | financial_entity_cleaner/company_cleaner/company.py:265 | `str.partition`: an empty separator raises ValueError; otherwise the three parts make up the string, the middle is the separator at its first occurrence, and without one the result is the string and two empty parts |
| PyStr.PartitionAt | financial_entity_cleaner/company_cleaner/company.py:265 | `partition` splits at the first occurrence of a non-empty separator: the text before it, the separator, the text after it |
| BasicCleaning.RemoveExtraSpacesLower | financial_entity_cleaner/utils/simple_cleaner.py:47-63 | trimmed, single-spaced and without upper-case letters; apart from whitespace it is the input lower-cased; ASCII input stays ASCII |
| BasicCleaning.NormalisedChars | financial_entity_cleaner/utils/simple_cleaner.py:58-63 | strip, lower-case and collapse leave no upper-case letter, and ASCII input stays ASCII |
| BasicCleaning.PerformBasicCleaning | financial_entity_cleaner/utils/simple_cleaner.py:11-28 | `remove_extra_spaces(remove_unicode(s))`: ASCII, trimmed, single-spaced and lower case |
| BasicCleaning.RemoveExtraSpacesLowerIdempotent | financial_entity_cleaner/utils/utils.py:37-53 | the lower-casing normalisation is a fixed point after one application |
| BasicCleaning.PerformBasicCleaningIdempotent | financial_entity_cleaner/utils/utils.py:11-18 | basic cleaning of a cleaned value changes nothing |
| Utility.Missing | financial_entity_cleaner/utils/utility.py:94-97 | every item returned is in the target and not in the reference, and each missing target item is kept |
| Utility.MissingCounts | financial_entity_cleaner/utils/utility.py:94-97 | each missing item occurs as often as the target lists it; a referenced item never occurs |
| Utility.GetMissingItems | financial_entity_cleaner/utils/utility.py:77-102 | None exactly when every target item is in the reference; otherwise the non-empty list of target items the reference lacks, in target order, with duplicates |
| RulePipeline.RunRegexRules | financial_entity_cleaner/text/simple_cleaner.py:151-181 | the loop returns the ordered fold of resolved steps over the dictionary |
| RulePipeline.Step | financial_entity_cleaner/text/simple_cleaner.py:153-179 | one loop iteration, a definition: its properties are StepOneHop (a pattern naming a rule of the dictionary is replaced by that rule's pair) and CleanWithPlaceTheFirst (`the ` is prefixed for `place_word_the_at_the_beginning` only when the search before the substitution matched) |
| RulePipeline.ApplyRegexRules | financial_entity_cleaner/text/simple_cleaner.py:128-181 | an empty dictionary returns the input; otherwise the last entry's step is applied to what the earlier entries produced |
| RulePipeline.SelectRules | financial_entity_cleaner/text/simple_cleaner.py:118-122 | succeeds exactly when every listed name is a key of the table, and otherwise fails with KeyError of a listed name the table lacks; on success its keys are the listed names without repetitions, each at its first position |
| RulePipeline.CleanWith | financial_entity_cleaner/text/simple_cleaner.py:118-126 | succeeds exactly when every listed name is a key of the table, and otherwise fails with KeyError of a listed name the table lacks |
| RulePipeline.BuildRuleDict | financial_entity_cleaner/text/simple_cleaner.py:119-122 | the filling loop returns the selection function's result: the KeyError of the first unknown name, or the selected dictionary |
| RulePipeline.RunFromSplit | financial_entity_cleaner/utils/simple_cleaner.py:104-134 | running `a + b` is running `a`, then `b` on its output |
| RulePipeline.RunFromLast | financial_entity_cleaner/utils/utils.py:74-104 | the last entry is applied to what the earlier entries produced; no entries leave the input unchanged |
| RulePipeline.StepOneHop | financial_entity_cleaner/text/simple_cleaner.py:159-164 | a reference runs exactly as the referenced rule would, even when that rule's own pattern names a third rule (one hop) |
| RulePipeline.DedupSnoc | financial_entity_cleaner/text/simple_cleaner.py:120-122 | a name listed again changes nothing; a new name is selected last |
| RulePipeline.SelectRulesSpec | financial_entity_cleaner/text/simple_cleaner.py:119-122 | each selected name maps to the table's rule of that name (which names are selected, and in what order, is SelectRules) |
| RulePipeline.SelectedRule | financial_entity_cleaner/text/name.py:358-360 | a listed name of a valid list is selected with the table's rule |
| RulePipeline.SelectedFirst | financial_entity_cleaner/company/name.py:357-360 | the selection starts with the first listed name and holds no unlisted name |
| RulePipeline.CleanWithErrors | financial_entity_cleaner/text/name.py:355-364 | cleaning with a list fails exactly when a name is missing, and with KeyError of the first missing name |
| RulePipeline.CleanWithRepeated | financial_entity_cleaner/text/simple_cleaner.py:118-126 | listing a known rule again does not change the result |
| RulePipeline.CleanWithPlaceTheFirst | financial_entity_cleaner/text/simple_cleaner.py:169-179 | with the `the` rule listed first and not referencing a listed rule, cleaning starts with the search-substitute-prefix step |
| Re.ReEscapeRoundTrip | financial_entity_cleaner/company_cleaner/company.py:301 | an escaped variant reads back as the variant: `re.escape` loses nothing |
| Re.ReEscapeNoBareBar | financial_entity_cleaner/company_cleaner/company.py:301 | every bar character of an escaped variant follows a backslash, so the unescaped bars of the alternation are the separators |
| Alternation.MatchAt | financial_entity_cleaner/company_cleaner/company.py:303 | at one position the engine settles on the first alternative, in order, with which the whole pattern matches, including the `\b` after the group; None exactly when no alternative matches there |
| Alternation.SearchFrom | financial_entity_cleaner/company_cleaner/company.py:303 | `re.search` gives the leftmost position with a match and the alternative matched there; None exactly when no position has a match |
| Alternation.SearchFinds | financial_entity_cleaner/company_cleaner/company.py:303 | the search result is fixed by where the alternatives match: the first such position, and the first alternative matching there |
| Alternation.InnerBoundariesText | financial_entity_cleaner/company_cleaner/company.py:301 | the alternation with its boundaries inside the group is written `(\b`, the escaped literals joined by bars, `\b)` |
| Alternation.OuterBoundariesText | financial_entity_cleaner/company_cleaner/company.py:301 | the alternation with its boundaries outside the group is written `\b(`, the escaped literals joined by bars, `)\b` |
| Alternation.OuterMatchesWholeWord | financial_entity_cleaner/company_cleaner/company.py:301-303 | with the boundaries outside the group, an alternative matches exactly where its literal occurs as a whole word |
| Alternation.OuterSearch | financial_entity_cleaner/company_cleaner/company.py:301-303 | with the boundaries outside the group, the search finds the leftmost whole-word occurrence of any literal, the first literal in list order when several start there, and nothing exactly when no literal occurs as a whole word |
| Alternation.InnerBoundariesMatchInsideWord | financial_entity_cleaner/company_cleaner/company.py:301-303 | with the boundaries inside the group, "inc" and "incorporated" find "inc" in "acme incorporated", ending inside a word; with them outside, "incorporated" |
| LegalForms.LoadAvailable | financial_entity_cleaner/company/company.py:184-208 | ListOfLegalTermsAvailableDoesNotExist exactly when the manifest is missing, KeyError("legal_forms") exactly when it lacks that entry |
| LegalForms.LoadLegalTermsDict | financial_entity_cleaner/company/company.py:210-242 | fails exactly when the country's file is missing or lacks `legal_forms`: LegalTermsDictionaryDoesNotExist for the first, LegalTermsDictionaryNotFound for the second |
| LegalForms.ConcatenateLanguages | financial_entity_cleaner/company/company.py:336-344 | the loop returns the fold of the languages: the first map as it is, the later ones merged in by `update` |
| LegalForms.ConcatLanguages | financial_entity_cleaner/company/company.py:336-344 | None exactly when the file has no language; which terms it holds and with which variants is ConcatTerms and ConcatLastWins |
| LegalForms.MergeDefault | financial_entity_cleaner/company/company.py:346-350 | the loop adds exactly the default terms the selection lacks, with the default's variants; over None the first default term raises AttributeError |
| LegalForms.LegalTermStore.constructor | financial_entity_cleaner/company/company.py:94-108 | the fields before the first selection: an empty dictionary in use, an empty default, the given country, language and manifest |
| LegalForms.LegalTermStore.InfoCurrent | financial_entity_cleaner/company/company.py:244-255 | the recorded country, then language (the same getter is text/name.py:247-258 and company/name.py:246-257) |
| LegalForms.LegalTermStore.SetCurrentLegalTermDict | financial_entity_cleaner/company/company.py:303-354 | the new fields and outcome are those of the selection function; the default dictionary never changes |
| LegalForms.SelectCurrent | financial_entity_cleaner/company/company.py:303-354 | an unsupported country raises CountryNotSupported and leaves the selection as it was; on success the recorded country and language are the arguments (the other rejections are SelectCurrentRejects) |
| LegalForms.ConcatLastWins | financial_entity_cleaner/company/company.py:338-344 | a term is in the concatenation exactly when some language has it, with the variants of the last language that has it |
| LegalForms.ConcatTerms | financial_entity_cleaner/company/company.py:338-344 | the concatenation's terms are exactly the terms of the languages |
| LegalForms.ConcatFirstLanguageFirst | financial_entity_cleaner/company/company.py:338-344 | the first language's terms keep their positions at the front; later languages only append new terms |
| LegalForms.SelectCurrentRejects | financial_entity_cleaner/company/company.py:323-333 | unsupported country, missing file, missing entry and unknown language are checked in that order, each raises its own error, and the selection is unchanged |
| LegalForms.SelectCurrentRecords | financial_entity_cleaner/company/company.py:352-354 | on success the recorded country and language are the arguments; a failure changes nothing except the merge of a file without languages, which clears the dictionary in use |
| LegalForms.SelectOneLanguage | financial_entity_cleaner/company/company.py:331-335 | with a supported language the dictionary in use is that language's map, completed by the default when merging |
| LegalForms.SelectAllLanguages | financial_entity_cleaner/company/company.py:336-344 | with language "" the dictionary in use is the `update` fold of all languages: a later language's variants win, the term keeps its first position |
| LegalForms.SelectMerged | financial_entity_cleaner/company/company.py:346-350 | merging adds every default term the selection lacks with the default's variants; a selected term keeps its own variants |
| LegalTerms.VariantPattern | financial_entity_cleaner/company/company.py:367-379 | the pattern is at least as long as the variant, ends in `$` when looking at the end, and starts with `\b` when the lower-cased variant has no dot (its full content is VariantPatternRoundTrip) |
| LegalTerms.Padded | financial_entity_cleaner/company/company.py:364 | the replacement is the lower-cased term with one space on each side |
| LegalTerms.TermSubs | financial_entity_cleaner/company/company.py:365-383 | one substitution per variant, in variant order |
| LegalTerms.ApplyNormalizationOfLegalTerms | financial_entity_cleaner/company/company.py:356-384 | the nested loops return the stripped name with every term's substitutions run, terms in dictionary order, variants in list order |
| LegalTerms.NormalizeLegalTerms | financial_entity_cleaner/company/company.py:356-384 | the stripped name with the dictionary's substitutions run in order, a definition: its properties are LegalSubsAt, NormalizeLastTerm and NormalizeEmpty |
| LegalTerms.SubstituteVariants | financial_entity_cleaner/company/company.py:365-383 | the inner loop applies the term's substitutions in variant order |
| LegalTerms.VariantPatternRoundTrip | financial_entity_cleaner/company/company.py:367-379 | a pattern reads back to its lower-cased variant, so variants that differ after lower-casing never share a pattern |
| LegalTerms.DottedPatternEscaped | financial_entity_cleaner/company/company.py:371-372 | a dotted variant's pattern holds no bare dot |
| LegalTerms.NormalizeLastTerm | financial_entity_cleaner/company/company.py:362-383 | a term added at the end of the dictionary has its variants substituted, in order, after all the others |
| LegalTerms.LegalSubs | financial_entity_cleaner/company/company.py:362-383 | one substitution per variant of every term: as many as all the terms have variants |
| LegalTerms.LegalSubsAt | financial_entity_cleaner/company/company.py:362-383 | the whole dictionary's substitutions run term by term, then variant by variant: term i's occupy the positions from Offset(d, i) up to Offset(d, i + 1), and the j-th of them replaces the pattern of variant j by the padded term |
| LegalTerms.NormalizeEmpty | financial_entity_cleaner/company/company.py:358 | an empty dictionary only strips the name |
| NameCleaning.ApplyLetterCase | financial_entity_cleaner/company/company.py:430-434 | the length is kept, and "upper" leaves no lower-case letter |
| NameCleaning.Prepare | financial_entity_cleaner/company/company.py:404-411 | the prepared name (optional unicode removal, strip, lower-case) is never longer than the input |
| NameCleaning.LegalStage | financial_entity_cleaner/company/company.py:417-419 | fails exactly when normalising with no dictionary in use, and then with AttributeError |
| NameCleaning.Finish | financial_entity_cleaner/company/company.py:430-437 | trimmed and single-spaced, and without lower-case letters for "upper" |
| NameCleaning.CleanText | financial_entity_cleaner/company/company.py:404-439 | an accepted name is trimmed and single-spaced, and has no lower-case letters in upper case |
| NameCleaning.CleanName | financial_entity_cleaner/company/company.py:398-402 | a non-string gives NaN in silent mode and CompanyNameIsNotAString in exception mode; a cleaned string is trimmed and single-spaced |
| NameCleaning.CleanValue | financial_entity_cleaner/company/company.py:386-439 | `clean`, reassigning the name stage by stage, returns the result of the stage composition |
| NameCleaning.RulesExistIn | financial_entity_cleaner/text/name.py:229-245 | the early-return loop is true exactly when every name is a rule of the table |
| NameCleaning.CleanWithFails | financial_entity_cleaner/text/simple_cleaner.py:118-126 | the rule stage fails exactly when a name is missing, and then with a KeyError |
| NameCleaning.CleanTextErrors | financial_entity_cleaner/company/company.py:404-439 | cleaning fails exactly when a default or post rule is unknown, or normalising without a dictionary; the error is a KeyError or an AttributeError |
| NameCleaning.CleanNameSucceeds | financial_entity_cleaner/company/company.py:398-439 | known default rules, no post rules and a dictionary in use mean every string cleans |
| NameCleaning.CleanTextIgnoresDictionary | financial_entity_cleaner/company/company.py:417-419 | without normalisation the dictionary in use plays no part |
| NameCleaning.CleanTextBasic | financial_entity_cleaner/company/company.py:404-437 | with every optional stage off, cleaning is the utilities' lower-casing normalisation, and with unicode removal on it is `perform_basic_cleaning` |
| Tabular.Unique | financial_entity_cleaner/company/company.py:489 | the distinct values of the column: every value occurs, none twice, and nothing else |
| Tabular.Prefill | financial_entity_cleaner/company/company.py:481-484 | the copy has the output column, NaN in every row, and every other cell as before |
| Tabular.KeyOf | financial_entity_cleaner/company/company.py:498 | keyed as the current cleaner does, a value's key is `str(value).lower()`; keyed as the older cleaners do, only a string has a key |
| Tabular.CleanGroup | financial_entity_cleaner/company/company.py:503-510 | the masked row loop returns the row function's result for the group |
| Tabular.CleanOneRow | financial_entity_cleaner/company/company.py:509-510 | a row in the group has its output cell cleaned; any other row is kept |
| Tabular.CleanRow | financial_entity_cleaner/company/company.py:503-510 | one row of the masked loop, a definition: its properties are CleanedWritesOut, CleanedIgnoresOut and CleanRowsFromSpec |
| Tabular.SwapDictionary | financial_entity_cleaner/company/company.py:496-501 | the new fields are those of the swap function: the default for an unsupported country, otherwise the all-language selection |
| Tabular.Swap | financial_entity_cleaner/company/company.py:496-501 | the swap for one group, a definition: its property is SwapIgnoresSelection |
| Tabular.CleanGroups | financial_entity_cleaner/company/company.py:487-510 | the loop over the distinct values returns the group function's table and selection |
| Tabular.GroupsFrom | financial_entity_cleaner/company/company.py:487-510 | the loop over the groups, a definition: its property is GroupsFromRow |
| Tabular.CleanDataFrame | financial_entity_cleaner/company/company.py:441-524 | `clean_df` on the store returns the driver function's result and leaves its selection |
| Tabular.CleanDf | financial_entity_cleaner/company/company.py:441-524 | `clean_df` as a function, a definition: its properties are CleanDfRejects, CleanDfRestores, CleanDfWithoutCountry, CleanDfByCountry and CleanDfNanCountry |
| Tabular.CleanRowsFromSpec | financial_entity_cleaner/company/company.py:509-510 | the row loop keeps every row and its order, cleans exactly the group's rows, and fails exactly when one of them fails |
| Tabular.CleanRowsSpec | financial_entity_cleaner/company/company.py:503-510 | the same for a whole group |
| Tabular.CleanedWritesOut | financial_entity_cleaner/company/company.py:509 | cleaning a row writes the output cell and nothing else |
| Tabular.CleanedIgnoresOut | financial_entity_cleaner/company/company.py:484-509 | the output cell's old value plays no part in cleaning a row |
| Tabular.SwapIgnoresSelection | financial_entity_cleaner/company/company.py:496-501 | a swap's outcome and new selection do not depend on the selection before it |
| Tabular.HitsOwnGroup | financial_entity_cleaner/company/company.py:503-508 | a country that is not the string "nan" is in its own group's mask and in no other, apart from the "nan" group catching nulls; the string "nan" is in no mask |
| Tabular.GroupsFromRow | financial_entity_cleaner/company/company.py:495-510 | per row: the row count stays, an unselected row is kept, and a row is as the last group selecting it cleaned it |
| Tabular.GroupsFromNext | financial_entity_cleaner/company/company.py:495-510 | one turn of the loop over the countries: swap the dictionary, clean that country's rows, go on with the rest; an error of either step ends the loop with the selection the swap left |
| Tabular.GroupRowStep | financial_entity_cleaner/company/company.py:503-510 | one country's pass keeps the row count and the country cell; a row of another country is kept; a row of this country holds what cleaning it with this country's dictionary gives, and its old output cell plays no part in a later cleaning |
| Tabular.CleanDfRejects | financial_entity_cleaner/company/company.py:469-478 | a missing name column, or a named but missing country column, raises before anything changes |
| Tabular.CleanDfRestores | financial_entity_cleaner/company/company.py:473-524 | on success the dictionary in use is put back, and nothing changes without a country column; the result keeps the row count and every column and adds the output column |
| Tabular.CleanDfWithoutCountry | financial_entity_cleaner/company/company.py:513-518 | without a country column every row is cleaned with the dictionary in use; the call fails exactly when a row fails |
| Tabular.CleanDfByCountry | financial_entity_cleaner/company/company.py:487-510 | a row whose country is a string other than "nan", or null when no row holds "nan", is cleaned once, with its own country's dictionary |
| Tabular.CleanDfNanCountry | financial_entity_cleaner/company/company.py:503-510 | a row whose country is the string "nan" keeps NaN in its output cell |
| Company.InfoDefault | financial_entity_cleaner/company/company.py:257-267 | the default dictionary's country, then language: us, en |
| Company.InfoDefaultAsWritten | financial_entity_cleaner/company/company.py:268 | the reported pair starts with the default country |
| Company.InfoDefaultMissesLanguage | financial_entity_cleaner/company/company.py:268 | the pair as written lacks "en" and differs from the intended pair |
| Company.CompanyNameCleaner.constructor | financial_entity_cleaner/company/company.py:63-130 | every field's initial value, before the first selection |
| Company.CompanyNameCleaner.New | financial_entity_cleaner/company/company.py:101-109 | loader errors are raised; otherwise us/en is selected, kept as the default, and reported as the current pair |
| Company.CompanyNameCleaner.SetDefaultCleaningRules | financial_entity_cleaner/company/company.py:161-167 | a valid list is stored; otherwise CleaningRuleNotFoundInTheDictionary and the old list stays; other fields unchanged |
| Company.CompanyNameCleaner.SetPostCleaningRules | financial_entity_cleaner/company/company.py:173-182 | None switches the stage off; a valid list is stored; otherwise the error and the old value stays |
| Company.CompanyNameCleaner.ResetDefaultCleaningRules | financial_entity_cleaner/company/company.py:300-301 | the default list is back, and it is valid |
| Company.CompanyNameCleaner.InfoDefaultLegalTermDict | financial_entity_cleaner/company/company.py:257-268 | the pair as written, the default country twice, so the default language is missing (see Findings) |
| Company.CompanyNameCleaner.SetCurrentLegalTermDict | financial_entity_cleaner/company/company.py:303-354 | the selection function's outcome on the fields; the default never changes |
| Company.CompanyNameCleaner.Clean | financial_entity_cleaner/company/company.py:386-439 | `clean` with the fields' settings and the dictionary in use |
| Company.CompanyNameCleaner.CleanDf | financial_entity_cleaner/company/company.py:441-524 | the driver with lower-cased country keys, over the fields |
| Company.NewCleanerCleans | financial_entity_cleaner/company/company.py:101-130 | a new cleaner has a dictionary in use and cleans every string without error; a non-string gives NaN |
| Company.InitialSelectionPicks | financial_entity_cleaner/company/company.py:105-109 | a successful us/en selection leaves a dictionary in use |
| LegacyName.CompanyNameCleaner.constructor | financial_entity_cleaner/text/name.py:66-122 | every field's initial value, before the first selection |
| LegacyName.CompanyNameCleaner.New | financial_entity_cleaner/text/name.py:103-110 | loader errors are raised; otherwise us/en is selected and kept as the default |
| LegacyName.CompanyNameCleaner.SetDefaultCleaningRules | financial_entity_cleaner/text/name.py:161-167 | a list of known rules is stored, otherwise CleaningRuleNotFoundInTheDictionary and the old list stays (also company/name.py:160-166) |
| LegacyName.CompanyNameCleaner.CleaningRulesAvailable | financial_entity_cleaner/text/name.py:286-297 | the table's keys in order, each a known rule |
| LegacyName.CompanyNameCleaner.InfoDefaultLegalTermDict | financial_entity_cleaner/text/name.py:260-271 | the pair as written, the default country twice, so the default language is missing (see Findings) |
| LegacyName.CompanyNameCleaner.ApplyCleaningRules | financial_entity_cleaner/text/name.py:355-364 | the default rules selected in list order and run, or the KeyError of the first unknown name |
| LegacyName.CompanyNameCleaner.SetCurrentLegalTermDict | financial_entity_cleaner/text/name.py:302-353 | the same selection function as the current cleaner |
| LegacyName.CompanyNameCleaner.GetCleanName | financial_entity_cleaner/text/name.py:396-440 | `get_clean_data` (and `get_clean_name` of company/name.py:395-439) is the shared cleaning without accent and post stages |
| LegacyName.CompanyNameCleaner.GetCleanDf | financial_entity_cleaner/text/name.py:442-520 | the driver with country values used as they are (also `apply_cleaner_to_df`, company/name.py:441-519) |
| LegacyName.SameAsCurrentWithoutLaterStages | financial_entity_cleaner/text/name.py:414-438 | the older stage order is the current one with accents off and no post rules |
| LegacyName.RawCountryKeys | financial_entity_cleaner/text/name.py:494-497 | a null country, or a string not in the manifest, uses the default dictionary; a listed string selects all of that country's languages, without lower-casing |
| CompanyCleaner.LoadForms | financial_entity_cleaner/company_cleaner/company.py:153-178 | a missing file raises LegalTermsDictionaryDoesNotExist, a file without its entry LegalTermsDictionaryNotFound |
| CompanyCleaner.SelectForms | financial_entity_cleaner/company_cleaner/company.py:251-259 | an unknown language raises LanguageNotSupported, then an unknown country under it CountryNotSupported; otherwise that country's map |
| CompanyCleaner.AbbrevPattern | financial_entity_cleaner/company_cleaner/company.py:301 | `abbrev_regex` as written starts with `(\b` and ends with `\b)`; what it matches is AbbrevPatternMeaning, and its small cases are NoVariantsPattern and OneVariantPattern |
| CompanyCleaner.WholeWordPattern | financial_entity_cleaner/company_cleaner/company.py:301 | the corrected pattern starts with `\b(` and ends with `)\b`; the cleaner itself keeps `abbrev_regex` as written (see Findings) |
| CompanyCleaner.Alternatives | financial_entity_cleaner/company_cleaner/company.py:301 | the literals the alternation tries are never empty: one lower-cased literal per variant, in variant order, or one empty literal when there are no variants |
| CompanyCleaner.AbbrevPatternMeaning | financial_entity_cleaner/company_cleaner/company.py:301 | the text as written is the alternation whose `\b`s bind only its first alternative (before it) and its last (after it) |
| CompanyCleaner.WholeWordPatternMeaning | financial_entity_cleaner/company_cleaner/company.py:301 | the corrected text is the alternation with a `\b` before and after every alternative; searching a name with it finds the leftmost whole-word occurrence of a variant, and nothing exactly when no variant occurs as a whole word |
| CompanyCleaner.AbbrevPatternInsideWord | financial_entity_cleaner/company_cleaner/company.py:301-303 | for the variants "inc" and "incorporated" in "acme incorporated", the pattern as written finds "inc" at position 5, which ends inside a word; the corrected pattern finds "incorporated" |
| CompanyCleaner.CleanerSplitsInsideWord | financial_entity_cleaner/company_cleaner/company.py:298-306 | when `re.search` behaves as Python's engine on that pattern, the legal-term step of "acme incorporated" with the variants "inc" and "incorporated" splits the name into "acme " and "orporated" and cleans those two sides |
| CompanyCleaner.IncSearched | financial_entity_cleaner/company_cleaner/company.py:301-303 | under Python's engine `abbrev_regex` for "inc" and "incorporated" finds "inc" in "acme incorporated" |
| CompanyCleaner.IncPartition | financial_entity_cleaner/company_cleaner/company.py:265 | "acme incorporated".partition("inc") gives "acme ", "inc" and "orporated" |
| CompanyCleaner.CleanCompanyText | financial_entity_cleaner/company_cleaner/company.py:286-328 | output trimmed and single-spaced, and without lower-case letters for "upper"; without normalisation it fails exactly when a rule is unknown; failures are KeyError, ValueError or RecursionError, and never KeyError with known rules |
| CompanyCleaner.NormalizeFrom | financial_entity_cleaner/company_cleaner/company.py:296-308 | the legal-term loop searching with `abbrev_regex` as written; the same error classes as the whole cleaning |
| CompanyCleaner.NormalizeAround | financial_entity_cleaner/company_cleaner/company.py:264-266 | the same error classes as the whole cleaning |
| CompanyCleaner.CleanCompanyName | financial_entity_cleaner/company_cleaner/company.py:280-284 | a non-string gives NaN, or raises CompanyNameIsNotAString in exception mode; a cleaned string is trimmed and single-spaced |
| CompanyCleaner.CompanyNameCleaner.constructor | financial_entity_cleaner/company_cleaner/company.py:60-106 | every field's initial value |
| CompanyCleaner.CompanyNameCleaner.New | financial_entity_cleaner/company_cleaner/company.py:91-97 | loader errors are raised; otherwise en/us is selected |
| CompanyCleaner.CompanyNameCleaner.SetDefaultCleaningRules | financial_entity_cleaner/company_cleaner/company.py:145-151 | a list of known rules is stored; otherwise CleaningRuleNotFoundInTheDictionary and the old list stays |
| CompanyCleaner.CompanyNameCleaner.TypeCurrent | financial_entity_cleaner/company_cleaner/company.py:198-209 | the recorded language, then country |
| CompanyCleaner.CompanyNameCleaner.TypesAvailable | financial_entity_cleaner/company_cleaner/company.py:211-222 | the fixed list of language,country pairs, which includes the pair a new cleaner selects |
| CompanyCleaner.CompanyNameCleaner.CleaningRulesAvailable | financial_entity_cleaner/company_cleaner/company.py:224-235 | the table's keys in order |
| CompanyCleaner.CompanyNameCleaner.SetCurrentLegalTermDict | financial_entity_cleaner/company_cleaner/company.py:237-262 | on success the country's map is in use and both names are recorded; on failure nothing changes |
| CompanyCleaner.CompanyNameCleaner.GetCleanName | financial_entity_cleaner/company_cleaner/company.py:268-328 | `get_clean_name` with the fields' settings and dictionary |
| CompanyCleaner.CompanyNameCleaner.CleanText | financial_entity_cleaner/company_cleaner/company.py:286-328 | the reassigning body returns the recursive cleaning function's result |
| CompanyCleaner.CompanyNameCleaner.NormalizeName | financial_entity_cleaner/company_cleaner/company.py:295-308 | the breaking loop, searching with `abbrev_regex` as written, returns the first-match normalisation |
| CompanyCleaner.CompanyNameCleaner.ApplyRulesAndCase | financial_entity_cleaner/company_cleaner/company.py:310-326 | the selected rules, then the case, then the collapse, or the KeyError |
| CompanyCleaner.CompanyNameCleaner.ReplaceAndNormalize | financial_entity_cleaner/company_cleaner/company.py:264-266 | `replace_and_normalize` as the split-clean-join function |
| CompanyCleaner.CompanyDefaultRulesKnown | financial_entity_cleaner/company_cleaner/cleaning_rules.py:1-25 | every default rule of the package is in its table |
| CompanyCleaner.NoVariantsPattern | financial_entity_cleaner/company_cleaner/company.py:301 | a term without variants gives `(\b\b)`, a pattern of two word boundaries |
| CompanyCleaner.OneVariantPattern | financial_entity_cleaner/company_cleaner/company.py:301 | one variant gives `(\b` + its escaped lower case + `\b)` |
| CompanyCleaner.NormalizeNoMatch | financial_entity_cleaner/company_cleaner/company.py:298-308 | when no term's pattern is found the name is kept |
| CompanyCleaner.NormalizeFirstMatch | financial_entity_cleaner/company_cleaner/company.py:298-308 | the first term whose pattern is found decides; later terms play no part |
| CompanyCleaner.NormalizeAroundSplits | financial_entity_cleaner/company_cleaner/company.py:264-266 | a contained non-empty match splits the name at its first occurrence into two strictly shorter parts, cleaned alone and joined around the replacement by single spaces |
| CompanyCleaner.NormalizeAroundFails | financial_entity_cleaner/company_cleaner/company.py:265 | an empty match raises ValueError; a match the name lacks gives RecursionError |
| CompanyCleaner.PrepareFixed | financial_entity_cleaner/company_cleaner/company.py:286-293 | preparing a prepared name changes nothing, so an unsplit name recurses on the same text |
| CompanyCleaner.CompanyCleanerDefaultsSucceed | financial_entity_cleaner/company_cleaner/company.py:310-316 | without normalisation, the package's default rules never fail |
| StatelessCleaning.CleanUnicode | financial_entity_cleaner/simple_cleaner.py:11-27 | a non-string raises AttributeError; a string keeps exactly its ASCII characters |
| StatelessCleaning.ApplyCleaningRules | financial_entity_cleaner/simple_cleaner.py:30-64 | a non-string raises AttributeError; otherwise the rules run in order as written; an empty dictionary is the identity |
| StatelessCleaning.PlainRun | financial_entity_cleaner/simple_cleaner.py:52-62 | the rule loop as written, a definition: its properties are PlainRunSplit and PlainRunIsPipeline |
| StatelessCleaning.PlainRunSplit | financial_entity_cleaner/simple_cleaner.py:52-62 | running `a + b` is running `a`, then `b` |
| StatelessCleaning.PlainRunIsPipeline | financial_entity_cleaner/simple_cleaner.py:52-62 | without the `the` rule and without references, the later rule loop equals this plain one |
| StatelessCompany.GetPatternNameToClean | financial_entity_cleaner/company.py:17-30 | four distinct names, starting with "company_name" |
| StatelessCompany.WordPattern | financial_entity_cleaner/company.py:69-72 | `\b` + the lower-cased variant + `\b`, nothing escaped, no anchor |
| StatelessCompany.CleanName | financial_entity_cleaner/company.py:33-95 | fails exactly on a non-string, with AttributeError; output trimmed, single-spaced, and without lower-case letters for "upper" |
| StatelessCompany.GetCleanName | financial_entity_cleaner/company.py:33-95 | the loops return the stateless cleaning function's result |
| StatelessCompany.ReplaceLegalTerms | financial_entity_cleaner/company.py:62-74 | the nested loops apply every variant's substitution, terms then variants, in order |
| StatelessCompany.CleanerDefaultsSelected | financial_entity_cleaner/company.py:76-79 | the default rule selection never fails |
| StatelessCompany.CleanerPatternsAreNotNames | financial_entity_cleaner/cleaner_data.py:11-35 | no default rule is the `the` rule, and no pattern is a default rule name |
| StatelessCompany.CleanerRulesArePlain | financial_entity_cleaner/company.py:76-84 | on the selected defaults, the resolving rule loop equals the plain one |
| StatelessCompany.CleanNameIsCurrentWithoutTerms | financial_entity_cleaner/company.py:55-93 | without legal terms, this cleaner equals the current stage pipeline with unicode removal on and this file's rules |

## Left out

- Regular expressions and `unidecode` are parameters. A lemma holds for every regex engine, and nothing is proved about what a cleaning rule's pattern such as `the$` matches. `Alternation` describes the legal-term alternation of `company_cleaner` on its own terms.
- `Alternation` counts only the ASCII letters, the digits and `_` as word characters for `\b`; Python's `str` patterns count every Unicode letter and digit. Its results are not assumed of the `rt.search` parameter. Only `CompanyCleaner.CleanerSplitsInsideWord` asks for them, on its one input, through `CompanyCleaner.SearchesAsPython`.
- Case mapping is written out for ASCII letters only. Other characters are left unchanged by `lower`, `upper` and `title`, and count as word breaks for `title`.
- File I/O is not modelled. JSON loading and existence checks are values passed in (`Folder`, `FormsFile`), including their missing and malformed cases.
- pandas, numpy and tqdm are reduced to rows of optional cells. `unique`, masks and `.loc` writes are modelled; indexes, dtypes and progress bars are not.
- Logging is left out.
- Non-string values are a single `Null`. Numbers and other non-string objects are not told apart, and `str(country)` of a non-string is taken to be "nan".
- The unvalidated setters (`normalize_legal_terms`, `remove_unicode`, `remove_accents`, and the older `mode`/`output_lettercase`) are plain field assignments on the classes. They have no separate members.
- The plain getters `get_info_available_legal_term_dict`, `get_current_legal_term_dict` and `get_cleaning_rules_available` of company/company.py return a field or the table's keys. The fields are public in the model, and the keys are `SimpleCleaner.ShowCleaningRules`.
- company/name.py reads `company.cleaning_rules`, which is not part of this model. Its cleaner takes the rule table as a parameter. Its `lib.apply_regex_rules` and `lib.remove_unicode` are taken to be the `utils/simple_cleaner.py` functions. `utils/lib.py` defines neither, so as written that module raises AttributeError for every string name; `LegacyName.CompanyNameCleaner.GetCleanName` does not model that failure.
- CompanyCleaner.NormalizeAround: `re.search` is a parameter, so the model does not know that a match is a substring of the searched name. A match the name lacks, which Python never produces, is given the outcome RecursionError: cleaning that name again would meet the same match without end (`CompanyCleaner.PrepareFixed`). An empty match raises ValueError, as `str.partition` does.
- CompanyCleaner.CleanCompanyText: output properties are proved for success only. Termination is by the name's length, which is why a split must shorten the name.
- Tabular.CleanDf: `clean_df` is modelled as returning on success or on the first error. An exception raised mid-loop leaves the swapped dictionary in place, exactly as the source does without a `finally`.

## Findings

| source | as written | input that shows it | evidently intended | confidence | as-written member | corrected member |
|---|---|---|---|---|---|---|
| financial_entity_cleaner/company/company.py:268 | `get_info_default_legal_term_dict` returns the default country twice (the same line is at text/name.py:271 and company/name.py:270) | a new cleaner: it reports `["us", "us"]` (`Company.CompanyNameCleaner.InfoDefaultLegalTermDict`) | `["us", "en"]`, the pair the default dictionary is selected with | not executed | Company.InfoDefaultMissesLanguage | Company.InfoDefault |
| financial_entity_cleaner/company_cleaner/company.py:301 | `abbrev_regex` writes the `\b`s inside the group, as `(\b` before the bar-joined variants and `\b)` after them, so they bind only to the first and the last variant | variants "inc" and "incorporated" in the name "acme incorporated": the search returns "inc", which ends inside "incorporated", and the name is split in the middle of that word | `\b(` before the variants and `)\b` after them, so every variant is matched as a whole word | not executed | CompanyCleaner.CleanerSplitsInsideWord | CompanyCleaner.WholeWordPatternMeaning |
