/** Named regex cleaning rules and the loop that runs them.

    A rule is a `[replacement, pattern]` pair stored under a name. Running a
    dictionary of rules is a fold: each rule is applied, in the dictionary's
    order, to the output of the previous one. Two features make it more than
    a plain fold of `re.sub`:
    - a pattern that is the name of a rule of the same dictionary stands for
      that rule's pattern and replacement (one hop, never followed further);
    - the rule `place_word_the_at_the_beginning` first searches for its
      pattern and, when it matched, prefixes `the ` to the substituted text.

    The same loop appears three times in the library (the text cleaner, and
    two copies among the utilities); it is modelled once here. */
module RulePipeline {
  import opened Py
  import opened PyDict
  import opened Re

  /** A cleaning rule `[replacement, pattern]`. */
  datatype Rule = Rule(replacement: string, pattern: string)

  /** A table of named rules, in the order it is written. Tables written as
      constants are looked up by first match; dictionaries the cleaners build
      themselves carry the unique-key invariant. */
  type RuleTable = seq<(string, Rule)>

  const PlaceTheRule: string := "place_word_the_at_the_beginning"

  /** The rule actually run for `rule` inside the dictionary `d`: when its
      pattern names a rule of `d`, that rule; otherwise `rule` itself. */
  function Resolve(d: RuleTable, rule: Rule): Rule
  {
    if HasKey(d, rule.pattern) then Get(d, rule.pattern) else rule
  }

  /** One iteration of the loop: the entry `(name, rule)` of `d` applied to `s`. */
  function Step(rt: Runtime, d: RuleTable, name: string, rule: Rule, s: string): string
  {
    var eff := Resolve(d, rule);
    var out := rt.sub(eff.pattern, eff.replacement, s);
    if name == PlaceTheRule && rt.search(eff.pattern, s).Some? then "the " + out else out
  }

  /** The loop from the entry `entries[0]` on, starting from `s`. */
  function RunFrom(rt: Runtime, d: RuleTable, entries: RuleTable, s: string): string
    decreases |entries|
  {
    if entries == [] then s
    else RunFrom(rt, d, entries[1..], Step(rt, d, entries[0].0, entries[0].1, s))
  }

  /** `apply_regex_rules(s, d)`: every entry of `d`, in order, each on the
      output of the entries before it; no entries leave `s` unchanged. */
  function ApplyRegexRules(rt: Runtime, s: string, d: RuleTable): (r: string)
    ensures d == [] ==> r == s
    ensures d != [] ==> r == Step(rt, d, d[|d| - 1].0, d[|d| - 1].1, RunFrom(rt, d, d[..|d| - 1], s))
  {
    if d != [] then
      assert d == d[..|d| - 1] + [d[|d| - 1]];
      RunFromLast(rt, d, d[..|d| - 1], d[|d| - 1].0, d[|d| - 1].1, s);
      RunFrom(rt, d, d, s)
    else
      RunFrom(rt, d, d, s)
  }

  /** The loop as the source writes it. */
  method RunRegexRules(rt: Runtime, s: string, d: RuleTable) returns (r: string)
    ensures r == ApplyRegexRules(rt, s, d)
  {
    r := s;
    var i := 0;
    while i < |d|
      invariant 0 <= i <= |d|
      invariant RunFrom(rt, d, d, s) == RunFrom(rt, d, d[i..], r)
    {
      var name := d[i].0;
      var replacement := d[i].1.replacement;
      var pattern := d[i].1.pattern;
      if HasKey(d, pattern) {
        replacement := Get(d, d[i].1.pattern).replacement;
        pattern := Get(d, d[i].1.pattern).pattern;
      }
      var found := false;
      if name == PlaceTheRule {
        found := rt.search(pattern, r).Some?;
      }
      r := rt.sub(pattern, replacement, r);
      if found {
        r := "the " + r;
      }
      assert d[i..][1..] == d[i + 1..];
      i := i + 1;
    }
  }

  // ----- selecting rules by name -----

  /** The dictionary built by `for name in names: d[name] = table[name]`,
      continuing from `acc`; the first name missing from `table` raises KeyError. */
  function SelectFrom(table: RuleTable, names: seq<string>, acc: Dict<string, Rule>): Result<Dict<string, Rule>>
    decreases |names|
  {
    if names == [] then Ok(acc)
    else if !HasKey(table, names[0]) then Err(KeyError(names[0]))
    else SelectFrom(table, names[1..], Set(acc, names[0], Get(table, names[0])))
  }

  /** The rules named by `names`, looked up in `table`: a KeyError for a
      listed name the table lacks exactly when there is one; otherwise one
      entry per listed name, at its first position. */
  function SelectRules(table: RuleTable, names: seq<string>): (r: Result<Dict<string, Rule>>)
    ensures r.Ok? <==> forall n :: n in names ==> HasKey(table, n)
    ensures r.Err? ==> r.error.KeyError? && r.error.key in names && !HasKey(table, r.error.key)
    ensures r.Ok? ==> Keys(r.value) == Dedup(names)
  {
    SelectFromOk(table, names, []);
    SelectFromKeyError(table, names, []);
    if SelectFrom(table, names, []).Ok? then
      SelectFromKeys(table, names, []);
      SelectFrom(table, names, [])
    else
      SelectFrom(table, names, [])
  }

  /** The selection loop as the source writes it. */
  method BuildRuleDict(table: RuleTable, names: seq<string>) returns (r: Result<Dict<string, Rule>>)
    ensures r == SelectRules(table, names)
  {
    assert SelectRules(table, names) == SelectFrom(table, names, []);
    var d: Dict<string, Rule> := [];
    var i := 0;
    while i < |names|
      invariant 0 <= i <= |names|
      invariant SelectFrom(table, names, []) == SelectFrom(table, names[i..], d)
    {
      if !HasKey(table, names[i]) {
        return Err(KeyError(names[i]));
      }
      d := Set(d, names[i], Get(table, names[i]));
      assert names[i..][1..] == names[i + 1..];
      i := i + 1;
    }
    return Ok(d);
  }

  /** `names` without repetitions, each kept at its first position; `seen`
      holds the names already taken. */
  function DedupFrom(names: seq<string>, seen: seq<string>): seq<string>
  {
    if names == [] then []
    else if names[0] in seen then DedupFrom(names[1..], seen)
    else [names[0]] + DedupFrom(names[1..], seen + [names[0]])
  }

  function Dedup(names: seq<string>): seq<string>
  {
    DedupFrom(names, [])
  }

  /** Selecting the rules named by `names` from `table` and running them over
      `text`, as `apply_cleaning_rules(text, names)` does. */
  function CleanWith(rt: Runtime, table: RuleTable, text: string, names: seq<string>): (r: Result<string>)
    ensures r.Ok? <==> forall n :: n in names ==> HasKey(table, n)
    ensures r.Err? ==> r.error.KeyError? && r.error.key in names && !HasKey(table, r.error.key)
  {
    var d :- SelectRules(table, names);
    Ok(ApplyRegexRules(rt, text, d))
  }

  // ----- lemmas: the loop -----

  /** Running `a + b` is running `a`, then `b` on its output. */
  lemma {:induction false} RunFromSplit(rt: Runtime, d: RuleTable, a: RuleTable, b: RuleTable, s: string)
    ensures RunFrom(rt, d, a + b, s) == RunFrom(rt, d, b, RunFrom(rt, d, a, s))
    decreases |a|
  {
    if a == [] {
      assert a + b == b;
    } else {
      assert (a + b)[0] == a[0];
      assert (a + b)[1..] == a[1..] + b;
      RunFromSplit(rt, d, a[1..], b, Step(rt, d, a[0].0, a[0].1, s));
    }
  }

  /** The rules run in order, each on the output of the previous one: the
      last entry is applied to what the entries before it produced, and no
      entries at all leave the input unchanged. */
  lemma RunFromLast(rt: Runtime, d: RuleTable, entries: RuleTable, name: string, rule: Rule, s: string)
    ensures RunFrom(rt, d, entries + [(name, rule)], s) == Step(rt, d, name, rule, RunFrom(rt, d, entries, s))
    ensures RunFrom(rt, d, [], s) == s
  {
    RunFromSplit(rt, d, entries, [(name, rule)], s);
  }

  /** Indirection is one hop: a rule whose pattern names another rule of the
      dictionary runs exactly as that rule would with nothing to resolve, even
      when that rule's own pattern names a third one. */
  lemma StepOneHop(rt: Runtime, d: RuleTable, name: string, rule: Rule, s: string)
    ensures HasKey(d, rule.pattern) ==> Step(rt, d, name, rule, s) == Step(rt, [], name, Get(d, rule.pattern), s)
    ensures !HasKey(d, rule.pattern) ==> Step(rt, d, name, rule, s) == Step(rt, [], name, rule, s)
  {
  }

  // ----- lemmas: selection -----

  lemma {:induction false} DedupFromSnoc(names: seq<string>, seen: seq<string>, x: string)
    ensures DedupFrom(names + [x], seen) ==
      if x in names || x in seen then DedupFrom(names, seen) else DedupFrom(names, seen) + [x]
    decreases |names|
  {
    if names == [] {
      assert names + [x] == [x];
    } else {
      assert (names + [x])[0] == names[0];
      assert (names + [x])[1..] == names[1..] + [x];
      assert x in names <==> x == names[0] || x in names[1..];
      if names[0] in seen {
        DedupFromSnoc(names[1..], seen, x);
      } else {
        DedupFromSnoc(names[1..], seen + [names[0]], x);
      }
    }
  }

  /** A name listed again changes nothing; a new name is selected last. */
  lemma DedupSnoc(names: seq<string>, x: string)
    ensures Dedup(names + [x]) == if x in names then Dedup(names) else Dedup(names) + [x]
  {
    DedupFromSnoc(names, [], x);
  }

  lemma {:induction false} DedupFromMembers(names: seq<string>, seen: seq<string>)
    ensures forall x :: x in DedupFrom(names, seen) <==> x in names && x !in seen
    ensures forall i, j :: 0 <= i < j < |DedupFrom(names, seen)| ==> DedupFrom(names, seen)[i] != DedupFrom(names, seen)[j]
    decreases |names|
  {
    if names != [] {
      assert forall x :: x in names <==> x == names[0] || x in names[1..];
      if names[0] in seen {
        DedupFromMembers(names[1..], seen);
      } else {
        DedupFromMembers(names[1..], seen + [names[0]]);
        var rest := DedupFrom(names[1..], seen + [names[0]]);
        assert DedupFrom(names, seen) == [names[0]] + rest;
        forall j | 0 <= j < |rest| ensures rest[j] != names[0] {
          assert rest[j] in rest;
          assert names[0] in seen + [names[0]];
        }
      }
    }
  }

  /** The dictionary's keys are the listed names without repetitions, each
      at its first position. */
  lemma {:induction false} SelectFromKeys(table: RuleTable, names: seq<string>, acc: Dict<string, Rule>)
    requires SelectFrom(table, names, acc).Ok?
    ensures Keys(SelectFrom(table, names, acc).value) == Keys(acc) + DedupFrom(names, Keys(acc))
    decreases |names|
  {
    if names != [] {
      var n := names[0];
      var acc' := Set(acc, n, Get(table, n));
      SelectFromKeys(table, names[1..], acc');
      if !HasKey(acc, n) {
        assert Keys(acc') == Keys(acc) + [n];
      }
    }
  }

  /** Each selected rule is the table's rule of that name. */
  lemma {:induction false} SelectFromValues(table: RuleTable, names: seq<string>, acc: Dict<string, Rule>, k: string)
    requires SelectFrom(table, names, acc).Ok?
    requires forall j :: HasKey(acc, j) ==> HasKey(table, j) && Get(acc, j) == Get(table, j)
    ensures HasKey(SelectFrom(table, names, acc).value, k) ==> HasKey(table, k) && Get(SelectFrom(table, names, acc).value, k) == Get(table, k)
    decreases |names|
  {
    if names != [] {
      var n := names[0];
      var acc' := Set(acc, n, Get(table, n));
      assert forall j :: HasKey(acc', j) ==> j == n || HasKey(acc, j);
      SelectFromValues(table, names[1..], acc', k);
    }
  }

  /** Selection succeeds exactly when every listed name is in the table, and
      then holds, under each listed name and no other, the table's rule. */
  lemma {:induction false} SelectFromOk(table: RuleTable, names: seq<string>, acc: Dict<string, Rule>)
    ensures SelectFrom(table, names, acc).Ok? <==> forall n :: n in names ==> HasKey(table, n)
    decreases |names|
  {
    if names != [] {
      assert forall x :: x in names <==> x == names[0] || x in names[1..];
      if HasKey(table, names[0]) {
        SelectFromOk(table, names[1..], Set(acc, names[0], Get(table, names[0])));
      }
    }
  }

  /** Every rule `apply_cleaning_rules` selects is the table's rule of that
      name (which names are selected, and in what order, is stated by
      SelectRules itself). */
  lemma SelectRulesSpec(table: RuleTable, names: seq<string>)
    ensures SelectRules(table, names).Ok? ==> forall k :: HasKey(SelectRules(table, names).value, k) ==>
      HasKey(table, k) && Get(SelectRules(table, names).value, k) == Get(table, k)
  {
    if SelectRules(table, names).Ok? {
      forall k ensures HasKey(SelectRules(table, names).value, k) ==>
        HasKey(table, k) && Get(SelectRules(table, names).value, k) == Get(table, k)
      {
        SelectFromValues(table, names, [], k);
      }
    }
  }

  /** A listed name of a valid list is selected with the table's rule. */
  lemma SelectedRule(table: RuleTable, names: seq<string>, k: string)
    requires forall n :: n in names ==> HasKey(table, n)
    requires k in names
    ensures SelectRules(table, names).Ok?
    ensures HasKey(SelectRules(table, names).value, k) && HasKey(table, k)
    ensures Get(SelectRules(table, names).value, k) == Get(table, k)
  {
    SelectRulesSpec(table, names);
    DedupFromMembers(names, []);
  }

  /** The KeyError names the first listed name that the table lacks. */
  lemma {:induction false} SelectFromFirstMissing(table: RuleTable, names: seq<string>, acc: Dict<string, Rule>, i: nat)
    requires i < |names| && !HasKey(table, names[i])
    requires forall j :: 0 <= j < i ==> HasKey(table, names[j])
    ensures SelectFrom(table, names, acc) == Err(KeyError(names[i]))
    decreases i
  {
    if i > 0 {
      SelectFromFirstMissing(table, names[1..], Set(acc, names[0], Get(table, names[0])), i - 1);
    }
  }

  /** A list with a name the table lacks has a first such name. */
  lemma {:induction false} FirstMissing(table: RuleTable, names: seq<string>, i: nat)
    requires i < |names| && !HasKey(table, names[i])
    ensures exists k :: 0 <= k <= i && !HasKey(table, names[k]) && forall j :: 0 <= j < k ==> HasKey(table, names[j])
    decreases i
  {
    if !forall j :: 0 <= j < i ==> HasKey(table, names[j]) {
      var j :| 0 <= j < i && !HasKey(table, names[j]);
      FirstMissing(table, names, j);
    }
  }

  /** The selected dictionary starts with the first listed name and holds
      no name that was not listed. */
  lemma SelectedFirst(table: RuleTable, names: seq<string>)
    requires forall n :: n in names ==> HasKey(table, n)
    requires names != []
    ensures SelectRules(table, names).Ok?
    ensures |SelectRules(table, names).value| > 0
    ensures SelectRules(table, names).value[0] == (names[0], Get(table, names[0]))
    ensures forall k :: HasKey(SelectRules(table, names).value, k) ==> k in names
  {
    SelectRulesSpec(table, names);
    DedupFromMembers(names, []);
    var d := SelectRules(table, names).value;
    assert Dedup(names)[0] == names[0];
    assert Keys(d)[0] == names[0];
    GetAt(d, 0);
  }

  /** A failed selection names a missing rule: the error is a KeyError for
      one of the requested names that the table lacks. */
  lemma {:induction false} SelectFromKeyError(table: RuleTable, names: seq<string>, acc: Dict<string, Rule>)
    ensures var r := SelectFrom(table, names, acc);
      r.Err? ==> r.error.KeyError? && r.error.key in names && !HasKey(table, r.error.key)
    decreases |names|
  {
    if names != [] && HasKey(table, names[0]) {
      SelectFromKeyError(table, names[1..], Set(acc, names[0], Get(table, names[0])));
    }
  }

  /** Cleaning fails exactly when a listed name is missing from the table,
      and then with a KeyError naming the first missing name. */
  lemma CleanWithErrors(rt: Runtime, table: RuleTable, text: string, names: seq<string>)
    ensures CleanWith(rt, table, text, names).Ok? <==> forall n :: n in names ==> HasKey(table, n)
    ensures forall i :: (0 <= i < |names| && !HasKey(table, names[i]) && (forall j :: 0 <= j < i ==> HasKey(table, names[j])))
                ==> CleanWith(rt, table, text, names) == Err(KeyError(names[i]))
  {
    SelectRulesSpec(table, names);
    forall i | 0 <= i < |names| && !HasKey(table, names[i]) && (forall j :: 0 <= j < i ==> HasKey(table, names[j]))
      ensures CleanWith(rt, table, text, names) == Err(KeyError(names[i]))
    {
      SelectFromFirstMissing(table, names, [], i);
    }
  }

  /** Listing a rule again does not run it twice: the dictionary keeps one
      entry per name, at its first position. */
  lemma CleanWithRepeated(rt: Runtime, table: RuleTable, text: string, names: seq<string>, x: string)
    requires x in names
    ensures CleanWith(rt, table, text, names + [x]) == CleanWith(rt, table, text, names)
  {
    SelectRulesSpec(table, names);
    SelectRulesSpec(table, names + [x]);
    DedupSnoc(names, x);
    if forall n :: n in names ==> HasKey(table, n) {
      assert forall n :: n in names + [x] ==> HasKey(table, n);
      var d := SelectRules(table, names).value;
      var d' := SelectRules(table, names + [x]).value;
      assert Keys(d') == Keys(d);
      assert |d'| == |d|;
      forall i | 0 <= i < |d| ensures d'[i] == d[i] {
        assert Keys(d')[i] == Keys(d)[i];
        GetAt(d, i);
        GetAt(d', i);
      }
      assert d' == d;
    } else {
      var i :| 0 <= i < |names| && !HasKey(table, names[i]);
      FirstMissing(table, names, i);
      var k :| 0 <= k <= i && !HasKey(table, names[k]) && forall j :: 0 <= j < k ==> HasKey(table, names[j]);
      SelectFromFirstMissing(table, names, [], k);
      assert (names + [x])[k] == names[k];
      SelectFromFirstMissing(table, names + [x], [], k);
    }
  }

  /** When the first listed rule is `place_word_the_at_the_beginning` and its
      pattern names no listed rule, cleaning starts with the "the" step on
      the input and continues with the remaining rules. */
  lemma CleanWithPlaceTheFirst(rt: Runtime, table: RuleTable, text: string, names: seq<string>, rule: Rule)
    requires forall n :: n in names ==> HasKey(table, n)
    requires names != [] && names[0] == PlaceTheRule
    requires HasKey(table, PlaceTheRule) && Get(table, PlaceTheRule) == rule
    requires rule.pattern !in names
    ensures SelectRules(table, names).Ok?
    ensures var d := SelectRules(table, names).value;
      var first := rt.sub(rule.pattern, rule.replacement, text);
      && |d| > 0 && d[0] == (PlaceTheRule, rule)
      && CleanWith(rt, table, text, names) ==
        Ok(RunFrom(rt, d, d[1..], if rt.search(rule.pattern, text).Some? then "the " + first else first))
  {
    SelectedFirst(table, names);
    var d := SelectRules(table, names).value;
    assert !HasKey(d, rule.pattern);
  }
}
