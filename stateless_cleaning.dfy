/** The oldest text helpers (`simple_cleaner.py` at the package root): the
    ASCII filter for a value that may not be a string, and a rule loop with
    no reference resolution and no special case. */
module StatelessCleaning {
  import opened Py
  import opened PyDict
  import opened PyStr
  import opened Re
  import opened RulePipeline

  /** `clean_unicode(v)`: a value that is not a string raises
      AttributeError; a string keeps exactly its ASCII characters, in order. */
  function CleanUnicode(v: Value): (r: Result<string>)
    ensures r.Err? <==> v.Null?
    ensures r.Err? ==> r.error == AttributeError
    ensures r.Ok? ==> |r.value| <= |v.s| && forall i :: 0 <= i < |r.value| ==> IsAscii(r.value[i])
    ensures r.Ok? ==> r.value == AsciiOnly(v.s)
  {
    match v
    case Null => Err(AttributeError)
    case Str(s) => Ok(AsciiOnly(s))
  }

  /** The rules of `entries`, in order, each substituted into the previous
      output exactly as written. */
  function PlainRun(rt: Runtime, entries: RuleTable, s: string): string
    decreases |entries|
  {
    if entries == [] then s
    else PlainRun(rt, entries[1..], rt.sub(entries[0].1.pattern, entries[0].1.replacement, s))
  }

  /** `apply_cleaning_rules(v, d)` as the source writes it: a value that is
      not a string raises AttributeError; otherwise every rule of `d` runs,
      in its order, on the previous output, and an empty `d` leaves the
      string alone. */
  method ApplyCleaningRules(rt: Runtime, v: Value, d: RuleTable) returns (r: Result<string>)
    ensures v.Null? ==> r == Err(AttributeError)
    ensures v.Str? ==> r == Ok(PlainRun(rt, d, v.s))
    ensures v.Str? && d == [] ==> r == Ok(v.s)
  {
    if v.Null? {
      return Err(AttributeError);
    }
    var clean := v.s;
    var i := 0;
    while i < |d|
      invariant 0 <= i <= |d|
      invariant PlainRun(rt, d, v.s) == PlainRun(rt, d[i..], clean)
    {
      assert d[i..][1..] == d[i + 1..];
      clean := rt.sub(d[i].1.pattern, d[i].1.replacement, clean);
      i := i + 1;
    }
    return Ok(clean);
  }

  // ----- lemmas -----

  /** Running `a + b` is running `a`, then `b` on its output. */
  lemma {:induction false} PlainRunSplit(rt: Runtime, a: RuleTable, b: RuleTable, s: string)
    ensures PlainRun(rt, a + b, s) == PlainRun(rt, b, PlainRun(rt, a, s))
    decreases |a|
  {
    if a == [] {
      assert a + b == b;
    } else {
      assert (a + b)[0] == a[0];
      assert (a + b)[1..] == a[1..] + b;
      PlainRunSplit(rt, a[1..], b, rt.sub(a[0].1.pattern, a[0].1.replacement, s));
    }
  }

  /** The rule loop of the later cleaners does the same as this one on a
      dictionary where no rule is `place_word_the_at_the_beginning` and no
      pattern is the name of a rule: the reference resolution and the
      special case are all that set them apart. */
  lemma {:induction false} PlainRunIsPipeline(rt: Runtime, d: RuleTable, entries: RuleTable, s: string)
    requires forall i :: 0 <= i < |entries| ==> entries[i].0 != PlaceTheRule && !HasKey(d, entries[i].1.pattern)
    ensures RunFrom(rt, d, entries, s) == PlainRun(rt, entries, s)
    decreases |entries|
  {
    if entries != [] {
      var e := entries[0];
      assert Step(rt, d, e.0, e.1, s) == rt.sub(e.1.pattern, e.1.replacement, s);
      PlainRunIsPipeline(rt, d, entries[1..], Step(rt, d, e.0, e.1, s));
    }
  }
}
