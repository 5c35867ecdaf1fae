/** Normalisation of legal terms: every variant of every canonical term
    becomes one substitution, and the substitutions run in dictionary order,
    then variant order, over the stripped name. */
module LegalTerms {
  import opened Py
  import opened PyStr
  import opened Re
  import opened LegalForms

  /** Where a legal term is looked for: only at the end of the name, or anywhere. */
  datatype LegalTermLocation = AtTheEnd | Anywhere

  /** One substitution: `pattern` replaced by `replacement`. */
  datatype Sub = Sub(pattern: string, replacement: string)

  /** The pattern built for the variant `v`: lower-cased; every dot escaped
      when it has a dot, otherwise wrapped in word boundaries; anchored at the
      end when looking at the end only. */
  function VariantPattern(v: string, loc: LegalTermLocation): (p: string)
    ensures |p| >= |v|
    ensures loc == AtTheEnd ==> |p| > 0 && p[|p| - 1] == '$'
    ensures '.' !in Lower(v) ==> |p| >= 4 && p[..2] == "\\b"
  {
    var l := Lower(v);
    var core := if '.' in l then EscapeDots(l) else "\\b" + l + "\\b";
    if loc == AtTheEnd then core + "$" else core
  }

  /** Reads a variant pattern back to the lower-cased variant it was built from. */
  function PatternVariant(p: string, loc: LegalTermLocation): string
  {
    var core := if loc == AtTheEnd && |p| > 0 then p[..|p| - 1] else p;
    if '.' in core then UnescapeDots(core)
    else if |core| >= 4 then core[2..|core| - 2]
    else core
  }

  /** The replacement for the canonical term `term`: lower-cased and padded with a space on each side. */
  function Padded(term: string): (r: string)
    ensures |r| == |term| + 2 && r[0] == ' ' && r[|r| - 1] == ' '
    ensures r[1..|r| - 1] == Lower(term)
  {
    " " + Lower(term) + " "
  }

  /** The substitutions for one canonical term, in the order of its variants. */
  function TermSubs(term: string, variants: seq<string>, loc: LegalTermLocation): (r: seq<Sub>)
    ensures |r| == |variants|
  {
    seq(|variants|, i requires 0 <= i < |variants| => Sub(VariantPattern(variants[i], loc), Padded(term)))
  }

  /** How many variants the first `i` terms of `d` have: where the
      substitutions of term `i` start. */
  function Offset(d: seq<(string, seq<string>)>, i: nat): nat
    requires i <= |d|
    decreases i
  {
    if i == 0 then 0 else |d[0].1| + Offset(d[1..], i - 1)
  }

  /** The substitutions for a whole dictionary, term after term: one per
      variant of every term. */
  function LegalSubs(d: seq<(string, seq<string>)>, loc: LegalTermLocation): (r: seq<Sub>)
    ensures |r| == Offset(d, |d|)
    decreases |d|
  {
    if d == [] then [] else TermSubs(d[0].0, d[0].1, loc) + LegalSubs(d[1..], loc)
  }

  /** `re.sub` for each substitution in turn, each on the previous output. */
  function ApplySubs(rt: Runtime, subs: seq<Sub>, s: string): string
    decreases |subs|
  {
    if subs == [] then s else ApplySubs(rt, subs[1..], rt.sub(subs[0].pattern, subs[0].replacement, s))
  }

  /** `_apply_normalization_of_legal_terms(name)` with dictionary `d`. */
  function NormalizeLegalTerms(rt: Runtime, d: LegalDict, loc: LegalTermLocation, s: string): string
  {
    ApplySubs(rt, LegalSubs(d, loc), Strip(s))
  }

  /** The nested loops as the source writes them: over the terms, then over
      each term's variants (`SubstituteVariants`), reassigning the name. */
  method ApplyNormalizationOfLegalTerms(rt: Runtime, d: LegalDict, loc: LegalTermLocation, name: string) returns (r: string)
    ensures r == NormalizeLegalTerms(rt, d, loc, name)
  {
    r := Strip(name);
    var i := 0;
    while i < |d|
      invariant 0 <= i <= |d|
      invariant NormalizeLegalTerms(rt, d, loc, name) == ApplySubs(rt, LegalSubs(d[i..], loc), r)
    {
      assert d[i..][1..] == d[i + 1..];
      ApplySubsSplit(rt, TermSubs(d[i].0, d[i].1, loc), LegalSubs(d[i + 1..], loc), r);
      r := SubstituteVariants(rt, d[i].0, d[i].1, loc, r);
      i := i + 1;
    }
  }

  /** The inner loop: every variant of `term`, in order, replaced by the padded term. */
  method SubstituteVariants(rt: Runtime, term: string, variants: seq<string>, loc: LegalTermLocation, name: string)
    returns (r: string)
    ensures r == ApplySubs(rt, TermSubs(term, variants, loc), name)
  {
    var replacement := " " + Lower(term) + " ";
    r := name;
    var j := 0;
    while j < |variants|
      invariant 0 <= j <= |variants|
      invariant ApplySubs(rt, TermSubs(term, variants, loc), name) == ApplySubs(rt, TermSubs(term, variants, loc)[j..], r)
    {
      var legalTerm := Lower(variants[j]);
      if '.' in legalTerm {
        legalTerm := EscapeDots(legalTerm);
      } else {
        legalTerm := "\\b" + legalTerm + "\\b";
      }
      if loc == AtTheEnd {
        legalTerm := legalTerm + "$";
      }
      assert TermSubs(term, variants, loc)[j..][1..] == TermSubs(term, variants, loc)[j + 1..];
      r := rt.sub(legalTerm, replacement, r);
      j := j + 1;
    }
  }

  // ----- lemmas -----

  lemma {:induction false} EscapeDotsKeepsDot(s: string)
    requires '.' in s
    ensures '.' in EscapeDots(s)
    decreases |s|
  {
    var head: string := if s[0] == '.' then "\\." else [s[0]];
    assert EscapeDots(s) == head + EscapeDots(s[1..]);
    if s[0] == '.' {
      assert EscapeDots(s)[1] == '.';
    } else {
      assert '.' in s[1..];
      EscapeDotsKeepsDot(s[1..]);
      var k :| 0 <= k < |EscapeDots(s[1..])| && EscapeDots(s[1..])[k] == '.';
      assert EscapeDots(s)[k + 1] == '.';
    }
  }

  /** A variant pattern determines its variant: reading it back gives the
      lower-cased variant, so two variants that differ after lower-casing
      never share a pattern. */
  lemma VariantPatternRoundTrip(v: string, loc: LegalTermLocation)
    ensures PatternVariant(VariantPattern(v, loc), loc) == Lower(v)
  {
    var l := Lower(v);
    var p := VariantPattern(v, loc);
    if '.' in l {
      var core := EscapeDots(l);
      assert loc == AtTheEnd ==> p[..|p| - 1] == core;
      EscapeDotsKeepsDot(l);
      EscapeDotsRoundTrip(l);
    } else {
      var core := "\\b" + l + "\\b";
      assert loc == AtTheEnd ==> p[..|p| - 1] == core;
      assert '.' !in core by {
        forall k | 0 <= k < |core| ensures core[k] != '.' {
          if 2 <= k < 2 + |l| {
            assert core[k] == l[k - 2];
          }
        }
      }
      assert core[2..|core| - 2] == l;
    }
  }

  /** A dotted variant's pattern holds no bare dot: every dot is escaped. */
  lemma DottedPatternEscaped(v: string, loc: LegalTermLocation)
    requires '.' in Lower(v)
    ensures var p := VariantPattern(v, loc);
      forall i :: 0 <= i < |p| && p[i] == '.' ==> i > 0 && p[i - 1] == '\\'
  {
    var p := VariantPattern(v, loc);
    EscapeDotsNoBareDot(Lower(v));
    assert p[..|EscapeDots(Lower(v))|] == EscapeDots(Lower(v));
  }

  /** Running `a + b` is running `a`, then `b` on its output. */
  lemma {:induction false} ApplySubsSplit(rt: Runtime, a: seq<Sub>, b: seq<Sub>, s: string)
    ensures ApplySubs(rt, a + b, s) == ApplySubs(rt, b, ApplySubs(rt, a, s))
    decreases |a|
  {
    if a == [] {
      assert a + b == b;
    } else {
      assert (a + b)[0] == a[0];
      assert (a + b)[1..] == a[1..] + b;
      ApplySubsSplit(rt, a[1..], b, rt.sub(a[0].pattern, a[0].replacement, s));
    }
  }

  /** The substitutions of `d + e` are those of `d`, then those of `e`. */
  lemma {:induction false} LegalSubsAppend(d: seq<(string, seq<string>)>, e: seq<(string, seq<string>)>, loc: LegalTermLocation)
    ensures LegalSubs(d + e, loc) == LegalSubs(d, loc) + LegalSubs(e, loc)
    decreases |d|
  {
    if d == [] {
      assert d + e == e;
    } else {
      assert (d + e)[0] == d[0];
      assert (d + e)[1..] == d[1..] + e;
      LegalSubsAppend(d[1..], e, loc);
    }
  }

  /** Normalisation runs the dictionary's terms in order: with one more term
      at the end, its variants are substituted, in their order, after all the
      others. */
  lemma NormalizeLastTerm(rt: Runtime, d: LegalDict, term: string, variants: seq<string>, loc: LegalTermLocation, s: string)
    requires UniqueKeysAppend(d, term, variants)
    ensures NormalizeLegalTerms(rt, d + [(term, variants)], loc, s)
      == ApplySubs(rt, TermSubs(term, variants, loc), NormalizeLegalTerms(rt, d, loc, s))
  {
    LegalSubsAppend(d, [(term, variants)], loc);
    assert LegalSubs([(term, variants)], loc) == TermSubs(term, variants, loc) + LegalSubs([], loc);
    assert TermSubs(term, variants, loc) + [] == TermSubs(term, variants, loc);
    ApplySubsSplit(rt, LegalSubs(d, loc), TermSubs(term, variants, loc), Strip(s));
  }

  /** `d + [(term, variants)]` is still a dictionary. */
  predicate UniqueKeysAppend(d: LegalDict, term: string, variants: seq<string>)
  {
    forall i :: 0 <= i < |d| ==> d[i].0 != term
  }

  /** The substitutions run in dictionary order, then variant order: those
      of term `i` occupy the positions from `Offset(d, i)` up to
      `Offset(d, i + 1)`, and the `j`-th of them replaces the pattern of the
      term's `j`-th variant by the padded term. */
  lemma {:induction false} LegalSubsAt(d: seq<(string, seq<string>)>, loc: LegalTermLocation, i: nat, j: nat)
    requires i < |d| && j < |d[i].1|
    ensures Offset(d, i) + |d[i].1| == Offset(d, i + 1)
    ensures Offset(d, i) + j < |LegalSubs(d, loc)|
    ensures LegalSubs(d, loc)[Offset(d, i) + j] == Sub(VariantPattern(d[i].1[j], loc), Padded(d[i].0))
    decreases i, 1
  {
    OffsetNext(d, i);
    if i == 0 {
      LegalSubsHead(d, loc, j);
    } else {
      LegalSubsLater(d, loc, i, j);
    }
  }

  /** Term `i > 0` of `d` is term `i - 1` of `d[1..]`, its substitutions
      moved up by the first term's variants. */
  lemma {:induction false} LegalSubsLater(d: seq<(string, seq<string>)>, loc: LegalTermLocation, i: nat, j: nat)
    requires 0 < i < |d| && j < |d[i].1|
    ensures Offset(d, i) + j < |LegalSubs(d, loc)|
    ensures LegalSubs(d, loc)[Offset(d, i) + j] == Sub(VariantPattern(d[i].1[j], loc), Padded(d[i].0))
    decreases i, 0
  {
    var e := d[1..];
    assert e[i - 1] == d[i];
    LegalSubsAt(e, loc, i - 1, j);
    var k := Offset(e, i - 1) + j;
    LegalSubsShift(d, loc, k);
    assert Offset(d, i) + j == |d[0].1| + k;
  }

  /** The variants of term `i` take `|d[i].1|` positions. */
  lemma {:induction false} OffsetNext(d: seq<(string, seq<string>)>, i: nat)
    requires i < |d|
    ensures Offset(d, i) + |d[i].1| == Offset(d, i + 1)
    decreases i
  {
    if i > 0 {
      assert d[1..][i - 1] == d[i];
      OffsetNext(d[1..], i - 1);
    }
  }

  /** The first term's substitutions come first. */
  lemma LegalSubsHead(d: seq<(string, seq<string>)>, loc: LegalTermLocation, j: nat)
    requires d != [] && j < |d[0].1|
    ensures Offset(d, 0) + j < |LegalSubs(d, loc)|
    ensures LegalSubs(d, loc)[Offset(d, 0) + j] == Sub(VariantPattern(d[0].1[j], loc), Padded(d[0].0))
  {
    assert LegalSubs(d, loc) == TermSubs(d[0].0, d[0].1, loc) + LegalSubs(d[1..], loc);
  }

  /** The later terms' substitutions follow the first term's. */
  lemma LegalSubsShift(d: seq<(string, seq<string>)>, loc: LegalTermLocation, k: nat)
    requires d != [] && k < |LegalSubs(d[1..], loc)|
    ensures |d[0].1| + k < |LegalSubs(d, loc)|
    ensures LegalSubs(d, loc)[|d[0].1| + k] == LegalSubs(d[1..], loc)[k]
  {
    assert LegalSubs(d, loc) == TermSubs(d[0].0, d[0].1, loc) + LegalSubs(d[1..], loc);
  }

  /** An empty dictionary only strips the name. */
  lemma NormalizeEmpty(rt: Runtime, loc: LegalTermLocation, s: string)
    ensures NormalizeLegalTerms(rt, [], loc, s) == Strip(s)
  {
  }
}
