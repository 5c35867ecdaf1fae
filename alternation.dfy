/** What `re.search` finds with a group of literal alternatives.

    The legal-term search of the `company_cleaner` package builds, for each
    canonical term, a group of escaped literal variants separated by `|`,
    with `\b` word boundaries written around the group or inside its first
    and last alternatives. This module gives such a pattern a meaning: its
    structure (`AltPattern`), the text it is written as (`Render`), and the
    leftmost match Python's backtracking engine returns for it (`Search`).
    Word characters are the ASCII letters, the digits and `_`. */
module Alternation {
  import opened Py
  import opened PyStr
  import opened Re

  /** `\w` on ASCII. */
  predicate IsWordChar(c: char)
  {
    IsLetterAscii(c) || ('0' <= c <= '9') || c == '_'
  }

  /** `\b` at position `i` of `s`: a word character on exactly one side,
      where outside the string counts as no word character. */
  predicate AtBoundary(s: string, i: nat)
    requires i <= |s|
  {
    (i > 0 && IsWordChar(s[i - 1])) != (i < |s| && IsWordChar(s[i]))
  }

  /** `w` occurs in `s` at `i` as a whole word: a boundary on each side. */
  predicate WholeWordAt(s: string, w: string, i: nat)
  {
    OccursAt(s, w, i) && AtBoundary(s, i) && AtBoundary(s, i + |w|)
  }

  /** One alternative: a literal, with or without `\b` before and after it. */
  datatype Alt = Alt(before: bool, lit: string, after: bool)

  /** `\b`? `(` alternative `|` … `)` `\b`? */
  datatype AltPattern = AltPattern(outerBefore: bool, alts: seq<Alt>, outerAfter: bool)

  function BoundaryText(b: bool): string
  {
    if b then @"\b" else ""
  }

  function RenderAlt(a: Alt): string
  {
    BoundaryText(a.before) + ReEscape(a.lit) + BoundaryText(a.after)
  }

  /** The text of the pattern, each literal escaped by `re.escape`. */
  function Render(p: AltPattern): string
  {
    BoundaryText(p.outerBefore) + "("
      + Join("|", seq(|p.alts|, k requires 0 <= k < |p.alts| => RenderAlt(p.alts[k])))
      + ")" + BoundaryText(p.outerAfter)
  }

  /** Joining parts that add `pre` to the first and `post` to the last
      is adding `pre` and `post` around the join. */
  lemma {:induction false} JoinWrapped(sep: string, xs: seq<string>, parts: seq<string>, pre: string, post: string)
    requires |parts| == |xs| >= 1
    requires forall k :: 0 <= k < |xs| ==>
      parts[k] == (if k == 0 then pre else "") + xs[k] + (if k == |xs| - 1 then post else "")
    ensures Join(sep, parts) == pre + Join(sep, xs) + post
    decreases |xs|
  {
    if |xs| > 1 {
      assert parts[0] == pre + xs[0];
      forall k | 0 <= k < |xs| - 1
        ensures parts[1..][k] == "" + xs[1..][k] + (if k == |xs| - 2 then post else "")
      {
        assert parts[1..][k] == parts[k + 1];
      }
      JoinWrapped(sep, xs[1..], parts[1..], "", post);
      assert Join(sep, parts) == parts[0] + sep + Join(sep, parts[1..]);
      assert Join(sep, xs) == xs[0] + sep + Join(sep, xs[1..]);
    } else {
      assert parts[0] == pre + xs[0] + post;
    }
  }

  /** The escaped literals, joined by bars: the inside of the group. */
  function EscapedJoin(lits: seq<string>): string
  {
    Join("|", seq(|lits|, k requires 0 <= k < |lits| => ReEscape(lits[k])))
  }

  /** The pattern with the boundaries inside the group is written
      `(\b` + the escaped literals joined by bars + `\b)`. */
  lemma InnerBoundariesText(lits: seq<string>)
    requires lits != []
    ensures Render(InnerBoundaries(lits)) == @"(\b" + EscapedJoin(lits) + @"\b)"
  {
    var p := InnerBoundaries(lits);
    var xs := seq(|lits|, k requires 0 <= k < |lits| => ReEscape(lits[k]));
    var parts := seq(|p.alts|, k requires 0 <= k < |p.alts| => RenderAlt(p.alts[k]));
    JoinWrapped("|", xs, parts, @"\b", @"\b");
  }

  /** The pattern with the boundaries outside the group is written
      `\b(` + the escaped literals joined by bars + `)\b`. */
  lemma OuterBoundariesText(lits: seq<string>)
    ensures Render(OuterBoundaries(lits)) == @"\b(" + EscapedJoin(lits) + @")\b"
  {
    var p := OuterBoundaries(lits);
    var xs := seq(|lits|, k requires 0 <= k < |lits| => ReEscape(lits[k]));
    var parts := seq(|p.alts|, k requires 0 <= k < |p.alts| => RenderAlt(p.alts[k]));
    forall k | 0 <= k < |lits| ensures parts[k] == xs[k] {
      assert p.alts[k] == Alt(false, lits[k], false);
      assert RenderAlt(p.alts[k]) == "" + ReEscape(lits[k]) + "";
      assert "" + ReEscape(lits[k]) + "" == ReEscape(lits[k]);
    }
    assert parts == xs;
  }

  /** The whole pattern matches `s` at `i` through alternative `a`: the
      literal is there, and every `\b` before it and after it holds. */
  predicate AltMatchesAt(p: AltPattern, a: Alt, s: string, i: nat)
    requires i <= |s|
  {
    && OccursAt(s, a.lit, i)
    && ((p.outerBefore || a.before) ==> AtBoundary(s, i))
    && ((p.outerAfter || a.after) ==> AtBoundary(s, i + |a.lit|))
  }

  /** The alternative the engine settles on at `i`, trying them in order
      from the `k`-th: a `\b` after the group that fails sends it back to
      the next alternative. */
  function MatchAt(p: AltPattern, s: string, i: nat, k: nat): (r: Option<nat>)
    requires i <= |s| && k <= |p.alts|
    ensures r.Some? ==> k <= r.value < |p.alts| && AltMatchesAt(p, p.alts[r.value], s, i)
    ensures r.Some? ==> forall j :: k <= j < r.value ==> !AltMatchesAt(p, p.alts[j], s, i)
    ensures r.None? ==> forall j :: k <= j < |p.alts| ==> !AltMatchesAt(p, p.alts[j], s, i)
    decreases |p.alts| - k
  {
    if k == |p.alts| then None
    else if AltMatchesAt(p, p.alts[k], s, i) then Some(k)
    else MatchAt(p, s, i, k + 1)
  }

  /** `re.search(p, s)` from position `i` on: the leftmost position where
      the pattern matches, with the alternative that matched there. */
  function SearchFrom(p: AltPattern, s: string, i: nat): (r: Option<(nat, nat)>)
    requires i <= |s|
    ensures r.Some? ==> i <= r.value.0 <= |s| && MatchAt(p, s, r.value.0, 0) == Some(r.value.1)
    ensures r.Some? ==> forall q :: i <= q < r.value.0 ==> MatchAt(p, s, q, 0).None?
    ensures r.None? ==> forall q :: i <= q <= |s| ==> MatchAt(p, s, q, 0).None?
    decreases |s| - i
  {
    match MatchAt(p, s, i, 0)
    case Some(k) => Some((i, k))
    case None => if i == |s| then None else SearchFrom(p, s, i + 1)
  }

  function Search(p: AltPattern, s: string): Option<(nat, nat)>
  {
    SearchFrom(p, s, 0)
  }

  /** The search result is fixed by where the alternatives match: the first
      position with a match, and the first alternative matching there. */
  lemma SearchFinds(p: AltPattern, s: string, pos: nat, k: nat)
    requires pos <= |s| && k < |p.alts| && AltMatchesAt(p, p.alts[k], s, pos)
    requires forall j :: 0 <= j < k ==> !AltMatchesAt(p, p.alts[j], s, pos)
    requires forall q, j :: 0 <= q < pos && 0 <= j < |p.alts| ==> !AltMatchesAt(p, p.alts[j], s, q)
    ensures Search(p, s) == Some((pos, k))
  {
    var m := MatchAt(p, s, pos, 0);
    if m != Some(k) {
      assert false;
    }
    var r := Search(p, s);
    if r.None? || r.value.0 != pos {
      assert false;
    }
  }

  // ----- the two shapes of the legal-term pattern -----

  /** `(\b` + `l0|l1|…|ln` + `\b)`: the boundaries sit inside the group, so
      only the first alternative must start a word and only the last must
      end one. */
  function InnerBoundaries(lits: seq<string>): AltPattern
  {
    AltPattern(false, seq(|lits|, k requires 0 <= k < |lits| => Alt(k == 0, lits[k], k == |lits| - 1)), false)
  }

  /** `\b(` + `l0|l1|…|ln` + `)\b`: every alternative must be a whole word. */
  function OuterBoundaries(lits: seq<string>): AltPattern
  {
    AltPattern(true, seq(|lits|, k requires 0 <= k < |lits| => Alt(false, lits[k], false)), true)
  }

  /** With the boundaries outside the group, an alternative matches exactly
      where its literal occurs as a whole word. */
  lemma OuterMatchesWholeWord(lits: seq<string>, s: string, i: nat, k: nat)
    requires i <= |s| && k < |lits|
    ensures AltMatchesAt(OuterBoundaries(lits), OuterBoundaries(lits).alts[k], s, i) <==> WholeWordAt(s, lits[k], i)
  {
  }

  /** The search with the boundaries outside the group finds the leftmost
      whole-word occurrence of any literal, the first literal in list order
      when several start there; it finds nothing exactly when no literal
      occurs as a whole word. */
  lemma OuterSearch(lits: seq<string>, s: string)
    ensures var r := Search(OuterBoundaries(lits), s);
      && (r.Some? ==> r.value.1 < |lits| && WholeWordAt(s, lits[r.value.1], r.value.0))
      && (r.Some? ==> forall j :: 0 <= j < r.value.1 ==> !WholeWordAt(s, lits[j], r.value.0))
      && (r.Some? ==> forall q, j :: 0 <= q < r.value.0 && 0 <= j < |lits| ==> !WholeWordAt(s, lits[j], q))
      && (r.None? <==> forall q, j :: 0 <= q <= |s| && 0 <= j < |lits| ==> !WholeWordAt(s, lits[j], q))
  {
    var p := OuterBoundaries(lits);
    var r := Search(p, s);
    forall q, j | 0 <= q <= |s| && 0 <= j < |lits|
      ensures AltMatchesAt(p, p.alts[j], s, q) <==> WholeWordAt(s, lits[j], q)
    {
      OuterMatchesWholeWord(lits, s, q, j);
    }
    if r.Some? {
      var pos := r.value.0;
      var k := r.value.1;
      assert AltMatchesAt(p, p.alts[k], s, pos);
      forall q, j | 0 <= q < pos && 0 <= j < |lits| ensures !WholeWordAt(s, lits[j], q) {
        assert MatchAt(p, s, q, 0).None?;
        assert !AltMatchesAt(p, p.alts[j], s, q);
      }
    } else {
      forall q, j | 0 <= q <= |s| && 0 <= j < |lits| ensures !WholeWordAt(s, lits[j], q) {
        assert MatchAt(p, s, q, 0).None?;
        assert !AltMatchesAt(p, p.alts[j], s, q);
      }
    }
  }

  /** With the boundaries inside the group, the first of two alternatives
      matches where it merely starts a word: in "acme incorporated" the
      variants "inc" and "incorporated" give "inc", which ends inside the
      word, while with the boundaries outside the group the whole word
      "incorporated" is found. */
  lemma InnerBoundariesMatchInsideWord()
    ensures var s := "acme incorporated";
      var lits := ["inc", "incorporated"];
      && Search(InnerBoundaries(lits), s) == Some((5, 0))
      && !AtBoundary(s, 5 + |lits[0]|)
      && Search(OuterBoundaries(lits), s) == Some((5, 1))
  {
    var s := "acme incorporated";
    var lits := ["inc", "incorporated"];
    AcmeWords(s, lits);
    AcmeInner(s, lits);
    AcmeOuter(s, lits);
  }

  /** The search with the boundaries inside the group, on that name. */
  lemma AcmeInner(s: string, lits: seq<string>)
    requires s == "acme incorporated" && lits == ["inc", "incorporated"]
    requires forall q, j :: 0 <= q < 5 && 0 <= j < 2 ==> !OccursAt(s, lits[j], q)
    requires OccursAt(s, "inc", 5) && AtBoundary(s, 5)
    ensures Search(InnerBoundaries(lits), s) == Some((5, 0))
  {
    var inner := InnerBoundaries(lits);
    assert inner.alts[0] == Alt(true, "inc", false);
    SearchFinds(inner, s, 5, 0);
  }

  /** The search with the boundaries outside the group, on that name. */
  lemma AcmeOuter(s: string, lits: seq<string>)
    requires s == "acme incorporated" && lits == ["inc", "incorporated"]
    requires forall q, j :: 0 <= q < 5 && 0 <= j < 2 ==> !OccursAt(s, lits[j], q)
    requires OccursAt(s, "incorporated", 5) && AtBoundary(s, 5) && !AtBoundary(s, 8) && AtBoundary(s, 17)
    ensures Search(OuterBoundaries(lits), s) == Some((5, 1))
  {
    var outer := OuterBoundaries(lits);
    assert outer.alts[0] == Alt(false, "inc", false);
    assert outer.alts[1] == Alt(false, "incorporated", false);
    SearchFinds(outer, s, 5, 1);
  }

  /** Where the two variants occur in "acme incorporated", and where its
      word boundaries are. */
  lemma AcmeWords(s: string, lits: seq<string>)
    requires s == "acme incorporated" && lits == ["inc", "incorporated"]
    ensures forall q, j :: 0 <= q < 5 && 0 <= j < 2 ==> !OccursAt(s, lits[j], q)
    ensures OccursAt(s, "inc", 5) && OccursAt(s, "incorporated", 5)
    ensures AtBoundary(s, 5) && !AtBoundary(s, 8) && AtBoundary(s, 17)
  {
    assert s[5..8] == "inc";
    assert s[5..17] == "incorporated";
    forall q, j | 0 <= q < 5 && 0 <= j < 2 ensures !OccursAt(s, lits[j], q) {
      assert s[q] != lits[j][0] by {
        if q == 0 {} else if q == 1 {} else if q == 2 {} else if q == 3 {} else {}
      }
      assert q + |lits[j]| <= |s| ==> s[q..q + |lits[j]|][0] == s[q];
    }
  }
}
