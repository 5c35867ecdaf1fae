/** The Python string operations the cleaners use, over characters.

    `str.isspace`, `strip`, `re.sub(r"\s+", " ", s)`, `re.sub(r"\s", "", s)`,
    `s.encode("ascii", "ignore").decode()`, `str.replace(".", "\\.")` and
    `str.partition` are modelled exactly. `lower`, `upper` and `title` are
    modelled on the ASCII letters only; every other character is left as is. */
module PyStr {
  import opened Py

  // ----- whitespace -----

  /** Python's `str.isspace()`, which is also what `\s` matches in a `str` pattern. */
  predicate IsSpace(c: char)
  {
    || c == ' '
    || ('\t' <= c <= '\r')
    || ('\U{1C}' <= c <= '\U{1F}')
    || c == '\U{85}'
    || c == '\U{A0}'
    || c == '\U{1680}'
    || ('\U{2000}' <= c <= '\U{200A}')
    || c == '\U{2028}'
    || c == '\U{2029}'
    || c == '\U{202F}'
    || c == '\U{205F}'
    || c == '\U{3000}'
  }

  /** `s.lstrip()`: the suffix left after the leading whitespace. */
  function LStrip(s: string): (r: string)
    ensures |r| <= |s| && r == s[|s| - |r|..]
    ensures r == [] || !IsSpace(r[0])
    ensures forall i :: 0 <= i < |s| - |r| ==> IsSpace(s[i])
  {
    if s != [] && IsSpace(s[0]) then LStrip(s[1..]) else s
  }

  /** `s.rstrip()`: the prefix left before the trailing whitespace. */
  function RStrip(s: string): (r: string)
    ensures |r| <= |s| && r == s[..|r|]
    ensures r == [] || !IsSpace(r[|r| - 1])
    ensures forall i :: |r| <= i < |s| ==> IsSpace(s[i])
  {
    if s != [] && IsSpace(s[|s| - 1]) then RStrip(s[..|s| - 1]) else s
  }

  /** `s.strip()`. */
  function Strip(s: string): (r: string)
    ensures Trimmed(r) && |r| <= |s|
  {
    var l := LStrip(s);
    assert RStrip(l) != [] ==> RStrip(l)[0] == l[0];
    RStrip(l)
  }

  /** Neither end of `s` is whitespace. */
  predicate Trimmed(s: string)
  {
    s == [] || (!IsSpace(s[0]) && !IsSpace(s[|s| - 1]))
  }

  /** Every whitespace character of `s` is a plain space and none is followed
      by another whitespace character. */
  predicate SingleSpaced(s: string)
  {
    forall i :: 0 <= i < |s| && IsSpace(s[i]) ==> s[i] == ' ' && (i + 1 < |s| ==> !IsSpace(s[i + 1]))
  }

  /** `re.sub(r"\s+", " ", s)`: every maximal whitespace run becomes one space. */
  function Collapse(s: string): (r: string)
    decreases |s|
  {
    if s == [] then []
    else if IsSpace(s[0]) then " " + Collapse(LStrip(s))
    else [s[0]] + Collapse(s[1..])
  }

  /** `re.sub(r"\s", "", s)`: `s` without any whitespace character. */
  function RemoveWhitespace(s: string): (r: string)
    ensures forall i :: 0 <= i < |r| ==> !IsSpace(r[i])
  {
    if s == [] then []
    else (if IsSpace(s[0]) then [] else [s[0]]) + RemoveWhitespace(s[1..])
  }

  // ----- ASCII -----

  predicate IsAscii(c: char)
  {
    c < '\U{80}'
  }

  /** `s.encode("ascii", "ignore").decode()`: the ASCII characters of `s`, in order. */
  function AsciiOnly(s: string): (r: string)
    ensures |r| <= |s|
    ensures forall i :: 0 <= i < |r| ==> IsAscii(r[i])
  {
    if s == [] then []
    else (if IsAscii(s[0]) then [s[0]] else []) + AsciiOnly(s[1..])
  }

  predicate IsUpperAscii(c: char) { 'A' <= c <= 'Z' }

  predicate IsLowerAscii(c: char) { 'a' <= c <= 'z' }

  predicate IsLetterAscii(c: char) { IsUpperAscii(c) || IsLowerAscii(c) }

  function LowerChar(c: char): char
  {
    if IsUpperAscii(c) then c - 'A' + 'a' else c
  }

  function UpperChar(c: char): char
  {
    if IsLowerAscii(c) then c - 'a' + 'A' else c
  }

  /** `s.lower()` on ASCII letters. */
  function Lower(s: string): (r: string)
    ensures |r| == |s|
    ensures forall i :: 0 <= i < |s| ==> r[i] == LowerChar(s[i])
  {
    seq(|s|, i requires 0 <= i < |s| => LowerChar(s[i]))
  }

  /** `s.upper()` on ASCII letters. */
  function Upper(s: string): (r: string)
    ensures |r| == |s|
    ensures forall i :: 0 <= i < |s| ==> r[i] == UpperChar(s[i])
  {
    seq(|s|, i requires 0 <= i < |s| => UpperChar(s[i]))
  }

  /** `s.title()` on ASCII letters: a letter is upper-cased when the character
      before it is not a letter and lower-cased otherwise; `prevCased` says
      whether the character before `s` was a letter. */
  function TitleFrom(s: string, prevCased: bool): (r: string)
    ensures |r| == |s|
  {
    if s == [] then []
    else if IsLetterAscii(s[0]) then
      [if prevCased then LowerChar(s[0]) else UpperChar(s[0])] + TitleFrom(s[1..], true)
    else
      [s[0]] + TitleFrom(s[1..], false)
  }

  function Title(s: string): (r: string)
    ensures |r| == |s|
  {
    TitleFrom(s, false)
  }

  // ----- dots, separators -----

  /** `s.replace(".", "\\.")`. */
  function EscapeDots(s: string): (r: string)
    ensures |r| >= |s|
  {
    if s == [] then []
    else (if s[0] == '.' then "\\." else [s[0]]) + EscapeDots(s[1..])
  }

  /** The inverse of EscapeDots: each `\.` read left to right becomes `.`. */
  function UnescapeDots(s: string): (r: string)
  {
    if |s| >= 2 && s[0] == '\\' && s[1] == '.' then "." + UnescapeDots(s[2..])
    else if s == [] then []
    else [s[0]] + UnescapeDots(s[1..])
  }

  /** `sep.join(parts)`. */
  function Join(sep: string, parts: seq<string>): (r: string)
  {
    if parts == [] then []
    else if |parts| == 1 then parts[0]
    else parts[0] + sep + Join(sep, parts[1..])
  }

  /** `t` occurs in `s` at position `i`. */
  predicate OccursAt(s: string, t: string, i: nat)
  {
    i + |t| <= |s| && s[i..i + |t|] == t
  }

  /** The position of the first occurrence of `t` in `s`, if any (`s.find(t)`). */
  function Find(s: string, t: string): (r: Option<nat>)
    ensures r.Some? ==> OccursAt(s, t, r.value) && forall j :: 0 <= j < r.value ==> !OccursAt(s, t, j)
    ensures r.None? ==> forall j: nat :: !OccursAt(s, t, j)
    decreases |s|
  {
    if |t| > |s| then None
    else if s[..|t|] == t then Some(0)
    else
      var rest := Find(s[1..], t);
      assert forall j: nat :: j > 0 ==> (OccursAt(s, t, j) <==> OccursAt(s[1..], t, j - 1)) by {
        forall j: nat | j > 0 ensures OccursAt(s, t, j) <==> OccursAt(s[1..], t, j - 1) {
          if j + |t| <= |s| {
            assert s[1..][j - 1..j - 1 + |t|] == s[j..j + |t|];
          }
        }
      }
      assert !OccursAt(s, t, 0);
      match rest
      case None => None
      case Some(k) => Some(k + 1)
  }

  /** `s.partition(sep)`: split around the first occurrence of `sep`; when
      `sep` does not occur, `(s, "", "")`; an empty `sep` raises ValueError. */
  function Partition(s: string, sep: string): (r: Result<(string, string, string)>)
    ensures sep == [] <==> r.Err?
    ensures r.Ok? ==> r.value.0 + r.value.1 + r.value.2 == s
    ensures r.Ok? && Find(s, sep).Some? ==> r.value.1 == sep && |r.value.0| == Find(s, sep).value
    ensures r.Ok? && Find(s, sep).None? ==> r.value == (s, "", "")
  {
    if sep == [] then Err(ValueError)
    else
      match Find(s, sep)
      case None => Ok((s, "", ""))
      case Some(i) =>
        assert s == s[..i] + sep + s[i + |sep|..];
        Ok((s[..i], sep, s[i + |sep|..]))
  }
  /** The first occurrence of `sep` decides where `partition` splits. */
  lemma PartitionAt(s: string, sep: string, i: nat)
    requires sep != [] && OccursAt(s, sep, i)
    requires forall j :: 0 <= j < i ==> !OccursAt(s, sep, j)
    ensures Partition(s, sep) == Ok((s[..i], sep, s[i + |sep|..]))
  {
    var f := Find(s, sep);
    assert f.Some? && f.value == i;
  }


  // ----- lemmas: strip and whitespace -----

  /** Where Strip(s) starts in `s`. */
  function StripStart(s: string): nat
  {
    |s| - |LStrip(s)|
  }

  /** strip removes whitespace at both ends and nothing else: the result is
      the slice of `s` between its leading and its trailing whitespace. */
  lemma StripSpec(s: string)
    ensures Trimmed(Strip(s))
    ensures StripStart(s) + |Strip(s)| <= |s|
    ensures Strip(s) == s[StripStart(s)..StripStart(s) + |Strip(s)|]
    ensures forall i :: 0 <= i < StripStart(s) ==> IsSpace(s[i])
    ensures forall i :: StripStart(s) + |Strip(s)| <= i < |s| ==> IsSpace(s[i])
  {
    var l := LStrip(s);
    TrailingSpaces(s, |s| - |l|, l, RStrip(l));
  }

  /** The whitespace RStrip drops from the suffix `l` of `s` is whitespace of `s`. */
  lemma TrailingSpaces(s: string, a: nat, l: string, r: string)
    requires a <= |s| && l == s[a..] && r == RStrip(l)
    ensures forall i :: a + |r| <= i < |s| ==> IsSpace(s[i])
  {
    forall i | a + |r| <= i < |s| ensures IsSpace(s[i]) {
      assert s[i] == l[i - a];
    }
  }

  /** A string that neither starts nor ends with whitespace is left alone by strip. */
  lemma StripTrimmed(s: string)
    requires Trimmed(s)
    ensures Strip(s) == s
  {
  }

  /** The first character of Collapse(s) is a space exactly when `s` starts
      with whitespace, and is `s[0]` otherwise. */
  lemma {:induction false} CollapseHead(s: string)
    ensures |Collapse(s)| == 0 <==> |s| == 0
    ensures s != [] && IsSpace(s[0]) ==> Collapse(s)[0] == ' '
    ensures s != [] && !IsSpace(s[0]) ==> Collapse(s)[0] == s[0]
  {
  }

  /** Collapse only writes plain spaces and characters of its input. */
  lemma {:induction false} CollapseChars(s: string)
    ensures forall c :: c in Collapse(s) ==> c == ' ' || c in s
    decreases |s|
  {
    if s != [] {
      var t := if IsSpace(s[0]) then LStrip(s) else s[1..];
      CollapseChars(t);
      SuffixChars(s, t);
      if IsSpace(s[0]) {
        assert Collapse(s) == " " + Collapse(t);
      } else {
        assert Collapse(s) == [s[0]] + Collapse(t);
      }
    }
  }

  /** A suffix holds no character its string lacks. */
  lemma SuffixChars(s: string, t: string)
    requires |t| <= |s| && t == s[|s| - |t|..]
    ensures forall c :: c in t ==> c in s
  {
    forall c | c in t ensures c in s {
      var k :| 0 <= k < |t| && t[k] == c;
      assert s[|s| - |t| + k] == c;
    }
  }


  /** After re.sub(r"\s+", " ", s) no two whitespace characters are adjacent
      and every whitespace character is a plain space. */
  lemma {:induction false} CollapseSingleSpaced(s: string)
    ensures SingleSpaced(Collapse(s))
    decreases |s|
  {
    if s != [] {
      if IsSpace(s[0]) {
        var t := LStrip(s);
        CollapseSingleSpaced(t);
        CollapseHead(t);
        assert Collapse(s) == " " + Collapse(t);
      } else {
        CollapseSingleSpaced(s[1..]);
        assert Collapse(s) == [s[0]] + Collapse(s[1..]);
      }
    }
  }

  /** A string already single-spaced is left alone by Collapse. */
  lemma {:induction false} CollapseFixed(s: string)
    requires SingleSpaced(s)
    ensures Collapse(s) == s
    decreases |s|
  {
    if s != [] {
      var t := s[1..];
      SingleSpacedTail(s);
      CollapseFixed(t);
      if IsSpace(s[0]) {
        SingleSpaceHead(s);
        assert Collapse(s) == " " + t;
      } else {
        assert Collapse(s) == [s[0]] + t;
      }
    }
  }

  /** A single-spaced string that starts with whitespace starts with one
      space, and stripping its left end removes just that space. */
  lemma SingleSpaceHead(s: string)
    requires s != [] && SingleSpaced(s) && IsSpace(s[0])
    ensures s[0] == ' ' && LStrip(s) == s[1..]
  {
    var t := s[1..];
    assert t == [] || !IsSpace(t[0]);
    assert LStrip(t) == t;
  }

  /** The tail of a single-spaced string is single-spaced. */
  lemma SingleSpacedTail(s: string)
    requires s != [] && SingleSpaced(s)
    ensures SingleSpaced(s[1..])
  {
    var t := s[1..];
    forall i | 0 <= i < |t| && IsSpace(t[i])
      ensures t[i] == ' ' && (i + 1 < |t| ==> !IsSpace(t[i + 1]))
    {
      assert t[i] == s[i + 1];
      assert i + 1 < |t| ==> t[i + 1] == s[i + 2];
    }
  }

  /** Collapse is idempotent. */
  lemma CollapseIdempotent(s: string)
    ensures Collapse(Collapse(s)) == Collapse(s)
  {
    CollapseSingleSpaced(s);
    CollapseFixed(Collapse(s));
  }

  /** Collapse keeps a trimmed string trimmed. */
  lemma {:induction false} CollapseTrimmed(s: string)
    requires Trimmed(s)
    ensures Trimmed(Collapse(s))
    decreases |s|
  {
    CollapseHead(s);
    if s != [] {
      if |s| == 1 {
        assert Collapse(s) == [s[0]] + Collapse([]);
      } else {
        var t := s[1..];
        assert t[|t| - 1] == s[|s| - 1];
        CollapseLast(t);
        assert Collapse(s) == [s[0]] + Collapse(t);
      }
    }
  }

  /** Collapse keeps a non-whitespace last character. */
  lemma {:induction false} CollapseLast(s: string)
    requires s != [] && !IsSpace(s[|s| - 1])
    ensures Collapse(s) != [] && Collapse(s)[|Collapse(s)| - 1] == s[|s| - 1]
    decreases |s|
  {
    if |s| == 1 {
      assert Collapse(s) == [s[0]] + Collapse([]);
    } else if IsSpace(s[0]) {
      var t := LStrip(s);
      assert t != [] && t[|t| - 1] == s[|s| - 1];
      CollapseLast(t);
      assert Collapse(s) == " " + Collapse(t);
    } else {
      var t := s[1..];
      assert t[|t| - 1] == s[|s| - 1];
      CollapseLast(t);
      assert Collapse(s) == [s[0]] + Collapse(t);
    }
  }

  /** Collapse changes whitespace only: deleting all whitespace from its
      result gives the same string as deleting it from its input. */
  lemma {:induction false} CollapseKeepsText(s: string)
    ensures RemoveWhitespace(Collapse(s)) == RemoveWhitespace(s)
    decreases |s|
  {
    if s != [] {
      if IsSpace(s[0]) {
        var t := LStrip(s);
        CollapseKeepsText(t);
        RemoveWhitespaceConcat(" ", Collapse(t));
        LStripKeepsText(s);
      } else {
        CollapseKeepsText(s[1..]);
        RemoveWhitespaceConcat([s[0]], Collapse(s[1..]));
      }
    }
  }

  lemma {:induction false} LStripKeepsText(s: string)
    ensures RemoveWhitespace(LStrip(s)) == RemoveWhitespace(s)
    decreases |s|
  {
    if s != [] && IsSpace(s[0]) {
      LStripKeepsText(s[1..]);
    }
  }

  lemma {:induction false} RemoveWhitespaceAllSpace(s: string)
    requires forall i :: 0 <= i < |s| ==> IsSpace(s[i])
    ensures RemoveWhitespace(s) == []
    decreases |s|
  {
    if s != [] {
      RemoveWhitespaceAllSpace(s[1..]);
    }
  }

  lemma {:induction false} RStripKeepsText(s: string)
    ensures RemoveWhitespace(RStrip(s)) == RemoveWhitespace(s)
  {
    var r := RStrip(s);
    var t := s[|r|..];
    assert s == r + t;
    forall i | 0 <= i < |t| ensures IsSpace(t[i]) {
      assert t[i] == s[|r| + i];
    }
    RemoveWhitespaceConcat(r, t);
    RemoveWhitespaceAllSpace(t);
  }

  /** strip deletes whitespace only. */
  lemma StripKeepsText(s: string)
    ensures RemoveWhitespace(Strip(s)) == RemoveWhitespace(s)
  {
    LStripKeepsText(s);
    RStripKeepsText(LStrip(s));
  }

  /** Lower-casing and deleting whitespace commute. */
  lemma {:induction false} LowerRemoveWhitespace(s: string)
    ensures RemoveWhitespace(Lower(s)) == Lower(RemoveWhitespace(s))
    decreases |s|
  {
    if s != [] {
      LowerRemoveWhitespace(s[1..]);
      assert Lower(s) == [LowerChar(s[0])] + Lower(s[1..]);
      var h: string := if IsSpace(s[0]) then [] else [s[0]];
      assert RemoveWhitespace(s) == h + RemoveWhitespace(s[1..]);
      assert Lower(h + RemoveWhitespace(s[1..])) == Lower(h) + Lower(RemoveWhitespace(s[1..]));
      assert (Lower(s))[1..] == Lower(s[1..]);
    }
  }

  lemma {:induction false} RemoveWhitespaceConcat(a: string, b: string)
    ensures RemoveWhitespace(a + b) == RemoveWhitespace(a) + RemoveWhitespace(b)
    decreases |a|
  {
    if a != [] {
      assert (a + b)[0] == a[0];
      assert (a + b)[1..] == a[1..] + b;
      RemoveWhitespaceConcat(a[1..], b);
      var h: string := if IsSpace(a[0]) then [] else [a[0]];
      assert RemoveWhitespace(a) == h + RemoveWhitespace(a[1..]);
      assert RemoveWhitespace(a + b) == h + (RemoveWhitespace(a[1..]) + RemoveWhitespace(b));
    } else {
      assert a + b == b;
    }
  }

  /** `re.sub(r"\s", "", s)` deletes exactly the whitespace characters: it
      distributes over concatenation, deletes a single whitespace character
      and keeps a single other one. */
  lemma RemoveWhitespaceSpec(a: string, b: string, c: char)
    ensures RemoveWhitespace(a + b) == RemoveWhitespace(a) + RemoveWhitespace(b)
    ensures RemoveWhitespace([c]) == if IsSpace(c) then [] else [c]
  {
    RemoveWhitespaceConcat(a, b);
  }

  // ----- lemmas: ASCII filter and case -----

  lemma {:induction false} AsciiOnlyConcat(a: string, b: string)
    ensures AsciiOnly(a + b) == AsciiOnly(a) + AsciiOnly(b)
    decreases |a|
  {
    if a != [] {
      assert (a + b)[0] == a[0];
      assert (a + b)[1..] == a[1..] + b;
      AsciiOnlyConcat(a[1..], b);
      var h: string := if IsAscii(a[0]) then [a[0]] else [];
      assert AsciiOnly(a) == h + AsciiOnly(a[1..]);
      assert AsciiOnly(a + b) == h + (AsciiOnly(a[1..]) + AsciiOnly(b));
    } else {
      assert a + b == b;
    }
  }

  /** The ASCII filter keeps exactly the ASCII characters, in order: it
      distributes over concatenation, keeps an ASCII character, drops any
      other, and leaves an all-ASCII string unchanged. */
  lemma AsciiOnlySpec(a: string, b: string, c: char)
    ensures AsciiOnly(a + b) == AsciiOnly(a) + AsciiOnly(b)
    ensures AsciiOnly([c]) == if IsAscii(c) then [c] else []
    ensures (forall i :: 0 <= i < |a| ==> IsAscii(a[i])) <==> AsciiOnly(a) == a
  {
    AsciiOnlyConcat(a, b);
    AsciiOnlyFixed(a);
  }

  lemma {:induction false} AsciiOnlyFixed(s: string)
    ensures (forall i :: 0 <= i < |s| ==> IsAscii(s[i])) <==> AsciiOnly(s) == s
    decreases |s|
  {
    if s != [] {
      AsciiOnlyFixed(s[1..]);
      if !IsAscii(s[0]) {
        assert |AsciiOnly(s)| <= |s[1..]|;
      } else {
        assert forall i :: 1 <= i < |s| ==> s[i] == s[1..][i - 1];
      }
    }
  }

  /** Lower-casing leaves whitespace where it was, so it keeps a trimmed
      string trimmed and a single-spaced string single-spaced. */
  lemma LowerKeepsSpaces(s: string)
    ensures forall i :: 0 <= i < |s| ==> (IsSpace(Lower(s)[i]) <==> IsSpace(s[i]))
    ensures Trimmed(s) ==> Trimmed(Lower(s))
  {
  }

  /** `title()` starts each run of letters with an upper-case letter and
      continues it in lower case, and changes nothing but letters. */
  lemma {:induction false} TitleSpec(s: string, prevCased: bool)
    ensures forall i :: 0 <= i < |s| && !IsLetterAscii(s[i]) ==> TitleFrom(s, prevCased)[i] == s[i]
    ensures forall i :: 0 <= i < |s| && IsLetterAscii(s[i]) ==>
      TitleFrom(s, prevCased)[i] == (if (if i == 0 then prevCased else IsLetterAscii(s[i - 1])) then LowerChar(s[i]) else UpperChar(s[i]))
    decreases |s|
  {
    if s != [] {
      var rest := TitleFrom(s[1..], IsLetterAscii(s[0]));
      TitleSpec(s[1..], IsLetterAscii(s[0]));
      assert TitleFrom(s, prevCased)[1..] == rest;
    }
  }

  // ----- lemmas: dots and partition -----

  lemma {:induction false} EscapeDotsHead(s: string)
    ensures EscapeDots(s) == [] || EscapeDots(s)[0] != '.'
  {
  }

  /** Unescaping an escaped string gives the original back. */
  lemma {:induction false} EscapeDotsRoundTrip(s: string)
    ensures UnescapeDots(EscapeDots(s)) == s
    decreases |s|
  {
    if s != [] {
      var rest := EscapeDots(s[1..]);
      EscapeDotsRoundTrip(s[1..]);
      if s[0] == '.' {
        assert EscapeDots(s) == "\\." + rest;
        assert ("\\." + rest)[2..] == rest;
      } else {
        EscapeDotsHead(s[1..]);
        assert EscapeDots(s) == [s[0]] + rest;
        assert ([s[0]] + rest)[1..] == rest;
      }
    }
  }

  /** Escaping leaves no bare dot: every '.' of the result follows a backslash. */
  lemma {:induction false} EscapeDotsNoBareDot(s: string)
    ensures forall i :: 0 <= i < |EscapeDots(s)| && EscapeDots(s)[i] == '.' ==> i > 0 && EscapeDots(s)[i - 1] == '\\'
    decreases |s|
  {
    if s != [] {
      EscapeDotsNoBareDot(s[1..]);
      var head: string := if s[0] == '.' then "\\." else [s[0]];
      assert EscapeDots(s) == head + EscapeDots(s[1..]);
    }
  }

  /** A string without dots is left alone by EscapeDots. */
  lemma {:induction false} EscapeDotsNoDot(s: string)
    requires '.' !in s
    ensures EscapeDots(s) == s
    decreases |s|
  {
    if s != [] {
      assert s[0] != '.';
      assert '.' !in s[1..] by {
        forall i | 0 <= i < |s[1..]| ensures s[1..][i] != '.' {
          assert s[1..][i] == s[i + 1];
        }
      }
      EscapeDotsNoDot(s[1..]);
    }
  }
}
