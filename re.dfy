/** The regular-expression engine and the transliteration table.

    The cleaners hand patterns to Python's `re` module and accented text to
    `unidecode`; neither is defined by this model. They enter as a Runtime
    value: every operation that substitutes, searches or transliterates takes
    one, so every property proved here holds whatever the engine does.
    Only `re.escape`, which builds pattern text, is modelled exactly. */
module Re {
  import opened Py

  /** `sub(pattern, replacement, s)` is `re.sub(pattern, replacement, s)`;
      `search(pattern, s)` is `re.search(pattern, s)`, giving the text of the
      leftmost match (`match.group(0)`) or None; `unidecode(s)` is
      `unidecode.unidecode(s)`. */
  datatype Runtime = Runtime(
    sub: (string, string, string) -> string,
    search: (string, string) -> Option<string>,
    unidecode: string -> string)

  /** The characters `re.escape` prefixes with a backslash (Python 3.7 and later). */
  predicate IsReSpecial(c: char)
  {
    c in "()[]{}?*+-|^$\\.&~# \t\n\r\U{B}\U{C}"
  }

  /** `re.escape(s)`. */
  function ReEscape(s: string): (r: string)
    ensures |r| >= |s|
  {
    if s == [] then []
    else (if IsReSpecial(s[0]) then ['\\', s[0]] else [s[0]]) + ReEscape(s[1..])
  }

  /** Reads escaped pattern text back: a backslash takes the next character literally. */
  function ReUnescape(s: string): (r: string)
  {
    if |s| >= 2 && s[0] == '\\' then [s[1]] + ReUnescape(s[2..])
    else if s == [] then []
    else [s[0]] + ReUnescape(s[1..])
  }

  /** Escaped pattern text reads back as the original: `re.escape` loses nothing. */
  lemma {:induction false} ReEscapeRoundTrip(s: string)
    ensures ReUnescape(ReEscape(s)) == s
    decreases |s|
  {
    if s != [] {
      var rest := ReEscape(s[1..]);
      ReEscapeRoundTrip(s[1..]);
      if IsReSpecial(s[0]) {
        assert ReEscape(s) == ['\\', s[0]] + rest;
        assert (['\\', s[0]] + rest)[2..] == rest;
      } else {
        assert s[0] != '\\';
        assert ReEscape(s) == [s[0]] + rest;
        assert ([s[0]] + rest)[1..] == rest;
      }
    }
  }

  /** Every `|` of escaped text follows a backslash, so in a `|`-joined list
      of escaped variants the bare bars are exactly the separators. */
  lemma {:induction false} ReEscapeNoBareBar(s: string)
    ensures forall i :: 0 <= i < |ReEscape(s)| && ReEscape(s)[i] == '|' ==> i > 0 && ReEscape(s)[i - 1] == '\\'
    decreases |s|
  {
    if s != [] {
      ReEscapeNoBareBar(s[1..]);
      var head: string := if IsReSpecial(s[0]) then ['\\', s[0]] else [s[0]];
      assert ReEscape(s) == head + ReEscape(s[1..]);
      assert '|' in "()[]{}?*+-|^$\\.&~# \t\n\r\U{B}\U{C}";
    }
  }
}
