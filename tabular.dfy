/** The table driver: clean the name column of a table into a new column,
    choosing the legal-term dictionary row group by row group from a country
    column, and put the dictionary in use back afterwards. */
module Tabular {
  import opened Py
  import opened PyDict
  import opened PyStr
  import opened Re
  import opened RulePipeline
  import opened LegalForms
  import opened NameCleaning

  /** A row maps column names to cells; an absent cell reads as NaN. */
  type Row = map<string, Value>

  /** A table: its column names, in order, and its rows. */
  datatype Frame = Frame(columns: seq<string>, rows: seq<Row>)

  /** The columns a call works with: the names, the new output column and
      the country column ("" for none). */
  datatype Columns = Columns(name: string, out: string, country: string)

  /** What cleaning one name needs besides the dictionary in use. */
  datatype Cleaning = Cleaning(rt: Runtime, table: RuleTable, st: Settings)

  /** The legal-term sources of a cleaner: the folder, the manifest of
      supported countries and the default dictionary. */
  datatype Library = Library(folder: Folder, available: Dict<string, seq<string>>, default: LegalDict)

  /** How a country value is matched against the manifest: the current
      generation lower-cases `str(value)`; the older ones use the value as it
      is, and a null value never matches. */
  datatype CountryKey = Lowered | Raw

  function Cell(row: Row, c: string): Value
  {
    if c in row then row[c] else Null
  }

  function ColumnValues(rows: seq<Row>, c: string): (vs: seq<Value>)
    ensures |vs| == |rows|
    ensures forall i :: 0 <= i < |rows| ==> vs[i] == Cell(rows[i], c)
  {
    seq(|rows|, i requires 0 <= i < |rows| => Cell(rows[i], c))
  }

  /** The distinct values of `s` in the order of their first appearance
      (`Series.unique`); every value appears exactly once. */
  function Unique(s: seq<Value>): (u: seq<Value>)
    ensures forall x :: x in u <==> x in s
    ensures forall i, j :: 0 <= i < j < |u| ==> u[i] != u[j]
    decreases |s|
  {
    if s == [] then []
    else
      var init := s[..|s| - 1];
      var u := Unique(init);
      assert s == init + [s[|s| - 1]];
      if s[|s| - 1] in u then u else u + [s[|s| - 1]]
  }

  /** The copy with the output column added and set to NaN in every row. */
  function Prefill(df: Frame, out: string): (f: Frame)
    ensures out in f.columns && |f.rows| == |df.rows|
    ensures forall c :: c in df.columns ==> c in f.columns
    ensures forall i :: 0 <= i < |df.rows| ==> f.rows[i] == df.rows[i][out := Null]
  {
    Frame(if out in df.columns then df.columns else df.columns + [out],
          seq(|df.rows|, i requires 0 <= i < |df.rows| => df.rows[i][out := Null]))
  }

  /** The row mask of a country group: the null mask when `str(g)` is
      "nan", equality with `g` otherwise. */
  predicate Hits(g: Value, v: Value)
  {
    if StrOf(g) == "nan" then v.Null? else v == g
  }

  /** Whether the row is in the group `g` (every row when there is no group). */
  predicate InGroup(g: Option<Value>, row: Row, cols: Columns)
  {
    g.None? || Hits(g.value, Cell(row, cols.country))
  }

  /** The manifest key of a country value. */
  function KeyOf(keying: CountryKey, g: Value): (k: Option<string>)
    ensures keying == Lowered ==> k == Some(Lower(StrOf(g)))
    ensures keying == Raw ==> (k.Some? <==> g.Str?)
  {
    match keying
    case Lowered => Some(Lower(StrOf(g)))
    case Raw => if g.Str? then Some(g.s) else None
  }

  /** Cleaning the name cell of `row` with dictionary `d` and writing the
      result to the output cell. */
  function Cleaned(c: Cleaning, d: Option<LegalDict>, row: Row, cols: Columns): Result<Row>
  {
    WriteOut(row, cols.out, CleanName(c.rt, c.table, c.st, d, Cell(row, cols.name)))
  }

  /** The row with `v` written to its cell `out`, or the error. */
  function WriteOut(row: Row, out: string, v: Result<Value>): Result<Row>
  {
    if v.Err? then Err(v.error) else Ok(row[out := v.value])
  }

  /** The rows of group `g` cleaned with dictionary `d`, in row order,
      after the rows `acc` already done; the first failing row decides the
      error. */
  function CleanRowsFrom(c: Cleaning, d: Option<LegalDict>, rows: seq<Row>, cols: Columns, g: Option<Value>, acc: seq<Row>): Result<seq<Row>>
    decreases |rows|
  {
    if rows == [] then Ok(acc)
    else
      var next :- CleanRow(c, d, rows[0], cols, g);
      CleanRowsFrom(c, d, rows[1..], cols, g, acc + [next])
  }

  /** One iteration of the row loop: a failing row ends it with its error,
      any other row is appended. */
  lemma CleanRowsFromNext(c: Cleaning, d: Option<LegalDict>, rows: seq<Row>, cols: Columns, g: Option<Value>,
                          acc: seq<Row>, i: nat, row: Result<Row>)
    requires i < |rows| && row == CleanRow(c, d, rows[i], cols, g)
    ensures row.Err? ==> CleanRowsFrom(c, d, rows[i..], cols, g, acc) == Err(row.error)
    ensures row.Ok? ==> CleanRowsFrom(c, d, rows[i..], cols, g, acc) == CleanRowsFrom(c, d, rows[i + 1..], cols, g, acc + [row.value])
  {
    assert rows[i..][0] == rows[i] && rows[i..][1..] == rows[i + 1..];
  }

  function CleanRows(c: Cleaning, d: Option<LegalDict>, rows: seq<Row>, cols: Columns, g: Option<Value>): Result<seq<Row>>
  {
    CleanRowsFrom(c, d, rows, cols, g, [])
  }

  /** One row of the loop: cleaned when it is in the group, kept otherwise. */
  function CleanRow(c: Cleaning, d: Option<LegalDict>, row: Row, cols: Columns, g: Option<Value>): Result<Row>
  {
    if InGroup(g, row, cols) then Cleaned(c, d, row, cols) else Ok(row)
  }

  /** The dictionary swap for the group `g`: the default dictionary when
      the value has no key in the manifest, otherwise the selection of all
      the country's languages. */
  function Swap(lib: Library, keying: CountryKey, merge: bool, sel: Selection, g: Value): (Result<()>, Selection)
  {
    var key := KeyOf(keying, g);
    if key.None? || !HasKey(lib.available, key.value) then (Ok(()), sel.(current := Some(lib.default)))
    else SelectCurrent(lib.folder, lib.available, lib.default, sel, key.value, "", merge)
  }

  /** The dictionary a successful swap for `g` leaves in use; it does not
      depend on the selection before the swap (`SwapIgnoresSelection`). */
  function GroupDict(lib: Library, keying: CountryKey, merge: bool, g: Value): Option<LegalDict>
  {
    Swap(lib, keying, merge, Selection(None, "", ""), g).1.current
  }

  /** The loop over the country groups, each swapping the dictionary and
      then cleaning its rows of the table as left by the groups before it. */
  function GroupsFrom(c: Cleaning, lib: Library, keying: CountryKey, merge: bool, groups: seq<Value>,
                      sel: Selection, f: Frame, cols: Columns): (Result<Frame>, Selection)
    decreases |groups|
  {
    if groups == [] then (Ok(f), sel)
    else
      var swapped := Swap(lib, keying, merge, sel, groups[0]);
      if swapped.0.Err? then (Err(swapped.0.error), swapped.1)
      else
        var rows := CleanRows(c, swapped.1.current, f.rows, cols, Some(groups[0]));
        if rows.Err? then (Err(rows.error), swapped.1)
        else GroupsFrom(c, lib, keying, merge, groups[1..], swapped.1, f.(rows := rows.value), cols)
  }

  /** `clean_df`: the result table, or the error, and the selection left
      behind. The column checks come first and change nothing; on success
      the dictionary in use is put back, while the recorded country and
      language keep whatever the last swap wrote. */
  function CleanDf(c: Cleaning, lib: Library, keying: CountryKey, merge: bool, sel: Selection,
                   df: Frame, cols: Columns): (Result<Frame>, Selection)
  {
    if cols.name !in df.columns then (Err(CompanyNameNotFoundInDataFrame), sel)
    else if cols.country != "" && cols.country !in df.columns then (Err(CountryNotFoundInDataFrame), sel)
    else
      var pre := Prefill(df, cols.out);
      if cols.country == "" then
        var rows := CleanRows(c, sel.current, pre.rows, cols, None);
        if rows.Err? then (Err(rows.error), sel) else (Ok(pre.(rows := rows.value)), sel)
      else
        var groups := Unique(ColumnValues(pre.rows, cols.country));
        var run := GroupsFrom(c, lib, keying, merge, groups, sel, pre, cols);
        if run.0.Err? then run else (run.0, run.1.(current := sel.current))
  }

  // ----- the driver as the source writes it -----

  /** The masked `apply`: the row loop over one group. */
  method CleanGroup(c: Cleaning, d: Option<LegalDict>, rows: seq<Row>, cols: Columns, g: Option<Value>)
    returns (r: Result<seq<Row>>)
    ensures r == CleanRows(c, d, rows, cols, g)
  {
    var acc: seq<Row> := [];
    var i := 0;
    while i < |rows|
      invariant 0 <= i <= |rows|
      invariant CleanRows(c, d, rows, cols, g) == CleanRowsFrom(c, d, rows[i..], cols, g, acc)
    {
      var row := CleanOneRow(c, d, rows[i], cols, g);
      CleanRowsFromNext(c, d, rows, cols, g, acc, i, row);
      if row.Err? {
        return Err(row.error);
      }
      acc := acc + [row.value];
      i := i + 1;
    }
    return Ok(acc);
  }

  /** One row as the source handles it: its name cleaned into the output
      cell when the row is in the group. */
  method CleanOneRow(c: Cleaning, d: Option<LegalDict>, row: Row, cols: Columns, g: Option<Value>) returns (r: Result<Row>)
    ensures r == CleanRow(c, d, row, cols, g)
  {
    if !InGroup(g, row, cols) {
      return Ok(row);
    }
    var v := CleanValue(c.rt, c.table, c.st, d, Cell(row, cols.name));
    if v.Err? {
      return Err(v.error);
    }
    return Ok(row[cols.out := v.value]);
  }

  /** The dictionary swap for one country value, on the store's fields. */
  method SwapDictionary(keying: CountryKey, merge: bool, store: LegalTermStore, country: Value) returns (r: Result<()>)
    modifies store
    ensures (r, store.Selected())
      == Swap(Library(store.folder, store.available, old(store.defaultDict)), keying, merge, old(store.Selected()), country)
    ensures store.defaultDict == old(store.defaultDict)
  {
    var key := KeyOf(keying, country);
    if key.None? || !HasKey(store.available, key.value) {
      store.current := Some(store.defaultDict);
      return Ok(());
    }
    r := store.SetCurrentLegalTermDict(key.value, "", merge);
  }

  /** The loop over the distinct country values. */
  method CleanGroups(c: Cleaning, keying: CountryKey, merge: bool, store: LegalTermStore, countries: seq<Value>,
                     f: Frame, cols: Columns) returns (r: Result<Frame>)
    modifies store
    ensures (r, store.Selected())
      == GroupsFrom(c, Library(store.folder, store.available, old(store.defaultDict)), keying, merge, countries, old(store.Selected()), f, cols)
    ensures store.defaultDict == old(store.defaultDict)
  {
    ghost var lib := Library(store.folder, store.available, store.defaultDict);
    var frame := f;
    var k := 0;
    while k < |countries|
      invariant 0 <= k <= |countries|
      invariant store.defaultDict == old(store.defaultDict)
      invariant GroupsFrom(c, lib, keying, merge, countries, old(store.Selected()), f, cols)
        == GroupsFrom(c, lib, keying, merge, countries[k..], store.Selected(), frame, cols)
    {
      ghost var before := store.Selected();
      GroupsFromNext(c, lib, keying, merge, countries, k, before, frame, cols);
      var s := SwapDictionary(keying, merge, store, countries[k]);
      if s.Err? {
        return Err(s.error);
      }
      var rows := CleanGroup(c, store.current, frame.rows, cols, Some(countries[k]));
      if rows.Err? {
        return Err(rows.error);
      }
      frame := frame.(rows := rows.value);
      k := k + 1;
    }
    return Ok(frame);
  }

  /** One iteration of the group loop: swap, then clean the group's rows,
      then go on with the next group. */
  lemma GroupsFromNext(c: Cleaning, lib: Library, keying: CountryKey, merge: bool, groups: seq<Value>, k: nat,
                       sel: Selection, f: Frame, cols: Columns)
    requires k < |groups|
    ensures var sw := Swap(lib, keying, merge, sel, groups[k]);
      var rows := CleanRows(c, sw.1.current, f.rows, cols, Some(groups[k]));
      GroupsFrom(c, lib, keying, merge, groups[k..], sel, f, cols)
        == if sw.0.Err? then (Err(sw.0.error), sw.1)
           else if rows.Err? then (Err(rows.error), sw.1)
           else GroupsFrom(c, lib, keying, merge, groups[k + 1..], sw.1, f.(rows := rows.value), cols)
  {
    assert groups[k..][0] == groups[k];
    assert groups[k..][1..] == groups[k + 1..];
  }

  /** `clean_df` over the cleaner's dictionary fields in `store`. */
  method CleanDataFrame(c: Cleaning, keying: CountryKey, merge: bool, store: LegalTermStore, df: Frame, cols: Columns)
    returns (r: Result<Frame>)
    modifies store
    ensures (r, store.Selected())
      == CleanDf(c, Library(store.folder, store.available, old(store.defaultDict)), keying, merge, old(store.Selected()), df, cols)
    ensures store.defaultDict == old(store.defaultDict)
  {
    if cols.name !in df.columns {
      return Err(CompanyNameNotFoundInDataFrame);
    }
    var initial := store.current;
    if cols.country != "" && cols.country !in df.columns {
      return Err(CountryNotFoundInDataFrame);
    }
    var frame := Prefill(df, cols.out);
    if cols.country != "" {
      var countries := Unique(ColumnValues(frame.rows, cols.country));
      r := CleanGroups(c, keying, merge, store, countries, frame, cols);
      if r.Err? {
        return r;
      }
      frame := r.value;
    } else {
      var rows := CleanGroup(c, store.current, frame.rows, cols, None);
      if rows.Err? {
        return Err(rows.error);
      }
      frame := frame.(rows := rows.value);
    }
    store.current := initial;
    return Ok(frame);
  }

  // ----- lemmas -----


  /** The rows loop keeps every row and its order: a row in the group is
      cleaned, any other row is kept as it is, and the loop fails exactly
      when a row of the group fails. */
  lemma {:induction false} CleanRowsFromSpec(c: Cleaning, d: Option<LegalDict>, rows: seq<Row>, cols: Columns, g: Option<Value>, acc: seq<Row>)
    ensures var r := CleanRowsFrom(c, d, rows, cols, g, acc);
      && (r.Ok? <==> forall i :: 0 <= i < |rows| ==> CleanRow(c, d, rows[i], cols, g).Ok?)
      && (r.Ok? ==>
            (&& |r.value| == |acc| + |rows| && r.value[..|acc|] == acc
             && forall i :: 0 <= i < |rows| ==> CleanRow(c, d, rows[i], cols, g) == Ok(r.value[|acc| + i])))
    decreases |rows|
  {
    if rows != [] {
      var next := CleanRow(c, d, rows[0], cols, g);
      if next.Ok? {
        var acc1 := acc + [next.value];
        CleanRowsFromSpec(c, d, rows[1..], cols, g, acc1);
        var r := CleanRowsFrom(c, d, rows[1..], cols, g, acc1);
        assert forall i :: 1 <= i < |rows| ==> rows[i] == rows[1..][i - 1];
        if r.Ok? {
          assert r.value[..|acc|] == r.value[..|acc1|][..|acc|];
          forall i | 0 <= i < |rows| ensures CleanRow(c, d, rows[i], cols, g) == Ok(r.value[|acc| + i]) {
            if i == 0 {
              assert r.value[|acc|] == r.value[..|acc1|][|acc|];
            } else {
              assert r.value[|acc| + i] == r.value[|acc1| + (i - 1)];
            }
          }
        } else {
          var j :| 0 <= j < |rows[1..]| && !CleanRow(c, d, rows[1..][j], cols, g).Ok?;
          assert rows[1..][j] == rows[j + 1];
        }
      }
    }
  }

  /** `CleanRowsFromSpec` for the whole loop. */
  lemma CleanRowsSpec(c: Cleaning, d: Option<LegalDict>, rows: seq<Row>, cols: Columns, g: Option<Value>)
    ensures var r := CleanRows(c, d, rows, cols, g);
      && (r.Ok? <==> forall i :: 0 <= i < |rows| ==> CleanRow(c, d, rows[i], cols, g).Ok?)
      && (r.Ok? ==> |r.value| == |rows| && forall i :: 0 <= i < |rows| ==> CleanRow(c, d, rows[i], cols, g) == Ok(r.value[i]))
  {
    CleanRowsFromSpec(c, d, rows, cols, g, []);
  }

  /** Cleaning a row writes the output cell and nothing else. */
  lemma CleanedWritesOut(c: Cleaning, d: Option<LegalDict>, row: Row, cols: Columns)
    ensures Cleaned(c, d, row, cols).Ok? ==>
      Cleaned(c, d, row, cols).value == row[cols.out := CleanName(c.rt, c.table, c.st, d, Cell(row, cols.name)).value]
  {
  }

  /** What the output cell held before plays no part in cleaning a row. */
  lemma CleanedIgnoresOut(c: Cleaning, d: Option<LegalDict>, row: Row, cols: Columns, x: Value)
    requires cols.out != cols.name
    ensures Cleaned(c, d, row[cols.out := x], cols) == Cleaned(c, d, row, cols)
  {
    assert Cell(row[cols.out := x], cols.name) == Cell(row, cols.name);
    WriteOutTwice(row, cols.out, x, CleanName(c.rt, c.table, c.st, d, Cell(row, cols.name)));
  }

  lemma WriteOutTwice(row: Row, out: string, x: Value, v: Result<Value>)
    ensures WriteOut(row[out := x], out, v) == WriteOut(row, out, v)
  {
    if v.Ok? {
      assert row[out := x][out := v.value] == row[out := v.value];
    }
  }

  /** Whether a swap succeeds, and the selection it then leaves, do not
      depend on the selection before it. */
  lemma SwapIgnoresSelection(lib: Library, keying: CountryKey, merge: bool, s1: Selection, s2: Selection, g: Value)
    ensures Swap(lib, keying, merge, s1, g).0 == Swap(lib, keying, merge, s2, g).0
    ensures Swap(lib, keying, merge, s1, g).0.Ok? ==> Swap(lib, keying, merge, s1, g).1.current == Swap(lib, keying, merge, s2, g).1.current
  {
  }

  /** The group masks: a row whose country is not the string "nan" is in
      the group of its own value, and in no group of another value except
      the group of the string "nan" when the row's country is null; a row
      whose country is the string "nan" is in no group at all. */
  lemma HitsOwnGroup(g: Value, v: Value)
    ensures v != Str("nan") && g != Str("nan") ==> (Hits(g, v) <==> g == v)
    ensures v == Str("nan") ==> !Hits(g, v)
  {
  }

  /** The loop over the groups, for one row `i`: the row count stays, a row
      no group selects is left as it was, and a row is left as the last
      group that selects it cleaned it, with that group's dictionary. */
  lemma {:induction false} GroupsFromRow(c: Cleaning, lib: Library, keying: CountryKey, merge: bool, groups: seq<Value>,
                                         sel: Selection, f: Frame, cols: Columns, i: nat)
    requires cols.out != cols.name && cols.out != cols.country
    requires i < |f.rows|
    ensures var r := GroupsFrom(c, lib, keying, merge, groups, sel, f, cols).0;
      var v := Cell(f.rows[i], cols.country);
      r.Ok? ==>
        && |r.value.rows| == |f.rows|
        && ((forall k :: 0 <= k < |groups| ==> !Hits(groups[k], v)) ==> r.value.rows[i] == f.rows[i])
        && (forall k :: (0 <= k < |groups| && Hits(groups[k], v) && forall k' :: k < k' < |groups| ==> !Hits(groups[k'], v))
              ==> Cleaned(c, GroupDict(lib, keying, merge, groups[k]), f.rows[i], cols) == Ok(r.value.rows[i]))
    decreases |groups|
  {
    if groups == [] {
      return;
    }
    var swapped := Swap(lib, keying, merge, sel, groups[0]);
    if swapped.0.Err? {
      return;
    }
    var d := swapped.1.current;
    var rows := CleanRows(c, d, f.rows, cols, Some(groups[0]));
    if rows.Err? {
      return;
    }
    SwapIgnoresSelection(lib, keying, merge, sel, Selection(None, "", ""), groups[0]);
    assert d == GroupDict(lib, keying, merge, groups[0]);
    GroupRowStep(c, d, f.rows, cols, groups[0], i);
    var f1 := f.(rows := rows.value);
    var rest := groups[1..];
    GroupsFromRow(c, lib, keying, merge, rest, swapped.1, f1, cols, i);
    var r := GroupsFrom(c, lib, keying, merge, rest, swapped.1, f1, cols).0;
    assert r == GroupsFrom(c, lib, keying, merge, groups, sel, f, cols).0;
    var v := Cell(f.rows[i], cols.country);
    var row := f.rows[i];
    assert forall k :: 0 <= k < |rest| ==> rest[k] == groups[k + 1];
    if r.Ok? {
      forall k | 0 <= k < |groups| && Hits(groups[k], v) && (forall k' :: k < k' < |groups| ==> !Hits(groups[k'], v))
        ensures Cleaned(c, GroupDict(lib, keying, merge, groups[k]), row, cols) == Ok(r.value.rows[i])
      {
        if k == 0 {
          assert forall k2 :: 0 <= k2 < |rest| ==> !Hits(rest[k2], v);
        } else {
          assert rest[k - 1] == groups[k];
          assert forall k' :: k - 1 < k' < |rest| ==> !Hits(rest[k'], v);
        }
      }
    }
  }

  /** What cleaning one group does to row `i`: the row is kept when the group
      does not take it; otherwise its output cell holds what cleaning it with
      the group's dictionary gives, which any later cleaning overwrites. */
  lemma GroupRowStep(c: Cleaning, d: Option<LegalDict>, rows: seq<Row>, cols: Columns, g: Value, i: nat)
    requires cols.out != cols.name && cols.out != cols.country
    requires i < |rows|
    ensures var r := CleanRows(c, d, rows, cols, Some(g));
      var v := Cell(rows[i], cols.country);
      r.Ok? ==>
        && |r.value| == |rows|
        && Cell(r.value[i], cols.country) == v
        && (!Hits(g, v) ==> r.value[i] == rows[i])
        && (Hits(g, v) ==> Cleaned(c, d, rows[i], cols) == Ok(r.value[i]))
        && forall e :: Cleaned(c, e, r.value[i], cols) == Cleaned(c, e, rows[i], cols)
  {
    var r := CleanRows(c, d, rows, cols, Some(g));
    CleanRowsSpec(c, d, rows, cols, Some(g));
    if r.Ok? {
      var row := rows[i];
      if Hits(g, Cell(row, cols.country)) {
        CleanedWritesOut(c, d, row, cols);
        var x := CleanName(c.rt, c.table, c.st, d, Cell(row, cols.name)).value;
        assert r.value[i] == row[cols.out := x];
        forall e ensures Cleaned(c, e, r.value[i], cols) == Cleaned(c, e, row, cols) {
          CleanedIgnoresOut(c, e, row, cols, x);
        }
      } else {
        assert r.value[i] == row;
      }
    }
  }

  // ----- lemmas: clean_df -----

  /** A missing name column, or a missing country column when one is
      named, is reported before anything is copied or changed. */
  lemma CleanDfRejects(c: Cleaning, lib: Library, keying: CountryKey, merge: bool, sel: Selection, df: Frame, cols: Columns)
    ensures var (r, after) := CleanDf(c, lib, keying, merge, sel, df, cols);
      && (cols.name !in df.columns ==> r == Err(CompanyNameNotFoundInDataFrame) && after == sel)
      && ((cols.name in df.columns && cols.country != "" && cols.country !in df.columns)
            ==> r == Err(CountryNotFoundInDataFrame) && after == sel)
  {
  }

  /** A successful call puts the dictionary in use back; without a country
      column it changes no field at all. The result keeps every row, in
      order, and every column, and adds the output column. */
  lemma CleanDfRestores(c: Cleaning, lib: Library, keying: CountryKey, merge: bool, sel: Selection, df: Frame, cols: Columns)
    ensures var (r, after) := CleanDf(c, lib, keying, merge, sel, df, cols);
      r.Ok? ==>
        && after.current == sel.current
        && (cols.country == "" ==> after == sel)
        && |r.value.rows| == |df.rows|
        && cols.out in r.value.columns
        && (forall col :: col in df.columns ==> col in r.value.columns)
  {
    var (r, after) := CleanDf(c, lib, keying, merge, sel, df, cols);
    if r.Ok? && cols.country != "" {
      var pre := Prefill(df, cols.out);
      var groups := Unique(ColumnValues(pre.rows, cols.country));
      assert r == GroupsFrom(c, lib, keying, merge, groups, sel, pre, cols).0;
      GroupsColumns(c, lib, keying, merge, groups, sel, pre, cols);
    } else if r.Ok? {
      CleanRowsSpec(c, sel.current, Prefill(df, cols.out).rows, cols, None);
    }
  }

  /** The group loop changes rows only, never their number. */
  lemma {:induction false} GroupsColumns(c: Cleaning, lib: Library, keying: CountryKey, merge: bool, groups: seq<Value>,
                                         sel: Selection, f: Frame, cols: Columns)
    ensures var r := GroupsFrom(c, lib, keying, merge, groups, sel, f, cols).0;
      r.Ok? ==> r.value.columns == f.columns && |r.value.rows| == |f.rows|
    decreases |groups|
  {
    if groups != [] {
      var swapped := Swap(lib, keying, merge, sel, groups[0]);
      if swapped.0.Ok? {
        var rows := CleanRows(c, swapped.1.current, f.rows, cols, Some(groups[0]));
        if rows.Ok? {
          CleanRowsSpec(c, swapped.1.current, f.rows, cols, Some(groups[0]));
          GroupsColumns(c, lib, keying, merge, groups[1..], swapped.1, f.(rows := rows.value), cols);
        }
      }
    }
  }

  /** Without a country column every row is cleaned with the dictionary in
      use, and the call fails exactly when some row fails. */
  lemma CleanDfWithoutCountry(c: Cleaning, lib: Library, keying: CountryKey, merge: bool, sel: Selection, df: Frame, cols: Columns)
    requires cols.name in df.columns && cols.country == "" && cols.out != cols.name
    ensures var r := CleanDf(c, lib, keying, merge, sel, df, cols).0;
      && (r.Ok? <==> forall i :: 0 <= i < |df.rows| ==> Cleaned(c, sel.current, df.rows[i], cols).Ok?)
      && (r.Ok? ==>
            (&& |r.value.rows| == |df.rows|
             && forall i :: 0 <= i < |df.rows| ==> Cleaned(c, sel.current, df.rows[i], cols) == Ok(r.value.rows[i])))
  {
    var pre := Prefill(df, cols.out);
    CleanRowsSpec(c, sel.current, pre.rows, cols, None);
    forall i | 0 <= i < |df.rows|
      ensures CleanRow(c, sel.current, pre.rows[i], cols, None) == Cleaned(c, sel.current, df.rows[i], cols)
    {
      CleanedIgnoresOut(c, sel.current, df.rows[i], cols, Null);
    }
  }

  /** With a country column, each row whose country is a string other than
      "nan", or is null while no row holds the string "nan", is cleaned once,
      with the dictionary chosen for its own country value. */
  lemma CleanDfByCountry(c: Cleaning, lib: Library, keying: CountryKey, merge: bool, sel: Selection, df: Frame, cols: Columns, i: nat)
    requires cols.name in df.columns && cols.country != "" && cols.country in df.columns
    requires cols.out != cols.name && cols.out != cols.country
    requires i < |df.rows|
    requires var v := Cell(df.rows[i], cols.country);
      (v.Str? && v.s != "nan") || (v.Null? && Str("nan") !in ColumnValues(df.rows, cols.country))
    ensures var r := CleanDf(c, lib, keying, merge, sel, df, cols).0;
      r.Ok? ==>
        && |r.value.rows| == |df.rows|
        && Cleaned(c, GroupDict(lib, keying, merge, Cell(df.rows[i], cols.country)), df.rows[i], cols) == Ok(r.value.rows[i])
  {
    var pre := Prefill(df, cols.out);
    var vs := ColumnValues(pre.rows, cols.country);
    var groups := Unique(vs);
    var v := Cell(df.rows[i], cols.country);
    assert Cell(pre.rows[i], cols.country) == v;
    assert vs[i] == v;
    assert v in vs;
    var k :| 0 <= k < |groups| && groups[k] == v;
    forall k' | k < k' < |groups| ensures !Hits(groups[k'], v) {
      if v.Null? {
        assert groups[k'] in vs;
        var j :| 0 <= j < |vs| && vs[j] == groups[k'];
        assert Cell(pre.rows[j], cols.country) == Cell(df.rows[j], cols.country);
        assert ColumnValues(df.rows, cols.country)[j] == groups[k'];
      }
    }
    GroupsFromRow(c, lib, keying, merge, groups, sel, pre, cols, i);
    CleanedIgnoresOut(c, GroupDict(lib, keying, merge, v), df.rows[i], cols, Null);
  }

  /** A row whose country is the string "nan" falls in no group's mask, so
      its output cell stays NaN. */
  lemma CleanDfNanCountry(c: Cleaning, lib: Library, keying: CountryKey, merge: bool, sel: Selection, df: Frame, cols: Columns, i: nat)
    requires cols.name in df.columns && cols.country != "" && cols.country in df.columns
    requires cols.out != cols.name && cols.out != cols.country
    requires i < |df.rows| && Cell(df.rows[i], cols.country) == Str("nan")
    ensures var r := CleanDf(c, lib, keying, merge, sel, df, cols).0;
      r.Ok? ==> |r.value.rows| == |df.rows| && r.value.rows[i] == df.rows[i][cols.out := Null]
  {
    var pre := Prefill(df, cols.out);
    var groups := Unique(ColumnValues(pre.rows, cols.country));
    assert Cell(pre.rows[i], cols.country) == Str("nan");
    GroupsFromRow(c, lib, keying, merge, groups, sel, pre, cols, i);
  }
}
