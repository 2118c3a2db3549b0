/** Classification of the columns of a query result and the choice of the chart axes
    (src/tools/chart_generator.py, lines 81-118). Whether `pd.to_datetime` accepts a column
    is a parameter, `parsesAsDates`. */
module Columns {
  import opened Wrappers

  /** The pandas dtype families the classification distinguishes. */
  datatype DType =
    | Number     // the dtypes `select_dtypes(include=['number'])` picks
    | DateTime   // datetime64, with or without a time zone
    | Object     // Python objects: how `read_sql` returns text
    | StringExt  // pandas' own 'string' dtype
    | OtherType  // bool, category and the rest

  /** One value of a result column. */
  datatype Cell = Missing | Num(n: int) | Text(s: string) | Stamp(ticks: int)

  datatype Column = Column(name: string, dtype: DType, cells: seq<Cell>)

  /** A query result: its columns in order and its number of rows (`len(df)`). */
  datatype Table = Table(columns: seq<Column>, rows: nat)

  /** `df.empty`: a frame with no rows or no columns. */
  predicate IsEmpty(t: Table)
  {
    t.rows == 0 || t.columns == []
  }

  /** The three column lists the generator builds. */
  datatype Selector =
    | Numeric                                            // numeric_cols, line 81
    | Textual                                            // categorical_cols before line 106
    | Dates(rows: nat, parsesAsDates: Column -> bool)    // date_cols, lines 85-103

  predicate Selects(sel: Selector, c: Column)
  {
    match sel
    case Numeric => c.dtype == Number
    case Textual => c.dtype == Object || c.dtype == StringExt
    case Dates(rows, parsesAsDates) =>
      c.dtype == DateTime || (rows > 0 && c.dtype == Object && parsesAsDates(c))
  }

  /** Column `i` is the first one `sel` picks. */
  ghost predicate FirstSelected(cols: seq<Column>, sel: Selector, i: int)
  {
    0 <= i < |cols| && Selects(sel, cols[i]) && forall j :: 0 <= j < i ==> !Selects(sel, cols[j])
  }

  /** The names of the columns `sel` picks, in column order. */
  function NamesIn(cols: seq<Column>, sel: Selector): (names: seq<string>)
    ensures |names| <= |cols|
  {
    if cols == [] then []
    else NamesIn(cols[..|cols| - 1], sel) + (if Selects(sel, cols[|cols| - 1]) then [cols[|cols| - 1].name] else [])
  }

  /** What `NamesIn` picks: exactly the names of the selected columns, none when no column is
      selected, and first the name of the first selected column. */
  lemma {:induction false} NamesInPicks(cols: seq<Column>, sel: Selector)
    ensures forall n :: n in NamesIn(cols, sel) <==> exists i :: 0 <= i < |cols| && cols[i].name == n && Selects(sel, cols[i])
    ensures NamesIn(cols, sel) != [] <==> exists i :: 0 <= i < |cols| && Selects(sel, cols[i])
    ensures NamesIn(cols, sel) != [] ==> exists i :: FirstSelected(cols, sel, i) && NamesIn(cols, sel)[0] == cols[i].name
  {
    if cols != [] {
      var init := cols[..|cols| - 1];
      var last := cols[|cols| - 1];
      NamesInPicks(init, sel);
      assert forall i :: 0 <= i < |init| ==> init[i] == cols[i];
      assert NamesIn(init, sel) == [] && Selects(sel, last) ==> FirstSelected(cols, sel, |cols| - 1);
    }
  }

  /** Lines 85-103: the date columns, collected by one pass over the columns. */
  method DateColumns(t: Table, parsesAsDates: Column -> bool) returns (dates: seq<string>)
    ensures dates == NamesIn(t.columns, Dates(t.rows, parsesAsDates))
  {
    dates := [];
    for i := 0 to |t.columns|
      invariant dates == NamesIn(t.columns[..i], Dates(t.rows, parsesAsDates))
    {
      var col := t.columns[i];
      assert t.columns[..i + 1][..i] == t.columns[..i];
      if col.dtype == DateTime {
        dates := dates + [col.name];
      } else if t.rows > 0 && col.dtype == Object {
        if parsesAsDates(col) {
          dates := dates + [col.name];
        }
      }
    }
    assert t.columns[..|t.columns|] == t.columns;
  }

  /** Line 106: the names of `names` that are not in `excluded`, in order. */
  function Without(names: seq<string>, excluded: seq<string>): (kept: seq<string>)
    ensures |kept| <= |names|
  {
    if names == [] then []
    else (if names[0] in excluded then [] else [names[0]]) + Without(names[1..], excluded)
  }

  /** `Without` keeps exactly the names that are not excluded, and all of them when nothing is. */
  lemma {:induction false} WithoutKeeps(names: seq<string>, excluded: seq<string>)
    ensures forall n :: n in Without(names, excluded) <==> n in names && n !in excluded
    ensures excluded == [] ==> Without(names, excluded) == names
  {
    if names != [] {
      WithoutKeeps(names[1..], excluded);
      assert names == [names[0]] + names[1..];
    }
  }

  /** The x and y column the chart is drawn on. */
  datatype Axes = Axes(x: string, y: string)

  /** Lines 105-118: y is the first numeric column; x the first date column, else the first
      categorical one, else the first column. `None` when there is no numeric column. */
  function ChooseAxes(cols: seq<Column>, dates: seq<string>): Option<Axes>
  {
    var numeric := NamesIn(cols, Numeric);
    var categorical := Without(NamesIn(cols, Textual), dates);
    if numeric == [] then None
    else
      var x := if dates != [] then dates[0] else if categorical != [] then categorical[0] else cols[0].name;
      Some(Axes(x, numeric[0]))
  }

  /** Lines 105-118 as the source runs them: the categorical list is filtered, then y and x are
      assigned one after the other. */
  method SelectAxes(cols: seq<Column>, dates: seq<string>) returns (axes: Option<Axes>)
    ensures axes == ChooseAxes(cols, dates)
  {
    var numeric := NamesIn(cols, Numeric);
    var categorical := Without(NamesIn(cols, Textual), dates);
    axes := None;
    if |numeric| > 0 {
      var y := numeric[0];
      var x;
      if |dates| > 0 {
        x := dates[0];
      } else if |categorical| > 0 {
        x := categorical[0];
      } else {
        x := cols[0].name;
      }
      axes := Some(Axes(x, y));
    }
  }

  /** The classification behind the axes: the categorical list never holds a date column's name. */
  lemma CategoricalExcludesDates(cols: seq<Column>, rows: nat, parsesAsDates: Column -> bool)
    ensures forall n :: n in Without(NamesIn(cols, Textual), NamesIn(cols, Dates(rows, parsesAsDates))) ==>
              (exists i :: 0 <= i < |cols| && cols[i].name == n && Selects(Textual, cols[i]))
              && forall i :: 0 <= i < |cols| && Selects(Dates(rows, parsesAsDates), cols[i]) ==> cols[i].name != n
  {
    NamesInPicks(cols, Textual);
    NamesInPicks(cols, Dates(rows, parsesAsDates));
    WithoutKeeps(NamesIn(cols, Textual), NamesIn(cols, Dates(rows, parsesAsDates)));
  }

  /** What the chosen axes are, in terms of the column classes. */
  lemma AxesFollowClasses(cols: seq<Column>, rows: nat, parsesAsDates: Column -> bool)
    ensures ChooseAxes(cols, NamesIn(cols, Dates(rows, parsesAsDates))).None? <==>
              forall i :: 0 <= i < |cols| ==> !Selects(Numeric, cols[i])
    ensures ChooseAxes(cols, NamesIn(cols, Dates(rows, parsesAsDates))).Some? ==>
              exists i :: FirstSelected(cols, Numeric, i)
                && ChooseAxes(cols, NamesIn(cols, Dates(rows, parsesAsDates))).value.y == cols[i].name
    ensures ChooseAxes(cols, NamesIn(cols, Dates(rows, parsesAsDates))).Some? ==>
              if exists i :: 0 <= i < |cols| && Selects(Dates(rows, parsesAsDates), cols[i]) then
                exists i :: FirstSelected(cols, Dates(rows, parsesAsDates), i)
                  && ChooseAxes(cols, NamesIn(cols, Dates(rows, parsesAsDates))).value.x == cols[i].name
              else if exists i :: 0 <= i < |cols| && Selects(Textual, cols[i]) then
                exists i :: FirstSelected(cols, Textual, i)
                  && ChooseAxes(cols, NamesIn(cols, Dates(rows, parsesAsDates))).value.x == cols[i].name
              else
                ChooseAxes(cols, NamesIn(cols, Dates(rows, parsesAsDates))).value.x == cols[0].name
  {
    NamesInPicks(cols, Numeric);
    NamesInPicks(cols, Textual);
    NamesInPicks(cols, Dates(rows, parsesAsDates));
    CategoricalExcludesDates(cols, rows, parsesAsDates);
    WithoutKeeps(NamesIn(cols, Textual), NamesIn(cols, Dates(rows, parsesAsDates)));
  }

  /** With every column numeric the same column is both axes: the first one. */
  lemma AllNumericSharesAxis(cols: seq<Column>, rows: nat, parsesAsDates: Column -> bool)
    requires cols != [] && forall i :: 0 <= i < |cols| ==> cols[i].dtype == Number
    ensures ChooseAxes(cols, NamesIn(cols, Dates(rows, parsesAsDates))) == Some(Axes(cols[0].name, cols[0].name))
  {
    AxesFollowClasses(cols, rows, parsesAsDates);
    assert forall i :: 0 <= i < |cols| ==> !Selects(Dates(rows, parsesAsDates), cols[i]) && !Selects(Textual, cols[i]);
    assert Selects(Numeric, cols[0]);
  }

  /** A text column whose values all parse as dates is a date column and becomes x, with the
      numeric column as y. */
  lemma TextDatesBecomeXAxis(dateCol: Column, valueCol: Column, rows: nat, parsesAsDates: Column -> bool)
    requires dateCol.dtype == Object && parsesAsDates(dateCol) && rows > 0
    requires valueCol.dtype == Number
    ensures NamesIn([dateCol, valueCol], Dates(rows, parsesAsDates)) == [dateCol.name]
    ensures ChooseAxes([dateCol, valueCol], NamesIn([dateCol, valueCol], Dates(rows, parsesAsDates)))
              == Some(Axes(dateCol.name, valueCol.name))
  {
    var cols := [dateCol, valueCol];
    assert cols[..1] == [dateCol];
    assert [dateCol][..0] == [];
    assert NamesIn(cols, Numeric) == [valueCol.name];
  }
}
