/** `convert_df_types`: the currency, percentage and count columns are rewritten cell by
    cell before the upload. One variable, `temp_val`, carries the value written to each
    cell; a cell that none of the branches handles gets whatever that variable last
    held (the previous cell's value, possibly from another column or group), and raises
    UnboundLocalError when nothing was written before it. */
module TypeCoercion {
  import opened Python
  import opened Table
  import opened Schema

  /** The three column groups, converted in this order. */
  datatype Group = Currency | Percentage | Count

  /** The columns of each group, in the order the code lists them. */
  function GroupColumns(g: Group): (cols: seq<Column>)
    ensures forall i :: 0 <= i < |cols| ==> cols[i] != PercentLeased && cols[i] != Amenities
  {
    match g
    case Currency =>
      [Bedroom(OneBed, AskingRent), Bedroom(TwoBed, AskingRent), Bedroom(ThreeBed, AskingRent),
       Bedroom(FourBed, AskingRent), Bedroom(Studio, AskingRent),
       Bedroom(OneBed, EffectiveRent), Bedroom(TwoBed, EffectiveRent), Bedroom(ThreeBed, EffectiveRent),
       Bedroom(FourBed, EffectiveRent), Bedroom(Studio, EffectiveRent)]
    case Percentage =>
      [Bedroom(OneBed, Concessions), Bedroom(TwoBed, Concessions), Bedroom(ThreeBed, Concessions),
       Bedroom(FourBed, Concessions), Bedroom(Studio, Concessions)]
    case Count =>
      [Bedroom(OneBed, AvgArea), Bedroom(TwoBed, AvgArea), Bedroom(ThreeBed, AvgArea),
       Bedroom(FourBed, AvgArea), Bedroom(Studio, AvgArea),
       Bedroom(OneBed, UnitCount), Bedroom(TwoBed, UnitCount), Bedroom(ThreeBed, UnitCount),
       Bedroom(FourBed, UnitCount), Bedroom(Studio, UnitCount), NumberOfUnits]
  }

  /** A column some group converts. */
  predicate Converted(c: Column)
  {
    c in GroupColumns(Currency) || c in GroupColumns(Percentage) || c in GroupColumns(Count)
  }

  /** The cells `convert_df_types` can produce. */
  predicate IsConvertedValue(c: Cell)
  {
    c.Null? || c.Int? || c.Real?
  }

  /** The branch taken for one cell: `Some(v)` when a branch assigns `v` to `temp_val`,
      `None` when no branch does (`temp_val` keeps its value). A null cell gives null;
      `len()` of a cell that is not text raises TypeError; the parse errors of `int()` and
      `float()` are not caught.
        currency:   longer than 3 characters: drop the first, remove ',', `int()`;
        percentage: longer than 1 character: drop the last, `float()`;
        count:      non-empty: '-' gives null, otherwise remove ',', `int()`. */
  function Assigned(g: Group, cell: Cell, parseFloat: string -> Option<real>): (r: Result<Option<Cell>>)
    ensures cell.Null? ==> r == Ok(Some(Null))
    ensures !cell.Null? && !cell.Text? ==> r == Raise(TypeError)
    ensures r.Raise? ==> r.error in {TypeError, ValueError}
    ensures r.Ok? && r.value.Some? ==> IsConvertedValue(r.value.value)
    ensures r == Ok(None) <==> cell.Text? && |cell.s| <= (match g case Currency => 3 case Percentage => 1 case Count => 0)
    ensures g == Currency && cell.Text? && |cell.s| > 3 ==>
              && (r.Ok? <==> IntOfString(Without(cell.s[1..], ',')).Ok?)
              && (r.Ok? ==> r.value == Some(Int(IntOfString(Without(cell.s[1..], ',')).value)))
    ensures g == Percentage && cell.Text? && |cell.s| > 1 ==>
              && (r.Ok? <==> parseFloat(SliceTo(cell.s, -1)).Some?)
              && (r.Ok? ==> r.value == Some(Real(parseFloat(SliceTo(cell.s, -1)).value)))
    ensures g == Count && cell == Text("-") ==> r == Ok(Some(Null))
    ensures g == Count && cell.Text? && cell.s != "" && cell.s != "-" ==>
              && (r.Ok? <==> IntOfString(Without(cell.s, ',')).Ok?)
              && (r.Ok? ==> r.value == Some(Int(IntOfString(Without(cell.s, ',')).value)))
  {
    match cell
    case Null => Ok(Some(Null))
    case Text(s) =>
      (match g
       case Currency =>
         if |s| > 3 then
           ReplaceCharIsWithout(s[1..], ',');
           var n :- IntOfString(Replace(s[1..], ",", ""));
           Ok(Some(Int(n)))
         else Ok(None)
       case Percentage =>
         if |s| > 1 then
           (match parseFloat(s[..|s| - 1])
            case Some(x) => Ok(Some(Real(x)))
            case None => Raise(ValueError))
         else Ok(None)
       case Count =>
         if |s| > 0 then
           if s == "-" then Ok(Some(Null))
           else
             ReplaceCharIsWithout(s, ',');
             var n :- IntOfString(Replace(s, ",", ""));
             Ok(Some(Int(n)))
         else Ok(None))
    case _ => Raise(TypeError)
  }

  /** The value written to one cell, given what `temp_val` held before it. */
  function Written(g: Group, cell: Cell, temp: Option<Cell>, parseFloat: string -> Option<real>): (r: Result<Cell>)
    ensures Assigned(g, cell, parseFloat) == Ok(None) ==>
              r == (if temp.Some? then Ok(temp.value) else Raise(UnboundLocalError))
    ensures Assigned(g, cell, parseFloat).Ok? && Assigned(g, cell, parseFloat).value.Some? ==>
              r == Ok(Assigned(g, cell, parseFloat).value.value)
    ensures Assigned(g, cell, parseFloat).Raise? ==> r == Raise(Assigned(g, cell, parseFloat).error)
  {
    var branch :- Assigned(g, cell, parseFloat);
    match branch
    case Some(v) => Ok(v)
    case None => if temp.Some? then Ok(temp.value) else Raise(UnboundLocalError)
  }

  /** What `temp_val` holds after a run of writes that started with it holding `temp`. */
  function LastOr(written: seq<Cell>, temp: Option<Cell>): Option<Cell>
  {
    if written == [] then temp else Some(written[|written| - 1])
  }

  /** The values written down one column, in row order, when `temp_val` held `temp`
      before the column. */
  function ConvertCells(g: Group, cells: seq<Cell>, temp: Option<Cell>, parseFloat: string -> Option<real>): (r: Result<seq<Cell>>)
    ensures r.Ok? ==> |r.value| == |cells|
    ensures r.Ok? && (temp.None? || IsConvertedValue(temp.value)) ==>
              forall i :: 0 <= i < |r.value| ==> IsConvertedValue(r.value[i])
  {
    if cells == [] then Ok([])
    else
      var before :- ConvertCells(g, cells[..|cells| - 1], temp, parseFloat);
      var v :- Written(g, cells[|cells| - 1], LastOr(before, temp), parseFloat);
      Ok(before + [v])
  }

  /** One column: `df[col]` raises KeyError when the frame lacks it; otherwise every row's
      cell is rewritten. Returns the frame and what `temp_val` holds afterwards. */
  function ColumnSpec(g: Group, df: Frame, col: Column, temp: Option<Cell>, parseFloat: string -> Option<real>): (r: Result<(Frame, Option<Cell>)>)
    ensures r.Ok? ==> r.value.0.columns == df.columns && |r.value.0.rows| == |df.rows|
  {
    if col !in df.columns then Raise(KeyError)
    else
      var vals :- ConvertCells(g, CellsOf(df, col), temp, parseFloat);
      Ok((SetColumn(df, col, vals), LastOr(vals, temp)))
  }

  /** A group's columns, one after the other. */
  function GroupSpec(g: Group, df: Frame, cols: seq<Column>, temp: Option<Cell>, parseFloat: string -> Option<real>): (r: Result<(Frame, Option<Cell>)>)
    ensures r.Ok? ==> r.value.0.columns == df.columns && |r.value.0.rows| == |df.rows|
  {
    if cols == [] then Ok((df, temp))
    else
      var (mid, t) :- GroupSpec(g, df, cols[..|cols| - 1], temp, parseFloat);
      ColumnSpec(g, mid, cols[|cols| - 1], t, parseFloat)
  }

  /** `convert_df_types(df)`: currency, then percentage, then count, with `temp_val`
      unbound at the start and carried from group to group. */
  function ConvertTypesSpec(df: Frame, parseFloat: string -> Option<real>): (r: Result<Frame>)
    ensures r.Ok? ==> r.value.columns == df.columns && |r.value.rows| == |df.rows|
  {
    var (d1, t1) :- GroupSpec(Currency, df, GroupColumns(Currency), None, parseFloat);
    var (d2, t2) :- GroupSpec(Percentage, d1, GroupColumns(Percentage), t1, parseFloat);
    var (d3, _) :- GroupSpec(Count, d2, GroupColumns(Count), t2, parseFloat);
    Ok(d3)
  }

  /** Once a prefix of a column fails, the whole column fails with the same error. */
  lemma {:induction false} ConvertCellsPrefixFails(g: Group, cells: seq<Cell>, k: nat, temp: Option<Cell>, parseFloat: string -> Option<real>)
    requires k <= |cells|
    requires ConvertCells(g, cells[..k], temp, parseFloat).Raise?
    ensures ConvertCells(g, cells, temp, parseFloat) == ConvertCells(g, cells[..k], temp, parseFloat)
    decreases |cells| - k
  {
    if k < |cells| {
      var front := cells[..|cells| - 1];
      assert front[..k] == cells[..k];
      ConvertCellsPrefixFails(g, front, k, temp, parseFloat);
    } else {
      assert cells[..k] == cells;
    }
  }

  /** Once a prefix of a group's columns fails, the whole group fails with the same error. */
  lemma {:induction false} GroupSpecPrefixFails(g: Group, df: Frame, cols: seq<Column>, k: nat, temp: Option<Cell>, parseFloat: string -> Option<real>)
    requires k <= |cols|
    requires GroupSpec(g, df, cols[..k], temp, parseFloat).Raise?
    ensures GroupSpec(g, df, cols, temp, parseFloat) == GroupSpec(g, df, cols[..k], temp, parseFloat)
    decreases |cols| - k
  {
    if k < |cols| {
      var front := cols[..|cols| - 1];
      assert front[..k] == cols[..k];
      GroupSpecPrefixFails(g, df, front, k, temp, parseFloat);
    } else {
      assert cols[..k] == cols;
    }
  }

  /** One more cell, when its write succeeds: the column's writes so far, then that value. */
  lemma ConvertCellsExtend(g: Group, cells: seq<Cell>, i: nat, temp: Option<Cell>, parseFloat: string -> Option<real>,
                           written: seq<Cell>, v: Cell)
    requires i < |cells|
    requires ConvertCells(g, cells[..i], temp, parseFloat) == Ok(written)
    requires Written(g, cells[i], LastOr(written, temp), parseFloat) == Ok(v)
    ensures ConvertCells(g, cells[..i + 1], temp, parseFloat) == Ok(written + [v])
  {
    assert cells[..i + 1][..i] == cells[..i];
  }

  /** One more cell, when its write fails: the whole column fails with that error. */
  lemma ConvertCellsFail(g: Group, cells: seq<Cell>, i: nat, temp: Option<Cell>, parseFloat: string -> Option<real>,
                         written: seq<Cell>)
    requires i < |cells|
    requires ConvertCells(g, cells[..i], temp, parseFloat) == Ok(written)
    requires Written(g, cells[i], LastOr(written, temp), parseFloat).Raise?
    ensures ConvertCells(g, cells, temp, parseFloat) == Raise(Written(g, cells[i], LastOr(written, temp), parseFloat).error)
  {
    assert cells[..i + 1][..i] == cells[..i];
    ConvertCellsPrefixFails(g, cells, i + 1, temp, parseFloat);
  }

  /** One more column: the group's columns so far, then the next column. */
  lemma GroupSpecSnoc(g: Group, df: Frame, cols: seq<Column>, i: nat, temp: Option<Cell>, parseFloat: string -> Option<real>)
    requires i < |cols|
    requires GroupSpec(g, df, cols[..i], temp, parseFloat).Ok?
    ensures var (mid, t) := GroupSpec(g, df, cols[..i], temp, parseFloat).value;
            GroupSpec(g, df, cols[..i + 1], temp, parseFloat) == ColumnSpec(g, mid, cols[i], t, parseFloat)
  {
    assert cols[..i + 1][..i] == cols[..i];
  }

  /** The state of the inner loop after the first `i` cells of `col`: they converted
      without error, `out` holds their values, and `tempVal` the last of them. */
  ghost predicate Reached(g: Group, df: Frame, col: Column, temp: Option<Cell>, parseFloat: string -> Option<real>,
                          i: nat, out: Frame, tempVal: Option<Cell>)
  {
    && i <= |df.rows|
    && ConvertCells(g, CellsOf(df, col)[..i], temp, parseFloat).Ok?
    && out == SetColumn(df, col, ConvertCells(g, CellsOf(df, col)[..i], temp, parseFloat).value)
    && tempVal == LastOr(ConvertCells(g, CellsOf(df, col)[..i], temp, parseFloat).value, temp)
  }

  /** A cell whose write fails fails the whole column. */
  lemma ReachedFails(g: Group, df: Frame, col: Column, temp: Option<Cell>, parseFloat: string -> Option<real>,
                     i: nat, out: Frame, tempVal: Option<Cell>)
    requires col in df.columns && i < |df.rows|
    requires Reached(g, df, col, temp, parseFloat, i, out, tempVal)
    requires Written(g, CellAt(df, i, col), tempVal, parseFloat).Raise?
    ensures ColumnSpec(g, df, col, temp, parseFloat) == Raise(Written(g, CellAt(df, i, col), tempVal, parseFloat).error)
  {
    var cells := CellsOf(df, col);
    var written := ConvertCells(g, cells[..i], temp, parseFloat).value;
    assert cells[i] == CellAt(df, i, col);
    ConvertCellsFail(g, cells, i, temp, parseFloat, written);
  }

  /** A cell whose write succeeds moves the loop one cell on. */
  lemma ReachedNext(g: Group, df: Frame, col: Column, temp: Option<Cell>, parseFloat: string -> Option<real>,
                    i: nat, out: Frame, tempVal: Option<Cell>)
    requires i < |df.rows|
    requires Reached(g, df, col, temp, parseFloat, i, out, tempVal)
    requires Written(g, CellAt(df, i, col), tempVal, parseFloat).Ok?
    ensures i < |out.rows|
    ensures var v := Written(g, CellAt(df, i, col), tempVal, parseFloat).value;
            Reached(g, df, col, temp, parseFloat, i + 1, WriteCell(out, i, col, v), Some(v))
  {
    var cells := CellsOf(df, col);
    var written := ConvertCells(g, cells[..i], temp, parseFloat).value;
    var v := Written(g, CellAt(df, i, col), tempVal, parseFloat).value;
    assert cells[i] == CellAt(df, i, col);
    ConvertCellsExtend(g, cells, i, temp, parseFloat, written, v);
    assert |written| == i;
    SetColumnStep(df, col, written, v);
    assert LastOr(written + [v], temp) == Some(v);
  }

  lemma ReachedEnd(g: Group, df: Frame, col: Column, temp: Option<Cell>, parseFloat: string -> Option<real>,
                   out: Frame, tempVal: Option<Cell>)
    requires col in df.columns
    requires Reached(g, df, col, temp, parseFloat, |df.rows|, out, tempVal)
    ensures ColumnSpec(g, df, col, temp, parseFloat) == Ok((out, tempVal))
  {
    assert CellsOf(df, col)[..|df.rows|] == CellsOf(df, col);
  }

  lemma ReachedStart(g: Group, df: Frame, col: Column, temp: Option<Cell>, parseFloat: string -> Option<real>)
    ensures Reached(g, df, col, temp, parseFloat, 0, df, temp)
  {
    var none := CellsOf(df, col)[..0];
    assert none == [];
    assert ConvertCells(g, none, temp, parseFloat) == Ok([]);
    assert SetColumn(df, col, []) == df;
  }

  /** The inner loop of one group: `for index, value in enumerate(df[col])`, writing
      `df.at[index, col] = temp_val`. */
  method ConvertColumn(g: Group, df: Frame, col: Column, temp: Option<Cell>, parseFloat: string -> Option<real>)
    returns (r: Result<(Frame, Option<Cell>)>)
    ensures r == ColumnSpec(g, df, col, temp, parseFloat)
  {
    if col !in df.columns {
      return Raise(KeyError);
    }
    var out := df;
    var tempVal := temp;
    var i := 0;
    ReachedStart(g, df, col, temp, parseFloat);
    while i < |df.rows|
      invariant Reached(g, df, col, temp, parseFloat, i, out, tempVal)
    {
      var w := Written(g, CellAt(df, i, col), tempVal, parseFloat);
      if w.Raise? {
        ReachedFails(g, df, col, temp, parseFloat, i, out, tempVal);
        return Raise(w.error);
      }
      ReachedNext(g, df, col, temp, parseFloat, i, out, tempVal);
      out := WriteCell(out, i, col, w.value);
      tempVal := Some(w.value);
      i := i + 1;
    }
    ReachedEnd(g, df, col, temp, parseFloat, out, tempVal);
    return Ok((out, tempVal));
  }

  /** The outer loop of one group, over the group's columns `cols`. */
  method ConvertColumns(g: Group, df: Frame, cols: seq<Column>, temp: Option<Cell>, parseFloat: string -> Option<real>)
    returns (r: Result<(Frame, Option<Cell>)>)
    ensures r == GroupSpec(g, df, cols, temp, parseFloat)
  {
    var out := df;
    var tempVal := temp;
    var i := 0;
    while i < |cols|
      invariant 0 <= i <= |cols|
      invariant GroupSpec(g, df, cols[..i], temp, parseFloat).Ok?
      invariant GroupSpec(g, df, cols[..i], temp, parseFloat).value.0 == out
      invariant GroupSpec(g, df, cols[..i], temp, parseFloat).value.1 == tempVal
    {
      GroupSpecSnoc(g, df, cols, i, temp, parseFloat);
      var step := ConvertColumn(g, out, cols[i], tempVal, parseFloat);
      if step.Raise? {
        GroupSpecPrefixFails(g, df, cols, i + 1, temp, parseFloat);
        return Raise(step.error);
      }
      out, tempVal := step.value.0, step.value.1;
      i := i + 1;
    }
    assert cols[..i] == cols;
    return Ok((out, tempVal));
  }

  /** `convert_df_types` on a copy of the frame. */
  method ConvertTypes(df: Frame, parseFloat: string -> Option<real>) returns (r: Result<Frame>)
    ensures r == ConvertTypesSpec(df, parseFloat)
  {
    var currency := ConvertColumns(Currency, df, GroupColumns(Currency), None, parseFloat);
    if currency.Raise? {
      return Raise(currency.error);
    }
    var percentage := ConvertColumns(Percentage, currency.value.0, GroupColumns(Percentage), currency.value.1, parseFloat);
    if percentage.Raise? {
      return Raise(percentage.error);
    }
    var count := ConvertColumns(Count, percentage.value.0, GroupColumns(Count), percentage.value.1, parseFloat);
    if count.Raise? {
      return Raise(count.error);
    }
    return Ok(count.value.0);
  }

  // ---------------------------------------------------------------------------
  // What the conversion does to a column

  /** A run that succeeds on a column also succeeded on every prefix of it, with a prefix
      of its writes. */
  lemma {:induction false} ConvertCellsPrefix(g: Group, cells: seq<Cell>, k: nat, temp: Option<Cell>, parseFloat: string -> Option<real>)
    requires k <= |cells|
    requires ConvertCells(g, cells, temp, parseFloat).Ok?
    ensures ConvertCells(g, cells[..k], temp, parseFloat).Ok?
    ensures ConvertCells(g, cells[..k], temp, parseFloat).value == ConvertCells(g, cells, temp, parseFloat).value[..k]
    decreases |cells|
  {
    if k < |cells| {
      var front := cells[..|cells| - 1];
      assert front[..k] == cells[..k];
      ConvertCellsPrefix(g, front, k, temp, parseFloat);
    } else {
      assert cells[..k] == cells;
    }
  }

  /** Each written value is what that cell's branch gives when `temp_val` holds the value
      written just before it (or, for the first cell, what it held before the column). */
  lemma WrittenValue(g: Group, cells: seq<Cell>, i: nat, temp: Option<Cell>, parseFloat: string -> Option<real>)
    requires i < |cells|
    requires ConvertCells(g, cells, temp, parseFloat).Ok?
    ensures var w := ConvertCells(g, cells, temp, parseFloat).value;
            Written(g, cells[i], if i == 0 then temp else Some(w[i - 1]), parseFloat) == Ok(w[i])
  {
    var w := ConvertCells(g, cells, temp, parseFloat).value;
    ConvertCellsPrefix(g, cells, i, temp, parseFloat);
    var before := w[..i];
    var v := Written(g, cells[i], LastOr(before, temp), parseFloat);
    if v.Raise? {
      ConvertCellsFail(g, cells, i, temp, parseFloat, before);
      assert false;
    }
    ConvertCellsExtend(g, cells, i, temp, parseFloat, before, v.value);
    ConvertCellsPrefix(g, cells, i + 1, temp, parseFloat);
    assert w[..i + 1] == before + [v.value];
    assert w[..i + 1][i] == w[i];
    assert i > 0 ==> before[i - 1] == w[i - 1];
  }

  /** The stale value: a cell no branch handles gets the value written to the cell before
      it; a null cell gets null; a cell a branch handles gets that branch's value. */
  lemma StaleValue(g: Group, cells: seq<Cell>, i: nat, temp: Option<Cell>, parseFloat: string -> Option<real>)
    requires i < |cells|
    requires ConvertCells(g, cells, temp, parseFloat).Ok?
    ensures var w := ConvertCells(g, cells, temp, parseFloat).value;
            && (Assigned(g, cells[i], parseFloat) == Ok(None) && i > 0 ==> w[i] == w[i - 1])
            && (Assigned(g, cells[i], parseFloat) == Ok(None) && i == 0 ==> temp == Some(w[0]))
            && (cells[i].Null? ==> w[i] == Null)
            && (Assigned(g, cells[i], parseFloat).Ok? && Assigned(g, cells[i], parseFloat).value.Some? ==>
                  w[i] == Assigned(g, cells[i], parseFloat).value.value)
  {
    WrittenValue(g, cells, i, temp, parseFloat);
  }

  /** With nothing written before it, a first cell that no branch handles raises
      UnboundLocalError. */
  lemma FirstCellUnbound(g: Group, cells: seq<Cell>, parseFloat: string -> Option<real>)
    requires |cells| > 0
    requires Assigned(g, cells[0], parseFloat) == Ok(None)
    ensures ConvertCells(g, cells, None, parseFloat) == Raise(UnboundLocalError)
  {
    assert cells[..0] == [];
    ConvertCellsFail(g, cells, 0, None, parseFloat, []);
  }

  // ---------------------------------------------------------------------------
  // What the conversion does to the frame

  /** `temp_val` is unbound or holds a converted value. */
  predicate TempConverted(t: Option<Cell>)
  {
    t.None? || IsConvertedValue(t.value)
  }

  /** One column: only that column changes, every cell of it becomes a converted value, and
      `temp_val` stays converted. */
  lemma ColumnSpecEffect(g: Group, df: Frame, col: Column, temp: Option<Cell>, parseFloat: string -> Option<real>)
    requires ColumnSpec(g, df, col, temp, parseFloat).Ok?
    requires TempConverted(temp)
    ensures var (out, t) := ColumnSpec(g, df, col, temp, parseFloat).value;
            && TempConverted(t)
            && (forall i :: 0 <= i < |out.rows| ==> IsConvertedValue(CellAt(out, i, col)))
            && (forall i, c :: 0 <= i < |out.rows| && c != col ==> CellAt(out, i, c) == CellAt(df, i, c))
  {
    var vals := ConvertCells(g, CellsOf(df, col), temp, parseFloat).value;
    assert forall i :: 0 <= i < |vals| ==> IsConvertedValue(vals[i]);
  }

  /** A group: columns outside it keep their cells; after the group, each of its columns
      holds converted values only; `temp_val` stays converted. */
  lemma {:induction false} GroupSpecEffect(g: Group, df: Frame, cols: seq<Column>, temp: Option<Cell>, parseFloat: string -> Option<real>)
    requires GroupSpec(g, df, cols, temp, parseFloat).Ok?
    requires TempConverted(temp)
    ensures var (out, t) := GroupSpec(g, df, cols, temp, parseFloat).value;
            && TempConverted(t)
            && (forall i, c :: 0 <= i < |out.rows| && c in cols ==> IsConvertedValue(CellAt(out, i, c)))
            && (forall i, c :: 0 <= i < |out.rows| && c !in cols ==> CellAt(out, i, c) == CellAt(df, i, c))
  {
    if cols != [] {
      var front := cols[..|cols| - 1];
      var col := cols[|cols| - 1];
      GroupSpecEffect(g, df, front, temp, parseFloat);
      var (mid, t) := GroupSpec(g, df, front, temp, parseFloat).value;
      ColumnSpecEffect(g, mid, col, t, parseFloat);
      var (out, t') := GroupSpec(g, df, cols, temp, parseFloat).value;
      assert (out, t') == ColumnSpec(g, mid, col, t, parseFloat).value;
      forall i, c | 0 <= i < |out.rows| && c in cols
        ensures IsConvertedValue(CellAt(out, i, c))
      {
        if c != col {
          assert c in front;
        }
      }
    }
  }

  /** The three column lists share no column. */
  lemma GroupsDisjoint(c: Column)
    ensures c in GroupColumns(Currency) ==> c !in GroupColumns(Percentage) && c !in GroupColumns(Count)
    ensures c in GroupColumns(Percentage) ==> c !in GroupColumns(Count)
  {
  }

  /** `convert_df_types` changes only the converted columns, and leaves every cell of
      those columns null, an integer or a real. */
  lemma ConvertTypesEffect(df: Frame, parseFloat: string -> Option<real>)
    requires ConvertTypesSpec(df, parseFloat).Ok?
    ensures var out := ConvertTypesSpec(df, parseFloat).value;
            && out.columns == df.columns && |out.rows| == |df.rows|
            && (forall i, c :: 0 <= i < |out.rows| && Converted(c) ==> IsConvertedValue(CellAt(out, i, c)))
            && (forall i, c :: 0 <= i < |out.rows| && !Converted(c) ==> CellAt(out, i, c) == CellAt(df, i, c))
  {
    var (d1, t1) := GroupSpec(Currency, df, GroupColumns(Currency), None, parseFloat).value;
    GroupSpecEffect(Currency, df, GroupColumns(Currency), None, parseFloat);
    var (d2, t2) := GroupSpec(Percentage, d1, GroupColumns(Percentage), t1, parseFloat).value;
    GroupSpecEffect(Percentage, d1, GroupColumns(Percentage), t1, parseFloat);
    GroupSpecEffect(Count, d2, GroupColumns(Count), t2, parseFloat);
    var out := ConvertTypesSpec(df, parseFloat).value;
    forall i, c | 0 <= i < |out.rows| && Converted(c)
      ensures IsConvertedValue(CellAt(out, i, c))
    {
      GroupsDisjoint(c);
    }
  }

  /** A frame without the first currency column (the empty frame, say) raises KeyError. */
  lemma MissingColumnRaises(df: Frame, parseFloat: string -> Option<real>)
    requires Bedroom(OneBed, AskingRent) !in df.columns
    ensures ConvertTypesSpec(df, parseFloat) == Raise(KeyError)
  {
    var cols := GroupColumns(Currency);
    assert cols[..1] == [Bedroom(OneBed, AskingRent)];
    assert cols[..1][..0] == [];
    GroupSpecPrefixFails(Currency, df, cols, 1, None, parseFloat);
  }

  /** When the first currency cell of the first row is text of at most three characters,
      nothing was written before it and the conversion raises UnboundLocalError. */
  lemma ShortFirstRentRaises(df: Frame, parseFloat: string -> Option<real>)
    requires Bedroom(OneBed, AskingRent) in df.columns && |df.rows| > 0
    requires CellAt(df, 0, Bedroom(OneBed, AskingRent)).Text? && |CellAt(df, 0, Bedroom(OneBed, AskingRent)).s| <= 3
    ensures ConvertTypesSpec(df, parseFloat) == Raise(UnboundLocalError)
  {
    var col := Bedroom(OneBed, AskingRent);
    var cols := GroupColumns(Currency);
    FirstCellUnbound(Currency, CellsOf(df, col), parseFloat);
    assert cols[..1] == [col];
    assert cols[..1][..0] == [];
    GroupSpecPrefixFails(Currency, df, cols, 1, None, parseFloat);
  }

  // ---------------------------------------------------------------------------
  // The formats the conversions read

  /** A digit string as the site prints amounts: groups of three digits from the right,
      separated by ','. */
  function Grouped(d: string): (r: string)
    ensures |r| >= |d|
  {
    if |d| <= 3 then d else Grouped(d[..|d| - 3]) + "," + d[|d| - 3..]
  }

  /** Grouping keeps the leading digit in front. */
  lemma {:induction false} GroupedHead(d: string)
    requires |d| > 0
    ensures Grouped(d)[0] == d[0]
  {
    if |d| > 3 {
      GroupedHead(d[..|d| - 3]);
    }
  }

  /** Removing the separators from a grouped digit string gives the digits back. */
  lemma {:induction false} GroupedWithout(d: string)
    requires ',' !in d
    ensures Without(Grouped(d), ',') == d
  {
    if |d| > 3 {
      var front := d[..|d| - 3];
      var tail := d[|d| - 3..];
      assert ',' !in front && ',' !in tail by {
        assert forall x :: x in front ==> x in d;
        assert forall x :: x in tail ==> x in d;
      }
      assert Without(",", ',') == [];
      calc {
        Without(Grouped(d), ',');
        Without(Grouped(front) + "," + tail, ',');
        { WithoutAppend(Grouped(front) + ",", tail, ','); }
        Without(Grouped(front) + ",", ',') + Without(tail, ',');
        { WithoutAppend(Grouped(front), ",", ','); WithoutAbsent(tail, ','); }
        Without(Grouped(front), ',') + tail;
        { GroupedWithout(front); }
        front + tail;
        d;
      }
    } else {
      WithoutAbsent(d, ',');
    }
  }

  /** A natural number of at least 100 has at least three digits. */
  lemma ThreeDigits(n: nat)
    requires n >= 100
    ensures |DigitsOf(n)| >= 3
  {
    assert DigitsOf(n) == DigitsOf(n / 10) + [('0' as int + n % 10) as char];
    assert DigitsOf(n / 10) == DigitsOf(n / 100) + [('0' as int + (n / 10) % 10) as char];
  }

  /** `int()` reads back the digits of a natural number. */
  lemma IntOfDigits(n: nat)
    ensures IntOfString(DigitsOf(n)) == Ok(n)
  {
    IntOfStrOfInt(n);
  }

  /** Removing ',' from a grouped number gives its digits. */
  lemma ReplaceGrouped(n: nat)
    ensures Replace(Grouped(DigitsOf(n)), ",", "") == DigitsOf(n)
  {
    var d := DigitsOf(n);
    assert ',' !in d by {
      forall i | 0 <= i < |d| ensures d[i] != ',' {
        assert IsDigit(d[i]);
      }
    }
    ReplaceCharIsWithout(Grouped(d), ',');
    assert "," == [','];
    GroupedWithout(d);
  }

  /** A rent the site prints as '$' and a grouped amount of at least $100 converts to that
      amount. */
  lemma CurrencyRoundTrip(n: nat, parseFloat: string -> Option<real>)
    requires n >= 100
    ensures Assigned(Currency, Text("$" + Grouped(DigitsOf(n))), parseFloat) == Ok(Some(Int(n)))
  {
    var s := "$" + Grouped(DigitsOf(n));
    ThreeDigits(n);
    assert s[1..] == Grouped(DigitsOf(n));
    ReplaceGrouped(n);
    IntOfDigits(n);
  }

  /** A count the site prints grouped converts to that count. */
  lemma CountRoundTrip(n: nat, parseFloat: string -> Option<real>)
    ensures Assigned(Count, Text(Grouped(DigitsOf(n))), parseFloat) == Ok(Some(Int(n)))
  {
    var s := Grouped(DigitsOf(n));
    GroupedHead(DigitsOf(n));
    assert s != "-" by {
      assert IsDigit(s[0]);
    }
    ReplaceGrouped(n);
    IntOfDigits(n);
  }

  /** A percentage the site prints as a number and '%' converts to that number; an
      unreadable number raises ValueError. */
  lemma PercentageRoundTrip(s: string, parseFloat: string -> Option<real>)
    requires |s| > 0
    ensures Assigned(Percentage, Text(s + "%"), parseFloat)
            == (match parseFloat(s) case Some(x) => Ok(Some(Real(x))) case None => Raise(ValueError))
  {
    assert (s + "%")[..|s + "%"| - 1] == s;
  }

  /** '$1,234' converts to 1234. */
  lemma RentExample(parseFloat: string -> Option<real>)
    ensures Assigned(Currency, Text("$1,234"), parseFloat) == Ok(Some(Int(1234)))
  {
    assert DigitsOf(1234) == "1234" by {
      assert DigitsOf(1) == "1";
      assert DigitsOf(12) == "12";
      assert DigitsOf(123) == "123";
    }
    assert Grouped("1234") == "1,234" by {
      assert "1234"[..1] == "1" && "1234"[1..] == "234";
    }
    CurrencyRoundTrip(1234, parseFloat);
  }

  /** A first cell that takes a branch is written with that branch's value. */
  lemma FirstCellAssigned(g: Group, c: Cell, v: Cell, parseFloat: string -> Option<real>)
    requires Assigned(g, c, parseFloat) == Ok(Some(v))
    ensures ConvertCells(g, [c], None, parseFloat) == Ok([v])
  {
    assert [c][..0] == [];
    assert ConvertCells(g, [], None, parseFloat) == Ok([]);
    assert Written(g, c, LastOr([], None), parseFloat) == Ok(v);
    assert [] + [v] == [v];
  }

  /** A second cell that takes no branch repeats the first value. */
  lemma SecondCellStale(g: Group, c0: Cell, c1: Cell, v: Cell, parseFloat: string -> Option<real>)
    requires ConvertCells(g, [c0], None, parseFloat) == Ok([v])
    requires Assigned(g, c1, parseFloat) == Ok(None)
    ensures ConvertCells(g, [c0, c1], None, parseFloat) == Ok([v, v])
  {
    assert [c0, c1][..1] == [c0];
    assert Written(g, c1, LastOr([v], None), parseFloat) == Ok(v);
    assert [v] + [v] == [v, v];
  }

  /** A count of '-' becomes null, even as the first cell. */
  lemma DashCountExample(parseFloat: string -> Option<real>)
    ensures ConvertCells(Count, [Text("-")], None, parseFloat) == Ok([Null])
  {
    FirstCellAssigned(Count, Text("-"), Null, parseFloat);
  }

  /** A rent under $100 is not converted: it repeats the rent above it. */
  lemma StaleRentExample(parseFloat: string -> Option<real>)
    ensures ConvertCells(Currency, [Text("$1,234"), Text("$99")], None, parseFloat) == Ok([Int(1234), Int(1234)])
  {
    RentExample(parseFloat);
    FirstCellAssigned(Currency, Text("$1,234"), Int(1234), parseFloat);
    SecondCellStale(Currency, Text("$1,234"), Text("$99"), Int(1234), parseFloat);
  }


}
