/** The pandas frame the scraper builds, reduced to what the modelled code uses: named
    columns, positional rows (a `RangeIndex`, as `ignore_index=True` concatenation
    leaves it), and cells that are either the null marker or a value. */
module Table {
  import opened Json
  import opened Schema

  /** One cell. `Null` stands for both `None` and NaN, which `pd.isnull` treats alike. */
  datatype Cell =
    | Null
    | Text(s: string)
    | Int(i: int)
    | Real(r: real)
    | Raw(j: Json)   // any other JSON value, kept as it was decoded

  /** The cell pandas stores for a decoded JSON value. */
  function CellOf(j: Json): (c: Cell)
    ensures c.Null? <==> j.JNull?
    ensures c.Text? <==> j.JStr?
    ensures j.JStr? ==> c == Text(j.s)
    ensures c.Raw? ==> c.j == j
    ensures !c.Int? && !c.Real?
  {
    match j
    case JNull => Null
    case JStr(s) => Text(s)
    case _ => Raw(j)
  }

  type Row = map<Column, Cell>

  datatype Frame = Frame(columns: set<Column>, rows: seq<Row>)

  /** `pd.DataFrame()` */
  const EmptyFrame := Frame({}, [])

  /** `pd.concat([df, row], axis=0, ignore_index=True)`: the row goes last; a column only
      one side has is added (its missing cells read as NaN, see `CellAt`). */
  function Append(df: Frame, row: Row): (r: Frame)
    ensures |r.rows| == |df.rows| + 1 && r.rows[..|df.rows|] == df.rows && r.rows[|df.rows|] == row
    ensures r.columns == df.columns + row.Keys
  {
    Frame(df.columns + row.Keys, df.rows + [row])
  }

  /** `df.at[i, col]` for a column of the frame; a row without the column holds NaN. */
  function CellAt(df: Frame, i: nat, col: Column): Cell
    requires i < |df.rows|
  {
    if col in df.rows[i] then df.rows[i][col] else Null
  }

  /** `df[col]` as a list of cells. */
  function CellsOf(df: Frame, col: Column): (cells: seq<Cell>)
    ensures |cells| == |df.rows|
    ensures forall i :: 0 <= i < |cells| ==> cells[i] == CellAt(df, i, col)
  {
    seq(|df.rows|, i requires 0 <= i < |df.rows| => CellAt(df, i, col))
  }

  /** `df.at[i, col] = v` on an existing row. */
  function WriteCell(df: Frame, i: nat, col: Column, v: Cell): (r: Frame)
    requires i < |df.rows|
    ensures r.columns == df.columns && |r.rows| == |df.rows|
    ensures CellAt(r, i, col) == v
    ensures forall k, c :: 0 <= k < |r.rows| && (k != i || c != col) ==> CellAt(r, k, c) == CellAt(df, k, c)
  {
    Frame(df.columns, df.rows[i := df.rows[i][col := v]])
  }

  /** The frame after `df.at[i, col] = vals[i]` for each `i < |vals|`, in order: only
      those cells change. */
  function SetColumn(df: Frame, col: Column, vals: seq<Cell>): (r: Frame)
    requires |vals| <= |df.rows|
    ensures r.columns == df.columns && |r.rows| == |df.rows|
    ensures forall i :: 0 <= i < |vals| ==> CellAt(r, i, col) == vals[i]
    ensures forall i :: |vals| <= i < |r.rows| ==> r.rows[i] == df.rows[i]
    ensures forall i, c :: 0 <= i < |r.rows| && c != col ==> CellAt(r, i, c) == CellAt(df, i, c)
  {
    if vals == [] then df
    else WriteCell(SetColumn(df, col, vals[..|vals| - 1]), |vals| - 1, col, vals[|vals| - 1])
  }

  /** Writing one more cell extends the written prefix by one. */
  lemma SetColumnStep(df: Frame, col: Column, vals: seq<Cell>, v: Cell)
    requires |vals| < |df.rows|
    ensures SetColumn(df, col, vals + [v]) == WriteCell(SetColumn(df, col, vals), |vals|, col, v)
  {
    assert (vals + [v])[..|vals|] == vals;
  }
}
