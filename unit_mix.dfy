/** The unit-mix summary table the parser builds from the `summaryItems` of the
    unit-mix response, and the five metrics it reads per bedroom category
    (`set_roomtype_metric_values`, `screen_nulls`). */
module UnitMix {
  import opened Python
  import opened Json
  import opened Table
  import opened Schema

  /** The summary table after its columns are relabelled with the `totals` row: the row
      labels (every field name any summary item has) and, per column heading, the fields of
      the item whose `totals` is that heading. Items that are not objects contribute only
      integer row labels, and items without a string `totals` only unlabelled columns,
      so neither can be addressed by the names the parser uses. */
  datatype Summary = Summary(rows: set<string>, columns: map<string, map<string, Json>>)

  const EmptySummary := Summary({}, map[])

  /** Does `item` head the column labelled `heading`? */
  predicate Heads(item: Json, heading: string)
  {
    item.JObj? && "totals" in item.fields && item.fields["totals"] == JStr(heading)
  }

  /** The table built column by column from the items (labels are taken to be
      distinct; were one repeated, the later item's column is the one kept). */
  function SummaryOf(items: seq<Json>): (t: Summary)
    ensures forall heading :: heading in t.columns ==>
              "totals" in t.columns[heading] && t.columns[heading]["totals"] == JStr(heading)
  {
    if items == [] then EmptySummary
    else
      var t := SummaryOf(items[..|items| - 1]);
      var last := items[|items| - 1];
      if last.JObj? then
        var columns :=
          if "totals" in last.fields && last.fields["totals"].JStr?
          then t.columns[last.fields["totals"].s := last.fields]
          else t.columns;
        Summary(t.rows + last.fields.Keys, columns)
      else
        t
  }

  /** The row labels are the field names of the object items, and the columns are
      exactly the items headed by a string `totals`, each holding that item's fields. */
  lemma {:induction false} SummaryOfItems(items: seq<Json>)
    ensures forall m :: m in SummaryOf(items).rows <==>
              exists i :: 0 <= i < |items| && items[i].JObj? && m in items[i].fields
    ensures forall heading :: heading in SummaryOf(items).columns <==>
              exists i :: 0 <= i < |items| && Heads(items[i], heading)
    ensures forall heading :: heading in SummaryOf(items).columns ==>
              exists i :: 0 <= i < |items| && Heads(items[i], heading) && SummaryOf(items).columns[heading] == items[i].fields
  {
    if items != [] {
      var front := items[..|items| - 1];
      var last := items[|items| - 1];
      SummaryOfItems(front);
      var t0 := SummaryOf(front);
      var t := SummaryOf(items);
      assert forall i :: 0 <= i < |front| ==> front[i] == items[i];
      if last.JObj? {
        var heads := "totals" in last.fields && last.fields["totals"].JStr?;
        assert t.rows == t0.rows + last.fields.Keys;
        assert t.columns == if heads then t0.columns[last.fields["totals"].s := last.fields] else t0.columns;
      } else {
        assert t == t0;
      }
      forall m | m in t.rows
        ensures exists i :: 0 <= i < |items| && items[i].JObj? && m in items[i].fields
      {
        if m !in t0.rows {
          assert items[|items| - 1].JObj? && m in items[|items| - 1].fields;
        } else {
          var i :| 0 <= i < |front| && front[i].JObj? && m in front[i].fields;
          assert items[i].JObj? && m in items[i].fields;
        }
      }
      forall heading | heading in t.columns
        ensures exists i :: 0 <= i < |items| && Heads(items[i], heading) && t.columns[heading] == items[i].fields
      {
        if Heads(last, heading) {
          assert items[|items| - 1] == last;
        } else {
          assert heading in t0.columns && t.columns[heading] == t0.columns[heading];
          var i :| 0 <= i < |front| && Heads(front[i], heading) && t0.columns[heading] == front[i].fields;
          assert Heads(items[i], heading);
        }
      }
      forall heading | exists i :: 0 <= i < |items| && Heads(items[i], heading)
        ensures heading in t.columns
      {
        var i :| 0 <= i < |items| && Heads(items[i], heading);
        if i < |front| {
          assert Heads(front[i], heading);
        } else {
          assert Heads(last, heading);
        }
      }
    }
  }

  /** The table from the `summaryItems` value: `len()` of a value with no length raises
      TypeError; an object has no integer keys, so subscripting a non-empty one raises
      KeyError; a string's characters give no addressable rows or columns. */
  function TableOf(summaryItems: Json): (r: Result<Summary>)
    ensures summaryItems.JArr? ==> r == Ok(SummaryOf(summaryItems.items))
    ensures r.Raise? <==> summaryItems.JNull? || summaryItems.JBool? || summaryItems.JNum?
                          || (summaryItems.JObj? && |summaryItems.fields| > 0)
    ensures r.Raise? ==> r.error in {KeyError, TypeError}
  {
    match summaryItems
    case JArr(items) => Ok(SummaryOf(items))
    case JObj(fields) => if |fields| == 0 then Ok(EmptySummary) else Raise(KeyError)
    case JStr(_) => Ok(EmptySummary)
    case _ => Raise(TypeError)
  }

  /** `prop_details_df.at[metric, heading]`: KeyError unless both the row and the column
      exist; NaN when the column's item lacks the metric. */
  function At(t: Summary, metric: string, heading: string): (r: Result<Cell>)
    ensures r.Ok? <==> metric in t.rows && heading in t.columns
    ensures r.Raise? ==> r.error == KeyError
    ensures r.Ok? ==> r.value == (if metric in t.columns[heading] then CellOf(t.columns[heading][metric]) else Null)
  {
    if metric in t.rows && heading in t.columns then
      Ok(if metric in t.columns[heading] then CellOf(t.columns[heading][metric]) else Null)
    else
      Raise(KeyError)
  }

  /** `screen_nulls`: the placeholder '-' becomes the null marker; any other value,
      null included, is returned as it is. */
  function ScreenNulls(c: Cell): (r: Cell)
    ensures r != Text("-")
    ensures c != Text("-") ==> r == c
    ensures r.Null? <==> c.Null? || c == Text("-")
  {
    if c == Text("-") then Null else c
  }

  /** Screening twice is screening once. */
  lemma ScreenNullsIdempotent(c: Cell)
    ensures ScreenNulls(ScreenNulls(c)) == ScreenNulls(c)
  {
  }

  /** The five metrics of one bedroom category. */
  datatype BedroomMetrics = BedroomMetrics(askingRent: Cell, avgArea: Cell, effectiveRent: Cell,
                                           unitCount: Cell, concessionPct: Cell) {
    function Get(m: Metric): Cell
    {
      match m
      case AskingRent => askingRent
      case AvgArea => avgArea
      case EffectiveRent => effectiveRent
      case UnitCount => unitCount
      case Concessions => concessionPct
    }

    /** No metric is left as the placeholder '-'. */
    predicate Screened()
    {
      forall m: Metric :: Get(m) != Text("-")
    }
  }

  const AllNull := BedroomMetrics(Null, Null, Null, Null, Null)

  /** `set_roomtype_metric_values(kind, present, table)`: five nulls when the category's
      column is absent; otherwise each metric is the screened cell of its row in that
      column, and a missing row raises KeyError. */
  function RoomTypeMetrics(kind: BedroomType, present: bool, t: Summary): (r: Result<BedroomMetrics>)
    ensures !present ==> r == Ok(AllNull)
    ensures present ==> (r.Ok? <==> kind.Label() in t.columns && forall m: Metric :: m.SummaryRow() in t.rows)
    ensures r.Raise? ==> r.error == KeyError
    ensures present && r.Ok? ==>
              forall m: Metric :: r.value.Get(m) == ScreenNulls(At(t, m.SummaryRow(), kind.Label()).value)
    ensures r.Ok? ==> r.value.Screened()
  {
    if !present then Ok(AllNull)
    else
      var heading := kind.Label();
      var asking :- At(t, AskingRent.SummaryRow(), heading);
      var area :- At(t, AvgArea.SummaryRow(), heading);
      var effective :- At(t, EffectiveRent.SummaryRow(), heading);
      var units :- At(t, UnitCount.SummaryRow(), heading);
      var concessions :- At(t, Concessions.SummaryRow(), heading);
      Ok(BedroomMetrics(ScreenNulls(asking), ScreenNulls(area), ScreenNulls(effective),
                        ScreenNulls(units), ScreenNulls(concessions)))
  }

  /** The parser passes `present` as "the category's heading is a column". Then an absent
      category yields five nulls, and a present one yields, per metric, null exactly when
      the item lacks the metric or holds null or '-' there, and the item's value
      otherwise. */
  lemma BedroomMetricsOfSummary(kind: BedroomType, t: Summary)
    ensures var r := RoomTypeMetrics(kind, kind.Label() in t.columns, t);
            && (kind.Label() !in t.columns ==> r == Ok(AllNull))
            && (r.Ok? && kind.Label() in t.columns ==>
                  forall m: Metric ::
                    var fields := t.columns[kind.Label()];
                    r.value.Get(m) == (if m.SummaryRow() !in fields || fields[m.SummaryRow()] == JNull
                                          || fields[m.SummaryRow()] == JStr("-") then Null
                                       else CellOf(fields[m.SummaryRow()])))
  {
  }
}
