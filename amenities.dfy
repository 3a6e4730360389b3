/** The two passes over the `Amenities` column just before the upload: every amenity
    name in the abbreviation table is replaced by its short form, in the table's order,
    and then a text longer than 250 characters is cut at its last ';' within the first
    250 characters. */
module Amenities {
  import opened Python
  import opened Table
  import opened Schema

  /** The database's width for the column. */
  const MaxLength := 250

  /** The abbreviations, in the dictionary's insertion order (the order `items()` visits
      them). Every short form is shorter than its name. */
  function ShrinkTable(): (t: seq<(string, string)>)
    ensures |t| == 18
    ensures Shrinking(t)
  {
    [("24 Hour Access", "24Hr Access"),
     ("Air Conditioning", "A/C"),
     ("Bicycle Storage", "Bike Storage"),
     ("Refridgerator", "Fridge"),
     ("Basketball Court", "Bball Court"),
     ("Storage Space", "Storage"),
     ("Walking/Biking Trails", "Walk/Bike Trails"),
     ("Property Manager on Site", "Onsite PM"),
     ("Wheelchair Accessible (Rooms)", "Wheelchair Access Rooms"),
     ("Accessible", "Access"),
     ("Planned Social Activities", "Social Events"),
     ("Maintenance on site", "Onsite Maintenance"),
     ("Furnished Units Available", "Furnished Option"),
     ("Hardwood Floors", "Hardwood"),
     ("Pet Washing Station", "Pet Wash Station"),
     ("Laundry Facilities", "Laundry Facs"),
     ("Tenant Controlled HVAC", "Controllable HVAC"),
     ("Washer/Dryer", "W/D")]
  }

  /** The text after the replacements of `pairs`, applied one after the other, each to the
      result of the ones before it. */
  function Abbreviate(s: string, pairs: seq<(string, string)>): (r: string)
    requires Shrinking(pairs)
    ensures |r| <= |s|
  {
    if pairs == [] then s
    else
      var last := pairs[|pairs| - 1];
      Replace(Abbreviate(s, pairs[..|pairs| - 1]), last.0, last.1)
  }

  /** The inner loop over the table for one text (`temp_list_record.replace(key, val)`
      for each entry of `items()`, in order). */
  method AbbreviateText(s: string, table: seq<(string, string)>) returns (r: string)
    requires Shrinking(table)
    ensures r == Abbreviate(s, table)
    ensures |r| <= |s|
  {
    r := s;
    var k := 0;
    while k < |table|
      invariant 0 <= k <= |table|
      invariant r == Abbreviate(s, table[..k])
    {
      assert table[..k + 1][..k] == table[..k];
      r := Replace(r, table[k].0, table[k].1);
      k := k + 1;
    }
    assert table[..k] == table;
  }

  /** A text in which no name of the table occurs comes out unchanged. */
  lemma {:induction false} AbbreviateUntouched(s: string, pairs: seq<(string, string)>)
    requires Shrinking(pairs)
    requires forall k, i: nat :: 0 <= k < |pairs| ==> !OccursAt(s, pairs[k].0, i)
    ensures Abbreviate(s, pairs) == s
  {
    if pairs != [] {
      var front := pairs[..|pairs| - 1];
      assert forall k :: 0 <= k < |front| ==> front[k] == pairs[k];
      AbbreviateUntouched(s, front);
      var last := pairs[|pairs| - 1];
      assert forall i: nat :: !OccursAt(s, last.0, i);
    }
  }

  /** Applying two tables one after the other is applying their concatenation. */
  lemma {:induction false} AbbreviateAppend(s: string, p: seq<(string, string)>, q: seq<(string, string)>)
    requires Shrinking(p) && Shrinking(q)
    ensures Shrinking(p + q)
    ensures Abbreviate(s, p + q) == Abbreviate(Abbreviate(s, p), q)
    decreases |q|
  {
    if q == [] {
      assert p + q == p;
    } else {
      var front := q[..|q| - 1];
      assert Shrinking(front) by {
        assert forall k :: 0 <= k < |front| ==> front[k] == q[k];
      }
      AbbreviateAppend(s, p, front);
      assert (p + q)[..|p + q| - 1] == p + front;
      assert (p + q)[|p + q| - 1] == q[|q| - 1];
    }
  }

  /** An occurrence in the tail of a text is an occurrence in the whole, shifted. */
  lemma OccursInSuffix(x: string, b: string, pat: string, i: nat)
    requires OccursAt(b, pat, i)
    ensures OccursAt(x + b, pat, |x| + i)
  {
    assert (x + b)[|x| + i..|x| + i + |pat|] == b[i..i + |pat|];
  }

  /** Replacing the only occurrence of a name. */
  lemma ReplaceOnly(a: string, name: string, short: string, b: string)
    requires |name| > 0
    requires forall i: nat :: i != |a| ==> !OccursAt(a + name + b, name, i)
    ensures Replace(a + name + b, name, short) == a + short + b
  {
    ReplaceAt(a, name, short, b);
    forall i: nat
      ensures !OccursAt(b, name, i)
    {
      if OccursAt(b, name, i) {
        OccursInSuffix(a + name, b, name, i);
      }
    }
  }

  /** Entry `k` of the table applied to a text after the entries before it, when none of
      their names occurs in it. */
  lemma AbbreviateUpTo(s: string, pairs: seq<(string, string)>, k: nat)
    requires Shrinking(pairs) && k < |pairs|
    requires forall j, i: nat :: 0 <= j < k ==> !OccursAt(s, pairs[j].0, i)
    ensures Shrinking(pairs[..k + 1])
    ensures Abbreviate(s, pairs[..k + 1]) == Replace(s, pairs[k].0, pairs[k].1)
  {
    var before := pairs[..k];
    assert forall j :: 0 <= j < k ==> before[j] == pairs[j];
    AbbreviateUntouched(s, before);
    assert pairs[..k + 1][..k] == before;
  }

  /** The entries up to `k`, on a text where the only name among them that occurs is the
      name of entry `k`, and it occurs once. */
  lemma AbbreviateOnceUpTo(a: string, b: string, pairs: seq<(string, string)>, k: nat)
    requires Shrinking(pairs) && k < |pairs|
    requires forall j, i: nat :: 0 <= j < k ==> !OccursAt(a + pairs[k].0 + b, pairs[j].0, i)
    requires forall i: nat :: i != |a| ==> !OccursAt(a + pairs[k].0 + b, pairs[k].0, i)
    ensures Shrinking(pairs[..k + 1])
    ensures Abbreviate(a + pairs[k].0 + b, pairs[..k + 1]) == a + pairs[k].1 + b
  {
    AbbreviateUpTo(a + pairs[k].0 + b, pairs, k);
    ReplaceOnly(a, pairs[k].0, pairs[k].1, b);
  }

  /** A second table whose names do not occur in the result of the first changes nothing. */
  lemma AbbreviateRest(s: string, t: string, p: seq<(string, string)>, q: seq<(string, string)>)
    requires Shrinking(p) && Shrinking(q) && Abbreviate(s, p) == t
    requires forall j, i: nat :: 0 <= j < |q| ==> !OccursAt(t, q[j].0, i)
    ensures Shrinking(p + q) && Abbreviate(s, p + q) == t
  {
    AbbreviateAppend(s, p, q);
    AbbreviateUntouched(t, q);
  }

  /** The entries after `k` of a table, as a table of their own. */
  lemma TableAfter(t: string, pairs: seq<(string, string)>, k: nat, after: seq<(string, string)>)
    requires Shrinking(pairs) && k < |pairs| && after == pairs[k + 1..]
    requires forall j, i: nat :: k < j < |pairs| ==> !OccursAt(t, pairs[j].0, i)
    ensures pairs[..k + 1] + after == pairs
    ensures Shrinking(after)
    ensures forall j, i: nat :: 0 <= j < |after| ==> !OccursAt(t, after[j].0, i)
  {
    assert forall j :: 0 <= j < |after| ==> after[j] == pairs[k + 1 + j];
  }

  /** A name that occurs once in a text, where no earlier name of the table occurs and no
      later name occurs once it is replaced, comes out as its short form. */
  lemma AbbreviateOnce(a: string, b: string, pairs: seq<(string, string)>, k: nat)
    requires Shrinking(pairs) && k < |pairs|
    requires forall j, i: nat :: 0 <= j < k ==> !OccursAt(a + pairs[k].0 + b, pairs[j].0, i)
    requires forall i: nat :: i != |a| ==> !OccursAt(a + pairs[k].0 + b, pairs[k].0, i)
    requires forall j, i: nat :: k < j < |pairs| ==> !OccursAt(a + pairs[k].1 + b, pairs[j].0, i)
    ensures Abbreviate(a + pairs[k].0 + b, pairs) == a + pairs[k].1 + b
  {
    AbbreviateOnceUpTo(a, b, pairs, k);
    TableAfter(a + pairs[k].1 + b, pairs, k, pairs[k + 1..]);
    AbbreviateRest(a + pairs[k].0 + b, a + pairs[k].1 + b, pairs[..k + 1], pairs[k + 1..]);
  }

  /** No occurrence of a pattern can start at a character other than its first. */
  lemma OccursOnlyWhereFirst(s: string, pat: string, j: int)
    requires |pat| > 0
    requires forall i :: 0 <= i < |s| && i != j ==> s[i] != pat[0]
    ensures forall i: nat :: i != j ==> !OccursAt(s, pat, i)
  {
    forall i: nat | i != j
      ensures !OccursAt(s, pat, i)
    {
      if i + |pat| <= |s| {
        assert s[i..i + |pat|][0] == s[i];
      }
    }
  }

  /** The first entry whose name occurs is the one that applies: "Air Conditioning"
      becomes "A/C". */
  lemma AirConditioningExample()
    ensures Abbreviate("Air Conditioning", ShrinkTable()) == "A/C"
  {
    var t := ShrinkTable();
    var s: string := "Air Conditioning";
    assert t[1] == ("Air Conditioning", "A/C");
    assert s == [] + t[1].0 + [];
    OccursOnlyWhereFirst(s, t[0].0, -1);
    OccursOnlyWhereFirst(s, t[1].0, 0);
    forall j, i: nat | 1 < j < |t|
      ensures !OccursAt("A/C", t[j].0, i)
    {
    }
    AbbreviateOnce([], [], t, 1);
  }

  /** Every name is non-empty and longer than its short form. */
  predicate Shrinking(table: seq<(string, string)>)
  {
    forall k :: 0 <= k < |table| ==> 0 < |table[k].1| < |table[k].0|
  }

  /** The first pass on one cell: null stays null, a text is abbreviated, and any other
      value has no `replace` and raises AttributeError. */
  function AbbreviateCell(c: Cell, table: seq<(string, string)>): (r: Result<Cell>)
    requires Shrinking(table)
    ensures c.Null? ==> r == Ok(Null)
    ensures c.Text? ==> r == Ok(Text(Abbreviate(c.s, table)))
    ensures c.Text? ==> r.value.Text? && |r.value.s| <= |c.s|
    ensures !c.Null? && !c.Text? ==> r == Raise(AttributeError)
  {
    match c
    case Null => Ok(Null)
    case Text(s) => Ok(Text(Abbreviate(s, table)))
    case _ => Raise(AttributeError)
  }

  /** `s[:stop]` where `stop` is the last ';' in `s[:250]` when `s` is longer than 250
      characters, and `len(s)` otherwise. An `rfind` that finds nothing returns -1, and
      `s[:-1]` drops only the last character. */
  function Shorten(s: string): (r: string)
    ensures |r| <= |s| && r == s[..|r|]
  {
    if |s| > MaxLength then SliceTo(s, RFind(s[..MaxLength], ';')) else s
  }

  /** A text of at most 250 characters is kept. */
  lemma ShortenKeepsShort(s: string)
    requires |s| <= MaxLength
    ensures Shorten(s) == s
  {
  }

  /** A longer text with a ';' among its first 250 characters is cut just before the last
      such ';': the result is shorter than 250 characters, is followed in `s` by that
      ';', and no ';' lies between it and the 250th character. */
  lemma ShortenAtSeparator(s: string)
    requires |s| > MaxLength && ';' in s[..MaxLength]
    ensures var r := Shorten(s);
            && |r| < MaxLength && r == s[..|r|] && s[|r|] == ';'
            && ';' !in s[|r| + 1..MaxLength]
  {
    var k := RFind(s[..MaxLength], ';');
    assert s[..MaxLength][k + 1..] == s[k + 1..MaxLength];
  }

  /** A longer text with no ';' among its first 250 characters loses only its last
      character, so the result is still longer than 250 characters unless `s` had 251. */
  lemma ShortenWithoutSeparator(s: string)
    requires |s| > MaxLength && ';' !in s[..MaxLength]
    ensures Shorten(s) == s[..|s| - 1]
    ensures |Shorten(s)| > MaxLength <==> |s| > MaxLength + 1
  {
  }

  /** The cut fits the column exactly when the text was short enough, had a ';' among its
      first 250 characters, or was 251 characters long. */
  lemma ShortenWithinLimit(s: string)
    ensures |Shorten(s)| <= MaxLength <==>
              |s| <= MaxLength || ';' in s[..MaxLength] || |s| == MaxLength + 1
  {
    if |s| > MaxLength {
      if ';' in s[..MaxLength] {
        ShortenAtSeparator(s);
      } else {
        ShortenWithoutSeparator(s);
      }
    }
  }

  /** The second pass on one cell, which after the first pass holds null or text. */
  function ShortenCell(c: Cell): (r: Cell)
    requires c.Null? || c.Text?
    ensures c.Null? <==> r.Null?
    ensures c.Text? ==> r == Text(Shorten(c.s))
  {
    if c.Null? then Null else Text(Shorten(c.s))
  }

  /** The first pass down the column, in row order: the first cell that raises stops it. */
  function AbbreviateCells(cells: seq<Cell>, table: seq<(string, string)>): (r: Result<seq<Cell>>)
    requires Shrinking(table)
    ensures r.Ok? <==> forall i :: 0 <= i < |cells| ==> cells[i].Null? || cells[i].Text?
    ensures r.Raise? ==> r.error == AttributeError
    ensures r.Ok? ==> |r.value| == |cells|
    ensures r.Ok? ==> forall i :: 0 <= i < |cells| ==> AbbreviateCell(cells[i], table) == Ok(r.value[i])
  {
    if cells == [] then Ok([])
    else
      var front := cells[..|cells| - 1];
      assert forall i :: 0 <= i < |front| ==> front[i] == cells[i];
      var before :- AbbreviateCells(front, table);
      var c :- AbbreviateCell(cells[|cells| - 1], table);
      Ok(before + [c])
  }

  /** The second pass down the column. */
  function ShortenCells(cells: seq<Cell>): (r: seq<Cell>)
    requires forall i :: 0 <= i < |cells| ==> cells[i].Null? || cells[i].Text?
    ensures |r| == |cells| && forall i :: 0 <= i < |cells| ==> r[i] == ShortenCell(cells[i])
  {
    if cells == [] then []
    else
      var front := cells[..|cells| - 1];
      assert forall i :: 0 <= i < |front| ==> front[i] == cells[i];
      ShortenCells(front) + [ShortenCell(cells[|cells| - 1])]
  }

  /** Both passes: `data_df['Amenities']` raises KeyError when the frame lacks the column;
      otherwise the column is abbreviated and then cut, and nothing else changes. */
  function ShrinkSpec(df: Frame, table: seq<(string, string)>): (r: Result<Frame>)
    requires Shrinking(table)
    ensures Amenities !in df.columns ==> r == Raise(KeyError)
    ensures r.Raise? ==> r.error in {KeyError, AttributeError}
    ensures r.Ok? ==> r.value.columns == df.columns && |r.value.rows| == |df.rows|
  {
    if Amenities !in df.columns then Raise(KeyError)
    else
      var abbreviated :- AbbreviateCells(CellsOf(df, Amenities), table);
      var mid := SetColumn(df, Amenities, abbreviated);
      Ok(SetColumn(mid, Amenities, ShortenCells(CellsOf(mid, Amenities))))
  }

  /** The state of the first loop after `i` rows. */
  ghost predicate AbbreviatedUpTo(df: Frame, table: seq<(string, string)>, i: nat, out: Frame)
    requires Shrinking(table)
  {
    && i <= |df.rows|
    && AbbreviateCells(CellsOf(df, Amenities)[..i], table).Ok?
    && out == SetColumn(df, Amenities, AbbreviateCells(CellsOf(df, Amenities)[..i], table).value)
  }

  lemma AbbreviatedStart(df: Frame, table: seq<(string, string)>)
    requires Shrinking(table)
    ensures AbbreviatedUpTo(df, table, 0, df)
  {
    var none := CellsOf(df, Amenities)[..0];
    assert none == [];
    assert SetColumn(df, Amenities, []) == df;
  }

  lemma AbbreviatedNext(df: Frame, table: seq<(string, string)>, i: nat, out: Frame)
    requires Shrinking(table)
    requires i < |df.rows|
    requires AbbreviatedUpTo(df, table, i, out)
    requires AbbreviateCell(CellAt(df, i, Amenities), table).Ok?
    ensures i < |out.rows|
    ensures AbbreviatedUpTo(df, table, i + 1, WriteCell(out, i, Amenities, AbbreviateCell(CellAt(df, i, Amenities), table).value))
  {
    var cells := CellsOf(df, Amenities);
    var done := AbbreviateCells(cells[..i], table).value;
    var c := AbbreviateCell(CellAt(df, i, Amenities), table).value;
    assert cells[..i + 1][..i] == cells[..i];
    assert cells[..i + 1][i] == CellAt(df, i, Amenities);
    assert AbbreviateCells(cells[..i + 1], table) == Ok(done + [c]);
    SetColumnStep(df, Amenities, done, c);
  }

  lemma AbbreviatedFails(df: Frame, table: seq<(string, string)>, i: nat, out: Frame)
    requires Shrinking(table)
    requires Amenities in df.columns && i < |df.rows|
    requires AbbreviatedUpTo(df, table, i, out)
    requires AbbreviateCell(CellAt(df, i, Amenities), table).Raise?
    ensures ShrinkSpec(df, table) == Raise(AttributeError)
  {
    var cells := CellsOf(df, Amenities);
    assert cells[i] == CellAt(df, i, Amenities);
  }

  /** The state of the second loop after `i` rows of the abbreviated frame `mid`. */
  ghost predicate ShortenedUpTo(mid: Frame, i: nat, out: Frame)
  {
    && i <= |mid.rows|
    && (forall k :: 0 <= k < |mid.rows| ==> CellAt(mid, k, Amenities).Null? || CellAt(mid, k, Amenities).Text?)
    && out == SetColumn(mid, Amenities, ShortenCells(CellsOf(mid, Amenities)[..i]))
  }

  lemma ShortenedStart(df: Frame, table: seq<(string, string)>, mid: Frame)
    requires Shrinking(table)
    requires AbbreviatedUpTo(df, table, |df.rows|, mid)
    ensures ShortenedUpTo(mid, 0, mid)
  {
    var cells := CellsOf(df, Amenities);
    assert cells[..|df.rows|] == cells;
    var none := CellsOf(mid, Amenities)[..0];
    assert none == [];
    assert SetColumn(mid, Amenities, []) == mid;
  }

  lemma ShortenedNext(mid: Frame, i: nat, out: Frame)
    requires i < |mid.rows|
    requires ShortenedUpTo(mid, i, out)
    ensures CellAt(mid, i, Amenities).Null? || CellAt(mid, i, Amenities).Text?
    ensures i < |out.rows|
    ensures ShortenedUpTo(mid, i + 1, WriteCell(out, i, Amenities, ShortenCell(CellAt(mid, i, Amenities))))
  {
    var cells := CellsOf(mid, Amenities);
    var c := ShortenCell(CellAt(mid, i, Amenities));
    assert cells[..i + 1][..i] == cells[..i];
    assert cells[..i + 1][i] == CellAt(mid, i, Amenities);
    assert ShortenCells(cells[..i + 1]) == ShortenCells(cells[..i]) + [c];
    SetColumnStep(mid, Amenities, ShortenCells(cells[..i]), c);
  }

  lemma AbbreviatedAll(df: Frame, table: seq<(string, string)>, mid: Frame)
    requires Shrinking(table)
    requires AbbreviatedUpTo(df, table, |df.rows|, mid)
    ensures AbbreviateCells(CellsOf(df, Amenities), table).Ok?
    ensures mid == SetColumn(df, Amenities, AbbreviateCells(CellsOf(df, Amenities), table).value)
  {
    var cells := CellsOf(df, Amenities);
    assert cells[..|df.rows|] == cells;
  }

  lemma ShortenedAll(mid: Frame, out: Frame)
    requires ShortenedUpTo(mid, |mid.rows|, out)
    ensures out == SetColumn(mid, Amenities, ShortenCells(CellsOf(mid, Amenities)))
  {
    var cells := CellsOf(mid, Amenities);
    assert cells[..|mid.rows|] == cells;
  }

  lemma ShrinkDone(df: Frame, table: seq<(string, string)>, mid: Frame, out: Frame)
    requires Shrinking(table)
    requires Amenities in df.columns
    requires AbbreviatedUpTo(df, table, |df.rows|, mid)
    requires ShortenedUpTo(mid, |mid.rows|, out)
    ensures ShrinkSpec(df, table) == Ok(out)
  {
    AbbreviatedAll(df, table, mid);
    ShortenedAll(mid, out);
  }

  /** The two loops of the upload step over `Amenities`, each writing
      `data_df.at[index, 'Amenities']` row by row. */
  method ShrinkAmenities(df: Frame) returns (r: Result<Frame>)
    ensures r == ShrinkSpec(df, ShrinkTable())
  {
    var table := ShrinkTable();
    if Amenities !in df.columns {
      return Raise(KeyError);
    }
    var out := df;
    var i := 0;
    AbbreviatedStart(df, table);
    while i < |df.rows|
      invariant AbbreviatedUpTo(df, table, i, out)
    {
      var c := AbbreviateCell(CellAt(df, i, Amenities), table);
      if c.Raise? {
        AbbreviatedFails(df, table, i, out);
        return Raise(c.error);
      }
      AbbreviatedNext(df, table, i, out);
      out := WriteCell(out, i, Amenities, c.value);
      i := i + 1;
    }
    var mid := out;
    ShortenedStart(df, table, mid);
    i := 0;
    while i < |mid.rows|
      invariant ShortenedUpTo(mid, i, out)
    {
      ShortenedNext(mid, i, out);
      out := WriteCell(out, i, Amenities, ShortenCell(CellAt(mid, i, Amenities)));
      i := i + 1;
    }
    ShrinkDone(df, table, mid, out);
    return Ok(out);
  }

  /** Both passes leave every other column and the row count as they were, and each
      amenity cell is the cut of the abbreviation of what it held. */
  lemma ShrinkEffect(df: Frame, table: seq<(string, string)>)
    requires Shrinking(table)
    requires ShrinkSpec(df, table).Ok?
    ensures var out := ShrinkSpec(df, table).value;
            && out.columns == df.columns && |out.rows| == |df.rows|
            && (forall i, c :: 0 <= i < |out.rows| && c != Amenities ==> CellAt(out, i, c) == CellAt(df, i, c))
            && (forall i :: 0 <= i < |out.rows| ==>
                  var before := CellAt(df, i, Amenities);
                  && (before.Null? ==> CellAt(out, i, Amenities) == Null)
                  && (before.Text? ==>
                        CellAt(out, i, Amenities) == Text(Shorten(Abbreviate(before.s, table)))))
  {
    var cells := CellsOf(df, Amenities);
    var abbreviated := AbbreviateCells(cells, table).value;
    var mid := SetColumn(df, Amenities, abbreviated);
    var out := ShrinkSpec(df, table).value;
    forall i | 0 <= i < |out.rows|
      ensures var before := CellAt(df, i, Amenities);
              && (before.Null? ==> CellAt(out, i, Amenities) == Null)
              && (before.Text? ==> CellAt(out, i, Amenities) == Text(Shorten(Abbreviate(before.s, table))))
    {
      assert cells[i] == CellAt(df, i, Amenities);
      assert CellAt(mid, i, Amenities) == abbreviated[i];
    }
  }

  /** A frame without the column raises KeyError; one whose column holds a value that is
      neither null nor text raises AttributeError. */
  lemma ShrinkErrors(df: Frame, table: seq<(string, string)>)
    requires Shrinking(table)
    ensures Amenities !in df.columns ==> ShrinkSpec(df, table) == Raise(KeyError)
    ensures Amenities in df.columns ==>
              (ShrinkSpec(df, table) == Raise(AttributeError) <==>
                 exists i :: 0 <= i < |df.rows| && !CellAt(df, i, Amenities).Null? && !CellAt(df, i, Amenities).Text?)
    ensures ShrinkSpec(df, table).Raise? ==> ShrinkSpec(df, table).error in {KeyError, AttributeError}
  {
    if Amenities in df.columns {
      var cells := CellsOf(df, Amenities);
      if exists i :: 0 <= i < |df.rows| && !CellAt(df, i, Amenities).Null? && !CellAt(df, i, Amenities).Text? {
        var i :| 0 <= i < |df.rows| && !CellAt(df, i, Amenities).Null? && !CellAt(df, i, Amenities).Text?;
        assert cells[i] == CellAt(df, i, Amenities);
      }
    }
  }
}
