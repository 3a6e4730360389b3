/** Reading one stored response into one table row (`read_call_response_into_df` and
    `assemble_single_property_df`). The decoded response is the list of the seven facet
    responses, read by position. Lookups that the code guards fall back to the null
    marker; every other failed lookup raises, and only an undecodable file raises
    ValueError. */
module ResponseParser {
  import opened Python
  import opened Json
  import opened Table
  import opened Payload
  import opened ResponseFile
  import opened UnitMix
  import opened Schema

  /** `doc[slot]['data']['propertyDetail']` */
  function Facet(slot: nat): seq<Step>
  {
    [Pos(slot), Name("data"), Name("propertyDetail")]
  }

  function SummaryItemsPath(): seq<Step>
  {
    Facet(UnitMixSlot) + [Name("unit_mix_detail"), Name("summaryItems")]
  }

  /** A field of `property_info`. */
  function PropertyInfoPath(field: string): seq<Step>
  {
    Facet(PropertyInfoSlot) + [Name("property_info"), Name(field)]
  }

  /** A field of `property_info.address`. */
  function AddressPath(field: string): seq<Step>
  {
    Facet(PropertyInfoSlot) + [Name("property_info"), Name("address"), Name(field)]
  }

  /** The name of the first company in a contact role. */
  function ContactNamePath(role: string): seq<Step>
  {
    Facet(ContactsSlot) + [Name("propertyContactDetails_info"), Name(role), Pos(0), Name("name")]
  }

  /** One of the three amenity lists. */
  function AmenityListPath(list: string): seq<Step>
  {
    Facet(AmenitiesSlot) + [Name("amenities_Info"), Name(list)]
  }

  /** The unit-mix summary table of a response. */
  function SummaryTable(doc: Json): (r: Result<Summary>)
    ensures r.Raise? ==> r.error in {KeyError, IndexError, TypeError}
  {
    var items :- Get(doc, SummaryItemsPath());
    TableOf(items)
  }

  /** `100 - float(table.at['availablePercent', 'Totals'][:-1])`, null when the cell is
      missing (KeyError) or its text does not parse (ValueError); slicing a cell that is
      not a string raises TypeError. The float parse is the oracle `parseFloat`. */
  function LeasedPercent(t: Summary, parseFloat: string -> Option<real>): (r: Result<Cell>)
    ensures r.Raise? <==> At(t, "availablePercent", "Totals").Ok? && !At(t, "availablePercent", "Totals").value.Text?
    ensures r.Raise? ==> r.error == TypeError
    ensures At(t, "availablePercent", "Totals").Raise? ==> r == Ok(Null)
    ensures r.Ok? && r.value != Null ==>
              var s := At(t, "availablePercent", "Totals").value.s;
              parseFloat(SliceTo(s, -1)).Some? && r.value == Real(100.0 - parseFloat(SliceTo(s, -1)).value)
  {
    match At(t, "availablePercent", "Totals")
    case Raise(_) => Ok(Null)
    case Ok(Text(s)) =>
      (match parseFloat(SliceTo(s, -1))
       case None => Ok(Null)
       case Some(x) => Ok(Real(100.0 - x)))
    case Ok(_) => Raise(TypeError)
  }

  /** `table.at['unitMixBeds', 'Totals']`, null on KeyError; not screened for '-'. */
  function TotalUnits(t: Summary): (c: Cell)
    ensures "unitMixBeds" in t.rows && "Totals" in t.columns ==> c == At(t, "unitMixBeds", "Totals").value
    ensures !("unitMixBeds" in t.rows && "Totals" in t.columns) ==> c == Null
  {
    match At(t, "unitMixBeds", "Totals")
    case Ok(c) => c
    case Raise(_) => Null
  }

  /** The first company's name in a contact role; KeyError and IndexError fall back to
      null, a TypeError (a null role, say) is not caught. */
  function ContactName(doc: Json, role: string): (r: Result<Cell>)
    ensures r.Raise? <==> Get(doc, ContactNamePath(role)) == Raise(TypeError)
    ensures r.Raise? ==> r.error == TypeError
    ensures Get(doc, ContactNamePath(role)).Ok? ==> r == Ok(CellOf(Get(doc, ContactNamePath(role)).value))
    ensures Get(doc, ContactNamePath(role)).Raise? && r.Ok? ==> r.value == Null
  {
    match Get(doc, ContactNamePath(role))
    case Ok(j) => Ok(CellOf(j))
    case Raise(e) => if e == TypeError then Raise(TypeError) else Ok(Null)
  }

  /** The zip code: null stays null, a nine-digit code keeps its first five characters,
      any other length is kept whole. `len()` of a value that is neither is modelled as
      a TypeError. */
  function ZipOf(postal: Json): (r: Result<Cell>)
    ensures r.Ok? <==> postal.JNull? || postal.JStr?
    ensures postal.JNull? ==> r == Ok(Null)
    ensures postal.JStr? ==> r.value.Text? && |r.value.s| != 9 && r.value.s <= postal.s
    ensures postal.JStr? && |postal.s| != 9 ==> r.value.s == postal.s
    ensures postal.JStr? && |postal.s| == 9 ==> |r.value.s| == 5
    ensures r.Raise? ==> r.error == TypeError
  {
    match postal
    case JNull => Ok(Null)
    case JStr(s) => Ok(Text(if |s| == 9 then s[..5] else s))
    case _ => Raise(TypeError)
  }

  /** A normalised zip code is left as it is by normalising again. */
  lemma ZipOfIdempotent(postal: Json)
    requires ZipOf(postal).Ok? && ZipOf(postal).value.Text?
    ensures ZipOf(JStr(ZipOf(postal).value.s)) == ZipOf(postal)
  {
  }

  /** The parking count: the text "None" becomes 0; anything else is kept. */
  function ParkingOf(j: Json): (c: Cell)
    ensures c == Int(0) <==> j == JStr("None")
    ensures j != JStr("None") ==> c == CellOf(j)
  {
    if j == JStr("None") then Int(0) else CellOf(j)
  }

  /** Does Python's `+` treat the value as a number (`bool` counts as 0 or 1)? */
  predicate Numeric(j: Json)
  {
    j.JNum? || j.JBool?
  }

  function NumberOf(j: Json): real
    requires Numeric(j)
  {
    match j
    case JNum(n) => n
    case JBool(b) => if b then 1.0 else 0.0
  }

  /** `a + b` on two decoded values: lists and strings concatenate, numbers add, and
      every other pairing raises TypeError. */
  function Plus(a: Json, b: Json): (r: Result<Json>)
    ensures r.Ok? <==> (a.JArr? && b.JArr?) || (a.JStr? && b.JStr?) || (Numeric(a) && Numeric(b))
    ensures a.JArr? && b.JArr? ==> r == Ok(JArr(a.items + b.items))
    ensures a.JStr? && b.JStr? ==> r == Ok(JStr(a.s + b.s))
    ensures r.Ok? ==> r.value.JArr? || r.value.JStr? || r.value.JNum?
    ensures r.Raise? ==> r.error == TypeError
  {
    if a.JArr? && b.JArr? then Ok(JArr(a.items + b.items))
    else if a.JStr? && b.JStr? then Ok(JStr(a.s + b.s))
    else if Numeric(a) && Numeric(b) then Ok(JNum(NumberOf(a) + NumberOf(b)))
    else Raise(TypeError)
  }

  /** The strings of a list whose items must all be strings (`str.join` raises TypeError
      otherwise). */
  function Texts(items: seq<Json>): (r: Result<seq<string>>)
    ensures r.Ok? <==> forall i :: 0 <= i < |items| ==> items[i].JStr?
    ensures r.Ok? ==> |r.value| == |items| && forall i :: 0 <= i < |items| ==> r.value[i] == items[i].s
    ensures r.Raise? ==> r.error == TypeError
  {
    if items == [] then Ok([])
    else
      var rest :- Texts(items[1..]);
      if items[0].JStr? then Ok([items[0].s] + rest) else Raise(TypeError)
  }

  /** What `str.join` iterates over: the items of a list, which must all be strings, or
      the characters of a string; anything else raises TypeError. */
  function JoinParts(j: Json): (r: Result<seq<string>>)
    ensures r.Ok? <==> j.JStr? || (j.JArr? && forall i :: 0 <= i < |j.items| ==> j.items[i].JStr?)
    ensures j.JArr? && r.Ok? ==> r == Texts(j.items)
    ensures j.JStr? ==> r.Ok? && |r.value| == |j.s| && forall i :: 0 <= i < |j.s| ==> r.value[i] == [j.s[i]]
    ensures r.Raise? ==> r.error == TypeError
  {
    match j
    case JArr(items) => Texts(items)
    case JStr(s) => Ok(seq(|s|, i requires 0 <= i < |s| => [s[i]]))
    case _ => Raise(TypeError)
  }

  /** The amenity text: `'; '.join(unit + generic + room)` over the three amenity
      lists, in that order; an empty result becomes null. */
  function AmenityText(doc: Json): (r: Result<Cell>)
    ensures r.Ok? ==> r.value == Null || (r.value.Text? && r.value.s != "")
    ensures r.Raise? ==> r.error in {KeyError, IndexError, TypeError}
  {
    var unitAmenities :- Get(doc, AmenityListPath("unitAmenities"));
    var genericAmenities :- Get(doc, AmenityListPath("amenities"));
    var both :- Plus(unitAmenities, genericAmenities);
    var roomAmenities :- Get(doc, AmenityListPath("roomAmenities"));
    var all :- Plus(both, roomAmenities);
    var names :- JoinParts(all);
    var joined := Join(names, "; ");
    Ok(if joined == "" then Null else Text(joined))
  }

  /** The list of a sequence of strings as decoded JSON. */
  function StringList(names: seq<string>): (j: Json)
    ensures j.JArr? && |j.items| == |names|
    ensures forall i :: 0 <= i < |names| ==> j.items[i] == JStr(names[i])
  {
    JArr(seq(|names|, i requires 0 <= i < |names| => JStr(names[i])))
  }

  /** `+` on two lists of strings is the list of both. */
  lemma StringListAppend(a: seq<string>, b: seq<string>)
    ensures Plus(StringList(a), StringList(b)) == Ok(StringList(a + b))
  {
    assert StringList(a).items + StringList(b).items == StringList(a + b).items;
  }

  /** Joining a list of strings joins those strings. */
  lemma JoinPartsStringList(names: seq<string>)
    ensures JoinParts(StringList(names)) == Ok(names)
  {
    var items := StringList(names).items;
    assert Texts(items).Ok?;
    assert Texts(items).value == names;
  }

  /** With three lists of strings, the amenity text is null exactly when there is no
      amenity at all or the only one is empty, and otherwise lists the amenities in
      order: unit, generic, room. */
  lemma AmenityTextOfLists(doc: Json, unit: seq<string>, generic: seq<string>, room: seq<string>)
    requires Get(doc, AmenityListPath("unitAmenities")) == Ok(StringList(unit))
    requires Get(doc, AmenityListPath("amenities")) == Ok(StringList(generic))
    requires Get(doc, AmenityListPath("roomAmenities")) == Ok(StringList(room))
    ensures var names := unit + generic + room;
            AmenityText(doc) == Ok(if names == [] || names == [""] then Null else Text(Join(names, "; ")))
  {
    var names := unit + generic + room;
    StringListAppend(unit, generic);
    StringListAppend(unit + generic, room);
    JoinPartsStringList(names);
    JoinEmpty(names, "; ");
  }

  /** A join with a non-empty separator is empty only for no parts or one empty part. */
  lemma {:induction false} JoinEmpty(parts: seq<string>, sep: string)
    requires |sep| > 0
    ensures Join(parts, sep) == "" <==> parts == [] || parts == [""]
  {
    if |parts| > 1 {
      assert |Join(parts, sep)| >= |sep|;
    }
  }

  /** `additional_metrics_dict`: the values the parser derives from the response. */
  datatype AdditionalMetrics = AdditionalMetrics(
    amenities: Cell, parking: Cell, zipcode: Cell, trueOwner: Cell, propertyManager: Cell,
    percentLeased: Cell, unitCount: Cell)

  /** The five per-category packs, by bedroom category. */
  datatype MetricPacks = MetricPacks(studio: BedroomMetrics, one: BedroomMetrics, two: BedroomMetrics,
                                     three: BedroomMetrics, four: BedroomMetrics)
  {
    function Pack(kind: BedroomType): BedroomMetrics
    {
      match kind
      case Studio => studio
      case OneBed => one
      case TwoBed => two
      case ThreeBed => three
      case FourBed => four
    }
  }

  /** The derived metrics, read in the order the code evaluates them, so the first
      failing step is the one raised. */
  function ReadExtra(doc: Json, t: Summary, parseFloat: string -> Option<real>): (r: Result<AdditionalMetrics>)
    ensures r.Raise? ==> r.error in {KeyError, IndexError, TypeError}
    ensures r.Ok? ==> r.value.amenities == Null || (r.value.amenities.Text? && r.value.amenities.s != "")
  {
    var percentLeased :- LeasedPercent(t, parseFloat);
    var unitCount := TotalUnits(t);
    var manager :- ContactName(doc, "propertyManager");
    var owner :- ContactName(doc, "trueOwner");
    var postal :- Get(doc, AddressPath("postalCode"));
    var zip :- ZipOf(postal);
    var parking :- Get(doc, PropertyInfoPath("numOfParkingSpaces"));
    var amenities :- AmenityText(doc);
    Ok(AdditionalMetrics(amenities, ParkingOf(parking), zip, owner, manager, percentLeased, unitCount))
  }

  /** The five packs, studio first; each category is read when its heading is a column. */
  function ReadPacks(t: Summary): (r: Result<MetricPacks>)
    ensures r.Raise? ==> r.error == KeyError
    ensures r.Ok? ==> forall kind: BedroomType :: r.value.Pack(kind).Screened()
  {
    var studio :- RoomTypeMetrics(Studio, Studio.Label() in t.columns, t);
    var one :- RoomTypeMetrics(OneBed, OneBed.Label() in t.columns, t);
    var two :- RoomTypeMetrics(TwoBed, TwoBed.Label() in t.columns, t);
    var three :- RoomTypeMetrics(ThreeBed, ThreeBed.Label() in t.columns, t);
    var four :- RoomTypeMetrics(FourBed, FourBed.Label() in t.columns, t);
    Ok(MetricPacks(studio, one, two, three, four))
  }

  /** What `read_call_response_into_df` computes from a decoded response before it
      assembles the row: the summary table, the derived metrics, then the five packs. */
  function ReadMetrics(doc: Json, parseFloat: string -> Option<real>): (r: Result<(AdditionalMetrics, MetricPacks)>)
    ensures r.Raise? ==> r.error in {KeyError, IndexError, TypeError}
    ensures r.Ok? ==> var extra := r.value.0;
                      extra.amenities == Null || (extra.amenities.Text? && extra.amenities.s != "")
    ensures r.Ok? ==> forall kind: BedroomType :: r.value.1.Pack(kind).Screened()
  {
    var t :- SummaryTable(doc);
    var extra :- ReadExtra(doc, t, parseFloat);
    var packs :- ReadPacks(t);
    Ok((extra, packs))
  }

  /** The fields `assemble_single_property_df` reads itself: the id from the file path
      and the building details from the property-information response. */
  datatype Details = Details(
    id: string, name: Cell, address: Cell, latitude: Cell, longitude: Cell,
    buildingClass: Cell, rating: Cell, yearBuilt: Cell, stories: Cell, city: Cell, state: Cell)

  /** The lookups of the building details, in the order the row's dictionary literal
      evaluates them. */
  function DetailPaths(): (paths: seq<seq<Step>>)
    ensures |paths| == 10
  {
    [AddressPath("buildingName"), AddressPath("deliveryAddress"),
     PropertyInfoPath("latitude"), PropertyInfoPath("longitude"),
     PropertyInfoPath("bldgClass"), PropertyInfoPath("buildingRating"),
     PropertyInfoPath("yearBuilt"), PropertyInfoPath("numOfStories"),
     AddressPath("city"), AddressPath("state")]
  }

  /** Lookups done one after the other: the values of all of them, or the error of the
      first that fails. */
  function GetAll(doc: Json, paths: seq<seq<Step>>): (r: Result<seq<Json>>)
    ensures r.Ok? <==> forall i :: 0 <= i < |paths| ==> Get(doc, paths[i]).Ok?
    ensures r.Ok? ==> |r.value| == |paths| && forall i :: 0 <= i < |paths| ==> Get(doc, paths[i]) == Ok(r.value[i])
    ensures r.Raise? ==> exists i :: 0 <= i < |paths| && Get(doc, paths[i]) == Raise(r.error)
                                     && forall j :: 0 <= j < i ==> Get(doc, paths[j]).Ok?
    ensures r.Raise? ==> r.error in {KeyError, IndexError, TypeError}
  {
    if paths == [] then Ok([])
    else
      var first :- Get(doc, paths[0]);
      var rest :- GetAll(doc, paths[1..]);
      assert forall i :: 1 <= i < |paths| ==> paths[1..][i - 1] == paths[i];
      Ok([first] + rest)
  }

  /** The building details: the id from the path first, then the lookups. */
  function ReadDetails(path: string, doc: Json): (r: Result<Details>)
    ensures r.Raise? ==> r.error in {KeyError, IndexError, TypeError}
    ensures r.Raise? <==> ExtractId(path).Raise? || GetAll(doc, DetailPaths()).Raise?
    ensures r.Ok? ==> ExtractId(path) == Ok(r.value.id)
  {
    var id :- ExtractId(path);
    var v :- GetAll(doc, DetailPaths());
    Ok(Details(id, CellOf(v[0]), CellOf(v[1]), CellOf(v[2]), CellOf(v[3]), CellOf(v[4]),
               CellOf(v[5]), CellOf(v[6]), CellOf(v[7]), CellOf(v[8]), CellOf(v[9])))
  }

  /** A row holding every column of the schema. */
  ghost predicate Complete(row: Row)
  {
    forall c: Column :: c in row
  }

  /** The value the row's dictionary literal puts in column `c`. */
  function CellFor(d: Details, packs: MetricPacks, extra: AdditionalMetrics, c: Column): Cell
  {
    match c
    case CoStarPropertyID => Text(d.id)
    case PropertyName => d.name
    case PropertyAddress => d.address
    case Bedroom(kind, metric) => packs.Pack(kind).Get(metric)
    case NumberOfUnits => extra.unitCount
    case Latitude => d.latitude
    case Longitude => d.longitude
    case PropertyManagerName => extra.propertyManager
    case TrueOwnerName => extra.trueOwner
    case BuildingClass => d.buildingClass
    case StarRating => d.rating
    case Amenities => extra.amenities
    case YearBuilt => d.yearBuilt
    case ParkingSpaces => extra.parking
    case BuildingStories => d.stories
    case PercentLeased => extra.percentLeased
    case City => d.city
    case State => d.state
    case Zip => extra.zipcode
  }

  /** The assembled row: every column of the schema, each holding its value. */
  function RowOf(d: Details, packs: MetricPacks, extra: AdditionalMetrics): (row: Row)
    ensures Complete(row)
    ensures forall c :: c in row ==> row[c] == CellFor(d, packs, extra, c)
  {
    var row := map c | c in AllColumns :: CellFor(d, packs, extra, c);
    assert Complete(row) by {
      forall c: Column ensures c in row {
        AllColumnsComplete(c);
      }
    }
    row
  }

  /** `assemble_single_property_df`. */
  function Assemble(path: string, doc: Json, packs: MetricPacks, extra: AdditionalMetrics): (r: Result<Row>)
    ensures r.Raise? <==> ReadDetails(path, doc).Raise?
    ensures r.Raise? ==> r.error in {KeyError, IndexError, TypeError}
    ensures r.Ok? ==> Complete(r.value)
    ensures r.Ok? ==> r.value == RowOf(ReadDetails(path, doc).value, packs, extra)
  {
    var d :- ReadDetails(path, doc);
    Ok(RowOf(d, packs, extra))
  }

  /** The row read from one stored response file (`read_call_response_into_df` without
      the final concatenation, which the driver does). Only a file that does not decode
      raises ValueError. */
  function ReadResponse(path: string, body: FileBody, parseFloat: string -> Option<real>): (r: Result<Row>)
    ensures r == Raise(ValueError) <==> body.Undecodable?
    ensures r.Ok? ==> Complete(r.value)
  {
    match body
    case Undecodable => Raise(ValueError)
    case Decoded(doc) =>
      var (extra, packs) :- ReadMetrics(doc, parseFloat);
      Assemble(path, doc, packs, extra)
  }

  /** The row holds the id as text, the amenity text and each category's pack in that
      category's columns. */
  lemma RowOfColumns(d: Details, packs: MetricPacks, extra: AdditionalMetrics)
    ensures var row := RowOf(d, packs, extra);
            && row[CoStarPropertyID] == Text(d.id)
            && row[Amenities] == extra.amenities
            && forall kind: BedroomType, m: Metric :: row[Bedroom(kind, m)] == packs.Pack(kind).Get(m)
  {
    var row := RowOf(d, packs, extra);
    assert row[CoStarPropertyID] == CellFor(d, packs, extra, CoStarPropertyID);
    assert row[Amenities] == CellFor(d, packs, extra, Amenities);
    forall kind: BedroomType, m: Metric ensures row[Bedroom(kind, m)] == packs.Pack(kind).Get(m) {
      assert row[Bedroom(kind, m)] == CellFor(d, packs, extra, Bedroom(kind, m));
    }
  }

  /** An assembled row carries the id read from its path, the derived amenity text and
      each category's pack in that category's columns. */
  lemma AssembledRow(path: string, doc: Json, packs: MetricPacks, extra: AdditionalMetrics)
    requires Assemble(path, doc, packs, extra).Ok?
    ensures var row := Assemble(path, doc, packs, extra).value;
            && ExtractId(path).Ok? && row[CoStarPropertyID] == Text(ExtractId(path).value)
            && row[Amenities] == extra.amenities
            && forall kind: BedroomType, m: Metric :: row[Bedroom(kind, m)] == packs.Pack(kind).Get(m)
  {
    RowOfColumns(ReadDetails(path, doc).value, packs, extra);
  }

  /** A parsed row carries the id read from its path, an amenity text that is null or
      non-empty, and no bedroom metric left as the placeholder '-'. */
  lemma ParsedRow(path: string, body: FileBody, parseFloat: string -> Option<real>)
    requires ReadResponse(path, body, parseFloat).Ok?
    ensures var row := ReadResponse(path, body, parseFloat).value;
            && ExtractId(path).Ok? && row[CoStarPropertyID] == Text(ExtractId(path).value)
            && (row[Amenities] == Null || (row[Amenities].Text? && row[Amenities].s != ""))
            && forall kind: BedroomType, m: Metric :: row[Bedroom(kind, m)] != Text("-")
  {
    var (extra, packs) := ReadMetrics(body.doc, parseFloat).value;
    AssembledRow(path, body.doc, packs, extra);
  }
}
