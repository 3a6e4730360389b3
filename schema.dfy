/** The columns of the property table. Every row the parser produces has exactly these
    columns; the 25 bedroom columns are indexed by bedroom category and metric, and
    `Name` gives each column's name in the database table. */
module Schema {
  /** The bedroom categories the unit-mix summary reports. */
  datatype BedroomType = Studio | OneBed | TwoBed | ThreeBed | FourBed {
    /** The heading of this category's column in the unit-mix summary. */
    function Label(): string
    {
      match this
      case Studio => "All Studios"
      case OneBed => "All 1 Beds"
      case TwoBed => "All 2 Beds"
      case ThreeBed => "All 3 Beds"
      case FourBed => "All 4 Beds"
    }
  }

  /** The metrics read per bedroom category, in the order the parser reads them. */
  datatype Metric = AskingRent | AvgArea | EffectiveRent | UnitCount | Concessions {
    /** The unit-mix summary row the metric is read from. */
    function SummaryRow(): string
    {
      match this
      case AskingRent => "askingRentPerUnit"
      case AvgArea => "averageArea"
      case EffectiveRent => "effectiveRentPerUnit"
      case UnitCount => "unitMixBeds"
      case Concessions => "concessions"
    }
  }

  const AllBedroomTypes: set<BedroomType> := {Studio, OneBed, TwoBed, ThreeBed, FourBed}
  const AllMetrics: set<Metric> := {AskingRent, AvgArea, EffectiveRent, UnitCount, Concessions}

  datatype Column =
    | CoStarPropertyID | PropertyName | PropertyAddress
    | Bedroom(kind: BedroomType, metric: Metric)
    | NumberOfUnits | Latitude | Longitude | PropertyManagerName | TrueOwnerName
    | BuildingClass | StarRating | Amenities | YearBuilt | ParkingSpaces | BuildingStories
    | PercentLeased | City | State | Zip
  {
    /** The column's name in the table. */
    function Name(): string
    {
      match this
      case CoStarPropertyID => "CoStarPropertyID"
      case PropertyName => "PropertyName"
      case PropertyAddress => "PropertyAddress"
      case Bedroom(kind, metric) => BedroomColumnName(kind, metric)
      case NumberOfUnits => "NumberOfUnits"
      case Latitude => "Latitude"
      case Longitude => "Longitude"
      case PropertyManagerName => "PropertyManagerName"
      case TrueOwnerName => "TrueOwnerName"
      case BuildingClass => "BuildingClass"
      case StarRating => "StarRating"
      case Amenities => "Amenities"
      case YearBuilt => "YearBuilt"
      case ParkingSpaces => "ParkingSpaces"
      case BuildingStories => "BuildingStories"
      case PercentLeased => "PercentLeased"
      case City => "City"
      case State => "State"
      case Zip => "Zip"
    }
  }

  function BedroomColumnName(kind: BedroomType, metric: Metric): string
  {
    var word := match kind
      case Studio => "Studio"
      case OneBed => "OneBedroom"
      case TwoBed => "TwoBedroom"
      case ThreeBed => "ThreeBedroom"
      case FourBed => "FourBedroom";
    var count := match kind
      case Studio => "NumberOfStudioUnits"
      case OneBed => "NumberOf1BedroomsUnits"
      case TwoBed => "NumberOf2BedroomsUnits"
      case ThreeBed => "NumberOf3BedroomsUnits"
      case FourBed => "NumberOf4BedroomsUnits";
    match metric
    case AskingRent => word + "AskingRentUnit"
    case AvgArea => word + "AvgSF"
    case EffectiveRent => word + "EffectiveRentUnit"
    case UnitCount => count
    case Concessions => word + "ConcessionsPercentage"
  }

  /** The 18 columns outside the bedroom block. */
  const ScalarColumns: set<Column> :=
    {CoStarPropertyID, PropertyName, PropertyAddress, NumberOfUnits, Latitude, Longitude,
     PropertyManagerName, TrueOwnerName, BuildingClass, StarRating, Amenities, YearBuilt,
     ParkingSpaces, BuildingStories, PercentLeased, City, State, Zip}

  /** The 25 bedroom columns. */
  const BedroomColumns: set<Column> :=
    set kind, metric | kind in AllBedroomTypes && metric in AllMetrics :: Bedroom(kind, metric)

  const AllColumns: set<Column> := ScalarColumns + BedroomColumns

  /** Every column value is in the schema. */
  lemma AllColumnsComplete(c: Column)
    ensures c in AllColumns
  {
    if c.Bedroom? {
      assert c.kind in AllBedroomTypes by {
        match c.kind
        case Studio =>
        case OneBed =>
        case TwoBed =>
        case ThreeBed =>
        case FourBed =>
      }
      assert c.metric in AllMetrics by {
        match c.metric
        case AskingRent =>
        case AvgArea =>
        case EffectiveRent =>
        case UnitCount =>
        case Concessions =>
      }
    }
  }

  /** The length of a bedroom type's word in its column names. */
  function WordLength(k: BedroomType): nat
  {
    match k
    case Studio => 6
    case OneBed => 10
    case TwoBed => 10
    case ThreeBed => 12
    case FourBed => 11
  }

  /** The length and the last character of a bedroom column's name. */
  lemma BedroomNameShape(k: BedroomType, m: Metric)
    ensures m != UnitCount ==> |BedroomColumnName(k, m)| == WordLength(k) + (match m
              case AskingRent => 14 case AvgArea => 5 case EffectiveRent => 17 case _ => 21)
    ensures |BedroomColumnName(k, m)| > 0
    ensures BedroomColumnName(k, m)[|BedroomColumnName(k, m)| - 1] == (match m
              case AskingRent => 't' case AvgArea => 'F' case EffectiveRent => 't'
              case UnitCount => 's' case Concessions => 'e')
  {
  }

  /** Two bedroom types never share a column name for the same metric. */
  lemma SameMetricNamesDistinct(k1: BedroomType, k2: BedroomType, m: Metric)
    ensures BedroomColumnName(k1, m) == BedroomColumnName(k2, m) ==> k1 == k2
  {
    var n1, n2 := BedroomColumnName(k1, m), BedroomColumnName(k2, m);
    if n1 == n2 {
      assert |n1| == |n2| && n1[0] == n2[0] && n1[1] == n2[1];
      if m == UnitCount {
        assert n1[8] == n2[8];
      }
    }
  }

  /** Different metrics never share a column name. */
  lemma OtherMetricNamesDistinct(k1: BedroomType, m1: Metric, k2: BedroomType, m2: Metric)
    requires m1 != m2
    ensures BedroomColumnName(k1, m1) != BedroomColumnName(k2, m2)
  {
    BedroomNameShape(k1, m1);
    BedroomNameShape(k2, m2);
  }

  lemma ScalarNamesDistinct(a: Column, b: Column)
    requires !a.Bedroom? && !b.Bedroom?
    ensures a.Name() == b.Name() ==> a == b
  {
  }

  lemma ScalarBedroomNamesDistinct(a: Column, k: BedroomType, m: Metric)
    requires !a.Bedroom?
    ensures a.Name() != BedroomColumnName(k, m)
  {
    BedroomNameShape(k, m);
  }

  /** The 43 column names are pairwise distinct, as keys of the row's dictionary must be. */
  lemma ColumnNamesDistinct(a: Column, b: Column)
    ensures a.Name() == b.Name() <==> a == b
  {
    if a.Bedroom? && b.Bedroom? {
      if a.metric == b.metric {
        SameMetricNamesDistinct(a.kind, b.kind, a.metric);
      } else {
        OtherMetricNamesDistinct(a.kind, a.metric, b.kind, b.metric);
      }
    } else if a.Bedroom? {
      ScalarBedroomNamesDistinct(b, a.kind, a.metric);
    } else if b.Bedroom? {
      ScalarBedroomNamesDistinct(a, b.kind, b.metric);
    } else {
      ScalarNamesDistinct(a, b);
    }
  }
}
