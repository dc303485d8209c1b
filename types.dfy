/**
 * The records and the filter selection of the explorer (`types.ts`), and
 * the six filterable dimensions with the value each compares against.
 */
module Types {
  import opened Text

  /** A TypeScript `number | string`: a placement, or a raw sheet cell value. */
  datatype Scalar = Num(n: int) | Str(s: string)

  /** `String(v)`. */
  function ScalarToString(v: Scalar): string {
    match v
    case Num(n) => IntToString(n)
    case Str(s) => s
  }

  /** JavaScript truthiness of a number or a string: neither `0` nor `""`. */
  predicate Truthy(v: Scalar) {
    match v
    case Num(n) => n != 0
    case Str(s) => s != ""
  }

  /** The unranked placement sentinel. */
  const Unplaced: Scalar := Str("-")

  /** One competition result row (`BandScore`). */
  datatype BandScore = BandScore(
    ID: int,
    Year: int,
    Event: string,
    ShowRound: string,
    NewSchool: string,
    Total: int,
    Class: string,
    PlaceClass: Scalar,
    PlacePanel: Scalar,
    PlaceOverall: Scalar,
    StateLong: string,
    Search: string)

  /** The user's selection (`FilterState`): one value list per dimension and a free-text query. */
  datatype FilterState = FilterState(
    Year: seq<string>,
    Event: seq<string>,
    ShowRound: seq<string>,
    Class: seq<string>,
    SearchQuery: string,
    NewSchools: seq<string>,
    StateLong: seq<string>)

  /** The keys of `FilterState` that hold a value list. */
  datatype Dimension = YearDim | EventDim | RoundDim | ClassDim | StateDim | SchoolDim

  const AllDimensions: seq<Dimension> := [YearDim, EventDim, RoundDim, ClassDim, StateDim, SchoolDim]

  lemma {:induction false} AllDimensionsComplete(d: Dimension)
    ensures d in AllDimensions
  {
  }

  /** The value list the selection holds for dimension `d`. */
  function Selection(f: FilterState, d: Dimension): seq<string> {
    match d
    case YearDim => f.Year
    case EventDim => f.Event
    case RoundDim => f.ShowRound
    case ClassDim => f.Class
    case StateDim => f.StateLong
    case SchoolDim => f.NewSchools
  }

  /** `{ ...filters, [key]: sel }`: the selection with one value list replaced. */
  function WithSelection(f: FilterState, d: Dimension, sel: seq<string>): (r: FilterState)
    ensures Selection(r, d) == sel
    ensures forall e :: e != d ==> Selection(r, e) == Selection(f, e)
    ensures r.SearchQuery == f.SearchQuery
  {
    match d
    case YearDim => f.(Year := sel)
    case EventDim => f.(Event := sel)
    case RoundDim => f.(ShowRound := sel)
    case ClassDim => f.(Class := sel)
    case StateDim => f.(StateLong := sel)
    case SchoolDim => f.(NewSchools := sel)
  }

  /** Two selections that agree on the query and on every value list are equal. */
  lemma {:induction false} SelectionExtensional(f: FilterState, g: FilterState)
    requires f.SearchQuery == g.SearchQuery
    requires forall d :: Selection(f, d) == Selection(g, d)
    ensures f == g
  {
    assert Selection(f, YearDim) == Selection(g, YearDim);
    assert Selection(f, EventDim) == Selection(g, EventDim);
    assert Selection(f, RoundDim) == Selection(g, RoundDim);
    assert Selection(f, ClassDim) == Selection(g, ClassDim);
    assert Selection(f, StateDim) == Selection(g, StateDim);
    assert Selection(f, SchoolDim) == Selection(g, SchoolDim);
  }

  /** The field a record is matched on for dimension `d`; the year as `String(score.Year)`. */
  function DimensionValue(s: BandScore, d: Dimension): string {
    match d
    case YearDim => IntToString(s.Year)
    case EventDim => s.Event
    case RoundDim => s.ShowRound
    case ClassDim => s.Class
    case StateDim => s.StateLong
    case SchoolDim => s.NewSchool
  }

  /** A value that may be absent (`undefined`). */
  datatype Option<T> = None | Some(value: T)

  /** A value, or the message of the error that replaced it. */
  datatype Result<T> = Success(value: T) | Failure(error: string)

  /** The all-empty selection every session starts from. */
  const InitialFilters: FilterState := FilterState([], [], [], [], "", [], [])
}
