/**
 * The sheet loader (`sheetService.ts`): cutting the JSON object out of
 * the visualization endpoint's response, finding columns by normalized
 * label, reading cells with their fallbacks, and turning every row into a
 * record with its defaults. The network request and `JSON.parse` are
 * parameters.
 */
module SheetService {
  import opened Text
  import opened Types

  // ---------------------------------------------------------------------
  // The JSON span

  /** `s.indexOf(c)`: the first position of `c`, or -1. */
  function IndexOfChar(s: string, c: char): (r: int)
    ensures -1 <= r < |s|
    ensures r == -1 <==> c !in s
    ensures r >= 0 ==> s[r] == c && c !in s[..r]
  {
    if s == [] then -1
    else if s[0] == c then 0
    else
      var k := IndexOfChar(s[1..], c);
      if k == -1 then -1
      else
        assert s[..k + 1] == [s[0]] + s[1..][..k];
        k + 1
  }

  /** `s.lastIndexOf(c)`: the last position of `c`, or -1. */
  function LastIndexOfChar(s: string, c: char): (r: int)
    ensures -1 <= r < |s|
    ensures r == -1 <==> c !in s
    ensures r >= 0 ==> s[r] == c && c !in s[r + 1..]
  {
    if s == [] then -1
    else
      var init, last := s[..|s| - 1], s[|s| - 1];
      assert s == init + [last];
      if last == c then |s| - 1
      else
        var k := LastIndexOfChar(init, c);
        if k >= 0 then
          assert s[k + 1..] == init[k + 1..] + [last];
          k
        else
          -1
  }

  /** Clamps an index into `[0, n]`. */
  function Clamp(i: int, n: nat): (r: nat)
    ensures r <= n
    ensures 0 <= i <= n ==> r == i
    ensures i < 0 ==> r == 0
    ensures i > n ==> r == n
  {
    if i < 0 then 0 else if i > n then n else i
  }

  /** `s.substring(start, end)`: both ends clamped into the string, swapped when reversed. */
  function Substring(s: string, start: int, end: int): (r: string)
    ensures 0 <= start <= end <= |s| ==> r == s[start..end]
  {
    var a, b := Clamp(start, |s|), Clamp(end, |s|);
    if a <= b then s[a..b] else s[b..a]
  }

  /** `substring` ignores the order of its bounds. */
  lemma {:induction false} SubstringSwap(s: string, start: int, end: int)
    ensures Substring(s, start, end) == Substring(s, end, start)
  {
  }

  /** `substring` reads bounds outside the string as its nearest end. */
  lemma {:induction false} SubstringClamps(s: string, start: int, end: int)
    ensures Substring(s, start, end) == Substring(s, Clamp(start, |s|), Clamp(end, |s|))
  {
  }

  /** `text.substring(text.indexOf('{'), text.lastIndexOf('}') + 1)`. */
  function JsonSpan(text: string): string {
    Substring(text, IndexOfChar(text, '{'), LastIndexOfChar(text, '}') + 1)
  }

  /**
   * When the first `{` comes before the last `}`, the span runs from the
   * one to the other, inclusive: it starts with `{`, ends with `}`, and
   * holds no `{` before it nor `}` after it.
   */
  lemma {:induction false} JsonSpanBraced(text: string)
    requires '{' in text && '}' in text
    requires IndexOfChar(text, '{') < LastIndexOfChar(text, '}')
    ensures var i, j := IndexOfChar(text, '{'), LastIndexOfChar(text, '}');
      && JsonSpan(text) == text[i..j + 1]
      && text[i..j + 1][0] == '{' && text[i..j + 1][j - i] == '}'
      && '{' !in text[..i] && '}' !in text[j + 1..]
  {
    var i, j := IndexOfChar(text, '{'), LastIndexOfChar(text, '}');
    SliceEnds(text, i, j);
  }

  /** The first and last characters of a closed slice. */
  lemma {:induction false} SliceEnds(s: string, i: int, j: int)
    requires 0 <= i <= j < |s|
    ensures s[i..j + 1][0] == s[i] && s[i..j + 1][j - i] == s[j]
  {
  }

  /** A response with no braces at all gives the empty span. */
  lemma {:induction false} JsonSpanNoBraces(text: string)
    requires '{' !in text && '}' !in text
    ensures JsonSpan(text) == ""
  {
  }

  /**
   * A response with `{` but no `}` gives, because `substring` swaps its
   * arguments, the text before the first `{`.
   */
  lemma {:induction false} JsonSpanUnclosed(text: string)
    requires '{' in text && '}' !in text
    ensures JsonSpan(text) == text[..IndexOfChar(text, '{')]
    ensures '{' !in JsonSpan(text)
  {
  }

  /**
   * A response with `}` but no `{`: the -1 of `indexOf` is read as 0, so
   * the span is the text through the last `}`.
   */
  lemma {:induction false} JsonSpanUnopened(text: string)
    requires '{' !in text && '}' in text
    ensures JsonSpan(text) == text[..LastIndexOfChar(text, '}') + 1]
  {
  }

  /**
   * A response whose last `}` comes before its first `{`: `substring` swaps
   * its bounds, so the span is the text strictly between the two, which
   * holds neither brace.
   */
  lemma {:induction false} JsonSpanReversed(text: string)
    requires '{' in text && '}' in text
    requires IndexOfChar(text, '{') > LastIndexOfChar(text, '}')
    ensures JsonSpan(text) == text[LastIndexOfChar(text, '}') + 1..IndexOfChar(text, '{')]
    ensures '{' !in JsonSpan(text) && '}' !in JsonSpan(text)
  {
    var i, j := IndexOfChar(text, '{'), LastIndexOfChar(text, '}');
    assert text[j + 1..i] == text[..i][j + 1..];
    assert text[j + 1..i] == text[j + 1..][..i - j - 1];
  }

  // ---------------------------------------------------------------------
  // Columns and cells

  /** A column of the returned table; its label may be missing. */
  datatype Column = Column(heading: Option<string>)

  /** A cell: its value (`v`) and its formatted text (`f`), either possibly `null`. */
  datatype Cell = Cell(v: Option<Scalar>, f: Option<string>)

  /** A row: its cells by column position; a cell may be `null`. */
  datatype Row = Row(c: seq<Option<Cell>>)

  /** `jsonData.table`. */
  datatype Table = Table(cols: seq<Column>, rows: seq<Row>)

  /** `label.toLowerCase().replace(/\s/g, '')`. */
  function Normalize(name: string): (r: string)
    ensures NoWs(r) && NoUpper(r)
  {
    RemoveWsLower(name);
    Lower(RemoveWs(name))
  }

  /** Case does not matter: a label and its lower-cased form normalize alike. */
  lemma {:induction false} NormalizeIgnoresCase(name: string)
    ensures Normalize(Lower(name)) == Normalize(name)
  {
    RemoveWsLower(name);
    LowerIdempotent(RemoveWs(name));
  }

  /** Any whitespace character inside a label, not only a space, does not matter. */
  lemma {:induction false} NormalizeIgnoresWs(a: string, c: char, b: string)
    requires IsWs(c)
    ensures Normalize(a + [c] + b) == Normalize(a + b)
  {
    RemoveWsAppend(a + [c], b);
    RemoveWsAppend(a, [c]);
    RemoveWsAppend(a, b);
    assert RemoveWs([c]) == [];
  }

  /**
   * A label without whitespace or upper case is its own normal form, so
   * such labels that differ as strings never match each other.
   */
  lemma {:induction false} NormalizeFixes(name: string)
    requires NoWs(name) && NoUpper(name)
    ensures Normalize(name) == name
  {
    RemoveWsOfNoWs(name);
    assert Lower(name) == name;
  }

  /** Normalizing twice changes nothing more. */
  lemma {:induction false} NormalizeIdempotent(name: string)
    ensures Normalize(Normalize(name)) == Normalize(name)
  {
    RemoveWsLower(name);
    RemoveWsLower(Normalize(name));
    RemoveWsOfNoWs(Normalize(name));
    LowerIdempotent(RemoveWs(name));
  }

  /** The column carries a non-empty label equal to `name` once both are normalized. */
  predicate LabelMatches(col: Column, name: string) {
    col.heading.Some? && col.heading.value != "" && Normalize(col.heading.value) == Normalize(name)
  }

  /** `findIndex` from position `i` on: the first matching column at or after `i`, or -1. */
  function FindFrom(cols: seq<Column>, name: string, i: nat): (r: int)
    requires i <= |cols|
    ensures r == -1 || i <= r < |cols|
    ensures r >= 0 ==> LabelMatches(cols[r], name) && forall k :: i <= k < r ==> !LabelMatches(cols[k], name)
    ensures r == -1 <==> forall k :: i <= k < |cols| ==> !LabelMatches(cols[k], name)
    decreases |cols| - i
  {
    if i == |cols| then -1
    else if LabelMatches(cols[i], name) then i
    else FindFrom(cols, name, i + 1)
  }

  /** `getIdx`: the position of the first column whose label matches, or -1. */
  function GetIdx(cols: seq<Column>, name: string): (r: int)
    ensures -1 <= r < |cols|
    ensures r >= 0 ==> LabelMatches(cols[r], name) && forall k :: 0 <= k < r ==> !LabelMatches(cols[k], name)
    ensures r == -1 <==> forall k :: 0 <= k < |cols| ==> !LabelMatches(cols[k], name)
  {
    FindFrom(cols, name, 0)
  }

  /** Labels that normalize alike find the same column from any position. */
  lemma {:induction false} FindFromNormalized(cols: seq<Column>, l1: string, l2: string, i: nat)
    requires i <= |cols|
    requires Normalize(l1) == Normalize(l2)
    ensures FindFrom(cols, l1, i) == FindFrom(cols, l2, i)
    decreases |cols| - i
  {
    if i < |cols| {
      FindFromNormalized(cols, l1, l2, i + 1);
    }
  }

  /** Labels that normalize alike find the same column. */
  lemma {:induction false} GetIdxNormalized(cols: seq<Column>, l1: string, l2: string)
    requires Normalize(l1) == Normalize(l2)
    ensures GetIdx(cols, l1) == GetIdx(cols, l2)
  {
    FindFromNormalized(cols, l1, l2, 0);
  }

  /**
   * `getVal`: `null` when no column matches, when the row is too short or
   * its cell is `null`; otherwise `cell.v ?? cell.f ?? null`.
   */
  function GetVal(cols: seq<Column>, row: Row, name: string): (r: Option<Scalar>)
    ensures GetIdx(cols, name) == -1 ==> r == None
  {
    var idx := GetIdx(cols, name);
    if idx == -1 || idx >= |row.c| then None
    else
      match row.c[idx]
      case None => None
      case Some(cell) =>
        if cell.v.Some? then cell.v
        else if cell.f.Some? then Some(Str(cell.f.value))
        else None
  }

  /**
   * Once the column is found and its cell is present, `??` keeps any value
   * that is not `null`, falsy ones included, and only then tries `f`.
   */
  lemma {:induction false} GetValNullish(cols: seq<Column>, row: Row, name: string)
    requires 0 <= GetIdx(cols, name) < |row.c|
    requires row.c[GetIdx(cols, name)].Some?
    ensures var cell := row.c[GetIdx(cols, name)].value;
      && (cell.v.Some? ==> GetVal(cols, row, name) == cell.v)
      && (cell.v.None? && cell.f.Some? ==> GetVal(cols, row, name) == Some(Str(cell.f.value)))
      && (cell.v.None? && cell.f.None? ==> GetVal(cols, row, name) == None)
  {
  }

  /** A row too short to reach the column, or a `null` cell, reads as `null`. */
  lemma {:induction false} GetValMissingCell(cols: seq<Column>, row: Row, name: string)
    requires GetIdx(cols, name) >= |row.c| || (0 <= GetIdx(cols, name) < |row.c| && row.c[GetIdx(cols, name)].None?)
    ensures GetVal(cols, row, name) == None
  {
  }

  // ---------------------------------------------------------------------
  // The record

  /** JavaScript `x || y` on a nullable value. */
  function Or(x: Option<Scalar>, y: Option<Scalar>): Option<Scalar> {
    if x.Some? && Truthy(x.value) then x else y
  }

  /** `Number(x)`: `null` is 0, text is read as an integer literal. */
  function NumberOfValue(x: Option<Scalar>): int {
    match x
    case None => 0
    case Some(Num(n)) => n
    case Some(Str(s)) => NumberOf(s)
  }

  /** `String(x || '')`: a falsy value (`null`, `0`, `""`) becomes the empty text. */
  function TextOr(x: Option<Scalar>): (r: string)
    ensures !(x.Some? && Truthy(x.value)) ==> r == ""
    ensures x.Some? && Truthy(x.value) ==> r == ScalarToString(x.value) && r != ""
  {
    ScalarToString(Or(x, Some(Str(""))).value)
  }

  /** `x ?? y ?? '-'`: the first value that is not `null`, `0` and `""` included. */
  function PlaceOr(x: Option<Scalar>, y: Option<Scalar>): (r: Scalar)
    ensures x.Some? ==> r == x.value
    ensures x.None? && y.Some? ==> r == y.value
    ensures x.None? && y.None? ==> r == Unplaced
  {
    if x.Some? then x.value else if y.Some? then y.value else Unplaced
  }

  /** The record literal of the row mapping, over the row's `getVal`. */
  function RecordFrom(get: string -> Option<Scalar>): BandScore {
    BandScore(
      ID := NumberOfValue(Or(get("ID"), Some(Num(0)))),
      Year := NumberOfValue(get("Year")),
      Event := TextOr(get("Event")),
      ShowRound := TextOr(Or(get("Show_Round"), get("P/S/F"))),
      NewSchool := TextOr(get("New School")),
      Total := NumberOfValue(Or(get("Total"), Some(Num(0)))),
      Class := TextOr(get("Class")),
      PlaceClass := PlaceOr(get("Place:Class"), get("Place: Class")),
      PlacePanel := PlaceOr(get("Place:Panel"), get("Place: Panel")),
      PlaceOverall := PlaceOr(get("Place:Overall"), get("Place: Overall")),
      StateLong := TextOr(get("State long")),
      Search := TextOr(get("Search")))
  }

  /** The record built from one row, with the loader's defaults. */
  function BuildRecord(cols: seq<Column>, row: Row): BandScore {
    RecordFrom(name => GetVal(cols, row, name))
  }

  /**
   * The spaced placement labels normalize to the unspaced ones, so they
   * find the same column and the second lookup never supplies a value the
   * first did not: a placement is the cell's value, or "-".
   */
  lemma {:induction false} PlaceFallbackRedundant(cols: seq<Column>, row: Row)
    ensures BuildRecord(cols, row).PlaceClass == PlaceOr(GetVal(cols, row, "Place:Class"), None)
    ensures BuildRecord(cols, row).PlacePanel == PlaceOr(GetVal(cols, row, "Place:Panel"), None)
    ensures BuildRecord(cols, row).PlaceOverall == PlaceOr(GetVal(cols, row, "Place:Overall"), None)
  {
    SpacedPlaceLookups(cols, row);
  }

  lemma {:induction false} SpacedPlaceLookups(cols: seq<Column>, row: Row)
    ensures GetVal(cols, row, "Place: Class") == GetVal(cols, row, "Place:Class")
    ensures GetVal(cols, row, "Place: Panel") == GetVal(cols, row, "Place:Panel")
    ensures GetVal(cols, row, "Place: Overall") == GetVal(cols, row, "Place:Overall")
  {
    PlaceLabelsAlike();
    GetValNormalized(cols, row, "Place: Class", "Place:Class");
    GetValNormalized(cols, row, "Place: Panel", "Place:Panel");
    GetValNormalized(cols, row, "Place: Overall", "Place:Overall");
  }

  /** Labels that normalize alike read the same cell. */
  lemma {:induction false} GetValNormalized(cols: seq<Column>, row: Row, l1: string, l2: string)
    requires Normalize(l1) == Normalize(l2)
    ensures GetVal(cols, row, l1) == GetVal(cols, row, l2)
  {
    GetIdxNormalized(cols, l1, l2);
  }

  /** Each spaced placement label normalizes to its unspaced form. */
  lemma {:induction false} PlaceLabelsAlike()
    ensures Normalize("Place: Class") == Normalize("Place:Class")
    ensures Normalize("Place: Panel") == Normalize("Place:Panel")
    ensures Normalize("Place: Overall") == Normalize("Place:Overall")
  {
    NormalizeIgnoresWs("Place:", ' ', "Class");
    NormalizeIgnoresWs("Place:", ' ', "Panel");
    NormalizeIgnoresWs("Place:", ' ', "Overall");
    assert "Place:" + " " + "Class" == "Place: Class" && "Place:" + "Class" == "Place:Class";
    assert "Place:" + " " + "Panel" == "Place: Panel" && "Place:" + "Panel" == "Place:Panel";
    assert "Place:" + " " + "Overall" == "Place: Overall" && "Place:" + "Overall" == "Place:Overall";
  }

  /** The `|| 0` on the numeric fields changes nothing: `Number` already reads a falsy value as 0. */
  lemma {:induction false} NumericFallbackRedundant(get: string -> Option<Scalar>)
    ensures RecordFrom(get).ID == NumberOfValue(get("ID"))
    ensures RecordFrom(get).Total == NumberOfValue(get("Total"))
  {
  }

  /**
   * A placement of 0 or "" survives (`??` only replaces `null`), while a
   * numeric 0 in a text column becomes "" (`||` replaces every falsy value).
   */
  lemma {:induction false} ZeroHandling(get: string -> Option<Scalar>)
    ensures get("Place:Class") == Some(Num(0)) ==> RecordFrom(get).PlaceClass == Num(0)
    ensures get("Event") == Some(Num(0)) ==> RecordFrom(get).Event == ""
    ensures get("Event") == Some(Num(7)) ==> RecordFrom(get).Event == "7"
  {
  }

  /** The round falls back to the `P/S/F` column only when the `Show_Round` cell is falsy. */
  lemma {:induction false} ShowRoundFallback(get: string -> Option<Scalar>)
    ensures var primary := get("Show_Round");
      RecordFrom(get).ShowRound ==
        if primary.Some? && Truthy(primary.value) then ScalarToString(primary.value)
        else TextOr(get("P/S/F"))
  {
  }

  /** JavaScript truthiness of a nullable value. */
  predicate TruthyValue(x: Option<Scalar>) {
    x.Some? && Truthy(x.value)
  }

  /** A falsy cell (`null`, `0` or `""`) gives the text fields `""` and the ID and total 0. */
  lemma {:induction false} FalsyDefaults(get: string -> Option<Scalar>)
    ensures !TruthyValue(get("ID")) ==> RecordFrom(get).ID == 0
    ensures !TruthyValue(get("Total")) ==> RecordFrom(get).Total == 0
    ensures !TruthyValue(get("Event")) ==> RecordFrom(get).Event == ""
    ensures !TruthyValue(get("Show_Round")) && !TruthyValue(get("P/S/F")) ==> RecordFrom(get).ShowRound == ""
    ensures !TruthyValue(get("New School")) ==> RecordFrom(get).NewSchool == ""
    ensures !TruthyValue(get("Class")) ==> RecordFrom(get).Class == ""
    ensures !TruthyValue(get("State long")) ==> RecordFrom(get).StateLong == ""
    ensures !TruthyValue(get("Search")) ==> RecordFrom(get).Search == ""
  {
  }

  /** With no cell found for any label, every field takes its default. */
  lemma {:induction false} AllNullDefaults(get: string -> Option<Scalar>)
    requires forall name :: get(name) == None
    ensures RecordFrom(get) == BandScore(0, 0, "", "", "", 0, "", Unplaced, Unplaced, Unplaced, "", "")
  {
  }

  /** With none of the expected columns present, every field takes its default. */
  lemma {:induction false} MissingColumnsDefaults(cols: seq<Column>, row: Row)
    requires forall k :: 0 <= k < |cols| ==> cols[k].heading.None?
    ensures BuildRecord(cols, row) == BandScore(0, 0, "", "", "", 0, "", Unplaced, Unplaced, Unplaced, "", "")
  {
    var get := name => GetVal(cols, row, name);
    forall name ensures get(name) == None {
      assert GetIdx(cols, name) == -1;
    }
    AllNullDefaults(get);
  }

  // ---------------------------------------------------------------------
  // `fetchScoresFromSheet`

  /** The one error the loader reports, whatever went wrong. */
  const ConnectionError: string := "Failed to connect to Google Sheets. Ensure the sheet is 'Published to the Web'."

  /**
   * The loader: `response` is the response text, or `None` when the request
   * failed; `parse` is `JSON.parse` followed by the `table` lookup, `None`
   * when either throws. Any failure becomes the fixed error; otherwise one
   * record per row, in row order.
   */
  function FetchScores(response: Option<string>, parse: string -> Option<Table>): (r: Result<seq<BandScore>>)
    ensures r.Failure? ==> r.error == ConnectionError
    ensures r.Failure? <==> response.None? || parse(JsonSpan(response.value)).None?
    ensures r.Success? ==>
      var t := parse(JsonSpan(response.value)).value;
      |r.value| == |t.rows| && forall i :: 0 <= i < |t.rows| ==> r.value[i] == BuildRecord(t.cols, t.rows[i])
  {
    if response.None? then Failure(ConnectionError)
    else
      match parse(JsonSpan(response.value))
      case None => Failure(ConnectionError)
      case Some(t) => Success(seq(|t.rows|, i requires 0 <= i < |t.rows| => BuildRecord(t.cols, t.rows[i])))
  }
}
