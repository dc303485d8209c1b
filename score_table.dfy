/**
 * The results table (`ScoreTable.tsx`): the column comparator, the sort
 * of a copy of the filtered records, the click-to-sort state, and the
 * mapping from column labels to record fields.
 */
module ScoreTable {
  import opened Text
  import opened Seqs
  import opened Orders
  import opened Types

  // ---------------------------------------------------------------------
  // Record fields

  /** `keyof BandScore`. */
  datatype Field =
    | ID | Year | Event | ShowRound | NewSchool | Total | Class
    | PlaceClass | PlacePanel | PlaceOverall | StateLong | Search

  /** The property name of the field in the record object. */
  function FieldName(k: Field): string {
    match k
    case ID => "ID"
    case Year => "Year"
    case Event => "Event"
    case ShowRound => "Show_Round"
    case NewSchool => "New School"
    case Total => "Total"
    case Class => "Class"
    case PlaceClass => "Place:Class"
    case PlacePanel => "Place:Panel"
    case PlaceOverall => "Place:Overall"
    case StateLong => "State long"
    case Search => "Search"
  }

  /** The field a property name denotes, if any. */
  function FieldOfName(name: string): (r: Option<Field>)
    ensures r.Some? ==> FieldName(r.value) == name
  {
    if name == "ID" then Some(ID)
    else if name == "Year" then Some(Year)
    else if name == "Event" then Some(Event)
    else if name == "Show_Round" then Some(ShowRound)
    else if name == "New School" then Some(NewSchool)
    else if name == "Total" then Some(Total)
    else if name == "Class" then Some(Class)
    else if name == "Place:Class" then Some(PlaceClass)
    else if name == "Place:Panel" then Some(PlacePanel)
    else if name == "Place:Overall" then Some(PlaceOverall)
    else if name == "State long" then Some(StateLong)
    else if name == "Search" then Some(Search)
    else None
  }

  /** Every field is found again from its name, so the names are distinct. */
  lemma {:induction false} FieldNameRoundTrip(k: Field)
    ensures FieldOfName(FieldName(k)) == Some(k)
  {
    match k
    case ID =>
    case Year =>
    case Event =>
    case ShowRound =>
    case NewSchool =>
    case Total =>
    case Class =>
    case PlaceClass =>
    case PlacePanel =>
    case PlaceOverall =>
    case StateLong =>
    case Search =>
  }

  /** `score[key]`: the numeric fields as numbers, the placements as stored, the rest as text. */
  function FieldValue(s: BandScore, k: Field): (v: Scalar)
    ensures k in {ID, Year, Total} ==> v.Num?
    ensures k in {Event, ShowRound, NewSchool, Class, StateLong, Search} ==> v.Str?
  {
    match k
    case ID => Num(s.ID)
    case Year => Num(s.Year)
    case Event => Str(s.Event)
    case ShowRound => Str(s.ShowRound)
    case NewSchool => Str(s.NewSchool)
    case Total => Num(s.Total)
    case Class => Str(s.Class)
    case PlaceClass => s.PlaceClass
    case PlacePanel => s.PlacePanel
    case PlaceOverall => s.PlaceOverall
    case StateLong => Str(s.StateLong)
    case Search => Str(s.Search)
  }

  // ---------------------------------------------------------------------
  // The comparator

  datatype Direction = Asc | Desc

  /** Two numbers by difference; anything else by the text of both sides. */
  function CompareValues(u: Scalar, v: Scalar): int {
    if u.Num? && v.Num? then u.n - v.n
    else LexCompare(ScalarToString(u), ScalarToString(v))
  }

  /** The comparison on the sort column, negated when descending. */
  function Primary(key: Field, dir: Direction, a: BandScore, b: BandScore): int {
    var c := CompareValues(FieldValue(a, key), FieldValue(b, key));
    if dir == Asc then c else -c
  }

  /** The table's comparator: the sort column, then newest year first on a tie (unless sorting by year). */
  function Compare(key: Field, dir: Direction, a: BandScore, b: BandScore): int {
    var p := Primary(key, dir, a, b);
    if p == 0 && key != Year then b.Year - a.Year else p
  }

  /** `Compare` as a value, for the ordering predicates. */
  function Comparator(key: Field, dir: Direction): (cmp: (BandScore, BandScore) -> int)
    ensures forall a, b :: cmp(a, b) == Compare(key, dir, a, b)
  {
    (a, b) => Compare(key, dir, a, b)
  }

  lemma {:induction false} CompareValuesAntisymmetric(u: Scalar, v: Scalar)
    ensures CompareValues(u, v) == -CompareValues(v, u)
  {
    if !(u.Num? && v.Num?) {
      LexCompareAntisymmetric(ScalarToString(u), ScalarToString(v));
    }
  }

  /**
   * Swapping the two records flips the sign of the comparator. It holds
   * for every column, whatever mix of numbers and text the column holds.
   */
  lemma {:induction false} CompareAntisymmetric(key: Field, dir: Direction)
    ensures Antisymmetric(Comparator(key, dir))
  {
    forall a, b ensures Compare(key, dir, a, b) > 0 <==> Compare(key, dir, b, a) < 0 {
      CompareValuesAntisymmetric(FieldValue(a, key), FieldValue(b, key));
    }
  }

  /**
   * Reversing the direction reverses the primary comparison, but a tie is
   * still broken newest year first in both directions.
   */
  lemma {:induction false} DirectionReversesPrimary(key: Field, a: BandScore, b: BandScore)
    ensures Primary(key, Desc, a, b) == -Primary(key, Asc, a, b)
    ensures Primary(key, Desc, a, b) == Primary(key, Asc, b, a)
    ensures key != Year && Primary(key, Asc, a, b) == 0 ==>
      Compare(key, Asc, a, b) == Compare(key, Desc, a, b) == b.Year - a.Year
  {
    CompareValuesAntisymmetric(FieldValue(a, key), FieldValue(b, key));
  }

  /**
   * The comparator is not an ordering on a column that mixes numbers with
   * text other than "-": placements 9, 10 and "5a" form a cycle, because
   * 9 < 10 by value, "10" < "5a" and "5a" < "9" by text.
   */
  lemma {:induction false} MixedColumnCycle(a: BandScore, b: BandScore, c: BandScore)
    requires a.PlaceClass == Num(9) && b.PlaceClass == Num(10) && c.PlaceClass == Str("5a")
    ensures Compare(PlaceClass, Asc, a, b) < 0
    ensures Compare(PlaceClass, Asc, b, c) < 0
    ensures Compare(PlaceClass, Asc, c, a) < 0
  {
    assert IntToString(10) == "10" && IntToString(9) == "9";
  }

  /** A column value this model can order consistently: every value a number or "-", or every value text. */
  predicate NumOrUnplaced(v: Scalar) {
    v.Num? || v == Unplaced
  }

  predicate SameKind(u: Scalar, v: Scalar, w: Scalar) {
    (NumOrUnplaced(u) && NumOrUnplaced(v) && NumOrUnplaced(w)) || (u.Str? && v.Str? && w.Str?)
  }

  /** The unranked sentinel sorts, as text, before every number. */
  lemma {:induction false} UnplacedBeforeNumbers(n: int)
    ensures LexCompare("-", IntToString(n)) < 0
  {
    var s := IntToString(n);
    if n < 0 {
      assert s[0] == '-' && s[1..] == NatToString(-n);
    } else {
      assert IsDigit(s[0]);
    }
  }

  /** On values of one kind the value comparison is a total order with equality as its ties. */
  lemma {:induction false} CompareValuesOrder(u: Scalar, v: Scalar, w: Scalar)
    requires SameKind(u, v, w)
    ensures CompareValues(u, v) == 0 <==> u == v
    ensures CompareValues(u, v) <= 0 && CompareValues(v, w) <= 0 ==> CompareValues(u, w) <= 0
  {
    if u.Str? && v.Str? && w.Str? {
      LexCompareZero(u.s, v.s);
      if CompareValues(u, v) <= 0 && CompareValues(v, w) <= 0 {
        LexCompareTransitive(u.s, v.s, w.s);
      }
    } else {
      if u.Num? { UnplacedBeforeNumbers(u.n); CompareValuesAntisymmetric(u, v); }
      if v.Num? { UnplacedBeforeNumbers(v.n); }
      if w.Num? { UnplacedBeforeNumbers(w.n); }
      if u.Num? { CompareValuesAntisymmetric(Unplaced, u); }
      if v.Num? { CompareValuesAntisymmetric(Unplaced, v); }
      if w.Num? { CompareValuesAntisymmetric(Unplaced, w); }
    }
  }

  /** On values of one kind the primary comparison is a total preorder, zero exactly for equal values. */
  lemma {:induction false} PrimaryOrder(key: Field, dir: Direction, a: BandScore, b: BandScore, c: BandScore)
    requires SameKind(FieldValue(a, key), FieldValue(b, key), FieldValue(c, key))
    ensures Primary(key, dir, a, b) == -Primary(key, dir, b, a)
    ensures Primary(key, dir, a, b) == 0 <==> FieldValue(a, key) == FieldValue(b, key)
    ensures Primary(key, dir, a, b) <= 0 && Primary(key, dir, b, c) <= 0 ==> Primary(key, dir, a, c) <= 0
  {
    var u, v, w := FieldValue(a, key), FieldValue(b, key), FieldValue(c, key);
    CompareValuesOrder(u, v, w);
    CompareValuesAntisymmetric(u, v);
    if dir == Desc {
      CompareValuesOrder(w, v, u);
      CompareValuesAntisymmetric(u, v);
      CompareValuesAntisymmetric(v, w);
      CompareValuesAntisymmetric(u, w);
    }
  }

  /** Records whose column values are of one kind are ordered transitively, tie-break included. */
  lemma {:induction false} CompareTransitive(key: Field, dir: Direction, a: BandScore, b: BandScore, c: BandScore)
    requires SameKind(FieldValue(a, key), FieldValue(b, key), FieldValue(c, key))
    requires Compare(key, dir, a, b) <= 0 && Compare(key, dir, b, c) <= 0
    ensures Compare(key, dir, a, c) <= 0
  {
    PrimaryOrder(key, dir, a, b, c);
    PrimaryOrder(key, dir, b, c, a);
    PrimaryOrder(key, dir, a, c, b);
    PrimaryOrder(key, dir, b, a, c);
    PrimaryOrder(key, dir, c, b, a);
  }

  /** Every value of the column is a number or "-", or every value is text. */
  ghost predicate UniformColumn(scores: seq<BandScore>, key: Field) {
    || (forall s :: s in scores ==> NumOrUnplaced(FieldValue(s, key)))
    || (forall s :: s in scores ==> FieldValue(s, key).Str?)
  }

  /** Every column but the three placements is uniform for any records. */
  lemma {:induction false} FixedTypeColumnsUniform(scores: seq<BandScore>, key: Field)
    requires key !in {PlaceClass, PlacePanel, PlaceOverall}
    ensures UniformColumn(scores, key)
  {
    if key in {ID, Year, Total} {
      assert forall s :: s in scores ==> NumOrUnplaced(FieldValue(s, key));
    } else {
      assert forall s :: s in scores ==> FieldValue(s, key).Str?;
    }
  }

  lemma {:induction false} UniformTransitive(scores: seq<BandScore>, key: Field, dir: Direction)
    requires UniformColumn(scores, key)
    ensures TransitiveOn(scores, Comparator(key, dir))
  {
    forall a, b, c | a in scores && b in scores && c in scores
      && Compare(key, dir, a, b) <= 0 && Compare(key, dir, b, c) <= 0
      ensures Compare(key, dir, a, c) <= 0
    {
      CompareTransitive(key, dir, a, b, c);
    }
  }

  // ---------------------------------------------------------------------
  // `sortedScores`

  /** Exchanges two elements and leaves every other one in place. */
  method Swap<T>(a: array<T>, i: int, j: int)
    requires 0 <= i < j < a.Length
    modifies a
    ensures a[..] == old(a[..])[i := old(a[j])][j := old(a[i])]
  {
    a[i], a[j] := a[j], a[i];
  }

  /**
   * Insertion sort by adjacent swaps: each element in turn moves left past
   * the elements of the sorted prefix that sort strictly after it. The
   * result is `SinkSort` of the input.
   */
  method SortInPlace<T>(a: array<T>, cmp: (T, T) -> int)
    modifies a
    ensures a[..] == SinkSort(old(a[..]), cmp)
  {
    ghost var s := a[..];
    var i := 0;
    while i < a.Length
      invariant 0 <= i <= a.Length
      invariant a[..] == SinkSort(s[..i], cmp) + s[i..]
    {
      SinkSortStep(s, i, cmp);
      ConcatParts(SinkSort(s[..i], cmp), s[i], s[i + 1..]);
      SinkLeft(a, i, cmp);
      i := i + 1;
    }
    assert s[..i] == s && s[i..] == [];
    assert a[..] == SinkSort(s, cmp) + [];
  }

  /**
   * One pass of the insertion sort: the element at `i` moves left past the
   * neighbours that sort strictly after it, which is `SinkInto` of the
   * prefix; the cells after `i` are kept.
   */
  method SinkLeft<T>(a: array<T>, i: int, cmp: (T, T) -> int)
    requires 0 <= i < a.Length
    modifies a
    ensures a[..] == SinkInto(old(a[..i]), old(a[i]), cmp) + old(a[i + 1..])
  {
    ghost var p, x, rest := a[..i], a[i], a[i + 1..];
    var j := i;
    SinkStart(a[..], i);
    while j > 0 && cmp(a[j - 1], a[j]) > 0
      invariant 0 <= j <= i
      invariant a[..] == p[..j] + [x] + p[j..] + rest
      invariant forall k :: j <= k < i ==> cmp(p[k], x) > 0
    {
      SwapStep(p, x, rest, j);
      assert cmp(p[j - 1], x) > 0;
      Swap(a, j - 1, j);
      j := j - 1;
    }
    SinkIntoAt(p, x, j, cmp);
  }

  lemma {:induction false} SinkStart<T>(b: seq<T>, i: int)
    requires 0 <= i < |b|
    ensures var p := b[..i]; b == p[..i] + [b[i]] + p[i..] + b[i + 1..]
  {
    assert b[..i][..i] == b[..i] && b[..i][i..] == [];
  }

  lemma {:induction false} ConcatParts<T>(u: seq<T>, y: T, v: seq<T>)
    ensures var w := u + [y] + v; w[..|u|] == u && w[|u|] == y && w[|u| + 1..] == v && u + ([y] + v) == w
  {
  }

  /** Exchanging the element with its left neighbour moves it one place left. */
  lemma {:induction false} SwapStep<T>(p: seq<T>, x: T, rest: seq<T>, j: int)
    requires 0 < j <= |p|
    ensures var b := p[..j] + [x] + p[j..] + rest;
      b[j - 1] == p[j - 1] && b[j] == x &&
      b[j - 1 := x][j := p[j - 1]] == p[..j - 1] + [x] + p[j - 1..] + rest
  {
    var b := p[..j] + [x] + p[j..] + rest;
    var c := p[..j - 1] + [x] + p[j - 1..] + rest;
    assert |b| == |c|;
    forall k | 0 <= k < |b| ensures b[j - 1 := x][j := p[j - 1]][k] == c[k] {
      if k < j - 1 {
        assert b[k] == p[k] == c[k];
      } else if k > j {
        assert b[k] == c[k];
      }
    }
  }

  /** The sorted prefix grows by sinking the next element into it. */
  lemma {:induction false} SinkSortStep<T>(s: seq<T>, i: int, cmp: (T, T) -> int)
    requires 0 <= i < |s|
    ensures SinkSort(s[..i + 1], cmp) == SinkInto(SinkSort(s[..i], cmp), s[i], cmp)
    ensures s[i..] == [s[i]] + s[i + 1..]
  {
    assert s[..i + 1][..i] == s[..i];
  }

  /**
   * `SinkInto` places `x` after the elements of `p` before `j` and before
   * the ones from `j` on, when those all sort strictly after it and the one
   * before `j` does not.
   */
  lemma {:induction false} SinkIntoAt<T>(p: seq<T>, x: T, j: int, cmp: (T, T) -> int)
    requires 0 <= j <= |p|
    requires forall k :: j <= k < |p| ==> cmp(p[k], x) > 0
    requires j == 0 || cmp(p[j - 1], x) <= 0
    ensures SinkInto(p, x, cmp) == p[..j] + [x] + p[j..]
  {
    if j == |p| {
      assert p[..j] == p && p[j..] == [];
    } else {
      var init := p[..|p| - 1];
      assert cmp(p[|p| - 1], x) > 0;
      SinkIntoAt(init, x, j, cmp);
      assert init[..j] == p[..j] && p[j..] == init[j..] + [p[|p| - 1]];
    }
  }

  /** On a uniform column, a rearrangement with ordered neighbours is sorted throughout. */
  lemma {:induction false} UniformSorted(scores: seq<BandScore>, r: seq<BandScore>, key: Field, dir: Direction)
    requires UniformColumn(scores, key)
    requires multiset(r) == multiset(scores)
    requires AdjacentSorted(r, Comparator(key, dir))
    ensures Sorted(r, Comparator(key, dir))
  {
    assert UniformColumn(r, key) by {
      forall s ensures s in r <==> s in scores {
        assert s in r <==> s in multiset(r);
      }
    }
    UniformTransitive(r, key, dir);
    AdjacentSortedIsSorted(r, Comparator(key, dir));
  }

  /**
   * `[...scores].sort(...)`: a sorted copy. It is always a rearrangement
   * with every neighbour pair in order; when the column is uniform it is
   * sorted throughout; an input already in order comes back unchanged.
   */
  method SortedScores(scores: seq<BandScore>, key: Field, dir: Direction) returns (r: seq<BandScore>)
    ensures r == SinkSort(scores, Comparator(key, dir))
    ensures multiset(r) == multiset(scores)
    ensures AdjacentSorted(r, Comparator(key, dir))
    ensures UniformColumn(scores, key) ==> Sorted(r, Comparator(key, dir))
    ensures AdjacentSorted(scores, Comparator(key, dir)) ==> r == scores
  {
    var a := new BandScore[|scores|](i requires 0 <= i < |scores| => scores[i]);
    assert a[..] == scores;
    SortInPlace(a, Comparator(key, dir));
    r := a[..];
    SinkSortPermutation(scores, Comparator(key, dir));
    CompareAntisymmetric(key, dir);
    SinkSortAdjacentSorted(scores, Comparator(key, dir));
    if UniformColumn(scores, key) {
      UniformSorted(scores, r, key, dir);
    }
    if AdjacentSorted(scores, Comparator(key, dir)) {
      SinkSortOfSorted(scores, Comparator(key, dir));
    }
  }

  /**
   * On a uniform column the sort is stable: the records that tie with any
   * record `y` of the list (same cell, same year) keep their input order.
   */
  lemma {:induction false} SortedScoresStable(scores: seq<BandScore>, key: Field, dir: Direction, y: BandScore)
    requires UniformColumn(scores, key)
    requires y in scores
    ensures var tied := s => Compare(key, dir, s, y) == 0;
      Filter(SinkSort(scores, Comparator(key, dir)), tied) == Filter(scores, tied)
  {
    var tied := s => Compare(key, dir, s, y) == 0;
    CompareAntisymmetric(key, dir);
    UniformTransitive(scores, key, dir);
    forall a, b | a in scores && b in scores && tied(a) && tied(b)
      ensures Comparator(key, dir)(a, b) <= 0
    {
      assert Compare(key, dir, y, b) <= 0;
    }
    SinkSortStable(scores, tied, Comparator(key, dir));
  }

  // ---------------------------------------------------------------------
  // `handleSort`

  /** The sort after a click on column `key`: the same column flips, a new one starts in its default. */
  function NextSort(sortKey: Field, sortDir: Direction, key: Field): (r: (Field, Direction))
    ensures r.0 == key
  {
    if sortKey == key then (key, if sortDir == Asc then Desc else Asc)
    else (key, if key == Year then Desc else Asc)
  }

  /** Two clicks on the current column restore the sort; on a new column they leave it reversed from its default. */
  lemma {:induction false} NextSortTwice(sortKey: Field, sortDir: Direction, key: Field)
    ensures var (k, d) := NextSort(sortKey, sortDir, key);
      NextSort(k, d, key) == if sortKey == key then (key, sortDir) else (key, if key == Year then Asc else Desc)
  {
  }

  /** A click always flips the direction or resets it: the direction changes on the same column. */
  lemma {:induction false} NextSortSameColumnFlips(sortKey: Field, sortDir: Direction)
    ensures NextSort(sortKey, sortDir, sortKey).1 != sortDir
  {
  }

  /** The table's sort state: the column and the direction. */
  class SortState {
    var sortKey: Field
    var sortDir: Direction

    /** Sorted by ID, ascending. */
    constructor ()
      ensures sortKey == ID && sortDir == Asc
    {
      sortKey := ID;
      sortDir := Asc;
    }

    /** `handleSort`. */
    method HandleSort(key: Field)
      modifies this
      ensures (sortKey, sortDir) == NextSort(old(sortKey), old(sortDir), key)
    {
      if sortKey == key {
        sortDir := if sortDir == Asc then Desc else Asc;
      } else {
        sortKey := key;
        sortDir := if key == Year then Desc else Asc;
      }
    }
  }

  // ---------------------------------------------------------------------
  // Column labels

  /** The table's columns, in display order. */
  const DisplayColumns: seq<string> :=
    ["Year", "Show Name", "Show Round", "School", "Total", "Class", "Place:Class", "Place:Panel", "Place:Overall"]

  /** `getPropertyKeyFromLabel`: three labels are renamed, every other label is taken as the property name. */
  function PropertyKeyFromLabel(column: string): (key: string)
    ensures column !in ["Show Name", "Show Round", "School"] ==> key == column
    ensures column in ["Show Name", "Show Round", "School"] ==> key != column && FieldOfName(key).Some?
  {
    if column == "Show Name" then "Event"
    else if column == "Show Round" then "Show_Round"
    else if column == "School" then "New School"
    else column
  }

  /** Every displayed column sorts by a real field, each by a different one. */
  lemma {:induction false} DisplayColumnsResolve()
    ensures forall i :: 0 <= i < |DisplayColumns| ==> FieldOfName(PropertyKeyFromLabel(DisplayColumns[i])).Some?
    ensures forall i, j :: 0 <= i < j < |DisplayColumns| ==>
      PropertyKeyFromLabel(DisplayColumns[i]) != PropertyKeyFromLabel(DisplayColumns[j])
    ensures seq(|DisplayColumns|, i requires 0 <= i < |DisplayColumns| => FieldOfName(PropertyKeyFromLabel(DisplayColumns[i])))
      == [Some(Year), Some(Event), Some(ShowRound), Some(NewSchool), Some(Total), Some(Class),
          Some(PlaceClass), Some(PlacePanel), Some(PlaceOverall)]
  {
  }
}
