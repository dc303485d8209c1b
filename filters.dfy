/**
 * The filter panel (`Filters.tsx`): the cross-filter predicate, the option
 * lists each dropdown offers and their orderings, and the dropdown's own
 * operations (option search, toggle, select all, clear).
 */
module Filters {
  import opened Text
  import opened Seqs
  import opened Orders
  import opened Types
  import App

  // ---------------------------------------------------------------------
  // `matchesOtherFilters`

  /**
   * The record passes the search and every dimension's list except the
   * excluded one. The checks run in the order `matchesOtherFilters` makes
   * them: search first, then year, event, round, class, state and school.
   */
  predicate MatchesOtherFilters(f: FilterState, s: BandScore, exclude: Option<Dimension>) {
    var terms := App.SearchTerms(f.SearchQuery);
    if |terms| > 0 && (s.Search == "" || !(forall t :: t in terms ==> Contains(Lower(s.Search), t))) then false
    else if exclude != Some(YearDim) && |f.Year| > 0 && IntToString(s.Year) !in f.Year then false
    else if exclude != Some(EventDim) && |f.Event| > 0 && s.Event !in f.Event then false
    else if exclude != Some(RoundDim) && |f.ShowRound| > 0 && s.ShowRound !in f.ShowRound then false
    else if exclude != Some(ClassDim) && |f.Class| > 0 && s.Class !in f.Class then false
    else if exclude != Some(StateDim) && |f.StateLong| > 0 && s.StateLong !in f.StateLong then false
    else if exclude != Some(SchoolDim) && |f.NewSchools| > 0 && s.NewSchool !in f.NewSchools then false
    else true
  }

  /** Excluding nothing, the panel's predicate is the results filter itself. */
  lemma {:induction false} MatchesOtherFiltersNone(f: FilterState, s: BandScore)
    ensures MatchesOtherFilters(f, s, None) == App.Matches(f, s)
  {
  }

  /** Excluding a dimension is the same as clearing its list. */
  lemma {:induction false} MatchesOtherFiltersExcluding(f: FilterState, s: BandScore, d: Dimension)
    ensures MatchesOtherFilters(f, s, Some(d)) == App.Matches(WithSelection(f, d, []), s)
  {
    match d
    case YearDim =>
    case EventDim =>
    case RoundDim =>
    case ClassDim =>
    case StateDim =>
    case SchoolDim =>
  }

  /** What is excluded is ignored: a dimension's own list never affects it. */
  lemma {:induction false} ExclusionIgnoresOwnSelection(f: FilterState, s: BandScore, d: Dimension, sel: seq<string>)
    ensures MatchesOtherFilters(WithSelection(f, d, sel), s, Some(d)) == MatchesOtherFilters(f, s, Some(d))
  {
    MatchesOtherFiltersExcluding(f, s, d);
    MatchesOtherFiltersExcluding(WithSelection(f, d, sel), s, d);
    assert WithSelection(WithSelection(f, d, sel), d, []) == WithSelection(f, d, []) by {
      SelectionExtensional(WithSelection(WithSelection(f, d, sel), d, []), WithSelection(f, d, []));
    }
  }

  // ---------------------------------------------------------------------
  // `getFilteredOptions`

  /** `s[scoreKey]` for the record field behind dimension `d`: the year stays a number. */
  function RawValue(s: BandScore, d: Dimension): (v: Scalar)
    ensures ScalarToString(v) == DimensionValue(s, d)
    ensures v.Num? <==> d == YearDim
  {
    match d
    case YearDim => Num(s.Year)
    case EventDim => Str(s.Event)
    case RoundDim => Str(s.ShowRound)
    case ClassDim => Str(s.Class)
    case StateDim => Str(s.StateLong)
    case SchoolDim => Str(s.NewSchool)
  }

  /** The records the dropdown for `d` draws its options from. */
  function OptionScores(scores: seq<BandScore>, f: FilterState, d: Dimension): seq<BandScore> {
    Filter(scores, s => MatchesOtherFilters(f, s, Some(d)))
  }

  /** The record contributes an option to the dropdown for `d`. */
  ghost predicate Contributes(scores: seq<BandScore>, f: FilterState, d: Dimension, s: BandScore) {
    s in scores && MatchesOtherFilters(f, s, Some(d)) && Truthy(RawValue(s, d))
  }

  /** `records.map(s => s[scoreKey])`. */
  function RawValues(records: seq<BandScore>, d: Dimension): (r: seq<Scalar>)
    ensures |r| == |records|
    ensures forall i :: 0 <= i < |r| ==> r[i] == RawValue(records[i], d)
  {
    seq(|records|, i requires 0 <= i < |records| => RawValue(records[i], d))
  }

  /** `values.map(String)`. */
  function Texts(values: seq<Scalar>): (r: seq<string>)
    ensures |r| == |values|
    ensures forall i :: 0 <= i < |r| ==> r[i] == ScalarToString(values[i])
  {
    seq(|values|, i requires 0 <= i < |values| => ScalarToString(values[i]))
  }

  /**
   * `Array.from(new Set(records.map(s => s[scoreKey]))).filter(Boolean).map(String)`:
   * the distinct raw values of the records in first-seen order, falsy ones
   * dropped, as text.
   */
  function OptionsFrom(records: seq<BandScore>, d: Dimension): seq<string> {
    Texts(Filter(Dedup(RawValues(records, d)), Truthy))
  }

  /** `getFilteredOptions`: the options drawn from the records that pass the other filters. */
  function GetFilteredOptions(scores: seq<BandScore>, f: FilterState, d: Dimension): seq<string> {
    OptionsFrom(OptionScores(scores, f, d), d)
  }

  /** Within one dimension, distinct raw values have distinct texts. */
  lemma {:induction false} RawValueTextInjective(s: BandScore, t: BandScore, d: Dimension)
    requires DimensionValue(s, d) == DimensionValue(t, d)
    ensures RawValue(s, d) == RawValue(t, d)
  {
    if d == YearDim {
      IntToStringInjective(s.Year, t.Year);
    }
  }

  /** A text is among the options drawn from `records` exactly when one of them carries it, truthy. */
  lemma {:induction false} OptionsFromCharacterized(records: seq<BandScore>, d: Dimension, o: string)
    ensures o in OptionsFrom(records, d) <==>
      exists s :: s in records && Truthy(RawValue(s, d)) && DimensionValue(s, d) == o
  {
    if o in OptionsFrom(records, d) {
      OptionHasRecord(records, d, o);
    }
    if exists s :: s in records && Truthy(RawValue(s, d)) && DimensionValue(s, d) == o {
      var s :| s in records && Truthy(RawValue(s, d)) && DimensionValue(s, d) == o;
      RecordGivesOption(records, d, s);
    }
  }

  /** Every option comes from a record carrying it, truthy. */
  lemma {:induction false} OptionHasRecord(records: seq<BandScore>, d: Dimension, o: string)
    requires o in OptionsFrom(records, d)
    ensures exists s :: s in records && Truthy(RawValue(s, d)) && DimensionValue(s, d) == o
  {
    var raw := RawValues(records, d);
    var kept := Filter(Dedup(raw), Truthy);
    var r := OptionsFrom(records, d);
    var k :| 0 <= k < |r| && r[k] == o;
    assert kept[k] in raw;
    var i :| 0 <= i < |raw| && raw[i] == kept[k];
    assert records[i] in records && Truthy(RawValue(records[i], d)) && DimensionValue(records[i], d) == o;
  }

  /** Every record's truthy value is offered. */
  lemma {:induction false} RecordGivesOption(records: seq<BandScore>, d: Dimension, s: BandScore)
    requires s in records && Truthy(RawValue(s, d))
    ensures DimensionValue(s, d) in OptionsFrom(records, d)
  {
    var raw := RawValues(records, d);
    var kept := Filter(Dedup(raw), Truthy);
    var r := OptionsFrom(records, d);
    var i :| 0 <= i < |records| && records[i] == s;
    assert raw[i] == RawValue(s, d);
    assert RawValue(s, d) in kept;
    var k :| 0 <= k < |kept| && kept[k] == RawValue(s, d);
    assert r[k] == DimensionValue(s, d);
  }

  /**
   * An option is offered exactly when some record that passes the other
   * filters carries it, truthy, in field `d`.
   */
  lemma {:induction false} OptionsCharacterized(scores: seq<BandScore>, f: FilterState, d: Dimension, o: string)
    ensures o in GetFilteredOptions(scores, f, d) <==>
      exists s :: Contributes(scores, f, d, s) && DimensionValue(s, d) == o
  {
    var valid := OptionScores(scores, f, d);
    OptionsFromCharacterized(valid, d, o);
    if exists s :: s in valid && Truthy(RawValue(s, d)) && DimensionValue(s, d) == o {
      var s :| s in valid && Truthy(RawValue(s, d)) && DimensionValue(s, d) == o;
      assert Contributes(scores, f, d, s);
    }
    if exists s :: Contributes(scores, f, d, s) && DimensionValue(s, d) == o {
      var s :| Contributes(scores, f, d, s) && DimensionValue(s, d) == o;
      assert s in valid;
    }
  }

  /** The options drawn from any records have no repeats and no empty entry. */
  lemma {:induction false} OptionsFromDistinct(records: seq<BandScore>, d: Dimension)
    ensures Distinct(OptionsFrom(records, d))
    ensures "" !in OptionsFrom(records, d)
  {
    var raw := RawValues(records, d);
    var values := Dedup(raw);
    var kept := Filter(values, Truthy);
    var r := OptionsFrom(records, d);
    FilterSubsequence(values, Truthy);
    DistinctSubsequence(kept, values);
    forall i, j | 0 <= i < j < |r| ensures r[i] != r[j] {
      assert kept[i] in raw && kept[j] in raw;
      var a :| 0 <= a < |raw| && raw[a] == kept[i];
      var b :| 0 <= b < |raw| && raw[b] == kept[j];
      if r[i] == r[j] {
        RawValueTextInjective(records[a], records[b], d);
        assert false;
      }
    }
    forall i | 0 <= i < |r| ensures r[i] != "" {
      assert Truthy(kept[i]);
    }
  }

  /** The offered options have no repeats and no empty entry. */
  lemma {:induction false} OptionsDistinct(scores: seq<BandScore>, f: FilterState, d: Dimension)
    ensures Distinct(GetFilteredOptions(scores, f, d))
    ensures "" !in GetFilteredOptions(scores, f, d)
  {
    OptionsFromDistinct(OptionScores(scores, f, d), d);
  }

  /** A dropdown's options do not depend on that dropdown's own selection. */
  lemma {:induction false} OptionsIgnoreOwnSelection(scores: seq<BandScore>, f: FilterState, d: Dimension, sel: seq<string>)
    ensures GetFilteredOptions(scores, WithSelection(f, d, sel), d) == GetFilteredOptions(scores, f, d)
  {
    forall s ensures MatchesOtherFilters(WithSelection(f, d, sel), s, Some(d)) == MatchesOtherFilters(f, s, Some(d)) {
      ExclusionIgnoresOwnSelection(f, s, d, sel);
    }
    FilterExtensional(scores, s => MatchesOtherFilters(WithSelection(f, d, sel), s, Some(d)),
      s => MatchesOtherFilters(f, s, Some(d)));
  }

  // ---------------------------------------------------------------------
  // Option orderings

  /** `(a, b) => Number(b) - Number(a)`: newest year first. */
  function YearCompare(a: string, b: string): int {
    NumberOf(b) - NumberOf(a)
  }

  /** The year options, newest first. */
  function YearOptions(scores: seq<BandScore>, f: FilterState): seq<string> {
    SinkSort(GetFilteredOptions(scores, f, YearDim), YearCompare)
  }

  /** Each year option is the decimal form of a non-zero year. */
  lemma {:induction false} YearOptionsAreYears(scores: seq<BandScore>, f: FilterState, o: string)
    requires o in GetFilteredOptions(scores, f, YearDim)
    ensures o == IntToString(NumberOf(o)) && NumberOf(o) != 0
  {
    OptionsCharacterized(scores, f, YearDim, o);
    var s :| Contributes(scores, f, YearDim, s) && DimensionValue(s, YearDim) == o;
    NumberOfIntToString(s.Year);
  }

  /** The year dropdown lists the offered years, once each, strictly newest first. */
  lemma {:induction false} YearOptionsDescending(scores: seq<BandScore>, f: FilterState)
    ensures multiset(YearOptions(scores, f)) == multiset(GetFilteredOptions(scores, f, YearDim))
    ensures forall i, j :: 0 <= i < j < |YearOptions(scores, f)| ==>
      NumberOf(YearOptions(scores, f)[i]) > NumberOf(YearOptions(scores, f)[j])
  {
    var options := GetFilteredOptions(scores, f, YearDim);
    OptionsDistinct(scores, f, YearDim);
    forall o | o in options ensures o == IntToString(NumberOf(o)) {
      YearOptionsAreYears(scores, f, o);
    }
    NumbersDescending(options);
  }

  /** Distinct decimal numerals, sorted by `YearCompare`, are in strictly decreasing numeric order. */
  lemma {:induction false} NumbersDescending(options: seq<string>)
    requires Distinct(options)
    requires forall o :: o in options ==> o == IntToString(NumberOf(o))
    ensures multiset(SinkSort(options, YearCompare)) == multiset(options)
    ensures forall i, j :: 0 <= i < j < |SinkSort(options, YearCompare)| ==>
      NumberOf(SinkSort(options, YearCompare)[i]) > NumberOf(SinkSort(options, YearCompare)[j])
  {
    var r := SinkSort(options, YearCompare);
    SinkSortSorted(options, YearCompare);
    DistinctPermutation(options, r);
    forall i, j | 0 <= i < j < |r| ensures NumberOf(r[i]) > NumberOf(r[j]) {
      var a, b := r[i], r[j];
      assert a in multiset(options) && b in multiset(options);
      NumeralsDiffer(a, b);
      assert YearCompare(a, b) <= 0;
    }
  }

  /** Two different numerals in canonical form denote different numbers. */
  lemma {:induction false} NumeralsDiffer(a: string, b: string)
    requires a == IntToString(NumberOf(a)) && b == IntToString(NumberOf(b))
    requires a != b
    ensures NumberOf(a) != NumberOf(b)
  {
  }

  lemma {:induction false} LexCompareIsOrder()
    ensures Antisymmetric(LexCompare) && Transitive(LexCompare)
  {
    forall a, b ensures LexCompare(a, b) > 0 <==> LexCompare(b, a) < 0 {
      LexCompareAntisymmetric(a, b);
    }
    forall a, b, c | LexCompare(a, b) <= 0 && LexCompare(b, c) <= 0 ensures LexCompare(a, c) <= 0 {
      LexCompareTransitive(a, b, c);
    }
  }

  /** `.sort()`: code-point order. */
  function AlphaOptions(scores: seq<BandScore>, f: FilterState, d: Dimension): seq<string> {
    SinkSort(GetFilteredOptions(scores, f, d), LexCompare)
  }

  /** The show, state and school dropdowns list their options once each, in strictly ascending order. */
  lemma {:induction false} AlphaOptionsAscending(scores: seq<BandScore>, f: FilterState, d: Dimension)
    ensures multiset(AlphaOptions(scores, f, d)) == multiset(GetFilteredOptions(scores, f, d))
    ensures StrictlySorted(AlphaOptions(scores, f, d), LexCompare)
  {
    var options := GetFilteredOptions(scores, f, d);
    var r := AlphaOptions(scores, f, d);
    LexCompareIsOrder();
    SinkSortSorted(options, LexCompare);
    OptionsDistinct(scores, f, d);
    DistinctPermutation(options, r);
    forall i, j | 0 <= i < j < |r| ensures LexCompare(r[i], r[j]) < 0 {
      LexCompareZero(r[i], r[j]);
    }
  }

  /** `order.indexOf(x)`: the first position of `x`, or -1. */
  function IndexOf(order: seq<string>, x: string): (r: int)
    ensures -1 <= r < |order|
    ensures r == -1 <==> x !in order
    ensures r >= 0 ==> order[r] == x && x !in order[..r]
  {
    if order == [] then -1
    else if order[0] == x then 0
    else
      var k := IndexOf(order[1..], x);
      if k == -1 then -1
      else
        assert order[..k + 1] == [order[0]] + order[1..][..k];
        k + 1
  }

  /**
   * The class and round comparator: listed values by their position in
   * `order`, listed before unlisted, unlisted alphabetically.
   */
  function PriorityCompare(order: seq<string>, a: string, b: string): int {
    var idxA := IndexOf(order, a);
    var idxB := IndexOf(order, b);
    if idxA != -1 && idxB != -1 then idxA - idxB
    else if idxA != -1 then -1
    else if idxB != -1 then 1
    else LexCompare(a, b)
  }

  /** The comparator is a strict total order: antisymmetric, transitive, and zero only on equal values. */
  lemma {:induction false} PriorityCompareIsOrder(order: seq<string>)
    ensures Antisymmetric((a, b) => PriorityCompare(order, a, b))
    ensures Transitive((a, b) => PriorityCompare(order, a, b))
    ensures forall a, b :: PriorityCompare(order, a, b) == 0 ==> a == b
  {
    forall a, b ensures PriorityCompare(order, a, b) > 0 <==> PriorityCompare(order, b, a) < 0 {
      LexCompareAntisymmetric(a, b);
    }
    forall a, b, c | PriorityCompare(order, a, b) <= 0 && PriorityCompare(order, b, c) <= 0
      ensures PriorityCompare(order, a, c) <= 0
    {
      if IndexOf(order, a) == -1 && IndexOf(order, b) == -1 && IndexOf(order, c) == -1 {
        LexCompareTransitive(a, b, c);
      }
    }
    forall a, b | PriorityCompare(order, a, b) == 0 ensures a == b {
      LexCompareZero(a, b);
    }
  }

  /** The options sorted by `PriorityCompare`. */
  function RankedOptions(options: seq<string>, order: seq<string>): seq<string> {
    SinkSort(options, (a, b) => PriorityCompare(order, a, b))
  }

  /**
   * Sorting repeat-free options by priority puts each listed value before
   * every later one, in the order's sequence, and the unlisted ones after
   * them, alphabetically.
   */
  lemma {:induction false} RankedOptionsOrder(options: seq<string>, order: seq<string>)
    requires Distinct(options)
    ensures multiset(RankedOptions(options, order)) == multiset(options)
    ensures forall i, j :: 0 <= i < j < |RankedOptions(options, order)| ==>
      var a, b := RankedOptions(options, order)[i], RankedOptions(options, order)[j];
      (b in order ==> a in order && IndexOf(order, a) < IndexOf(order, b))
      && (a !in order ==> b !in order && LexCompare(a, b) < 0)
  {
    var cmp := (a, b) => PriorityCompare(order, a, b);
    var r := RankedOptions(options, order);
    PriorityCompareIsOrder(order);
    SinkSortSorted(options, cmp);
    DistinctPermutation(options, r);
    forall i, j | 0 <= i < j < |r|
      ensures r[j] in order ==> r[i] in order && IndexOf(order, r[i]) < IndexOf(order, r[j])
      ensures r[i] !in order ==> r[j] !in order && LexCompare(r[i], r[j]) < 0
    {
      assert cmp(r[i], r[j]) <= 0;
      LexCompareZero(r[i], r[j]);
    }
  }

  const ClassOrder: seq<string> := ["AAAA", "AAA", "AA", "A", "Open"]

  const RoundOrder: seq<string> := ["Grand Nationals Finals", "Semis", "Finals", "Prelims", "Prelims 1", "Prelims 2"]

  function ClassOptions(scores: seq<BandScore>, f: FilterState): seq<string> {
    RankedOptions(GetFilteredOptions(scores, f, ClassDim), ClassOrder)
  }

  function RoundOptions(scores: seq<BandScore>, f: FilterState): seq<string> {
    RankedOptions(GetFilteredOptions(scores, f, RoundDim), RoundOrder)
  }

  /** The class dropdown: `AAAA`, `AAA`, `AA`, `A`, `Open` as offered, in that order, then the rest alphabetically. */
  lemma {:induction false} ClassOptionsOrder(scores: seq<BandScore>, f: FilterState)
    ensures multiset(ClassOptions(scores, f)) == multiset(GetFilteredOptions(scores, f, ClassDim))
    ensures forall i, j :: 0 <= i < j < |ClassOptions(scores, f)| ==>
      var a, b := ClassOptions(scores, f)[i], ClassOptions(scores, f)[j];
      (b in ClassOrder ==> a in ClassOrder && IndexOf(ClassOrder, a) < IndexOf(ClassOrder, b))
      && (a !in ClassOrder ==> b !in ClassOrder && LexCompare(a, b) < 0)
  {
    OptionsDistinct(scores, f, ClassDim);
    RankedOptionsOrder(GetFilteredOptions(scores, f, ClassDim), ClassOrder);
  }

  /** The round dropdown: the six known rounds as offered, in their fixed order, then the rest alphabetically. */
  lemma {:induction false} RoundOptionsOrder(scores: seq<BandScore>, f: FilterState)
    ensures multiset(RoundOptions(scores, f)) == multiset(GetFilteredOptions(scores, f, RoundDim))
    ensures forall i, j :: 0 <= i < j < |RoundOptions(scores, f)| ==>
      var a, b := RoundOptions(scores, f)[i], RoundOptions(scores, f)[j];
      (b in RoundOrder ==> a in RoundOrder && IndexOf(RoundOrder, a) < IndexOf(RoundOrder, b))
      && (a !in RoundOrder ==> b !in RoundOrder && LexCompare(a, b) < 0)
  {
    OptionsDistinct(scores, f, RoundDim);
    RankedOptionsOrder(GetFilteredOptions(scores, f, RoundDim), RoundOrder);
  }

  // ---------------------------------------------------------------------
  // The dropdown's operations

  /** `filteredOptions`: the options whose lowercase form contains the lowercase search term. */
  function SearchOptions(options: seq<string>, term: string): (r: seq<string>)
    ensures IsSubsequence(r, options)
    ensures forall o :: o in r <==> o in options && Contains(Lower(o), Lower(term))
  {
    var p := o => Contains(Lower(o), Lower(term));
    FilterSubsequence(options, p);
    Filter(options, p)
  }

  /** An empty search term shows every option. */
  lemma {:induction false} EmptySearchShowsAll(options: seq<string>)
    ensures SearchOptions(options, "") == options
  {
    forall o ensures Contains(Lower(o), Lower("")) {
      ContainsEmpty(Lower(o));
    }
    FilterAll(options, o => Contains(Lower(o), Lower("")));
  }

  /** The search ignores the case of the term. */
  lemma {:induction false} SearchIgnoresTermCase(options: seq<string>, term: string)
    ensures SearchOptions(options, Lower(term)) == SearchOptions(options, term)
  {
    LowerIdempotent(term);
    FilterExtensional(options, o => Contains(Lower(o), Lower(Lower(term))), o => Contains(Lower(o), Lower(term)));
  }

  /** `toggleOption`: drop every copy of a selected option, or append an unselected one. */
  function Toggle(selected: seq<string>, option: string): (r: seq<string>)
    ensures option in r <==> option !in selected
    ensures forall x :: x != option ==> (x in r <==> x in selected)
    ensures option in selected ==> IsSubsequence(r, selected) && forall x :: x != option ==> multiset(r)[x] == multiset(selected)[x]
    ensures option !in selected ==> r == selected + [option]
  {
    if option in selected then
      var p := x => x != option;
      FilterSubsequence(selected, p);
      FilterMultiset(selected, p);
      Filter(selected, p)
    else selected + [option]
  }

  /** A selection without repeats stays without repeats. */
  lemma {:induction false} ToggleDistinct(selected: seq<string>, option: string)
    requires Distinct(selected)
    ensures Distinct(Toggle(selected, option))
  {
    if option in selected {
      DistinctSubsequence(Toggle(selected, option), selected);
    }
  }

  /** Toggling an unselected option twice restores the selection. */
  lemma {:induction false} ToggleTwice(selected: seq<string>, option: string)
    requires option !in selected
    ensures Toggle(Toggle(selected, option), option) == selected
  {
    FilterAppend(selected, option, x => x != option);
    FilterAll(selected, x => x != option);
  }

  /** The selection after the dropdown for `d` toggles `option`. */
  function ToggleOption(f: FilterState, d: Dimension, option: string): (r: FilterState)
    ensures Selection(r, d) == Toggle(Selection(f, d), option)
    ensures forall e :: e != d ==> Selection(r, e) == Selection(f, e)
    ensures r.SearchQuery == f.SearchQuery
  {
    WithSelection(f, d, Toggle(Selection(f, d), option))
  }

  /** `handleSelectAll`: the dropdown's whole option list becomes the selection. */
  function SelectAll(f: FilterState, d: Dimension, options: seq<string>): (r: FilterState)
    ensures Selection(r, d) == options
    ensures forall e :: e != d ==> Selection(r, e) == Selection(f, e)
    ensures r.SearchQuery == f.SearchQuery
  {
    WithSelection(f, d, options)
  }

  /** `handleClear`: the dimension's list is emptied. */
  function Clear(f: FilterState, d: Dimension): (r: FilterState)
    ensures Selection(r, d) == []
    ensures forall e :: e != d ==> Selection(r, e) == Selection(f, e)
    ensures r.SearchQuery == f.SearchQuery
  {
    WithSelection(f, d, [])
  }

  /** Clearing a dimension removes its constraint: nothing that matched stops matching. */
  lemma {:induction false} ClearNeverRemoves(f: FilterState, d: Dimension, s: BandScore)
    requires App.Matches(f, s)
    ensures App.Matches(Clear(f, d), s)
  {
    App.MatchesByDimension(f, s);
    App.MatchesByDimension(Clear(f, d), s);
  }

  /**
   * "Select all" is not "no filter": once some option is offered, selecting
   * every offered option keeps exactly the records that pass the other
   * filters and carry a truthy value in field `d`. The records whose field
   * is blank (or whose year is 0) drop out.
   */
  lemma {:induction false} SelectAllKeepsContributors(scores: seq<BandScore>, f: FilterState, d: Dimension, options: seq<string>, s: BandScore)
    requires forall o :: o in options <==> o in GetFilteredOptions(scores, f, d)
    requires options != []
    requires s in scores
    ensures App.Matches(SelectAll(f, d, options), s) <==> MatchesOtherFilters(f, s, Some(d)) && Truthy(RawValue(s, d))
  {
    var g := SelectAll(f, d, options);
    App.MatchesByDimension(g, s);
    App.MatchesByDimension(WithSelection(f, d, []), s);
    MatchesOtherFiltersExcluding(f, s, d);
    OptionsCharacterized(scores, f, d, DimensionValue(s, d));
    if DimensionValue(s, d) in options {
      var t :| Contributes(scores, f, d, t) && DimensionValue(t, d) == DimensionValue(s, d);
      RawValueTextInjective(s, t, d);
    }
  }
}
