/**
 * The record filter, the pagination window and the active-filter counter
 * of the explorer's top-level component (`App.tsx`).
 */
module App {
  import opened Text
  import opened Seqs
  import opened Types
  import opened Orders
  import ScoreTable

  // ---------------------------------------------------------------------
  // Free-text search

  /**
   * The query lowercased, trimmed, split on whitespace runs, empty pieces
   * dropped: the words of the lowercased query.
   */
  function SearchTerms(query: string): (terms: seq<string>)
    ensures terms == Words(Lower(query))
  {
    TrimSplitWords(Lower(query));
    NonEmpty(Split(Trim(Lower(query))))
  }

  /**
   * The terms are non-empty, lowercase and free of whitespace, and together
   * they spell out the lowercased query with its whitespace removed. So a
   * query yields no term at all exactly when it is blank.
   */
  lemma {:induction false} SearchTermsShape(query: string)
    ensures forall t :: t in SearchTerms(query) ==> t != "" && NoWs(t) && NoUpper(t)
    ensures Concat(SearchTerms(query)) == RemoveWs(Lower(query))
    ensures SearchTerms(query) == [] <==> RemoveWs(query) == []
  {
    var trimmed := Trim(Lower(query));
    assert NoUpper(trimmed) by {
      var i, j := TrimIsSlice(Lower(query));
      forall k | 0 <= k < |trimmed| ensures !IsUpper(trimmed[k]) {
        assert trimmed[k] == Lower(query)[i + k];
      }
    }
    SplitFromPieces(trimmed, "");
    ConcatNonEmpty(Split(trimmed));
    ConcatSplitFrom(trimmed, "");
    RemoveWsTrim(Lower(query));
    ConcatEmpty(SearchTerms(query));
    RemoveWsLower(query);
  }

  /** A query without whitespace is a single term. */
  lemma {:induction false} SearchTermsOfWord(w: string)
    requires w != "" && NoWs(w)
    ensures SearchTerms(w) == [Lower(w)]
  {
    WordsOfWord(Lower(w), "");
    assert "" + Lower(w) == Lower(w);
  }

  /** Every whitespace character separates terms: the terms on either side of it are the terms of each side. */
  lemma {:induction false} SearchTermsAtWs(a: string, c: char, b: string)
    requires IsWs(c)
    ensures SearchTerms(a + [c] + b) == SearchTerms(a) + SearchTerms(b)
  {
    assert Lower(a + [c] + b) == Lower(a) + [LowerChar(c)] + Lower(b);
    WordsAtWs(Lower(a), LowerChar(c), Lower(b), "");
  }

  /**
   * An empty term list matches every record; otherwise the record needs a
   * non-empty search text containing every term, in any order.
   */
  predicate MatchesSearch(s: BandScore, terms: seq<string>) {
    |terms| == 0 || (s.Search != "" && forall t :: t in terms ==> Contains(Lower(s.Search), t))
  }

  /** An empty value list imposes no constraint; a non-empty one requires membership. */
  predicate MatchesList(sel: seq<string>, value: string) {
    |sel| == 0 || value in sel
  }

  /** The `filteredScores` predicate: every dimension and the search, conjoined. */
  predicate Matches(f: FilterState, s: BandScore) {
    var matchYear := MatchesList(f.Year, IntToString(s.Year));
    var matchEvent := MatchesList(f.Event, s.Event);
    var matchRound := MatchesList(f.ShowRound, s.ShowRound);
    var matchClass := MatchesList(f.Class, s.Class);
    var matchState := MatchesList(f.StateLong, s.StateLong);
    var matchSchools := MatchesList(f.NewSchools, s.NewSchool);
    var matchSearch := MatchesSearch(s, SearchTerms(f.SearchQuery));
    matchYear && matchEvent && matchRound && matchClass && matchState && matchSearch && matchSchools
  }

  /** The predicate, read dimension by dimension. */
  lemma {:induction false} MatchesByDimension(f: FilterState, s: BandScore)
    ensures Matches(f, s) <==>
      (forall d :: MatchesList(Selection(f, d), DimensionValue(s, d)))
      && MatchesSearch(s, SearchTerms(f.SearchQuery))
  {
    if forall d :: MatchesList(Selection(f, d), DimensionValue(s, d)) {
      assert MatchesList(Selection(f, YearDim), DimensionValue(s, YearDim));
      assert MatchesList(Selection(f, EventDim), DimensionValue(s, EventDim));
      assert MatchesList(Selection(f, RoundDim), DimensionValue(s, RoundDim));
      assert MatchesList(Selection(f, ClassDim), DimensionValue(s, ClassDim));
      assert MatchesList(Selection(f, StateDim), DimensionValue(s, StateDim));
      assert MatchesList(Selection(f, SchoolDim), DimensionValue(s, SchoolDim));
    }
  }

  /** A blank query (empty or whitespace only) imposes no search constraint. */
  lemma {:induction false} BlankQueryMatchesAll(s: BandScore, query: string)
    requires RemoveWs(query) == []
    ensures MatchesSearch(s, SearchTerms(query))
  {
    SearchTermsShape(query);
  }

  /** A record with an empty search text never matches a query that is not blank. */
  lemma {:induction false} EmptySearchTextNeverMatches(f: FilterState, s: BandScore)
    requires s.Search == ""
    requires RemoveWs(f.SearchQuery) != []
    ensures !Matches(f, s)
  {
    SearchTermsShape(f.SearchQuery);
  }

  /** Term order does not matter: two queries with the same terms match the same records. */
  lemma {:induction false} SearchTermOrderIrrelevant(s: BandScore, q1: string, q2: string)
    requires forall t :: t in SearchTerms(q1) <==> t in SearchTerms(q2)
    ensures MatchesSearch(s, SearchTerms(q1)) == MatchesSearch(s, SearchTerms(q2))
  {
    var t1, t2 := SearchTerms(q1), SearchTerms(q2);
    if |t1| != 0 {
      assert t1[0] in t2;
    }
    if |t2| != 0 {
      assert t2[0] in t1;
    }
  }

  // ---------------------------------------------------------------------
  // `filteredScores` and `displayedScores`

  /** `scores.filter(...)`: the records matching the selection, in their original order. */
  function FilteredScores(scores: seq<BandScore>, f: FilterState): (r: seq<BandScore>)
    ensures IsSubsequence(r, scores)
    ensures forall x :: multiset(r)[x] == if Matches(f, x) then multiset(scores)[x] else 0
  {
    var p := s => Matches(f, s);
    FilterSubsequence(scores, p);
    FilterMultiset(scores, p);
    Filter(scores, p)
  }

  /** Whatever one selection admits, a weaker one admits too, in the same order. */
  lemma {:induction false} FilteredMonotone(scores: seq<BandScore>, f: FilterState, g: FilterState)
    requires forall x :: Matches(f, x) ==> Matches(g, x)
    ensures IsSubsequence(FilteredScores(scores, f), FilteredScores(scores, g))
  {
    FilterMonotone(scores, s => Matches(f, s), s => Matches(g, s));
  }

  /** The initial (and reset) selection lets every record through. */
  lemma {:induction false} InitialFiltersKeepAll(scores: seq<BandScore>)
    ensures FilteredScores(scores, InitialFilters) == scores
  {
    forall x | x in scores ensures Matches(InitialFilters, x) {
      BlankQueryMatchesAll(x, "");
    }
    FilterAll(scores, s => Matches(InitialFilters, s));
  }

  /**
   * Adding values to a dimension whose list is already non-empty can only
   * admit more records: none that matched stops matching.
   */
  lemma {:induction false} WideningKeepsMatches(f: FilterState, d: Dimension, sel: seq<string>, s: BandScore)
    requires Selection(f, d) != []
    requires forall v :: v in Selection(f, d) ==> v in sel
    requires Matches(f, s)
    ensures Matches(WithSelection(f, d, sel), s)
  {
    MatchesByDimension(f, s);
    MatchesByDimension(WithSelection(f, d, sel), s);
    assert DimensionValue(s, d) in sel;
  }

  /**
   * Constraining a dimension that had no constraint can only drop records:
   * nothing that did not match starts matching.
   */
  lemma {:induction false} NarrowingAddsNoMatch(f: FilterState, d: Dimension, sel: seq<string>, s: BandScore)
    requires Selection(f, d) == []
    requires Matches(WithSelection(f, d, sel), s)
    ensures Matches(f, s)
  {
    MatchesByDimension(f, s);
    MatchesByDimension(WithSelection(f, d, sel), s);
  }

  /** The two monotonicity facts, stated on the whole filtered list. */
  lemma {:induction false} FilteredByWidening(scores: seq<BandScore>, f: FilterState, d: Dimension, sel: seq<string>)
    requires Selection(f, d) != []
    requires forall v :: v in Selection(f, d) ==> v in sel
    ensures IsSubsequence(FilteredScores(scores, f), FilteredScores(scores, WithSelection(f, d, sel)))
  {
    forall x | Matches(f, x) ensures Matches(WithSelection(f, d, sel), x) {
      WideningKeepsMatches(f, d, sel, x);
    }
    FilteredMonotone(scores, f, WithSelection(f, d, sel));
  }

  lemma {:induction false} FilteredByNarrowing(scores: seq<BandScore>, f: FilterState, d: Dimension, sel: seq<string>)
    requires Selection(f, d) == []
    ensures IsSubsequence(FilteredScores(scores, WithSelection(f, d, sel)), FilteredScores(scores, f))
  {
    forall x | Matches(WithSelection(f, d, sel), x) ensures Matches(f, x) {
      NarrowingAddsNoMatch(f, d, sel, x);
    }
    FilteredMonotone(scores, WithSelection(f, d, sel), f);
  }

  /** `Math.min`. */
  function Min(a: int, b: int): int { if a < b then a else b }

  /** `s.slice(0, end)`: a negative end counts from the back, a large one is clamped. */
  function SliceTo<T>(s: seq<T>, end: int): (r: seq<T>)
    ensures end >= 0 ==> r == s[..Min(end, |s|)]
  {
    var e := if end < 0 then (if |s| + end < 0 then 0 else |s| + end) else Min(end, |s|);
    s[..e]
  }

  /** `displayedScores`: the first `visibleCount` filtered records, or all of them when fewer. */
  function DisplayedScores(filtered: seq<BandScore>, visibleCount: int): (r: seq<BandScore>)
    ensures visibleCount >= 0 ==> |r| == Min(visibleCount, |filtered|) && r == filtered[..|r|]
    ensures visibleCount >= 0 ==> (visibleCount >= |filtered| <==> r == filtered)
  {
    SliceTo(filtered, visibleCount)
  }

  // ---------------------------------------------------------------------
  // Active-filter counter

  /** The number of dimensions in `ds` whose value list is not empty. */
  function CountNonEmpty(f: FilterState, ds: seq<Dimension>): (n: nat)
    ensures n <= |ds|
  {
    if ds == [] then 0
    else (if Selection(f, ds[0]) != [] then 1 else 0) + CountNonEmpty(f, ds[1..])
  }

  /** `CountNonEmpty` over all six dimensions, one term per dimension. */
  lemma {:induction false} NonEmptyDimensionCount(f: FilterState)
    ensures CountNonEmpty(f, AllDimensions) ==
      (if f.Year != [] then 1 else 0) + (if f.Event != [] then 1 else 0)
      + (if f.ShowRound != [] then 1 else 0) + (if f.Class != [] then 1 else 0)
      + (if f.StateLong != [] then 1 else 0) + (if f.NewSchools != [] then 1 else 0)
  {
    var ds := AllDimensions;
    assert ds[5..][1..] == [];
    assert CountNonEmpty(f, ds[5..]) == if f.NewSchools != [] then 1 else 0;
    assert ds[4..][1..] == ds[5..];
    assert CountNonEmpty(f, ds[4..]) == (if f.StateLong != [] then 1 else 0) + CountNonEmpty(f, ds[5..]);
    assert ds[3..][1..] == ds[4..];
    assert CountNonEmpty(f, ds[3..]) == (if f.Class != [] then 1 else 0) + CountNonEmpty(f, ds[4..]);
    assert ds[2..][1..] == ds[3..];
    assert CountNonEmpty(f, ds[2..]) == (if f.ShowRound != [] then 1 else 0) + CountNonEmpty(f, ds[3..]);
    assert ds[1..][1..] == ds[2..];
    assert CountNonEmpty(f, ds[1..]) == (if f.Event != [] then 1 else 0) + CountNonEmpty(f, ds[2..]);
  }

  /**
   * `activeFilterCount`: one for each non-empty value list and one for a
   * query that is not `""`, even a whitespace-only one. It is zero exactly
   * for the initial selection.
   */
  method ActiveFilterCount(f: FilterState) returns (count: nat)
    ensures count == CountNonEmpty(f, AllDimensions) + (if f.SearchQuery != "" then 1 else 0)
    ensures count <= 7
    ensures count == 0 <==> f == InitialFilters
  {
    count := 0;
    if |f.Year| > 0 { count := count + 1; }
    if |f.Event| > 0 { count := count + 1; }
    if |f.ShowRound| > 0 { count := count + 1; }
    if |f.Class| > 0 { count := count + 1; }
    if f.SearchQuery != "" { count := count + 1; }
    if |f.NewSchools| > 0 { count := count + 1; }
    if |f.StateLong| > 0 { count := count + 1; }
    NonEmptyDimensionCount(f);
  }

  // ---------------------------------------------------------------------
  // Pagination window

  /** The step by which the window grows, and its initial and reset size. */
  const PageSize: nat := 500

  /** One "grow" event: the window widens by a page only while it is short of the list. */
  function GrowStep(visibleCount: int, filteredLength: int): (r: int)
    ensures r == visibleCount || r == visibleCount + PageSize
    ensures r > visibleCount <==> visibleCount < filteredLength
    ensures r > visibleCount ==> r < filteredLength + PageSize
  {
    if visibleCount < filteredLength then visibleCount + PageSize else visibleCount
  }

  /** The window after `k` grow events over a list of fixed length. */
  function Grows(visibleCount: int, filteredLength: int, k: nat): int {
    if k == 0 then visibleCount else GrowStep(Grows(visibleCount, filteredLength, k - 1), filteredLength)
  }

  /** The number of pages needed to show `n` records, at least one. */
  function PagesFor(n: int): (p: nat)
    ensures p >= 1
    ensures PageSize * (p - 1) < n || p == 1
    ensures n <= PageSize * p
    decreases n
  {
    if n <= PageSize then 1 else 1 + PagesFor(n - PageSize)
  }

  lemma {:induction false} PagesForShort(n: int, m: nat)
    requires m >= 1
    ensures PageSize * m < n <==> m < PagesFor(n)
    decreases n
  {
    if n > PageSize && m > 1 {
      PagesForShort(n - PageSize, m - 1);
    }
  }

  /**
   * From the initial window, `k` grow events over `n` filtered records give
   * `min(k + 1, PagesFor(n))` pages: the window is always a whole number of
   * pages, stops growing at the first page count covering the list, and so
   * never reaches `n + 500`.
   */
  lemma {:induction false} GrowsFromInitial(n: int, k: nat)
    ensures Grows(PageSize, n, k) == PageSize * Min(k + 1, PagesFor(n))
  {
    if k > 0 {
      GrowsFromInitial(n, k - 1);
      PagesForShort(n, k);
    }
  }

  /** After enough grow events every filtered record is on display. */
  lemma {:induction false} EventuallyAllDisplayed(filtered: seq<BandScore>)
    ensures DisplayedScores(filtered, Grows(PageSize, |filtered|, PagesFor(|filtered|) - 1)) == filtered
  {
    GrowsFromInitial(|filtered|, PagesFor(|filtered|) - 1);
  }

  /**
   * The table receives the window, not the filtered list, and sorts only
   * that: a filtered record beyond the window is not in the table, however
   * high it would sort.
   */
  lemma {:induction false} TableSortsOnlyWindow(filtered: seq<BandScore>, visibleCount: nat,
    key: ScoreTable.Field, dir: ScoreTable.Direction, x: BandScore)
    requires x !in filtered[..Min(visibleCount, |filtered|)]
    ensures x !in SinkSort(DisplayedScores(filtered, visibleCount), ScoreTable.Comparator(key, dir))
  {
    var shown := DisplayedScores(filtered, visibleCount);
    SinkSortPermutation(shown, ScoreTable.Comparator(key, dir));
    assert multiset(SinkSort(shown, ScoreTable.Comparator(key, dir)))[x] == multiset(shown)[x] == 0;
  }

  /**
   * The explorer's state: the loaded records, the selection and the
   * window size. Every change of selection replaces the selection object,
   * which resets the window; loading new records does not.
   */
  class Explorer {
    var scores: seq<BandScore>
    var filters: FilterState
    var visibleCount: int
    /** The window size in pages. */
    ghost var pages: nat

    /** The window is always a positive whole number of pages: a positive multiple of 500. */
    ghost predicate Valid()
      reads this
    {
      pages >= 1 && visibleCount == PageSize * pages
    }

    constructor ()
      ensures Valid()
      ensures scores == [] && filters == InitialFilters && visibleCount == PageSize
    {
      scores := [];
      filters := InitialFilters;
      visibleCount := PageSize;
      pages := 1;
    }

    function Filtered(): seq<BandScore>
      reads this
    {
      FilteredScores(scores, filters)
    }

    function Displayed(): (r: seq<BandScore>)
      reads this
      requires Valid()
      ensures r == Filtered()[..Min(visibleCount, |Filtered()|)]
    {
      DisplayedScores(Filtered(), visibleCount)
    }

    /** `onFilterChange`: a new selection, and the window back to one page. */
    method ChangeFilters(f: FilterState)
      requires Valid()
      modifies this
      ensures Valid()
      ensures filters == f && scores == old(scores) && visibleCount == PageSize
    {
      filters := f;
      visibleCount := PageSize;
      pages := 1;
    }

    /** `resetFilters`: the initial selection, and the window back to one page. */
    method ResetFilters()
      requires Valid()
      modifies this
      ensures Valid()
      ensures filters == InitialFilters && scores == old(scores) && visibleCount == PageSize
      ensures Filtered() == scores
    {
      ChangeFilters(InitialFilters);
      InitialFiltersKeepAll(scores);
    }

    /** The observer callback: on intersection, one grow event. */
    method Observe(isIntersecting: bool)
      requires Valid()
      modifies this
      ensures Valid()
      ensures filters == old(filters) && scores == old(scores)
      ensures visibleCount == if isIntersecting then GrowStep(old(visibleCount), |Filtered()|) else old(visibleCount)
    {
      if isIntersecting && visibleCount < |Filtered()| {
        visibleCount := visibleCount + PageSize;
        pages := pages + 1;
      }
    }

    /**
     * The table's rows: the window of the current filtered list, then
     * sorted by the table's column and direction.
     */
    method TableRows(key: ScoreTable.Field, dir: ScoreTable.Direction) returns (r: seq<BandScore>)
      requires Valid()
      ensures r == SinkSort(Displayed(), ScoreTable.Comparator(key, dir))
      ensures multiset(r) == multiset(Filtered()[..Min(visibleCount, |Filtered()|)])
      ensures ScoreTable.UniformColumn(Displayed(), key) ==> Sorted(r, ScoreTable.Comparator(key, dir))
    {
      r := ScoreTable.SortedScores(Displayed(), key, dir);
    }

    /** A successful load replaces the records; the selection and the window stay. */
    method Load(result: Result<seq<BandScore>>)
      requires Valid()
      modifies this
      ensures Valid()
      ensures filters == old(filters) && visibleCount == old(visibleCount)
      ensures scores == if result.Success? then result.value else old(scores)
    {
      if result.Success? {
        scores := result.value;
      }
    }
  }
}
