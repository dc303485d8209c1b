# Historic band scores explorer — a Dafny model

The explorer loads one published spreadsheet of marching-band competition
results. Each row is one band's score at one show. The interface offers:

- a free-text "smart search" and six multi-select filters: year, show, round, class, state and school;
- each filter's options computed against the *other* filters only;
- a results table sortable by any column;
- a window of results that grows by 500 rows as the reader scrolls.

This project covers four parts:

- the filtering, option, sorting and paging logic of the three React components `App.tsx`, `Filters.tsx` and `ScoreTable.tsx`;
- the row mapping of the spreadsheet adapter `sheetService.ts`, applied after the JSON has been parsed;
- the JavaScript string and number behaviour those parts depend on;
- proofs of what the interface promises.

Modules, one per file:

| file | module | contents |
|---|---|---|
| `text.dfy` | `Text` | JavaScript's `\s` character set, `trim`, `split(/\s+/)`, `includes`, ASCII `toLowerCase`, `String(n)` and `Number(s)` on integers, and a code-point string comparison standing in for `localeCompare` and the default `sort` order |
| `types.dfy` | `Types` | `BandScore` and `FilterState` from `types.ts`; the number-or-string place values as `Scalar`; the six filter dimensions; `Option` and `Result` |
| `seqs.dfy` | `Seqs` | subsequences, `filter`, duplicate removal (`new Set`) |
| `orders.dfy` | `Orders` | comparator laws; the insertion sort that stands for `Array.prototype.sort`; the proof that a strict order admits only one sorted arrangement |
| `app.dfy` | `App` | the record filter, the display window, the active-filter count and the `Explorer` state: records, selection and window size |
| `filters.dfy` | `Filters` | `matchesOtherFilters`, `getFilteredOptions`, the five option orderings, and the dropdown's search, toggle, select-all and clear |
| `score_table.dfy` | `ScoreTable` | the two-level comparator; an in-place array sort of a copy; the sort-header state `SortState`; the label-to-field mapping |
| `sheet_service.dfy` | `SheetService` | the JSON span of the response, header lookup (`getIdx`), the cell fallback (`getVal`), the record literal over a row's lookup (`RecordFrom`) and per row (`BuildRecord`) with its defaults, and the fixed error |

Design points, and behaviour of the code that is easy to misread:

- **The window is not capped at the number of filtered records.** `App.tsx:83-88` adds 500 whenever the count is still below that number, so the count can pass it: with 1200 records it goes 500, 1000, 1500. `App.GrowsFromInitial` proves the count is always a whole number of pages and stops at the first page count that covers the list.
- **Loading does not reset the window.** The reset effect (`App.tsx:45-47`) depends on `filters` alone, so new records keep the current window (`App.Explorer.Load`).
- **A cleared or unchanged selection still resets the window.** Every change of selection builds a new object (`Filters.tsx:175`, `180-185`, `App.tsx:49-59`), so the effect fires each time. `App.Explorer.ChangeFilters` and `App.Explorer.ResetFilters` always return to 500.
- **"Select all" is not "no filter".** The option lists leave out falsy values (`Filters.tsx:133`). Selecting every option therefore hides the records whose value is blank, or whose year is 0 (`Filters.SelectAllKeepsContributors`).
- **The table sorts only the loaded window.** `App.tsx:198` hands `displayedScores`, the first `visibleCount` filtered records in sheet order, to the table, and `ScoreTable.tsx:14-30` sorts that prefix. With more than 500 matches, sorting by Total orders the first 500 loaded records, not the 500 highest totals, and each page the scroll adds is sorted into the table anew (`App.Explorer.TableRows`, `App.TableSortsOnlyWindow`).
- **The table comparator is not a total preorder on mixed columns.** A place column can hold both numbers and text. Two numbers are compared numerically; anything else is compared as strings. So the places 9, 10 and "5a" form a cycle (`ScoreTable.MixedColumnCycle`). The comparator is always antisymmetric. On a uniform column (only numbers and the `'-'` placeholder, or only text) it is a total preorder, and `Array.prototype.sort`, which is stable, gives the sorted arrangement that keeps tied records in input order. The model's sort, an insertion sort by adjacent swaps, has exactly these properties there: it sorts (`ScoreTable.SortedScores`), keeps ties in input order (`ScoreTable.SortedScoresStable`) and leaves an ordered list unchanged. On a mixed column the engine's order is implementation-defined; the model's insertion sort still puts every pair of neighbours in order, but that is a property of the model's algorithm, not a promise of the program.
- **Sorting the option lists.** These comparators are strict orders on distinct values. `Orders.StrictlySortedUnique` shows that any correct sort then gives the same result, so modelling `.sort` by the same insertion sort as the table (`Orders.SinkSort`) loses nothing.

## Model

| member | source | states |
|---|---|---|
| `App.SearchTerms` | App.tsx:70 | the terms are the words of the lowercased query: its maximal runs of non-whitespace characters, in order (`Text.Words`) |
| `Text.TrimSplitWords` | App.tsx:70 | `trim().split(/\s+/)` with the empty pieces removed is exactly the list of words |
| `App.SearchTermsOfWord` | App.tsx:70 | a non-empty query without whitespace is one term, the query lowercased |
| `App.SearchTermsAtWs` | App.tsx:70 | a whitespace character always separates terms: the terms of `a + c + b` are those of `a` followed by those of `b` |
| `App.SearchTermsShape` | App.tsx:70 | the search terms are non-empty, contain no whitespace and no upper-case letter; joined together they are the lowercased query with its whitespace removed; there are none exactly when the query is blank |
| `App.Matches` | App.tsx:62-76 | the table's record predicate; no contract of its own: `App.MatchesByDimension` reads it dimension by dimension, and `App.FilteredScores` states the filter built from it |
| `App.MatchesByDimension` | App.tsx:63-75 | a record matches when, for each of the six dimensions, the list is empty or holds the record's value (the year as `String(Year)`), and the search matches |
| `App.BlankQueryMatchesAll` | App.tsx:70-71 | a query of only whitespace imposes no search constraint |
| `App.EmptySearchTextNeverMatches` | App.tsx:71-72 | a record with empty `Search` fails any non-blank query |
| `App.SearchTermOrderIrrelevant` | App.tsx:72 | two queries with the same set of terms select the same records, whatever their order or repetition |
| `App.FilteredScores` | App.tsx:61-77 | an order-preserving subsequence of the records; each matching record keeps its multiplicity and each other record is absent |
| `App.FilteredMonotone` | App.tsx:61-77 | a weaker predicate keeps a superset of records, as a subsequence |
| `App.InitialFiltersKeepAll` | App.tsx:16-24 | the initial, all-empty selection keeps every record |
| `App.WideningKeepsMatches` | App.tsx:63-75 | adding values to a non-empty dimension list never loses a match |
| `App.NarrowingAddsNoMatch` | App.tsx:63-75 | turning an empty dimension list into any list never gains a match |
| `App.FilteredByWidening` | App.tsx:61-77 | the filtered records before widening are a subsequence of those after |
| `App.FilteredByNarrowing` | App.tsx:61-77 | the filtered records after narrowing are a subsequence of those before |
| `App.SliceTo` | App.tsx:80 | `slice(0, end)` for a non-negative end: the prefix of length `min(end, length)` |
| `App.DisplayedScores` | App.tsx:79-81 | the displayed records are the first `min(visibleCount, filtered length)` filtered records; they are all of them exactly when the count reaches the filtered length |
| `App.CountNonEmpty` | App.tsx:104-114 | at most one per dimension counted |
| `App.NonEmptyDimensionCount` | App.tsx:106-112 | the count over all dimensions is the number of non-empty lists among the six |
| `App.ActiveFilterCount` | App.tsx:104-114 | the non-empty lists plus one for a non-empty query, even one of only spaces; at most 7; zero exactly for the initial selection |
| `App.GrowStep` | App.tsx:83-88 | a grow event adds exactly 500 or nothing; it adds 500 exactly when the count is below the filtered length, and the result then stays below that length plus 500 |
| `App.PagesFor` | App.tsx:83-88 | the least positive number of 500-record pages covering `n` records |
| `App.PagesForShort` | App.tsx:85 | `m` pages fall short of `n` records exactly when `m` is less than the pages needed |
| `App.GrowsFromInitial` | App.tsx:83-88 | from 500, `k` grow events give `500 * min(k + 1, pages needed)`: a positive multiple of 500 that stops growing once the list is covered |
| `App.EventuallyAllDisplayed` | App.tsx:79-88 | after enough grow events every filtered record is displayed |
| `App.Explorer.constructor` | App.tsx:10-24 | no records, the initial selection, a window of 500 |
| `App.Explorer.Displayed` | App.tsx:79-81 | the displayed records are the first `min(visibleCount, filtered length)` filtered records |
| `App.Explorer.ChangeFilters` | App.tsx:45-47 | the new selection is installed, the records are kept and the window returns to 500 |
| `App.Explorer.ResetFilters` | App.tsx:45-59 | the selection returns to the initial one, the window to 500, and every record is filtered in |
| `App.Explorer.Observe` | App.tsx:83-88 | an intersecting observation is one grow step and anything else leaves the count; selection and records are kept; the window stays a positive multiple of 500 |
| `App.TableSortsOnlyWindow` | App.tsx:198 | a filtered record outside the window is absent from the sorted table, whatever the column and direction |
| `App.Explorer.TableRows` | App.tsx:198 | the table's rows are the sorted window: a rearrangement of the first `min(visibleCount, filtered length)` filtered records, sorted throughout on a uniform column |
| `App.Explorer.Load` | App.tsx:28-39 | a successful load replaces the records; a failed one keeps them; the selection and the window are unchanged |
| `Types.WithSelection` | Filters.tsx:180-185 | `{ ...filters, key: val }`: the named dimension gets the new list, every other dimension and the query are kept |
| `Types.SelectionExtensional` | types.ts:19-27 | a selection is determined by its query and its six lists |
| `Types.AllDimensionsComplete` | types.ts:19-27 | the six dimensions enumerate every list of the selection |
| `Filters.MatchesOtherFilters` | Filters.tsx:115-129 | the panel's predicate; no contract of its own: `Filters.MatchesOtherFiltersNone`, `Filters.MatchesOtherFiltersExcluding` and `Filters.ExclusionIgnoresOwnSelection` state what it is |
| `Filters.MatchesOtherFiltersNone` | Filters.tsx:115-129 | with nothing excluded the panel's predicate is the table's predicate of `App.tsx` lines 62-76 |
| `Filters.MatchesOtherFiltersExcluding` | Filters.tsx:115-129 | excluding a dimension is the table's predicate with that dimension's list emptied |
| `Filters.ExclusionIgnoresOwnSelection` | Filters.tsx:122-127 | the predicate that excludes a dimension does not depend on that dimension's list |
| `Filters.RawValue` | Filters.tsx:133 | the record's value for a dimension: its `String` form is the value the table filter compares; it is a number exactly for the year |
| `Filters.RawValueTextInjective` | Filters.tsx:133 | two values with the same `String` form are the same value, so removing duplicates before or after `map(String)` agrees |
| `Filters.RawValues` | Filters.tsx:133 | `validScores.map(s => s[scoreKey])`, index by index |
| `Filters.Texts` | Filters.tsx:133 | `.map(String)`, index by index |
| `Filters.OptionsFrom` | Filters.tsx:133 | the option list of some records; no contract of its own: `Filters.OptionsFromCharacterized` and `Filters.OptionsFromDistinct` state its contents |
| `Filters.OptionsFromCharacterized` | Filters.tsx:133 | a string is an option exactly when some given record has it as its value for the dimension and that value is truthy |
| `Filters.OptionHasRecord` | Filters.tsx:133 | every option is the truthy value of one of the given records |
| `Filters.RecordGivesOption` | Filters.tsx:133 | every given record's truthy value is an option |
| `Filters.GetFilteredOptions` | Filters.tsx:131-134 | `getFilteredOptions`; no contract of its own: `Filters.OptionsCharacterized`, `Filters.OptionsDistinct` and `Filters.OptionsIgnoreOwnSelection` state its contents |
| `Filters.OptionsCharacterized` | Filters.tsx:131-134 | a string is an option exactly when it is the truthy value of some record that passes every other filter and the search |
| `Filters.OptionsFromDistinct` | Filters.tsx:133 | the option list has no repeats and no empty string |
| `Filters.OptionsDistinct` | Filters.tsx:131-134 | a dimension's options have no repeats and no empty string |
| `Filters.OptionsIgnoreOwnSelection` | Filters.tsx:131-134 | a dimension's options do not change when its own selection changes |
| `Orders.StrictlySortedUnique` | Filters.tsx:136-159 | two strictly sorted rearrangements of each other are equal, so a strict order fixes the sorted option list |
| `Orders.SinkSortSorted` | Filters.tsx:136-159 | under an antisymmetric, transitive comparator the sort `Orders.SinkSort`, also used for the option lists, is a rearrangement of its input ordered throughout |
| `Filters.YearOptions` | Filters.tsx:136 | the year dropdown's list; no contract of its own: `Filters.YearOptionsAreYears` and `Filters.YearOptionsDescending` state it |
| `Filters.YearOptionsAreYears` | Filters.tsx:133-136 | every year option is the decimal form of a non-zero year |
| `Filters.YearOptionsDescending` | Filters.tsx:136 | the year options are the filtered options rearranged, in strictly decreasing numeric order |
| `Filters.NumbersDescending` | Filters.tsx:136 | distinct canonical numerals sorted by `Number(b) - Number(a)` are a rearrangement in strictly decreasing numeric order |
| `Filters.LexCompareIsOrder` | Filters.tsx:137-139 | the string order is antisymmetric and transitive |
| `Filters.AlphaOptions` | Filters.tsx:137-139 | the show, state and school lists; no contract of its own: `Filters.AlphaOptionsAscending` states it |
| `Filters.AlphaOptionsAscending` | Filters.tsx:137-139 | the show, state and school options are the filtered options rearranged, in strictly ascending string order |
| `Filters.IndexOf` | Filters.tsx:143-144 | `indexOf`: -1 exactly when absent, otherwise the first position holding the value |
| `Filters.PriorityCompare` | Filters.tsx:142-149 | the rank comparator; no contract of its own: `Filters.PriorityCompareIsOrder` states its laws and `Filters.RankedOptionsOrder` the order it gives |
| `Filters.PriorityCompareIsOrder` | Filters.tsx:142-149 | the priority comparator is antisymmetric and transitive, and ties only equal values |
| `Filters.RankedOptionsOrder` | Filters.tsx:141-159 | a rearrangement of the options: listed values first in list order, then the unlisted ones in ascending string order |
| `Filters.ClassOptions` | Filters.tsx:141-149 | the class dropdown's list; no contract of its own: `Filters.ClassOptionsOrder` states it |
| `Filters.RoundOptions` | Filters.tsx:151-159 | the round dropdown's list; no contract of its own: `Filters.RoundOptionsOrder` states it |
| `Filters.ClassOptionsOrder` | Filters.tsx:141-149 | class options: `AAAA, AAA, AA, A, Open` first in that order, then the rest alphabetically; a rearrangement of the filtered options |
| `Filters.RoundOptionsOrder` | Filters.tsx:151-159 | round options: the six listed rounds first in list order, then the rest alphabetically; a rearrangement of the filtered options |
| `Filters.SearchOptions` | Filters.tsx:34-36 | an order-preserving subsequence of the options, holding exactly the options whose lowercased form contains the lowercased term |
| `Filters.EmptySearchShowsAll` | Filters.tsx:34-36 | an empty option search keeps every option |
| `Filters.SearchIgnoresTermCase` | Filters.tsx:35 | the option search does not depend on the term's case |
| `Filters.Toggle` | Filters.tsx:38-43 | the option ends up present exactly when it was absent; every other value keeps its membership and multiplicity; a present option is removed in every occurrence; an absent one is appended at the end |
| `Filters.ToggleDistinct` | Filters.tsx:38-43 | toggling keeps a repeat-free selection repeat-free |
| `Filters.ToggleTwice` | Filters.tsx:38-43 | toggling an absent option twice restores the selection |
| `Filters.ToggleOption` | Filters.tsx:38-43 | the toggled dimension's list becomes `Filters.Toggle` of the old one; every other list and the query are kept |
| `Filters.SelectAll` | Filters.tsx:45 | the dimension's list becomes the whole option list; every other list and the query are kept |
| `Filters.Clear` | Filters.tsx:46 | the dimension's list becomes empty; every other list and the query are kept |
| `Filters.ClearNeverRemoves` | Filters.tsx:46 | clearing a dimension never hides a displayed record |
| `Filters.SelectAllKeepsContributors` | Filters.tsx:45 | after "select all", a record matches exactly when it passes the other filters and its value for the dimension is truthy |
| `ScoreTable.FieldOfName` | ScoreTable.tsx:48-55 | a string names at most one field, and the field's name is that string |
| `ScoreTable.FieldNameRoundTrip` | types.ts:2-15 | every field's name resolves back to that field |
| `ScoreTable.FieldValue` | types.ts:2-15 | ID, year and total are numbers and the other text fields are strings |
| `ScoreTable.CompareValues` | ScoreTable.tsx:18-23 | the primary comparison; no contract of its own: `ScoreTable.CompareValuesAntisymmetric`, `ScoreTable.CompareValuesOrder` and `ScoreTable.MixedColumnCycle` state its laws |
| `ScoreTable.Primary` | ScoreTable.tsx:16-24 | the directed comparison; no contract of its own: `ScoreTable.DirectionReversesPrimary` and `ScoreTable.PrimaryOrder` state it |
| `ScoreTable.Compare` | ScoreTable.tsx:15-29 | the comparator with the year tie-break; no contract of its own: `ScoreTable.CompareAntisymmetric` and `ScoreTable.CompareTransitive` state its laws |
| `ScoreTable.Comparator` | ScoreTable.tsx:15-29 | the comparison function handed to `sort` |
| `ScoreTable.CompareValuesAntisymmetric` | ScoreTable.tsx:19-23 | swapping the values negates the primary comparison |
| `ScoreTable.CompareAntisymmetric` | ScoreTable.tsx:15-29 | the full comparator, tie-break included, is antisymmetric for every key and direction |
| `ScoreTable.DirectionReversesPrimary` | ScoreTable.tsx:24-27 | descending is the negation of ascending, which is ascending with the arguments swapped; the descending-year tie-break is the same in both directions |
| `ScoreTable.MixedColumnCycle` | ScoreTable.tsx:19-23 | the places 9, 10 and "5a" compare in a cycle, so the comparator is not transitive on a mixed column |
| `ScoreTable.UnplacedBeforeNumbers` | ScoreTable.tsx:22 | the `'-'` placement placeholder of the loader sorts before every number's string form |
| `ScoreTable.CompareValuesOrder` | ScoreTable.tsx:19-23 | on values all numbers or `'-'`, or all text, the primary comparison ties only equal values and is transitive |
| `ScoreTable.PrimaryOrder` | ScoreTable.tsx:16-24 | the directed primary comparison has the same laws on such values |
| `ScoreTable.CompareTransitive` | ScoreTable.tsx:15-29 | on such values the full comparator is transitive |
| `ScoreTable.FixedTypeColumnsUniform` | types.ts:2-15 | every column other than the three place columns is uniform |
| `ScoreTable.UniformTransitive` | ScoreTable.tsx:15-29 | on a uniform column the comparator is transitive among the records |
| `ScoreTable.Swap` | ScoreTable.tsx:15 | an exchange of two cells: the new contents are the old with the cells at `i` and `j` exchanged |
| `ScoreTable.SinkLeft` | ScoreTable.tsx:15 | one insertion pass: the prefix through `i` becomes `Orders.SinkInto` of the prefix before `i` and the element at `i`; the cells after `i` are kept |
| `ScoreTable.SortInPlace` | ScoreTable.tsx:15 | for any comparator, the array ends as `Orders.SinkSort` of its old contents, whose laws follow |
| `Orders.SinkInto` | ScoreTable.tsx:15 | no contract of its own: `Orders.SinkIntoShape`, `Orders.SinkIntoSorted` and `Orders.SinkIntoFilter` state what one insertion pass does |
| `Orders.SinkIntoShape` | ScoreTable.tsx:15 | one pass adds exactly the new element: the length grows by one, the contents by that element, and the last place holds either the new element or the old last one |
| `ScoreTable.SinkIntoAt` | ScoreTable.tsx:15 | a pass puts the new element just after the last element that does not sort after it, when every later element does |
| `Orders.SinkSort` | ScoreTable.tsx:15 | no contract of its own: `Orders.SinkSortPermutation`, `Orders.SinkSortAdjacentSorted`, `Orders.SinkSortOfSorted` and `Orders.SinkSortStable` state what the sort does |
| `Orders.SinkSortPermutation` | ScoreTable.tsx:15 | the sort is a rearrangement of its input: same length, same multiset of elements |
| `Orders.SinkIntoSorted` | ScoreTable.tsx:15 | under an antisymmetric comparator a pass keeps neighbours in order |
| `Orders.SinkSortAdjacentSorted` | ScoreTable.tsx:15 | under an antisymmetric comparator the sort puts every pair of neighbours in order |
| `Orders.SinkSortOfSorted` | ScoreTable.tsx:15 | an input whose neighbours are in order is returned unchanged |
| `Orders.SinkIntoFilter` | ScoreTable.tsx:15 | a pass moves the new element past no element it ties with |
| `Orders.SinkSortStable` | ScoreTable.tsx:15 | the sort is stable: elements that mutually tie keep their input order, shown by filtering on any such group |
| `ScoreTable.UniformSorted` | ScoreTable.tsx:14-30 | on a uniform column a rearrangement with ordered neighbours is ordered throughout |
| `ScoreTable.SortedScores` | ScoreTable.tsx:14-30 | the sorted copy is `Orders.SinkSort` of the records: a permutation with every pair of neighbours in order, ordered throughout on a uniform column, and the records themselves when they are already in order |
| `ScoreTable.SortedScoresStable` | ScoreTable.tsx:14-30 | on a uniform column the records tied with any record keep their input order, as the stable engine sort keeps them |
| `ScoreTable.NextSort` | ScoreTable.tsx:32-39 | the new sort key is always the clicked column |
| `ScoreTable.NextSortTwice` | ScoreTable.tsx:32-39 | two clicks on the current column restore the sort; on a new column they leave the opposite of its default direction |
| `ScoreTable.NextSortSameColumnFlips` | ScoreTable.tsx:33-34 | a click on the current column reverses the direction |
| `ScoreTable.SortState.constructor` | ScoreTable.tsx:11-12 | the table starts sorted by ID, ascending |
| `ScoreTable.SortState.HandleSort` | ScoreTable.tsx:32-39 | the new key and direction: same column flips, a new column gets descending for the year and ascending otherwise |
| `ScoreTable.PropertyKeyFromLabel` | ScoreTable.tsx:48-55 | the three renamed labels become the name of a real field; every other label is passed through unchanged |
| `ScoreTable.DisplayColumnsResolve` | ScoreTable.tsx:48-64 | every label of `DISPLAY_COLUMNS` (`constants.ts` lines 8-10) maps to a real field, no two to the same one, namely year, event, round, school, total, class and the three places |
| `SheetService.IndexOfChar` | sheetService.ts:11 | `indexOf`: -1 exactly when absent, otherwise the first position |
| `SheetService.LastIndexOfChar` | sheetService.ts:11 | `lastIndexOf`: -1 exactly when absent, otherwise the last position |
| `SheetService.Clamp` | sheetService.ts:11 | `substring`'s index clamp: an index inside `0..length` is kept, a negative one becomes 0 and one past the end becomes the length |
| `SheetService.Substring` | sheetService.ts:11 | with ordered in-range indices, `substring` is the slice between them; `SheetService.SubstringClamps` and `SheetService.SubstringSwap` state the clamp and the swap |
| `SheetService.SubstringClamps` | sheetService.ts:11 | out-of-range bounds act as the nearest end of the string |
| `SheetService.SubstringSwap` | sheetService.ts:11 | the result does not depend on the order of the two bounds |
| `SheetService.JsonSpan` | sheetService.ts:11 | the text handed to `JSON.parse`; no contract of its own: `SheetService.JsonSpanBraced`, `SheetService.JsonSpanNoBraces`, `SheetService.JsonSpanUnclosed`, `SheetService.JsonSpanUnopened` and `SheetService.JsonSpanReversed` state it case by case |
| `SheetService.JsonSpanBraced` | sheetService.ts:11 | with a `{` before the last `}`, the payload runs from the first `{` through the last `}` inclusive |
| `SheetService.JsonSpanNoBraces` | sheetService.ts:11 | without braces the payload is empty |
| `SheetService.JsonSpanUnclosed` | sheetService.ts:11 | with a `{` but no `}`, `substring` swaps its bounds and yields the text before the first `{` |
| `SheetService.JsonSpanUnopened` | sheetService.ts:11 | with a `}` but no `{`, the -1 start is read as 0 and the payload is the text through the last `}` |
| `SheetService.JsonSpanReversed` | sheetService.ts:11 | when the last `}` comes before the first `{`, `substring` swaps its bounds and yields the text strictly between them, which holds no brace |
| `SheetService.Normalize` | sheetService.ts:16-19 | a normalised label has no whitespace and no upper-case letter; with `SheetService.NormalizeIgnoresCase`, `SheetService.NormalizeIgnoresWs` and `SheetService.NormalizeFixes` this fixes its value |
| `SheetService.NormalizeIgnoresCase` | sheetService.ts:16-19 | a label and its lower-cased form normalise alike, so lookup ignores case |
| `SheetService.NormalizeIgnoresWs` | sheetService.ts:16-19 | removing any one whitespace character of the `\s` class from a label leaves its normal form unchanged |
| `SheetService.NormalizeFixes` | sheetService.ts:16-19 | a label with no whitespace and no upper case is its own normal form, so two such labels match only when equal |
| `SheetService.NormalizeIdempotent` | sheetService.ts:16-19 | normalising twice is normalising once |
| `SheetService.FindFrom` | sheetService.ts:17-21 | `findIndex` from a position: the first matching column at or after it, or -1 exactly when none matches |
| `SheetService.FindFromNormalized` | sheetService.ts:16-20 | labels with the same normal form find the same column from any position |
| `SheetService.GetIdx` | sheetService.ts:15-22 | the first column whose label normalises to the same string, or -1 exactly when there is none; a column without a label never matches |
| `SheetService.GetIdxNormalized` | sheetService.ts:15-22 | labels with the same normal form find the same column |
| `SheetService.GetVal` | sheetService.ts:25-30 | a missing column gives null |
| `SheetService.GetValNullish` | sheetService.ts:28-29 | a present cell gives its `v` when not null, else its `f`, else null |
| `SheetService.GetValMissingCell` | sheetService.ts:28-29 | a row too short for the column, or a null cell, gives null |
| `SheetService.GetValNormalized` | sheetService.ts:25-30 | labels with the same normal form give the same value |
| `SheetService.TextOr` | sheetService.ts:35-44 | `String(x or '')`: the empty string for a falsy value, otherwise the value's non-empty string form |
| `SheetService.PlaceOr` | sheetService.ts:40-42 | `x ?? y ?? '-'`: the first non-null value, and a 0 is kept |
| `SheetService.PlaceLabelsAlike` | sheetService.ts:40-42 | `Place: Class` and `Place:Class` normalise alike, and so do Panel and Overall |
| `SheetService.SpacedPlaceLookups` | sheetService.ts:40-42 | the spaced and unspaced place labels find the same value |
| `SheetService.PlaceFallbackRedundant` | sheetService.ts:40-42 | each place field is its unspaced lookup or `'-'`; the spaced fallback never contributes |
| `SheetService.RecordFrom` | sheetService.ts:32-45 | the record literal over a lookup; no contract of its own: the lemmas below state each field's value for any lookup |
| `SheetService.BuildRecord` | sheetService.ts:24-46 | the record of one row, `RecordFrom` over that row's `getVal`; no contract of its own: `SheetService.MissingColumnsDefaults` and `SheetService.PlaceFallbackRedundant` state it |
| `SheetService.NumericFallbackRedundant` | sheetService.ts:33-38 | for any lookup, `Number(x or 0)` is `Number(x)` with null as 0 |
| `SheetService.ZeroHandling` | sheetService.ts:35-40 | for any lookup, a place of 0 is kept, while an event of 0 becomes `''` and an event of 7 becomes `"7"` |
| `SheetService.ShowRoundFallback` | sheetService.ts:36 | for any lookup, the round is the `Show_Round` cell when truthy, else the `P/S/F` cell as text |
| `SheetService.FalsyDefaults` | sheetService.ts:33-44 | for any lookup, a falsy value makes ID and total 0 and every text field `''` |
| `SheetService.AllNullDefaults` | sheetService.ts:32-45 | a lookup that finds nothing gives the all-default record, the places `'-'` |
| `SheetService.MissingColumnsDefaults` | sheetService.ts:32-45 | with no labelled column every field takes its default, the places `'-'` |
| `SheetService.FetchScores` | sheetService.ts:5-50 | any failure is the one fixed error; failure happens exactly when the request or the parse fails; otherwise one record per row, in row order |

## Left out

- The network request, `response.text()`, `JSON.parse` and the `table` lookup. `SheetService.FetchScores` receives the response text, with `None` for a failed request, and the parser as a function parameter.
- `console.error`, the request URL and its constants (`constants.ts:5-6`), the `isLoading` and `error` flags of `loadData`, the "Try again" button and `err.message ||` fallback: these concern I/O and rendering.
- The IntersectionObserver set-up and teardown (`App.tsx:90-102`): only its callback is modelled, as `App.Explorer.Observe`.
- `useMemo` and `useCallback`: caching with no effect on the values.
- All JSX, styles, dropdown and drawer open/closed state and the outside-click listener (`Filters.tsx:24-32`): display only.
- Floating point: numbers are integers. `Number(s)` on a string accepts only an optional `-` and decimal digits and gives 0 otherwise, where JavaScript also accepts decimals, exponents and surrounding whitespace and gives `NaN` for junk. `NaN`, `Infinity` and `-0` are not modelled.
- `localeCompare` and the default `sort` order are both modelled as code-point lexicographic order. `toLowerCase` covers ASCII letters only, and `\s` covers the ASCII whitespace, NBSP, the Unicode space separators, the line and paragraph separators and U+FEFF.
- Cell values are numbers, strings or null. Booleans and the spreadsheet's date values are not modelled, and every row is assumed to have a `c` array.
- `SortDirection`'s `null` value (`types.ts:17`) is never assigned by the code and is not modelled.
- `ScoreTable.SortedScores`: promises full sortedness and stability only for uniform columns (only numbers and `'-'`, or only text), because on a mixed place column the comparator itself is not transitive (`ScoreTable.MixedColumnCycle`) and the engine's order is implementation-defined there. Its ordered-neighbours clause on a mixed column is a property of the model's insertion sort, not of the program.
- `ScoreTable.SortInPlace`: an insertion sort by adjacent swaps stands in for the engine's stable sort. On a uniform column both give a sorted, stable arrangement; the model does not prove that such an arrangement is unique.
- `Filters.YearOptionsDescending`, `Filters.AlphaOptionsAscending`, `Filters.RankedOptionsOrder` and the class and round lemmas: JavaScript's `sort` is modelled by the table's insertion sort `Orders.SinkSort`, which `Orders.StrictlySortedUnique` shows to be the only possible result for these strict orders.
- `SheetService.GetVal`: its own contract states only the missing-column case; the cell cases are stated by `SheetService.GetValNullish` and `SheetService.GetValMissingCell`.
- `FILTER_COLUMNS` (`constants.ts:12-14`) is not used by the code and is not modelled; `vite.config.ts` is build configuration.
