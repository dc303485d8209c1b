/**
 * Comparators in the JavaScript sense (negative, zero or positive), the
 * ordering facts the sorts rely on, and the insertion sort that stands for
 * `Array.prototype.sort`, both on the table's copied array and on the
 * freshly built option lists.
 */
module Orders {
  import opened Seqs

  /** `cmp(a, b)` and `cmp(b, a)` agree on which of the two comes first. */
  ghost predicate Antisymmetric<T(!new)>(cmp: (T, T) -> int) {
    forall a, b :: cmp(a, b) > 0 <==> cmp(b, a) < 0
  }

  /** "Not after" is transitive. */
  ghost predicate Transitive<T(!new)>(cmp: (T, T) -> int) {
    forall a, b, c :: cmp(a, b) <= 0 && cmp(b, c) <= 0 ==> cmp(a, c) <= 0
  }

  /** "Not after" is transitive among the elements of `s`. */
  ghost predicate TransitiveOn<T(!new)>(s: seq<T>, cmp: (T, T) -> int) {
    forall a, b, c :: a in s && b in s && c in s && cmp(a, b) <= 0 && cmp(b, c) <= 0 ==> cmp(a, c) <= 0
  }

  /** Each element is not after its successor. */
  ghost predicate AdjacentSorted<T>(s: seq<T>, cmp: (T, T) -> int) {
    forall i :: 0 < i < |s| ==> cmp(s[i - 1], s[i]) <= 0
  }

  /** No element is after a later one. */
  ghost predicate Sorted<T>(s: seq<T>, cmp: (T, T) -> int) {
    forall i, j :: 0 <= i < j < |s| ==> cmp(s[i], s[j]) <= 0
  }

  /** Every element comes strictly before each later one. */
  ghost predicate StrictlySorted<T>(s: seq<T>, cmp: (T, T) -> int) {
    forall i, j :: 0 <= i < j < |s| ==> cmp(s[i], s[j]) < 0
  }

  /** Where the comparator is transitive, ordered neighbours make an ordered sequence. */
  lemma {:induction false} AdjacentSortedIsSorted<T(!new)>(s: seq<T>, cmp: (T, T) -> int)
    requires TransitiveOn(s, cmp)
    requires AdjacentSorted(s, cmp)
    ensures Sorted(s, cmp)
  {
    forall i, j | 0 <= i < j < |s| ensures cmp(s[i], s[j]) <= 0 {
      var k := i + 1;
      while k < j
        invariant i < k <= j
        invariant cmp(s[i], s[k]) <= 0
      {
        k := k + 1;
      }
    }
  }

  /**
   * `x` appended to `s` and moved left past the trailing elements that sort
   * strictly after it: one pass of the insertion sort that grows a sorted
   * prefix from the left.
   */
  function SinkInto<T>(s: seq<T>, x: T, cmp: (T, T) -> int): seq<T> {
    if s == [] || cmp(s[|s| - 1], x) <= 0 then s + [x]
    else SinkInto(s[..|s| - 1], x, cmp) + [s[|s| - 1]]
  }

  /** Insertion sort by sinking each element, left to right, into the sorted prefix. */
  function SinkSort<T>(s: seq<T>, cmp: (T, T) -> int): seq<T> {
    if s == [] then []
    else SinkInto(SinkSort(s[..|s| - 1], cmp), s[|s| - 1], cmp)
  }

  /** A pass adds exactly `x`, and ends with `x` or with the last element of `s`. */
  lemma {:induction false} SinkIntoShape<T>(s: seq<T>, x: T, cmp: (T, T) -> int)
    ensures var r := SinkInto(s, x, cmp);
      |r| == |s| + 1 && multiset(r) == multiset(s) + multiset{x}
      && (r[|r| - 1] == x || (s != [] && r[|r| - 1] == s[|s| - 1]))
  {
    if s != [] && cmp(s[|s| - 1], x) > 0 {
      SinkIntoShape(s[..|s| - 1], x, cmp);
      assert s == s[..|s| - 1] + [s[|s| - 1]];
    }
  }

  /** The sort rearranges its input. */
  lemma {:induction false} SinkSortPermutation<T>(s: seq<T>, cmp: (T, T) -> int)
    ensures |SinkSort(s, cmp)| == |s|
    ensures multiset(SinkSort(s, cmp)) == multiset(s)
  {
    if s != [] {
      SinkSortPermutation(s[..|s| - 1], cmp);
      SinkIntoShape(SinkSort(s[..|s| - 1], cmp), s[|s| - 1], cmp);
      assert s == s[..|s| - 1] + [s[|s| - 1]];
    }
  }

  /** Under a total preorder the sort is a rearrangement ordered throughout. */
  lemma {:induction false} SinkSortSorted<T(!new)>(s: seq<T>, cmp: (T, T) -> int)
    requires Antisymmetric(cmp) && Transitive(cmp)
    ensures |SinkSort(s, cmp)| == |s|
    ensures multiset(SinkSort(s, cmp)) == multiset(s)
    ensures Sorted(SinkSort(s, cmp), cmp)
  {
    SinkSortPermutation(s, cmp);
    SinkSortAdjacentSorted(s, cmp);
    AdjacentSortedIsSorted(SinkSort(s, cmp), cmp);
  }

  lemma {:induction false} SinkIntoSorted<T(!new)>(s: seq<T>, x: T, cmp: (T, T) -> int)
    requires Antisymmetric(cmp)
    requires AdjacentSorted(s, cmp)
    ensures AdjacentSorted(SinkInto(s, x, cmp), cmp)
  {
    if s != [] && cmp(s[|s| - 1], x) > 0 {
      var p := s[..|s| - 1];
      SinkIntoSorted(p, x, cmp);
      var q := SinkInto(p, x, cmp);
      SinkIntoShape(p, x, cmp);
      assert cmp(x, s[|s| - 1]) < 0;
      assert q[|q| - 1] == x || cmp(p[|p| - 1], s[|s| - 1]) <= 0;
    }
  }

  /** Under an antisymmetric comparator the sort orders every pair of neighbours. */
  lemma {:induction false} SinkSortAdjacentSorted<T(!new)>(s: seq<T>, cmp: (T, T) -> int)
    requires Antisymmetric(cmp)
    ensures AdjacentSorted(SinkSort(s, cmp), cmp)
  {
    if s != [] {
      SinkSortAdjacentSorted(s[..|s| - 1], cmp);
      SinkIntoSorted(SinkSort(s[..|s| - 1], cmp), s[|s| - 1], cmp);
    }
  }

  /** Sorting a sequence whose neighbours are already in order changes nothing. */
  lemma {:induction false} SinkSortOfSorted<T>(s: seq<T>, cmp: (T, T) -> int)
    requires AdjacentSorted(s, cmp)
    ensures SinkSort(s, cmp) == s
  {
    if s != [] {
      var p, last := s[..|s| - 1], s[|s| - 1];
      AdjacentSortedInit(s, cmp);
      SinkSortOfSorted(p, cmp);
      assert SinkSort(s, cmp) == SinkInto(p, last, cmp);
      assert p == [] || cmp(p[|p| - 1], last) <= 0;
      assert SinkInto(p, last, cmp) == p + [last];
      assert p + [last] == s;
    }
  }

  lemma {:induction false} AdjacentSortedInit<T>(s: seq<T>, cmp: (T, T) -> int)
    requires s != [] && AdjacentSorted(s, cmp)
    ensures AdjacentSorted(s[..|s| - 1], cmp)
  {
    var p := s[..|s| - 1];
    forall i | 0 < i < |p| ensures cmp(p[i - 1], p[i]) <= 0 {
      assert p[i - 1] == s[i - 1] && p[i] == s[i];
    }
  }

  /** Sinking `x` moves it past no element of `p` when all of them tie with it or sort before it. */
  lemma {:induction false} SinkIntoFilter<T(!new)>(s: seq<T>, x: T, p: T -> bool, cmp: (T, T) -> int)
    requires forall e :: e in s && p(e) && p(x) ==> cmp(e, x) <= 0
    ensures Filter(SinkInto(s, x, cmp), p) == Filter(s, p) + (if p(x) then [x] else [])
  {
    if s == [] || cmp(s[|s| - 1], x) <= 0 {
      FilterAppend(s, x, p);
    } else {
      var init, last := s[..|s| - 1], s[|s| - 1];
      assert s == init + [last];
      SinkIntoFilter(init, x, p, cmp);
      FilterAppend(SinkInto(init, x, cmp), last, p);
      FilterAppend(init, last, p);
      assert !(p(x) && p(last));
    }
  }

  /**
   * The sort is stable: among elements that mutually tie (each not after
   * the other), the input order is kept.
   */
  lemma {:induction false} SinkSortStable<T(!new)>(s: seq<T>, p: T -> bool, cmp: (T, T) -> int)
    requires forall a, b :: a in s && b in s && p(a) && p(b) ==> cmp(a, b) <= 0
    ensures Filter(SinkSort(s, cmp), p) == Filter(s, p)
  {
    if s != [] {
      var init, last := s[..|s| - 1], s[|s| - 1];
      assert s == init + [last];
      SinkSortStable(init, p, cmp);
      var sorted := SinkSort(init, cmp);
      SinkSortPermutation(init, cmp);
      forall e | e in sorted && p(e) && p(last) ensures cmp(e, last) <= 0 {
        assert e in multiset(init);
      }
      SinkIntoFilter(sorted, last, p, cmp);
      FilterAppend(init, last, p);
    }
  }

  /** A sequence is free of repeats exactly when no element has multiplicity above one. */
  lemma {:induction false} DistinctByMultiset<T>(s: seq<T>)
    ensures Distinct(s) <==> forall x :: multiset(s)[x] <= 1
  {
    if s != [] {
      DistinctByMultiset(s[1..]);
      assert s == [s[0]] + s[1..];
      if Distinct(s) {
        assert Distinct(s[1..]) by {
          forall i, j | 0 <= i < j < |s[1..]| ensures s[1..][i] != s[1..][j] {
            assert s[1..][i] == s[i + 1] && s[1..][j] == s[j + 1];
          }
        }
      }
      if forall x :: multiset(s)[x] <= 1 {
        forall x ensures multiset(s[1..])[x] <= 1 {
          assert multiset(s)[x] == multiset{s[0]}[x] + multiset(s[1..])[x];
        }
        assert multiset(s)[s[0]] == 1 + multiset(s[1..])[s[0]];
        forall i, j | 0 <= i < j < |s| ensures s[i] != s[j] {
          if i == 0 {
            assert s[j] in s[1..];
          } else {
            assert s[i] == s[1..][i - 1] && s[j] == s[1..][j - 1];
          }
        }
      }
    }
  }

  /** Rearranging a repeat-free sequence leaves it repeat-free. */
  lemma {:induction false} DistinctPermutation<T>(a: seq<T>, b: seq<T>)
    requires multiset(a) == multiset(b)
    requires Distinct(a)
    ensures Distinct(b)
  {
    DistinctByMultiset(a);
    DistinctByMultiset(b);
  }

  /** Deleting elements from a repeat-free sequence leaves it repeat-free. */
  lemma {:induction false} DistinctSubsequence<T>(a: seq<T>, b: seq<T>)
    requires IsSubsequence(a, b)
    requires Distinct(b)
    ensures Distinct(a)
  {
    SubsequenceMultiset(a, b);
    DistinctByMultiset(a);
    DistinctByMultiset(b);
  }

  /** The head of a strictly sorted sequence comes before each other element. */
  lemma {:induction false} FirstIsLeast<T>(a: seq<T>, cmp: (T, T) -> int, x: T)
    requires StrictlySorted(a, cmp)
    requires x in a
    ensures x == a[0] || cmp(a[0], x) < 0
  {
    var k :| 0 <= k < |a| && a[k] == x;
    assert k == 0 || cmp(a[0], a[k]) < 0;
  }

  lemma {:induction false} StrictlySortedTail<T>(a: seq<T>, cmp: (T, T) -> int)
    requires a != [] && StrictlySorted(a, cmp)
    ensures StrictlySorted(a[1..], cmp)
  {
    forall i, j | 0 <= i < j < |a[1..]| ensures cmp(a[1..][i], a[1..][j]) < 0 {
      assert a[1..][i] == a[i + 1] && a[1..][j] == a[j + 1];
    }
  }

  /** Two rearrangements of each other with the same head have rearranged tails. */
  lemma {:induction false} MultisetTails<T>(a: seq<T>, b: seq<T>)
    requires a != [] && b != [] && a[0] == b[0]
    requires multiset(a) == multiset(b)
    ensures multiset(a[1..]) == multiset(b[1..])
  {
    assert a == [a[0]] + a[1..] && b == [b[0]] + b[1..];
    assert multiset(a) == multiset{a[0]} + multiset(a[1..]);
    assert multiset(b) == multiset{a[0]} + multiset(b[1..]);
    forall x ensures multiset(a[1..])[x] == multiset(b[1..])[x] {
      assert multiset(a)[x] == multiset(b)[x];
    }
  }

  /**
   * A strict order leaves a collection exactly one arrangement: any two
   * strictly sorted rearrangements of each other are equal. So every correct
   * sorting algorithm gives the same result as `SinkSort` on such input.
   */
  lemma {:induction false} StrictlySortedUnique<T(!new)>(a: seq<T>, b: seq<T>, cmp: (T, T) -> int)
    requires Antisymmetric(cmp)
    requires multiset(a) == multiset(b)
    requires StrictlySorted(a, cmp) && StrictlySorted(b, cmp)
    ensures a == b
  {
    if a != [] {
      SameHead(a, b, cmp);
      MultisetTails(a, b);
      StrictlySortedTail(a, cmp);
      StrictlySortedTail(b, cmp);
      StrictlySortedUnique(a[1..], b[1..], cmp);
      assert a == [a[0]] + a[1..] && b == [b[0]] + b[1..];
    } else {
      assert |multiset(b)| == |b|;
    }
  }

  /** Two strictly sorted rearrangements of each other start alike. */
  lemma {:induction false} SameHead<T(!new)>(a: seq<T>, b: seq<T>, cmp: (T, T) -> int)
    requires Antisymmetric(cmp)
    requires multiset(a) == multiset(b)
    requires StrictlySorted(a, cmp) && StrictlySorted(b, cmp)
    requires a != []
    ensures b != [] && a[0] == b[0]
  {
    assert a[0] in multiset(b);
    assert b != [];
    assert b[0] in multiset(a);
    FirstIsLeast(a, cmp, b[0]);
    FirstIsLeast(b, cmp, a[0]);
    assert cmp(a[0], b[0]) > 0 <==> cmp(b[0], a[0]) < 0;
  }
}
