/**
 * The string primitives the explorer relies on, written out over
 * `seq<char>`: ASCII lower-casing (`toLowerCase`), the whitespace class of
 * a JavaScript regular expression (`\s`, also used by `trim`), `trim`,
 * `split(/\s+/)`, `replace(/\s/g, '')`, `includes`, `String(n)` and
 * `Number(s)` on integers, and code-point lexicographic comparison
 * (standing for both the default `sort()` order and `localeCompare`).
 */
module Text {

  /** The characters matched by `\s` and removed by `trim` in JavaScript. */
  predicate IsWs(c: char) {
    || ('\U{0009}' <= c <= '\U{000D}')
    || c == ' ' || c == '\U{00A0}' || c == '\U{1680}'
    || ('\U{2000}' <= c <= '\U{200A}')
    || c == '\U{2028}' || c == '\U{2029}' || c == '\U{202F}' || c == '\U{205F}'
    || c == '\U{3000}' || c == '\U{FEFF}'
  }

  predicate IsUpper(c: char) { 'A' <= c <= 'Z' }

  predicate NoWs(s: string) { forall i :: 0 <= i < |s| ==> !IsWs(s[i]) }

  predicate NoUpper(s: string) { forall i :: 0 <= i < |s| ==> !IsUpper(s[i]) }

  function LowerChar(c: char): (r: char)
    ensures !IsUpper(r)
    ensures IsWs(r) <==> IsWs(c)
    ensures !IsUpper(c) ==> r == c
  {
    if IsUpper(c) then (c as int + 32) as char else c
  }

  /** `toLowerCase`, restricted to the ASCII letters. */
  function Lower(s: string): (r: string)
    ensures |r| == |s|
    ensures NoUpper(r)
    ensures forall i :: 0 <= i < |s| ==> r[i] == LowerChar(s[i])
  {
    seq(|s|, i requires 0 <= i < |s| => LowerChar(s[i]))
  }

  lemma {:induction false} LowerIdempotent(s: string)
    ensures Lower(Lower(s)) == Lower(s)
  {
  }

  /** `replace(/\s/g, '')`: every whitespace character removed. */
  function RemoveWs(s: string): (r: string)
    ensures NoWs(r)
    ensures |r| <= |s|
  {
    if s == [] then []
    else if IsWs(s[0]) then RemoveWs(s[1..])
    else [s[0]] + RemoveWs(s[1..])
  }

  lemma {:induction false} RemoveWsAppend(a: string, b: string)
    ensures RemoveWs(a + b) == RemoveWs(a) + RemoveWs(b)
  {
    if a != [] {
      assert (a + b)[0] == a[0] && (a + b)[1..] == a[1..] + b;
      RemoveWsAppend(a[1..], b);
    } else {
      assert a + b == b;
    }
  }

  lemma {:induction false} RemoveWsOfNoWs(s: string)
    requires NoWs(s)
    ensures RemoveWs(s) == s
  {
    if s != [] {
      RemoveWsOfNoWs(s[1..]);
    }
  }

  /** Removing whitespace twice removes nothing more. */
  lemma {:induction false} RemoveWsIdempotent(s: string)
    ensures RemoveWs(RemoveWs(s)) == RemoveWs(s)
  {
    RemoveWsOfNoWs(RemoveWs(s));
  }

  /** Lower-casing and whitespace removal commute. */
  lemma {:induction false} RemoveWsLower(s: string)
    ensures RemoveWs(Lower(s)) == Lower(RemoveWs(s))
  {
    if s != [] {
      assert Lower(s)[1..] == Lower(s[1..]);
      RemoveWsLower(s[1..]);
    }
  }

  /** Drops the leading whitespace run (`trimStart`). */
  function TrimStart(s: string): (r: string)
    ensures |r| <= |s|
    ensures s != [] && IsWs(s[0]) ==> |r| < |s|
  {
    if s != [] && IsWs(s[0]) then TrimStart(s[1..]) else s
  }

  /** Drops the trailing whitespace run (`trimEnd`). */
  function TrimEnd(s: string): (r: string)
    ensures |r| <= |s|
  {
    if s != [] && IsWs(s[|s| - 1]) then TrimEnd(s[..|s| - 1]) else s
  }

  /** `trim`. */
  function Trim(s: string): string {
    TrimStart(TrimEnd(s))
  }

  /** `trimStart` removes a prefix, and what remains does not start with whitespace. */
  lemma {:induction false} TrimStartIsSuffix(s: string)
    ensures TrimStart(s) == s[|s| - |TrimStart(s)|..]
    ensures TrimStart(s) == [] || !IsWs(TrimStart(s)[0])
  {
    if s != [] && IsWs(s[0]) {
      TrimStartIsSuffix(s[1..]);
    }
  }

  /** `trimEnd` removes a suffix, and what remains does not end with whitespace. */
  lemma {:induction false} TrimEndIsPrefix(s: string)
    ensures TrimEnd(s) == s[..|TrimEnd(s)|]
    ensures TrimEnd(s) == [] || !IsWs(TrimEnd(s)[|TrimEnd(s)| - 1])
  {
    if s != [] && IsWs(s[|s| - 1]) {
      TrimEndIsPrefix(s[..|s| - 1]);
    }
  }

  /** `trim` keeps a contiguous slice of the input with no whitespace at either end. */
  lemma {:induction false} TrimIsSlice(s: string) returns (i: nat, j: nat)
    ensures i <= j <= |s| && Trim(s) == s[i..j]
    ensures Trim(s) == [] || (!IsWs(Trim(s)[0]) && !IsWs(Trim(s)[|Trim(s)| - 1]))
  {
    var e := TrimEnd(s);
    TrimEndIsPrefix(s);
    TrimStartIsSuffix(e);
    i, j := |e| - |Trim(s)|, |e|;
    if Trim(s) != [] {
      assert Trim(s)[|Trim(s)| - 1] == e[|e| - 1];
    }
  }

  lemma {:induction false} RemoveWsTrimStart(s: string)
    ensures RemoveWs(TrimStart(s)) == RemoveWs(s)
  {
    if s != [] && IsWs(s[0]) {
      RemoveWsTrimStart(s[1..]);
    }
  }

  lemma {:induction false} RemoveWsTrimEnd(s: string)
    ensures RemoveWs(TrimEnd(s)) == RemoveWs(s)
  {
    if s != [] && IsWs(s[|s| - 1]) {
      var p := s[..|s| - 1];
      assert s == p + [s[|s| - 1]];
      RemoveWsAppend(p, [s[|s| - 1]]);
      RemoveWsTrimEnd(p);
    }
  }

  /** Trimming only removes whitespace. */
  lemma {:induction false} RemoveWsTrim(s: string)
    ensures RemoveWs(Trim(s)) == RemoveWs(s)
  {
    RemoveWsTrimEnd(s);
    RemoveWsTrimStart(TrimEnd(s));
  }

  /**
   * `split(/\s+/)`: the pieces between maximal whitespace runs. A leading
   * or trailing run yields an empty first or last piece, and the empty
   * string yields one empty piece, as in JavaScript.
   */
  function Split(s: string): (r: seq<string>)
    ensures |r| > 0
  {
    SplitFrom(s, "")
  }

  /** Splitting the rest of `s` when the current piece so far is `cur`. */
  function SplitFrom(s: string, cur: string): (r: seq<string>)
    ensures |r| > 0
    decreases |s|
  {
    if s == [] then [cur]
    else if IsWs(s[0]) then [cur] + SplitFrom(TrimStart(s), "")
    else SplitFrom(s[1..], cur + [s[0]])
  }

  /** Concatenation of a list of strings. */
  function Concat(xs: seq<string>): string {
    if xs == [] then [] else xs[0] + Concat(xs[1..])
  }

  /** The list without its empty strings (`filter(t => t !== "")`). */
  function NonEmpty(xs: seq<string>): (r: seq<string>)
    ensures forall t :: t in r ==> t in xs && t != []
    ensures forall t :: t in xs && t != [] ==> t in r
  {
    if xs == [] then []
    else if xs[0] == [] then NonEmpty(xs[1..])
    else [xs[0]] + NonEmpty(xs[1..])
  }

  lemma {:induction false} ConcatNonEmpty(xs: seq<string>)
    ensures Concat(NonEmpty(xs)) == Concat(xs)
  {
    if xs != [] {
      ConcatNonEmpty(xs[1..]);
    }
  }

  lemma {:induction false} ConcatEmpty(xs: seq<string>)
    requires forall t :: t in xs ==> t != []
    ensures Concat(xs) == [] <==> xs == []
  {
    if xs != [] {
      assert xs[0] in xs;
    }
  }

  /** The pieces of a split put back together are the input without whitespace. */
  lemma {:induction false} ConcatSplitFrom(s: string, cur: string)
    ensures Concat(SplitFrom(s, cur)) == cur + RemoveWs(s)
    decreases |s|
  {
    if s == [] {
    } else if IsWs(s[0]) {
      ConcatSplitFrom(TrimStart(s), "");
      RemoveWsTrimStart(s);
    } else {
      ConcatSplitFrom(s[1..], cur + [s[0]]);
    }
  }

  /** Every piece of a split is free of whitespace, and of upper case when the input is. */
  lemma {:induction false} SplitFromPieces(s: string, cur: string)
    requires NoWs(cur)
    ensures forall p :: p in SplitFrom(s, cur) ==> NoWs(p)
    ensures NoUpper(s) && NoUpper(cur) ==> forall p :: p in SplitFrom(s, cur) ==> NoUpper(p)
    decreases |s|
  {
    if s == [] {
    } else if IsWs(s[0]) {
      var t := TrimStart(s);
      TrimStartIsSuffix(s);
      SplitFromPieces(t, "");
      if NoUpper(s) {
        assert NoUpper(t) by {
          forall i | 0 <= i < |t| ensures !IsUpper(t[i]) {
            assert t[i] == s[|s| - |t| + i];
          }
        }
      }
    } else {
      SplitFromPieces(s[1..], cur + [s[0]]);
    }
  }

  /**
   * The words of `s`: its maximal runs of non-whitespace characters, in
   * order. This is the reference meaning of "trim, split on whitespace runs,
   * drop empty pieces".
   */
  function Words(s: string): seq<string> {
    WordsFrom(s, "")
  }

  /** The words of `s` when the word being read so far is `cur`. */
  function WordsFrom(s: string, cur: string): seq<string>
    decreases |s|
  {
    if s == [] then (if cur == [] then [] else [cur])
    else if IsWs(s[0]) then (if cur == [] then [] else [cur]) + WordsFrom(s[1..], "")
    else WordsFrom(s[1..], cur + [s[0]])
  }

  lemma {:induction false} NonEmptyAppend(xs: seq<string>, ys: seq<string>)
    ensures NonEmpty(xs + ys) == NonEmpty(xs) + NonEmpty(ys)
  {
    if xs != [] {
      assert (xs + ys)[1..] == xs[1..] + ys;
      NonEmptyAppend(xs[1..], ys);
    } else {
      assert xs + ys == ys;
    }
  }

  /** Leading whitespace does not start a word. */
  lemma {:induction false} WordsTrimStart(s: string)
    ensures WordsFrom(TrimStart(s), "") == WordsFrom(s, "")
  {
    if s != [] && IsWs(s[0]) {
      WordsTrimStart(s[1..]);
    }
  }

  /** A whitespace-free string is one word. */
  lemma {:induction false} WordsOfWord(w: string, cur: string)
    requires NoWs(w)
    ensures WordsFrom(w, cur) == if cur + w == [] then [] else [cur + w]
    decreases |w|
  {
    if w != [] {
      assert cur + w == (cur + [w[0]]) + w[1..];
      WordsOfWord(w[1..], cur + [w[0]]);
    } else {
      assert cur + w == cur;
    }
  }

  /** A whitespace character ends the current word: the words on either side of it are read separately. */
  lemma {:induction false} WordsAtWs(a: string, c: char, b: string, cur: string)
    requires IsWs(c)
    ensures WordsFrom(a + [c] + b, cur) == WordsFrom(a, cur) + WordsFrom(b, "")
    decreases |a|
  {
    var s := a + [c] + b;
    if a == [] {
      assert s == [c] + b && s[1..] == b;
    } else {
      assert s[0] == a[0] && s[1..] == a[1..] + [c] + b;
      WordsAtWs(a[1..], c, b, if IsWs(a[0]) then "" else cur + [a[0]]);
    }
  }

  /** Trailing whitespace does not end in a word. */
  lemma {:induction false} WordsTrimEnd(s: string, cur: string)
    ensures WordsFrom(TrimEnd(s), cur) == WordsFrom(s, cur)
    decreases |s|
  {
    if s != [] && IsWs(s[|s| - 1]) {
      var p := s[..|s| - 1];
      assert s == p + [s[|s| - 1]] + [];
      WordsAtWs(p, s[|s| - 1], [], cur);
      WordsTrimEnd(p, cur);
    }
  }

  /** Splitting on whitespace runs and dropping the empty pieces reads the words. */
  lemma {:induction false} SplitFromWords(s: string, cur: string)
    ensures NonEmpty(SplitFrom(s, cur)) == WordsFrom(s, cur)
    decreases |s|
  {
    if s == [] {
    } else if IsWs(s[0]) {
      NonEmptyAppend([cur], SplitFrom(TrimStart(s), ""));
      SplitFromWords(TrimStart(s), "");
      WordsTrimStart(s[1..]);
      assert TrimStart(s) == TrimStart(s[1..]);
    } else {
      SplitFromWords(s[1..], cur + [s[0]]);
    }
  }

  /** `s.trim().split(/\s+/)` without its empty pieces is exactly the words of `s`. */
  lemma {:induction false} TrimSplitWords(s: string)
    ensures NonEmpty(Split(Trim(s))) == Words(s)
  {
    SplitFromWords(Trim(s), "");
    WordsTrimStart(TrimEnd(s));
    WordsTrimEnd(s, "");
  }

  /** `haystack.includes(needle)`: `needle` occurs as a contiguous substring. */
  predicate Contains(haystack: string, needle: string)
    decreases |haystack|
  {
    needle <= haystack || (haystack != [] && Contains(haystack[1..], needle))
  }

  /** `needle` starts at offset `i` of `haystack`. */
  predicate OccursAt(haystack: string, needle: string, i: int) {
    0 <= i && i + |needle| <= |haystack| && haystack[i..i + |needle|] == needle
  }

  /** `Contains` agrees with the existence of an offset where `needle` starts. */
  lemma {:induction false} ContainsAt(haystack: string, needle: string)
    ensures Contains(haystack, needle) <==> exists i :: OccursAt(haystack, needle, i)
    decreases |haystack|
  {
    if haystack != [] {
      ContainsAt(haystack[1..], needle);
      if exists i :: OccursAt(haystack, needle, i) {
        var i :| OccursAt(haystack, needle, i);
        if i > 0 {
          assert haystack[1..][i - 1..i - 1 + |needle|] == needle;
          assert OccursAt(haystack[1..], needle, i - 1);
        } else {
          assert needle <= haystack;
        }
      }
      if Contains(haystack[1..], needle) {
        var i :| OccursAt(haystack[1..], needle, i);
        assert haystack[i + 1..i + 1 + |needle|] == needle;
        assert OccursAt(haystack, needle, i + 1);
      }
      if needle <= haystack {
        assert OccursAt(haystack, needle, 0);
      }
    } else if needle <= haystack {
      assert OccursAt(haystack, needle, 0);
    }
  }

  lemma {:induction false} ContainsEmpty(haystack: string)
    ensures Contains(haystack, "")
  {
  }

  lemma {:induction false} ContainsInEmpty(needle: string)
    requires needle != []
    ensures !Contains("", needle)
  {
  }

  // Integers as text: `String(n)` and `Number(s)`.

  function Digit(d: nat): (c: char)
    requires d < 10
    ensures '0' <= c <= '9'
  {
    ('0' as int + d) as char
  }

  predicate IsDigit(c: char) { '0' <= c <= '9' }

  predicate AllDigits(s: string) { forall i :: 0 <= i < |s| ==> IsDigit(s[i]) }

  function DigitValue(c: char): (d: nat)
    requires IsDigit(c)
    ensures d < 10
  {
    c as int - '0' as int
  }

  /** Decimal digits of a natural number, most significant first, no leading zero. */
  function NatToString(n: nat): (r: string)
    ensures |r| > 0 && AllDigits(r)
  {
    if n < 10 then [Digit(n)] else NatToString(n / 10) + [Digit(n % 10)]
  }

  /** `String(n)` for an integer `n`. */
  function IntToString(n: int): (r: string)
    ensures |r| > 0
  {
    if n < 0 then "-" + NatToString(-n) else NatToString(n)
  }

  function ParseNat(s: string): (n: nat)
    requires AllDigits(s)
  {
    if s == [] then 0 else ParseNat(s[..|s| - 1]) * 10 + DigitValue(s[|s| - 1])
  }

  /** An optional minus sign followed by at least one decimal digit. */
  predicate IsIntLiteral(s: string) {
    || (|s| > 0 && AllDigits(s))
    || (|s| > 1 && s[0] == '-' && AllDigits(s[1..]))
  }

  /**
   * `Number(s)` for the strings this model meets: an integer literal
   * denotes its value; every other string is taken as 0.
   */
  function NumberOf(s: string): (n: int) {
    if |s| > 0 && AllDigits(s) then ParseNat(s) as int
    else if IsIntLiteral(s) then -(ParseNat(s[1..]) as int)
    else 0
  }

  lemma {:induction false} ParseNatToString(n: nat)
    ensures ParseNat(NatToString(n)) == n
  {
    if n >= 10 {
      var s := NatToString(n);
      assert s[..|s| - 1] == NatToString(n / 10);
      ParseNatToString(n / 10);
    }
  }

  /** `Number(String(n)) === n` for every integer: the decimal form round-trips. */
  lemma {:induction false} NumberOfIntToString(n: int)
    ensures NumberOf(IntToString(n)) == n
  {
    var s := IntToString(n);
    if n < 0 {
      assert s[1..] == NatToString(-n);
      assert !IsDigit(s[0]);
      ParseNatToString(-n);
    } else {
      ParseNatToString(n);
    }
  }

  /** Distinct integers have distinct decimal forms. */
  lemma {:induction false} IntToStringInjective(a: int, b: int)
    requires IntToString(a) == IntToString(b)
    ensures a == b
  {
    NumberOfIntToString(a);
    NumberOfIntToString(b);
  }

  /**
   * Lexicographic comparison by code point: negative, zero or positive as
   * `a` sorts before, equal to, or after `b`; a proper prefix sorts first.
   */
  function LexCompare(a: string, b: string): (r: int)
    ensures -1 <= r <= 1
  {
    if a == [] && b == [] then 0
    else if a == [] then -1
    else if b == [] then 1
    else if a[0] < b[0] then -1
    else if a[0] > b[0] then 1
    else LexCompare(a[1..], b[1..])
  }

  lemma {:induction false} LexCompareAntisymmetric(a: string, b: string)
    ensures LexCompare(a, b) == -LexCompare(b, a)
  {
    if a != [] && b != [] && a[0] == b[0] {
      LexCompareAntisymmetric(a[1..], b[1..]);
    }
  }

  lemma {:induction false} LexCompareZero(a: string, b: string)
    ensures LexCompare(a, b) == 0 <==> a == b
  {
    if a != [] && b != [] && a[0] == b[0] {
      LexCompareZero(a[1..], b[1..]);
      if a[1..] == b[1..] {
        assert a == [a[0]] + a[1..] && b == [b[0]] + b[1..];
      }
    }
  }

  lemma {:induction false} LexCompareTransitive(a: string, b: string, c: string)
    requires LexCompare(a, b) <= 0 && LexCompare(b, c) <= 0
    ensures LexCompare(a, c) <= 0
  {
    if a != [] && b != [] && c != [] && a[0] == b[0] == c[0] {
      LexCompareTransitive(a[1..], b[1..], c[1..]);
    }
  }
}
