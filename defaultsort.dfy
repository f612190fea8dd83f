/**
 * `getMedian` as written: `values.sort()` with no comparator orders the numbers by
 * their string forms, so the element it picks from the middle is in general not a median.
 * The model keeps integer-valued inputs, whose string forms are plain decimal numerals.
 */
module DefaultSort {
  import opened Wrappers
  import Layout

  /** The decimal numeral of a digit. */
  function DigitChar(d: nat): char
    requires d < 10
  {
    (48 + d) as char
  }

  /** The decimal numeral of a natural number, without leading zeros. */
  function NatToString(n: nat): (s: string)
    ensures |s| >= 1
  {
    if n < 10 then [DigitChar(n)] else NatToString(n / 10) + [DigitChar(n % 10)]
  }

  /** `String(i)` for an integer: a minus sign before the numeral of a negative number. */
  function IntToString(i: int): string
  {
    if i < 0 then "-" + NatToString(-i) else NatToString(i)
  }

  /** JavaScript's string order: code unit by code unit, a prefix first. */
  predicate LexLe(a: string, b: string)
  {
    a == [] || (b != [] && (a[0] < b[0] || (a[0] == b[0] && LexLe(a[1..], b[1..]))))
  }

  /** Any two strings are comparable. */
  lemma {:induction false} LexLeTotal(a: string, b: string)
    ensures LexLe(a, b) || LexLe(b, a)
  {
    if a != [] && b != [] && a[0] == b[0] {
      LexLeTotal(a[1..], b[1..]);
    }
  }

  /** x goes before y in the default sort order. */
  predicate StringOrder(x: int, y: int)
  {
    LexLe(IntToString(x), IntToString(y))
  }

  /** Inserts x before the first element whose string form is not below x's. */
  function StringInsert(x: int, s: seq<int>): seq<int>
  {
    if s == [] || StringOrder(x, s[0]) then [x] + s else [s[0]] + StringInsert(x, s[1..])
  }

  /** `Array.prototype.sort` without a comparator, on integer values. */
  function StringSort(s: seq<int>): seq<int>
  {
    if s == [] then [] else StringInsert(s[0], StringSort(s[1..]))
  }

  /** Each element's string form is at most its successor's. */
  predicate StringAscending(s: seq<int>)
  {
    forall i :: 0 <= i < |s| - 1 ==> StringOrder(s[i], s[i + 1])
  }

  lemma {:induction false} StringInsertFacts(x: int, s: seq<int>)
    requires StringAscending(s)
    ensures multiset(StringInsert(x, s)) == multiset(s) + multiset{x}
    ensures StringAscending(StringInsert(x, s))
    ensures StringInsert(x, s)[0] == x || (s != [] && StringInsert(x, s)[0] == s[0])
  {
    if s != [] && !StringOrder(x, s[0]) {
      var t := s[1..];
      assert StringAscending(t);
      StringInsertFacts(x, t);
      LexLeTotal(IntToString(x), IntToString(s[0]));
      assert s == [s[0]] + t;
    }
  }

  /** The default sort is a permutation, ordered by string form. */
  lemma {:induction false} StringSortFacts(s: seq<int>)
    ensures multiset(StringSort(s)) == multiset(s)
    ensures StringAscending(StringSort(s))
  {
    if s != [] {
      StringSortFacts(s[1..]);
      StringInsertFacts(s[0], StringSort(s[1..]));
      assert s == [s[0]] + s[1..];
    }
  }

  /** `getMedian` as written: the middle element after the default sort. */
  function MedianAsWritten(values: seq<int>): (r: Option<int>)
    ensures r.None? <==> values == []
    ensures r.Some? ==> r.value in values
  {
    if values == [] then None
    else
      StringSortFacts(values);
      assert StringSort(values)[|values| / 2] in multiset(StringSort(values));
      Some(StringSort(values)[|values| / 2])
  }

  lemma SortTenNineOne()
    ensures StringSort([10, 9, 1]) == [1, 10, 9]
  {
    assert IntToString(10) == "10";
    assert IntToString(9) == "9";
    assert IntToString(1) == "1";
    assert StringSort([1]) == [1];
    assert StringInsert(9, [1]) == [1, 9];
    assert StringSort([9, 1]) == [1, 9];
    assert StringInsert(10, [9]) == [10, 9];
    assert StringInsert(10, [1, 9]) == [1, 10, 9];
  }

  lemma NumericMedianTenNineOne()
    ensures Layout.Median([10.0, 9.0, 1.0]) == Some(9.0)
  {
    var s := [10.0, 9.0, 1.0];
    var m := Layout.Median(s).value;
    assert Layout.CountBelow(s, 10.0) == 2;
    assert Layout.CountAbove(s, 1.0) == 2;
    assert m == 10.0 || m == 9.0 || m == 1.0;
  }

  /**
   * For the values 10, 9 and 1 the default sort yields 1, 10, 9, and the as-written median
   * is 10, which has two of the three values below it; the numeric median is 9.
   */
  lemma MedianAsWrittenCounterexample()
    ensures MedianAsWritten([10, 9, 1]) == Some(10)
    ensures Layout.CountBelow([10.0, 9.0, 1.0], 10.0) > 3 / 2
    ensures Layout.Median([10.0, 9.0, 1.0]) == Some(9.0)
  {
    SortTenNineOne();
    NumericMedianTenNineOne();
    assert Layout.CountBelow([10.0, 9.0, 1.0], 10.0) == 2;
  }
}
