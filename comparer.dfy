/**
 * CustomSorter.Compare of FileSorter/CustomSorter.cs: records are ordered by
 * their text (ordinal comparison), then by their number. The reader index is
 * never consulted.
 */
module Comparer {
  import opened Records

  /**
   * string.Compare(x, y, StringComparison.Ordinal), reduced to its sign:
   * character codes compared left to right, a proper prefix comes first.
   */
  function CompareOrdinal(x: string, y: string): (c: int)
    ensures -1 <= c <= 1
  {
    if x == [] && y == [] then 0
    else if x == [] then -1
    else if y == [] then 1
    else if x[0] < y[0] then -1
    else if x[0] > y[0] then 1
    else CompareOrdinal(x[1..], y[1..])
  }

  /** Int32.CompareTo. */
  function CompareNumbers(a: int32, b: int32): (c: int)
    ensures c == 0 <==> a == b
    ensures c < 0 <==> a < b
  {
    if a < b then -1 else if a > b then 1 else 0
  }

  /** CustomSorter.Compare: the text decides unless the texts are equal. */
  function Compare(x: SortingItem, y: SortingItem): (c: int)
  {
    var textComparison := CompareOrdinal(x.text, y.text);
    if textComparison != 0 then textComparison else CompareNumbers(x.number, y.number)
  }

  /** `Compare(x, y) <= 0`: x may stand before y in sorted output. */
  predicate Le(x: SortingItem, y: SortingItem)
  {
    Compare(x, y) <= 0
  }

  /** Sorted non-decreasingly by Compare. */
  predicate Sorted(items: seq<SortingItem>)
  {
    forall i, j :: 0 <= i < j < |items| ==> Le(items[i], items[j])
  }

  /**
   * An independent statement of ordinal order: x is a proper prefix of y, or
   * at the first position where they differ x has the smaller character.
   */
  predicate OrdinalLess(x: string, y: string)
  {
    (|x| < |y| && x == y[..|x|])
    || exists k :: 0 <= k < |x| && k < |y| && x[..k] == y[..k] && x[k] < y[k]
  }

  // ---------------------------------------------------------------------------
  // Ordinal comparison
  // ---------------------------------------------------------------------------

  lemma {:induction false} CompareOrdinalZeroIff(x: string, y: string)
    ensures CompareOrdinal(x, y) == 0 <==> x == y
    decreases |x|
  {
    if x != [] && y != [] && x[0] == y[0] {
      CompareOrdinalZeroIff(x[1..], y[1..]);
      assert x == [x[0]] + x[1..] && y == [y[0]] + y[1..];
    }
  }

  lemma {:induction false} CompareOrdinalAntisymmetric(x: string, y: string)
    ensures CompareOrdinal(x, y) == -CompareOrdinal(y, x)
    decreases |x|
  {
    if x != [] && y != [] && x[0] == y[0] {
      CompareOrdinalAntisymmetric(x[1..], y[1..]);
    }
  }

  lemma {:induction false} CompareOrdinalTransitive(x: string, y: string, z: string)
    requires CompareOrdinal(x, y) <= 0 && CompareOrdinal(y, z) <= 0
    ensures CompareOrdinal(x, z) <= 0
    decreases |x|
  {
    if x != [] && y != [] && z != [] && x[0] == y[0] == z[0] {
      CompareOrdinalTransitive(x[1..], y[1..], z[1..]);
    }
  }

  /** The recursive comparison agrees with the first-difference definition of ordinal order. */
  lemma {:induction false} CompareOrdinalLessIff(x: string, y: string)
    ensures CompareOrdinal(x, y) < 0 <==> OrdinalLess(x, y)
    decreases |x|
  {
    if x == [] {
      if y != [] { assert x == y[..0]; }
    } else if y == [] {
    } else if x[0] < y[0] {
      assert x[..0] == y[..0];
    } else if x[0] > y[0] {
      assert forall k :: 0 < k <= |x| && k <= |y| && x[..k] == y[..k] ==> x[0] == y[0] by {
        forall k | 0 < k <= |x| && k <= |y| && x[..k] == y[..k] ensures x[0] == y[0] {
          assert x[..k][0] == y[..k][0];
        }
      }
    } else {
      CompareOrdinalLessIff(x[1..], y[1..]);
      var x', y' := x[1..], y[1..];
      if OrdinalLess(x', y') {
        if |x'| < |y'| && x' == y'[..|x'|] {
          assert x == [x[0]] + x' && y[..|x|] == [y[0]] + y'[..|x'|];
        } else {
          var k :| 0 <= k < |x'| && k < |y'| && x'[..k] == y'[..k] && x'[k] < y'[k];
          assert x[..k + 1] == [x[0]] + x'[..k] && y[..k + 1] == [y[0]] + y'[..k];
          assert x[k + 1] < y[k + 1];
        }
      }
      if OrdinalLess(x, y) {
        if |x| < |y| && x == y[..|x|] {
          assert x' == y'[..|x'|];
        } else {
          var k :| 0 <= k < |x| && k < |y| && x[..k] == y[..k] && x[k] < y[k];
          assert k > 0;
          assert x'[..k - 1] == x[..k][1..] && y'[..k - 1] == y[..k][1..];
          assert x'[k - 1] < y'[k - 1];
        }
      }
    }
  }

  // ---------------------------------------------------------------------------
  // CustomSorter.Compare
  // ---------------------------------------------------------------------------

  /** Different texts: the sign of the ordinal comparison; the numbers are ignored. */
  lemma CompareWhenTextsDiffer(x: SortingItem, y: SortingItem)
    requires x.text != y.text
    ensures Compare(x, y) == CompareOrdinal(x.text, y.text) != 0
  {
    CompareOrdinalZeroIff(x.text, y.text);
  }

  /** Equal texts: the comparison of the numbers. */
  lemma CompareWhenTextsEqual(x: SortingItem, y: SortingItem)
    requires x.text == y.text
    ensures Compare(x, y) == CompareNumbers(x.number, y.number)
  {
    CompareOrdinalZeroIff(x.text, y.text);
  }

  /** Zero exactly for equal texts and equal numbers; the reader index is never looked at. */
  lemma CompareZeroIff(x: SortingItem, y: SortingItem)
    ensures Compare(x, y) == 0 <==> x.text == y.text && x.number == y.number
  {
    CompareOrdinalZeroIff(x.text, y.text);
  }

  lemma CompareIgnoresReaderIndex(x: SortingItem, y: SortingItem, i: nat, j: nat)
    ensures Compare(x.(readerIndex := i), y.(readerIndex := j)) == Compare(x, y)
  {
  }

  lemma CompareAntisymmetric(x: SortingItem, y: SortingItem)
    ensures Compare(x, y) == -Compare(y, x)
  {
    CompareOrdinalAntisymmetric(x.text, y.text);
  }

  /** Both ways at most zero: same text and same number. */
  lemma LeBothWays(x: SortingItem, y: SortingItem)
    requires Le(x, y) && Le(y, x)
    ensures x.text == y.text && x.number == y.number
  {
    CompareAntisymmetric(x, y);
    CompareZeroIff(x, y);
  }

  /** Every two records are comparable. */
  lemma LeTotal(x: SortingItem, y: SortingItem)
    ensures Le(x, y) || Le(y, x)
  {
    CompareAntisymmetric(x, y);
  }

  lemma CompareTransitive(x: SortingItem, y: SortingItem, z: SortingItem)
    requires Compare(x, y) <= 0 && Compare(y, z) <= 0
    ensures Compare(x, z) <= 0
  {
    var a, b := CompareOrdinal(x.text, y.text), CompareOrdinal(y.text, z.text);
    CompareOrdinalZeroIff(x.text, y.text);
    CompareOrdinalZeroIff(y.text, z.text);
    CompareOrdinalZeroIff(x.text, z.text);
    CompareOrdinalTransitive(x.text, y.text, z.text);
    if a < 0 && CompareOrdinal(x.text, z.text) == 0 {
      CompareOrdinalAntisymmetric(y.text, z.text);
    }
  }

  /** Something at most `y`, with `y` strictly below `v`, is strictly below `v`. */
  lemma CompareStrictAfterLe(x: SortingItem, y: SortingItem, v: SortingItem)
    requires Compare(x, y) <= 0 && Compare(y, v) < 0
    ensures Compare(x, v) < 0
  {
    CompareTransitive(x, y, v);
    CompareZeroIff(x, v);
    if Compare(x, v) == 0 {
      CompareIgnoresReaderIndex(y, v, 0, 0);
      CompareIgnoresReaderIndex(y, x, 0, 0);
      CompareAntisymmetric(x, y);
    }
  }

  /** Something at least `y`, with `y` strictly above `v`, is strictly above `v`. */
  lemma CompareStrictBeforeLe(y: SortingItem, x: SortingItem, v: SortingItem)
    requires Compare(y, x) <= 0 && Compare(y, v) > 0
    ensures Compare(x, v) > 0
  {
    CompareAntisymmetric(y, v);
    CompareAntisymmetric(x, v);
    CompareTransitive(v, y, x);
    CompareZeroIff(v, x);
    if Compare(x, v) == 0 {
      CompareAntisymmetric(y, x);
    }
  }

  /** Inserting `x` where everything before is at most it and everything after at least it keeps order. */
  lemma InsertKeepsSorted(items: seq<SortingItem>, idx: nat, x: SortingItem)
    requires idx <= |items| && Sorted(items)
    requires forall j :: 0 <= j < idx ==> Le(items[j], x)
    requires forall j :: idx <= j < |items| ==> Le(x, items[j])
    ensures Sorted(items[..idx] + [x] + items[idx..])
  {
    var r := items[..idx] + [x] + items[idx..];
    forall i, j | 0 <= i < j < |r| ensures Le(r[i], r[j]) {
      if j < idx || i > idx {
      } else if i == idx {
        assert r[j] == items[j - 1];
      } else if j == idx {
      } else {
        assert r[j] == items[j - 1];
      }
    }
  }
}
