/**
 * The record codec of FileSorter/SortingItem.cs: a line `<int>. <text>` is split
 * on every occurrence of ". ", the first piece goes through int.Parse and the
 * second becomes the text. Serialisation is `Number + ". " + Text`.
 */
module Records {
  import opened Wrappers

  const MinInt32: int := -0x8000_0000
  const MaxInt32: int := 0x7fff_ffff

  /** C#'s `int`. */
  type int32 = x: int | -0x8000_0000 <= x <= 0x7fff_ffff

  // ---------------------------------------------------------------------------
  // Decimal digits: the part of int.Parse and Int32.ToString the program uses
  // ---------------------------------------------------------------------------

  predicate IsDigit(c: char) { '0' <= c <= '9' }

  predicate AllDigits(s: string) { forall i :: 0 <= i < |s| ==> IsDigit(s[i]) }

  function DigitChar(d: nat): (c: char)
    requires d < 10
    ensures IsDigit(c)
  {
    (('0' as int) + d) as char
  }

  /** Value of a run of digits, most significant digit first; the empty run is worth 0. */
  function DigitsValue(s: string): nat
    requires AllDigits(s)
    decreases |s|
  {
    if s == [] then 0
    else DigitsValue(s[..|s| - 1]) * 10 + ((s[|s| - 1] as int) - ('0' as int))
  }

  /** Decimal representation of a natural number, without leading zeros. */
  function NatToString(n: nat): (s: string)
    ensures |s| > 0 && AllDigits(s)
    ensures n > 0 ==> s[0] != '0'
    decreases n
  {
    if n < 10 then [DigitChar(n)] else NatToString(n / 10) + [DigitChar(n % 10)]
  }

  lemma {:induction false} NatToStringRoundTrip(n: nat)
    ensures DigitsValue(NatToString(n)) == n
    decreases n
  {
    if n >= 10 {
      var s := NatToString(n);
      assert s[..|s| - 1] == NatToString(n / 10);
      NatToStringRoundTrip(n / 10);
    }
  }

  /** Different numbers get different names: the chunk counters rely on it. */
  lemma NatToStringInjective(m: nat, n: nat)
    ensures NatToString(m) == NatToString(n) ==> m == n
  {
    NatToStringRoundTrip(m);
    NatToStringRoundTrip(n);
  }

  /** Int32.ToString(): an optional '-' and ASCII digits (culture-specific signs and digits are not modelled). */
  function Int32ToString(n: int32): string
  {
    if n < 0 then "-" + NatToString(-(n as int)) else NatToString(n)
  }

  /** Why int.Parse throws: FormatException or OverflowException. */
  datatype NumberError = FormatError | OverflowError

  /**
   * int.Parse with NumberStyles.Integer, reduced to an optional leading sign
   * followed by at least one ASCII digit. A well-formed number outside the
   * 32-bit range overflows.
   */
  function ParseInt32(s: string): Result<int32, NumberError>
  {
    var signed := |s| > 0 && (s[0] == '-' || s[0] == '+');
    var digits := if signed then s[1..] else s;
    if digits == [] || !AllDigits(digits) then Err(FormatError)
    else
      var v: int := if signed && s[0] == '-' then -(DigitsValue(digits) as int) else DigitsValue(digits);
      if MinInt32 <= v <= MaxInt32 then Ok(v) else Err(OverflowError)
  }

  lemma Int32RoundTrip(n: int32)
    ensures ParseInt32(Int32ToString(n)) == Ok(n)
  {
    if n < 0 {
      NegativeRoundTrip(n);
    } else {
      NatToStringRoundTrip(n);
    }
  }

  /** A negative number's text: the '-' is read as the sign, the digits give its magnitude. */
  lemma NegativeRoundTrip(n: int32)
    requires n < 0
    ensures ParseInt32("-" + NatToString(-(n as int))) == Ok(n)
  {
    var s := "-" + NatToString(-(n as int));
    assert s[1..] == NatToString(-(n as int));
    NatToStringRoundTrip(-(n as int));
  }

  /** An integer's text never contains a '.', so it never contains the separator. */
  lemma Int32ToStringHasNoDot(n: int32)
    ensures forall i :: 0 <= i < |Int32ToString(n)| ==> Int32ToString(n)[i] != '.'
  {
  }

  // ---------------------------------------------------------------------------
  // string.Split(". ")
  // ---------------------------------------------------------------------------

  /** True when `s` contains the two-character separator ". ". */
  predicate ContainsSeparator(s: string)
  {
    exists i :: 0 <= i < |s| - 1 && s[i] == '.' && s[i + 1] == ' '
  }

  /**
   * `s.Split(". ")`: the pieces between the non-overlapping occurrences of
   * the separator found scanning left to right; every occurrence splits.
   */
  function Split(s: string): (parts: seq<string>)
    ensures |parts| >= 1
    decreases |s|
  {
    if |s| >= 2 && s[0] == '.' && s[1] == ' ' then [""] + Split(s[2..])
    else if s == [] then [""]
    else
      var rest := Split(s[1..]);
      [[s[0]] + rest[0]] + rest[1..]
  }

  /** string.Join(". ", parts): the inverse of Split. */
  function Join(parts: seq<string>): string
    requires |parts| >= 1
  {
    if |parts| == 1 then parts[0] else parts[0] + ". " + Join(parts[1..])
  }

  lemma {:induction false} SplitJoin(s: string)
    ensures Join(Split(s)) == s
    decreases |s|
  {
    if |s| >= 2 && s[0] == '.' && s[1] == ' ' {
      SplitJoin(s[2..]);
      assert Split(s)[1..] == Split(s[2..]);
    } else if s != [] {
      var rest := Split(s[1..]);
      SplitJoin(s[1..]);
      if |rest| > 1 {
        assert Split(s)[1..] == rest[1..];
      }
    }
  }

  /** The first piece is a prefix of the line. */
  lemma SplitFirstIsPrefix(s: string)
    ensures |Split(s)[0]| <= |s| && Split(s)[0] == s[..|Split(s)[0]|]
  {
    SplitJoin(s);
    var parts := Split(s);
    if |parts| > 1 {
      assert s == parts[0] + (". " + Join(parts[1..]));
    }
  }

  /** No piece of a split contains the separator. */
  lemma {:induction false} SplitPiecesHaveNoSeparator(s: string)
    ensures forall k :: 0 <= k < |Split(s)| ==> !ContainsSeparator(Split(s)[k])
    decreases |s|
  {
    if |s| >= 2 && s[0] == '.' && s[1] == ' ' {
      SplitPiecesHaveNoSeparator(s[2..]);
      assert Split(s)[1..] == Split(s[2..]);
    } else if s != [] {
      var rest := Split(s[1..]);
      SplitPiecesHaveNoSeparator(s[1..]);
      SplitFirstIsPrefix(s[1..]);
      var first := [s[0]] + rest[0];
      if ContainsSeparator(first) {
        var i :| 0 <= i < |first| - 1 && first[i] == '.' && first[i + 1] == ' ';
        if i == 0 {
          assert s[1] == rest[0][0];
        }
      }
      assert Split(s)[1..] == rest[1..];
    }
  }

  /** A string without the separator splits into itself alone. */
  lemma {:induction false} SplitWithoutSeparator(s: string)
    requires !ContainsSeparator(s)
    ensures Split(s) == [s]
    decreases |s|
  {
    if s != [] {
      assert !(s[0] == '.' && s[1..] != [] && s[1] == ' ');
      SplitWithoutSeparator(s[1..]);
      assert [s[0]] + s[1..] == s;
    }
  }

  /** A line splits into more than one piece exactly when it contains the separator. */
  lemma {:induction false} SplitCountIff(s: string)
    ensures |Split(s)| > 1 <==> ContainsSeparator(s)
    decreases |s|
  {
    if |s| >= 2 && s[0] == '.' && s[1] == ' ' {
      assert Split(s)[1..] == Split(s[2..]);
    } else if s != [] {
      SplitCountIff(s[1..]);
      if ContainsSeparator(s) {
        var i :| 0 <= i < |s| - 1 && s[i] == '.' && s[i + 1] == ' ';
        assert i > 0;
        assert s[1..][i - 1] == '.' && s[1..][i] == ' ';
      }
      if ContainsSeparator(s[1..]) {
        var i :| 0 <= i < |s[1..]| - 1 && s[1..][i] == '.' && s[1..][i + 1] == ' ';
        assert s[i + 1] == '.' && s[i + 2] == ' ';
      }
    }
  }

  /** Splitting `a + ". " + b`, with no separator in `a`, yields `a` and then the pieces of `b`. */
  lemma {:induction false} SplitAtFirstSeparator(a: string, b: string)
    requires !ContainsSeparator(a)
    ensures Split(a + ". " + b) == [a] + Split(b)
    decreases |a|
  {
    var s := a + ". " + b;
    if a == [] {
      assert s[2..] == b;
    } else {
      assert !(s[0] == '.' && s[1] == ' ') by {
        if |a| > 1 { assert s[1] == a[1]; } else { assert s[1] == '.'; }
      }
      assert s[1..] == a[1..] + ". " + b;
      SplitAtFirstSeparator(a[1..], b);
      assert s[0] == a[0] && [a[0]] + a[1..] == a;
    }
  }

  // ---------------------------------------------------------------------------
  // SortingItem
  // ---------------------------------------------------------------------------

  /** The readonly struct SortingItem: a parsed line and the reader it came from. */
  datatype SortingItem = SortingItem(number: int32, text: string, readerIndex: nat)

  /** What the constructor throws: int.Parse's exception, or IndexOutOfRange on `split[1]`. */
  datatype ParseError = BadNumber(cause: NumberError) | MissingText

  /**
   * The two-argument constructor `SortingItem(line, readerIndex)`. int.Parse
   * runs on the first piece before `split[1]` is read, so a bad number is
   * reported even when the separator is missing too.
   */
  function ParseAt(line: string, readerIndex: nat): (r: Result<SortingItem, ParseError>)
    ensures r.Ok? ==> r.value.readerIndex == readerIndex
  {
    var split := Split(line);
    match ParseInt32(split[0])
    case Err(e) => Err(BadNumber(e))
    case Ok(n) => if |split| < 2 then Err(MissingText) else Ok(SortingItem(n, split[1], readerIndex))
  }

  /** The one-argument constructor `SortingItem(line)`: reader index 0. */
  function Parse(line: string): Result<SortingItem, ParseError>
  {
    ParseAt(line, 0)
  }

  /** `x.Number + ". " + x.Text`, as written by the chunk sort and the merge. */
  function Serialize(item: SortingItem): string
  {
    Int32ToString(item.number) + ". " + item.text
  }

  /** The one-argument constructor is the two-argument one at reader 0; the index is stored unchanged. */
  lemma ParseAtOnlySetsReaderIndex(line: string, readerIndex: nat)
    ensures ParseAt(line, readerIndex).Ok? <==> Parse(line).Ok?
    ensures Parse(line).Ok? ==> ParseAt(line, readerIndex).value == Parse(line).value.(readerIndex := readerIndex)
    ensures Parse(line).Err? ==> ParseAt(line, readerIndex) == Parse(line)
  {
  }

  /** A line parses exactly when it contains the separator and its first piece is an int32. */
  lemma ParseOkIff(line: string, readerIndex: nat)
    ensures ParseAt(line, readerIndex).Ok? <==> ContainsSeparator(line) && ParseInt32(Split(line)[0]).Ok?
    ensures !ContainsSeparator(line) ==> ParseAt(line, readerIndex).Err?
  {
    SplitCountIff(line);
  }

  /**
   * The shape of a successful parse: for `a + ". " + t + ". " + rest` with no
   * separator in `a` or `t`, the number is int.Parse(a), the text is `t`, and
   * `rest` (everything after the second separator) is dropped.
   */
  lemma ParseDropsAfterSecondSeparator(a: string, t: string, rest: string, readerIndex: nat)
    requires !ContainsSeparator(a) && !ContainsSeparator(t)
    requires ParseInt32(a).Ok?
    ensures ParseAt(a + ". " + t + ". " + rest, readerIndex) == Ok(SortingItem(ParseInt32(a).value, t, readerIndex))
  {
    assert a + ". " + t + ". " + rest == a + ". " + (t + ". " + rest);
    SplitAtFirstSeparator(a, t + ". " + rest);
    SplitAtFirstSeparator(t, rest);
  }

  /** A line with one separator: `Number` is int.Parse of the piece before it, `Text` all that follows. */
  lemma ParseOneSeparator(a: string, t: string, readerIndex: nat)
    requires !ContainsSeparator(a) && !ContainsSeparator(t)
    requires ParseInt32(a).Ok?
    ensures ParseAt(a + ". " + t, readerIndex) == Ok(SortingItem(ParseInt32(a).value, t, readerIndex))
  {
    SplitAtFirstSeparator(a, t);
    SplitWithoutSeparator(t);
  }

  /** A parsed text never contains the separator. */
  lemma ParsedTextHasNoSeparator(line: string, readerIndex: nat)
    requires ParseAt(line, readerIndex).Ok?
    ensures !ContainsSeparator(ParseAt(line, readerIndex).value.text)
  {
    SplitPiecesHaveNoSeparator(line);
  }

  /** The empty line is not a record. */
  lemma EmptyLineFails(readerIndex: nat)
    ensures ParseAt("", readerIndex) == Err(BadNumber(FormatError))
  {
  }

  /** Round trip: re-parsing a serialised record gives back its number and text. */
  lemma ParseSerialize(item: SortingItem, readerIndex: nat)
    requires !ContainsSeparator(item.text)
    ensures ParseAt(Serialize(item), readerIndex) == Ok(item.(readerIndex := readerIndex))
  {
    var a := Int32ToString(item.number);
    assert !ContainsSeparator(a) by { Int32ToStringHasNoDot(item.number); }
    SplitAtFirstSeparator(a, item.text);
    SplitWithoutSeparator(item.text);
    Int32RoundTrip(item.number);
  }
}
