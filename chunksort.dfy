/**
 * The body of FilesMerger.SortChunkAsync: read the lines of a chunk, drop
 * the empty ones, parse the rest, sort them with CustomSorter and write
 * them back re-serialised.
 */
module ChunkSort {
  import opened Wrappers
  import opened Records
  import opened Comparer

  // ---------------------------------------------------------------------------
  // The pipeline
  // ---------------------------------------------------------------------------

  /** lines.Where(x => !string.IsNullOrEmpty(x)) */
  function NonEmpty(lines: seq<string>): seq<string>
  {
    if lines == [] then []
    else (if lines[0] == [] then [] else [lines[0]]) + NonEmpty(lines[1..])
  }

  /**
   * .Select(x => new SortingItem(x)).ToArray(): the lines are parsed in order
   * and the first line that does not parse throws.
   */
  function ParseAll(lines: seq<string>): Result<seq<SortingItem>, ParseError>
  {
    if lines == [] then Ok([])
    else match Parse(lines[0])
      case Err(e) => Err(e)
      case Ok(item) =>
        match ParseAll(lines[1..])
        case Err(e) => Err(e)
        case Ok(items) => Ok([item] + items)
  }

  /** Insert `x` in front of the first element it is at most; the step of the insertion sort below. */
  function Insert(x: SortingItem, items: seq<SortingItem>): (r: seq<SortingItem>)
    ensures multiset(r) == multiset(items) + multiset{x}
    ensures Sorted(items) ==> Sorted(r)
  {
    if items == [] then [x]
    else if Le(x, items[0]) then
      InsertAtFrontSorted(x, items);
      [x] + items
    else
      var rest := Insert(x, items[1..]);
      assert items == [items[0]] + items[1..];
      InsertAfterHeadSorted(x, items, rest);
      [items[0]] + rest
  }

  lemma InsertAtFrontSorted(x: SortingItem, items: seq<SortingItem>)
    requires items != [] && Le(x, items[0])
    ensures Sorted(items) ==> Sorted([x] + items)
  {
    if Sorted(items) {
      forall j | 0 <= j < |items| ensures Le(x, items[j]) {
        if j > 0 { CompareTransitive(x, items[0], items[j]); }
      }
      InsertKeepsSorted(items, 0, x);
      assert items[..0] + [x] + items[0..] == [x] + items;
    }
  }

  lemma InsertAfterHeadSorted(x: SortingItem, items: seq<SortingItem>, rest: seq<SortingItem>)
    requires items != [] && !Le(x, items[0])
    requires multiset(rest) == multiset(items[1..]) + multiset{x}
    requires Sorted(items[1..]) ==> Sorted(rest)
    ensures Sorted(items) ==> Sorted([items[0]] + rest)
  {
    if Sorted(items) {
      LeTotal(x, items[0]);
      var r := [items[0]] + rest;
      forall i, j | 0 <= i < j < |r| ensures Le(r[i], r[j]) {
        if i == 0 {
          var y := rest[j - 1];
          assert y in multiset(rest);
          if y != x {
            assert y in multiset(items[1..]);
            var m :| 0 <= m < |items[1..]| && items[1..][m] == y;
            assert items[m + 1] == y;
          }
        } else {
          assert r[i] == rest[i - 1] && r[j] == rest[j - 1];
        }
      }
    }
  }

  /** Array.Sort(buffer, _customSorter), as an insertion sort (see SortedPermutationUnique for why the algorithm does not matter). */
  function SortItems(items: seq<SortingItem>): (r: seq<SortingItem>)
    ensures Sorted(r)
    ensures multiset(r) == multiset(items)
  {
    if items == [] then []
    else
      assert items == [items[0]] + items[1..];
      Insert(items[0], SortItems(items[1..]))
  }

  /** buffer.Select(x => x.Number + ". " + x.Text) */
  function SerializeAll(items: seq<SortingItem>): (lines: seq<string>)
    ensures |lines| == |items|
  {
    if items == [] then [] else [Serialize(items[0])] + SerializeAll(items[1..])
  }

  /** The whole task body: the new content of the chunk file, or the exception it throws. */
  function SortChunk(lines: seq<string>): Result<seq<string>, ParseError>
  {
    match ParseAll(NonEmpty(lines))
    case Err(e) => Err(e)
    case Ok(items) => Ok(SerializeAll(SortItems(items)))
  }

  // ---------------------------------------------------------------------------
  // What a sorted chunk file is
  // ---------------------------------------------------------------------------

  /** Every line of the file is a record and the records are in CustomSorter order. */
  ghost predicate SortedLines(lines: seq<string>)
  {
    ParseAll(lines).Ok? && Sorted(ParseAll(lines).value)
  }

  /** Every line is the serialisation of its own record, as the sort and the merge write them. */
  ghost predicate Canonical(lines: seq<string>)
  {
    ParseAll(lines).Ok? && SerializeAll(ParseAll(lines).value) == lines
  }

  predicate AllAtReader(items: seq<SortingItem>, readerIndex: nat)
  {
    forall k :: 0 <= k < |items| ==> items[k].readerIndex == readerIndex
  }

  predicate TextsWithoutSeparator(items: seq<SortingItem>)
  {
    forall k :: 0 <= k < |items| ==> !ContainsSeparator(items[k].text)
  }

  // ---------------------------------------------------------------------------
  // Lemmas
  // ---------------------------------------------------------------------------

  /** The filter keeps exactly the non-empty lines, in order. */
  lemma {:induction false} NonEmptyKeepsNonEmpty(lines: seq<string>)
    ensures forall k :: 0 <= k < |NonEmpty(lines)| ==> NonEmpty(lines)[k] != []
    ensures forall l :: l != [] ==> multiset(NonEmpty(lines))[l] == multiset(lines)[l]
    ensures multiset(NonEmpty(lines))[[]] == 0
  {
    if lines != [] {
      NonEmptyKeepsNonEmpty(lines[1..]);
      assert lines == [lines[0]] + lines[1..];
    }
  }

  /** Without empty lines the filter changes nothing. */
  lemma {:induction false} NonEmptyIdentity(lines: seq<string>)
    requires forall k :: 0 <= k < |lines| ==> lines[k] != []
    ensures NonEmpty(lines) == lines
  {
    if lines != [] {
      NonEmptyIdentity(lines[1..]);
      assert lines == [lines[0]] + lines[1..];
    }
  }

  /** Parsing succeeds exactly when every line parses, and then yields the parsed lines in order. */
  lemma {:induction false} ParseAllOkIff(lines: seq<string>)
    ensures ParseAll(lines).Ok? <==> forall k :: 0 <= k < |lines| ==> Parse(lines[k]).Ok?
    ensures ParseAll(lines).Ok? ==>
              && |ParseAll(lines).value| == |lines|
              && forall k :: 0 <= k < |lines| ==> ParseAll(lines).value[k] == Parse(lines[k]).value
  {
    if lines != [] {
      ParseAllOkIff(lines[1..]);
      if ParseAll(lines).Ok? {
        forall k | 0 <= k < |lines| ensures ParseAll(lines).value[k] == Parse(lines[k]).value {
          if k > 0 { assert lines[1..][k - 1] == lines[k]; }
        }
      } else if Parse(lines[0]).Ok? {
        var k :| 0 <= k < |lines[1..]| && !Parse(lines[1..][k]).Ok?;
        assert lines[k + 1] == lines[1..][k];
      }
    }
  }

  /** On failure, the reported error is that of the first line that does not parse. */
  lemma {:induction false} ParseAllFirstError(lines: seq<string>)
    requires ParseAll(lines).Err?
    ensures exists k :: && 0 <= k < |lines|
                        && Parse(lines[k]) == Err(ParseAll(lines).error)
                        && forall j :: 0 <= j < k ==> Parse(lines[j]).Ok?
  {
    if Parse(lines[0]).Err? {
      assert Parse(lines[0]) == Err(ParseAll(lines).error);
    } else {
      ParseAllFirstError(lines[1..]);
      var k :| 0 <= k < |lines[1..]| && Parse(lines[1..][k]) == Err(ParseAll(lines[1..]).error)
        && forall j :: 0 <= j < k ==> Parse(lines[1..][j]).Ok?;
      assert Parse(lines[k + 1]) == Err(ParseAll(lines).error);
      assert forall j :: 1 <= j < k + 1 ==> lines[j] == lines[1..][j - 1];
    }
  }

  /** The one-argument constructor stores reader 0, and parsed texts have no separator. */
  lemma {:induction false} ParseAllShape(lines: seq<string>)
    requires ParseAll(lines).Ok?
    ensures AllAtReader(ParseAll(lines).value, 0)
    ensures TextsWithoutSeparator(ParseAll(lines).value)
  {
    if lines != [] {
      ParsedTextHasNoSeparator(lines[0], 0);
      ParseAllShape(lines[1..]);
    }
  }

  /** Serialised records are never empty lines. */
  lemma {:induction false} SerializeAllNonEmpty(items: seq<SortingItem>)
    ensures forall k :: 0 <= k < |items| ==> SerializeAll(items)[k] != []
  {
    if items != [] {
      SerializeAllNonEmpty(items[1..]);
      assert |Serialize(items[0])| >= 2;
    }
  }

  /** Round trip over a whole file: the written lines parse back to the records at reader 0. */
  lemma {:induction false} ParseAllSerializeAll(items: seq<SortingItem>)
    requires AllAtReader(items, 0) && TextsWithoutSeparator(items)
    ensures ParseAll(SerializeAll(items)) == Ok(items)
  {
    if items != [] {
      ParseSerialize(items[0], 0);
      assert items[0].(readerIndex := 0) == items[0];
      ParseAllSerializeAll(items[1..]);
      assert SerializeAll(items)[1..] == SerializeAll(items[1..]);
      assert [items[0]] + items[1..] == items;
    }
  }

  /** Serialising commutes with inserting. */
  lemma {:induction false} SerializeAllInsert(x: SortingItem, items: seq<SortingItem>)
    ensures multiset(SerializeAll(Insert(x, items))) == multiset(SerializeAll(items)) + multiset{Serialize(x)}
  {
    if items != [] && !Le(x, items[0]) {
      SerializeAllInsert(x, items[1..]);
    }
  }

  /** Sorting before serialising only permutes the written lines. */
  lemma {:induction false} SerializeAllSortItems(items: seq<SortingItem>)
    ensures multiset(SerializeAll(SortItems(items))) == multiset(SerializeAll(items))
  {
    if items != [] {
      SerializeAllSortItems(items[1..]);
      SerializeAllInsert(items[0], SortItems(items[1..]));
    }
  }

  lemma {:induction false} SortItemsKeepsShape(items: seq<SortingItem>)
    requires AllAtReader(items, 0) && TextsWithoutSeparator(items)
    ensures AllAtReader(SortItems(items), 0) && TextsWithoutSeparator(SortItems(items))
  {
    var r := SortItems(items);
    forall k | 0 <= k < |r| ensures r[k].readerIndex == 0 && !ContainsSeparator(r[k].text) {
      assert r[k] in multiset(items);
    }
  }

  /** An already sorted sequence is left as it is. */
  lemma {:induction false} SortItemsOfSorted(items: seq<SortingItem>)
    requires Sorted(items)
    ensures SortItems(items) == items
  {
    if items != [] {
      SortItemsOfSorted(items[1..]);
      assert items == [items[0]] + items[1..];
    }
  }

  /** The first element of a sorted sequence is at most every element. */
  lemma SortedHead(items: seq<SortingItem>, i: nat)
    requires Sorted(items) && i < |items|
    ensures Le(items[0], items[i])
  {
    if i == 0 { CompareZeroIff(items[0], items[0]); }
  }

  /** Dropping the first element of a sequence changes its multiset by that element alone. */
  lemma MultisetTail<T>(s: seq<T>)
    requires s != []
    ensures multiset(s[1..]) == multiset(s) - multiset{s[0]}
  {
    assert s == [s[0]] + s[1..];
  }

  /** The element of `b` equal to the first of `a`, and conversely. */
  lemma CrossWitnesses<T>(a: seq<T>, b: seq<T>) returns (i: nat, j: nat)
    requires a != [] && multiset(a) == multiset(b)
    ensures i < |b| && b[i] == a[0]
    ensures j < |a| && a[j] == b[0]
  {
    assert a[0] in multiset(b);
    i :| 0 <= i < |b| && b[i] == a[0];
    assert |b| == |multiset(b)|;
    assert b[0] in multiset(a);
    j :| 0 <= j < |a| && a[j] == b[0];
  }

  /**
   * Records that compare equal and sit at the same reader are identical, so
   * there is only one sorted permutation: any correct sort, stable or not,
   * gives what SortItems gives.
   */
  lemma {:induction false} SortedPermutationUnique(a: seq<SortingItem>, b: seq<SortingItem>, readerIndex: nat)
    requires Sorted(a) && Sorted(b) && multiset(a) == multiset(b)
    requires AllAtReader(a, readerIndex) && AllAtReader(b, readerIndex)
    ensures a == b
  {
    if a != [] {
      var i, j := CrossWitnesses(a, b);
      SortedHead(b, i);
      SortedHead(a, j);
      LeBothWays(a[0], b[0]);
      assert a[0] == b[0];
      MultisetTail(a);
      MultisetTail(b);
      SortedPermutationUnique(a[1..], b[1..], readerIndex);
      assert a == [a[0]] + a[1..] && b == [b[0]] + b[1..];
    }
  }

  lemma {:induction false} ParseAllAppend(lines: seq<string>, line: string)
    requires ParseAll(lines).Ok? && Parse(line).Ok?
    ensures ParseAll(lines + [line]) == Ok(ParseAll(lines).value + [Parse(line).value])
  {
    if lines != [] {
      assert (lines + [line])[0] == lines[0];
      assert (lines + [line])[1..] == lines[1..] + [line];
      ParseAllAppend(lines[1..], line);
      var item, rest := Parse(lines[0]).value, ParseAll(lines[1..]).value;
      assert ParseAll(lines).value == [item] + rest;
      var l2 := lines + [line];
      assert l2 != [] && l2[0] == lines[0] && l2[1..] == lines[1..] + [line];
      assert ParseAll(l2) == Ok([item] + (rest + [Parse(line).value]));
      assert [item] + (rest + [Parse(line).value]) == ([item] + rest) + [Parse(line).value];
    } else {
      assert lines + [line] == [line];
      assert [line][1..] == [];
      assert ParseAll([line]) == Ok([Parse(line).value] + []);
      assert [Parse(line).value] + [] == [Parse(line).value];
      assert ParseAll(lines).value + [Parse(line).value] == [Parse(line).value];
    }
  }

  lemma {:induction false} SerializeAllAppend(items: seq<SortingItem>, x: SortingItem)
    ensures SerializeAll(items + [x]) == SerializeAll(items) + [Serialize(x)]
  {
    if items != [] {
      assert (items + [x])[1..] == items[1..] + [x];
      SerializeAllAppend(items[1..], x);
    } else {
      assert items + [x] == [x];
    }
  }

  /** The first line of a sorted file holds the least record. */
  lemma SortedLinesHead(a: seq<string>, i: nat)
    requires SortedLines(a) && i < |a|
    ensures Parse(a[0]).Ok? && Parse(a[i]).Ok?
    ensures Le(Parse(a[0]).value, Parse(a[i]).value)
  {
    ParseAllOkIff(a);
    SortedHead(ParseAll(a).value, i);
  }

  /** A sorted canonical file stays so without its first line, which is its record's serialisation. */
  lemma SortedLinesTail(a: seq<string>)
    requires SortedLines(a) && Canonical(a) && a != []
    ensures SortedLines(a[1..]) && Canonical(a[1..])
    ensures Parse(a[0]).Ok? && a[0] == Serialize(Parse(a[0]).value)
  {
    var A := ParseAll(a).value;
    assert ParseAll(a[1..]) == Ok(A[1..]);
    assert SerializeAll(A)[1..] == SerializeAll(A[1..]);
  }

  /**
   * A sorted file written by the sort or the merge is determined by the
   * multiset of its lines: two of them with the same lines are equal.
   */
  lemma {:induction false} SortedLinesUnique(a: seq<string>, b: seq<string>)
    requires SortedLines(a) && SortedLines(b) && Canonical(a) && Canonical(b)
    requires multiset(a) == multiset(b)
    ensures a == b
  {
    if a != [] {
      var i, j := CrossWitnesses(a, b);
      SortedLinesHead(b, i);
      SortedLinesHead(a, j);
      LeBothWays(Parse(a[0]).value, Parse(b[0]).value);
      SortedLinesTail(a);
      SortedLinesTail(b);
      assert a[0] == b[0];
      MultisetTail(a);
      MultisetTail(b);
      SortedLinesUnique(a[1..], b[1..]);
      assert a == [a[0]] + a[1..] && b == [b[0]] + b[1..];
    }
  }

  /** SortChunk fails exactly when a non-empty line does not parse, with the first such line's error. */
  lemma SortChunkOkIff(lines: seq<string>)
    ensures SortChunk(lines).Ok? <==> forall k :: 0 <= k < |lines| && lines[k] != [] ==> Parse(lines[k]).Ok?
    ensures SortChunk(lines).Err? ==> exists k :: 0 <= k < |lines| && lines[k] != [] && Parse(lines[k]) == Err(SortChunk(lines).error)
  {
    var ne := NonEmpty(lines);
    ParseAllOkIff(ne);
    NonEmptyKeepsNonEmpty(lines);
    if SortChunk(lines).Ok? {
      forall k | 0 <= k < |lines| && lines[k] != [] ensures Parse(lines[k]).Ok? {
        assert multiset(ne)[lines[k]] == multiset(lines)[lines[k]] > 0;
        assert lines[k] in ne;
      }
    } else {
      ParseAllFirstError(ne);
      var k :| 0 <= k < |ne| && Parse(ne[k]) == Err(SortChunk(lines).error);
      assert multiset(lines)[ne[k]] == multiset(ne)[ne[k]] > 0;
      assert ne[k] in lines;
    }
  }

  /**
   * A successful chunk sort writes the non-empty lines, parsed and
   * re-serialised, as a permutation, in a file whose records are sorted.
   */
  lemma SortChunkSorted(lines: seq<string>)
    requires SortChunk(lines).Ok?
    ensures SortedLines(SortChunk(lines).value) && Canonical(SortChunk(lines).value)
    ensures multiset(ParseAll(SortChunk(lines).value).value) == multiset(ParseAll(NonEmpty(lines)).value)
    ensures multiset(SortChunk(lines).value) == multiset(SerializeAll(ParseAll(NonEmpty(lines)).value))
  {
    var items := ParseAll(NonEmpty(lines)).value;
    ParseAllShape(NonEmpty(lines));
    SortItemsKeepsShape(items);
    ParseAllSerializeAll(SortItems(items));
    SerializeAllSortItems(items);
  }

  /** Sorting a sorted chunk again writes the same lines. */
  lemma SortChunkIdempotent(lines: seq<string>)
    requires SortChunk(lines).Ok?
    ensures SortChunk(SortChunk(lines).value) == SortChunk(lines)
  {
    var items := SortItems(ParseAll(NonEmpty(lines)).value);
    var out := SerializeAll(items);
    ParseAllShape(NonEmpty(lines));
    SortItemsKeepsShape(ParseAll(NonEmpty(lines)).value);
    SerializeAllNonEmpty(items);
    NonEmptyIdentity(out);
    ParseAllSerializeAll(items);
    SortItemsOfSorted(items);
  }
}
