/**
 * The body of FilesMerger.MergeChunksAsync: a k-way merge over one reader
 * per chunk. The frontier `buffer` holds the last record read from every
 * reader that has not been written out yet, sorted by CustomSorter; the
 * merge writes its head and replaces it by the next record of the same
 * reader.
 */
module KWayMerge {
  import opened Wrappers
  import opened Records
  import opened Comparer
  import opened ChunkSort

  /**
   * What the merge task throws: `SortingItem(null)` on an empty chunk while
   * filling the buffer, or the parse error of a line that is not a record.
   */
  datatype MergeError = NullLine(reader: nat) | BadLine(reader: nat, cause: ParseError)

  // ---------------------------------------------------------------------------
  // Inserting into the sorted frontier
  // ---------------------------------------------------------------------------

  /** List.Insert(index, x). */
  function InsertAt(items: seq<SortingItem>, index: nat, x: SortingItem): (r: seq<SortingItem>)
    requires index <= |items|
    ensures |r| == |items| + 1
  {
    items[..index] + [x] + items[index..]
  }

  /** Inserting `x` at `index` keeps `items` sorted. */
  ghost predicate FitsAt(items: seq<SortingItem>, x: SortingItem, index: nat)
  {
    && index <= |items|
    && (forall j :: 0 <= j < index ==> Le(items[j], x))
    && (forall j :: index <= j < |items| ==> Le(x, items[j]))
  }

  /**
   * List.BinarySearch(item, comparer) over a sorted list: the index of an
   * element comparing equal, or the bitwise complement `-lo - 1` of the
   * position where the item would go.
   */
  method BinarySearch(items: seq<SortingItem>, value: SortingItem) returns (index: int)
    requires Sorted(items)
    ensures index < |items|
    ensures 0 <= index ==> Compare(items[index], value) == 0
    ensures index < 0 ==> -index - 1 <= |items|
    ensures index < 0 ==> forall j :: 0 <= j < -index - 1 ==> Compare(items[j], value) < 0
    ensures index < 0 ==> forall j :: -index - 1 <= j < |items| ==> Compare(items[j], value) > 0
  {
    var lo, hi := 0, |items| - 1;
    while lo <= hi
      invariant 0 <= lo <= hi + 1 <= |items|
      invariant forall j :: 0 <= j < lo ==> Compare(items[j], value) < 0
      invariant forall j :: hi < j < |items| ==> Compare(items[j], value) > 0
    {
      var i := lo + (hi - lo) / 2;
      var order := Compare(items[i], value);
      if order == 0 {
        return i;
      }
      if order < 0 {
        forall j | 0 <= j < i ensures Compare(items[j], value) < 0 {
          CompareStrictAfterLe(items[j], items[i], value);
        }
        lo := i + 1;
      } else {
        forall j | i < j < |items| ensures Compare(items[j], value) > 0 {
          CompareStrictBeforeLe(items[i], items[j], value);
        }
        hi := i - 1;
      }
    }
    return -lo - 1;
  }

  /**
   * Where the merge puts the next record of a reader: at the end of an
   * empty buffer, in front when it is at most the head, at the end when it
   * is at least the tail, and otherwise where the binary search says.
   */
  method Reinsert(buffer: seq<SortingItem>, newItem: SortingItem) returns (index: nat)
    requires Sorted(buffer)
    ensures FitsAt(buffer, newItem, index)
  {
    if |buffer| == 0 {
      index := 0;
    } else if Compare(newItem, buffer[0]) <= 0 {
      forall j | 0 <= j < |buffer| ensures Le(newItem, buffer[j]) {
        if j > 0 { CompareTransitive(newItem, buffer[0], buffer[j]); }
      }
      index := 0;
    } else if Compare(newItem, buffer[|buffer| - 1]) >= 0 {
      CompareAntisymmetric(newItem, buffer[|buffer| - 1]);
      forall j | 0 <= j < |buffer| ensures Le(buffer[j], newItem) {
        if j < |buffer| - 1 { CompareTransitive(buffer[j], buffer[|buffer| - 1], newItem); }
      }
      index := |buffer|;
    } else {
      var found := BinarySearch(buffer, newItem);
      if found < 0 {
        // index = ~index
        found := -found - 1;
        forall j | 0 <= j < |buffer| ensures if j < found then Le(buffer[j], newItem) else Le(newItem, buffer[j]) {
          CompareAntisymmetric(buffer[j], newItem);
        }
      } else {
        forall j | 0 <= j < |buffer| ensures if j < found then Le(buffer[j], newItem) else Le(newItem, buffer[j]) {
          CompareAntisymmetric(buffer[found], newItem);
          if j < found {
            CompareTransitive(buffer[j], buffer[found], newItem);
          } else if j > found {
            CompareTransitive(newItem, buffer[found], buffer[j]);
          }
        }
      }
      index := found;
    }
  }

  // ---------------------------------------------------------------------------
  // The state of the merge
  // ---------------------------------------------------------------------------

  /** Every input chunk is a sorted file. */
  ghost predicate AllSorted(inputs: seq<seq<string>>)
  {
    forall r {:trigger SortedLines(inputs[r])} :: 0 <= r < |inputs| ==> SortedLines(inputs[r])
  }

  /** The re-serialised records of a chunk, when all of it parses. */
  ghost function LinesBag(lines: seq<string>): multiset<string>
  {
    match ParseAll(lines)
    case Ok(items) => multiset(SerializeAll(items))
    case Err(_) => multiset{}
  }

  /** The sum of a sequence of multisets. */
  function SumBags(bags: seq<multiset<string>>): multiset<string>
  {
    if bags == [] then multiset{} else SumBags(bags[..|bags| - 1]) + bags[|bags| - 1]
  }

  /** What the merge of `inputs` should write, as a multiset of lines. */
  ghost function TotalBag(inputs: seq<seq<string>>): multiset<string>
  {
    SumBags(seq(|inputs|, r requires 0 <= r < |inputs| => LinesBag(inputs[r])))
  }

  /** The first |items| lines of reader r parsed, as `new SortingItem(line, r)`, to `items`. */
  ghost predicate ParsedAs(lines: seq<string>, r: nat, items: seq<SortingItem>)
  {
    |items| <= |lines| && forall k {:trigger ParseAt(lines[k], r)} :: 0 <= k < |items| ==> ParseAt(lines[k], r) == Ok(items[k])
  }

  /** Per reader, the serialisations of the records it returned. */
  function SeenBags(seen: seq<seq<SortingItem>>): (bags: seq<multiset<string>>)
    ensures |bags| == |seen|
  {
    seq(|seen|, r requires 0 <= r < |seen| => multiset(SerializeAll(seen[r])))
  }

  /** The serialisations of everything read from the readers. */
  function SeenBag(seen: seq<seq<SortingItem>>): multiset<string>
  {
    SumBags(SeenBags(seen))
  }

  /** How many lines the readers standing at `pos` have still to return. */
  function Remaining(inputs: seq<seq<string>>, pos: seq<nat>): nat
    requires |pos| <= |inputs|
  {
    if pos == [] then 0
    else
      var k := |pos| - 1;
      Remaining(inputs, pos[..k]) + (if pos[k] <= |inputs[k]| then |inputs[k]| - pos[k] else 0)
  }

  /**
   * Readers 0..n-1 stand at `pos`, each has returned at least its first
   * line, and `seen[r]` holds the records of the lines reader r returned.
   */
  ghost predicate Cursors(inputs: seq<seq<string>>, n: nat, pos: seq<nat>, seen: seq<seq<SortingItem>>)
  {
    && n <= |inputs| && |pos| == n && |seen| == n
    && (forall r :: 0 <= r < n ==> 1 <= pos[r] == |seen[r]| <= |inputs[r]|)
    && (forall r {:trigger ParsedAs(inputs[r], r, seen[r])} :: 0 <= r < n ==> ParsedAs(inputs[r], r, seen[r]))
  }

  /** `x` is the record of the line its reader returned last. */
  predicate LastRead(seen: seq<seq<SortingItem>>, x: SortingItem)
  {
    x.readerIndex < |seen| && seen[x.readerIndex] != [] && seen[x.readerIndex][|seen[x.readerIndex]| - 1] == x
  }

  /** Every record of the frontier is the last one its reader returned. */
  predicate ReadFrontier(seen: seq<seq<SortingItem>>, buffer: seq<SortingItem>)
  {
    forall x :: x in buffer ==> LastRead(seen, x) && !ContainsSeparator(x.text)
  }

  predicate DistinctReaders(buffer: seq<SortingItem>)
  {
    forall i, j :: 0 <= i < j < |buffer| ==> buffer[i].readerIndex != buffer[j].readerIndex
  }

  predicate HoldsReader(buffer: seq<SortingItem>, r: nat)
  {
    exists x :: x in buffer && x.readerIndex == r
  }

  /** Every reader with lines left has its record in the frontier. */
  predicate Represented(inputs: seq<seq<string>>, pos: seq<nat>, buffer: seq<SortingItem>)
  {
    forall r :: 0 <= r < |pos| && r < |inputs| && pos[r] < |inputs[r]| ==> HoldsReader(buffer, r)
  }

  /** The frontier on its own: sorted, one record per reader, each the last its reader returned. */
  predicate FrontierCore(seen: seq<seq<SortingItem>>, buffer: seq<SortingItem>)
  {
    Sorted(buffer) && ReadFrontier(seen, buffer) && DistinctReaders(buffer)
  }

  /**
   * The frontier and the readers: the readers stand at `pos`, and every
   * reader with lines left is represented in the frontier.
   */
  ghost predicate Frontier(inputs: seq<seq<string>>, n: nat, pos: seq<nat>, seen: seq<seq<SortingItem>>, buffer: seq<SortingItem>)
  {
    Cursors(inputs, n, pos, seen) && FrontierCore(seen, buffer) && Represented(inputs, pos, buffer)
  }

  /** `out + buffer` holds exactly the serialisations of what was read. */
  predicate Accounted(seen: seq<seq<SortingItem>>, buffer: seq<SortingItem>, out: seq<SortingItem>)
  {
    multiset(SerializeAll(out)) + multiset(SerializeAll(buffer)) == SeenBag(seen)
  }

  /** For sorted inputs: the output is sorted and at most the head of the frontier. */
  predicate InOrder(buffer: seq<SortingItem>, out: seq<SortingItem>, sorted: bool)
  {
    sorted ==> Sorted(out) && (out != [] && buffer != [] ==> Le(out[|out| - 1], buffer[0]))
  }

  /**
   * The records written so far, at reader 0: with the frontier, exactly the
   * records read; and, for sorted inputs, in order.
   */
  predicate Output(seen: seq<seq<SortingItem>>, buffer: seq<SortingItem>, out: seq<SortingItem>, sorted: bool)
  {
    && AllAtReader(out, 0) && TextsWithoutSeparator(out)
    && Accounted(seen, buffer, out)
    && InOrder(buffer, out, sorted)
  }

  ghost predicate MergeInv(inputs: seq<seq<string>>, n: nat, pos: seq<nat>, seen: seq<seq<SortingItem>>,
                           buffer: seq<SortingItem>, out: seq<SortingItem>, sorted: bool)
  {
    Frontier(inputs, n, pos, seen, buffer) && Output(seen, buffer, out, sorted)
  }

  // ---------------------------------------------------------------------------
  // Sums over the readers
  // ---------------------------------------------------------------------------

  /** Adding to one summand adds to the sum. */
  lemma {:induction false} SumBagsAdd(bags: seq<multiset<string>>, r: nat, m: multiset<string>)
    requires r < |bags|
    ensures SumBags(bags[r := bags[r] + m]) == SumBags(bags) + m
  {
    var bags' := bags[r := bags[r] + m];
    var n := |bags|;
    if r == n - 1 {
      assert bags'[..n - 1] == bags[..n - 1];
    } else {
      assert bags'[..n - 1] == bags[..n - 1][r := bags[r] + m];
      SumBagsAdd(bags[..n - 1], r, m);
    }
  }

  /** Reading `y` from reader r adds its serialisation to what has been read. */
  lemma SeenBagAdvance(seen: seq<seq<SortingItem>>, r: nat, y: SortingItem)
    requires r < |seen|
    ensures SeenBag(seen[r := seen[r] + [y]]) == SeenBag(seen) + multiset{Serialize(y)}
  {
    var bags := SeenBags(seen);
    SerializeAllAppend(seen[r], y);
    assert SeenBags(seen[r := seen[r] + [y]]) == bags[r := bags[r] + multiset{Serialize(y)}];
    SumBagsAdd(bags, r, multiset{Serialize(y)});
  }

  /** A new reader whose first record is `y` adds its serialisation to what has been read. */
  lemma SeenBagPrime(seen: seq<seq<SortingItem>>, y: SortingItem)
    ensures SeenBag(seen + [[y]]) == SeenBag(seen) + multiset{Serialize(y)}
  {
    var bags := SeenBags(seen + [[y]]);
    assert bags[..|seen|] == SeenBags(seen);
    assert SerializeAll([y]) == [Serialize(y)];
    assert bags[|seen|] == multiset{Serialize(y)};
  }

  /** Reading a line of reader r leaves one line fewer to read. */
  lemma {:induction false} RemainingAdvance(inputs: seq<seq<string>>, pos: seq<nat>, r: nat)
    requires |pos| <= |inputs| && r < |pos| && pos[r] < |inputs[r]|
    ensures Remaining(inputs, pos[r := pos[r] + 1]) + 1 == Remaining(inputs, pos)
  {
    var pos' := pos[r := pos[r] + 1];
    var n := |pos|;
    if r == n - 1 {
      assert pos'[..n - 1] == pos[..n - 1];
    } else {
      assert pos'[..n - 1] == pos[..n - 1][r := pos[r] + 1];
      RemainingAdvance(inputs, pos[..n - 1], r);
    }
  }

  lemma ParsedAsTail(lines: seq<string>, r: nat, items: seq<SortingItem>)
    requires ParsedAs(lines, r, items) && items != []
    ensures ParsedAs(lines[1..], r, items[1..]) && ParseAt(lines[0], r) == Ok(items[0])
  {
    forall k | 0 <= k < |items[1..]| ensures ParseAt(lines[1..][k], r) == Ok(items[1..][k]) {
      assert lines[1..][k] == lines[k + 1];
    }
  }

  /** Reading one more line that parses extends the records read. */
  lemma ParsedAsExtend(lines: seq<string>, r: nat, items: seq<SortingItem>, y: SortingItem)
    requires ParsedAs(lines, r, items) && |items| < |lines| && ParseAt(lines[|items|], r) == Ok(y)
    ensures ParsedAs(lines, r, items + [y])
  {
    forall k | 0 <= k < |items| + 1 ensures ParseAt(lines[k], r) == Ok((items + [y])[k]) {
      if k < |items| {
        assert ParseAt(lines[k], r) == Ok(items[k]);
      }
    }
  }

  /** The last record read is the parse of the line at its position, at reader r, without separator. */
  lemma NextParsed(lines: seq<string>, r: nat, items: seq<SortingItem>, y: SortingItem)
    requires ParsedAs(lines, r, items + [y])
    ensures |items| < |lines| && ParseAt(lines[|items|], r) == Ok(y)
    ensures y.readerIndex == r && !ContainsSeparator(y.text)
  {
    assert ParseAt(lines[|items|], r) == Ok((items + [y])[|items|]);
    ParsedTextHasNoSeparator(lines[|items|], r);
  }

  /** A chunk read to its end: it parses, and its bag is that of the records read. */
  lemma {:induction false} ParsedAsAll(lines: seq<string>, r: nat, items: seq<SortingItem>)
    requires ParsedAs(lines, r, items) && |items| == |lines|
    ensures ParseAll(lines).Ok?
    ensures LinesBag(lines) == multiset(SerializeAll(items))
  {
    if lines != [] {
      ParsedAsTail(lines, r, items);
      ParseAtOnlySetsReaderIndex(lines[0], r);
      ParsedAsAll(lines[1..], r, items[1..]);
      assert items == [items[0]] + items[1..];
    }
  }

  /** Once every reader is at its end, what was read is everything. */
  lemma SeenAll(inputs: seq<seq<string>>, seen: seq<seq<SortingItem>>)
    requires |seen| == |inputs|
    requires forall r :: 0 <= r < |inputs| ==> ParsedAs(inputs[r], r, seen[r]) && |seen[r]| == |inputs[r]|
    ensures forall r :: 0 <= r < |inputs| ==> ParseAll(inputs[r]).Ok?
    ensures SeenBag(seen) == TotalBag(inputs)
  {
    forall r | 0 <= r < |inputs| ensures ParseAll(inputs[r]).Ok? && LinesBag(inputs[r]) == multiset(SerializeAll(seen[r])) {
      ParsedAsAll(inputs[r], r, seen[r]);
    }
    assert SeenBags(seen) == seq(|inputs|, r requires 0 <= r < |inputs| => LinesBag(inputs[r]));
  }

  // ---------------------------------------------------------------------------
  // The pieces of one step
  // ---------------------------------------------------------------------------

  lemma InsertAtMembers(items: seq<SortingItem>, index: nat, x: SortingItem)
    requires index <= |items|
    ensures forall z :: z in InsertAt(items, index, x) <==> z == x || z in items
  {
    assert items == items[..index] + items[index..];
  }

  lemma TailMembers(buffer: seq<SortingItem>)
    requires buffer != []
    ensures forall z :: z in buffer <==> z == buffer[0] || z in buffer[1..]
  {
    assert buffer == [buffer[0]] + buffer[1..];
  }

  lemma DistinctInsert(items: seq<SortingItem>, index: nat, x: SortingItem)
    requires index <= |items| && DistinctReaders(items)
    requires forall z :: z in items ==> z.readerIndex != x.readerIndex
    ensures DistinctReaders(InsertAt(items, index, x))
  {
    var b := InsertAt(items, index, x);
    forall p, q | 0 <= p < q < |b| ensures b[p].readerIndex != b[q].readerIndex {
      var p' := if p < index then p else p - 1;
      var q' := if q < index then q else q - 1;
      if p == index {
        assert b[q] == items[q'];
      } else if q == index {
        assert b[p] == items[p'];
      } else {
        assert b[p] == items[p'] && b[q] == items[q'];
      }
    }
  }

  lemma DistinctTail(buffer: seq<SortingItem>)
    requires buffer != [] && DistinctReaders(buffer)
    ensures DistinctReaders(buffer[1..])
    ensures forall z :: z in buffer[1..] ==> z.readerIndex != buffer[0].readerIndex
  {
    forall z | z in buffer[1..] ensures z.readerIndex != buffer[0].readerIndex {
      var j :| 0 <= j < |buffer[1..]| && buffer[1..][j] == z;
      assert buffer[j + 1] == z;
    }
  }

  lemma SortedTail(buffer: seq<SortingItem>)
    requires buffer != [] && Sorted(buffer)
    ensures Sorted(buffer[1..])
    ensures |buffer| > 1 ==> Le(buffer[0], buffer[1])
  {
  }

  lemma CursorsPrime(inputs: seq<seq<string>>, i: nat, pos: seq<nat>, seen: seq<seq<SortingItem>>, y: SortingItem)
    requires Cursors(inputs, i, pos, seen)
    requires i < |inputs| && ParsedAs(inputs[i], i, [y])
    ensures Cursors(inputs, i + 1, pos + [1], seen + [[y]])
  {
    var seen' := seen + [[y]];
    assert forall r :: 0 <= r < i ==> seen'[r] == seen[r];
  }

  lemma CursorsAdvance(inputs: seq<seq<string>>, pos: seq<nat>, seen: seq<seq<SortingItem>>, r: nat, y: SortingItem)
    requires Cursors(inputs, |inputs|, pos, seen)
    requires r < |inputs| && ParsedAs(inputs[r], r, seen[r] + [y])
    ensures Cursors(inputs, |inputs|, pos[r := pos[r] + 1], seen[r := seen[r] + [y]])
    ensures pos[r] < |inputs[r]| && y.readerIndex == r && !ContainsSeparator(y.text)
  {
    NextParsed(inputs[r], r, seen[r], y);
  }

  lemma ReadFrontierPrime(seen: seq<seq<SortingItem>>, buffer: seq<SortingItem>, index: nat, y: SortingItem)
    requires ReadFrontier(seen, buffer) && index <= |buffer|
    requires y.readerIndex == |seen| && !ContainsSeparator(y.text)
    ensures ReadFrontier(seen + [[y]], InsertAt(buffer, index, y))
  {
    InsertAtMembers(buffer, index, y);
    var seen' := seen + [[y]];
    forall z | z in buffer ensures LastRead(seen', z) {
      assert seen'[z.readerIndex] == seen[z.readerIndex];
    }
  }

  lemma ReadFrontierAdvance(seen: seq<seq<SortingItem>>, buffer: seq<SortingItem>, index: nat, y: SortingItem)
    requires buffer != [] && ReadFrontier(seen, buffer) && DistinctReaders(buffer)
    requires y.readerIndex == buffer[0].readerIndex && !ContainsSeparator(y.text) && index <= |buffer| - 1
    ensures ReadFrontier(seen[y.readerIndex := seen[y.readerIndex] + [y]], InsertAt(buffer[1..], index, y))
  {
    var r := y.readerIndex;
    var seen' := seen[r := seen[r] + [y]];
    DistinctTail(buffer);
    TailMembers(buffer);
    InsertAtMembers(buffer[1..], index, y);
    forall z | z in buffer[1..] ensures LastRead(seen', z) {
      assert seen'[z.readerIndex] == seen[z.readerIndex];
    }
  }

  lemma RepresentedPrime(inputs: seq<seq<string>>, pos: seq<nat>, buffer: seq<SortingItem>, index: nat, y: SortingItem)
    requires Represented(inputs, pos, buffer) && index <= |buffer| && y.readerIndex == |pos|
    ensures Represented(inputs, pos + [1], InsertAt(buffer, index, y))
  {
    var b := InsertAt(buffer, index, y);
    InsertAtMembers(buffer, index, y);
    forall r | 0 <= r < |pos| + 1 && r < |inputs| && (pos + [1])[r] < |inputs[r]| ensures HoldsReader(b, r) {
      if r == |pos| {
        assert y in b;
      } else {
        assert (pos + [1])[r] == pos[r];
        var z :| z in buffer && z.readerIndex == r;
        assert z in b;
      }
    }
  }

  lemma RepresentedAdvance(inputs: seq<seq<string>>, pos: seq<nat>, buffer: seq<SortingItem>, index: nat, y: SortingItem)
    requires buffer != [] && Represented(inputs, pos, buffer)
    requires y.readerIndex == buffer[0].readerIndex < |pos| && index <= |buffer| - 1
    ensures Represented(inputs, pos[y.readerIndex := pos[y.readerIndex] + 1], InsertAt(buffer[1..], index, y))
  {
    var r := y.readerIndex;
    var pos' := pos[r := pos[r] + 1];
    var b := InsertAt(buffer[1..], index, y);
    TailMembers(buffer);
    InsertAtMembers(buffer[1..], index, y);
    forall r' | 0 <= r' < |pos'| && r' < |inputs| && pos'[r'] < |inputs[r']| ensures HoldsReader(b, r') {
      if r' == r {
        assert y in b;
      } else {
        var z :| z in buffer && z.readerIndex == r';
        assert z in b;
      }
    }
  }

  lemma RepresentedExhausted(inputs: seq<seq<string>>, pos: seq<nat>, buffer: seq<SortingItem>)
    requires buffer != [] && Represented(inputs, pos, buffer)
    requires buffer[0].readerIndex < |pos| && buffer[0].readerIndex < |inputs|
    requires pos[buffer[0].readerIndex] >= |inputs[buffer[0].readerIndex]|
    ensures Represented(inputs, pos, buffer[1..])
  {
    TailMembers(buffer);
    forall r | 0 <= r < |pos| && r < |inputs| && pos[r] < |inputs[r]| ensures HoldsReader(buffer[1..], r) {
      var z :| z in buffer && z.readerIndex == r;
      assert z in buffer[1..];
    }
  }

  /** The serialisations of a sequence with `x` inserted. */
  lemma {:induction false} SerializeAllInsertAt(items: seq<SortingItem>, index: nat, x: SortingItem)
    requires index <= |items|
    ensures multiset(SerializeAll(InsertAt(items, index, x))) == multiset(SerializeAll(items)) + multiset{Serialize(x)}
  {
    if index == 0 {
      assert InsertAt(items, index, x) == [x] + items;
      assert InsertAt(items, index, x)[1..] == items;
    } else {
      assert InsertAt(items, index, x)[1..] == InsertAt(items[1..], index - 1, x);
      SerializeAllInsertAt(items[1..], index - 1, x);
    }
  }

  lemma AccountedPrime(seen: seq<seq<SortingItem>>, buffer: seq<SortingItem>, index: nat, y: SortingItem)
    requires Accounted(seen, buffer, []) && index <= |buffer|
    ensures Accounted(seen + [[y]], InsertAt(buffer, index, y), [])
  {
    SerializeAllInsertAt(buffer, index, y);
    SeenBagPrime(seen, y);
  }

  lemma AccountedEmit(seen: seq<seq<SortingItem>>, buffer: seq<SortingItem>, out: seq<SortingItem>)
    requires Accounted(seen, buffer, out) && buffer != []
    ensures Accounted(seen, buffer[1..], out + [buffer[0].(readerIndex := 0)])
  {
    SerializeAllAppend(out, buffer[0].(readerIndex := 0));
    assert SerializeAll(buffer) == [Serialize(buffer[0])] + SerializeAll(buffer[1..]);
  }

  lemma AccountedAdvance(seen: seq<seq<SortingItem>>, rest: seq<SortingItem>, out: seq<SortingItem>, r: nat, index: nat, y: SortingItem)
    requires Accounted(seen, rest, out) && r < |seen| && index <= |rest|
    ensures Accounted(seen[r := seen[r] + [y]], InsertAt(rest, index, y), out)
  {
    SerializeAllInsertAt(rest, index, y);
    SeenBagAdvance(seen, r, y);
  }

  /** The head of the frontier, written at reader 0, keeps the output's shape. */
  lemma EmitShape(out: seq<SortingItem>, x: SortingItem)
    requires AllAtReader(out, 0) && TextsWithoutSeparator(out) && !ContainsSeparator(x.text)
    ensures AllAtReader(out + [x.(readerIndex := 0)], 0) && TextsWithoutSeparator(out + [x.(readerIndex := 0)])
  {
  }

  /** Writing a record at least the last one keeps the output sorted. */
  lemma EmitSorted(out: seq<SortingItem>, x: SortingItem)
    requires Sorted(out) && (out != [] ==> Le(out[|out| - 1], x))
    ensures Sorted(out + [x.(readerIndex := 0)])
  {
    var x0 := x.(readerIndex := 0);
    forall i, j | 0 <= i < j < |out + [x0]| ensures Le((out + [x0])[i], (out + [x0])[j]) {
      if j == |out| {
        CompareIgnoresReaderIndex(out[i], x, out[i].readerIndex, 0);
        assert out[i].(readerIndex := out[i].readerIndex) == out[i];
        if i < |out| - 1 {
          CompareTransitive(out[i], out[|out| - 1], x);
        }
      }
    }
  }

  lemma LeAtReaderZero(x: SortingItem, y: SortingItem)
    requires Le(x, y)
    ensures Le(x.(readerIndex := 0), y)
  {
    CompareIgnoresReaderIndex(x, y, 0, y.readerIndex);
    assert y.(readerIndex := y.readerIndex) == y;
  }

  /** Consecutive lines of a sorted chunk are in order. */
  lemma ReaderOrder(lines: seq<string>, p: nat, r: nat, x: SortingItem, y: SortingItem)
    requires SortedLines(lines) && 1 <= p < |lines|
    requires ParseAt(lines[p - 1], r) == Ok(x) && ParseAt(lines[p], r) == Ok(y)
    ensures Le(x, y)
  {
    ParseAllOkIff(lines);
    ParseAtOnlySetsReaderIndex(lines[p - 1], r);
    ParseAtOnlySetsReaderIndex(lines[p], r);
    var v := ParseAll(lines).value;
    assert Le(v[p - 1], v[p]);
    CompareIgnoresReaderIndex(v[p - 1], v[p], r, r);
  }

  /** The record a reader returned last is at most the next one, for a sorted chunk. */
  lemma NextInOrder(inputs: seq<seq<string>>, pos: seq<nat>, seen: seq<seq<SortingItem>>, x: SortingItem, y: SortingItem)
    requires Cursors(inputs, |inputs|, pos, seen) && AllSorted(inputs) && LastRead(seen, x)
    requires ParsedAs(inputs[x.readerIndex], x.readerIndex, seen[x.readerIndex] + [y])
    ensures Le(x, y)
  {
    var r := x.readerIndex;
    NextParsed(inputs[r], r, seen[r], y);
    assert ParsedAs(inputs[r], r, seen[r]);
    assert ParseAt(inputs[r][pos[r] - 1], r) == Ok(seen[r][pos[r] - 1]);
    assert SortedLines(inputs[r]);
    ReaderOrder(inputs[r], pos[r], r, x, y);
  }

  lemma HeadFacts(seen: seq<seq<SortingItem>>, buffer: seq<SortingItem>)
    requires FrontierCore(seen, buffer) && buffer != []
    ensures LastRead(seen, buffer[0]) && !ContainsSeparator(buffer[0].text)
  {
    assert buffer[0] in buffer;
  }

  lemma CorePrime(seen: seq<seq<SortingItem>>, buffer: seq<SortingItem>, index: nat, y: SortingItem)
    requires FrontierCore(seen, buffer) && FitsAt(buffer, y, index)
    requires y.readerIndex == |seen| && !ContainsSeparator(y.text)
    ensures FrontierCore(seen + [[y]], InsertAt(buffer, index, y))
  {
    InsertKeepsSorted(buffer, index, y);
    ReadFrontierPrime(seen, buffer, index, y);
    DistinctInsert(buffer, index, y);
  }

  lemma CoreAdvance(seen: seq<seq<SortingItem>>, buffer: seq<SortingItem>, index: nat, y: SortingItem)
    requires FrontierCore(seen, buffer) && buffer != [] && FitsAt(buffer[1..], y, index)
    requires y.readerIndex == buffer[0].readerIndex && !ContainsSeparator(y.text)
    ensures FrontierCore(seen[y.readerIndex := seen[y.readerIndex] + [y]], InsertAt(buffer[1..], index, y))
  {
    SortedTail(buffer);
    InsertKeepsSorted(buffer[1..], index, y);
    ReadFrontierAdvance(seen, buffer, index, y);
    DistinctTail(buffer);
    DistinctInsert(buffer[1..], index, y);
  }

  lemma CoreDrop(seen: seq<seq<SortingItem>>, buffer: seq<SortingItem>)
    requires FrontierCore(seen, buffer) && buffer != []
    ensures FrontierCore(seen, buffer[1..])
  {
    SortedTail(buffer);
    TailMembers(buffer);
    DistinctTail(buffer);
  }

  /** For sorted chunks the head of the frontier is at most the head of the next frontier. */
  lemma HeadInOrder(inputs: seq<seq<string>>, pos: seq<nat>, seen: seq<seq<SortingItem>>,
                    buffer: seq<SortingItem>, index: nat, y: SortingItem)
    requires Cursors(inputs, |inputs|, pos, seen) && AllSorted(inputs)
    requires FrontierCore(seen, buffer) && buffer != [] && FitsAt(buffer[1..], y, index)
    requires buffer[0].readerIndex < |inputs|
    requires ParsedAs(inputs[buffer[0].readerIndex], buffer[0].readerIndex, seen[buffer[0].readerIndex] + [y])
    ensures Le(buffer[0], InsertAt(buffer[1..], index, y)[0])
  {
    var b := InsertAt(buffer[1..], index, y);
    if index == 0 {
      HeadFacts(seen, buffer);
      NextInOrder(inputs, pos, seen, buffer[0], y);
      assert b[0] == y;
    } else {
      assert b[0] == buffer[1];
    }
  }

  lemma OutputPrime(seen: seq<seq<SortingItem>>, buffer: seq<SortingItem>, sorted: bool, index: nat, y: SortingItem)
    requires Output(seen, buffer, [], sorted) && index <= |buffer|
    ensures Output(seen + [[y]], InsertAt(buffer, index, y), [], sorted)
  {
    AccountedPrime(seen, buffer, index, y);
  }

  lemma OutputEmit(seen: seq<seq<SortingItem>>, buffer: seq<SortingItem>, out: seq<SortingItem>, sorted: bool)
    requires Output(seen, buffer, out, sorted) && buffer != [] && !ContainsSeparator(buffer[0].text)
    requires sorted ==> Sorted(buffer)
    ensures Output(seen, buffer[1..], out + [buffer[0].(readerIndex := 0)], sorted)
  {
    AccountedEmit(seen, buffer, out);
    EmitShape(out, buffer[0]);
    if sorted {
      EmitSorted(out, buffer[0]);
      if |buffer| > 1 {
        SortedTail(buffer);
        LeAtReaderZero(buffer[0], buffer[1]);
      }
    }
  }

  lemma OutputAdvance(seen: seq<seq<SortingItem>>, buffer: seq<SortingItem>, out: seq<SortingItem>, sorted: bool,
                      index: nat, y: SortingItem)
    requires Output(seen, buffer, out, sorted) && buffer != [] && !ContainsSeparator(buffer[0].text)
    requires buffer[0].readerIndex < |seen| && index <= |buffer| - 1
    requires sorted ==> Le(buffer[0], InsertAt(buffer[1..], index, y)[0])
    ensures Output(seen[buffer[0].readerIndex := seen[buffer[0].readerIndex] + [y]], InsertAt(buffer[1..], index, y),
                   out + [buffer[0].(readerIndex := 0)], sorted)
  {
    var x := buffer[0];
    AccountedEmit(seen, buffer, out);
    AccountedAdvance(seen, buffer[1..], out + [x.(readerIndex := 0)], x.readerIndex, index, y);
    EmitShape(out, x);
    if sorted {
      EmitSorted(out, x);
      LeAtReaderZero(x, InsertAt(buffer[1..], index, y)[0]);
    }
  }

  // ---------------------------------------------------------------------------
  // One step of the merge
  // ---------------------------------------------------------------------------

  /** Filling the buffer: reader i's first record joins the frontier. */
  lemma PrimeStep(inputs: seq<seq<string>>, i: nat, pos: seq<nat>, seen: seq<seq<SortingItem>>,
                  buffer: seq<SortingItem>, sorted: bool, y: SortingItem, index: nat)
    requires MergeInv(inputs, i, pos, seen, buffer, [], sorted)
    requires i < |inputs| && ParsedAs(inputs[i], i, [y])
    requires FitsAt(buffer, y, index)
    ensures MergeInv(inputs, i + 1, pos + [1], seen + [[y]], InsertAt(buffer, index, y), [], sorted)
  {
    NextParsed(inputs[i], i, [], y);
    CursorsPrime(inputs, i, pos, seen, y);
    CorePrime(seen, buffer, index, y);
    RepresentedPrime(inputs, pos, buffer, index, y);
    OutputPrime(seen, buffer, sorted, index, y);
  }

  /** Writing the head of the frontier when its reader has no lines left. */
  lemma EmitExhausted(inputs: seq<seq<string>>, pos: seq<nat>, seen: seq<seq<SortingItem>>,
                      buffer: seq<SortingItem>, out: seq<SortingItem>, sorted: bool)
    requires MergeInv(inputs, |inputs|, pos, seen, buffer, out, sorted) && buffer != []
    requires pos[buffer[0].readerIndex] == |inputs[buffer[0].readerIndex]|
    ensures MergeInv(inputs, |inputs|, pos, seen, buffer[1..], out + [buffer[0].(readerIndex := 0)], sorted)
  {
    HeadFacts(seen, buffer);
    CoreDrop(seen, buffer);
    RepresentedExhausted(inputs, pos, buffer);
    OutputEmit(seen, buffer, out, sorted);
  }

  /** Writing the head of the frontier and putting its reader's next record `y` at `index`. */
  /** The frontier after its head was written and replaced by the next record of the same reader. */
  lemma FrontierAdvance(inputs: seq<seq<string>>, pos: seq<nat>, seen: seq<seq<SortingItem>>,
                        buffer: seq<SortingItem>, y: SortingItem, index: nat)
    requires Frontier(inputs, |inputs|, pos, seen, buffer) && buffer != []
    requires buffer[0].readerIndex < |inputs|
    requires ParsedAs(inputs[buffer[0].readerIndex], buffer[0].readerIndex, seen[buffer[0].readerIndex] + [y])
    requires FitsAt(buffer[1..], y, index)
    ensures Frontier(inputs, |inputs|, pos[buffer[0].readerIndex := pos[buffer[0].readerIndex] + 1],
                     seen[buffer[0].readerIndex := seen[buffer[0].readerIndex] + [y]], InsertAt(buffer[1..], index, y))
    ensures Remaining(inputs, pos[buffer[0].readerIndex := pos[buffer[0].readerIndex] + 1]) + 1 == Remaining(inputs, pos)
    ensures !ContainsSeparator(buffer[0].text)
  {
    var r := buffer[0].readerIndex;
    HeadFacts(seen, buffer);
    CursorsAdvance(inputs, pos, seen, r, y);
    RemainingAdvance(inputs, pos, r);
    CoreAdvance(seen, buffer, index, y);
    RepresentedAdvance(inputs, pos, buffer, index, y);
  }

  lemma EmitAdvance(inputs: seq<seq<string>>, pos: seq<nat>, seen: seq<seq<SortingItem>>,
                    buffer: seq<SortingItem>, out: seq<SortingItem>, sorted: bool, y: SortingItem, index: nat,
                    pos': seq<nat>, seen': seq<seq<SortingItem>>, buffer': seq<SortingItem>, out': seq<SortingItem>)
    requires MergeInv(inputs, |inputs|, pos, seen, buffer, out, sorted) && buffer != []
    requires sorted ==> AllSorted(inputs)
    requires buffer[0].readerIndex < |inputs|
    requires ParsedAs(inputs[buffer[0].readerIndex], buffer[0].readerIndex, seen[buffer[0].readerIndex] + [y])
    requires FitsAt(buffer[1..], y, index)
    requires pos' == pos[buffer[0].readerIndex := pos[buffer[0].readerIndex] + 1]
    requires seen' == seen[buffer[0].readerIndex := seen[buffer[0].readerIndex] + [y]]
    requires buffer' == InsertAt(buffer[1..], index, y) && out' == out + [buffer[0].(readerIndex := 0)]
    ensures MergeInv(inputs, |inputs|, pos', seen', buffer', out', sorted)
    ensures Remaining(inputs, pos') + |buffer'| < Remaining(inputs, pos) + |buffer|
  {
    FrontierAdvance(inputs, pos, seen, buffer, y, index);
    if sorted {
      HeadInOrder(inputs, pos, seen, buffer, index, y);
    }
    OutputAdvance(seen, buffer, out, sorted, index, y);
  }

  /** A line that does not parse makes its whole chunk unparsable. */
  lemma LineFails(lines: seq<string>, p: nat, r: nat)
    requires p < |lines| && ParseAt(lines[p], r).Err?
    ensures !ParseAll(lines).Ok?
  {
    ParseAtOnlySetsReaderIndex(lines[p], r);
    ParseAllOkIff(lines);
  }

  /** When the frontier is empty every reader is at its end and everything read has been written. */
  lemma MergeDone(inputs: seq<seq<string>>, pos: seq<nat>, seen: seq<seq<SortingItem>>, out: seq<SortingItem>, sorted: bool)
    requires MergeInv(inputs, |inputs|, pos, seen, [], out, sorted)
    ensures forall r :: 0 <= r < |inputs| ==> inputs[r] != [] && ParseAll(inputs[r]).Ok?
    ensures multiset(SerializeAll(out)) == TotalBag(inputs)
    ensures ParseAll(SerializeAll(out)) == Ok(out)
    ensures sorted ==> Sorted(out)
  {
    forall r | 0 <= r < |inputs| ensures pos[r] == |inputs[r]| {
      assert ParsedAs(inputs[r], r, seen[r]);
      assert !HoldsReader([], r);
    }
    SeenAll(inputs, seen);
    ParseAllSerializeAll(out);
  }

  /** The frontier never holds more records than there are readers. */
  lemma {:induction false} FrontierBound(buffer: seq<SortingItem>, n: nat)
    requires DistinctReaders(buffer)
    requires forall j :: 0 <= j < |buffer| ==> buffer[j].readerIndex < n
    ensures |buffer| <= n
    decreases n
  {
    if buffer != [] {
      assert buffer[0].readerIndex < n;
      if m :| 0 <= m < |buffer| && buffer[m].readerIndex == n - 1 {
        var rest := buffer[..m] + buffer[m + 1..];
        forall j | 0 <= j < |rest| ensures rest[j].readerIndex < n - 1 {
          var k := if j < m then j else j + 1;
          assert rest[j] == buffer[k];
        }
        forall p, q | 0 <= p < q < |rest| ensures rest[p].readerIndex != rest[q].readerIndex {
          var p' := if p < m then p else p + 1;
          var q' := if q < m then q else q + 1;
          assert rest[p] == buffer[p'] && rest[q] == buffer[q'];
        }
        FrontierBound(rest, n - 1);
      } else {
        FrontierBound(buffer, n - 1);
      }
    }
  }

  /** In any state of the merge, the frontier holds at most one record per input. */
  lemma MergeFrontierBound(inputs: seq<seq<string>>, pos: seq<nat>, seen: seq<seq<SortingItem>>,
                           buffer: seq<SortingItem>, out: seq<SortingItem>, sorted: bool)
    requires MergeInv(inputs, |inputs|, pos, seen, buffer, out, sorted)
    ensures |buffer| <= |inputs|
  {
    forall j | 0 <= j < |buffer| ensures buffer[j].readerIndex < |inputs| {
      assert buffer[j] in buffer;
    }
    FrontierBound(buffer, |inputs|);
  }
}
