/**
 * FilesMerger.MergeChunksAsync as a program: the loop that fills the
 * frontier with the first record of every chunk, and the loop that writes
 * the head of the frontier until it is empty. The invariant and the
 * lemmas that carry it from step to step are in KWayMerge.
 */
module MergeLoop {
  import opened Wrappers
  import opened Records
  import opened Comparer
  import opened ChunkSort
  import opened KWayMerge


  /**
   * `new SortingItem(line, r)` on line p of reader r (a line that is not a
   * record makes the parse throw), and the place in the sorted `rest` where
   * the record goes.
   */
  method ReadRecord(lines: seq<string>, p: nat, r: nat, ghost items: seq<SortingItem>, rest: seq<SortingItem>)
    returns (next: Result<SortingItem, ParseError>, index: nat)
    requires ParsedAs(lines, r, items) && |items| == p < |lines| && Sorted(rest)
    ensures next.Ok? ==> ParsedAs(lines, r, items + [next.value]) && FitsAt(rest, next.value, index)
    ensures next.Err? ==> !ParseAll(lines).Ok?
  {
    next := ParseAt(lines[p], r);
    index := 0;
    if next.Err? {
      LineFails(lines, p, r);
    } else {
      ParsedAsExtend(lines, r, items, next.value);
      index := Reinsert(rest, next.value);
    }
  }

  /**
   * The first loop of MergeChunksAsync: one record from every reader,
   * inserted where it keeps the buffer sorted. An empty chunk makes
   * `new SortingItem(null)` throw.
   */
  method FillBuffer(inputs: seq<seq<string>>, ghost sorted: bool)
    returns (buffer: seq<SortingItem>, pos: seq<nat>, failure: Option<MergeError>, ghost seen: seq<seq<SortingItem>>)
    ensures failure.None? ==> MergeInv(inputs, |inputs|, pos, seen, buffer, [], sorted)
    ensures failure.Some? ==> exists r :: 0 <= r < |inputs| && (inputs[r] == [] || !ParseAll(inputs[r]).Ok?)
  {
    seen, buffer, pos := [], [], [];
    var i := 0;
    while i < |inputs|
      invariant i <= |inputs|
      invariant MergeInv(inputs, i, pos, seen, buffer, [], sorted)
    {
      if inputs[i] == [] {
        return buffer, pos, Some(NullLine(i)), seen;
      }
      var next, index := ReadRecord(inputs[i], 0, i, [], buffer);
      if next.Err? {
        return buffer, pos, Some(BadLine(i, next.error)), seen;
      }
      PrimeStep(inputs, i, pos, seen, buffer, sorted, next.value, index);
      buffer := InsertAt(buffer, index, next.value);
      pos := pos + [1];
      seen := seen + [[next.value]];
      i := i + 1;
    }
    failure := None;
  }

  /**
   * One turn of the second loop of MergeChunksAsync, after the head of the
   * frontier has been written: the head is replaced by the next record of
   * its reader, if that reader has one.
   */
  method EmitHead(inputs: seq<seq<string>>, buffer: seq<SortingItem>, pos: seq<nat>,
                  ghost seen: seq<seq<SortingItem>>, ghost out: seq<SortingItem>, ghost sorted: bool)
    returns (buffer': seq<SortingItem>, pos': seq<nat>, failure: Option<MergeError>,
             ghost seen': seq<seq<SortingItem>>, ghost out': seq<SortingItem>)
    requires MergeInv(inputs, |inputs|, pos, seen, buffer, out, sorted) && buffer != []
    requires sorted ==> AllSorted(inputs)
    ensures out' == out + [buffer[0].(readerIndex := 0)]
    ensures failure.None? ==> MergeInv(inputs, |inputs|, pos', seen', buffer', out', sorted)
    ensures failure.None? ==> Remaining(inputs, pos') + |buffer'| < Remaining(inputs, pos) + |buffer|
    ensures failure.Some? ==> buffer[0].readerIndex < |inputs| && !ParseAll(inputs[buffer[0].readerIndex]).Ok?
  {
    HeadFacts(seen, buffer);
    var r := buffer[0].readerIndex;
    out' := out + [buffer[0].(readerIndex := 0)];
    if pos[r] < |inputs[r]| {
      SortedTail(buffer);
      var next, index := ReadRecord(inputs[r], pos[r], r, seen[r], buffer[1..]);
      if next.Err? {
        buffer', pos', failure, seen' := buffer, pos, Some(BadLine(r, next.error)), seen;
      } else {
        buffer', pos', seen' := ReplaceHead(inputs, buffer, pos, seen, out, sorted, next.value, index);
        failure := None;
      }
    } else {
      EmitExhausted(inputs, pos, seen, buffer, out, sorted);
      buffer', pos', failure, seen' := buffer[1..], pos, None, seen;
    }
  }

  /** EmitHead when the reader of the head returned record `y`: put it in its place in the frontier. */
  method ReplaceHead(inputs: seq<seq<string>>, buffer: seq<SortingItem>, pos: seq<nat>,
                     ghost seen: seq<seq<SortingItem>>, ghost out: seq<SortingItem>, ghost sorted: bool,
                     y: SortingItem, index: nat)
    returns (buffer': seq<SortingItem>, pos': seq<nat>, ghost seen': seq<seq<SortingItem>>)
    requires MergeInv(inputs, |inputs|, pos, seen, buffer, out, sorted) && buffer != []
    requires sorted ==> AllSorted(inputs)
    requires buffer[0].readerIndex < |inputs|
    requires ParsedAs(inputs[buffer[0].readerIndex], buffer[0].readerIndex, seen[buffer[0].readerIndex] + [y])
    requires FitsAt(buffer[1..], y, index)
    ensures buffer' == InsertAt(buffer[1..], index, y)
    ensures pos' == pos[buffer[0].readerIndex := pos[buffer[0].readerIndex] + 1]
    ensures MergeInv(inputs, |inputs|, pos', seen', buffer', out + [buffer[0].(readerIndex := 0)], sorted)
    ensures Remaining(inputs, pos') + |buffer'| < Remaining(inputs, pos) + |buffer|
  {
    var r := buffer[0].readerIndex;
    buffer' := InsertAt(buffer[1..], index, y);
    pos' := pos[r := pos[r] + 1];
    seen' := seen[r := seen[r] + [y]];
    EmitAdvance(inputs, pos, seen, buffer, out, sorted, y, index, pos', seen', buffer', out + [buffer[0].(readerIndex := 0)]);
  }

  /** The second loop of MergeChunksAsync: write the head of the frontier until it is empty. */
  method Drain(inputs: seq<seq<string>>, buffer0: seq<SortingItem>, pos0: seq<nat>,
               ghost seen0: seq<seq<SortingItem>>, ghost sorted: bool)
    returns (written: seq<string>, failure: Option<MergeError>,
             pos: seq<nat>, ghost seen: seq<seq<SortingItem>>, ghost out: seq<SortingItem>)
    requires MergeInv(inputs, |inputs|, pos0, seen0, buffer0, [], sorted)
    requires sorted ==> AllSorted(inputs)
    ensures failure.None? ==> MergeInv(inputs, |inputs|, pos, seen, [], out, sorted) && written == SerializeAll(out)
    ensures failure.Some? ==> exists r :: 0 <= r < |inputs| && !ParseAll(inputs[r]).Ok?
  {
    written, out := [], [];
    var buffer := buffer0;
    pos, seen := pos0, seen0;
    while buffer != []
      invariant MergeInv(inputs, |inputs|, pos, seen, buffer, out, sorted)
      invariant written == SerializeAll(out)
      decreases Remaining(inputs, pos) + |buffer|
    {
      SerializeAllAppend(out, buffer[0].(readerIndex := 0));
      written := written + [Serialize(buffer[0])];
      var nextBuffer, nextPos, stepFailure, nextSeen, nextOut := EmitHead(inputs, buffer, pos, seen, out, sorted);
      if stepFailure.Some? {
        return written, stepFailure, pos, seen, out;
      }
      buffer, pos, seen, out := nextBuffer, nextPos, nextSeen, nextOut;
    }
    failure := None;
  }

  /**
   * MergeChunksAsync without the files: `inputs` are the lines of the
   * chunks, `written` the lines written to the result. It succeeds exactly
   * when every chunk is non-empty and all its lines are records; it then
   * writes every record, re-serialised, and for sorted chunks the result is
   * a sorted file.
   */
  method MergeLines(inputs: seq<seq<string>>) returns (written: seq<string>, failure: Option<MergeError>)
    ensures failure.None? <==> forall r :: 0 <= r < |inputs| ==> inputs[r] != [] && ParseAll(inputs[r]).Ok?
    ensures failure.None? ==> multiset(written) == TotalBag(inputs)
    ensures failure.None? ==> Canonical(written)
    ensures failure.None? && AllSorted(inputs) ==> SortedLines(written)
  {
    ghost var sorted := AllSorted(inputs);
    var buffer, pos, primeFailure, seen := FillBuffer(inputs, sorted);
    if primeFailure.Some? {
      return [], primeFailure;
    }
    var finalPos;
    ghost var finalSeen, out;
    written, failure, finalPos, finalSeen, out := Drain(inputs, buffer, pos, seen, sorted);
    if failure.None? {
      MergeDone(inputs, finalPos, finalSeen, out, sorted);
    }
  }
}
