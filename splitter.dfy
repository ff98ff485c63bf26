/**
 * FileSplitter.SplitFileToChunks of FileSorter/FileSplitter.cs: the input is
 * read one character at a time and narrowed to a byte. While fewer than
 * `chunkSize` bytes belong to the current chunk a byte goes into the fixed
 * primary buffer; after that bytes go to the overflow list, and the first
 * '\n' there closes the chunk. Whatever is left at the end becomes one more
 * chunk.
 *
 * `Chunking` says which chunks come out, as a function of the bytes; the
 * class method runs the byte loop and is proved to write exactly those chunks.
 */
module Splitter {
  import opened Wrappers
  import opened ChunkNaming

  type byte = x: int | 0 <= x < 256

  /** NewLineSeparator, '\n'. */
  const NewLine: byte := 10

  /** `(byte)value`: the unchecked cast keeps the low eight bits of the character. */
  function ToByte(c: char): byte
  {
    (c as int) % 256
  }

  /** The input as the splitter sees it, one byte per character. */
  function Bytes(s: seq<char>): (b: seq<byte>)
    ensures |b| == |s|
  {
    if s == [] then [] else [ToByte(s[0])] + Bytes(s[1..])
  }

  /** The byte at position k is the narrowed character at position k. */
  lemma {:induction false} BytesAt(s: seq<char>, k: nat)
    requires k < |s|
    ensures Bytes(s)[k] == ToByte(s[k])
  {
    if k > 0 {
      BytesAt(s[1..], k - 1);
    }
  }

  /** A character below 256 reaches the splitter unchanged. */
  lemma {:induction false} BytesKeepsNarrowCharacters(s: seq<char>, k: nat)
    requires k < |s| && (s[k] as int) < 256
    ensures Bytes(s)[k] == s[k] as int
  {
    BytesAt(s, k);
  }

  /** The first '\n' at or after position `from`. */
  function NewLineFrom(s: seq<byte>, from: nat): (r: Option<nat>)
    ensures r.Some? ==> from <= r.value < |s| && s[r.value] == NewLine
    ensures r.Some? ==> forall j :: from <= j < r.value ==> s[j] != NewLine
    ensures r.None? ==> forall j :: from <= j < |s| ==> s[j] != NewLine
    decreases |s| - from
  {
    if from >= |s| then None
    else if s[from] == NewLine then Some(from)
    else NewLineFrom(s, from + 1)
  }

  /**
   * The chunks cut from `s`: a chunk ends at the first '\n' found once
   * `chunkSize` bytes have been taken; the rest after the last such '\n',
   * possibly empty, is the final chunk.
   */
  function Chunking(s: seq<byte>, chunkSize: nat): (chunks: seq<seq<byte>>)
    ensures |chunks| >= 1
    decreases |s|
  {
    match NewLineFrom(s, chunkSize)
    case None => [s]
    case Some(p) => [s[..p + 1]] + Chunking(s[p + 1..], chunkSize)
  }

  function Flatten(chunks: seq<seq<byte>>): seq<byte>
  {
    if chunks == [] then [] else chunks[0] + Flatten(chunks[1..])
  }

  /** A chunk closed mid-stream: the full primary buffer, then an overflow whose only '\n' is its last byte. */
  predicate ClosedChunk(c: seq<byte>, chunkSize: nat)
  {
    |c| > chunkSize && c[|c| - 1] == NewLine
    && forall m :: chunkSize <= m < |c| - 1 ==> c[m] != NewLine
  }

  // ---------------------------------------------------------------------------
  // Properties of the chunking
  // ---------------------------------------------------------------------------

  /** Concatenating the chunks in order gives back the input. */
  lemma {:induction false} ChunkingFlatten(s: seq<byte>, chunkSize: nat)
    ensures Flatten(Chunking(s, chunkSize)) == s
    decreases |s|
  {
    match NewLineFrom(s, chunkSize)
    case None =>
      assert Flatten([s]) == s + Flatten([]);
    case Some(p) =>
      var c := Chunking(s, chunkSize);
      assert c[1..] == Chunking(s[p + 1..], chunkSize);
      ChunkingFlatten(s[p + 1..], chunkSize);
      assert s == s[..p + 1] + s[p + 1..];
  }

  /** No '\n' at or past the threshold: the final chunk's shape. */
  predicate OpenTail(c: seq<byte>, chunkSize: nat)
  {
    forall m :: chunkSize <= m < |c| ==> c[m] != NewLine
  }

  /** Every chunk but the last is closed at a line end; the last holds no '\n' past the threshold. */
  lemma {:induction false} ChunkingLineAligned(s: seq<byte>, chunkSize: nat)
    ensures forall j :: 0 <= j < |Chunking(s, chunkSize)| - 1 ==> ClosedChunk(Chunking(s, chunkSize)[j], chunkSize)
    ensures OpenTail(Chunking(s, chunkSize)[|Chunking(s, chunkSize)| - 1], chunkSize)
    decreases |s|
  {
    match NewLineFrom(s, chunkSize)
    case None =>
    case Some(p) =>
      var c := Chunking(s, chunkSize);
      var rest := Chunking(s[p + 1..], chunkSize);
      assert c == [s[..p + 1]] + rest;
      ChunkingLineAligned(s[p + 1..], chunkSize);
      assert ClosedChunk(c[0], chunkSize);
      forall j | 1 <= j < |c| - 1 ensures ClosedChunk(c[j], chunkSize) {
        assert c[j] == rest[j - 1];
      }
      assert c[|c| - 1] == rest[|rest| - 1];
  }

  /** Where the loop meets a '\n' past the threshold, a chunk ends. */
  lemma {:induction false} ChunkingStep(s: seq<byte>, chunkSize: nat, p: nat)
    requires chunkSize <= p < |s| && s[p] == NewLine
    requires forall j :: chunkSize <= j < p ==> s[j] != NewLine
    ensures Chunking(s, chunkSize) == [s[..p + 1]] + Chunking(s[p + 1..], chunkSize)
  {
    assert NewLineFrom(s, chunkSize) == Some(p);
  }

  /** With no '\n' past the threshold everything is one final chunk. */
  lemma {:induction false} ChunkingTail(s: seq<byte>, chunkSize: nat)
    requires forall j :: chunkSize <= j < |s| ==> s[j] != NewLine
    ensures Chunking(s, chunkSize) == [s]
  {
    assert NewLineFrom(s, chunkSize) == None;
  }

  lemma {:induction false} FlattenLast(chunks: seq<seq<byte>>)
    requires |chunks| >= 1
    ensures Flatten(chunks) == Flatten(chunks[..|chunks| - 1]) + chunks[|chunks| - 1]
    decreases |chunks|
  {
    var init := chunks[..|chunks| - 1];
    if |chunks| == 1 {
      assert chunks[1..] == [] && init == [];
    } else {
      FlattenLast(chunks[1..]);
      assert chunks[1..][..|chunks| - 2] == init[1..];
      assert init[0] == chunks[0];
      calc {
        Flatten(chunks);
        chunks[0] + Flatten(chunks[1..]);
        chunks[0] + (Flatten(init[1..]) + chunks[|chunks| - 1]);
        (chunks[0] + Flatten(init[1..])) + chunks[|chunks| - 1];
        Flatten(init) + chunks[|chunks| - 1];
      }
    }
  }

  /**
   * The final chunk is longer than the primary buffer only when the input does
   * not end in '\n': its last line crossed the threshold and never ended.
   */
  lemma {:induction false} OverlongTailIsUnterminated(s: seq<byte>, chunkSize: nat)
    requires var c := Chunking(s, chunkSize); |c[|c| - 1]| > chunkSize
    ensures |s| > 0 && s[|s| - 1] != NewLine
  {
    var c := Chunking(s, chunkSize);
    var last := c[|c| - 1];
    ChunkingFlatten(s, chunkSize);
    FlattenLast(c);
    LastOfAppend(Flatten(c[..|c| - 1]), last, s);
    ChunkingLineAligned(s, chunkSize);
    assert OpenTail(last, chunkSize);
  }

  /** A sequence ending in a non-empty `b` ends with the last element of `b`. */
  lemma LastOfAppend<T>(a: seq<T>, b: seq<T>, s: seq<T>)
    requires s == a + b && b != []
    ensures |s| > 0 && s[|s| - 1] == b[|b| - 1]
  {
  }

  /** One closed chunk as the whole input: the final flush still writes a second, empty chunk. */
  lemma {:induction false} ClosedChunkLeavesEmptyTail(c: seq<byte>, chunkSize: nat)
    requires ClosedChunk(c, chunkSize)
    ensures Chunking(c, chunkSize) == [c, []]
  {
    ChunkingStep(c, chunkSize, |c| - 1);
    assert c[..|c|] == c;
    assert c[|c|..] == [];
  }

  /** An empty input gives one empty chunk. */
  lemma EmptyInputOneEmptyChunk(chunkSize: nat)
    ensures Chunking([], chunkSize) == [[]]
  {
  }

  // ---------------------------------------------------------------------------
  // The splitter object
  // ---------------------------------------------------------------------------

  /** The ArgumentException thrown by writer.Write(buffer, 0, count) when count > buffer.Length. */
  datatype SplitError = WriteBeyondBuffer

  /** The chunk files, written in order over the files already on disk. */
  function Written(disk: map<string, seq<byte>>, names: seq<string>, contents: seq<seq<byte>>): map<string, seq<byte>>
    requires |names| == |contents|
    decreases |names|
  {
    if names == [] then disk
    else Written(disk, names[..|names| - 1], contents[..|contents| - 1])[names[|names| - 1] := contents[|contents| - 1]]
  }

  /** The loop has emitted the chunks before `start`; the rest of the chunking is that of the remaining bytes. */
  ghost predicate ChunkedUpTo(bytes: seq<byte>, chunkSize: nat, emitted: seq<seq<byte>>, start: nat)
  {
    start <= |bytes| && Chunking(bytes, chunkSize) == emitted + Chunking(bytes[start..], chunkSize)
  }

  lemma {:induction false} WrittenAppend(disk: map<string, seq<byte>>, names: seq<string>, contents: seq<seq<byte>>, name: string, content: seq<byte>)
    requires |names| == |contents|
    ensures Written(disk, names + [name], contents + [content]) == Written(disk, names, contents)[name := content]
  {
    assert (names + [name])[..|names|] == names;
    assert (contents + [content])[..|contents|] == contents;
  }

  lemma ChunkNamesAppend(basePath: string, from: nat, count: nat)
    ensures ChunkNames(basePath, from, count) + [ChunkName(basePath, from + count + 1)] == ChunkNames(basePath, from, count + 1)
  {
  }

  /** The loop's flush: a '\n' past the threshold of the current chunk closes it. */
  lemma {:induction false} FlushClosesChunk(bytes: seq<byte>, chunkSize: nat, emitted: seq<seq<byte>>, start: nat, i: nat)
    requires start + chunkSize <= i < |bytes| && bytes[i] == NewLine
    requires forall j :: start + chunkSize <= j < i ==> bytes[j] != NewLine
    requires ChunkedUpTo(bytes, chunkSize, emitted, start)
    ensures ChunkedUpTo(bytes, chunkSize, emitted + [bytes[start..i + 1]], i + 1)
  {
    var rest := bytes[start..];
    forall j | chunkSize <= j < i - start ensures rest[j] != NewLine {
      assert rest[j] == bytes[start + j];
    }
    ChunkingStep(rest, chunkSize, i - start);
    assert rest[..i - start + 1] == bytes[start..i + 1];
    assert rest[i - start + 1..] == bytes[i + 1..];
    var tail := Chunking(bytes[i + 1..], chunkSize);
    calc {
      Chunking(bytes, chunkSize);
      emitted + Chunking(rest, chunkSize);
      emitted + ([bytes[start..i + 1]] + tail);
      (emitted + [bytes[start..i + 1]]) + tail;
    }
  }

  /**
   * The chunks in `emitted` have been created, named and written over
   * `disk0`, in order, leaving the counter at `counter` and the files at `disk`.
   */
  ghost predicate Emitted(basePath: string, disk0: map<string, seq<byte>>, first: nat, names: seq<string>, emitted: seq<seq<byte>>,
                          counter: nat, disk: map<string, seq<byte>>)
  {
    && counter == first + |emitted|
    && names == ChunkNames(basePath, first, |emitted|)
    && disk == Written(disk0, names, emitted)
  }

  function Min(a: nat, b: nat): nat
  {
    if a < b then a else b
  }

  /**
   * The read loop's buffers after reading bytes[..i] with the current chunk
   * starting at `start`: the first `chunkSize` bytes of it sit in `buf`, the
   * rest in `additionalBuffer`, and no '\n' has been read past the threshold.
   */
  ghost predicate Reading(bytes: seq<byte>, chunkSize: nat, buf: seq<byte>, additionalBuffer: seq<byte>, count: nat, start: nat, i: nat)
  {
    && start <= i <= |bytes| && count == i - start && |buf| == chunkSize
    && (forall j :: 0 <= j < Min(count, chunkSize) ==> buf[j] == bytes[start + j])
    && (count <= chunkSize ==> additionalBuffer == [])
    && (count > chunkSize ==> |additionalBuffer| == count - chunkSize)
    && (forall j :: 0 <= j < |additionalBuffer| ==> additionalBuffer[j] == bytes[start + chunkSize + j])
    && (forall j :: start + chunkSize <= j < i ==> bytes[j] != NewLine)
  }

  /** A byte read while the buffer has room goes into the buffer. */
  lemma FillStep(bytes: seq<byte>, chunkSize: nat, buf: seq<byte>, count: nat, start: nat, i: nat)
    requires Reading(bytes, chunkSize, buf, [], count, start, i) && i < |bytes| && count < chunkSize
    ensures Reading(bytes, chunkSize, buf[count := bytes[i]], [], count + 1, start, i + 1)
  {
  }

  /** A byte other than '\n' read once the buffer is full goes into the overflow. */
  lemma OverflowStep(bytes: seq<byte>, chunkSize: nat, buf: seq<byte>, additionalBuffer: seq<byte>, count: nat, start: nat, i: nat)
    requires Reading(bytes, chunkSize, buf, additionalBuffer, count, start, i) && i < |bytes|
    requires count >= chunkSize && bytes[i] != NewLine
    ensures Reading(bytes, chunkSize, buf, additionalBuffer + [bytes[i]], count + 1, start, i + 1)
  {
  }

  /** A '\n' read once the buffer is full completes the chunk held by the buffers, and reading starts afresh. */
  lemma {:induction false} FlushStep(bytes: seq<byte>, chunkSize: nat, buf: seq<byte>, additionalBuffer: seq<byte>, count: nat, start: nat, i: nat)
    requires Reading(bytes, chunkSize, buf, additionalBuffer, count, start, i) && i < |bytes|
    requires count >= chunkSize && bytes[i] == NewLine
    ensures buf + (additionalBuffer + [bytes[i]]) == bytes[start..i + 1]
    ensures forall j :: start + chunkSize <= j < i ==> bytes[j] != NewLine
    ensures Reading(bytes, chunkSize, buf, [], 0, i + 1, i + 1)
  {
    assert buf == bytes[start..start + chunkSize];
    assert additionalBuffer + [bytes[i]] == bytes[start + chunkSize..i + 1];
    assert bytes[start..i + 1] == bytes[start..start + chunkSize] + bytes[start + chunkSize..i + 1];
  }

  /** At the end of the input the last chunk is in the buffers; if it fits, the buffer alone holds it. */
  lemma ReadingDone(bytes: seq<byte>, chunkSize: nat, buf: seq<byte>, additionalBuffer: seq<byte>, count: nat, start: nat)
    requires Reading(bytes, chunkSize, buf, additionalBuffer, count, start, |bytes|)
    ensures forall j :: start + chunkSize <= j < |bytes| ==> bytes[j] != NewLine
    ensures count <= chunkSize ==> additionalBuffer == [] && buf[..count] == bytes[start..]
  {
  }

  class FileSplitter {
    /** Path.Combine(directory of the input, input name without extension). */
    const basePath: string
    /** ChunkSize, 8 MiB in the program. */
    const chunkSize: nat
    /** _numberOfChunks: how many chunk files this splitter has created. */
    var numberOfChunks: nat
    /** The chunk files written so far, by name. */
    var disk: map<string, seq<byte>>

    constructor (basePath: string, chunkSize: nat, disk: map<string, seq<byte>>)
      requires chunkSize > 0
      ensures this.basePath == basePath && this.chunkSize == chunkSize
      ensures this.disk == disk && numberOfChunks == 0
    {
      this.basePath := basePath;
      this.chunkSize := chunkSize;
      this.disk := disk;
      numberOfChunks := 0;
    }

    /**
     * The local function CreateChunk(count): take the next chunk number,
     * create the file, then write the first `count` bytes of the buffer and
     * the overflow. Writing more than the buffer holds throws after the file
     * was created empty.
     */
    method CreateChunk(buffer: array<byte>, count: nat, additionalBuffer: seq<byte>) returns (name: string, ok: bool)
      modifies this`numberOfChunks, this`disk
      ensures numberOfChunks == old(numberOfChunks) + 1
      ensures name == ChunkName(basePath, numberOfChunks)
      ensures ok <==> count <= buffer.Length
      ensures disk == old(disk)[name := if ok then buffer[..count] + additionalBuffer else []]
    {
      numberOfChunks := numberOfChunks + 1;
      name := ChunkName(basePath, numberOfChunks);
      disk := disk[name := []];
      if count > buffer.Length {
        ok := false;
        return;
      }
      disk := disk[name := buffer[..count] + additionalBuffer];
      ok := true;
    }

    /** chunksFilesNames.Add(CreateChunk(count)) when the write succeeds. */
    method AddChunk(buffer: array<byte>, count: nat, additionalBuffer: seq<byte>, names: seq<string>,
                    ghost disk0: map<string, seq<byte>>, ghost first: nat, ghost emitted: seq<seq<byte>>, ghost chunk: seq<byte>)
      returns (names': seq<string>)
      requires Emitted(basePath, disk0, first, names, emitted, numberOfChunks, disk)
      requires count <= buffer.Length && buffer[..count] + additionalBuffer == chunk
      modifies this`numberOfChunks, this`disk
      ensures Emitted(basePath, disk0, first, names', emitted + [chunk], numberOfChunks, disk)
    {
      var name, _ := CreateChunk(buffer, count, additionalBuffer);
      ChunkNamesAppend(basePath, first, |emitted|);
      WrittenAppend(disk0, names, emitted, name, chunk);
      names' := names + [name];
    }

    /**
     * A '\n' read once the buffer is full: the buffer and the overflow with
     * the '\n' appended are written as the next chunk, which is exactly the
     * next chunk of the chunking.
     */
    method CloseChunk(ghost bytes: seq<byte>, buffer: array<byte>, additionalBuffer: seq<byte>, count: nat, names: seq<string>,
                      ghost disk0: map<string, seq<byte>>, ghost first: nat, ghost emitted: seq<seq<byte>>, ghost start: nat, i: nat)
      returns (names': seq<string>, ghost emitted': seq<seq<byte>>, ghost start': nat)
      requires buffer.Length == chunkSize
      requires Reading(bytes, chunkSize, buffer[..], additionalBuffer, count, start, i) && i < |bytes|
      requires count >= chunkSize && bytes[i] == NewLine
      requires ChunkedUpTo(bytes, chunkSize, emitted, start)
      requires Emitted(basePath, disk0, first, names, emitted, numberOfChunks, disk)
      modifies this`numberOfChunks, this`disk
      ensures emitted' == emitted + [bytes[start..i + 1]] && start' == i + 1
      ensures ChunkedUpTo(bytes, chunkSize, emitted', start')
      ensures Emitted(basePath, disk0, first, names', emitted', numberOfChunks, disk)
      ensures Reading(bytes, chunkSize, buffer[..], [], 0, start', start')
    {
      emitted', start' := emitted + [bytes[start..i + 1]], i + 1;
      FlushStep(bytes, chunkSize, buffer[..], additionalBuffer, count, start, i);
      FlushClosesChunk(bytes, chunkSize, emitted, start, i);
      assert buffer[..buffer.Length] == buffer[..];
      names' := AddChunk(buffer, buffer.Length, additionalBuffer + [NewLine], names, disk0, first, emitted, bytes[start..i + 1]);
    }

    /**
     * The read loop of SplitFileToChunks: fill the buffer, then the overflow,
     * and close a chunk at the first '\n' once the buffer is full. On exit the
     * chunks before `start` are written and the rest of the input, which holds
     * no '\n' past the threshold, is still in the buffer and the overflow.
     */
    method ReadChunks(input: seq<char>, buffer: array<byte>)
      returns (names: seq<string>, additionalBuffer: seq<byte>, count: nat, ghost emitted: seq<seq<byte>>, ghost start: nat)
      requires chunkSize > 0 && buffer.Length == chunkSize
      modifies this`numberOfChunks, this`disk, buffer
      ensures start <= |input| && count == |input| - start
      ensures ChunkedUpTo(Bytes(input), chunkSize, emitted, start)
      ensures Emitted(basePath, old(disk), old(numberOfChunks), names, emitted, numberOfChunks, disk)
      ensures Reading(Bytes(input), chunkSize, buffer[..], additionalBuffer, count, start, |input|)
    {
      ghost var bytes := Bytes(input);
      ghost var first := numberOfChunks;
      emitted := [];
      start := 0;
      names := [];
      additionalBuffer := [];
      count := 0;
      var i := 0;
      assert bytes[0..] == bytes;
      while i < |input|
        invariant i <= |input|
        invariant Reading(bytes, chunkSize, buffer[..], additionalBuffer, count, start, i)
        invariant ChunkedUpTo(bytes, chunkSize, emitted, start)
        invariant Emitted(basePath, old(disk), first, names, emitted, numberOfChunks, disk)
      {
        var nextChar := ToByte(input[i]);
        BytesAt(input, i);
        if count >= chunkSize && nextChar == NewLine {
          names, emitted, start := CloseChunk(bytes, buffer, additionalBuffer, count, names, old(disk), first, emitted, start, i);
          additionalBuffer := [];
          count := 0;
        } else if count >= chunkSize {
          OverflowStep(bytes, chunkSize, buffer[..], additionalBuffer, count, start, i);
          additionalBuffer := additionalBuffer + [nextChar];
          count := count + 1;
        } else {
          FillStep(bytes, chunkSize, buffer[..], count, start, i);
          buffer[count] := nextChar;
          count := count + 1;
        }
        i := i + 1;
      }
    }

    /**
     * SplitFileToChunks over the decoded characters of the input file. On
     * success it returns the chunk names in creation order and has written
     * exactly the chunks of `Chunking`; it fails exactly when the final chunk
     * is longer than the buffer.
     */
    method SplitFileToChunks(input: seq<char>) returns (r: Result<seq<string>, SplitError>)
      requires chunkSize > 0
      modifies this
      ensures numberOfChunks == old(numberOfChunks) + |Chunking(Bytes(input), chunkSize)|
      ensures var chunks := Chunking(Bytes(input), chunkSize);
        r.Ok? <==> |chunks[|chunks| - 1]| <= chunkSize
      ensures r.Ok? ==> r.value == ChunkNames(basePath, old(numberOfChunks), |Chunking(Bytes(input), chunkSize)|)
      ensures r.Ok? ==> disk == Written(old(disk), r.value, Chunking(Bytes(input), chunkSize))
      ensures var chunks := Chunking(Bytes(input), chunkSize);
        r.Err? ==> disk == Written(old(disk), ChunkNames(basePath, old(numberOfChunks), |chunks|),
                                   chunks[..|chunks| - 1] + [[]])
    {
      ghost var bytes := Bytes(input);
      ghost var first := numberOfChunks;
      var buffer := new byte[chunkSize];
      var chunksFilesNames, additionalBuffer, bytesReadInCurrentChunk, emitted, start := ReadChunks(input, buffer);
      ReadingDone(bytes, chunkSize, buffer[..], additionalBuffer, bytesReadInCurrentChunk, start);

      ChunkingTail(bytes[start..], chunkSize);
      ghost var chunks := emitted + [bytes[start..]];
      assert Chunking(bytes, chunkSize) == chunks;
      assert chunks[..|chunks| - 1] == emitted;
      if buffer.Length > 0 || |additionalBuffer| > 0 {
        if bytesReadInCurrentChunk > buffer.Length {
          var name, _ := CreateChunk(buffer, bytesReadInCurrentChunk, additionalBuffer);
          ChunkNamesAppend(basePath, first, |emitted|);
          WrittenAppend(old(disk), chunksFilesNames, emitted, name, []);
          return Err(WriteBeyondBuffer);
        }
        chunksFilesNames := AddChunk(buffer, bytesReadInCurrentChunk, additionalBuffer, chunksFilesNames, old(disk), first, emitted, bytes[start..]);
      }
      r := Ok(chunksFilesNames);
    }
  }
}
