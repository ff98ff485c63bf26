# FileSorter in Dafny

FileSorter sorts a large text file of lines of the form `<number>. <text>`.
The order is the text, compared ordinally, and then the number. The program
works in two phases:

1. **Splitting.** `FileSplitter` reads the input one character at a time,
   narrows each one to a byte and cuts the stream into chunk files. A chunk
   is closed at the first `'\n'` that comes after the chunk size has been
   reached. The chunk files are named `<stem>_<k>_chunk.txt`.
2. **Sorting and merging.** `FilesMerger` does the rest:
   - it sorts every chunk file in place (`SortChunkAsync`);
   - it k-way merges the sorted chunks, in groups of `ChunksInParallel` = 16,
     into new chunk files named by the merger's own counter, which starts at
     the number of chunks;
   - while more than 16 merge results are outstanding, it merges those in
     groups again;
   - it merges the last ones into the result file. A run with a single chunk
     only sorts that chunk and moves it onto the result file.

   Every merge (`MergeChunksAsync`) keeps a sorted frontier of one record per
   input. It writes the smallest record, reads the next record of the same
   input, and puts that record back in place with `List.BinarySearch`. At
   the end it deletes its inputs.

The model is split into modules that follow the program:

- **`Records`** models `SortingItem`: `int.Parse` and `Int32.ToString` over
  32-bit integers, `string.Split(". ")`, the two constructors, and the
  `Number + ". " + Text` form that the sort and the merge write.
- **`Comparer`** models `CustomSorter.Compare`: an ordinal compare of the
  texts, then the numbers.
- **`ChunkNaming`** models the chunk names that the splitter and the merger
  both produce.
- **`Splitter`** models the class `FileSplitter`. Its byte loop runs over a
  real `array` buffer and is proved to write exactly the chunks of the pure
  function `Chunking`.
- **`ChunkSort`** models the body of `SortChunkAsync` as a function:
  - the empty lines are filtered out;
  - every line is parsed;
  - the items are sorted by an insertion sort (a sorted permutation);
  - the items are written back.
- **`KWayMerge`** and **`MergeLoop`** model the loop of `MergeChunksAsync`
  over the line sequences of its inputs. These two modules hold the binary
  search, the reinsertion, and the invariant of the frontier.
- **`MergeSchedule`** and **`Scheduler`** model the class `FilesMerger`. Its
  file system is a map from file name to lines. The scheduler is proved
  correct from start to end:
  - when every chunk can be sorted (and, with two or more chunks, none sorts
    to nothing), the result file holds exactly the lines that sorting all
    the chunks' lines at once would write;
  - every chunk and every intermediate file is gone;
  - no other file changed.

## Model

| member | source | states |
|---|---|---|
| Records.NatToStringRoundTrip | FileSorter/SortingItem.cs:37 | reading the decimal digits of a natural number back gives the number |
| Records.NatToStringInjective | FileSorter/FilesMerger.cs:171 | two different numbers are never written as the same digits |
| Records.Int32RoundTrip | FileSorter/FilesMerger.cs:171 | `int.Parse` of the way a 32-bit `Number` is written gives back the same number, negatives and the extremes included |
| Records.SplitJoin | FileSorter/SortingItem.cs:35 | the pieces of `Split(". ")`, joined with the separator, give back the line |
| Records.SplitCountIff | FileSorter/SortingItem.cs:35 | the split yields more than one piece exactly when the line contains `". "` |
| Records.SplitAtFirstSeparator | FileSorter/SortingItem.cs:35 | a line cut at its first separator splits into that head followed by the pieces of the rest |
| Records.ParseOkIff | FileSorter/SortingItem.cs:33-40 | the constructor succeeds exactly when the line contains `". "` and the piece before it parses as a 32-bit integer; without a separator it throws |
| Records.ParseAtOnlySetsReaderIndex | FileSorter/SortingItem.cs:24-26 | the one-argument constructor is the two-argument one at reader 0: same success, same number and text |
| Records.ParseDropsAfterSecondSeparator | FileSorter/SortingItem.cs:38 | `Text` is only the piece between the first and the second separator, and the rest of the line is dropped |
| Records.ParseOneSeparator | FileSorter/SortingItem.cs:35-38 | on a line with one separator, `Number` is `int.Parse` of the piece before it (leading zeros and a sign accepted) and `Text` is everything after it |
| Records.ParsedTextHasNoSeparator | FileSorter/SortingItem.cs:38 | a parsed text never contains `". "` |
| Records.EmptyLineFails | FileSorter/SortingItem.cs:37 | an empty line makes `int.Parse` throw a format error |
| Records.ParseSerialize | FileSorter/FilesMerger.cs:171 | an item written as `Number + ". " + Text` and read back is the same item, at the reader it is read by, whenever its text holds no separator |
| Comparer.CompareOrdinalZeroIff | FileSorter/CustomSorter.cs:7 | the ordinal comparison is zero exactly for equal strings |
| Comparer.CompareOrdinalAntisymmetric | FileSorter/CustomSorter.cs:7 | swapping the arguments of the ordinal comparison negates it |
| Comparer.CompareOrdinalTransitive | FileSorter/CustomSorter.cs:7 | the ordinal comparison is transitive |
| Comparer.CompareOrdinalLessIff | FileSorter/CustomSorter.cs:7 | the ordinal comparison is negative exactly when the first string is a proper prefix of the second or has the smaller character at the first difference |
| Comparer.CompareNumbers | FileSorter/CustomSorter.cs:13 | `Int32.CompareTo` is zero exactly for equal numbers and negative exactly for a smaller one |
| Comparer.CompareWhenTextsDiffer | FileSorter/CustomSorter.cs:7-11 | when the texts differ, the result is the nonzero text comparison |
| Comparer.CompareWhenTextsEqual | FileSorter/CustomSorter.cs:13 | when the texts are equal, the numbers decide |
| Comparer.CompareZeroIff | FileSorter/CustomSorter.cs:5-14 | two items compare equal exactly when they have the same text and the same number |
| Comparer.CompareIgnoresReaderIndex | FileSorter/CustomSorter.cs:5-14 | the reader index plays no part in the order |
| Comparer.CompareAntisymmetric | FileSorter/CustomSorter.cs:5-14 | swapping the items negates the comparison |
| Comparer.LeTotal | FileSorter/CustomSorter.cs:5-14 | any two items are ordered one way or the other |
| Comparer.CompareTransitive | FileSorter/CustomSorter.cs:5-14 | the comparer is transitive, so it is a total preorder that sorting can rely on |
| Comparer.InsertKeepsSorted | FileSorter/FilesMerger.cs:206-227 | inserting an item after every smaller one and before every larger one keeps a sorted buffer sorted |
| ChunkNaming.ChunkNameInjective | FileSorter/FilesMerger.cs:155 | two counter values give the same chunk name exactly when they are equal |
| ChunkNaming.ChunkNamesDistinct | FileSorter/FileSplitter.cs:93-96 | the names of consecutive chunks are pairwise different |
| Splitter.BytesKeepsNarrowCharacters | FileSorter/FileSplitter.cs:60 | the cast to a byte keeps every character below 256 unchanged |
| Splitter.ChunkingFlatten | FileSorter/FileSplitter.cs:58-89 | the chunks, concatenated in order, are the input bytes |
| Splitter.ChunkingLineAligned | FileSorter/FileSplitter.cs:63-77 | every chunk but the last holds more than the chunk size and ends at its first `'\n'` past the chunk size; the last holds no `'\n'` past the chunk size |
| Splitter.OverlongTailIsUnterminated | FileSorter/FileSplitter.cs:73-88 | a last chunk longer than the chunk size occurs only when the input does not end with `'\n'` |
| Splitter.ClosedChunkLeavesEmptyTail | FileSorter/FileSplitter.cs:86-89 | input that ends exactly where a chunk closes yields one more, empty, chunk, since the fixed buffer is never empty |
| Splitter.EmptyInputOneEmptyChunk | FileSorter/FileSplitter.cs:86-89 | an empty input yields one empty chunk |
| Splitter.FileSplitter.constructor | FileSorter/FileSplitter.cs:28-32 | a splitter starts with no chunks written and the given stem and chunk size |
| Splitter.FileSplitter.CreateChunk | FileSorter/FileSplitter.cs:91-104 | the counter advances by one; the next chunk name is created with the first `count` bytes of the buffer and the overflow; when `count` exceeds the buffer the file is left empty and the write fails |
| Splitter.FileSplitter.AddChunk | FileSorter/FileSplitter.cs:91-104 | a chunk that fits the buffer is written under the next name and appended to the names returned |
| Splitter.FileSplitter.CloseChunk | FileSorter/FileSplitter.cs:63-72 | a `'\n'` past the chunk size writes the chunk read since the last one closed and resets the loop's buffers |
| Splitter.FileSplitter.ReadChunks | FileSorter/FileSplitter.cs:55-84 | after the read loop, the chunks closed so far are the leading chunks of `Chunking` and have been written under consecutive names, and the buffers hold the rest of the input |
| Splitter.FileSplitter.SplitFileToChunks | FileSorter/FileSplitter.cs:42-109 | the names returned are consecutive chunk names, one per chunk of `Chunking`, and each file holds its chunk; the split fails exactly when the last chunk is longer than the buffer, leaving that chunk's file empty |
| ChunkSort.Insert | FileSorter/FilesMerger.cs:168 | inserting into a sorted list gives a sorted list with one more copy of the item |
| ChunkSort.SortItems | FileSorter/FilesMerger.cs:168 | the sort's result is sorted and a permutation of its input |
| ChunkSort.SortedPermutationUnique | FileSorter/FilesMerger.cs:168 | two sorted permutations of items from one reader are equal, so the instability of `Array.Sort` cannot show |
| ChunkSort.NonEmptyKeepsNonEmpty | FileSorter/FilesMerger.cs:164 | the filter keeps every non-empty line as often as it occurs and drops every empty one |
| ChunkSort.ParseAllOkIff | FileSorter/FilesMerger.cs:165 | parsing the lines succeeds exactly when every line parses, and then gives, line by line, each line's own item |
| ChunkSort.ParseAllSerializeAll | FileSorter/FilesMerger.cs:171 | writing items and parsing the lines back gives the same items |
| ChunkSort.SortChunkOkIff | FileSorter/FilesMerger.cs:158-173 | sorting a chunk succeeds exactly when each of its non-empty lines parses; otherwise it fails with the error of one such line |
| ChunkSort.SortChunkSorted | FileSorter/FilesMerger.cs:158-173 | a sorted chunk is in order, written in canonical form, and holds the items of the chunk's non-empty lines |
| ChunkSort.SortChunkIdempotent | FileSorter/FilesMerger.cs:158-173 | sorting a sorted chunk again leaves it unchanged |
| ChunkSort.SortedLinesUnique | FileSorter/FilesMerger.cs:171 | two sorted canonical files with the same lines are identical |
| KWayMerge.BinarySearch | FileSorter/FilesMerger.cs:221 | `List.BinarySearch` on a sorted list returns the index of an equal item, or the bitwise complement of the point where every earlier item is smaller and every later one larger |
| KWayMerge.Reinsert | FileSorter/FilesMerger.cs:206-228 | the four insertion branches pick a position that keeps the buffer sorted |
| KWayMerge.FrontierBound | FileSorter/FilesMerger.cs:187-230 | the buffer never holds more items than there are readers |
| KWayMerge.MergeFrontierBound | FileSorter/FilesMerger.cs:187-230 | in every state of the merge loop the buffer holds at most one record per reader |
| KWayMerge.EmitAdvance | FileSorter/FilesMerger.cs:193-229 | writing the head and putting back the next record of its reader keeps the merge invariant and shrinks what is left |
| KWayMerge.MergeDone | FileSorter/FilesMerger.cs:191-230 | when the buffer is empty, every input has been read whole, the output holds the inputs' records, each written as `Number + ". " + Text` (the inputs' own lines when the inputs are canonical, as every file the program merges is), it reads back as the records written, and it is sorted when the inputs were |
| MergeLoop.ReadRecord | FileSorter/FilesMerger.cs:201-228 | the next line of a reader either parses into a record, with a position that keeps the buffer sorted, or shows that the reader's file does not parse |
| MergeLoop.FillBuffer | FileSorter/FilesMerger.cs:184-188 | reading the first line of every input either establishes the merge invariant or shows an input that is empty or does not parse |
| MergeLoop.EmitHead | FileSorter/FilesMerger.cs:193-229 | one loop iteration writes the head, keeps the invariant, and shrinks what is left; its failure shows an input that does not parse |
| MergeLoop.ReplaceHead | FileSorter/FilesMerger.cs:204-228 | putting a reader's next record into the buffer advances that reader by one and keeps the invariant |
| MergeLoop.Drain | FileSorter/FilesMerger.cs:191-230 | the loop runs until the buffer is empty and writes the records in the order it takes them, or fails on an input that does not parse |
| MergeLoop.MergeLines | FileSorter/FilesMerger.cs:184-230 | the merge succeeds exactly when every input is non-empty and parses; it then writes the inputs' records, each as `Number + ". " + Text` (the inputs' own lines when the inputs are canonical, as every file the program merges is), and in order when every input was sorted |
| MergeSchedule.CeilDivIff | FileSorter/FilesMerger.cs:70-71 | rounding the quotient toward positive infinity gives a round `i` exactly when `i` groups of 16 do not yet cover every chunk |
| MergeSchedule.CeilDivShrinks | FileSorter/FilesMerger.cs:103-112 | a pass over more than 16 results leaves at least one and fewer than before, so the reduction loop ends |
| MergeSchedule.GroupsPrefix | FileSorter/FilesMerger.cs:76-79 | the first `i` groups of `Skip`/`Take`, concatenated, are the first names of the list |
| MergeSchedule.GroupsPartition | FileSorter/FilesMerger.cs:74-79 | the groups of the first stage cover the chunk list in order, each holding 1 to 16 names |
| MergeSchedule.RemoveKeysOldest | FileSorter/FilesMerger.cs:120-123 | removing the oldest distinct task keys leaves the younger ones in insertion order |
| MergeSchedule.RemoveAll | FileSorter/FilesMerger.cs:120-123 | the removal loop removes every key of the group from the task list |
| MergeSchedule.FirstMissing | FileSorter/FilesMerger.cs:184 | it finds a named file that is missing exactly when there is one |
| MergeSchedule.ConcatSorts | FileSorter/FilesMerger.cs:158-173 | sorting all chunks' lines at once succeeds when each chunk sorts, and writes the lines that sorting each chunk writes |
| MergeSchedule.MergeFiles | FileSorter/FilesMerger.cs:175-243 | the merge succeeds exactly when every input exists, is non-empty and parses; the result file then holds the inputs' records, each written as `Number + ". " + Text` (the inputs' own lines when the inputs are canonical, as every file the program merges is), sorted when the inputs were, and the inputs are deleted; on failure only the result file has changed |
| MergeSchedule.MergeOpened | FileSorter/FilesMerger.cs:184-241 | with every input open, the lines are merged into the created result file and the inputs are deleted, or the merge fails with the inputs kept |
| MergeSchedule.SingleResult | FileSorter/FilesMerger.cs:53-61 | with one chunk, sorting it is sorting all the lines |
| MergeSchedule.SingleCleaned | FileSorter/FilesMerger.cs:59 | moving the sorted chunk onto the result file removes the chunk and changes nothing else |
| MergeSchedule.FinalResult | FileSorter/FilesMerger.cs:139-141 | the last merge writes exactly what sorting all the chunks' lines at once writes |
| MergeSchedule.FinalCleaned | FileSorter/FilesMerger.cs:139-141 | after the last merge, the chunks and every generated file are gone and every other file is as it was |
| Scheduler.FilesMerger.constructor | FileSorter/FilesMerger.cs:31-38 | the counter of generated names starts at the number of chunks |
| Scheduler.FilesMerger.GetNextChunkName | FileSorter/FilesMerger.cs:151-156 | the counter advances by one and the name is built from the new value |
| Scheduler.FilesMerger.SortChunkFile | FileSorter/FilesMerger.cs:158-173 | the chunk file is rewritten with its sorted lines exactly when it exists and sorts; otherwise nothing changes |
| Scheduler.FilesMerger.SortGroup | FileSorter/FilesMerger.cs:82-86 | every chunk of a group is sorted in place exactly when each of them can be |
| Scheduler.FilesMerger.MergeChunks | FileSorter/FilesMerger.cs:90 | a merge run on the merger's files, with the contract of `MergeFiles` |
| Scheduler.FilesMerger.FirstLevelGroup | FileSorter/FilesMerger.cs:76-100 | a first-stage round adds one task whose file is sorted and holds the group's sorted lines, and keeps the scheduler invariant; a failure shows a chunk that cannot be sorted or is empty |
| Scheduler.FilesMerger.FirstLevel | FileSorter/FilesMerger.cs:70-101 | the first stage creates one task per group and every chunk's lines end up in exactly one task |
| Scheduler.FilesMerger.MergeGroup | FileSorter/FilesMerger.cs:114-129 | merging the oldest tasks removes them and appends one new task holding their lines, keeping the invariant |
| Scheduler.FilesMerger.MergeRound | FileSorter/FilesMerger.cs:112-130 | round `i` of a pass merges the `i`-th group of the completed tasks, which are the oldest at that point |
| Scheduler.FilesMerger.ReducePass | FileSorter/FilesMerger.cs:106-131 | one pass turns the completed tasks into one task per group of 16, keeping the invariant |
| Scheduler.FilesMerger.Reduce | FileSorter/FilesMerger.cs:103-132 | the reduction loop ends with between 1 and 16 tasks, keeping the invariant |
| Scheduler.FilesMerger.SortSingle | FileSorter/FilesMerger.cs:53-61 | with one chunk, the result file holds the sorted chunk and the chunk is gone, exactly when it sorts |
| Scheduler.FilesMerger.LastMerge | FileSorter/FilesMerger.cs:135-141 | the result file holds what sorting all the chunks' lines at once writes, and only the chunks and the generated files are gone |
| Scheduler.FilesMerger.SortAndMergeMany | FileSorter/FilesMerger.cs:62-143 | with two or more chunks, the run succeeds exactly when every chunk sorts to something non-empty, and then leaves the sorted result and nothing else new |
| Scheduler.FilesMerger.SortAndMergeFiles | FileSorter/FilesMerger.cs:47-145 | no chunks: nothing changes; otherwise the run succeeds exactly when every chunk sorts and, with two or more chunks, none sorts to nothing; then the result file holds all their lines in sorted, canonical order, and the chunks and intermediate files are gone |

## Left out

- **I/O:**
  - Files, streams and their encodings are left out.
  - The splitter sees the input as a sequence of characters, and writes bytes.
  - The merger sees each file as its sequence of lines, already split by `File.ReadLines`/`ReadLine`.
  - The decoding that links the two views, line terminators such as `"\r\n"` included, is not modelled.
- **Paths:** `Path.GetDirectoryName`, `Path.GetFileNameWithoutExtension` and `Path.Combine` are not modelled. Their result is the parameter `basePath`.
- Scheduler.FilesMerger.constructor: requires `Apart`, that is, the chunk names are distinct and differ from the result file and from every generated name. The program takes this for granted without checking it.
- **`Console.WriteLine` and `Stopwatch`** are left out; they only report timings.
- **Concurrency:** the tasks, `Task.Start`, `ContinueWhenAll`, `WaitAll` and the `IsCompleted` busy-wait are left out. The model runs every task to completion in the order the program creates it. Hence:
  - every outstanding merge counts as completed when the reduction stage looks at it;
  - the parallel schedule's interleavings are not covered.
- **Failures:**
  - A sort or a merge that throws stops the run at once with an error value.
  - The program observes a faulted task only at `Task.WaitAll`, and a faulted merge in the reduction stage counts as completed.
  - The files a failed run leaves behind are not stated beyond the failing step.
- **`Dictionary<string, Task>` enumeration order** is taken to be insertion order. .NET does not promise this after removals.
- Scheduler.FilesMerger.SortGroup: stops at the first chunk whose sort fails. The program starts every sort of the group.
- MergeSchedule.MergeFiles: on failure, states the result file as what the writer had produced when the merge stopped. It does not say how much of it was flushed.
- **`Math.Round` of a `double`** is modelled as exact ceiling division. The two agree for every chunk count a 32-bit array length allows.
- Records.ParseAt: `int.Parse` is reduced to an optional sign and ASCII digits, and `Int32.ToString` (`Records.Int32ToString`, used when a record is written back as `Number + ". " + Text`) to an optional '-' and ASCII digits. Surrounding white space, thousands separators and the current culture's signs and digits are not modelled in either direction.
- MergeLoop.FillBuffer: the null line that the first `ReadLine()!` yields for an empty input is the error `NullLine`, not a crash inside the constructor.
- MergeLoop.FillBuffer: builds the first buffer by sorted insertion (the `Reinsert` rule, a record equal to the head goes in front), not by `List.Sort`; records from different readers that compare equal may therefore stand in another order. For sorted inputs, which is all the program ever merges, the written lines are the same (`ChunkSort.SortedLinesUnique`); for unsorted inputs the output order can differ.
- Comparer.CompareOrdinal: compares Dafny characters, which are Unicode scalar values, while .NET's ordinal comparison compares UTF-16 code units; the two orders agree except between a character above U+FFFF and one in U+E000 to U+FFFF.
- Comparer.CompareOrdinal: returns only the sign of the .NET result. Callers only test the sign, and .NET promises nothing more.
- **Splitter:**
  - Characters are narrowed to a byte by keeping the low eight bits, as the unchecked cast does.
  - The chunk size is a parameter; the program uses 8 MiB.
  - `StreamReader`'s decoding of the input file into characters is not modelled.
- ChunkSort.SortItems: an insertion sort stands in for `Array.Sort`. Every sorted permutation is the same list (`SortedPermutationUnique`), so the choice of algorithm cannot show.
