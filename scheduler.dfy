/**
 * The FilesMerger class of FileSorter/FilesMerger.cs, run on the file map of
 * MergeSchedule: it sorts every chunk file in place, merges the sorted chunks
 * in groups of ChunksInParallel into new chunk files, merges those again
 * while more than ChunksInParallel are left, and merges the last ones into
 * the result file.
 */
module Scheduler {
  import opened Wrappers
  import opened Records
  import opened ChunkSort
  import opened KWayMerge
  import opened MergeLoop
  import opened ChunkNaming
  import opened MergeSchedule

  class FilesMerger {
    /** The result file. */
    const filePath: string
    /** The result file's directory and name without extension, the stem of every generated name. */
    const basePath: string
    const chunksFilesNames: seq<string>
    /** The counter GetNextChunkName advances. */
    var numberOfChunks: nat
    var files: Disk

    ghost predicate Valid()
    {
      Apart(filePath, basePath, chunksFilesNames)
    }

    /** The counter starts at the number of chunks, so generated names follow the chunks' own. */
    constructor (filePath: string, basePath: string, chunksFilesNames: seq<string>, files: Disk)
      requires Apart(filePath, basePath, chunksFilesNames)
      ensures this.filePath == filePath && this.basePath == basePath && this.chunksFilesNames == chunksFilesNames
      ensures this.files == files && numberOfChunks == |chunksFilesNames|
      ensures Valid()
    {
      this.filePath := filePath;
      this.basePath := basePath;
      this.chunksFilesNames := chunksFilesNames;
      this.files := files;
      numberOfChunks := |chunksFilesNames|;
    }

    method GetNextChunkName() returns (name: string)
      modifies this`numberOfChunks
      ensures numberOfChunks == old(numberOfChunks) + 1
      ensures name == ChunkName(basePath, numberOfChunks)
    {
      numberOfChunks := numberOfChunks + 1;
      name := ChunkName(basePath, numberOfChunks);
    }

    /** The body of SortChunkAsync: the chunk file rewritten sorted, or the exception it throws. */
    method SortChunkFile(chunkFileName: string) returns (failure: Option<RunError>)
      modifies this`files
      ensures failure.None? <==> chunkFileName in old(files) && SortChunk(old(files)[chunkFileName]).Ok?
      ensures failure.None? ==> files == old(files)[chunkFileName := SortChunk(old(files)[chunkFileName]).value]
      ensures failure.Some? ==> files == old(files)
    {
      if chunkFileName !in files {
        return Some(MissingFile(chunkFileName));
      }
      match SortChunk(files[chunkFileName]) {
        case Err(e) =>
          failure := Some(SortFailed(chunkFileName, e));
        case Ok(lines) =>
          files := files[chunkFileName := lines];
          failure := None;
      }
    }

    /** The sorting tasks of one group, started together and waited for with Task.WaitAll. */
    method SortGroup(group: seq<string>) returns (failure: Option<RunError>)
      requires forall i, j :: 0 <= i < j < |group| ==> group[i] != group[j]
      modifies this`files
      ensures failure.None? <==> forall c :: c in group ==> c in old(files) && SortChunk(old(files)[c]).Ok?
      ensures failure.None? ==> files == SortedAt(old(files), group)
    {
      var j := 0;
      while j < |group|
        invariant j <= |group|
        invariant forall c :: c in group[..j] ==> c in old(files) && SortChunk(old(files)[c]).Ok?
        invariant files == SortedAt(old(files), group[..j])
      {
        assert group[j] !in group[..j];
        SortedAtKeeps(old(files), group[..j]);
        failure := SortChunkFile(group[j]);
        if failure.Some? {
          return;
        }
        assert group[..j + 1][..j] == group[..j];
        j := j + 1;
      }
      assert group[..j] == group;
      failure := None;
    }

    /** The body of MergeChunksAsync, run on the merger's files. */
    method MergeChunks(chunksFilesNames: seq<string>, resultFileName: string) returns (written: seq<string>, failure: Option<RunError>)
      requires resultFileName !in chunksFilesNames
      modifies this`files
      ensures failure.None? <==> Mergeable(old(files), chunksFilesNames)
      ensures failure.None? ==> files == Replaced(old(files), chunksFilesNames, resultFileName, written)
      ensures failure.None? ==> multiset(written) == TotalBag(Contents(old(files), chunksFilesNames)) && Canonical(written)
      ensures failure.None? && AllSorted(Contents(old(files), chunksFilesNames)) ==> SortedLines(written)
      ensures failure.Some? ==> files == old(files)[resultFileName := written]
    {
      files, written, failure := MergeFiles(files, chunksFilesNames, resultFileName);
    }

    /** One round of the first stage: sort group `i`, then merge it into the next generated name. */
    method FirstLevelGroup(ghost files0: Disk, ghost count0: nat, i: nat, tasks: seq<string>,
                           ghost ids: seq<nat>, ghost bags: seq<multiset<string>>)
      returns (tasks': seq<string>, failure: Option<RunError>, ghost ids': seq<nat>, ghost bags': seq<multiset<string>>)
      requires Valid() && |chunksFilesNames| >= 2
      requires i < CeilDiv(|chunksFilesNames|, ChunksInParallel)
      requires Progress(basePath, chunksFilesNames, files0, count0, Done(|chunksFilesNames|, ChunksInParallel, i),
                        files, numberOfChunks, tasks, ids, bags)
      modifies this`files, this`numberOfChunks
      ensures failure.None? ==> |tasks'| == |tasks| + 1
      ensures failure.None? ==> Progress(basePath, chunksFilesNames, files0, count0,
                                         Done(|chunksFilesNames|, ChunksInParallel, i + 1),
                                         files, numberOfChunks, tasks', ids', bags')
      ensures failure.Some? ==> !Runnable(chunksFilesNames, files0)
    {
      var group := Group(chunksFilesNames, ChunksInParallel, i);
      ghost var d, e := Done(|chunksFilesNames|, ChunksInParallel, i), Done(|chunksFilesNames|, ChunksInParallel, i + 1);
      FirstLevelBefore(filePath, basePath, chunksFilesNames, files0, count0, files, numberOfChunks, tasks, ids, bags,
                       ChunksInParallel, i);
      ghost var files1, count1 := files, numberOfChunks;
      failure := SortGroup(group);
      if failure.Some? {
        FirstLevelSortFails(chunksFilesNames, files0, group, files1);
        return tasks, failure, ids, bags;
      }
      var name := GetNextChunkName();
      GeneratedNotChunk(filePath, basePath, chunksFilesNames, numberOfChunks, d, e);
      ghost var sorted := files;
      var written;
      written, failure := MergeChunks(group, name);
      if failure.Some? {
        FirstLevelMergeFails(chunksFilesNames, files0, group, files1);
        return tasks, failure, ids, bags;
      }
      tasks', ids', bags' := tasks + [name], ids + [numberOfChunks], bags + [ChunkBag(files0, group)];
      FirstLevelAfter(filePath, basePath, chunksFilesNames, files0, count0, d, e, files1, count1, tasks, ids, bags,
                      sorted, numberOfChunks, written, files, tasks', ids', bags');
    }

    /** The first stage: every group of chunks sorted and merged. */
    method FirstLevel(ghost files0: Disk) returns (tasks: seq<string>, failure: Option<RunError>,
                                                   ghost ids: seq<nat>, ghost bags: seq<multiset<string>>)
      requires Valid() && |chunksFilesNames| >= 2
      requires files == files0 && numberOfChunks >= |chunksFilesNames|
      modifies this`files, this`numberOfChunks
      ensures failure.None? ==> |tasks| == CeilDiv(|chunksFilesNames|, ChunksInParallel)
      ensures failure.None? ==> Progress(basePath, chunksFilesNames, files0, old(numberOfChunks), |chunksFilesNames|,
                                         files, numberOfChunks, tasks, ids, bags)
      ensures failure.Some? ==> !Runnable(chunksFilesNames, files0)
    {
      ghost var count0 := numberOfChunks;
      var numberOfInitRounds := CeilDiv(|chunksFilesNames|, ChunksInParallel);
      tasks, ids, bags := [], [], [];
      ProgressStart(filePath, basePath, chunksFilesNames, files0, count0);
      var i := 0;
      while i < numberOfInitRounds
        invariant i <= numberOfInitRounds && |tasks| == i
        invariant Progress(basePath, chunksFilesNames, files0, count0, Done(|chunksFilesNames|, ChunksInParallel, i),
                           files, numberOfChunks, tasks, ids, bags)
      {
        tasks, failure, ids, bags := FirstLevelGroup(files0, count0, i, tasks, ids, bags);
        if failure.Some? {
          return;
        }
        i := i + 1;
      }
      DoneAll(|chunksFilesNames|, ChunksInParallel);
      failure := None;
    }

    /** One merge of the reduction stage: the oldest results, `group`, removed, merged, and the new one added. */
    method MergeGroup(ghost files0: Disk, ghost count0: nat, group: seq<string>, tasks: seq<string>,
                      ghost ids: seq<nat>, ghost bags: seq<multiset<string>>)
      returns (tasks': seq<string>, ghost ids': seq<nat>, ghost bags': seq<multiset<string>>)
      requires Valid()
      requires Progress(basePath, chunksFilesNames, files0, count0, |chunksFilesNames|, files, numberOfChunks, tasks, ids, bags)
      requires 1 <= |group| <= |tasks| && group == tasks[..|group|]
      modifies this`files, this`numberOfChunks
      ensures |tasks'| == |tasks| - |group| + 1 && tasks'[..|tasks| - |group|] == tasks[|group|..]
      ensures Progress(basePath, chunksFilesNames, files0, count0, |chunksFilesNames|, files, numberOfChunks, tasks', ids', bags')
    {
      var m := |group|;
      ghost var files1, count1 := files, numberOfChunks;
      tasks' := RemoveAll(tasks, group);
      var name := GetNextChunkName();
      ReduceBefore(filePath, basePath, chunksFilesNames, files0, count0, files1, count1, tasks, ids, bags, group, numberOfChunks);
      var written, failure := MergeChunks(group, name);
      assert failure.None?;
      tasks' := tasks' + [name];
      ids', bags' := ids[m..] + [numberOfChunks], bags[m..] + [SumBags(bags[..m])];
      ReduceAfter(filePath, basePath, chunksFilesNames, files0, count0, files1, count1, tasks, ids, bags, group,
                  numberOfChunks, written, files, tasks', ids', bags');
    }

    /**
     * Round `i` of a reduction pass over the `completed` results: the round's
     * group is the oldest tasks, and after its merge the rest of the pass's
     * results are still in front.
     */
    method MergeRound(ghost files0: Disk, ghost count0: nat, completed: seq<string>, i: nat, tasks: seq<string>,
                      ghost ids: seq<nat>, ghost bags: seq<multiset<string>>)
      returns (tasks': seq<string>, ghost ids': seq<nat>, ghost bags': seq<multiset<string>>)
      requires Valid() && i < CeilDiv(|completed|, ChunksInParallel)
      requires InPass(completed, ChunksInParallel, i, tasks)
      requires Progress(basePath, chunksFilesNames, files0, count0, |chunksFilesNames|, files, numberOfChunks, tasks, ids, bags)
      modifies this`files, this`numberOfChunks
      ensures InPass(completed, ChunksInParallel, i + 1, tasks')
      ensures Progress(basePath, chunksFilesNames, files0, count0, |chunksFilesNames|, files, numberOfChunks, tasks', ids', bags')
    {
      var group := Group(completed, ChunksInParallel, i);
      ReduceGroupFront(completed, tasks, ChunksInParallel, i);
      tasks', ids', bags' := MergeGroup(files0, count0, group, tasks, ids, bags);
      ReduceGroupNext(completed, tasks, tasks', ChunksInParallel, i);
    }

    /**
     * One pass of the reduction stage: the completed results, in the order
     * they were added, merged in groups of ChunksInParallel.
     */
    method ReducePass(ghost files0: Disk, ghost count0: nat, completed: seq<string>,
                      ghost ids0: seq<nat>, ghost bags0: seq<multiset<string>>)
      returns (tasks: seq<string>, ghost ids: seq<nat>, ghost bags: seq<multiset<string>>)
      requires Valid()
      requires Progress(basePath, chunksFilesNames, files0, count0, |chunksFilesNames|, files, numberOfChunks, completed, ids0, bags0)
      modifies this`files, this`numberOfChunks
      ensures |tasks| == CeilDiv(|completed|, ChunksInParallel)
      ensures Progress(basePath, chunksFilesNames, files0, count0, |chunksFilesNames|, files, numberOfChunks, tasks, ids, bags)
    {
      tasks, ids, bags := completed, ids0, bags0;
      var numberOfRounds := CeilDiv(|completed|, ChunksInParallel);
      var i := 0;
      InPassStart(completed, ChunksInParallel);
      while i < numberOfRounds
        invariant i <= numberOfRounds && InPass(completed, ChunksInParallel, i, tasks)
        invariant Progress(basePath, chunksFilesNames, files0, count0, |chunksFilesNames|, files, numberOfChunks, tasks, ids, bags)
      {
        tasks, ids, bags := MergeRound(files0, count0, completed, i, tasks, ids, bags);
        i := i + 1;
      }
      InPassEnd(completed, ChunksInParallel, tasks);
    }

    /** The reduction stage: while more than ChunksInParallel results are left, merge them in groups. */
    method Reduce(ghost files0: Disk, ghost count0: nat, tasks0: seq<string>,
                  ghost ids0: seq<nat>, ghost bags0: seq<multiset<string>>)
      returns (tasks: seq<string>, ghost ids: seq<nat>, ghost bags: seq<multiset<string>>)
      requires Valid() && 1 <= |tasks0|
      requires Progress(basePath, chunksFilesNames, files0, count0, |chunksFilesNames|, files, numberOfChunks, tasks0, ids0, bags0)
      modifies this`files, this`numberOfChunks
      ensures 1 <= |tasks| <= ChunksInParallel
      ensures Progress(basePath, chunksFilesNames, files0, count0, |chunksFilesNames|, files, numberOfChunks, tasks, ids, bags)
    {
      tasks, ids, bags := tasks0, ids0, bags0;
      while |tasks| > ChunksInParallel
        invariant 1 <= |tasks|
        invariant Progress(basePath, chunksFilesNames, files0, count0, |chunksFilesNames|, files, numberOfChunks, tasks, ids, bags)
        decreases |tasks|
      {
        // In a sequential run every merge has completed by now.
        CeilDivShrinks(|tasks|, ChunksInParallel);
        tasks, ids, bags := ReducePass(files0, count0, tasks, ids, bags);
      }
    }

    /** The case of one chunk: it is sorted, then moved onto the result file. */
    method SortSingle() returns (failure: Option<RunError>)
      requires Valid() && |chunksFilesNames| == 1
      modifies this`files
      ensures failure.None? <==> Runnable(chunksFilesNames, old(files))
      ensures failure.None? ==>
                SortChunk(Concat(Contents(old(files), chunksFilesNames))).Ok?
                && filePath in files
                && files[filePath] == SortChunk(Concat(Contents(old(files), chunksFilesNames))).value
      ensures failure.None? ==> Cleaned(basePath, chunksFilesNames, filePath, old(files), numberOfChunks, files, numberOfChunks)
    {
      var c0 := chunksFilesNames[0];
      ghost var files0 := files;
      failure := SortChunkFile(c0);
      if failure.Some? {
        return;
      }
      // File.Move with overwrite
      files := (files - {c0})[filePath := files[c0]];
      SingleResult(chunksFilesNames, files0);
      SingleCleaned(filePath, basePath, chunksFilesNames, files0, numberOfChunks, files, files[filePath]);
    }

    /** The last merge: the outstanding results merged into the result file. */
    method LastMerge(ghost files0: Disk, ghost count0: nat, tasks: seq<string>,
                     ghost ids: seq<nat>, ghost bags: seq<multiset<string>>)
      requires Valid() && |chunksFilesNames| >= 2 && 1 <= |tasks|
      requires Progress(basePath, chunksFilesNames, files0, count0, |chunksFilesNames|, files, numberOfChunks, tasks, ids, bags)
      modifies this`files
      ensures Runnable(chunksFilesNames, files0)
      ensures SortChunk(Concat(Contents(files0, chunksFilesNames))).Ok?
      ensures filePath in files && files[filePath] == SortChunk(Concat(Contents(files0, chunksFilesNames))).value
      ensures Cleaned(basePath, chunksFilesNames, filePath, files0, count0, files, numberOfChunks)
    {
      ghost var files1 := files;
      FinalBefore(filePath, basePath, chunksFilesNames, files0, count0, files1, numberOfChunks, tasks, ids, bags);
      var written, mergeFailure := MergeChunks(tasks, filePath);
      assert mergeFailure.None?;
      FinalRunnable(chunksFilesNames, files0);
      FinalMerged(chunksFilesNames, files0, files1, tasks, bags, written);
      FinalWritten(filePath, basePath, chunksFilesNames, files0, count0, files1, numberOfChunks, tasks, ids, written, files);
    }

    /** The case of two or more chunks: the first stage, the reduction stage, and the last merge into the result file. */
    method SortAndMergeMany() returns (failure: Option<RunError>)
      requires Valid() && |chunksFilesNames| >= 2 && numberOfChunks >= |chunksFilesNames|
      modifies this`files, this`numberOfChunks
      ensures failure.None? <==> Runnable(chunksFilesNames, old(files))
      ensures failure.None? ==>
                SortChunk(Concat(Contents(old(files), chunksFilesNames))).Ok?
                && filePath in files
                && files[filePath] == SortChunk(Concat(Contents(old(files), chunksFilesNames))).value
      ensures failure.None? ==>
                Cleaned(basePath, chunksFilesNames, filePath, old(files), old(numberOfChunks), files, numberOfChunks)
    {
      ghost var files0, count0 := files, numberOfChunks;
      var tasks;
      ghost var ids, bags;
      tasks, failure, ids, bags := FirstLevel(files0);
      if failure.Some? {
        return;
      }
      CeilDivAtMost(|chunksFilesNames|, ChunksInParallel);
      tasks, ids, bags := Reduce(files0, count0, tasks, ids, bags);
      LastMerge(files0, count0, tasks, ids, bags);
    }

    /**
     * No chunks: nothing happens. One chunk: it is sorted and moved onto the
     * result file. More: the result file receives exactly the lines sorting
     * all chunks' lines at once would write, every chunk and every
     * intermediate file is gone, and nothing else changed.
     */
    method SortAndMergeFiles() returns (failure: Option<RunError>)
      requires Valid() && numberOfChunks >= |chunksFilesNames|
      modifies this`files, this`numberOfChunks
      ensures |chunksFilesNames| == 0 ==> failure.None? && files == old(files) && numberOfChunks == old(numberOfChunks)
      ensures |chunksFilesNames| >= 1 ==> (failure.None? <==> Runnable(chunksFilesNames, old(files)))
      ensures |chunksFilesNames| >= 1 && failure.None? ==>
                SortChunk(Concat(Contents(old(files), chunksFilesNames))).Ok?
                && filePath in files
                && files[filePath] == SortChunk(Concat(Contents(old(files), chunksFilesNames))).value
      ensures |chunksFilesNames| >= 1 && failure.None? ==>
                Cleaned(basePath, chunksFilesNames, filePath, old(files), old(numberOfChunks), files, numberOfChunks)
    {
      if |chunksFilesNames| == 0 {
        failure := None;
      } else if |chunksFilesNames| == 1 {
        failure := SortSingle();
      } else {
        failure := SortAndMergeMany();
      }
    }
  }
}
