/**
 * Chunk file names, built the same way by FileSplitter.CreateChunk and
 * FilesMerger.GetNextChunkName: `<dir>/<name>_<k>_chunk.txt`, where
 * `<dir>/<name>` (Path.Combine of the directory and the file name without
 * extension) is given as `basePath`.
 */
module ChunkNaming {
  import opened Records

  const ChunkSuffix: string := "_chunk.txt"

  function ChunkName(basePath: string, k: nat): string
  {
    basePath + "_" + NatToString(k) + ChunkSuffix
  }

  /** The `count` names that follow counter value `from`: from+1, ..., from+count. */
  function ChunkNames(basePath: string, from: nat, count: nat): (names: seq<string>)
    ensures |names| == count
  {
    seq(count, j requires 0 <= j < count => ChunkName(basePath, from + j + 1))
  }

  /** Two counter values give the same name only if they are equal. */
  lemma ChunkNameInjective(basePath: string, j: nat, k: nat)
    ensures ChunkName(basePath, j) == ChunkName(basePath, k) <==> j == k
  {
    if ChunkName(basePath, j) == ChunkName(basePath, k) {
      var s := ChunkName(basePath, j);
      var sj, sk := NatToString(j), NatToString(k);
      var lo := |basePath| + 1;
      assert |sj| == |sk|;
      assert s[lo..lo + |sj|] == sj;
      assert ChunkName(basePath, k)[lo..lo + |sk|] == sk;
      NatToStringInjective(j, k);
    }
  }

  /** Names from distinct counter values are pairwise distinct. */
  lemma ChunkNamesDistinct(basePath: string, from: nat, count: nat)
    ensures forall i, j :: 0 <= i < j < count ==> ChunkNames(basePath, from, count)[i] != ChunkNames(basePath, from, count)[j]
  {
    forall i, j | 0 <= i < j < count
      ensures ChunkNames(basePath, from, count)[i] != ChunkNames(basePath, from, count)[j]
    {
      ChunkNameInjective(basePath, from + i + 1, from + j + 1);
    }
  }
}
