/**
 * The state behind FilesMerger of FileSorter/FilesMerger.cs: the file map,
 * the groups of each round, the invariant the scheduler keeps, the lemmas
 * that carry it from round to round, and the body of MergeChunksAsync on a
 * file map.
 *
 * The file system is the map from file name to lines. The tasks run one
 * after another in the order the program creates them, so a failure is
 * observed as soon as it happens.
 */
module MergeSchedule {
  import opened Wrappers
  import opened Records
  import opened ChunkSort
  import opened KWayMerge
  import opened MergeLoop
  import opened ChunkNaming

  /** The files the merger reads and writes, by name. */
  type Disk = map<string, seq<string>>

  /** How many chunks one merge takes at most. */
  const ChunksInParallel: nat := 16

  /** Why a run stops: a chunk file that is not there, a chunk whose sort throws, a merge that throws. */
  datatype RunError =
    | MissingFile(name: string)
    | SortFailed(name: string, cause: ParseError)
    | MergeFailed(result: string, reason: MergeError)

  // ---------------------------------------------------------------------------
  // Rounds and groups
  // ---------------------------------------------------------------------------

  /**
   * Math.Round(a / (double)b, MidpointRounding.ToPositiveInfinity): rounding
   * toward positive infinity, that is, the ceiling of the quotient.
   */
  function CeilDiv(a: nat, b: nat): nat
    requires b > 0
  {
    (a + b - 1) / b
  }

  /** `names.Skip(i * p).Take(p)`. */
  function Group<T>(names: seq<T>, p: nat, i: nat): seq<T>
  {
    var rest := if i * p <= |names| then names[i * p..] else [];
    if |rest| <= p then rest else rest[..p]
  }

  /** The groups of the first rounds, one per round. */
  function Groups<T>(names: seq<T>, p: nat): (groups: seq<seq<T>>)
    requires p > 0
    ensures |groups| == CeilDiv(|names|, p)
  {
    seq(CeilDiv(|names|, p), i requires 0 <= i < CeilDiv(|names|, p) => Group(names, p, i))
  }

  /** How many names the first `i` groups take. */
  function Done(n: nat, p: nat, i: nat): nat
  {
    if i * p < n then i * p else n
  }

  function Concat<T>(parts: seq<seq<T>>): seq<T>
  {
    if parts == [] then [] else Concat(parts[..|parts| - 1]) + parts[|parts| - 1]
  }

  lemma MulMono(x: nat, y: nat, b: nat)
    requires x <= y
    ensures x * b <= y * b
  {
    assert y * b == x * b + (y - x) * b;
  }

  /** Round `i` exists exactly when the groups before it leave names over. */
  lemma CeilDivIff(a: nat, b: nat, i: nat)
    requires b > 0
    ensures i < CeilDiv(a, b) <==> i * b < a
  {
    var q, r := (a + b - 1) / b, (a + b - 1) % b;
    assert q * b + r == a + b - 1;
    if i < q {
      MulMono(i + 1, q, b);
      assert (i + 1) * b == i * b + b;
    } else {
      MulMono(q, i, b);
    }
  }

  /** While more than `p` tasks are left, a reduction pass leaves fewer, but at least one. */
  lemma CeilDivShrinks(c: nat, p: nat)
    requires c > p >= 2
    ensures 1 <= CeilDiv(c, p) < c
  {
    CeilDivIff(c, p, 0);
    CeilDivIff(c, p, c - 1);
    MulMono(2, p, c - 1);
  }

  /** At most `p` groups of `p` cover at most `p * p` names. */
  lemma CeilDivAtMost(c: nat, p: nat)
    requires 1 <= c && p >= 1
    ensures CeilDiv(c, p) >= 1
  {
    CeilDivIff(c, p, 0);
  }

  /** Group `i` is the slice between the names taken by the groups before it and after it. */
  lemma GroupSlice<T>(names: seq<T>, p: nat, i: nat)
    requires p > 0
    ensures Done(|names|, p, i) <= Done(|names|, p, i + 1) <= |names|
    ensures Group(names, p, i) == names[Done(|names|, p, i)..Done(|names|, p, i + 1)]
  {
    assert (i + 1) * p == i * p + p;
  }

  /** A group of a round that exists has between one and `p` names. */
  lemma GroupSize<T>(names: seq<T>, p: nat, i: nat)
    requires p > 0 && i < CeilDiv(|names|, p)
    ensures Done(|names|, p, i) == i * p
    ensures 1 <= |Group(names, p, i)| <= p
  {
    CeilDivIff(|names|, p, i);
    GroupSlice(names, p, i);
  }

  /** After the last round every name has been taken. */
  lemma DoneAll(n: nat, p: nat)
    requires p > 0
    ensures Done(n, p, CeilDiv(n, p)) == n
  {
    CeilDivIff(n, p, CeilDiv(n, p));
  }

  /**
   * Round `i` of a reduction pass over the `completed` results: the results
   * not yet merged in this pass are at the front of `tasks`, followed by the
   * `i` results of this pass.
   */
  ghost predicate InPass<T>(completed: seq<T>, p: nat, i: nat, tasks: seq<T>)
    requires p > 0
  {
    Done(|completed|, p, i) <= |completed|
    && |tasks| == |completed| - Done(|completed|, p, i) + i
    && tasks[..|completed| - Done(|completed|, p, i)] == completed[Done(|completed|, p, i)..]
  }

  /** A pass starts with every completed result in front. */
  lemma InPassStart<T>(completed: seq<T>, p: nat)
    requires p > 0
    ensures InPass(completed, p, 0, completed)
  {
  }

  /** After the last round, only the pass's own results are left. */
  lemma InPassEnd<T>(completed: seq<T>, p: nat, tasks: seq<T>)
    requires p > 0 && InPass(completed, p, CeilDiv(|completed|, p), tasks)
    ensures |tasks| == CeilDiv(|completed|, p)
  {
    DoneAll(|completed|, p);
  }

  /** In round `i` of a reduction pass, the round's group is the oldest tasks. */
  lemma ReduceGroupFront<T>(completed: seq<T>, tasks: seq<T>, p: nat, i: nat)
    requires p > 0 && i < CeilDiv(|completed|, p) && InPass(completed, p, i, tasks)
    ensures 1 <= |Group(completed, p, i)| <= |tasks|
    ensures Group(completed, p, i) == tasks[..|Group(completed, p, i)|]
  {
    GroupSlice(completed, p, i);
    GroupSize(completed, p, i);
    var lo, hi := Done(|completed|, p, i), Done(|completed|, p, i + 1);
    assert tasks[..hi - lo] == tasks[..|completed| - lo][..hi - lo];
  }

  /** After round `i` removed its group and added one result, the rest of the pass's results are still in front. */
  lemma ReduceGroupNext<T>(completed: seq<T>, tasks: seq<T>, tasks': seq<T>, p: nat, i: nat)
    requires p > 0 && i < CeilDiv(|completed|, p) && InPass(completed, p, i, tasks)
    requires |Group(completed, p, i)| <= |tasks|
    requires |tasks'| == |tasks| - |Group(completed, p, i)| + 1
    requires tasks'[..|tasks| - |Group(completed, p, i)|] == tasks[|Group(completed, p, i)|..]
    ensures InPass(completed, p, i + 1, tasks')
  {
    GroupSlice(completed, p, i);
    var c, lo, hi, g := |completed|, Done(|completed|, p, i), Done(|completed|, p, i + 1), |Group(completed, p, i)|;
    assert tasks'[..c - hi] == tasks'[..|tasks| - g][..c - hi];
    assert tasks[g..][..c - hi] == tasks[..c - lo][g..];
    assert completed[lo..][g..] == completed[hi..];
  }

  lemma {:induction false} GroupsPrefix<T>(names: seq<T>, p: nat, i: nat)
    requires p > 0
    ensures Done(|names|, p, i) <= |names|
    ensures Concat(seq(i, j requires 0 <= j < i => Group(names, p, j))) == names[..Done(|names|, p, i)]
  {
    if i > 0 {
      var gs := seq(i, j requires 0 <= j < i => Group(names, p, j));
      assert gs[..i - 1] == seq(i - 1, j requires 0 <= j < i - 1 => Group(names, p, j));
      GroupsPrefix(names, p, i - 1);
      GroupSlice(names, p, i - 1);
      var lo, hi := Done(|names|, p, i - 1), Done(|names|, p, i);
      assert names[..hi] == names[..lo] + names[lo..hi];
    }
  }

  /** The groups of the first rounds split the chunk list into consecutive parts of 1 to `p` names. */
  lemma GroupsPartition<T>(names: seq<T>, p: nat)
    requires p > 0
    ensures Concat(Groups(names, p)) == names
    ensures forall i :: 0 <= i < |Groups(names, p)| ==> 1 <= |Groups(names, p)[i]| <= p
  {
    var k := CeilDiv(|names|, p);
    GroupsPrefix(names, p, k);
    DoneAll(|names|, p);
    assert Groups(names, p) == seq(k, j requires 0 <= j < k => Group(names, p, j));
    forall i | 0 <= i < k ensures 1 <= |Groups(names, p)[i]| <= p {
      GroupSize(names, p, i);
    }
  }

  // ---------------------------------------------------------------------------
  // The task list
  // ---------------------------------------------------------------------------

  /** Dictionary.Remove on the keys of the task list, kept in insertion order. */
  function RemoveKey(keys: seq<string>, k: string): (r: seq<string>)
    ensures forall x :: x in r <==> x in keys && x != k
    ensures |r| <= |keys|
  {
    if keys == [] then []
    else if keys[0] == k then RemoveKey(keys[1..], k)
    else [keys[0]] + RemoveKey(keys[1..], k)
  }

  lemma {:induction false} RemoveKeyAbsent(keys: seq<string>, k: string)
    requires k !in keys
    ensures RemoveKey(keys, k) == keys
  {
    if keys != [] {
      RemoveKeyAbsent(keys[1..], k);
      assert keys == [keys[0]] + keys[1..];
    }
  }

  /** Removing the oldest key, which occurs once, leaves the younger ones in order. */
  lemma RemoveKeyHead(keys: seq<string>, k: string)
    requires keys != [] && keys[0] == k && k !in keys[1..]
    ensures RemoveKey(keys, k) == keys[1..]
  {
    RemoveKeyAbsent(keys[1..], k);
  }

  /** Dictionary.Remove of each key of `group` in turn. */
  function RemoveKeys(keys: seq<string>, group: seq<string>): (r: seq<string>)
    ensures forall x :: x in r <==> x in keys && x !in group
    decreases |group|
  {
    if group == [] then keys else RemoveKey(RemoveKeys(keys, group[..|group| - 1]), group[|group| - 1])
  }

  /** Removing the `m` oldest of distinct keys leaves the younger ones, in order. */
  lemma {:induction false} RemoveKeysOldest(keys: seq<string>, m: nat)
    requires forall i, j :: 0 <= i < j < |keys| ==> keys[i] != keys[j]
    requires m <= |keys|
    ensures RemoveKeys(keys, keys[..m]) == keys[m..]
  {
    if m > 0 {
      RemoveKeysOldest(keys, m - 1);
      assert keys[..m][..m - 1] == keys[..m - 1];
      assert keys[m - 1] !in keys[m..] by {
        forall k | m <= k < |keys| ensures keys[k] != keys[m - 1] {
        }
      }
      assert keys[m - 1..][1..] == keys[m..];
      RemoveKeyHead(keys[m - 1..], keys[m - 1]);
    }
  }

  /** The loop that removes a merged group's keys from the task list. */
  method RemoveAll(keys: seq<string>, group: seq<string>) returns (rest: seq<string>)
    ensures rest == RemoveKeys(keys, group)
  {
    rest := keys;
    var j := 0;
    while j < |group|
      invariant j <= |group| && rest == RemoveKeys(keys, group[..j])
    {
      assert group[..j + 1][..j] == group[..j];
      rest := RemoveKey(rest, group[j]);
      j := j + 1;
    }
    assert group[..j] == group;
  }

  // ---------------------------------------------------------------------------
  // Files
  // ---------------------------------------------------------------------------

  /** The contents of the named files, in order; a missing file reads as nothing. */
  function Contents(disk: Disk, names: seq<string>): (parts: seq<seq<string>>)
    ensures |parts| == |names|
  {
    seq(|names|, r requires 0 <= r < |names| => if names[r] in disk then disk[names[r]] else [])
  }

  /** Every named file is there, and MergeChunksAsync can read a first record from it and parse it all. */
  ghost predicate Mergeable(disk: Disk, names: seq<string>)
  {
    (forall x :: x in names ==> x in disk)
    && forall r :: 0 <= r < |names| ==> Contents(disk, names)[r] != [] && ParseAll(Contents(disk, names)[r]).Ok?
  }

  /** With every named file there, the merge can go ahead exactly when each one has a record and parses. */
  lemma MergeableIff(disk: Disk, names: seq<string>, inputs: seq<seq<string>>)
    requires forall x :: x in names ==> x in disk
    requires inputs == Contents(disk, names)
    ensures Mergeable(disk, names) <==> forall r :: 0 <= r < |inputs| ==> inputs[r] != [] && ParseAll(inputs[r]).Ok?
  {
  }

  /** A named file that is missing makes the merge impossible. */
  lemma MissingNotMergeable(disk: Disk, names: seq<string>, missing: string)
    requires missing in names && missing !in disk
    ensures !Mergeable(disk, names)
  {
  }

  /** The first named file that is missing. */
  function FirstMissing(names: seq<string>, disk: Disk): (r: Option<string>)
    ensures r.None? <==> forall x :: x in names ==> x in disk
    ensures r.Some? ==> r.value in names && r.value !in disk
  {
    if names == [] then None
    else if names[0] !in disk then Some(names[0])
    else FirstMissing(names[1..], disk)
  }

  /**
   * The disk after the chunks of `group` have been sorted in place one after
   * another; a chunk that is missing or whose sort throws is left as it is.
   */
  function SortedAt(disk: Disk, group: seq<string>): Disk
    decreases |group|
  {
    if group == [] then disk
    else
      var d, c := SortedAt(disk, group[..|group| - 1]), group[|group| - 1];
      if c in d && SortChunk(d[c]).Ok? then d[c := SortChunk(d[c]).value] else d
  }

  /** The disk with every file of `names` deleted. */
  function Deleted(disk: Disk, names: seq<string>): Disk
  {
    disk - (set x | x in names)
  }

  /** The disk after a merge of `removed` into `name`: the result written, the inputs deleted. */
  function Replaced(disk: Disk, removed: seq<string>, name: string, lines: seq<string>): Disk
  {
    Deleted(disk[name := lines], removed)
  }

  /** A chunk as the merges leave it: sorted, canonical, not empty, and holding `bag`. */
  ghost predicate Good(lines: seq<string>, bag: multiset<string>)
  {
    SortedLines(lines) && Canonical(lines) && lines != [] && multiset(lines) == bag
  }

  /** The lines sorting a chunk writes, as a bag; nothing for a chunk whose sort throws. */
  ghost function SortedBag(lines: seq<string>): multiset<string>
  {
    if SortChunk(lines).Ok? then multiset(SortChunk(lines).value) else multiset{}
  }

  ghost function SortedBags(parts: seq<seq<string>>): seq<multiset<string>>
  {
    seq(|parts|, r requires 0 <= r < |parts| => SortedBag(parts[r]))
  }

  /** The lines the named chunks hold once sorted. */
  ghost function ChunkBag(disk: Disk, names: seq<string>): multiset<string>
  {
    SumBags(SortedBags(Contents(disk, names)))
  }

  ghost predicate AllSort(parts: seq<seq<string>>)
  {
    forall r :: 0 <= r < |parts| ==> SortChunk(parts[r]).Ok?
  }

  // ---------------------------------------------------------------------------
  // Sorting distributes over concatenation
  // ---------------------------------------------------------------------------

  lemma {:induction false} NonEmptyConcat(a: seq<string>, b: seq<string>)
    ensures NonEmpty(a + b) == NonEmpty(a) + NonEmpty(b)
  {
    if a == [] {
      assert a + b == b;
    } else {
      assert (a + b)[0] == a[0] && (a + b)[1..] == a[1..] + b;
      NonEmptyConcat(a[1..], b);
    }
  }

  lemma ParseAllConcat(x: seq<string>, y: seq<string>)
    requires ParseAll(x).Ok? && ParseAll(y).Ok?
    ensures ParseAll(x + y) == Ok(ParseAll(x).value + ParseAll(y).value)
  {
    ParseAllOkIff(x);
    ParseAllOkIff(y);
    var xy := x + y;
    assert forall k :: 0 <= k < |xy| ==> Parse(xy[k]).Ok? by {
      forall k | 0 <= k < |xy| ensures Parse(xy[k]).Ok? {
        if k < |x| { assert xy[k] == x[k]; } else { assert xy[k] == y[k - |x|]; }
      }
    }
    ParseAllOkIff(xy);
    var v := ParseAll(x).value + ParseAll(y).value;
    assert ParseAll(xy).value == v by {
      forall k | 0 <= k < |xy| ensures ParseAll(xy).value[k] == v[k] {
        if k < |x| { assert xy[k] == x[k]; } else { assert xy[k] == y[k - |x|]; }
      }
    }
  }

  lemma {:induction false} SerializeAllConcat(x: seq<SortingItem>, y: seq<SortingItem>)
    ensures SerializeAll(x + y) == SerializeAll(x) + SerializeAll(y)
  {
    if x == [] {
      assert x + y == y;
    } else {
      assert (x + y)[0] == x[0] && (x + y)[1..] == x[1..] + y;
      SerializeAllConcat(x[1..], y);
    }
  }

  /** Sorting two files' lines together writes the lines that sorting each writes. */
  lemma SortChunkConcat(a: seq<string>, b: seq<string>)
    requires SortChunk(a).Ok? && SortChunk(b).Ok?
    ensures SortChunk(a + b).Ok?
    ensures multiset(SortChunk(a + b).value) == multiset(SortChunk(a).value) + multiset(SortChunk(b).value)
  {
    NonEmptyConcat(a, b);
    ParseAllConcat(NonEmpty(a), NonEmpty(b));
    SerializeAllConcat(ParseAll(NonEmpty(a)).value, ParseAll(NonEmpty(b)).value);
    SortChunkSorted(a);
    SortChunkSorted(b);
    SortChunkSorted(a + b);
  }

  lemma {:induction false} SumBagsConcat(a: seq<multiset<string>>, b: seq<multiset<string>>)
    ensures SumBags(a + b) == SumBags(a) + SumBags(b)
    decreases |b|
  {
    if b == [] {
      assert a + b == a;
    } else {
      assert (a + b)[..|a + b| - 1] == a + b[..|b| - 1];
      SumBagsConcat(a, b[..|b| - 1]);
    }
  }

  /**
   * Sorting every chunk and sorting all chunks' lines at once write the same
   * lines: the bag of the one-shot sort is the sum of the per-chunk bags.
   */
  lemma {:induction false} ConcatSorts(parts: seq<seq<string>>)
    requires AllSort(parts)
    ensures SortChunk(Concat(parts)).Ok?
    ensures multiset(SortChunk(Concat(parts)).value) == SumBags(SortedBags(parts))
    decreases |parts|
  {
    if parts == [] {
      assert SortChunk([]) == Ok(SerializeAll(SortItems([])));
    } else {
      var init, last := parts[..|parts| - 1], parts[|parts| - 1];
      ConcatSorts(init);
      SortChunkConcat(Concat(init), last);
      assert SortedBags(parts)[..|parts| - 1] == SortedBags(init);
    }
  }

  lemma ContentsConcat(disk: Disk, x: seq<string>, y: seq<string>)
    ensures Contents(disk, x + y) == Contents(disk, x) + Contents(disk, y)
  {
  }

  /** The bag of a list of chunks is the sum of the bags of its two halves. */
  lemma ChunkBagSplit(disk: Disk, names: seq<string>, d: nat, e: nat)
    requires d <= e <= |names|
    ensures ChunkBag(disk, names[..e]) == ChunkBag(disk, names[..d]) + ChunkBag(disk, names[d..e])
  {
    assert names[..e] == names[..d] + names[d..e];
    ContentsConcat(disk, names[..d], names[d..e]);
    var x, y := Contents(disk, names[..d]), Contents(disk, names[d..e]);
    assert SortedBags(x + y) == SortedBags(x) + SortedBags(y);
    SumBagsConcat(SortedBags(x), SortedBags(y));
  }

  // ---------------------------------------------------------------------------
  // What a merge of good chunks gives
  // ---------------------------------------------------------------------------

  lemma {:induction false} SumBagsNonEmpty(bags: seq<multiset<string>>)
    requires bags != [] && bags[|bags| - 1] != multiset{}
    ensures SumBags(bags) != multiset{}
  {
    var x :| x in bags[|bags| - 1];
    assert x in SumBags(bags);
  }

  /** A canonical file's bag is its own lines. */
  lemma LinesBagCanonical(lines: seq<string>)
    requires Canonical(lines)
    ensures LinesBag(lines) == multiset(lines)
  {
  }

  /** A good file's bag is not empty. */
  lemma GoodNonEmpty(lines: seq<string>, bag: multiset<string>)
    requires Good(lines, bag)
    ensures bag != multiset{}
  {
    assert lines[0] in multiset(lines);
  }

  /** Good chunks can be merged. */
  lemma GoodMergeable(disk: Disk, group: seq<string>, bags: seq<multiset<string>>)
    requires |bags| == |group|
    requires forall r :: 0 <= r < |group| ==> group[r] in disk && Good(disk[group[r]], bags[r])
    ensures Mergeable(disk, group)
  {
    forall x | x in group ensures x in disk {
      var r :| 0 <= r < |group| && group[r] == x;
    }
  }

  lemma GoodSorted(disk: Disk, group: seq<string>, bags: seq<multiset<string>>)
    requires |bags| == |group|
    requires forall r :: 0 <= r < |group| ==> group[r] in disk && Good(disk[group[r]], bags[r])
    ensures AllSorted(Contents(disk, group))
  {
  }

  /** Inputs whose lines are, one by one, the given bags hold the sum of the bags. */
  lemma TotalBagOf(inputs: seq<seq<string>>, bags: seq<multiset<string>>)
    requires |inputs| == |bags| && forall r :: 0 <= r < |inputs| ==> LinesBag(inputs[r]) == bags[r]
    ensures TotalBag(inputs) == SumBags(bags)
  {
    assert seq(|inputs|, r requires 0 <= r < |inputs| => LinesBag(inputs[r])) == bags;
  }

  /** Good chunks hold the sum of their bags, which is not empty when there is a chunk. */
  lemma GoodBag(disk: Disk, group: seq<string>, bags: seq<multiset<string>>)
    requires |bags| == |group|
    requires forall r :: 0 <= r < |group| ==> group[r] in disk && Good(disk[group[r]], bags[r])
    ensures TotalBag(Contents(disk, group)) == SumBags(bags)
    ensures group != [] ==> SumBags(bags) != multiset{}
  {
    var inputs := Contents(disk, group);
    forall r | 0 <= r < |group| ensures LinesBag(inputs[r]) == bags[r] {
      LinesBagCanonical(inputs[r]);
    }
    TotalBagOf(inputs, bags);
    if group != [] {
      GoodNonEmpty(inputs[|group| - 1], bags[|group| - 1]);
      SumBagsNonEmpty(bags);
    }
  }

  /** Good chunks can be merged, and they hold the sum of their bags. */
  lemma MergeInputs(disk: Disk, group: seq<string>, bags: seq<multiset<string>>)
    requires |bags| == |group|
    requires forall r :: 0 <= r < |group| ==> group[r] in disk && Good(disk[group[r]], bags[r])
    ensures Mergeable(disk, group) && AllSorted(Contents(disk, group))
    ensures TotalBag(Contents(disk, group)) == SumBags(bags)
    ensures group != [] ==> SumBags(bags) != multiset{}
  {
    GoodMergeable(disk, group, bags);
    GoodSorted(disk, group, bags);
    GoodBag(disk, group, bags);
  }

  /** The merged file is good when its inputs were. */
  lemma MergedGood(w: seq<string>, bag: multiset<string>)
    requires multiset(w) == bag && bag != multiset{} && Canonical(w) && SortedLines(w)
    ensures Good(w, bag)
  {
  }

  // ---------------------------------------------------------------------------
  // The state of a run
  // ---------------------------------------------------------------------------

  /**
   * The names a run uses do not collide: the chunk names are distinct, and
   * neither the result file nor a name GetNextChunkName can produce is one of
   * them.
   */
  ghost predicate Apart(filePath: string, basePath: string, names: seq<string>)
  {
    (forall i, j :: 0 <= i < j < |names| ==> names[i] != names[j])
    && filePath !in names
    && forall k: nat :: k > |names| ==> ChunkName(basePath, k) !in names && ChunkName(basePath, k) != filePath
  }

  /** `x` is one of the names GetNextChunkName gave out while the counter went from `lo` to `hi`. */
  ghost predicate Generated(basePath: string, x: string, lo: nat, hi: nat)
  {
    exists k: nat :: lo < k <= hi && x == ChunkName(basePath, k)
  }

  /** The first `done` chunks exist and sort to something non-empty. */
  ghost predicate Processed(names: seq<string>, files0: Disk, done: nat)
  {
    done <= |names|
    && forall c :: c in names[..done] ==> c in files0 && SortChunk(files0[c]).Ok? && SortChunk(files0[c]).value != []
  }

  /** The outstanding merge results are the generated names of increasing counter values `ids`. */
  ghost predicate TaskIds(basePath: string, count0: nat, count: nat, tasks: seq<string>, ids: seq<nat>)
  {
    |tasks| == |ids|
    && (forall j :: 0 <= j < |ids| ==> count0 < ids[j] <= count && tasks[j] == ChunkName(basePath, ids[j]))
    && (forall i, j :: 0 <= i < j < |ids| ==> ids[i] < ids[j])
  }

  /** Every outstanding merge result is a good file holding its bag. */
  ghost predicate TaskFiles(files: Disk, tasks: seq<string>, bags: seq<multiset<string>>)
  {
    |bags| == |tasks|
    && (forall j :: 0 <= j < |tasks| ==> tasks[j] in files)
    && forall j {:trigger Good(files[tasks[j]], bags[j])} :: 0 <= j < |tasks| ==> Good(files[tasks[j]], bags[j])
  }
  /** Every outstanding result, one by one: its file is there and good. */
  lemma TaskFilesAll(files: Disk, tasks: seq<string>, bags: seq<multiset<string>>)
    requires TaskFiles(files, tasks, bags)
    ensures forall r :: 0 <= r < |tasks| ==> tasks[r] in files && Good(files[tasks[r]], bags[r])
  {
    forall r | 0 <= r < |tasks| ensures tasks[r] in files && Good(files[tasks[r]], bags[r]) {
      assert Good(files[tasks[r]], bags[r]);
    }
  }


  /**
   * Apart from the outstanding results, the files are those the run started
   * with, less the chunks merged so far and the results merged again.
   */
  ghost predicate Untouched(basePath: string, names: seq<string>, files0: Disk, count0: nat, done: nat,
                            files: Disk, count: nat, tasks: seq<string>)
  {
    done <= |names|
    && (forall x :: x !in tasks ==>
          (x in files <==> x in files0 && x !in names[..done] && !Generated(basePath, x, count0, count)))
    && (forall x :: x !in tasks && x in files ==> x in files0 && files[x] == files0[x])
  }

  /** The loop invariant of the scheduler. */
  ghost predicate Progress(basePath: string, names: seq<string>, files0: Disk, count0: nat, done: nat,
                           files: Disk, count: nat, tasks: seq<string>, ids: seq<nat>, bags: seq<multiset<string>>)
  {
    |names| <= count0 <= count
    && Processed(names, files0, done)
    && TaskIds(basePath, count0, count, tasks, ids)
    && TaskFiles(files, tasks, bags)
    && SumBags(bags) == ChunkBag(files0, names[..done])
    && Untouched(basePath, names, files0, count0, done, files, count, tasks)
  }

  /** The chunks can be sorted, and, when there are two or more, none sorts to an empty file. */
  ghost predicate Runnable(names: seq<string>, files0: Disk)
  {
    (forall c :: c in names ==> c in files0 && SortChunk(files0[c]).Ok?)
    && (|names| >= 2 ==> forall c :: c in names ==> SortChunk(files0[c]).value != [])
  }

  /** Besides the result file, only the chunks and the generated files are gone, and nothing else changed. */
  ghost predicate Cleaned(basePath: string, names: seq<string>, filePath: string,
                          before: Disk, count0: nat, after: Disk, count: nat)
  {
    (forall x :: x != filePath ==>
       (x in after <==> x in before && x !in names && !Generated(basePath, x, count0, count)))
    && forall x :: x != filePath && x in after ==> x in before && after[x] == before[x]
  }

  // ---------------------------------------------------------------------------
  // Lemmas about the state
  // ---------------------------------------------------------------------------

  /** Outstanding results have distinct names, none of them a chunk or the result file. */
  lemma TasksApart(filePath: string, basePath: string, names: seq<string>, count0: nat, count: nat,
                   tasks: seq<string>, ids: seq<nat>)
    requires Apart(filePath, basePath, names) && |names| <= count0
    requires TaskIds(basePath, count0, count, tasks, ids)
    ensures forall i, j :: 0 <= i < j < |tasks| ==> tasks[i] != tasks[j]
    ensures forall x :: x in tasks ==> x !in names && x != filePath && Generated(basePath, x, count0, count)
    ensures forall x :: x in tasks ==> x != ChunkName(basePath, count + 1)
  {
    forall i, j | 0 <= i < j < |tasks| ensures tasks[i] != tasks[j] {
      ChunkNameInjective(basePath, ids[i], ids[j]);
    }
    forall x | x in tasks
      ensures x !in names && x != filePath && Generated(basePath, x, count0, count)
      ensures x != ChunkName(basePath, count + 1)
    {
      var j :| 0 <= j < |tasks| && tasks[j] == x;
      ChunkNameInjective(basePath, ids[j], count + 1);
    }
  }

  /** A name given out after the run started is not a chunk, not the result file. */
  lemma GeneratedApart(filePath: string, basePath: string, names: seq<string>, count0: nat, count: nat, x: string)
    requires Apart(filePath, basePath, names) && |names| <= count0
    requires Generated(basePath, x, count0, count)
    ensures x !in names && x != filePath
  {
  }

  lemma GeneratedNext(basePath: string, x: string, count0: nat, count: nat)
    requires count0 <= count
    ensures Generated(basePath, x, count0, count + 1) <==>
            Generated(basePath, x, count0, count) || x == ChunkName(basePath, count + 1)
  {
  }

  /** The chunks not yet handled are as the run found them. */
  lemma PendingUntouched(filePath: string, basePath: string, names: seq<string>, files0: Disk, count0: nat,
                         done: nat, files: Disk, count: nat, tasks: seq<string>, ids: seq<nat>, c: string)
    requires Apart(filePath, basePath, names) && |names| <= count0
    requires TaskIds(basePath, count0, count, tasks, ids)
    requires Untouched(basePath, names, files0, count0, done, files, count, tasks)
    requires c in names[done..]
    ensures c in files <==> c in files0
    ensures c in files ==> files[c] == files0[c]
  {
    TasksApart(filePath, basePath, names, count0, count, tasks, ids);
    var k :| done <= k < |names| && names[k] == c;
    forall i | 0 <= i < done ensures names[..done][i] != c {
      assert names[i] != names[k];
    }
    if Generated(basePath, c, count0, count) {
      GeneratedApart(filePath, basePath, names, count0, count, c);
    }
  }

  lemma ProgressStart(filePath: string, basePath: string, names: seq<string>, files0: Disk, count0: nat)
    requires |names| <= count0
    ensures Progress(basePath, names, files0, count0, 0, files0, count0, [], [], [])
  {
    assert Contents(files0, names[..0]) == [];
    assert SortedBags([]) == [];
  }

  /** Sorting a group's chunks keeps every file, and every file outside the group as it was. */
  lemma {:induction false} SortedAtKeeps(disk: Disk, group: seq<string>)
    ensures forall x :: x in SortedAt(disk, group) <==> x in disk
    ensures forall x :: x in disk && x !in group ==> x in SortedAt(disk, group) && SortedAt(disk, group)[x] == disk[x]
    decreases |group|
  {
    if group != [] {
      var init, c := group[..|group| - 1], group[|group| - 1];
      assert group == init + [c];
      SortedAtKeeps(disk, init);
    }
  }

  /** Once a group of distinct chunks is sorted, each chunk that could be sorted holds its sorted lines. */
  lemma {:induction false} SortedAtSorts(disk: Disk, group: seq<string>)
    requires forall i, j :: 0 <= i < j < |group| ==> group[i] != group[j]
    ensures forall x :: x in group && x in disk && SortChunk(disk[x]).Ok? ==>
              x in SortedAt(disk, group) && SortedAt(disk, group)[x] == SortChunk(disk[x]).value
    decreases |group|
  {
    if group != [] {
      var init, c := group[..|group| - 1], group[|group| - 1];
      assert group == init + [c];
      SortedAtSorts(disk, init);
      SortedAtKeeps(disk, init);
      assert c !in init by {
        forall k | 0 <= k < |init| ensures init[k] != c {
          assert init[k] == group[k];
        }
      }
    }
  }

  /** Sorting the inputs first changes nothing the merge leaves behind but the inputs it reads. */
  lemma ReplacedSortedAt(disk: Disk, group: seq<string>, name: string, w: seq<string>)
    requires name !in group
    ensures Replaced(SortedAt(disk, group), group, name, w) == Replaced(disk, group, name, w)
  {
    SortedAtKeeps(disk, group);
  }

  /** After the sort, each chunk of the group holds its sorted lines. */
  lemma SortedGroupContents(files0: Disk, disk: Disk, group: seq<string>)
    requires forall i, j :: 0 <= i < j < |group| ==> group[i] != group[j]
    requires forall c :: c in group ==> c in disk && c in files0 && disk[c] == files0[c] && SortChunk(files0[c]).Ok?
    ensures forall r :: 0 <= r < |group| ==>
              group[r] in SortedAt(disk, group) && Contents(SortedAt(disk, group), group)[r] == SortChunk(files0[group[r]]).value
  {
    SortedAtSorts(disk, group);
  }

  /** The sorted chunks of a group can be merged exactly when none of them sorted to an empty file. */
  lemma SortedGroupMergeable(files0: Disk, disk: Disk, group: seq<string>)
    requires forall i, j :: 0 <= i < j < |group| ==> group[i] != group[j]
    requires forall c :: c in group ==> c in disk && c in files0 && disk[c] == files0[c] && SortChunk(files0[c]).Ok?
    ensures Mergeable(SortedAt(disk, group), group) <==> forall c :: c in group ==> SortChunk(files0[c]).value != []
  {
    var d := SortedAt(disk, group);
    SortedGroupContents(files0, disk, group);
    var parts := Contents(d, group);
    forall r | 0 <= r < |group| ensures ParseAll(parts[r]).Ok? {
      SortChunkSorted(files0[group[r]]);
    }
    if !Mergeable(d, group) {
      var r :| 0 <= r < |group| && !(parts[r] != [] && ParseAll(parts[r]).Ok?);
      assert group[r] in group;
    }
    if !forall c :: c in group ==> SortChunk(files0[c]).value != [] {
      var c :| c in group && SortChunk(files0[c]).value == [];
      var r :| 0 <= r < |group| && group[r] == c;
      assert parts[r] == [];
    }
  }

  /** The sorted chunks of a group, when none is empty, are good chunks holding their sorted lines. */
  lemma SortedGroupGood(files0: Disk, disk: Disk, group: seq<string>)
    requires forall i, j :: 0 <= i < j < |group| ==> group[i] != group[j]
    requires forall c :: c in group ==> c in disk && c in files0 && disk[c] == files0[c] && SortChunk(files0[c]).Ok?
    requires forall c :: c in group ==> SortChunk(files0[c]).value != []
    ensures forall r :: 0 <= r < |group| ==>
              group[r] in SortedAt(disk, group) && Good(SortedAt(disk, group)[group[r]], SortedBags(Contents(files0, group))[r])
  {
    SortedGroupContents(files0, disk, group);
    forall r | 0 <= r < |group|
      ensures Good(SortedAt(disk, group)[group[r]], SortedBags(Contents(files0, group))[r])
    {
      assert group[r] in group;
      SortChunkSorted(files0[group[r]]);
    }
  }

  lemma ProcessedExtend(names: seq<string>, files0: Disk, d: nat, e: nat)
    requires Processed(names, files0, d) && d <= e <= |names|
    requires forall c :: c in names[d..e] ==> c in files0 && SortChunk(files0[c]).Ok? && SortChunk(files0[c]).value != []
    ensures Processed(names, files0, e)
  {
    forall c | c in names[..e]
      ensures c in files0 && SortChunk(files0[c]).Ok? && SortChunk(files0[c]).value != []
    {
      var k :| 0 <= k < e && names[k] == c;
      if k < d {
        assert c in names[..d];
      } else {
        assert c == names[d..e][k - d];
      }
    }
  }

  /** A merge drops the oldest `m` outstanding results and appends the next generated name. */
  lemma TaskIdsNext(basePath: string, count0: nat, count: nat, tasks: seq<string>, ids: seq<nat>, m: nat)
    requires TaskIds(basePath, count0, count, tasks, ids) && count0 <= count && m <= |tasks|
    ensures TaskIds(basePath, count0, count + 1, tasks[m..] + [ChunkName(basePath, count + 1)], ids[m..] + [count + 1])
  {
    var tasks', ids' := tasks[m..] + [ChunkName(basePath, count + 1)], ids[m..] + [count + 1];
    forall j | 0 <= j < |ids'| ensures count0 < ids'[j] <= count + 1 && tasks'[j] == ChunkName(basePath, ids'[j]) {
      if j < |ids| - m {
        assert ids'[j] == ids[m + j] && tasks'[j] == tasks[m + j];
      }
    }
    forall i, j | 0 <= i < j < |ids'| ensures ids'[i] < ids'[j] {
      assert ids'[i] == ids[m + i];
      if j < |ids| - m {
        assert ids'[j] == ids[m + j];
      }
    }
  }

  /** The results a merge neither reads nor writes stay good, and its own result is good. */
  lemma TaskFilesNext(files: Disk, tasks: seq<string>, bags: seq<multiset<string>>, removed: seq<string>, m: nat,
                      name: string, w: seq<string>, b: multiset<string>)
    requires TaskFiles(files, tasks, bags) && m <= |tasks|
    requires forall j :: m <= j < |tasks| ==> tasks[j] !in removed && tasks[j] != name
    requires name !in removed && Good(w, b)
    ensures TaskFiles(Replaced(files, removed, name, w), tasks[m..] + [name], bags[m..] + [b])
  {
    var files', tasks', bags' := Replaced(files, removed, name, w), tasks[m..] + [name], bags[m..] + [b];
    TaskFilesAll(files, tasks, bags);
    forall j | 0 <= j < |tasks'| ensures tasks'[j] in files' && Good(files'[tasks'[j]], bags'[j]) {
      if j < |tasks| - m {
        assert tasks'[j] == tasks[m + j] && bags'[j] == bags[m + j];
        assert files'[tasks'[j]] == files[tasks[m + j]];
      } else {
        assert tasks'[j] == name && bags'[j] == b;
      }
    }
  }

  /** The bag of a first-stage result is the bag its group adds to the chunks done before. */
  lemma BalanceFirst(files0: Disk, names: seq<string>, d: nat, e: nat, bags: seq<multiset<string>>)
    requires d <= e <= |names| && SumBags(bags) == ChunkBag(files0, names[..d])
    ensures SumBags(bags + [ChunkBag(files0, names[d..e])]) == ChunkBag(files0, names[..e])
  {
    var bags' := bags + [ChunkBag(files0, names[d..e])];
    assert bags'[..|bags'| - 1] == bags;
    ChunkBagSplit(files0, names, d, e);
  }

  /** Merging the oldest `m` results into one keeps the total bag. */
  lemma BalanceReduce(bags: seq<multiset<string>>, m: nat)
    requires m <= |bags|
    ensures SumBags(bags[m..] + [SumBags(bags[..m])]) == SumBags(bags)
  {
    var bags' := bags[m..] + [SumBags(bags[..m])];
    assert bags'[..|bags'| - 1] == bags[m..];
    assert bags == bags[..m] + bags[m..];
    SumBagsConcat(bags[..m], bags[m..]);
  }

  /** A first-stage merge deletes exactly its group's chunks and adds only its result. */
  lemma UntouchedFirst(filePath: string, basePath: string, names: seq<string>, files0: Disk, count0: nat,
                       d: nat, e: nat, files: Disk, count: nat, tasks: seq<string>, ids: seq<nat>, w: seq<string>)
    requires Apart(filePath, basePath, names) && |names| <= count0 <= count
    requires TaskIds(basePath, count0, count, tasks, ids)
    requires Untouched(basePath, names, files0, count0, d, files, count, tasks)
    requires d <= e <= |names|
    ensures Untouched(basePath, names, files0, count0, e,
                      Replaced(files, names[d..e], ChunkName(basePath, count + 1), w), count + 1,
                      tasks + [ChunkName(basePath, count + 1)])
  {
    var group, name := names[d..e], ChunkName(basePath, count + 1);
    var files', tasks' := Replaced(files, group, name, w), tasks + [name];
    assert names[..e] == names[..d] + group;
    forall x | x !in tasks'
      ensures x in files' <==> x in files0 && x !in names[..e] && !Generated(basePath, x, count0, count + 1)
    {
      GeneratedNext(basePath, x, count0, count);
      if x in group && Generated(basePath, x, count0, count) {
        GeneratedApart(filePath, basePath, names, count0, count, x);
      }
    }
  }

  /** A reduction merge deletes exactly the results it reads and adds only its own. */
  lemma UntouchedReduce(filePath: string, basePath: string, names: seq<string>, files0: Disk, count0: nat,
                        files: Disk, count: nat, tasks: seq<string>, ids: seq<nat>, m: nat, w: seq<string>)
    requires Apart(filePath, basePath, names) && |names| <= count0 <= count
    requires TaskIds(basePath, count0, count, tasks, ids)
    requires Untouched(basePath, names, files0, count0, |names|, files, count, tasks)
    requires m <= |tasks|
    ensures Untouched(basePath, names, files0, count0, |names|,
                      Replaced(files, tasks[..m], ChunkName(basePath, count + 1), w), count + 1,
                      tasks[m..] + [ChunkName(basePath, count + 1)])
  {
    var name := ChunkName(basePath, count + 1);
    var files', tasks' := Replaced(files, tasks[..m], name, w), tasks[m..] + [name];
    TasksApart(filePath, basePath, names, count0, count, tasks, ids);
    assert tasks == tasks[..m] + tasks[m..];
    forall x | x !in tasks'
      ensures x in files' <==> x in files0 && x !in names[..|names|] && !Generated(basePath, x, count0, count + 1)
    {
      GeneratedNext(basePath, x, count0, count);
      if x in tasks[..m] {
        assert x in tasks;
      }
    }
  }

  /** A name the counter gives out after the chunks is none of the chunks. */
  lemma GeneratedNotChunk(filePath: string, basePath: string, names: seq<string>, next: nat, d: nat, e: nat)
    requires Apart(filePath, basePath, names) && |names| < next && d <= e <= |names|
    ensures ChunkName(basePath, next) !in names[d..e]
  {
    assert ChunkName(basePath, next) !in names;
    assert forall c :: c in names[d..e] ==> c in names;
  }

  /** One round of the first stage: the group's chunks sorted, merged into the next generated name. */
  lemma FirstLevelStep(filePath: string, basePath: string, names: seq<string>, files0: Disk, count0: nat,
                       d: nat, e: nat, files: Disk, count: nat, next: nat,
                       tasks: seq<string>, ids: seq<nat>, bags: seq<multiset<string>>, w: seq<string>,
                       files': Disk, tasks': seq<string>, ids': seq<nat>, bags': seq<multiset<string>>)
    requires Apart(filePath, basePath, names)
    requires Progress(basePath, names, files0, count0, d, files, count, tasks, ids, bags)
    requires d <= e <= |names| && next == count + 1
    requires forall c :: c in names[d..e] ==> c in files0 && SortChunk(files0[c]).Ok? && SortChunk(files0[c]).value != []
    requires Good(w, ChunkBag(files0, names[d..e]))
    requires files' == Replaced(files, names[d..e], ChunkName(basePath, next), w)
    requires tasks' == tasks + [ChunkName(basePath, next)] && ids' == ids + [next]
    requires bags' == bags + [ChunkBag(files0, names[d..e])]
    ensures Progress(basePath, names, files0, count0, e, files', next, tasks', ids', bags')
  {
    FirstLevelTasks(filePath, basePath, names, count0, d, e, files, count, tasks, ids, bags, w, ChunkBag(files0, names[d..e]));
    ProcessedExtend(names, files0, d, e);
    BalanceFirst(files0, names, d, e, bags);
    UntouchedFirst(filePath, basePath, names, files0, count0, d, e, files, count, tasks, ids, w);
  }

  /** One round of the first stage, for the outstanding results: the new result joins them, good and holding `b`. */
  lemma FirstLevelTasks(filePath: string, basePath: string, names: seq<string>, count0: nat, d: nat, e: nat,
                        files: Disk, count: nat, tasks: seq<string>, ids: seq<nat>, bags: seq<multiset<string>>,
                        w: seq<string>, b: multiset<string>)
    requires Apart(filePath, basePath, names) && |names| <= count0 <= count && d <= e <= |names|
    requires TaskIds(basePath, count0, count, tasks, ids) && TaskFiles(files, tasks, bags)
    requires Good(w, b)
    ensures TaskIds(basePath, count0, count + 1, tasks + [ChunkName(basePath, count + 1)], ids + [count + 1])
    ensures TaskFiles(Replaced(files, names[d..e], ChunkName(basePath, count + 1), w),
                      tasks + [ChunkName(basePath, count + 1)], bags + [b])
  {
    var group, name := names[d..e], ChunkName(basePath, count + 1);
    TasksApart(filePath, basePath, names, count0, count, tasks, ids);
    assert tasks[0..] == tasks && ids[0..] == ids && bags[0..] == bags;
    TaskIdsNext(basePath, count0, count, tasks, ids, 0);
    forall j | 0 <= j < |tasks| ensures tasks[j] !in group && tasks[j] != name {
      assert tasks[j] in tasks;
    }
    GeneratedNotChunk(filePath, basePath, names, count + 1, d, e);
    TaskFilesNext(files, tasks, bags, group, 0, name, w, b);
  }

  /**
   * Before a round of the first stage: group `i` is the next slice of the
   * chunks, non-empty, without repeats, and its chunks are still as they were.
   */
  lemma FirstLevelBefore(filePath: string, basePath: string, names: seq<string>, files0: Disk, count0: nat,
                         files: Disk, count: nat, tasks: seq<string>, ids: seq<nat>, bags: seq<multiset<string>>,
                         p: nat, i: nat)
    requires Apart(filePath, basePath, names) && p > 0 && i < CeilDiv(|names|, p)
    requires Progress(basePath, names, files0, count0, Done(|names|, p, i), files, count, tasks, ids, bags)
    ensures Done(|names|, p, i) < Done(|names|, p, i + 1) <= |names|
    ensures Group(names, p, i) == names[Done(|names|, p, i)..Done(|names|, p, i + 1)]
    ensures forall a, b :: 0 <= a < b < |Group(names, p, i)| ==> Group(names, p, i)[a] != Group(names, p, i)[b]
    ensures forall c :: c in Group(names, p, i) ==> c in names
    ensures forall c :: c in Group(names, p, i) ==> (c in files <==> c in files0) && (c in files ==> files[c] == files0[c])
  {
    var d, e := Done(|names|, p, i), Done(|names|, p, i + 1);
    GroupSlice(names, p, i);
    GroupSize(names, p, i);
    DistinctSlice(names, d, e);
    forall c | c in Group(names, p, i) ensures (c in files <==> c in files0) && (c in files ==> files[c] == files0[c]) {
      PendingUntouched(filePath, basePath, names, files0, count0, d, files, count, tasks, ids, c);
    }
  }

  /**
   * After a round of the first stage: the sorted group merged into the
   * generated name `next` keeps the progress invariant, with the group done.
   */
  lemma FirstLevelAfter(filePath: string, basePath: string, names: seq<string>, files0: Disk, count0: nat,
                        d: nat, e: nat, files1: Disk, count1: nat,
                        tasks: seq<string>, ids: seq<nat>, bags: seq<multiset<string>>,
                        sorted: Disk, next: nat, written: seq<string>,
                        files': Disk, tasks': seq<string>, ids': seq<nat>, bags': seq<multiset<string>>)
    requires Apart(filePath, basePath, names)
    requires Progress(basePath, names, files0, count0, d, files1, count1, tasks, ids, bags)
    requires d < e <= |names| && next == count1 + 1
    requires forall c :: c in names[d..e] ==> (c in files1 <==> c in files0) && (c in files1 ==> files1[c] == files0[c])
    requires forall c :: c in names[d..e] ==> c in files1 && SortChunk(files1[c]).Ok?
    requires sorted == SortedAt(files1, names[d..e]) && Mergeable(sorted, names[d..e])
    requires files' == Replaced(sorted, names[d..e], ChunkName(basePath, next), written)
    requires multiset(written) == TotalBag(Contents(sorted, names[d..e])) && Canonical(written)
    requires AllSorted(Contents(sorted, names[d..e])) ==> SortedLines(written)
    requires tasks' == tasks + [ChunkName(basePath, next)] && ids' == ids + [next]
    requires bags' == bags + [ChunkBag(files0, names[d..e])]
    ensures Progress(basePath, names, files0, count0, e, files', next, tasks', ids', bags')
  {
    var group := names[d..e];
    DistinctSlice(names, d, e);
    GeneratedNotChunk(filePath, basePath, names, next, d, e);
    FirstLevelMerged(files0, group, files1, sorted, ChunkName(basePath, next), written, files');
    FirstLevelStep(filePath, basePath, names, files0, count0, d, e, files1, count1, next, tasks, ids, bags, written,
                   files', tasks', ids', bags');
  }

  /** One merge of the reduction stage: the oldest `m` results merged into the next generated name. */
  lemma ReduceStep(filePath: string, basePath: string, names: seq<string>, files0: Disk, count0: nat,
                   files: Disk, count: nat, tasks: seq<string>, ids: seq<nat>, bags: seq<multiset<string>>,
                   m: nat, w: seq<string>,
                   files': Disk, tasks': seq<string>, ids': seq<nat>, bags': seq<multiset<string>>)
    requires Apart(filePath, basePath, names)
    requires Progress(basePath, names, files0, count0, |names|, files, count, tasks, ids, bags)
    requires 1 <= m <= |tasks|
    requires Good(w, SumBags(bags[..m]))
    requires files' == Replaced(files, tasks[..m], ChunkName(basePath, count + 1), w)
    requires tasks' == tasks[m..] + [ChunkName(basePath, count + 1)] && ids' == ids[m..] + [count + 1]
    requires bags' == bags[m..] + [SumBags(bags[..m])]
    ensures Progress(basePath, names, files0, count0, |names|, files', count + 1, tasks', ids', bags')
  {
    var name := ChunkName(basePath, count + 1);
    TasksApart(filePath, basePath, names, count0, count, tasks, ids);
    TaskIdsNext(basePath, count0, count, tasks, ids, m);
    forall j | m <= j < |tasks| ensures tasks[j] !in tasks[..m] && tasks[j] != name {
      assert tasks[j] in tasks;
    }
    assert name !in tasks[..m] by {
      assert forall x :: x in tasks[..m] ==> x in tasks;
    }
    TaskFilesNext(files, tasks, bags, tasks[..m], m, name, w, SumBags(bags[..m]));
    BalanceReduce(bags, m);
    UntouchedReduce(filePath, basePath, names, files0, count0, files, count, tasks, ids, m, w);
  }

  /** A slice of distinct names holds distinct names, all of them among the names. */
  lemma DistinctSlice(names: seq<string>, d: nat, e: nat)
    requires forall i, j :: 0 <= i < j < |names| ==> names[i] != names[j]
    requires d <= e <= |names|
    ensures forall i, j :: 0 <= i < j < |names[d..e]| ==> names[d..e][i] != names[d..e][j]
    ensures forall c :: c in names[d..e] ==> c in names
  {
    forall c | c in names[d..e] ensures c in names {
      var k :| 0 <= k < e - d && names[d..e][k] == c;
      assert names[d + k] == c;
    }
  }

  /** A first-stage group with a chunk that is missing or whose sort throws makes the run fail. */
  lemma FirstLevelSortFails(names: seq<string>, files0: Disk, group: seq<string>, files1: Disk)
    requires forall c :: c in group ==> c in names
    requires forall c :: c in group ==> (c in files1 <==> c in files0) && (c in files1 ==> files1[c] == files0[c])
    requires !forall c :: c in group ==> c in files1 && SortChunk(files1[c]).Ok?
    ensures !Runnable(names, files0)
  {
    var c :| c in group && !(c in files1 && SortChunk(files1[c]).Ok?);
    assert c in names;
  }

  /** A first-stage group whose sorted chunks cannot be merged makes the run fail. */
  lemma FirstLevelMergeFails(names: seq<string>, files0: Disk, group: seq<string>, files1: Disk)
    requires |names| >= 2 && forall c :: c in group ==> c in names
    requires forall i, j :: 0 <= i < j < |group| ==> group[i] != group[j]
    requires forall c :: c in group ==> c in files1 && c in files0 && files1[c] == files0[c] && SortChunk(files0[c]).Ok?
    requires !Mergeable(SortedAt(files1, group), group)
    ensures !Runnable(names, files0)
  {
    SortedGroupMergeable(files0, files1, group);
    var c :| c in group && SortChunk(files0[c]).value == [];
    assert c in names;
  }

  /**
   * The sorted chunks of a non-empty first-stage group, merged into a fresh
   * name: the result is a good file holding the group's sorted lines, and the
   * disk is as if the merge had read the unsorted chunks.
   */
  lemma FirstLevelMerged(files0: Disk, group: seq<string>, files1: Disk, sorted: Disk,
                         name: string, written: seq<string>, files': Disk)
    requires group != []
    requires forall i, j :: 0 <= i < j < |group| ==> group[i] != group[j]
    requires forall c :: c in group ==> c in files1 && c in files0 && files1[c] == files0[c] && SortChunk(files0[c]).Ok?
    requires sorted == SortedAt(files1, group) && Mergeable(sorted, group)
    requires name !in group && files' == Replaced(sorted, group, name, written)
    requires multiset(written) == TotalBag(Contents(sorted, group)) && Canonical(written)
    requires AllSorted(Contents(sorted, group)) ==> SortedLines(written)
    ensures forall c :: c in group ==> c in files0 && SortChunk(files0[c]).Ok? && SortChunk(files0[c]).value != []
    ensures Good(written, ChunkBag(files0, group))
    ensures files' == Replaced(files1, group, name, written)
  {
    SortedGroupMergeable(files0, files1, group);
    SortedGroupGood(files0, files1, group);
    MergeInputs(sorted, group, SortedBags(Contents(files0, group)));
    MergedGood(written, ChunkBag(files0, group));
    ReplacedSortedAt(files1, group, name, written);
  }

  /** The oldest `m` outstanding results can be merged. */
  lemma ReduceInputs(files: Disk, tasks: seq<string>, bags: seq<multiset<string>>, m: nat)
    requires TaskFiles(files, tasks, bags) && 1 <= m <= |tasks|
    ensures Mergeable(files, tasks[..m])
  {
    TaskFilesAll(files, tasks, bags);
    MergeInputs(files, tasks[..m], bags[..m]);
  }

  /** Merging the oldest `m` outstanding results gives a good file holding the sum of their bags. */
  lemma ReduceMerged(files: Disk, tasks: seq<string>, bags: seq<multiset<string>>, m: nat, written: seq<string>)
    requires TaskFiles(files, tasks, bags) && 1 <= m <= |tasks|
    requires multiset(written) == TotalBag(Contents(files, tasks[..m])) && Canonical(written)
    requires AllSorted(Contents(files, tasks[..m])) ==> SortedLines(written)
    ensures Good(written, SumBags(bags[..m]))
  {
    TaskFilesAll(files, tasks, bags);
    MergeInputs(files, tasks[..m], bags[..m]);
    MergedGood(written, SumBags(bags[..m]));
  }

  /**
   * The next generated name is none of the outstanding results, and removing
   * the `m` oldest results leaves the younger ones in order.
   */
  lemma NextNameFresh(filePath: string, basePath: string, names: seq<string>, count0: nat, count: nat,
                      tasks: seq<string>, ids: seq<nat>, m: nat)
    requires Apart(filePath, basePath, names) && |names| <= count0
    requires TaskIds(basePath, count0, count, tasks, ids) && m <= |tasks|
    ensures ChunkName(basePath, count + 1) !in tasks[..m]
    ensures RemoveKeys(tasks, tasks[..m]) == tasks[m..]
  {
    TasksApart(filePath, basePath, names, count0, count, tasks, ids);
    assert forall x :: x in tasks[..m] ==> x in tasks;
    RemoveKeysOldest(tasks, m);
  }

  /**
   * Before a merge of the reduction stage: the next generated name is none of
   * the oldest results, they can be merged, and removing them from the task
   * list leaves the younger ones in order.
   */
  lemma ReduceBefore(filePath: string, basePath: string, names: seq<string>, files0: Disk, count0: nat,
                     files: Disk, count: nat, tasks: seq<string>, ids: seq<nat>, bags: seq<multiset<string>>,
                     group: seq<string>, next: nat)
    requires Apart(filePath, basePath, names)
    requires Progress(basePath, names, files0, count0, |names|, files, count, tasks, ids, bags)
    requires 1 <= |group| <= |tasks| && group == tasks[..|group|]
    requires next == count + 1
    ensures ChunkName(basePath, next) !in group
    ensures Mergeable(files, group)
    ensures RemoveKeys(tasks, group) == tasks[|group|..]
  {
    NextNameFresh(filePath, basePath, names, count0, count, tasks, ids, |group|);
    ReduceInputs(files, tasks, bags, |group|);
  }

  /** After a merge of the reduction stage: the invariant holds of the new files and task list. */
  lemma ReduceAfter(filePath: string, basePath: string, names: seq<string>, files0: Disk, count0: nat,
                    files: Disk, count: nat, tasks: seq<string>, ids: seq<nat>, bags: seq<multiset<string>>,
                    group: seq<string>, next: nat, w: seq<string>,
                    files': Disk, tasks': seq<string>, ids': seq<nat>, bags': seq<multiset<string>>)
    requires Apart(filePath, basePath, names)
    requires Progress(basePath, names, files0, count0, |names|, files, count, tasks, ids, bags)
    requires 1 <= |group| <= |tasks| && group == tasks[..|group|]
    requires next == count + 1
    requires multiset(w) == TotalBag(Contents(files, group)) && Canonical(w)
    requires AllSorted(Contents(files, group)) ==> SortedLines(w)
    requires files' == Replaced(files, group, ChunkName(basePath, next), w)
    requires tasks' == tasks[|group|..] + [ChunkName(basePath, next)]
    requires ids' == ids[|group|..] + [next] && bags' == bags[|group|..] + [SumBags(bags[..|group|])]
    ensures |tasks'| == |tasks| - |group| + 1 && tasks'[..|tasks| - |group|] == tasks[|group|..]
    ensures Progress(basePath, names, files0, count0, |names|, files', next, tasks', ids', bags')
  {
    assert tasks'[..|tasks| - |group|] == tasks[|group|..];
    ReduceMerged(files, tasks, bags, |group|, w);
    ReduceStep(filePath, basePath, names, files0, count0, files, count, tasks, ids, bags, |group|, w,
               files', tasks', ids', bags');
  }

  /** One chunk: what sorting it alone writes is what sorting all the lines writes. */
  lemma {:induction false} SingleResult(names: seq<string>, files0: Disk)
    requires |names| == 1 && names[0] in files0 && SortChunk(files0[names[0]]).Ok?
    ensures Runnable(names, files0)
    ensures Concat(Contents(files0, names)) == files0[names[0]]
  {
    assert Contents(files0, names)[0] == files0[names[0]];
    assert Concat(Contents(files0, names)) == Concat(Contents(files0, names)[..0]) + files0[names[0]];
  }

  /** One chunk, sorted and moved to the result file: only the chunk is gone, nothing else changed. */
  lemma {:induction false} SingleCleaned(filePath: string, basePath: string, names: seq<string>, files0: Disk,
                                         count: nat, after: Disk, v: seq<string>)
    requires |names| == 1 && filePath != names[0]
    requires after == (files0[names[0] := v] - {names[0]})[filePath := v]
    ensures Cleaned(basePath, names, filePath, files0, count, after, count)
  {
    forall x | x != filePath
      ensures x in after <==> x in files0 && x !in names && !Generated(basePath, x, count, count)
    {
      assert x in names <==> x == names[0];
    }
  }

  /** When every chunk has been merged, every chunk could be sorted and, there being two or more, none was empty. */
  lemma FinalRunnable(names: seq<string>, files0: Disk)
    requires |names| >= 2 && Processed(names, files0, |names|)
    ensures Runnable(names, files0)
  {
    assert names[..|names|] == names;
  }

  /** The last merge writes what sorting all the chunks' lines at once writes. */
  lemma FinalResult(names: seq<string>, files0: Disk, bags: seq<multiset<string>>, w: seq<string>)
    requires Processed(names, files0, |names|) && SumBags(bags) == ChunkBag(files0, names[..|names|])
    requires Good(w, SumBags(bags))
    ensures SortChunk(Concat(Contents(files0, names))).Ok? && w == SortChunk(Concat(Contents(files0, names))).value
  {
    assert names[..|names|] == names;
    var parts := Contents(files0, names);
    forall r | 0 <= r < |parts| ensures SortChunk(parts[r]).Ok? {
      assert names[r] in names[..|names|];
    }
    ConcatSorts(parts);
    var sorted := SortChunk(Concat(parts)).value;
    SortChunkSorted(Concat(parts));
    SortedLinesUnique(w, sorted);
  }

  /** The last merge leaves the files the run started with, less the chunks and every generated file. */
  lemma FinalCleaned(filePath: string, basePath: string, names: seq<string>, files0: Disk, count0: nat,
                     files: Disk, count: nat, tasks: seq<string>, ids: seq<nat>, w: seq<string>, files': Disk)
    requires Apart(filePath, basePath, names) && |names| <= count0 <= count
    requires TaskIds(basePath, count0, count, tasks, ids)
    requires Untouched(basePath, names, files0, count0, |names|, files, count, tasks)
    requires files' == Replaced(files, tasks, filePath, w)
    ensures Cleaned(basePath, names, filePath, files0, count0, files', count)
  {
    assert names[..|names|] == names;
    TasksApart(filePath, basePath, names, count0, count, tasks, ids);
  }

  /** Before the last merge: the result file is none of the outstanding results, and they can be merged. */
  lemma FinalBefore(filePath: string, basePath: string, names: seq<string>, files0: Disk, count0: nat,
                    files: Disk, count: nat, tasks: seq<string>, ids: seq<nat>, bags: seq<multiset<string>>)
    requires Apart(filePath, basePath, names)
    requires Progress(basePath, names, files0, count0, |names|, files, count, tasks, ids, bags)
    ensures filePath !in tasks
    ensures Mergeable(files, tasks)
  {
    TasksApart(filePath, basePath, names, count0, count, tasks, ids);
    TaskFilesAll(files, tasks, bags);
    MergeInputs(files, tasks, bags);
  }

  /** After the last merge, the result file holds what sorting all the chunks' lines at once writes. */
  lemma FinalMerged(names: seq<string>, files0: Disk, files: Disk, tasks: seq<string>, bags: seq<multiset<string>>,
                    w: seq<string>)
    requires Processed(names, files0, |names|) && SumBags(bags) == ChunkBag(files0, names[..|names|])
    requires TaskFiles(files, tasks, bags) && 1 <= |tasks|
    requires multiset(w) == TotalBag(Contents(files, tasks)) && Canonical(w)
    requires AllSorted(Contents(files, tasks)) ==> SortedLines(w)
    ensures SortChunk(Concat(Contents(files0, names))).Ok? && w == SortChunk(Concat(Contents(files0, names))).value
  {
    TaskFilesAll(files, tasks, bags);
    MergeInputs(files, tasks, bags);
    MergedGood(w, SumBags(bags));
    FinalResult(names, files0, bags, w);
  }

  /** The last merge writes the result file and leaves only what the run did not create or merge. */
  lemma FinalWritten(filePath: string, basePath: string, names: seq<string>, files0: Disk, count0: nat,
                     files: Disk, count: nat, tasks: seq<string>, ids: seq<nat>, w: seq<string>, files': Disk)
    requires Apart(filePath, basePath, names) && |names| <= count0 <= count
    requires TaskIds(basePath, count0, count, tasks, ids)
    requires Untouched(basePath, names, files0, count0, |names|, files, count, tasks)
    requires filePath !in tasks && files' == Replaced(files, tasks, filePath, w)
    ensures filePath in files' && files'[filePath] == w
    ensures Cleaned(basePath, names, filePath, files0, count0, files', count)
  {
    FinalCleaned(filePath, basePath, names, files0, count0, files, count, tasks, ids, w, files');
  }

  /**
   * The body of MergeChunksAsync: the result file created empty, the inputs
   * opened, merged into it, and deleted.
   */
  method MergeFiles(disk0: Disk, chunksFilesNames: seq<string>, resultFileName: string)
    returns (disk': Disk, written: seq<string>, failure: Option<RunError>)
    requires resultFileName !in chunksFilesNames
    ensures failure.None? <==> Mergeable(disk0, chunksFilesNames)
    ensures failure.None? ==> disk' == Replaced(disk0, chunksFilesNames, resultFileName, written)
    ensures failure.None? ==> multiset(written) == TotalBag(Contents(disk0, chunksFilesNames)) && Canonical(written)
    ensures failure.None? && AllSorted(Contents(disk0, chunksFilesNames)) ==> SortedLines(written)
    ensures failure.Some? ==> disk' == disk0[resultFileName := written]
  {
    // File.Create of the result, then a reader opened on every input
    var disk := disk0[resultFileName := []];
    var missing := FirstMissing(chunksFilesNames, disk);
    if missing.Some? {
      MissingNotMergeable(disk0, chunksFilesNames, missing.value);
      return disk, [], Some(MissingFile(missing.value));
    }
    disk', written, failure := MergeOpened(disk0, chunksFilesNames, resultFileName);
  }

  /**
   * The rest of MergeChunksAsync once every input is open: the inputs merged
   * into the created result file, then deleted.
   */
  method MergeOpened(disk0: Disk, chunksFilesNames: seq<string>, resultFileName: string)
    returns (disk': Disk, written: seq<string>, failure: Option<RunError>)
    requires resultFileName !in chunksFilesNames
    requires forall x :: x in chunksFilesNames ==> x in disk0
    ensures failure.None? <==> Mergeable(disk0, chunksFilesNames)
    ensures failure.None? ==> disk' == Replaced(disk0, chunksFilesNames, resultFileName, written)
    ensures failure.None? ==> multiset(written) == TotalBag(Contents(disk0, chunksFilesNames)) && Canonical(written)
    ensures failure.None? && AllSorted(Contents(disk0, chunksFilesNames)) ==> SortedLines(written)
    ensures failure.Some? ==> disk' == disk0[resultFileName := written]
  {
    var inputs := Contents(disk0, chunksFilesNames);
    MergeableIff(disk0, chunksFilesNames, inputs);
    var mergeFailure;
    written, mergeFailure := MergeLines(inputs);
    // the writer's lines land in the created result file
    var disk := disk0[resultFileName := written];
    if mergeFailure.Some? {
      return disk, written, Some(MergeFailed(resultFileName, mergeFailure.value));
    }
    // File.Delete of every input
    disk' := Deleted(disk, chunksFilesNames);
    failure := None;
  }
}
