/** A scan over a store whose files are tables of bytes: the iterators opened from those bytes walk
    the runs the merge is given. */
module StoreScans {
  import opened Format
  import opened SnapshotSpec
  import opened Coding
  import opened FilterBlocks
  import opened TableFormat
  import opened Versions
  import opened StoreSpec
  import opened Merger
  import opened DBIterator
  import opened Scans
  import opened TableScans
  import TwoLevel
  import Database

  /** A table file: its bytes, its index block, and the blocks the index leads to. */
  datatype StoredTable = StoredTable(table: Table, blocks: seq<DataBlock>, index: DataBlock)

  /** The table files, by number. */
  type Disk = nat -> StoredTable

  /** The disk has the file: a table that holds what the version says of it. */
  ghost predicate OnDisk(users: set<Bytes>, policy: Policy, disk: Disk, f: File) {
    var t := disk(f.number);
    && f.number < TWO_64 && TableFor(users, policy, t.table, t.blocks, t.index)
    && AllInternal(users, Flat(t.blocks)) && f.entries == Decode(users, Flat(t.blocks))
  }

  ghost predicate AllOnDisk(users: set<Bytes>, policy: Policy, disk: Disk, files: seq<File>) {
    forall f :: f in files ==> OnDisk(users, policy, disk, f)
  }

  /** What an iterator over a table file walks. */
  ghost function TableRun(users: set<Bytes>, t: StoredTable): seq<Entry> {
    if AllInternal(users, t.index.layout.es) then TableList(users, t.table.file, t.index.layout.es) else []
  }

  lemma {:induction false} TableRunIs(users: set<Bytes>, policy: Policy, disk: Disk, f: File)
    requires OnDisk(users, policy, disk, f)
    ensures TableRun(users, disk(f.number)) == f.entries
  {
    var t := disk(f.number);
    TableIsWalked(users, policy, t.table, t.blocks, t.index);
  }

  // A sorted level.

  /** The value the iterator over a list of files gives for a file: its number and size. */
  function FileValue(f: File): Bytes {
    Fixed64(f.number) + Fixed64(f.size)
  }

  function FileIndex(files: seq<File>): (r: seq<Entry>)
    ensures |r| == |files| && forall i :: 0 <= i < |r| ==> r[i] == Entry(files[i].largest, FileValue(files[i]))
  {
    seq(|files|, i requires 0 <= i < |files| => Entry(files[i].largest, FileValue(files[i])))
  }

  /** What the file function opens for such a value. */
  ghost function FileAt(users: set<Bytes>, disk: Disk, value: Bytes): seq<Entry> {
    if |value| != 16 then [] else TableRun(users, disk(Unfixed(value[..8])))
  }

  lemma {:induction false} FixedLength(v: nat, n: nat)
    ensures |Fixed(v, n)| == n
  {
    if n > 0 { FixedLength(v / 256, n - 1); }
  }

  lemma {:induction false} FileAtIs(users: set<Bytes>, policy: Policy, disk: Disk, f: File)
    requires OnDisk(users, policy, disk, f)
    ensures FileAt(users, disk, FileValue(f)) == f.entries
  {
    FixedLength(f.number, 8);
    FixedLength(f.size, 8);
    assert FileValue(f)[..8] == Fixed64(f.number);
    Fixed64RoundTrip(f.number);
    TableRunIs(users, policy, disk, f);
  }

  ghost predicate OpensFiles(files: seq<File>, open: Bytes -> seq<Entry>) {
    forall i :: 0 <= i < |files| ==> open(FileValue(files[i])) == files[i].entries
  }

  lemma {:induction false} FileBetween(files: seq<File>, i: nat, e: Entry)
    requires GoodFiles(files) && Ordered(files) && i < |files| && e in files[i].entries
    ensures !Less(files[i].largest, e.key)
    ensures forall j :: 0 <= j < i ==> Less(files[j].largest, e.key)
  {
    assert files[i] in files;
    EntryInRange(files[i], e);
    forall j | 0 <= j < i
      ensures Less(files[j].largest, e.key)
    {
      assert Precedes(files[j].largest, files[i].smallest);
    }
  }

  /** The list of files of a sorted level indexes their tables. */
  lemma {:induction false} LevelIsWellIndexed(files: seq<File>, open: Bytes -> seq<Entry>)
    requires GoodFiles(files) && Ordered(files) && OpensFiles(files, open)
    ensures TwoLevel.WellIndexed(FileIndex(files), open)
  {
    forall i | 0 <= i < |files|
      ensures Sorted(files[i].entries) && files[i].entries != []
      ensures files[i].largest == files[i].entries[|files[i].entries| - 1].key
    {
      assert files[i] in files;
    }
    forall i, j | 0 <= i < j < |files|
      ensures Less(files[i].largest, files[j].largest)
    {
      FileBetween(files, j, files[j].entries[|files[j].entries| - 1]);
    }
    forall i, k | 0 <= i < |files| && 0 <= k < |files[i].entries|
      ensures !Less(files[i].largest, files[i].entries[k].key)
      ensures i > 0 ==> Less(files[i - 1].largest, files[i].entries[k].key)
    {
      FileBetween(files, i, files[i].entries[k]);
    }
  }

  lemma {:induction false} LevelIsWalked(files: seq<File>, open: Bytes -> seq<Entry>, n: nat)
    requires n <= |files| && OpensFiles(files, open)
    ensures TwoLevel.Flat(FileIndex(files), open, n) == JoinedFiles(files[..n])
  {
    if n > 0 {
      LevelIsWalked(files, open, n - 1);
      assert files[..n][..n - 1] == files[..n - 1];
    }
  }

  /** What the iterator over a sorted level walks: two levels of files over two levels of blocks. */
  ghost function LevelRun(users: set<Bytes>, disk: Disk, files: seq<File>): seq<Entry> {
    TwoLevel.Flat(FileIndex(files), v => FileAt(users, disk, v), |files|)
  }

  lemma {:induction false} LevelRunIs(users: set<Bytes>, policy: Policy, disk: Disk, files: seq<File>)
    requires AllOnDisk(users, policy, disk, files)
    ensures LevelRun(users, disk, files) == JoinedFiles(files)
    ensures GoodFiles(files) && Ordered(files)
        ==> TwoLevel.WellIndexed(FileIndex(files), v => FileAt(users, disk, v))
  {
    var open := v => FileAt(users, disk, v);
    forall i | 0 <= i < |files|
      ensures open(FileValue(files[i])) == files[i].entries
    {
      assert files[i] in files;
      FileAtIs(users, policy, disk, files[i]);
    }
    LevelIsWalked(files, open, |files|);
    assert files[..|files|] == files;
    if GoodFiles(files) && Ordered(files) { LevelIsWellIndexed(files, open); }
  }

  // The store.

  ghost function TableRuns(users: set<Bytes>, disk: Disk, files: seq<File>): seq<seq<Entry>> {
    if files == [] then [] else [TableRun(users, disk(files[0].number))] + TableRuns(users, disk, files[1..])
  }

  ghost function SortedRuns(users: set<Bytes>, disk: Disk, levels: Levels, l: nat): seq<seq<Entry>>
    decreases |levels| - l
  {
    if l >= |levels| then []
    else (if levels[l] == [] then [] else [LevelRun(users, disk, levels[l])]) + SortedRuns(users, disk, levels, l + 1)
  }

  /** What the children of the internal iterator walk: the memtables, each table of level 0, and
      each sorted level with a file. */
  ghost function IteratorRuns(users: set<Bytes>, disk: Disk, st: State): seq<seq<Entry>>
    requires |st.levels| == NUM_LEVELS
  {
    [st.mem] + (if st.imm.Some? then [st.imm.value] else []) +
    (TableRuns(users, disk, st.levels[0]) + SortedRuns(users, disk, st.levels, 1))
  }

  lemma {:induction false} TableRunsAre(users: set<Bytes>, policy: Policy, disk: Disk, files: seq<File>)
    requires AllOnDisk(users, policy, disk, files)
    ensures TableRuns(users, disk, files) == Database.EntriesOf(files)
  {
    if files != [] {
      TableRunIs(users, policy, disk, files[0]);
      TableRunsAre(users, policy, disk, files[1..]);
    }
  }

  lemma {:induction false} SortedRunsAre(users: set<Bytes>, policy: Policy, disk: Disk, levels: Levels, l: nat)
    requires forall m :: l <= m < |levels| ==> AllOnDisk(users, policy, disk, levels[m])
    ensures SortedRuns(users, disk, levels, l) == LevelRuns(levels, l)
    decreases |levels| - l
  {
    if l < |levels| {
      LevelRunIs(users, policy, disk, levels[l]);
      SortedRunsAre(users, policy, disk, levels, l + 1);
    }
  }

  /** A scan over the bytes of the store: the iterators opened from them, merged, list at every
      sequence number from the floor on the map replayed up to it. */
  lemma {:induction false} ScanOfBytesListsMap(users: set<Bytes>, policy: Policy, disk: Disk, st: State, s: nat)
    requires Inv(st) && st.floor <= s <= |st.log|
    requires forall l :: 0 <= l < NUM_LEVELS ==> AllOnDisk(users, policy, disk, st.levels[l])
    ensures RunsApart(IteratorRuns(users, disk, st))
    ensures Lists(View(MergeAll(IteratorRuns(users, disk, st)), s), Replay(st.log[..s]))
  {
    TableRunsAre(users, policy, disk, st.levels[0]);
    SortedRunsAre(users, policy, disk, st.levels, 1);
    ChildrenMerge(st);
    ViewListsMap(st, MergeAll(ChildRuns(st)), s);
  }
}
