/** Iterating over the whole store: `NewInternalIterator` and `NewIterator`. */
module Scans {
  import opened Format
  import opened SnapshotSpec
  import opened Versions
  import opened StoreSpec
  import opened StoreProofs
  import opened StoreRuns
  import opened Cursors
  import opened Merger
  import opened DBIterator
  import opened Database

  /** One run per non-empty sorted level: its tables one after another, as the two-level
      iterator presents them. */
  function LevelRuns(levels: Levels, l: nat): seq<seq<Entry>>
    decreases |levels| - l
  {
    if l >= |levels| then []
    else (if levels[l] == [] then [] else [JoinedFiles(levels[l])]) + LevelRuns(levels, l + 1)
  }

  /** The children of the internal iterator. */
  function ChildRuns(st: State): seq<seq<Entry>>
    requires |st.levels| == NUM_LEVELS
  {
    [st.mem] + (if st.imm.Some? then [st.imm.value] else []) + (EntriesOf(st.levels[0]) + LevelRuns(st.levels, 1))
  }

  lemma NewerApart(a: seq<Entry>, b: seq<Entry>)
    requires Newer(a, b)
    ensures KeysApart(a, b)
  {
    forall i, j | 0 <= i < |a| && 0 <= j < |b|
      ensures a[i].key != b[j].key
    {
      assert a[i] in a && b[j] in b;
    }
  }

  lemma {:induction false} LevelIsSorted(files: seq<File>)
    requires GoodFiles(files) && Ordered(files)
    ensures Sorted(JoinedFiles(files))
  {
    if files != [] {
      var front, last := files[..|files| - 1], files[|files| - 1];
      assert last in files && GoodFiles(front);
      LevelIsSorted(front);
      var r := JoinedFiles(front);
      forall i, j | 0 <= i < |r| && 0 <= j < |last.entries|
        ensures Less(r[i].key, last.entries[j].key)
      {
        assert r[i] in r;
        JoinedFilesMembers(front, r[i]);
        var f :| f in front && r[i] in f.entries;
        EntryInRange(f, r[i]);
        EntryInRange(last, last.entries[j]);
        assert exists n :: 0 <= n < |front| && files[n] == f;
      }
    }
  }

  lemma Joins(a: seq<seq<Entry>>, b: seq<seq<Entry>>)
    requires RunsApart(a) && RunsApart(b) && forall x, y :: x in a && y in b ==> KeysApart(x, y)
    ensures RunsApart(a + b)
  {
    forall i, j | 0 <= i < j < |a + b|
      ensures KeysApart((a + b)[i], (a + b)[j])
    {
      if i < |a| <= j { assert a[i] in a && b[j - |a|] in b; }
    }
  }

  /** Every entry of one of the level runs lies in a file of one of those levels. */
  ghost predicate FromLevels(levels: Levels, l: nat, run: seq<Entry>) {
    forall e :: e in run ==> exists m, f :: l <= m < |levels| && f in levels[m] && e in f.entries
  }

  lemma {:induction false} LevelRunsApart(levels: Levels, l: nat)
    requires LevelsOk(levels) && 1 <= l <= NUM_LEVELS
    ensures RunsApart(LevelRuns(levels, l))
    ensures forall r :: r in LevelRuns(levels, l) ==> FromLevels(levels, l, r)
    decreases NUM_LEVELS - l
  {
    if l < NUM_LEVELS {
      var rest := LevelRuns(levels, l + 1);
      LevelRunsApart(levels, l + 1);
      assert forall r :: r in rest ==> FromLevels(levels, l, r);
      if levels[l] != [] {
        var first := JoinedFiles(levels[l]);
        LevelIsSorted(levels[l]);
        forall e | e in first
          ensures InFiles(levels[l], e)
        {
          JoinedFilesMembers(levels[l], e);
        }
        assert FromLevels(levels, l, first);
        forall y | y in rest
          ensures KeysApart(first, y)
        {
          LevelOverRun(levels, l, first, y);
        }
        Joins([first], rest);
      } else {
        assert LevelRuns(levels, l) == rest;
      }
    }
  }

  /** Entries of one level's files share no internal key with a run from further down. */
  lemma LevelOverRun(levels: Levels, l: nat, run: seq<Entry>, below: seq<Entry>)
    requires LevelsOk(levels) && l < NUM_LEVELS
    requires (forall e :: e in run ==> InFiles(levels[l], e)) && FromLevels(levels, l + 1, below)
    ensures KeysApart(run, below)
  {
    forall x, y | x in run && y in below && x.key.user == y.key.user
      ensures x.key.sequence > y.key.sequence
    {
      var f :| f in levels[l] && x in f.entries;
      var m, g :| l + 1 <= m < |levels| && g in levels[m] && y in g.entries;
      assert NewerLevel(levels[l], levels[m]);
    }
    NewerApart(run, below);
  }

  lemma LevelZeroApart(levels: Levels)
    requires LevelsOk(levels)
    ensures RunsApart(EntriesOf(levels[0]))
    ensures forall r, e :: r in EntriesOf(levels[0]) && e in r ==> InFiles(levels[0], e)
  {
    var files := levels[0];
    EntriesOfAt(files);
    forall i | 0 <= i < |files|
      ensures Sorted(EntriesOf(files)[i])
    {
      assert GoodFiles(files) && files[i] in files;
    }
    forall i, j | 0 <= i < j < |files|
      ensures KeysApart(EntriesOf(files)[i], EntriesOf(files)[j])
    {
      assert files[i] in files && files[j] in files && FileBefore(files[i], files[j]);
      FilesApart(levels, 0, files[i], 0, files[j]);
    }
    forall r, e | r in EntriesOf(files) && e in r
      ensures InFiles(files, e)
    {
      var i :| 0 <= i < |EntriesOf(files)| && EntriesOf(files)[i] == r;
      InEntriesOf(files, e);
    }
  }

  /** The table runs hold apart, and every entry of theirs is stored. */
  lemma {:induction false} TreeRuns(levels: Levels)
    requires LevelsOk(levels)
    ensures RunsApart(EntriesOf(levels[0]) + LevelRuns(levels, 1))
    ensures forall r :: r in EntriesOf(levels[0]) + LevelRuns(levels, 1) ==> FromLevels(levels, 0, r)
  {
    LevelZeroApart(levels);
    LevelRunsApart(levels, 1);
    forall x, y | x in EntriesOf(levels[0]) && y in LevelRuns(levels, 1)
      ensures KeysApart(x, y)
    {
      LevelOverRun(levels, 0, x, y);
    }
    Joins(EntriesOf(levels[0]), LevelRuns(levels, 1));
  }

  lemma {:induction false} LevelRunsCover(levels: Levels, l: nat, m: nat, f: File, e: Entry)
    requires l <= m < |levels| && f in levels[m] && e in f.entries
    ensures exists r :: r in LevelRuns(levels, l) && e in r
    decreases m - l
  {
    if l == m {
      JoinedFilesMembers(levels[l], e);
      assert InFiles(levels[l], e);
      assert JoinedFiles(levels[l]) in LevelRuns(levels, l);
    } else {
      LevelRunsCover(levels, l + 1, m, f, e);
      var r :| r in LevelRuns(levels, l + 1) && e in r;
      assert r in LevelRuns(levels, l);
    }
  }

  lemma {:induction false} StoredInSomeRun(levels: Levels, e: Entry)
    requires |levels| == NUM_LEVELS
    ensures Stored(levels, e) ==> exists r :: r in EntriesOf(levels[0]) + LevelRuns(levels, 1) && e in r
  {
    if Stored(levels, e) {
      var m, f :| 0 <= m < |levels| && f in levels[m] && e in f.entries;
      if m == 0 {
        InEntriesOf(levels[0], e);
        assert InFiles(levels[0], e);
        var i :| 0 <= i < |EntriesOf(levels[0])| && e in EntriesOf(levels[0])[i];
        assert EntriesOf(levels[0])[i] in EntriesOf(levels[0]) + LevelRuns(levels, 1);
      } else {
        LevelRunsCover(levels, 1, m, f, e);
        var r :| r in LevelRuns(levels, 1) && e in r;
        assert r in EntriesOf(levels[0]) + LevelRuns(levels, 1);
      }
    }
  }

  lemma MemtableOverTree(st: State, run: seq<Entry>, below: seq<Entry>)
    requires Shape(st) && (run == st.mem || run == Imm(st)) && FromLevels(st.levels, 0, below)
    ensures KeysApart(run, below)
  {
    forall x, y | x in run && y in below && x.key.user == y.key.user
      ensures x.key.sequence > y.key.sequence
    {
      var m, f :| 0 <= m < |st.levels| && f in st.levels[m] && y in f.entries;
      MemtablesAreNewer(st, m, f, x, y);
    }
    NewerApart(run, below);
  }

  /** The children hold apart, so they merge; together they hold what the store holds. */
  lemma ChildrenMerge(st: State)
    requires Shape(st)
    ensures RunsApart(ChildRuns(st))
    ensures Sorted(MergeAll(ChildRuns(st)))
    ensures Entries(MergeAll(ChildRuns(st))) == HeldIn(st)
  {
    var tree := EntriesOf(st.levels[0]) + LevelRuns(st.levels, 1);
    var tables := [st.mem] + (if st.imm.Some? then [st.imm.value] else []);
    TreeRuns(st.levels);
    NewerApart(st.mem, Imm(st));
    assert RunsApart(tables);
    forall x, y | x in tables && y in tree
      ensures KeysApart(x, y)
    {
      MemtableOverTree(st, x, y);
    }
    Joins(tables, tree);
    assert ChildRuns(st) == tables + tree;
    MergeAllIsSortedUnion(ChildRuns(st));
    forall e
      ensures e in MergeAll(ChildRuns(st)) <==> Held(st, e)
    {
      ChildrenHold(st, tables, tree, e);
    }
  }

  lemma ChildrenHold(st: State, tables: seq<seq<Entry>>, tree: seq<seq<Entry>>, e: Entry)
    requires |st.levels| == NUM_LEVELS
    requires tables == [st.mem] + (if st.imm.Some? then [st.imm.value] else [])
    requires tree == EntriesOf(st.levels[0]) + LevelRuns(st.levels, 1)
    requires forall r :: r in tree ==> FromLevels(st.levels, 0, r)
    ensures (exists i :: 0 <= i < |tables + tree| && e in (tables + tree)[i]) <==> Held(st, e)
  {
    var all := tables + tree;
    if i :| 0 <= i < |all| && e in all[i] {
      if i >= |tables| {
        assert all[i] in tree && FromLevels(st.levels, 0, all[i]);
        assert Stored(st.levels, e);
      }
    }
    if Held(st, e) {
      if e in st.mem { assert all[0] == st.mem; }
      else if e in Imm(st) { assert all[1] == st.imm.value; }
      else {
        StoredInSomeRun(st.levels, e);
        var r :| r in tree && e in r;
        var i :| 0 <= i < |tree| && tree[i] == r;
        assert all[|tables| + i] == r;
      }
    }
  }

  /** An iterator over the store, at the present or at a live snapshot: what it lists is the map
      replayed from the updates up to that point, in key order. */
  method NewIterator(db: DB, snapshot: Option<nat>) returns (it: DBIter)
    requires db.Valid() && (snapshot.Some? ==> snapshot.value in db.snapshots)
    ensures it.Inv() && !it.Valid()
    ensures var s := if snapshot.Some? then snapshot.value else |db.log|;
            s <= |db.log| && Lists(it.TheView(), Replay(db.log[..s]))
  {
    var s := if snapshot.Some? then snapshot.value else db.lastSequence;
    ghost var st := db.St();
    var runs := [db.mem] + (if db.imm.Some? then [db.imm.value] else []) +
                (EntriesOf(db.levels[0]) + LevelRuns(db.levels, 1));
    ChildrenMerge(st);
    var children := NewCursors(runs);
    assert seq(|children|, i requires 0 <= i < |children| => children[i].items) == runs;
    var merged := new MergingIterator(children);
    it := new DBIter(merged, s);
    ViewListsMap(st, MergeAll(ChildRuns(st)), s);
  }

  method NewCursors(runs: seq<seq<Entry>>) returns (children: seq<ListCursor>)
    requires RunsApart(runs)
    ensures |children| == |runs|
    ensures forall i :: 0 <= i < |runs| ==> fresh(children[i]) && children[i].Inv() && children[i].items == runs[i]
    ensures forall i, j :: 0 <= i < j < |runs| ==> children[i] != children[j]
  {
    children := [];
    for n := 0 to |runs|
      invariant |children| == n
      invariant forall i :: 0 <= i < n ==> fresh(children[i]) && children[i].Inv() && children[i].items == runs[i]
      invariant forall i, j :: 0 <= i < j < n ==> children[i] != children[j]
    {
      var c := new ListCursor(runs[n]);
      children := children + [c];
    }
  }

  /** The list holds exactly the map's pairs, in ascending key order. */
  ghost predicate Lists(view: seq<(UserKey, Bytes)>, m: map<UserKey, Bytes>) {
    && (forall i, j :: 0 <= i < j < |view| ==> view[i].0 < view[j].0)
    && (forall k, v :: (k, v) in view <==> k in m && m[k] == v)
  }

  lemma ViewListsMap(st: State, all: seq<Entry>, s: nat)
    requires Inv(st) && st.floor <= s <= |st.log| && Sorted(all) && Entries(all) == HeldIn(st)
    ensures Lists(View(all, s), Replay(st.log[..s]))
  {
    var m := Replay(st.log[..s]);
    forall i, j | 0 <= i < j < |View(all, s)|
      ensures View(all, s)[i].0 < View(all, s)[j].0
    {
      ViewAscends(all, s, i, j);
    }
    forall k, v
      ensures (k, v) in View(all, s) <==> k in m && m[k] == v
    {
      ViewIsWhatReadsShow(all, s, k, v);
      AnswersTheMap(st, k, s);
      if Shows(HeldIn(st), k, s, v) { AnswerIsTheRead(st, k, s, Some(v)); }
    }
  }
}
