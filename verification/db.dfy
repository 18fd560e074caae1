/** The store itself: one object whose methods are the steps of the state machine. */
module Database {
  import opened Format
  import opened SnapshotSpec
  import opened Versions
  import opened Compactions
  import opened StoreSpec
  import opened StoreProofs
  import opened StoreRuns
  import opened Boundaries
  import opened Picker
  import opened Cursors
  import opened Merger
  import opened DBIterator

  /** The entry added at its place in a sorted run. */
  function Inserted(es: seq<Entry>, e: Entry): seq<Entry> {
    var n := LowerBound(es, e.key);
    es[..n] + [e] + es[n..]
  }

  lemma InsertAt(es: seq<Entry>, n: nat, e: Entry)
    requires Sorted(es) && n <= |es|
    requires n > 0 ==> Less(es[n - 1].key, e.key)
    requires n < |es| ==> Less(e.key, es[n].key)
    ensures Sorted(es[..n] + [e] + es[n..])
  {
    assert forall i :: 0 <= i < n - 1 ==> Less(es[i].key, es[n - 1].key);
    assert forall i :: n < i < |es| ==> Less(es[n].key, es[i].key);
  }

  lemma InsertsOne(es: seq<Entry>, n: nat, e: Entry)
    requires n <= |es|
    ensures forall x :: x in es[..n] + [e] + es[n..] <==> x in es || x == e
  {
    assert es == es[..n] + es[n..];
  }

  lemma InsertedSorted(es: seq<Entry>, e: Entry)
    requires Sorted(es) && forall x :: x in es ==> x.key != e.key
    ensures Sorted(Inserted(es, e))
    ensures forall x :: x in Inserted(es, e) <==> x in es || x == e
  {
    var n := LowerBound(es, e.key);
    assert n < |es| ==> es[n] in es;
    InsertAt(es, n, e);
    InsertsOne(es, n, e);
  }

  /** Two different files of a version hold no common internal key. */
  lemma FilesApart(levels: Levels, l: nat, f: File, m: nat, g: File)
    requires LevelsOk(levels) && l <= m < NUM_LEVELS && f in levels[l] && g in levels[m]
    requires l == m ==> f != g
    ensures KeysApart(f.entries, g.entries)
  {
    forall i, j | 0 <= i < |f.entries| && 0 <= j < |g.entries|
      ensures f.entries[i].key != g.entries[j].key
    {
      if f.entries[i].key.user == g.entries[j].key.user {
        FilesDiffer(levels, l, f, m, g, f.entries[i], g.entries[j]);
      }
    }
  }

  function EntriesOf(files: seq<File>): seq<seq<Entry>> {
    if files == [] then [] else [files[0].entries] + EntriesOf(files[1..])
  }

  lemma {:induction false} EntriesOfAt(files: seq<File>)
    ensures |EntriesOf(files)| == |files| && forall i :: 0 <= i < |files| ==> EntriesOf(files)[i] == files[i].entries
  {
    if files != [] {
      EntriesOfAt(files[1..]);
    }
  }

  /** The inputs of a compaction hold no common internal key. */
  lemma InputsApart(levels: Levels, level: nat, in0: seq<File>, in1: seq<File>, i: nat, j: nat)
    requires LevelsOk(levels) && LegalInputs(levels, level, in0, in1)
    requires i < j < |in0 + in1|
    ensures KeysApart((in0 + in1)[i].entries, (in0 + in1)[j].entries)
  {
    assert i < |in0| ==> in0[i] in in0;
    assert i >= |in0| ==> in1[i - |in0|] in in1;
    assert j >= |in0| ==> in1[j - |in0|] in in1;
    if j < |in0| {
      assert in0[j] in in0 && FileBefore(in0[i], in0[j]);
      FilesApart(levels, level, in0[i], level, in0[j]);
    } else if i < |in0| {
      FilesApart(levels, level, in0[i], level + 1, in1[j - |in0|]);
    } else {
      assert FileBefore(in1[i - |in0|], in1[j - |in0|]);
      FilesApart(levels, level + 1, in1[i - |in0|], level + 1, in1[j - |in0|]);
    }
  }

  lemma InputsGood(levels: Levels, level: nat, in0: seq<File>, in1: seq<File>)
    requires LevelsOk(levels) && LegalInputs(levels, level, in0, in1)
    ensures GoodFiles(in0 + in1)
  {
    assert GoodFiles(levels[level]) && GoodFiles(levels[level + 1]);
  }

  lemma {:induction false} InEntriesOf(files: seq<File>, e: Entry)
    ensures (exists i :: 0 <= i < |EntriesOf(files)| && e in EntriesOf(files)[i]) <==> InFiles(files, e)
  {
    EntriesOfAt(files);
    if i :| 0 <= i < |EntriesOf(files)| && e in EntriesOf(files)[i] {
      assert files[i] in files;
    }
    if InFiles(files, e) {
      var f :| f in files && e in f.entries;
      var i :| 0 <= i < |files| && files[i] == f;
      assert e in EntriesOf(files)[i];
    }
  }

  /** The inputs of a compaction merge into one sorted list of exactly their entries. */
  lemma {:induction false} InputsMerge(levels: Levels, level: nat, in0: seq<File>, in1: seq<File>)
    requires LevelsOk(levels) && LegalInputs(levels, level, in0, in1)
    ensures Sorted(MergeAll(EntriesOf(in0 + in1)))
    ensures forall e :: e in MergeAll(EntriesOf(in0 + in1)) <==> InFiles(in0, e) || InFiles(in1, e)
    ensures forall e :: e in MergeAll(EntriesOf(in0 + in1)) ==> e.key.sequence <= MAX_SEQUENCE
  {
    var files := in0 + in1;
    var runs := EntriesOf(files);
    EntriesOfAt(files);
    InputsGood(levels, level, in0, in1);
    forall i | 0 <= i < |runs|
      ensures Sorted(runs[i])
    {
      assert files[i] in files;
    }
    forall i, j | 0 <= i < j < |runs|
      ensures KeysApart(runs[i], runs[j])
    {
      InputsApart(levels, level, in0, in1, i, j);
    }
    MergeAllIsSortedUnion(runs);
    forall e
      ensures e in MergeAll(runs) <==> InFiles(in0, e) || InFiles(in1, e)
    {
      InEntriesOf(files, e);
      assert InFiles(files, e) <==> InFiles(in0, e) || InFiles(in1, e);
    }
  }

  /** The files built from a compaction's outputs, numbered from `number` on. */
  function BuildOutputs(outputs: seq<seq<Entry>>, number: nat, sizes: nat -> nat): (files: seq<File>)
    requires forall i :: 0 <= i < |outputs| ==> outputs[i] != []
    ensures |files| == |outputs|
    ensures forall i :: 0 <= i < |files| ==> BuiltFrom(files[i], outputs[i], number + i)
  {
    if outputs == [] then []
    else
      var n := |outputs| - 1;
      var o := outputs[n];
      BuildOutputs(outputs[..n], number, sizes) + [File(number + n, sizes(n), o[0].key, o[|o| - 1].key, o)]
  }

  predicate BuiltFrom(f: File, entries: seq<Entry>, number: nat) {
    && f.entries == entries != [] && f.number == number
    && f.smallest == entries[0].key && f.largest == entries[|entries| - 1].key
  }

  lemma {:induction false} BuiltJoined(outputs: seq<seq<Entry>>, number: nat, sizes: nat -> nat)
    requires forall i :: 0 <= i < |outputs| ==> outputs[i] != []
    ensures JoinedFiles(BuildOutputs(outputs, number, sizes)) == Joined(outputs)
  {
    if outputs != [] {
      var n := |outputs| - 1;
      BuiltJoined(outputs[..n], number, sizes);
      assert BuildOutputs(outputs, number, sizes)[..n] == BuildOutputs(outputs[..n], number, sizes);
    }
  }

  lemma {:induction false} PieceSorted(files: seq<File>, i: nat)
    requires Sorted(JoinedFiles(files)) && i < |files|
    ensures Sorted(files[i].entries)
  {
    var front, last := files[..|files| - 1], files[|files| - 1];
    var n := |JoinedFiles(front)|;
    if i < |files| - 1 {
      assert JoinedFiles(files)[..n] == JoinedFiles(front);
      PieceSorted(front, i);
    } else {
      assert JoinedFiles(files)[n..] == last.entries;
    }
  }

  /** The built files are well formed and in order. */
  lemma {:induction false} BuiltGood(files: seq<File>, number: nat)
    requires Sorted(JoinedFiles(files)) && forall e :: e in JoinedFiles(files) ==> e.key.sequence <= MAX_SEQUENCE
    requires forall i :: 0 <= i < |files| ==> BuiltFrom(files[i], files[i].entries, number + i)
    ensures GoodFiles(files) && Listed(files) && DistinctNumbers(files)
    ensures forall f :: f in files ==> number <= f.number < number + |files|
  {
    forall f | f in files
      ensures GoodFile(f)
    {
      var i :| 0 <= i < |files| && files[i] == f;
      PieceSorted(files, i);
      forall e | e in f.entries
        ensures e.key.sequence <= MAX_SEQUENCE
      {
        JoinedFilesMembers(files, e);
      }
    }
    forall i, j | 0 <= i < j < |files|
      ensures FileBefore(files[i], files[j])
    {
      JoinedInOrder(files, i, files[i].entries[0], j, files[j].entries[0]);
    }
  }

  lemma LoggedSnoc(log: seq<Op>, op: Op, x: Entry)
    ensures Logged(log + [op], x) <==> Logged(log, x) || x == LogEntry(log + [op], |log|)
  {
  }

  /** Inserts the updates of a batch one by one, numbering them after `last`. */
  method InsertInto(mem: seq<Entry>, batch: seq<Op>, last: nat, ghost log: seq<Op>) returns (table: seq<Entry>)
    requires Sorted(mem) && last == |log| && forall e :: e in mem ==> e.key.sequence <= last
    ensures Sorted(table)
    ensures forall e :: e in table <==> e in mem || (Logged(log + batch, e) && e.key.sequence > last)
  {
    table := mem;
    ghost var done := log;
    for i := 0 to |batch|
      invariant done == log + batch[..i]
      invariant Sorted(table)
      invariant forall e :: e in table ==> e.key.sequence <= last + i
      invariant forall e :: e in table <==> e in mem || (Logged(done, e) && e.key.sequence > last)
    {
      var e := Entry(IKey(batch[i].user, last + 1 + i, batch[i].kind), batch[i].value);
      forall x
        ensures Logged(done + [batch[i]], x) <==> Logged(done, x) || x == e
      {
        LoggedSnoc(done, batch[i], x);
      }
      InsertedSorted(table, e);
      table := Inserted(table, e);
      done := done + [batch[i]];
    }
    assert done == log + batch;
  }

  /** The work of a compaction on a fixed version: merge, drop, and build the output files. */
  method MergeInputs(levels: Levels, level: nat, in0: seq<File>, in1: seq<File>, ss: nat, number: nat,
                     stopBefore: nat -> bool, full: nat -> bool, sizes: nat -> nat)
    returns (ghost all: seq<Entry>, files: seq<File>)
    requires LevelsOk(levels) && LegalInputs(levels, level, in0, in1)
    ensures Sorted(all) && forall e :: e in all <==> InFiles(in0, e) || InFiles(in1, e)
    ensures JoinedFiles(files) == Kept(levels, level, all, ss, |all|)
    ensures GoodFiles(files) && Listed(files) && DistinctNumbers(files)
    ensures forall f :: f in files ==> number <= f.number < number + |files|
  {
    InputsMerge(levels, level, in0, in1);
    var input := MergeAll(EntriesOf(in0 + in1));
    var compact := new Compaction(levels, level);
    var outputs := compact.DoCompactionWork(input, ss, stopBefore, full);
    assert forall i :: 0 <= i < |outputs| ==> outputs[i] in outputs;
    files := BuildOutputs(outputs, number, sizes);
    KeptSorted(levels, level, input, ss, |input|);
    OutputsGood(outputs, number, sizes, input, Kept(levels, level, input, ss, |input|));
    all := input;
  }

  /** Files built from outputs that hold part of a sorted list. */
  lemma {:induction false} OutputsGood(outputs: seq<seq<Entry>>, number: nat, sizes: nat -> nat, input: seq<Entry>,
                                       kept: seq<Entry>)
    requires (forall i :: 0 <= i < |outputs| ==> outputs[i] != []) && Joined(outputs) == kept && Sorted(kept)
    requires (forall e :: e in kept ==> e in input) && forall e :: e in input ==> e.key.sequence <= MAX_SEQUENCE
    ensures var files := BuildOutputs(outputs, number, sizes);
            && JoinedFiles(files) == kept && GoodFiles(files) && Listed(files) && DistinctNumbers(files)
            && forall f :: f in files ==> number <= f.number < number + |files|
  {
    BuiltJoined(outputs, number, sizes);
    BuiltGood(BuildOutputs(outputs, number, sizes), number);
  }

  function Numbers(files: seq<File>): set<nat> {
    set f | f in files :: f.number
  }

  class DB {
    var mem: seq<Entry>
    var imm: Option<seq<Entry>>
    var levels: Levels
    var lastSequence: nat
    var nextFileNumber: nat
    var snapshots: seq<nat>
    ghost var log: seq<Op>      // every update so far
    ghost var floor: nat        // the largest smallest snapshot a compaction has used

    ghost function St(): State
      reads this
    {
      State(mem, imm, levels, nextFileNumber, snapshots, log, floor)
    }

    ghost predicate Valid()
      reads this
    {
      Inv(St()) && lastSequence == |log|
    }

    constructor ()
      ensures Valid() && Initial(St())
    {
      mem, imm, levels := [], None, seq(NUM_LEVELS, i => []);
      lastSequence, nextFileNumber, snapshots := 0, 2, [];
      log, floor := [], 0;
      new;
      InitialHolds(St());
    }

    /** Applies a batch to the memtable under the sequence numbers after the last one. */
    method Write(batch: seq<Op>)
      requires Valid() && lastSequence + |batch| < MAX_SEQUENCE
      modifies this
      ensures Valid() && WriteStep(old(St()), St(), batch)
      ensures lastSequence == old(lastSequence) + |batch|
    {
      ghost var st := St();
      assert forall e :: e in mem ==> Held(st, e);
      var table := InsertInto(mem, batch, lastSequence, log);
      mem := table;
      lastSequence := lastSequence + |batch|;
      log := log + batch;
      assert WriteStep(st, St(), batch);
      WriteKeeps(st, St(), batch);
    }

    /** Makes the memtable immutable and starts a new one, once the last one has been flushed. */
    method SwitchMemTable()
      requires Valid() && imm.None?
      modifies this
      ensures Valid() && RotateStep(old(St()), St())
    {
      imm, mem := Some(mem), [];
      RotateKeeps(old(St()), St());
    }

    /** Writes the immutable memtable out as a table. */
    method CompactMemTable(size: nat) returns (level: nat, ghost f: File)
      requires Valid() && imm.Some?
      modifies this
      ensures Valid() && imm == None && FlushStep(old(St()), St(), level, f)
      ensures old(imm) != Some([]) ==> LandsOn(old(levels), f.smallest.user, f.largest.user, level)
    {
      ghost var st := St();
      var es := imm.value;
      level := 0;
      f := File(0, 0, IKey(0, 0, Put), IKey(0, 0, Put), []);
      if es != [] {
        var file := File(nextFileNumber, size, es[0].key, es[|es| - 1].key, es);
        f := file;
        assert GoodFile(file) by {
          assert forall e :: e in es ==> Held(st, e);
        }
        EntryInRange(file, es[0]);
        level := PickLevelForMemTableOutput(levels, file.smallest.user, file.largest.user);
        assert GoodFiles(levels[level]);
        forall l, g | level > 0 && 0 <= l <= level && g in st.levels[l]
          ensures Apart(g, file)
        {
          assert Clear(st.levels[l], file.smallest.user, file.largest.user);
        }
        var merged := SaveLevel(levels[level], {}, [file]);
        levels := levels[level := merged];
        assert TreeEdit(st.levels, levels, level, [], [file], [], []);
      }
      nextFileNumber := nextFileNumber + 1;
      imm := None;
      FlushKeeps(st, St(), level, f);
    }

    /** What a move or a compaction does in any case: the step is one of the specification, the
        tree stays searchable, and each read at or above the smallest snapshot finds something
        older than before exactly when the step disturbs it.  A safe step keeps the invariant. */
    ghost predicate Moved(st: State, step: Step)
      requires Inv(st) && (step.Move? || step.Compact?) && Takes(st, St(), step)
      reads this
    {
      && lastSequence == |log| && Formed(levels)
      && (Safe(st, step) ==> Valid())
      && forall k, s :: SmallestSnapshot(st) <= s ==>
           && (ReadsOlder(st, St(), k, s) <==> Disturbs(st, step, k, s))
           && (!Disturbs(st, step, k, s) ==> Answer(St(), k, s) == Answer(st, k, s))
    }

    lemma MovedByStep(st: State, step: Step)
      requires Inv(st) && (step.Move? || step.Compact?) && Takes(st, St(), step) && lastSequence == |log|
      ensures Moved(st, step)
    {
      StepSinks(st, St(), step);
      if Safe(st, step) { StepKeeps(st, St(), step); }
      forall k, s | SmallestSnapshot(st) <= s
        ensures ReadsOlder(st, St(), k, s) <==> Disturbs(st, step, k, s)
        ensures !Disturbs(st, step, k, s) ==> Answer(St(), k, s) == Answer(st, k, s)
      {
        ReadsExactly(st, St(), step, k, s);
      }
    }

    /** Runs the compaction of the chosen inputs: a move when there is nothing to merge, else a
        merge whose output may be cut anywhere. */
    method RunCompaction(level: nat, in0: seq<File>, in1: seq<File>, grandparents: seq<File>, manual: bool,
                         stopBefore: nat -> bool, full: nat -> bool, sizes: nat -> nat)
      returns (ghost step: Step)
      requires Valid() && in0 != [] && LegalInputs(levels, level, in0, in1)
      modifies this
      ensures step.Move? <==> !manual && IsTrivialMove(in0, in1, grandparents)
      ensures step.Move? || step.Compact?
      ensures step.level == level && Upper(step) == in0 && Lower(step) == in1
      ensures Takes(old(St()), St(), step) && Moved(old(St()), step)
    {
      if !manual && IsTrivialMove(in0, in1, grandparents) {
        assert in0 == [in0[0]] && in1 == [];
        MoveFile(level, in0[0]);
        step := Move(level, in0[0]);
      } else {
        ghost var all, outs := DoCompactionWork(level, in0, in1, stopBefore, full, sizes);
        step := Compact(level, in0, in1, all, outs);
      }
      MovedByStep(old(St()), step);
    }

    /** Moves one file down a level as it is. */
    method MoveFile(level: nat, f: File)
      requires Valid() && LegalInputs(levels, level, [f], [])
      modifies this
      ensures lastSequence == old(lastSequence) == |log|
      ensures MoveStep(old(St()), St(), level, f)
    {
      MovedIsApart(levels, level, f);
      assert NewerLevel(levels[level], levels[level + 1]);
      var upper := SaveLevel(levels[level], {f.number}, []);
      var lower := SaveLevel(levels[level + 1], {}, [f]);
      levels := levels[level := upper][level + 1 := lower];
    }

    /** Merges the inputs, writes what is kept, and installs it. */
    method DoCompactionWork(level: nat, in0: seq<File>, in1: seq<File>,
                            stopBefore: nat -> bool, full: nat -> bool, sizes: nat -> nat)
      returns (ghost all: seq<Entry>, ghost outs: seq<File>)
      requires Valid() && in0 != [] && LegalInputs(levels, level, in0, in1)
      modifies this
      ensures lastSequence == old(lastSequence) == |log|
      ensures CompactStep(old(St()), St(), level, in0, in1, all, outs)
    {
      var ss := if snapshots == [] then lastSequence else snapshots[0];
      var files;
      all, files := MergeInputs(levels, level, in0, in1, ss, nextFileNumber, stopBefore, full, sizes);
      outs := files;
      InstallCompactionResults(level, in0, in1, all, files);
    }

    /** Replaces the inputs by the outputs in the current version. */
    method InstallCompactionResults(level: nat, in0: seq<File>, in1: seq<File>, ghost all: seq<Entry>, outs: seq<File>)
      requires Valid() && in0 != [] && LegalInputs(levels, level, in0, in1)
      requires Sorted(all) && (forall e :: e in all <==> InFiles(in0, e) || InFiles(in1, e))
      requires GoodFiles(outs) && Listed(outs) && DistinctNumbers(outs)
      requires forall f :: f in outs ==> nextFileNumber <= f.number < nextFileNumber + |outs|
      requires JoinedFiles(outs) == Kept(levels, level, all, SmallestSnapshot(St()), |all|)
      modifies this
      ensures lastSequence == old(lastSequence) == |log|
      ensures CompactStep(old(St()), St(), level, in0, in1, all, outs)
    {
      var upper, lower := SaveLevels(level, in0, in1, outs);
      floor := SmallestSnapshot(St());
      levels := levels[level := upper][level + 1 := lower];
      nextFileNumber := nextFileNumber + |outs|;
    }

    /** The two levels without the inputs and with the outputs. */
    method SaveLevels(level: nat, in0: seq<File>, in1: seq<File>, outs: seq<File>)
      returns (upper: seq<File>, lower: seq<File>)
      requires Shape(St()) && LegalInputs(levels, level, in0, in1)
      requires GoodFiles(outs) && Listed(outs) && DistinctNumbers(outs)
      requires forall f :: f in outs ==> nextFileNumber <= f.number
      ensures LevelEdit(levels[level], upper, in0, []) && LevelEdit(levels[level + 1], lower, in1, outs)
    {
      upper := SaveLevel(levels[level], Numbers(in0), []);
      lower := SaveLevel(levels[level + 1], Numbers(in1), outs);
      RemovedByNumber(levels[level], in0, [], upper);
      RemovedByNumber(levels[level + 1], in1, outs, lower);
    }

    /** File numbers being distinct, deleting by number removes exactly the files meant. */
    lemma RemovedByNumber(before: seq<File>, removed: seq<File>, added: seq<File>, after: seq<File>)
      requires DistinctNumbers(before) && (forall f :: f in removed ==> f in before)
      requires forall f, g :: f in before && g in added ==> f.number != g.number
      requires Listed(after) && forall f :: f in after <==> (f in before || f in added) && f.number !in Numbers(removed)
      ensures LevelEdit(before, after, removed, added)
    {
    }

    /** An automatic compaction that starts from one file of a level. */
    method AutomaticCompaction(level: nat, f: File, stopBefore: nat -> bool, full: nat -> bool, sizes: nat -> nat)
      returns (ghost step: Step)
      requires Valid() && level + 1 < NUM_LEVELS && f in levels[level]
      modifies this
      ensures step.Move? || step.Compact?
      ensures step.level == level && f in Upper(step)
      ensures Takes(old(St()), St(), step) && Moved(old(St()), step)
    {
      var in0, in1, grandparents := PickCompaction(levels, level, f);
      step := RunCompaction(level, in0, in1, grandparents, false, stopBefore, full, sizes);
    }

    /** One round of a manual compaction; done when no file of the level meets the range. */
    method ManualCompaction(level: nat, begin: Option<UserKey>, end: Option<UserKey>,
                            stopBefore: nat -> bool, full: nat -> bool, sizes: nat -> nat)
      returns (done: bool, ghost step: Step)
      requires Valid() && level + 1 < NUM_LEVELS
      modifies this
      ensures done <==> forall f :: f in old(levels[level]) ==> !Meets(f, begin, end)
      ensures done ==> St() == old(St()) && Valid()
      ensures !done ==> step.Compact? && ManualInputs(old(levels), level, begin, end, step.in0, step.in1)
      ensures !done ==> step.level == level && Takes(old(St()), St(), step) && Moved(old(St()), step)
    {
      step := TakeSnapshot;
      var in0, in1 := CompactRange(levels, level, begin, end);
      done := in0 == [];
      if !done {
        step := RunCompaction(level, in0, in1, [], true, stopBefore, full, sizes);
      }
    }

    method GetSnapshot() returns (number: nat)
      requires Valid()
      modifies this
      ensures Valid() && SnapshotStep(old(St()), St()) && number == |log|
    {
      number := lastSequence;
      snapshots := snapshots + [number];
      StepKeeps(old(St()), St(), TakeSnapshot);
    }

    method ReleaseSnapshot(i: nat)
      requires Valid() && i < |snapshots|
      modifies this
      ensures Valid() && ReleaseStep(old(St()), St(), i)
    {
      snapshots := snapshots[..i] + snapshots[i + 1..];
      StepKeeps(old(St()), St(), Release(i));
    }

    /** Reads a key at the present, or at a live snapshot.  On any well-formed tree this is the
        search from the memtable down; while the invariant holds it is the replayed map. */
    method Get(k: UserKey, snapshot: Option<nat>) returns (r: Option<Bytes>)
      requires Formed(levels) && (snapshot.Some? ==> snapshot.value in snapshots)
      ensures r == Answer(St(), k, if snapshot.Some? then snapshot.value else lastSequence)
      ensures Valid() ==> var s := if snapshot.Some? then snapshot.value else |log|;
              s <= |log| && r == Lookup(Replay(log[..s]), k)
    {
      var s := if snapshot.Some? then snapshot.value else lastSequence;
      if Valid() { AnswersTheMap(St(), k, s); }
      var e := SearchRun(mem, k, s);
      if e.None? && imm.Some? {
        e := SearchRun(imm.value, k, s);
      }
      if e.None? {
        LevelsAscend();
        e := Versions.Get(levels, k, s);
      }
      r := if e.Some? && e.value.key.kind == Put then Some(e.value.value) else None;
    }

    lemma LevelsAscend()
      requires Formed(levels)
      ensures forall l :: 1 <= l < NUM_LEVELS ==> LargestAscend(levels[l])
    {
      forall l | 1 <= l < NUM_LEVELS { OrderedAscend(levels[l]); }
    }
  }
}
