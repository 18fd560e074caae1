/** A crash and the store opened after it: the tables that were installed are a store of their
    own, holding the updates flushed so far, and recovery adds what the log files still hold. */
module Reopening {
  import opened Format
  import opened SnapshotSpec
  import opened Versions
  import opened Compactions
  import opened StoreSpec
  import opened StoreProofs
  import opened StoreRuns
  import Batches
  import Recovery

  /** The updates up to number n lie in tables, those up to m in the immutable memtable, the rest
      in the memtable. */
  ghost predicate Layered(st: State, n: nat, m: nat) {
    && n <= m <= |st.log|
    && (forall e :: Stored(st.levels, e) ==> e.key.sequence <= n)
    && (forall e :: e in Imm(st) <==> Logged(st.log, e) && n < e.key.sequence <= m)
    && (forall e :: e in st.mem <==> Logged(st.log, e) && m < e.key.sequence)
  }

  /** The store without its memtables, when n updates have been flushed.  A compaction cannot tell
      a smallest snapshot at or past n from n itself. */
  function Flushed(st: State, n: nat): State
    requires n <= |st.log|
  {
    var oldest := SmallestSnapshot(st);
    State([], None, st.levels, st.nextFile, if oldest < n then [oldest] else [], st.log[..n],
          if st.floor < n then st.floor else n)
  }

  /** What else of a state may change without its reads changing. */
  lemma Relabelled(st: State, st': State)
    requires Inv(st) && st' == st.(nextFile := st'.nextFile, snapshots := st'.snapshots, floor := st'.floor)
    requires forall l, f :: 0 <= l < NUM_LEVELS && f in st.levels[l] ==> f.number < st'.nextFile
    requires st.floor <= st'.floor <= |st.log|
    requires forall i :: 0 <= i < |st'.snapshots| ==> st'.floor <= st'.snapshots[i] <= |st.log|
    requires forall i, j :: 0 <= i < j < |st'.snapshots| ==> st'.snapshots[i] <= st'.snapshots[j]
    ensures Inv(st')
  {
    assert HeldIn(st') == HeldIn(st);
  }

  lemma WriteLayers(st: State, st': State, ops: seq<Op>, n: nat, m: nat)
    requires Shape(st) && Layered(st, n, m) && WriteStep(st, st', ops)
    ensures Layered(st', n, m) && Flushed(st', n) == Flushed(st, n)
  {
    assert st'.log[..n] == st.log[..n];
    forall e
      ensures Logged(st.log, e) <==> Logged(st'.log, e) && e.key.sequence <= |st.log|
    {
    }
  }

  lemma MoveFlushed(st: State, st': State, level: nat, f: File, n: nat, m: nat)
    requires Layered(st, n, m) && MoveStep(st, st', level, f)
    requires Inv(Flushed(st, n)) && (level > 0 ==> Unshared(st.levels[level], [f]))
    ensures Layered(st', n, m) && Inv(Flushed(st', n))
  {
    MoveLayers(st, st', level, f, n, m);
    MoveKeeps(Flushed(st, n), Flushed(st', n), level, f);
  }

  lemma MoveLayers(st: State, st': State, level: nat, f: File, n: nat, m: nat)
    requires Layered(st, n, m) && MoveStep(st, st', level, f)
    ensures Layered(st', n, m)
  {
    forall e | Stored(st'.levels, e)
      ensures Stored(st.levels, e)
    {
      EditStores(st.levels, st'.levels, level, [f], [], [], [f], e);
      assert f in [f];
    }
  }

  lemma CompactLayers(st: State, st': State, level: nat, in0: seq<File>, in1: seq<File>, all: seq<Entry>,
                      outs: seq<File>, n: nat, m: nat)
    requires Layered(st, n, m) && CompactStep(st, st', level, in0, in1, all, outs)
    ensures Layered(st', n, m) && forall e :: e in all ==> e.key.sequence <= n
  {
    var ss := SmallestSnapshot(st);
    forall e | e in all
      ensures Stored(st.levels, e)
    {
      EditStores(st.levels, st'.levels, level, in0, [], in1, outs, e);
    }
    forall e | Stored(st'.levels, e)
      ensures Stored(st.levels, e)
    {
      EditStores(st.levels, st'.levels, level, in0, [], in1, outs, e);
      JoinedFilesMembers(outs, e);
      assert e in Kept(st.levels, level, all, ss, |all|) ==> e in all;
    }
  }

  /** Smallest snapshots that see the same input entries drop the same ones. */
  lemma {:induction false} KeptAlike(levels: Levels, level: nat, all: seq<Entry>, ss: nat, ss': nat, n: nat)
    requires n <= |all| && ss < MAX_SEQUENCE && ss' < MAX_SEQUENCE
    requires forall e :: e in all ==> (e.key.sequence <= ss <==> e.key.sequence <= ss')
    ensures Kept(levels, level, all, ss, n) == Kept(levels, level, all, ss', n)
  {
    if n > 0 {
      KeptAlike(levels, level, all, ss, ss', n - 1);
      assert all[n - 1] in all && (n > 1 ==> all[n - 2] in all);
    }
  }

  lemma CompactFlushed(st: State, st': State, level: nat, in0: seq<File>, in1: seq<File>, all: seq<Entry>,
                       outs: seq<File>, n: nat, m: nat)
    requires Shape(st) && Layered(st, n, m) && CompactStep(st, st', level, in0, in1, all, outs)
    requires Guarded(st.levels, level, in0, in1, SmallestSnapshot(st))
    ensures CompactStep(Flushed(st, n), Flushed(st', n), level, in0, in1, all, outs)
    ensures Guarded(st.levels, level, in0, in1, SmallestSnapshot(Flushed(st, n)))
  {
    var ss, ss' := SmallestSnapshot(st), SmallestSnapshot(Flushed(st, n));
    CompactLayers(st, st', level, in0, in1, all, outs, n, m);
    KeptAlike(st.levels, level, all, ss, ss', |all|);
    forall f | f in in1 && EndsRemovable(st.levels, level, ss', f)
      ensures EndsRemovable(st.levels, level, ss, f)
    {
      var e :| e in f.entries && e.key.user == f.largest.user && Removable(st.levels, level, ss', e);
      assert Stored(st.levels, e);
      assert Removable(st.levels, level, ss, e);
    }
  }

  /** Where update i lies. */
  lemma UpdateLies(st: State, n: nat, m: nat, i: nat)
    requires Layered(st, n, m) && i < |st.log|
    ensures LogEntry(st.log, i) in Imm(st) <==> n <= i < m
    ensures LogEntry(st.log, i) in st.mem <==> m <= i
  {
    assert Logged(st.log, LogEntry(st.log, i));
  }

  /** Without entries in the immutable memtable no update waits there. */
  lemma NothingWaits(st: State, n: nat, m: nat)
    requires Layered(st, n, m) && Imm(st) == []
    ensures n == m
  {
    if n < m { UpdateLies(st, n, m, n); }
  }

  lemma RotateLayers(st: State, st': State, n: nat, m: nat)
    requires Layered(st, n, m) && RotateStep(st, st')
    ensures Layered(st', n, |st.log|) && Flushed(st', n) == Flushed(st, n)
  {
    NothingWaits(st, n, m);
  }

  lemma FlushLayers(st: State, st': State, level: nat, f: File, n: nat, m: nat)
    requires Layered(st, n, m) && FlushStep(st, st', level, f)
    ensures Layered(st', m, m)
  {
    if st.imm.value == [] {
      NothingWaits(st, n, m);
    } else {
      forall e | Stored(st'.levels, e)
        ensures Stored(st.levels, e) || e in Imm(st)
      {
        EditStores(st.levels, st'.levels, level, [], [f], [], [], e);
      }
    }
  }

  /** A memtable of the next updates, written to a table: what a flush is to the flushed part. */
  lemma AddsTable(st: State, st': State, ops: seq<Op>, level: nat, f: File)
    requires Inv(st) && st.mem == [] && st.imm.None? && |st.log| + |ops| < MAX_SEQUENCE
    requires GoodFile(f) && f.number == st.nextFile
    requires forall e :: e in f.entries <==> Logged(st.log + ops, e) && e.key.sequence > |st.log|
    requires level <= MAX_MEM_COMPACT_LEVEL
    requires level > 0 ==> forall l, g :: 0 <= l <= level && g in st.levels[l] ==> Apart(g, f)
    requires st' == st.(log := st.log + ops, nextFile := st.nextFile + 1, levels := st'.levels)
    requires TreeEdit(st.levels, st'.levels, level, [], [f], [], [])
    ensures Inv(st')
  {
    var written := st.(mem := f.entries, log := st.log + ops);
    var rotated := written.(imm := Some(f.entries), mem := []);
    WriteKeeps(st, written, ops);
    RotateKeeps(written, rotated);
    FlushKeeps(rotated, st', level, f);
  }

  lemma FlushFlushed(st: State, st': State, level: nat, f: File, n: nat, m: nat)
    requires Inv(st) && Layered(st, n, m) && FlushStep(st, st', level, f) && Inv(Flushed(st, n))
    ensures Inv(Flushed(st', m))
  {
    if st.imm.value == [] {
      NothingWaits(st, n, m);
      Relabelled(Flushed(st, n), Flushed(st', m));
    } else {
      var added := AddsImmutable(st, st', level, f, n, m);
      Relabelled(added, Flushed(st', m));
    }
  }

  lemma AddsImmutable(st: State, st': State, level: nat, f: File, n: nat, m: nat) returns (added: State)
    requires Inv(st) && Layered(st, n, m) && FlushStep(st, st', level, f) && st.imm.value != [] && Inv(Flushed(st, n))
    ensures Inv(added)
    ensures added == Flushed(st, n).(log := st.log[..m], nextFile := st'.nextFile, levels := st'.levels)
  {
    var disk, ops := Flushed(st, n), st.log[n..m];
    assert disk.log + ops == st.log[..m];
    added := disk.(log := disk.log + ops, nextFile := disk.nextFile + 1, levels := st'.levels);
    AddsTable(disk, added, ops, level, f);
  }

  /** The flushed part goes its own way: every step keeps its invariant too. */
  lemma StepKeepsFlushed(st: State, st': State, step: Step, n: nat, m: nat) returns (n': nat, m': nat)
    requires Inv(st) && Takes(st, st', step) && Safe(st, step)
    requires Layered(st, n, m) && Inv(Flushed(st, n))
    ensures Layered(st', n', m') && Inv(Flushed(st', n'))
  {
    n', m' := n, m;
    match step
    case Write(ops) => WriteLayers(st, st', ops, n, m);
    case Rotate =>
      RotateLayers(st, st', n, m);
      m' := |st.log|;
    case Flush(level, f) =>
      FlushLayers(st, st', level, f, n, m);
      FlushFlushed(st, st', level, f, n, m);
      n' := m;
    case Move(level, f) => MoveFlushed(st, st', level, f, n, m);
    case Compact(level, in0, in1, all, outs) =>
      CompactLayers(st, st', level, in0, in1, all, outs, n, m);
      CompactFlushed(st, st', level, in0, in1, all, outs, n, m);
      CompactKeeps(Flushed(st, n), Flushed(st', n), level, in0, in1, all, outs);
    case TakeSnapshot => assert Flushed(st', n) == Flushed(st, n);
    case Release(i) => Relabelled(Flushed(st, n), Flushed(st', n));
  }

  /** At every moment of a run the updates are layered, and what has been flushed is in order. */
  lemma {:induction false} RunKeepsFlushed(states: seq<State>, steps: seq<Step>, i: nat) returns (n: nat, m: nat)
    requires Run(states, steps) && SafeUpTo(states, steps, i)
    ensures Layered(states[i], n, m) && Inv(Flushed(states[i], n))
  {
    RunKeepsInv(states, steps, i);
    if i == 0 {
      n, m := 0, 0;
      assert Flushed(states[0], 0) == states[0];
    } else {
      RunKeepsInv(states, steps, i - 1);
      n, m := RunKeepsFlushed(states, steps, i - 1);
      n, m := StepKeepsFlushed(states[i - 1], states[i], steps[i - 1], n, m);
    }
  }

  /** How far the updates have been flushed is no matter of choice. */
  lemma LayeredOneWay(st: State, n: nat, m: nat, n': nat, m': nat)
    requires Layered(st, n, m) && Layered(st, n', m')
    ensures n == n'
  {
    if n < n' {
      UpdateLies(st, n, m, n);
      UpdateLies(st, n', m', n);
    }
    if n' < n {
      UpdateLies(st, n, m, n');
      UpdateLies(st, n', m', n');
    }
  }

  // What recovery adds.

  /** An update of a write batch, by the places of its key in the comparator's order. */
  function OpOf(rank: Bytes -> UserKey, u: Batches.Update): Op {
    match u
    case Write(key, value) => Op(rank(key), Put, value)
    case Erase(key) => Op(rank(key), Deletion, [])
  }

  function Ops(rank: Bytes -> UserKey, us: seq<Batches.Update>): (r: seq<Op>)
    ensures |r| == |us|
  {
    seq(|us|, i requires 0 <= i < |us| => OpOf(rank, us[i]))
  }

  /** The memtable entry of a numbered update. */
  function EntryOf(rank: Bytes -> UserKey, nu: Batches.Numbered): Entry {
    var op := OpOf(rank, nu.update);
    Entry(IKey(op.user, nu.sequence, op.kind), op.value)
  }

  function UpdatesOf(table: seq<Batches.Numbered>): seq<Batches.Update> {
    seq(|table|, i requires 0 <= i < |table| => table[i].update)
  }

  /** A memtable that was given `table` becomes a table of level 0; an empty one none. */
  ghost predicate TableStep(rank: Bytes -> UserKey, st: State, st': State, table: seq<Batches.Numbered>, f: File) {
    var log := st.log + Ops(rank, UpdatesOf(table));
    if table == [] then st' == st.(nextFile := st.nextFile + 1)
    else
      && GoodFile(f) && f.number == st.nextFile
      && (forall e :: e in f.entries <==> exists nu :: nu in table && e == EntryOf(rank, nu))
      && st' == st.(log := log, nextFile := st.nextFile + 1, levels := st'.levels)
      && TreeEdit(st.levels, st'.levels, 0, [], [f], [], [])
  }

  /** The entries of numbered updates are those logged behind the ones before. */
  lemma NumberedIsLogged(rank: Bytes -> UserKey, log: seq<Op>, us: seq<Batches.Update>, e: Entry)
    requires |log| + |us| < MAX_SEQUENCE
    ensures (exists nu :: nu in Batches.Number(|log| + 1, us) && e == EntryOf(rank, nu))
       <==> Logged(log + Ops(rank, us), e) && e.key.sequence > |log|
  {
    var table := Batches.Number(|log| + 1, us);
    if Logged(log + Ops(rank, us), e) && e.key.sequence > |log| {
      NumberedThere(rank, log, us, e.key.sequence - 1 - |log|);
      assert table[e.key.sequence - 1 - |log|] in table;
    }
    if nu :| nu in table && e == EntryOf(rank, nu) {
      var i :| 0 <= i < |table| && table[i] == nu;
      NumberedThere(rank, log, us, i);
    }
  }

  lemma NumberedThere(rank: Bytes -> UserKey, log: seq<Op>, us: seq<Batches.Update>, i: nat)
    requires |log| + |us| < MAX_SEQUENCE && i < |us|
    ensures EntryOf(rank, Batches.Number(|log| + 1, us)[i]) == LogEntry(log + Ops(rank, us), |log| + i)
  {
  }

  lemma TableStepKeeps(rank: Bytes -> UserKey, st: State, st': State, table: seq<Batches.Numbered>,
                       us: seq<Batches.Update>, f: File)
    requires Inv(st) && st.mem == [] && st.imm.None? && |st.log| + |us| < MAX_SEQUENCE
    requires TableStep(rank, st, st', table, f) && table == Batches.Number(|st.log| + 1, us)
    ensures Inv(st') && st'.log == st.log + Ops(rank, us) && st'.mem == [] && st'.imm.None?
  {
    assert UpdatesOf(table) == us;
    if us == [] {
      assert st.log + Ops(rank, us) == st.log;
      Relabelled(st, st');
    } else {
      forall e
        ensures e in f.entries <==> Logged(st.log + Ops(rank, us), e) && e.key.sequence > |st.log|
      {
        NumberedIsLogged(rank, st.log, us, e);
      }
      AddsTable(st, st', Ops(rank, us), 0, f);
    }
  }

  /** The tables of the recovered memtables, written one after another. */
  ghost predicate Reopens(rank: Bytes -> UserKey, states: seq<State>, tables: seq<seq<Batches.Numbered>>,
                          files: seq<File>) {
    && |states| == |tables| + 1 && |files| == |tables|
    && forall i :: 0 <= i < |tables| ==> TableStep(rank, states[i], states[i + 1], tables[i], files[i])
  }

  lemma {:induction false} ReopenKeeps(rank: Bytes -> UserKey, states: seq<State>, tables: seq<seq<Batches.Numbered>>,
                                       files: seq<File>, us: seq<Batches.Update>, n: nat)
    requires Reopens(rank, states, tables, files) && n <= |tables|
    requires Inv(states[0]) && states[0].mem == [] && states[0].imm.None? && |states[0].log| + |us| < MAX_SEQUENCE
    requires Recovery.Joined(tables[..n]) == Batches.Number(|states[0].log| + 1, us)
    ensures Inv(states[n]) && states[n].log == states[0].log + Ops(rank, us) && states[n].mem == [] && states[n].imm.None?
    decreases n
  {
    var log := states[0].log;
    if n == 0 {
      assert log + Ops(rank, us) == log;
    } else {
      var a, b := LastTable(|log| + 1, us, tables, n);
      ReopenKeeps(rank, states, tables, files, a, n - 1);
      OneTableMore(rank, log, states[n - 1], states[n], tables[n - 1], a, b, files[n - 1]);
    }
  }

  lemma OpsAppend(rank: Bytes -> UserKey, log: seq<Op>, a: seq<Batches.Update>, b: seq<Batches.Update>)
    ensures log + Ops(rank, a) + Ops(rank, b) == log + Ops(rank, a + b)
  {
  }

  lemma OneTableMore(rank: Bytes -> UserKey, log: seq<Op>, st: State, st': State, table: seq<Batches.Numbered>,
                     a: seq<Batches.Update>, b: seq<Batches.Update>, f: File)
    requires Inv(st) && st.log == log + Ops(rank, a) && st.mem == [] && st.imm.None?
    requires table == Batches.Number(|log| + 1 + |a|, b) && |log| + |a| + |b| < MAX_SEQUENCE && TableStep(rank, st, st', table, f)
    ensures Inv(st') && st'.log == log + Ops(rank, a + b) && st'.mem == [] && st'.imm.None?
  {
    TableStepKeeps(rank, st, st', table, b, f);
    OpsAppend(rank, log, a, b);
  }

  /** The last of n tables holds the last of the numbered updates. */
  lemma LastTable(first: nat, us: seq<Batches.Update>, tables: seq<seq<Batches.Numbered>>, n: nat)
    returns (a: seq<Batches.Update>, b: seq<Batches.Update>)
    requires 0 < n <= |tables| && Recovery.Joined(tables[..n]) == Batches.Number(first, us)
    ensures us == a + b
    ensures Recovery.Joined(tables[..n - 1]) == Batches.Number(first, a)
    ensures tables[n - 1] == Batches.Number(first + |a|, b)
  {
    assert tables[..n][..n - 1] == tables[..n - 1];
    var front, last := Recovery.Joined(tables[..n - 1]), tables[n - 1];
    var whole := Batches.Number(first, us);
    assert whole == front + last;
    a, b := us[..|front|], us[|front|..];
    assert front == whole[..|front|] && last == whole[|front|..];
  }

  /** A read past the last update answers as one at the last update. */
  lemma PastTheLast(st: State, k: UserKey, s: nat)
    requires Inv(st) && s >= |st.log|
    ensures Answer(st, k, s) == Lookup(Replay(st.log), k)
  {
    var held, r := HeldIn(st), Lookup(Replay(st.log), k);
    assert st.log[..|st.log|] == st.log;
    AnswersTheMap(st, k, |st.log|);
    forall e
      ensures Newest(held, k, s, e) <==> Newest(held, k, |st.log|, e)
    {
    }
    assert forall v :: Shows(held, k, s, v) <==> Shows(held, k, |st.log|, v);
    AnswerIsTheRead(st, k, s, r);
  }

  /** What is on disk when the store is opened again, with n updates flushed: the tree as it was
      installed; snapshots are gone, and file numbers go on behind those in use. */
  ghost predicate Reloaded(st: State, n: nat, disk: State)
    requires n <= |st.log|
  {
    && disk == Flushed(st, n).(snapshots := [], nextFile := disk.nextFile)
    && forall l, f :: 0 <= l < |disk.levels| && f in disk.levels[l] ==> f.number < disk.nextFile
  }

  lemma OpsPrefix(rank: Bytes -> UserKey, log: seq<Op>, n: nat, us: seq<Batches.Update>, all: seq<Batches.Update>)
    requires n <= |log| && us <= all && Ops(rank, all) <= log[n..]
    ensures n + |us| <= |log| && log[..n] + Ops(rank, us) == log[..n + |us|]
  {
    assert Ops(rank, us) == Ops(rank, all)[..|us|] == log[n..][..|us|];
  }

  /** Recovered updates that are the next ones of the history extend what was flushed. */
  lemma {:induction false} ReopenedHolds(rank: Bytes -> UserKey, log: seq<Op>, n: nat, reopened: seq<State>,
                                         tables: seq<seq<Batches.Numbered>>, files: seq<File>, us: seq<Batches.Update>,
                                         all: seq<Batches.Update>)
    requires Reopens(rank, reopened, tables, files) && Inv(reopened[0]) && reopened[0].mem == [] && reopened[0].imm.None?
    requires n <= |log| < MAX_SEQUENCE && reopened[0].log == log[..n]
    requires Recovery.Joined(tables) == Batches.Number(n + 1, us) && us <= all && Ops(rank, all) <= log[n..]
    ensures n + |us| <= |log| && Inv(reopened[|tables|]) && reopened[|tables|].log == log[..n + |us|]
  {
    OpsPrefix(rank, log, n, us, all);
    assert tables[..|tables|] == tables;
    ReopenKeeps(rank, reopened, tables, files, us, |tables|);
  }

  lemma ReloadedKeeps(states: seq<State>, steps: seq<Step>, i: nat, n: nat, m: nat, disk: State)
    requires Run(states, steps) && SafeUpTo(states, steps, i)
    requires Layered(states[i], n, m) && Reloaded(states[i], n, disk)
    ensures Inv(disk) && disk.mem == [] && disk.imm.None? && disk.log == states[i].log[..n] && |states[i].log| < MAX_SEQUENCE
  {
    RunKeepsInv(states, steps, i);
    var n', m' := RunKeepsFlushed(states, steps, i);
    LayeredOneWay(states[i], n, m, n', m');
    Relabelled(Flushed(states[i], n), disk);
  }
}
