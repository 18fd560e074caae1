/** Whole runs of the store: what every step keeps, and what every read answers. */
module StoreRuns {
  import opened Format
  import opened SnapshotSpec
  import opened Versions
  import opened Compactions
  import opened StoreSpec
  import opened StoreProofs

  datatype Step =
    | Write(ops: seq<Op>)
    | Rotate
    | Flush(level: nat, f: File)
    | Move(level: nat, f: File)
    | Compact(level: nat, in0: seq<File>, in1: seq<File>, all: seq<Entry>, outs: seq<File>)
    | TakeSnapshot
    | Release(i: nat)

  ghost predicate Takes(st: State, st': State, step: Step) {
    match step
    case Write(ops) => WriteStep(st, st', ops)
    case Rotate => RotateStep(st, st')
    case Flush(level, f) => FlushStep(st, st', level, f)
    case Move(level, f) => MoveStep(st, st', level, f)
    case Compact(level, in0, in1, all, outs) => in0 != [] && CompactStep(st, st', level, in0, in1, all, outs)
    case TakeSnapshot => SnapshotStep(st, st')
    case Release(i) => ReleaseStep(st, st', i)
  }

  /** What must hold before a move or a compaction for the store to stay in order: no file left
      behind begins with the user key an input ends with, and no deletion that hides such a file
      of the next level may be dropped.  Where it fails, `Boundaries` says what is read. */
  ghost predicate Safe(st: State, step: Step) {
    match step
    case Move(level, f) => level + 1 < |st.levels| && Guarded(st.levels, level, [f], [], SmallestSnapshot(st))
    case Compact(level, in0, in1, all, outs) =>
      level + 1 < |st.levels| && Guarded(st.levels, level, in0, in1, SmallestSnapshot(st))
    case _ => true
  }

  /** With no snapshot live every key has one output entry, so no cut can split a key. */
  lemma NoSnapshotNoSplit(st: State, st': State, level: nat, in0: seq<File>, in1: seq<File>,
                          all: seq<Entry>, outs: seq<File>)
    requires Shape(st) && CompactStep(st, st', level, in0, in1, all, outs) && st.snapshots == []
    ensures NoSplit(outs)
  {
    var kept := Kept(st.levels, level, all, |st.log|, |all|);
    KeptSorted(st.levels, level, all, |st.log|, |all|);
    CompactEntries(st, st', level, in0, in1, all, outs);
    forall e | e in all
      ensures e.key.sequence <= |st.log|
    {
      assert Held(st, e) by { assert e in HeldIn(st); }
    }
    forall x, y | x in JoinedFiles(outs) && y in JoinedFiles(outs) && x.key.user == y.key.user
      ensures x == y
    {
      OneEntryPerKey(st.levels, level, all, |st.log|, x, y);
    }
    OncePerKeyNoSplit(outs);
  }

  lemma {:induction false} OncePerKeyNoSplit(outs: seq<File>)
    requires GoodFiles(outs) && Sorted(JoinedFiles(outs))
    requires forall x, y :: x in JoinedFiles(outs) && y in JoinedFiles(outs) && x.key.user == y.key.user ==> x == y
    ensures NoSplit(outs)
  {
    forall i, j | 0 <= i < j < |outs|
      ensures outs[i].largest.user < outs[j].smallest.user
    {
      assert outs[i] in outs && outs[j] in outs;
      var x, y := outs[i].entries[|outs[i].entries| - 1], outs[j].entries[0];
      assert x in outs[i].entries && y in outs[j].entries;
      JoinedInOrder(outs, i, x, j, y);
      JoinedFilesMembers(outs, x);
      JoinedFilesMembers(outs, y);
    }
  }

  lemma StepKeeps(st: State, st': State, step: Step)
    requires Inv(st) && Takes(st, st', step) && Safe(st, step)
    ensures Inv(st')
  {
    match step
    case Write(ops) => WriteKeeps(st, st', ops);
    case Rotate => RotateKeeps(st, st');
    case Flush(level, f) => FlushKeeps(st, st', level, f);
    case Move(level, f) => MoveKeeps(st, st', level, f);
    case Compact(level, in0, in1, all, outs) => CompactKeeps(st, st', level, in0, in1, all, outs);
    case TakeSnapshot =>
      assert HeldIn(st') == HeldIn(st);
    case Release(i) =>
      assert HeldIn(st') == HeldIn(st);
  }

  lemma InitialHolds(st: State)
    requires Initial(st)
    ensures Inv(st)
  {
    assert forall e :: !Held(st, e) && !Logged(st.log, e);
  }

  ghost predicate Run(states: seq<State>, steps: seq<Step>) {
    && |states| == |steps| + 1 && Initial(states[0])
    && (forall i :: 0 <= i < |steps| ==> Takes(states[i], states[i + 1], steps[i]))
  }

  ghost predicate SafeUpTo(states: seq<State>, steps: seq<Step>, n: nat) {
    n <= |steps| <= |states| && forall i :: 0 <= i < n ==> Safe(states[i], steps[i])
  }

  lemma {:induction false} RunKeepsInv(states: seq<State>, steps: seq<Step>, n: nat)
    requires Run(states, steps) && SafeUpTo(states, steps, n)
    ensures Inv(states[n])
  {
    if n == 0 { InitialHolds(states[0]); }
    else {
      RunKeepsInv(states, steps, n - 1);
      StepKeeps(states[n - 1], states[n], steps[n - 1]);
    }
  }

  lemma SearchIsNewest(st: State, k: UserKey, s: nat)
    requires Shape(st)
    ensures match Search(st, k, s)
            case Some(e) => Newest(HeldIn(st), k, s, e)
            case None => forall x :: Held(st, x) && x.key.user == k ==> x.key.sequence > s
  {
    SearchRunIsNewest(st.mem, k, s);
    SearchRunIsNewest(Imm(st), k, s);
    SearchFindsNewest(st.levels, k, s, 0);
    forall x, e | Stored(st.levels, x) && (e in st.mem || e in Imm(st)) && x.key.user == e.key.user
      ensures x.key.sequence < e.key.sequence
    {
      var l, f :| 0 <= l < |st.levels| && f in st.levels[l] && x in f.entries;
      assert NewerThanFiles(st.mem, st.levels[l]) && NewerThanFiles(Imm(st), st.levels[l]);
    }
  }

  /** A read has one answer: the one the search finds. */
  lemma AnswerIsTheRead(st: State, k: UserKey, s: nat, r: Option<Bytes>)
    requires Shape(st) && Reads(HeldIn(st), k, s, r)
    ensures Answer(st, k, s) == r
  {
    SearchIsNewest(st, k, s);
    FoundIsTheRead(HeldIn(st), st.log, k, s, Search(st, k, s), r);
  }

  lemma FoundIsTheRead(held: iset<Entry>, log: seq<Op>, k: UserKey, s: nat, found: Option<Entry>, r: Option<Bytes>)
    requires (forall e :: e in held ==> Logged(log, e)) && Reads(held, k, s, r)
    requires match found
             case Some(e) => Newest(held, k, s, e)
             case None => forall x :: x in held && x.key.user == k ==> x.key.sequence > s
    ensures r == if found.Some? && found.value.key.kind == Put then Some(found.value.value) else None
  {
    if r.Some? {
      var x :| Newest(held, k, s, x) && x.key.kind == Put && x.value == r.value;
      assert Logged(log, x);
    } else if found.Some? {
      assert !Shows(held, k, s, found.value.value);
    }
  }

  lemma AnswersTheMap(st: State, k: UserKey, s: nat)
    requires Inv(st) && st.floor <= s <= |st.log|
    ensures Reads(HeldIn(st), k, s, Lookup(Replay(st.log[..s]), k))
    ensures Answer(st, k, s) == Lookup(Replay(st.log[..s]), k)
  {
    HistoryIsReplay(st.log, s, k);
    assert forall v :: Shows(HeldIn(st), k, s, v) <==> Shows(History(st.log), k, s, v);
    AnswerIsTheRead(st, k, s, Lookup(Replay(st.log[..s]), k));
  }

  /** In every run and at every moment, a read at the present or at any live snapshot answers
      the map replayed from the updates up to that point. */
  lemma RunsAnswerAsTheMap(states: seq<State>, steps: seq<Step>, n: nat, k: UserKey, s: nat)
    requires Run(states, steps) && SafeUpTo(states, steps, n)
    requires s == |states[n].log| || s in states[n].snapshots
    ensures s <= |states[n].log|
    ensures Answer(states[n], k, s) == Lookup(Replay(states[n].log[..s]), k)
  {
    RunKeepsInv(states, steps, n);
    AnswersTheMap(states[n], k, s);
  }

  // Runs in which no compaction finds a snapshot live.

  /** No user key lies in two files of a level below 0. */
  ghost predicate Uncut(levels: Levels) {
    forall l :: 1 <= l < |levels| ==> Disjoint(levels[l])
  }

  /** The step cuts no user key: what a compaction cannot do while no snapshot is live. */
  ghost predicate CutsNothing(st: State, step: Step) {
    step.Compact? ==> st.snapshots == [] || NoSplit(step.outs)
  }

  lemma UncutUnshared(files: seq<File>, taken: seq<File>)
    requires GoodFiles(files) && Disjoint(files) && forall f :: f in taken ==> f in files
    ensures Unshared(files, taken)
  {
    forall f, g | f in taken && g in files && g !in taken
      ensures !Continues(f, g)
    {
      DisjointIsApart(files, f, g);
      EntryInRange(f, f.entries[0]);
      EntryInRange(g, g.entries[0]);
    }
  }

  lemma UncutIsGuarded(levels: Levels, level: nat, in0: seq<File>, in1: seq<File>, ss: nat)
    requires Formed(levels) && Uncut(levels) && LegalInputs(levels, level, in0, in1)
    ensures Guarded(levels, level, in0, in1, ss)
  {
    assert GoodFiles(levels[level]) && GoodFiles(levels[level + 1]);
    if level > 0 { UncutUnshared(levels[level], in0); }
    UncutUnshared(levels[level + 1], in1);
  }

  lemma UncutIsSafe(st: State, st': State, step: Step)
    requires Inv(st) && Takes(st, st', step) && Uncut(st.levels)
    ensures Safe(st, step)
  {
    var ss := SmallestSnapshot(st);
    match step
    case Move(level, f) => UncutIsGuarded(st.levels, level, [f], [], ss);
    case Compact(level, in0, in1, all, outs) => UncutIsGuarded(st.levels, level, in0, in1, ss);
    case _ =>
  }

  lemma UncutCompaction(st: State, st': State, level: nat, in0: seq<File>, in1: seq<File>, all: seq<Entry>,
                        outs: seq<File>)
    requires Inv(st) && CompactStep(st, st', level, in0, in1, all, outs) && in0 != [] && Uncut(st.levels) && NoSplit(outs)
    ensures Uncut(st'.levels)
  {
    var upper, lower := st.levels[level], st.levels[level + 1];
    forall g, o | g in lower && g !in in1 && o in outs
      ensures Apart(g, o)
    {
      OutputsMissTheRest(st, st', level, in0, in1, all, outs, g, o);
    }
    EditDisjoint(lower, st'.levels[level + 1], in1, outs);
    if level > 0 { EditDisjoint(upper, st'.levels[level], in0, []); }
  }

  lemma UncutMove(st: State, st': State, level: nat, f: File)
    requires Inv(st) && MoveStep(st, st', level, f) && Uncut(st.levels)
    ensures Uncut(st'.levels)
  {
    MovedIsApart(st.levels, level, f);
    EditDisjoint(st.levels[level + 1], st'.levels[level + 1], [], [f]);
    if level > 0 { EditDisjoint(st.levels[level], st'.levels[level], [f], []); }
  }

  lemma UncutFlush(st: State, st': State, level: nat, f: File)
    requires Inv(st) && FlushStep(st, st', level, f) && Uncut(st.levels)
    ensures Uncut(st'.levels)
  {
    if st.imm.value != [] {
      if level > 0 { EditDisjoint(st.levels[level], st'.levels[level], [], [f]); }
      EditDisjoint(st.levels[level + 1], st'.levels[level + 1], [], []);
    }
  }

  lemma StaysUncut(st: State, st': State, step: Step)
    requires Inv(st) && Takes(st, st', step) && Uncut(st.levels) && CutsNothing(st, step)
    ensures Uncut(st'.levels)
  {
    match step
    case Flush(level, f) => UncutFlush(st, st', level, f);
    case Move(level, f) => UncutMove(st, st', level, f);
    case Compact(level, in0, in1, all, outs) =>
      if st.snapshots == [] { NoSnapshotNoSplit(st, st', level, in0, in1, all, outs); }
      UncutCompaction(st, st', level, in0, in1, all, outs);
    case _ =>
  }

  /** As long as no compaction finds a snapshot live, every step is safe. */
  lemma {:induction false} NoSnapshotRunsAreSafe(states: seq<State>, steps: seq<Step>, n: nat)
    requires Run(states, steps) && n <= |steps| && forall i :: 0 <= i < n ==> CutsNothing(states[i], steps[i])
    ensures SafeUpTo(states, steps, n) && Uncut(states[n].levels)
  {
    if n > 0 {
      NoSnapshotRunsAreSafe(states, steps, n - 1);
      RunKeepsInv(states, steps, n - 1);
      UncutIsSafe(states[n - 1], states[n], steps[n - 1]);
      StaysUncut(states[n - 1], states[n], steps[n - 1]);
    }
  }
}
