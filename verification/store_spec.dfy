/** The store as a state machine: its states, its steps, and the plain map it must present. */
module StoreSpec {
  import opened Format
  import opened SnapshotSpec
  import opened Versions
  import opened Compactions

  /** One update of a write batch. */
  datatype Op = Op(user: UserKey, kind: Kind, value: Bytes)

  /** The map a client has in mind: the updates replayed one after another. */
  function Replay(log: seq<Op>): map<UserKey, Bytes> {
    if log == [] then map[]
    else
      var m := Replay(log[..|log| - 1]);
      var op := log[|log| - 1];
      if op.kind == Put then m[op.user := op.value] else m - {op.user}
  }

  function Lookup(m: map<UserKey, Bytes>, k: UserKey): Option<Bytes> {
    if k in m then Some(m[k]) else None
  }

  /** Update i of the log, with the sequence number it was given. */
  function LogEntry(log: seq<Op>, i: nat): Entry
    requires i < |log|
  {
    Entry(IKey(log[i].user, i + 1, log[i].kind), log[i].value)
  }

  ghost predicate Logged(log: seq<Op>, e: Entry) {
    1 <= e.key.sequence <= |log| && e == LogEntry(log, e.key.sequence - 1)
  }

  ghost function History(log: seq<Op>): iset<Entry> {
    iset e | Logged(log, e)
  }

  /** Reading the history at snapshot s is looking up the map replayed from the first s updates. */
  lemma {:induction false} HistoryIsReplay(log: seq<Op>, s: nat, k: UserKey)
    requires s <= |log|
    ensures Reads(History(log), k, s, Lookup(Replay(log[..s]), k))
  {
    if s == 0 {
      assert forall e :: !Newest(History(log), k, s, e);
    } else {
      assert log[..s][..s - 1] == log[..s - 1];
      var e := LogEntry(log, s - 1);
      if e.key.user == k {
        assert Newest(History(log), k, s, e);
        forall x | Newest(History(log), k, s, x)
          ensures x == e
        {
        }
      } else {
        HistoryIsReplay(log, s - 1, k);
        forall x
          ensures Newest(History(log), k, s, x) <==> Newest(History(log), k, s - 1, x)
        {
          assert forall y :: Logged(log, y) && y.key.user == k ==> y.key.sequence != s;
        }
        assert forall v :: Shows(History(log), k, s, v) <==> Shows(History(log), k, s - 1, v);
        assert Lookup(Replay(log[..s]), k) == Lookup(Replay(log[..s - 1]), k);
      }
    }
  }

  /** `log` and `floor` are history variables: the updates so far, and the largest smallest
      snapshot any compaction has used. */
  datatype State = State(mem: seq<Entry>, imm: Option<seq<Entry>>, levels: Levels,
                         nextFile: nat, snapshots: seq<nat>, log: seq<Op>, floor: nat)

  function Imm(st: State): seq<Entry> {
    if st.imm.Some? then st.imm.value else []
  }

  ghost predicate Held(st: State, e: Entry) {
    e in st.mem || e in Imm(st) || Stored(st.levels, e)
  }

  /** What `DBImpl::Get` answers: the memtable, then the immutable one, then the tree. */
  function Search(st: State, k: UserKey, s: nat): Option<Entry> {
    var r := SearchRun(st.mem, k, s);
    if r.Some? then r
    else
      var r := SearchRun(Imm(st), k, s);
      if r.Some? then r else SearchLevels(st.levels, k, s, 0)
  }

  function Answer(st: State, k: UserKey, s: nat): Option<Bytes> {
    var r := Search(st, k, s);
    if r.Some? && r.value.key.kind == Put then Some(r.value.value) else None
  }

  ghost function HeldIn(st: State): iset<Entry> {
    iset e | Held(st, e)
  }

  ghost predicate NewerThanFiles(run: seq<Entry>, files: seq<File>) {
    forall f :: f in files ==> Newer(run, f.entries)
  }

  /** What every step keeps. */
  ghost predicate Shape(st: State) {
    && Sorted(st.mem) && Sorted(Imm(st)) && LevelsOk(st.levels)
    && |st.log| < MAX_SEQUENCE
    && (forall e :: Held(st, e) ==> Logged(st.log, e))
    && Newer(st.mem, Imm(st))
    && (forall l :: 0 <= l < NUM_LEVELS ==> NewerThanFiles(st.mem, st.levels[l]) && NewerThanFiles(Imm(st), st.levels[l]))
    && (forall l, f :: 0 <= l < NUM_LEVELS && f in st.levels[l] ==> f.number < st.nextFile)
    && st.floor <= |st.log|
    && (forall i :: 0 <= i < |st.snapshots| ==> st.floor <= st.snapshots[i] <= |st.log|)
    && (forall i, j :: 0 <= i < j < |st.snapshots| ==> st.snapshots[i] <= st.snapshots[j])
  }

  /** At and above the floor the store answers as the whole history does. */
  ghost predicate Faithful(st: State) {
    forall k, s, v :: st.floor <= s ==> (Shows(HeldIn(st), k, s, v) <==> Shows(History(st.log), k, s, v))
  }

  ghost predicate Inv(st: State) {
    Shape(st) && Faithful(st)
  }

  ghost predicate Initial(st: State) {
    st == State([], None, seq(NUM_LEVELS, i => []), 2, [], [], 0)
  }

  /** Applying a batch: the new updates join the memtable under the next sequence numbers. */
  ghost predicate WriteStep(st: State, st': State, ops: seq<Op>) {
    && st' == st.(mem := st'.mem, log := st.log + ops)
    && |st'.log| < MAX_SEQUENCE && Sorted(st'.mem)
    && forall e :: e in st'.mem <==> e in st.mem || (Logged(st'.log, e) && e.key.sequence > |st.log|)
  }

  /** A full memtable becomes the immutable one. */
  ghost predicate RotateStep(st: State, st': State) {
    st.imm.None? && st' == st.(imm := Some(st.mem), mem := [])
  }

  /** One level of a new version: files removed, files added, the list kept in order. */
  ghost predicate LevelEdit(before: seq<File>, after: seq<File>, removed: seq<File>, added: seq<File>) {
    Listed(after) && forall f :: f in after <==> (f in before && f !in removed) || f in added
  }

  /** A new version that differs from the old one in two neighbouring levels. */
  ghost predicate TreeEdit(before: Levels, after: Levels, level: nat,
                           removed0: seq<File>, added0: seq<File>, removed1: seq<File>, added1: seq<File>)
  {
    && |before| == NUM_LEVELS == |after| && level + 1 < NUM_LEVELS
    && (forall l :: 0 <= l < NUM_LEVELS && l != level && l != level + 1 ==> after[l] == before[l])
    && LevelEdit(before[level], after[level], removed0, added0)
    && LevelEdit(before[level + 1], after[level + 1], removed1, added1)
  }

  /** The immutable memtable becomes a table of some level it may skip to; an empty one vanishes. */
  ghost predicate FlushStep(st: State, st': State, level: nat, f: File) {
    && st.imm.Some?
    && (st.imm.value == [] ==> st' == st.(imm := None, nextFile := st.nextFile + 1))
    && (st.imm.value != [] ==>
          && GoodFile(f) && f.entries == st.imm.value && f.number == st.nextFile
          && level <= MAX_MEM_COMPACT_LEVEL && |st.levels| == NUM_LEVELS
          && (level > 0 ==> forall l, g :: 0 <= l <= level && g in st.levels[l] ==> Apart(g, f))
          && st' == st.(imm := None, nextFile := st.nextFile + 1, levels := st'.levels)
          && TreeEdit(st.levels, st'.levels, level, [], [f], [], []))
  }

  /** The user ranges of two files do not meet. */
  predicate Apart(f: File, g: File) {
    f.largest.user < g.smallest.user || g.largest.user < f.smallest.user
  }

  /** What a compaction of `level` takes: some files of the level (on level 0, together with
      every file that meets them) and of the next level exactly the files meeting a range that
      covers those. */
  ghost predicate LegalInputs(levels: Levels, level: nat, in0: seq<File>, in1: seq<File>) {
    && level + 1 < NUM_LEVELS == |levels|
    && Listed(in0) && Listed(in1)
    && (forall f :: f in in0 ==> f in levels[level])
    && (forall f :: f in in1 ==> f in levels[level + 1])
    && (level == 0 ==> forall f, g :: f in in0 && g in levels[0] && g !in in0 ==> Apart(f, g))
    && TakesBelow(levels[level + 1], in0, in1)
  }

  /** in1 are the files of the next level that meet a range which covers in0. */
  ghost predicate TakesBelow(lower: seq<File>, in0: seq<File>, in1: seq<File>) {
    exists lo, hi :: MeetingInputs(lower, in0, in1, lo, hi)
  }

  ghost predicate MeetingInputs(lower: seq<File>, in0: seq<File>, in1: seq<File>, lo: UserKey, hi: UserKey) {
    Spans(in0, lo, hi) && forall f :: f in lower ==> (f in in1 <==> Meets(f, Some(lo), Some(hi)))
  }

  ghost predicate Spans(files: seq<File>, lo: UserKey, hi: UserKey) {
    forall f :: f in files ==> lo <= f.smallest.user && f.largest.user <= hi
  }

  /** e comes from one of the files. */
  ghost predicate InFiles(files: seq<File>, e: Entry) {
    exists f :: f in files && e in f.entries
  }

  function JoinedFiles(files: seq<File>): seq<Entry> {
    if files == [] then [] else JoinedFiles(files[..|files| - 1]) + files[|files| - 1].entries
  }

  /** No user key is cut between two output files. */
  ghost predicate NoSplit(outs: seq<File>) {
    Disjoint(outs)
  }

  /** g begins, behind f, with the user key f ends with. */
  predicate Continues(f: File, g: File) {
    f.largest.user == g.smallest.user && f.largest.sequence > g.smallest.sequence
  }

  /** No file left behind begins with the user key a file taken ends with. */
  ghost predicate Unshared(files: seq<File>, taken: seq<File>) {
    forall f, g :: f in taken && g in files && g !in taken ==> !Continues(f, g)
  }

  /** Rule (B) may drop a deletion of a key the file ends with. */
  ghost predicate EndsRemovable(levels: Levels, level: nat, ss: nat, f: File) {
    exists e :: e in f.entries && e.key.user == f.largest.user && Removable(levels, level, ss, e)
  }

  /** Some file left in the next level begins with a user key an input of that level ends with,
      and a deletion of the key, which hides it, may be dropped. */
  ghost predicate Unearths(levels: Levels, level: nat, in1: seq<File>, ss: nat)
    requires level + 1 < |levels|
  {
    exists f, g :: f in in1 && g in levels[level + 1] && g !in in1 && Continues(f, g) && EndsRemovable(levels, level, ss, f)
  }

  /** What must hold of the inputs of a compaction, before it runs, for it to be harmless. */
  ghost predicate Guarded(levels: Levels, level: nat, in0: seq<File>, in1: seq<File>, ss: nat)
    requires level + 1 < |levels|
  {
    (level > 0 ==> Unshared(levels[level], in0)) && !Unearths(levels, level, in1, ss)
  }

  /** A merge of the inputs, cut into files anywhere.  `smallest` is the oldest live snapshot,
      or the last sequence number when none is live. */
  ghost predicate CompactStep(st: State, st': State, level: nat, in0: seq<File>, in1: seq<File>,
                              all: seq<Entry>, outs: seq<File>) {
    && LegalInputs(st.levels, level, in0, in1)
    && Sorted(all) && (forall e :: e in all <==> InFiles(in0, e) || InFiles(in1, e))
    && GoodFiles(outs) && DistinctNumbers(outs)
    && JoinedFiles(outs) == Kept(st.levels, level, all, SmallestSnapshot(st), |all|)
    && st.nextFile <= st'.nextFile
    && (forall f :: f in outs ==> st.nextFile <= f.number < st'.nextFile)
    && st' == st.(levels := st'.levels, nextFile := st'.nextFile, floor := SmallestSnapshot(st))
    && TreeEdit(st.levels, st'.levels, level, in0, [], in1, outs)
  }

  function SmallestSnapshot(st: State): nat {
    if st.snapshots == [] then |st.log| else st.snapshots[0]
  }

  /** A single file with nothing to merge with moves down one level as it is. */
  ghost predicate MoveStep(st: State, st': State, level: nat, f: File) {
    && LegalInputs(st.levels, level, [f], [])
    && st' == st.(levels := st'.levels)
    && TreeEdit(st.levels, st'.levels, level, [f], [], [], [f])
  }

  ghost predicate SnapshotStep(st: State, st': State) {
    st' == st.(snapshots := st.snapshots + [|st.log|])
  }

  ghost predicate ReleaseStep(st: State, st': State, i: nat) {
    i < |st.snapshots| && st' == st.(snapshots := st.snapshots[..i] + st.snapshots[i + 1..])
  }
}
