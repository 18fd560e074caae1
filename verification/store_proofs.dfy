/** Every step of the store keeps its invariant; every run answers as the plain map does. */
module StoreProofs {
  import opened Format
  import opened SnapshotSpec
  import opened Versions
  import opened Compactions
  import opened StoreSpec

  /** Adding the same entries, all newer than the rest, to two sets that answer alike. */
  lemma NewerOnTop(a: iset<Entry>, b: iset<Entry>, top: iset<Entry>, n: nat, k: UserKey, s: nat, v: Bytes)
    requires forall e :: e in a || e in b ==> e.key.sequence <= n
    requires forall e :: e in top ==> e.key.sequence > n
    requires Shows(a, k, s, v) ==> Shows(b, k, s, v)
    requires Shows(a + top, k, s, v)
    ensures Shows(b + top, k, s, v)
  {
    var e :| Newest(a + top, k, s, e) && e.key.kind == Put && e.value == v;
    if e in top {
      assert Newest(b + top, k, s, e);
    } else {
      assert Newest(a, k, s, e);
      var e' :| Newest(b, k, s, e') && e'.key.kind == Put && e'.value == v;
      assert forall x :: x in top && x.key.user == k && x.key.sequence <= s ==> x in a + top;
      assert Newest(b + top, k, s, e');
    }
  }

  lemma WriteKeeps(st: State, st': State, ops: seq<Op>)
    requires Inv(st) && WriteStep(st, st', ops)
    ensures Inv(st')
  {
    var n := |st.log|;
    forall e
      ensures Logged(st.log, e) <==> Logged(st'.log, e) && e.key.sequence <= n
    {
    }
    var top := iset e | Logged(st'.log, e) && e.key.sequence > n;
    assert HeldIn(st') == HeldIn(st) + top;
    assert History(st'.log) == History(st.log) + top;
    forall k, s, v | st'.floor <= s
      ensures Shows(HeldIn(st'), k, s, v) <==> Shows(History(st'.log), k, s, v)
    {
      if Shows(HeldIn(st'), k, s, v) { NewerOnTop(HeldIn(st), History(st.log), top, n, k, s, v); }
      if Shows(History(st'.log), k, s, v) { NewerOnTop(History(st.log), HeldIn(st), top, n, k, s, v); }
    }
  }

  lemma RotateKeeps(st: State, st': State)
    requires Inv(st) && RotateStep(st, st')
    ensures Inv(st')
  {
    assert HeldIn(st') == HeldIn(st);
  }

  /** Files listed in order whose ranges do not meet are disjoint. */
  lemma ApartIsDisjoint(files: seq<File>)
    requires GoodFiles(files) && Listed(files)
    requires forall f, g :: f in files && g in files && f != g ==> Apart(f, g)
    ensures Disjoint(files)
  {
    forall i, j | 0 <= i < j < |files|
      ensures files[i].largest.user < files[j].smallest.user
    {
      assert files[i] in files && files[j] in files && FileBefore(files[i], files[j]);
      EntryInRange(files[i], files[i].entries[0]);
      EntryInRange(files[j], files[j].entries[0]);
    }
  }

  lemma DisjointIsApart(files: seq<File>, f: File, g: File)
    requires Disjoint(files) && f in files && g in files && f != g
    ensures Apart(f, g)
  {
  }

  /** One of the files ends before the other begins. */
  predicate OneSide(f: File, g: File) {
    Precedes(f.largest, g.smallest) || Precedes(g.largest, f.smallest)
  }

  lemma OneSideIsOrdered(files: seq<File>)
    requires GoodFiles(files) && Listed(files)
    requires forall f, g :: f in files && g in files && f != g ==> OneSide(f, g)
    ensures Ordered(files)
  {
    forall i, j | 0 <= i < j < |files|
      ensures Precedes(files[i].largest, files[j].smallest)
    {
      assert files[i] in files && files[j] in files && FileBefore(files[i], files[j]);
      EntryInRange(files[i], files[i].entries[0]);
      EntryInRange(files[j], files[j].entries[0]);
    }
  }

  lemma OrderedIsOneSide(files: seq<File>, f: File, g: File)
    requires Ordered(files) && f in files && g in files && f != g
    ensures OneSide(f, g)
  {
  }

  /** Of two files of a sorted level, the one in front has the newer entries of a key they share,
      and the one behind begins with that key. */
  lemma SharedKey(files: seq<File>, f: File, g: File, x: Entry, y: Entry)
    requires GoodFiles(files) && Ordered(files) && f in files && g in files && f != g
    requires x in f.entries && y in g.entries && x.key.user == y.key.user
    ensures if x.key.sequence > y.key.sequence then Continues(f, g) && f.largest.user == x.key.user
            else Continues(g, f) && g.largest.user == x.key.user && x.key.sequence < y.key.sequence
  {
    OrderedIsOneSide(files, f, g);
    EntryInRange(f, x);
    EntryInRange(g, y);
  }

  /** Files whose ranges do not meet share no user key. */
  lemma ApartShareNothing(f: File, g: File, x: Entry, y: Entry)
    requires GoodFile(f) && GoodFile(g) && Apart(f, g) && x in f.entries && y in g.entries
    ensures x.key.user != y.key.user
  {
    EntryInRange(f, x);
    EntryInRange(g, y);
  }

  /** Files whose ranges do not meet are newer than each other, there being nothing to compare. */
  lemma ApartIsNewer(f: File, g: File)
    requires GoodFile(f) && GoodFile(g) && Apart(f, g)
    ensures Newer(f.entries, g.entries)
  {
    forall x, y | x in f.entries && y in g.entries
      ensures x.key.user != y.key.user
    {
      ApartShareNothing(f, g, x, y);
    }
  }

  /** Entries of one key in different files have different sequence numbers. */
  lemma FilesDiffer(levels: Levels, l: nat, f: File, m: nat, g: File, x: Entry, y: Entry)
    requires LevelsOk(levels) && l <= m < NUM_LEVELS && f in levels[l] && g in levels[m] && (l != m || f != g)
    requires x in f.entries && y in g.entries && x.key.user == y.key.user
    ensures x.key.sequence != y.key.sequence
  {
    if l < m { assert NewerLevel(levels[l], levels[m]); }
    else {
      assert GoodFiles(levels[l]);
      if l == 0 { assert f.number != g.number; }
      else { SharedKey(levels[l], f, g, x, y); }
    }
  }

  /** The added files lie apart from those that stay, so the level stays disjoint. */
  lemma EditDisjoint(before: seq<File>, after: seq<File>, removed: seq<File>, added: seq<File>)
    requires LevelEdit(before, after, removed, added)
    requires GoodFiles(before) && Disjoint(before) && GoodFiles(added) && Disjoint(added)
    requires forall f, g :: f in before && f !in removed && g in added ==> Apart(f, g)
    ensures Disjoint(after)
  {
    forall f, g | f in after && g in after && f != g
      ensures Apart(f, g)
    {
      if f in added && g in added { DisjointIsApart(added, f, g); }
      else if f !in added && g !in added { DisjointIsApart(before, f, g); }
    }
    ApartIsDisjoint(after);
  }

  /** The added files lie to one side of those that stay, so the level stays in order. */
  lemma EditOrdered(before: seq<File>, after: seq<File>, removed: seq<File>, added: seq<File>)
    requires LevelEdit(before, after, removed, added)
    requires GoodFiles(before) && Ordered(before) && GoodFiles(added) && Ordered(added)
    requires forall f, g :: f in before && f !in removed && g in added ==> OneSide(f, g)
    ensures Ordered(after)
  {
    forall f, g | f in after && g in after && f != g
      ensures OneSide(f, g)
    {
      if f in added && g in added { OrderedIsOneSide(added, f, g); }
      else if f !in added && g !in added { OrderedIsOneSide(before, f, g); }
    }
    OneSideIsOrdered(after);
  }

  lemma EditNewer(above: seq<File>, below: seq<File>,
                  above': seq<File>, removedA: seq<File>, addedA: seq<File>,
                  below': seq<File>, removedB: seq<File>, addedB: seq<File>)
    requires forall f :: f in above' ==> (f in above && f !in removedA) || f in addedA
    requires forall f :: f in below' ==> (f in below && f !in removedB) || f in addedB
    requires NewerLevel(above, below) && NewerLevel(addedA, below) && NewerLevel(addedA, addedB)
    requires forall f, g :: f in above && f !in removedA && g in addedB ==> Newer(f.entries, g.entries) && f.number != g.number
    ensures NewerLevel(above', below')
  {
  }

  /** What the added files must satisfy for the new version to be well formed. */
  ghost predicate EditForms(before: Levels, after: Levels, level: nat, added0: seq<File>, added1: seq<File>)
    requires |before| == NUM_LEVELS == |after| && level + 1 < NUM_LEVELS
  {
    && GoodFiles(added0) && GoodFiles(added1)
    && DistinctNumbers(after[level]) && DistinctNumbers(after[level + 1])
    && (level > 0 ==> Ordered(after[level])) && Ordered(after[level + 1])
    && (level == 0 ==> NewestByNumber(after[0]))
  }

  /** What they must satisfy besides for the levels to stay newer than those below. */
  ghost predicate EditFits(before: Levels, after: Levels, level: nat, removed0: seq<File>, added0: seq<File>,
                           added1: seq<File>)
    requires |before| == NUM_LEVELS == |after| && level + 1 < NUM_LEVELS
  {
    && EditForms(before, after, level, added0, added1)
    && (forall l :: 0 <= l < level ==> NewerLevel(before[l], added0) && NewerLevel(before[l], added1))
    && (forall m :: level + 1 < m < NUM_LEVELS ==> NewerLevel(added0, before[m]) && NewerLevel(added1, before[m]))
    && NewerLevel(added0, before[level + 1]) && NewerLevel(added0, added1)
    && (forall f, g :: f in before[level] && f !in removed0 && g in added1 ==> Newer(f.entries, g.entries) && f.number != g.number)
  }

  lemma EditKeepsPair(before: Levels, after: Levels, level: nat,
                      removed0: seq<File>, added0: seq<File>, removed1: seq<File>, added1: seq<File>, l: nat, m: nat)
    requires TreeEdit(before, after, level, removed0, added0, removed1, added1)
    requires EditFits(before, after, level, removed0, added0, added1)
    requires l < m < NUM_LEVELS && NewerLevel(before[l], before[m])
    ensures NewerLevel(after[l], after[m])
  {
    if l == level {
      if m == level + 1 { EditNewer(before[l], before[m], after[l], removed0, added0, after[m], removed1, added1); }
      else { EditNewer(before[l], before[m], after[l], removed0, added0, before[m], [], []); }
    } else if l == level + 1 {
      EditNewer(before[l], before[m], after[l], removed1, added1, before[m], [], []);
    } else if m == level {
      EditNewer(before[l], before[m], before[l], [], [], after[m], removed0, added0);
    } else if m == level + 1 {
      EditNewer(before[l], before[m], before[l], [], [], after[m], removed1, added1);
    }
  }

  lemma EditKeepsLevel(before: Levels, after: Levels, level: nat,
                       removed0: seq<File>, added0: seq<File>, removed1: seq<File>, added1: seq<File>, l: nat)
    requires Formed(before) && TreeEdit(before, after, level, removed0, added0, removed1, added1)
    requires EditForms(before, after, level, added0, added1) && l < NUM_LEVELS
    ensures GoodFiles(after[l]) && Listed(after[l]) && DistinctNumbers(after[l]) && (l > 0 ==> Ordered(after[l]))
  {
  }

  lemma EditKeepsForm(before: Levels, after: Levels, level: nat,
                      removed0: seq<File>, added0: seq<File>, removed1: seq<File>, added1: seq<File>)
    requires Formed(before) && TreeEdit(before, after, level, removed0, added0, removed1, added1)
    requires EditForms(before, after, level, added0, added1)
    ensures Formed(after)
  {
    forall l | 0 <= l < NUM_LEVELS
      ensures GoodFiles(after[l]) && Listed(after[l]) && DistinctNumbers(after[l]) && (l > 0 ==> Ordered(after[l]))
    {
      EditKeepsLevel(before, after, level, removed0, added0, removed1, added1, l);
    }
  }

  lemma EditKeepsOrder(before: Levels, after: Levels, level: nat,
                       removed0: seq<File>, added0: seq<File>, removed1: seq<File>, added1: seq<File>)
    requires LevelsOk(before) && TreeEdit(before, after, level, removed0, added0, removed1, added1)
    requires EditFits(before, after, level, removed0, added0, added1)
    ensures LevelsOk(after)
  {
    EditKeepsForm(before, after, level, removed0, added0, removed1, added1);
    forall l, m | 0 <= l < m < NUM_LEVELS
      ensures NewerLevel(after[l], after[m])
    {
      EditKeepsPair(before, after, level, removed0, added0, removed1, added1, l, m);
    }
  }

  /** A file that lies apart from those of a level joins it in order. */
  lemma JoinsLevel(before: seq<File>, after: seq<File>, f: File)
    requires LevelEdit(before, after, [], [f]) && GoodFiles(before) && Ordered(before) && GoodFile(f)
    requires forall g :: g in before ==> Apart(g, f)
    ensures Ordered(after)
  {
    assert forall g :: g in before ==> OneSide(g, f);
    EditOrdered(before, after, [], [f]);
  }

  lemma FlushFits(before: Levels, after: Levels, level: nat, f: File)
    requires LevelsOk(before) && TreeEdit(before, after, level, [], [f], [], []) && GoodFile(f)
    requires forall l, g :: 0 <= l < NUM_LEVELS && g in before[l] ==> g.number < f.number && Newer(f.entries, g.entries)
    requires level > 0 ==> forall l, g :: 0 <= l <= level && g in before[l] ==> Apart(g, f)
    ensures EditFits(before, after, level, [], [f], [])
  {
    forall l, g | 0 <= l < level && g in before[l]
      ensures Newer(g.entries, f.entries)
    {
      assert GoodFiles(before[l]);
      ApartIsNewer(g, f);
    }
    if level > 0 { JoinsLevel(before[level], after[level], f); }
    EditOrdered(before[level + 1], after[level + 1], [], []);
  }

  lemma FlushKeeps(st: State, st': State, level: nat, f: File)
    requires Inv(st) && FlushStep(st, st', level, f)
    ensures Inv(st')
  {
    if st.imm.value == [] {
      assert HeldIn(st') == HeldIn(st);
    } else {
      assert forall l :: 0 <= l < NUM_LEVELS ==> NewerThanFiles(f.entries, st.levels[l]);
      FlushFits(st.levels, st'.levels, level, f);
      EditKeepsOrder(st.levels, st'.levels, level, [], [f], [], []);
      forall e
        ensures Held(st', e) <==> Held(st, e)
      {
        EditStores(st.levels, st'.levels, level, [], [f], [], [], e);
      }
      assert HeldIn(st') == HeldIn(st);
      EditKeepsShape(st, st', level, [], [f], [], []);
    }
  }

  /** e lies in a file the edit does not remove. */
  ghost predicate StoredElsewhere(levels: Levels, level: nat, removed0: seq<File>, removed1: seq<File>, e: Entry) {
    exists l, f :: 0 <= l < |levels| && f in levels[l] && e in f.entries &&
      !(l == level && f in removed0) && !(l == level + 1 && f in removed1)
  }

  lemma EditStores(before: Levels, after: Levels, level: nat,
                   removed0: seq<File>, added0: seq<File>, removed1: seq<File>, added1: seq<File>, e: Entry)
    requires TreeEdit(before, after, level, removed0, added0, removed1, added1)
    requires forall f :: f in removed0 ==> f in before[level]
    requires forall f :: f in removed1 ==> f in before[level + 1]
    ensures Stored(after, e) <==>
              StoredElsewhere(before, level, removed0, removed1, e) || InFiles(added0, e) || InFiles(added1, e)
    ensures Stored(before, e) <==>
              StoredElsewhere(before, level, removed0, removed1, e) || InFiles(removed0, e) || InFiles(removed1, e)
  {
    if Stored(after, e) {
      var l, f :| 0 <= l < |after| && f in after[l] && e in f.entries;
      if f !in added0 && f !in added1 {
        assert f in before[l] && !(l == level && f in removed0) && !(l == level + 1 && f in removed1);
      }
    }
    if StoredElsewhere(before, level, removed0, removed1, e) {
      var l, f :| 0 <= l < |before| && f in before[l] && e in f.entries &&
        !(l == level && f in removed0) && !(l == level + 1 && f in removed1);
      assert f in after[l];
    }
    if InFiles(added0, e) {
      var f :| f in added0 && e in f.entries;
      assert f in after[level];
    }
    if InFiles(added1, e) {
      var f :| f in added1 && e in f.entries;
      assert f in after[level + 1];
    }
  }

  /** The parts of the invariant that only ask where entries and numbers come from. */
  lemma EditKeepsShape(st: State, st': State, level: nat,
                       removed0: seq<File>, added0: seq<File>, removed1: seq<File>, added1: seq<File>)
    requires Shape(st) && TreeEdit(st.levels, st'.levels, level, removed0, added0, removed1, added1)
    requires LevelsOk(st'.levels)
    requires st'.mem == st.mem && st'.log == st.log && st'.snapshots == st.snapshots
    requires st'.imm == st.imm || st'.imm == None
    requires st.floor <= st'.floor <= |st.log| && forall i :: 0 <= i < |st.snapshots| ==> st'.floor <= st.snapshots[i]
    requires st.nextFile <= st'.nextFile
    requires forall f :: f in added0 || f in added1 ==>
               f.number < st'.nextFile && Newer(st.mem, f.entries) && Newer(Imm(st'), f.entries)
    requires forall e :: Held(st', e) ==> Held(st, e)
    ensures Shape(st')
  {
    forall l | 0 <= l < NUM_LEVELS
      ensures NewerThanFiles(st'.mem, st'.levels[l]) && NewerThanFiles(Imm(st'), st'.levels[l])
      ensures forall f :: f in st'.levels[l] ==> f.number < st'.nextFile
    {
      assert NewerThanFiles(st.mem, st.levels[l]) && NewerThanFiles(Imm(st), st.levels[l]);
    }
  }

  /** A file that misses the range covering the inputs lies apart from each of them. */
  lemma MissingIsApart(files: seq<File>, lo: UserKey, hi: UserKey, f: File, g: File)
    requires Spans(files, lo, hi) && f in files && GoodFile(f) && GoodFile(g) && !Meets(g, Some(lo), Some(hi))
    ensures Apart(f, g)
  {
    EntryInRange(f, f.entries[0]);
    EntryInRange(g, g.entries[0]);
  }

  /** Where a file left at the level shares a user key with one taken from it, it is the newer one. */
  lemma LeftBehindIsNewer(levels: Levels, level: nat, in0: seq<File>, in1: seq<File>, f: File, g: File, x: Entry,
                          y: Entry)
    requires Formed(levels) && LegalInputs(levels, level, in0, in1) && (level > 0 ==> Unshared(levels[level], in0))
    requires f in in0 && g in levels[level] && g !in in0
    requires x in g.entries && y in f.entries && x.key.user == y.key.user
    ensures level > 0 && x.key.sequence > y.key.sequence
  {
    assert GoodFiles(levels[level]);
    if level > 0 { SharedKey(levels[level], g, f, x, y); }
    else { ApartShareNothing(f, g, y, x); }
  }

  lemma MovedIsApart(levels: Levels, level: nat, f: File)
    requires LevelsOk(levels) && LegalInputs(levels, level, [f], [])
    ensures f in levels[level] && GoodFile(f)
    ensures forall g :: g in levels[level + 1] ==> Apart(g, f)
  {
    var upper, lower := levels[level], levels[level + 1];
    assert f in [f] && GoodFiles(upper) && GoodFiles(lower);
    var lo, hi :| MeetingInputs(lower, [f], [], lo, hi);
    forall g | g in lower
      ensures Apart(g, f)
    {
      MissingIsApart([f], lo, hi, f, g);
    }
  }

  lemma OthersAreNewer(levels: Levels, level: nat, f: File)
    requires LevelsOk(levels) && LegalInputs(levels, level, [f], []) && (level > 0 ==> Unshared(levels[level], [f]))
    ensures forall g :: g in levels[level] && g != f ==> Newer(g.entries, f.entries) && g.number != f.number
  {
    assert f in [f];
    forall g, x, y | g in levels[level] && g != f && x in g.entries && y in f.entries && x.key.user == y.key.user
      ensures x.key.sequence > y.key.sequence
    {
      LeftBehindIsNewer(levels, level, [f], [], f, g, x, y);
    }
  }

  lemma MoveFits(before: Levels, after: Levels, level: nat, f: File)
    requires LevelsOk(before) && LegalInputs(before, level, [f], []) && TreeEdit(before, after, level, [f], [], [], [f])
    requires level > 0 ==> Unshared(before[level], [f])
    ensures EditFits(before, after, level, [f], [], [f])
  {
    MovedIsApart(before, level, f);
    OthersAreNewer(before, level, f);
    assert forall l :: 0 <= l < level ==> NewerLevel(before[l], before[level]);
    assert NewerLevel(before[level], before[level + 1]);
    assert forall m :: level + 1 < m < NUM_LEVELS ==> NewerLevel(before[level], before[m]);
    EditOrdered(before[level + 1], after[level + 1], [], [f]);
    if level > 0 { EditOrdered(before[level], after[level], [f], []); }
  }

  lemma MoveKeeps(st: State, st': State, level: nat, f: File)
    requires Inv(st) && MoveStep(st, st', level, f) && (level > 0 ==> Unshared(st.levels[level], [f]))
    ensures Inv(st')
  {
    MoveFits(st.levels, st'.levels, level, f);
    EditKeepsOrder(st.levels, st'.levels, level, [f], [], [], [f]);
    assert f in [f];
    forall e
      ensures Held(st', e) <==> Held(st, e)
    {
      EditStores(st.levels, st'.levels, level, [f], [], [], [f], e);
    }
    assert HeldIn(st') == HeldIn(st);
    assert NewerThanFiles(st.mem, st.levels[level]) && NewerThanFiles(Imm(st), st.levels[level]);
    EditKeepsShape(st, st', level, [f], [], [], [f]);
  }

  lemma {:induction false} JoinedFilesMembers(files: seq<File>, e: Entry)
    ensures e in JoinedFiles(files) <==> InFiles(files, e)
  {
    if files != [] {
      var front, last := files[..|files| - 1], files[|files| - 1];
      JoinedFilesMembers(front, e);
      assert files == front + [last];
      if InFiles(files, e) {
        var f :| f in files && e in f.entries;
        if f != last { assert f in front; }
      }
    }
  }

  /** The entries of a file come before those of any later file of the list. */
  lemma {:induction false} JoinedInOrder(files: seq<File>, i: nat, x: Entry, j: nat, y: Entry)
    requires Sorted(JoinedFiles(files)) && i < j < |files| && x in files[i].entries && y in files[j].entries
    ensures Less(x.key, y.key)
  {
    var front, last := files[..|files| - 1], files[|files| - 1];
    if j < |files| - 1 {
      assert forall a, b :: 0 <= a < b < |JoinedFiles(front)| ==>
          JoinedFiles(front)[a] == JoinedFiles(files)[a] && JoinedFiles(front)[b] == JoinedFiles(files)[b];
      JoinedInOrder(front, i, x, j, y);
    } else {
      assert front[i] in front;
      JoinedFilesMembers(front, x);
      var a :| 0 <= a < |JoinedFiles(front)| && JoinedFiles(front)[a] == x;
      var b :| 0 <= b < |last.entries| && last.entries[b] == y;
      assert JoinedFiles(files)[a] == x && JoinedFiles(files)[|JoinedFiles(front)| + b] == y;
    }
  }

  /** Every output entry is an input entry. */
  lemma OutputsComeFromInputs(st: State, st': State, level: nat, in0: seq<File>, in1: seq<File>,
                              all: seq<Entry>, outs: seq<File>, o: File, e: Entry)
    requires CompactStep(st, st', level, in0, in1, all, outs) && o in outs && e in o.entries
    ensures e in all && (InFiles(in0, e) || InFiles(in1, e))
  {
    JoinedFilesMembers(outs, e);
    assert e in Kept(st.levels, level, all, SmallestSnapshot(st), |all|);
  }

  ghost predicate ComeFrom(outs: seq<File>, in0: seq<File>, in1: seq<File>) {
    forall o, e :: o in outs && e in o.entries ==> InFiles(in0, e) || InFiles(in1, e)
  }

  /** What is newer than the inputs is newer than the outputs. */
  lemma NewerThanOutputs(run: seq<Entry>, outs: seq<File>, in0: seq<File>, in1: seq<File>)
    requires ComeFrom(outs, in0, in1) && NewerThanFiles(run, in0) && NewerThanFiles(run, in1)
    ensures NewerThanFiles(run, outs)
  {
    forall o, x, y | o in outs && x in run && y in o.entries && x.key.user == y.key.user
      ensures x.key.sequence > y.key.sequence
    {
      assert InFiles(in0, y) || InFiles(in1, y);
    }
  }

  /** What is older than the inputs is older than the outputs. */
  lemma OlderThanOutputs(run: seq<Entry>, outs: seq<File>, in0: seq<File>, in1: seq<File>)
    requires ComeFrom(outs, in0, in1)
    requires forall f :: f in in0 || f in in1 ==> Newer(f.entries, run)
    ensures forall o :: o in outs ==> Newer(o.entries, run)
  {
    forall o, x, y | o in outs && x in o.entries && y in run && x.key.user == y.key.user
      ensures x.key.sequence > y.key.sequence
    {
      assert InFiles(in0, x) || InFiles(in1, x);
    }
  }

  /** The outputs stand to the rest of the store as the inputs did. */
  lemma InputsToOutputs(st: State, st': State, level: nat, in0: seq<File>, in1: seq<File>,
                        all: seq<Entry>, outs: seq<File>)
    requires Shape(st) && CompactStep(st, st', level, in0, in1, all, outs)
    ensures forall l :: 0 <= l < level ==> NewerLevel(st.levels[l], outs)
    ensures forall m :: level + 1 < m < NUM_LEVELS ==> NewerLevel(outs, st.levels[m])
    ensures NewerThanFiles(st.mem, outs) && NewerThanFiles(Imm(st), outs)
  {
    var upper, lower := st.levels[level], st.levels[level + 1];
    assert ComeFrom(outs, in0, in1) by {
      forall o, e | o in outs && e in o.entries
        ensures InFiles(in0, e) || InFiles(in1, e)
      {
        OutputsComeFromInputs(st, st', level, in0, in1, all, outs, o, e);
      }
    }
    assert NewerThanFiles(st.mem, upper) && NewerThanFiles(Imm(st), upper);
    assert NewerThanFiles(st.mem, lower) && NewerThanFiles(Imm(st), lower);
    NewerThanOutputs(st.mem, outs, in0, in1);
    NewerThanOutputs(Imm(st), outs, in0, in1);
    forall l, f | 0 <= l < level && f in st.levels[l]
      ensures NewerThanFiles(f.entries, outs) && f.number < st.nextFile
    {
      assert NewerLevel(st.levels[l], upper) && NewerLevel(st.levels[l], lower);
      NewerThanOutputs(f.entries, outs, in0, in1);
    }
    forall m, f | level + 1 < m < NUM_LEVELS && f in st.levels[m]
      ensures forall o :: o in outs ==> Newer(o.entries, f.entries)
    {
      assert NewerLevel(upper, st.levels[m]) && NewerLevel(lower, st.levels[m]);
      OlderThanOutputs(f.entries, outs, in0, in1);
    }
  }

  /** A file left at `level` is newer than the outputs: than what was taken from its own level by
      the guard, than what was taken from below by the order of levels. */
  lemma LeftBehindOverOutput(st: State, st': State, level: nat, in0: seq<File>, in1: seq<File>,
                             all: seq<Entry>, outs: seq<File>, g: File, o: File)
    requires Shape(st) && CompactStep(st, st', level, in0, in1, all, outs)
    requires level > 0 ==> Unshared(st.levels[level], in0)
    requires g in st.levels[level] && g !in in0 && o in outs
    ensures Newer(g.entries, o.entries)
  {
    assert NewerLevel(st.levels[level], st.levels[level + 1]);
    forall x, y | x in g.entries && y in o.entries && x.key.user == y.key.user
      ensures x.key.sequence > y.key.sequence
    {
      OutputsComeFromInputs(st, st', level, in0, in1, all, outs, o, y);
      if InFiles(in0, y) {
        var h :| h in in0 && y in h.entries;
        LeftBehindIsNewer(st.levels, level, in0, in1, h, g, x, y);
      }
    }
  }

  /** A file of the next level that is not an input lies to one side of every output. */
  lemma OutputsMissTheRest(st: State, st': State, level: nat, in0: seq<File>, in1: seq<File>,
                           all: seq<Entry>, outs: seq<File>, g: File, o: File)
    requires Shape(st) && CompactStep(st, st', level, in0, in1, all, outs)
    requires in0 != [] && g in st.levels[level + 1] && g !in in1 && o in outs
    ensures OneSide(g, o)
    ensures Disjoint(st.levels[level + 1]) ==> Apart(g, o)
  {
    forall e | e in o.entries
      ensures InFiles(in0, e) || InFiles(in1, e)
    {
      OutputsComeFromInputs(st, st', level, in0, in1, all, outs, o, e);
    }
    assert GoodFiles(st.levels[level]) && GoodFiles(st.levels[level + 1]);
    MissedByInputs(st.levels[level + 1], in0, in1, g, o);
  }

  lemma MissedByInputs(lower: seq<File>, in0: seq<File>, in1: seq<File>, g: File, o: File)
    requires GoodFiles(lower) && Ordered(lower) && GoodFiles(in0) && GoodFile(o)
    requires in0 != [] && (forall f :: f in in1 ==> f in lower) && g in lower && g !in in1
    requires TakesBelow(lower, in0, in1)
    requires forall e :: e in o.entries ==> InFiles(in0, e) || InFiles(in1, e)
    ensures OneSide(g, o)
    ensures Disjoint(lower) ==> Apart(g, o)
  {
    var lo, hi :| MeetingInputs(lower, in0, in1, lo, hi);
    var first, last := o.entries[0], o.entries[|o.entries| - 1];
    assert in0[0] in in0 && first in o.entries && last in o.entries;
    EntryInRange(g, g.entries[0]);
    EntryInRange(in0[0], in0[0].entries[0]);
    if g.largest.user < lo { InputBehind(lower, in0, in1, lo, hi, g, first); }
    else { InputInFront(lower, in0, in1, lo, hi, g, last); }
  }

  /** A file left in front of the range comes before every input entry. */
  lemma InputBehind(lower: seq<File>, in0: seq<File>, in1: seq<File>, lo: UserKey, hi: UserKey, g: File, e: Entry)
    requires GoodFiles(lower) && Ordered(lower) && GoodFiles(in0) && MeetingInputs(lower, in0, in1, lo, hi)
    requires (forall f :: f in in1 ==> f in lower) && g in lower && g.largest.user < lo
    requires InFiles(in0, e) || InFiles(in1, e)
    ensures Precedes(g.largest, e.key)
    ensures Disjoint(lower) ==> g.largest.user < e.key.user
  {
    EntryInRange(g, g.entries[0]);
    if InFiles(in0, e) {
      var h :| h in in0 && e in h.entries;
      EntryInRange(h, e);
    } else {
      var h :| h in in1 && e in h.entries;
      EntryInRange(h, e);
      OrderedIsOneSide(lower, g, h);
      if Disjoint(lower) { DisjointIsApart(lower, g, h); }
    }
  }

  /** A file left behind the range comes after every input entry. */
  lemma InputInFront(lower: seq<File>, in0: seq<File>, in1: seq<File>, lo: UserKey, hi: UserKey, g: File, e: Entry)
    requires GoodFiles(lower) && Ordered(lower) && GoodFiles(in0) && MeetingInputs(lower, in0, in1, lo, hi)
    requires (forall f :: f in in1 ==> f in lower) && g in lower && hi < g.smallest.user
    requires InFiles(in0, e) || InFiles(in1, e)
    ensures Precedes(e.key, g.smallest)
    ensures Disjoint(lower) ==> e.key.user < g.smallest.user
  {
    EntryInRange(g, g.entries[0]);
    if InFiles(in0, e) {
      var h :| h in in0 && e in h.entries;
      EntryInRange(h, e);
    } else {
      var h :| h in in1 && e in h.entries;
      EntryInRange(h, e);
      OrderedIsOneSide(lower, g, h);
      if Disjoint(lower) { DisjointIsApart(lower, g, h); }
    }
  }

  /** Sequence numbers being unique, the pieces of a sorted list are in order. */
  lemma {:induction false} PiecesOrdered(outs: seq<File>)
    requires GoodFiles(outs) && Sorted(JoinedFiles(outs))
    requires forall x, y :: x in JoinedFiles(outs) && y in JoinedFiles(outs) && x.key.sequence == y.key.sequence ==> x == y
    ensures Ordered(outs)
  {
    forall i, j | 0 <= i < j < |outs|
      ensures Precedes(outs[i].largest, outs[j].smallest)
    {
      assert outs[i] in outs && outs[j] in outs;
      var x, y := outs[i].entries[|outs[i].entries| - 1], outs[j].entries[0];
      assert x in outs[i].entries && y in outs[j].entries;
      JoinedInOrder(outs, i, x, j, y);
      JoinedFilesMembers(outs, x);
      JoinedFilesMembers(outs, y);
    }
  }

  /** A held entry is the update its sequence number was given to. */
  lemma HeldOnce(st: State, x: Entry, y: Entry)
    requires Shape(st) && Held(st, x) && Held(st, y) && x.key.sequence == y.key.sequence
    ensures x == y && 1 <= x.key.sequence <= |st.log|
  {
  }

  lemma InputsHeld(st: State, level: nat, in0: seq<File>, in1: seq<File>, e: Entry)
    requires LegalInputs(st.levels, level, in0, in1) && (InFiles(in0, e) || InFiles(in1, e))
    ensures Held(st, e)
  {
    if InFiles(in0, e) {
      var f :| f in in0 && e in f.entries;
      assert f in st.levels[level];
    } else {
      var f :| f in in1 && e in f.entries;
      assert f in st.levels[level + 1];
    }
  }

  lemma {:induction false} OutputsOrdered(st: State, st': State, level: nat, in0: seq<File>, in1: seq<File>,
                                          all: seq<Entry>, outs: seq<File>)
    requires Shape(st) && CompactStep(st, st', level, in0, in1, all, outs)
    ensures Ordered(outs) && Sorted(JoinedFiles(outs))
  {
    KeptSorted(st.levels, level, all, SmallestSnapshot(st), |all|);
    forall x | x in JoinedFiles(outs)
      ensures Held(st, x)
    {
      assert x in all;
      InputsHeld(st, level, in0, in1, x);
    }
    forall x, y | x in JoinedFiles(outs) && y in JoinedFiles(outs) && x.key.sequence == y.key.sequence
      ensures x == y
    {
      HeldOnce(st, x, y);
    }
    PiecesOrdered(outs);
  }

  lemma CompactFits(st: State, st': State, level: nat, in0: seq<File>, in1: seq<File>,
                    all: seq<Entry>, outs: seq<File>)
    requires Shape(st) && CompactStep(st, st', level, in0, in1, all, outs) && in0 != []
    requires level > 0 ==> Unshared(st.levels[level], in0)
    ensures EditFits(st.levels, st'.levels, level, in0, [], outs)
  {
    InputsToOutputs(st, st', level, in0, in1, all, outs);
    var upper := st.levels[level];
    forall g, o | g in upper && g !in in0 && o in outs
      ensures Newer(g.entries, o.entries) && g.number != o.number
    {
      LeftBehindOverOutput(st, st', level, in0, in1, all, outs, g, o);
    }
    CompactForms(st, st', level, in0, in1, all, outs);
  }

  /** Whatever the inputs and the cut, the two levels stay well formed. */
  lemma CompactForms(st: State, st': State, level: nat, in0: seq<File>, in1: seq<File>,
                     all: seq<Entry>, outs: seq<File>)
    requires Shape(st) && CompactStep(st, st', level, in0, in1, all, outs) && in0 != []
    ensures EditForms(st.levels, st'.levels, level, [], outs)
  {
    var upper, lower := st.levels[level], st.levels[level + 1];
    OutputsOrdered(st, st', level, in0, in1, all, outs);
    forall g, o | g in lower && g !in in1 && o in outs
      ensures OneSide(g, o) && g.number != o.number
    {
      OutputsMissTheRest(st, st', level, in0, in1, all, outs, g, o);
    }
    EditOrdered(lower, st'.levels[level + 1], in1, outs);
    if level > 0 { EditOrdered(upper, st'.levels[level], in0, []); }
  }

  /** An entry of another file that shares its key with a removable deletion of the inputs is newer. */
  lemma OtherFileIsNewer(levels: Levels, level: nat, in0: seq<File>, in1: seq<File>, ss: nat,
                         l: nat, f: File, hl: nat, h: File, x: Entry, y: Entry)
    requires LevelsOk(levels) && LegalInputs(levels, level, in0, in1) && Guarded(levels, level, in0, in1, ss)
    requires (hl == level && h in in0) || (hl == level + 1 && h in in1)
    requires l < NUM_LEVELS && f in levels[l] && !(l == level && f in in0) && !(l == level + 1 && f in in1)
    requires x in f.entries && y in h.entries
    requires x.key.user == y.key.user && Removable(levels, level, ss, y)
    ensures x.key.sequence > y.key.sequence
  {
    assert GoodFiles(levels[l]);
    EntryInRange(f, x);
    assert Covers(f, y.key.user);
    assert l < level + 2;
    if l < hl {
      assert NewerLevel(levels[l], levels[hl]);
    } else if l == level {
      LeftBehindIsNewer(levels, level, in0, in1, h, f, x, y);
    } else if hl == level {
      MissesTaken(levels, level, in0, in1, h, f, x, y);
    } else {
      SharedKey(levels[level + 1], h, f, y, x);
    }
  }

  /** A file of the next level that is not an input shares no key with those taken from above it. */
  lemma MissesTaken(levels: Levels, level: nat, in0: seq<File>, in1: seq<File>, h: File, f: File, x: Entry, y: Entry)
    requires Formed(levels) && LegalInputs(levels, level, in0, in1)
    requires h in in0 && f in levels[level + 1] && f !in in1 && x in f.entries && y in h.entries
    ensures x.key.user != y.key.user
  {
    assert GoodFiles(levels[level]) && GoodFiles(levels[level + 1]);
    var lo, hi :| MeetingInputs(levels[level + 1], in0, in1, lo, hi);
    MissingIsApart(in0, lo, hi, h, f);
    ApartShareNothing(h, f, y, x);
  }

  lemma ElsewhereIsNewer(levels: Levels, level: nat, in0: seq<File>, in1: seq<File>, ss: nat,
                         hl: nat, h: File, x: Entry, y: Entry)
    requires LevelsOk(levels) && LegalInputs(levels, level, in0, in1) && Guarded(levels, level, in0, in1, ss)
    requires StoredElsewhere(levels, level, in0, in1, x)
    requires (hl == level && h in in0) || (hl == level + 1 && h in in1)
    requires y in h.entries
    requires x.key.user == y.key.user && Removable(levels, level, ss, y)
    ensures x.key.sequence > y.key.sequence
  {
    var l, f :| 0 <= l < |levels| && f in levels[l] && x in f.entries &&
      !(l == level && f in in0) && !(l == level + 1 && f in in1);
    OtherFileIsNewer(levels, level, in0, in1, ss, l, f, hl, h, x, y);
  }

  lemma MemtablesAreNewer(st: State, l: nat, f: File, x: Entry, y: Entry)
    requires Shape(st) && l < NUM_LEVELS && f in st.levels[l]
    requires (x in st.mem || x in Imm(st)) && y in f.entries && x.key.user == y.key.user
    ensures x.key.sequence > y.key.sequence
  {
    assert NewerThanFiles(st.mem, st.levels[l]) && NewerThanFiles(Imm(st), st.levels[l]);
  }

  /** What rule (B) relies on: outside the inputs, the key of a deletion it may drop has only newer entries. */
  lemma NothingOlderOutside(st: State, level: nat, in0: seq<File>, in1: seq<File>, ss: nat, x: Entry, y: Entry)
    requires Shape(st) && LegalInputs(st.levels, level, in0, in1) && Guarded(st.levels, level, in0, in1, ss)
    requires x in Rest(st, level, in0, in1) && (InFiles(in0, y) || InFiles(in1, y))
    requires x.key.user == y.key.user && Removable(st.levels, level, ss, y)
    ensures x.key.sequence > y.key.sequence
  {
    var hl, files := if InFiles(in0, y) then level else level + 1, if InFiles(in0, y) then in0 else in1;
    var h :| h in files && y in h.entries;
    if x in st.mem || x in Imm(st) {
      MemtablesAreNewer(st, hl, h, x, y);
    } else {
      ElsewhereIsNewer(st.levels, level, in0, in1, ss, hl, h, x, y);
    }
  }

  ghost function Rest(st: State, level: nat, in0: seq<File>, in1: seq<File>): iset<Entry> {
    iset e | e in st.mem || e in Imm(st) || StoredElsewhere(st.levels, level, in0, in1, e)
  }

  lemma {:induction false} CompactEntries(st: State, st': State, level: nat, in0: seq<File>, in1: seq<File>,
                       all: seq<Entry>, outs: seq<File>)
    requires CompactStep(st, st', level, in0, in1, all, outs)
    ensures HeldIn(st) == Rest(st, level, in0, in1) + Entries(all)
    ensures HeldIn(st') == Rest(st, level, in0, in1) + Entries(Kept(st.levels, level, all, SmallestSnapshot(st), |all|))
    ensures forall e :: Held(st', e) ==> Held(st, e)
  {
    var kept := Kept(st.levels, level, all, SmallestSnapshot(st), |all|);
    forall e
      ensures Held(st, e) <==> e in Rest(st, level, in0, in1) || e in all
      ensures Held(st', e) <==> e in Rest(st, level, in0, in1) || e in kept
    {
      EditStores(st.levels, st'.levels, level, in0, [], in1, outs, e);
      JoinedFilesMembers(outs, e);
    }
    assert forall e :: e in kept ==> e in all;
  }

  lemma CompactKeepsShape(st: State, st': State, level: nat, in0: seq<File>, in1: seq<File>,
                          all: seq<Entry>, outs: seq<File>)
    requires Shape(st) && CompactStep(st, st', level, in0, in1, all, outs) && in0 != []
    requires level > 0 ==> Unshared(st.levels[level], in0)
    ensures Shape(st')
  {
    CompactFits(st, st', level, in0, in1, all, outs);
    EditKeepsOrder(st.levels, st'.levels, level, in0, [], in1, outs);
    CompactEntries(st, st', level, in0, in1, all, outs);
    InputsToOutputs(st, st', level, in0, in1, all, outs);
    EditKeepsShape(st, st', level, in0, [], in1, outs);
  }

  /** A guarded compaction keeps the invariant, however its output is cut. */
  lemma CompactKeeps(st: State, st': State, level: nat, in0: seq<File>, in1: seq<File>,
                     all: seq<Entry>, outs: seq<File>)
    requires Inv(st) && CompactStep(st, st', level, in0, in1, all, outs) && in0 != []
    requires Guarded(st.levels, level, in0, in1, SmallestSnapshot(st))
    ensures Inv(st')
  {
    CompactKeepsShape(st, st', level, in0, in1, all, outs);
    CompactKeepsAnswers(st, st', level, in0, in1, all, outs);
  }

  /** However its output is cut, a guarded compaction changes no answer at or above its smallest snapshot. */
  lemma CompactKeepsAnswers(st: State, st': State, level: nat, in0: seq<File>, in1: seq<File>,
                            all: seq<Entry>, outs: seq<File>)
    requires Inv(st) && CompactStep(st, st', level, in0, in1, all, outs)
    requires Guarded(st.levels, level, in0, in1, SmallestSnapshot(st))
    ensures Faithful(st')
    ensures forall k, s, v :: SmallestSnapshot(st) <= s ==> (Shows(HeldIn(st'), k, s, v) <==> Shows(HeldIn(st), k, s, v))
  {
    var ss, rest := SmallestSnapshot(st), Rest(st, level, in0, in1);
    CompactEntries(st, st', level, in0, in1, all, outs);
    assert NothingOlderBelow(st.levels, level, rest, all, ss) by {
      forall x, y | x in rest && y in all && x.key.user == y.key.user && Removable(st.levels, level, ss, y)
        ensures x.key.sequence > y.key.sequence
      {
        NothingOlderOutside(st, level, in0, in1, ss, x, y);
      }
    }
    forall k, s, v | ss <= s
      ensures Shows(HeldIn(st'), k, s, v) <==> Shows(HeldIn(st), k, s, v)
    {
      CompactionKeepsReads(st.levels, level, rest, all, ss, k, s, v);
    }
  }
}
