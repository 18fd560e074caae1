/** A run in which a read goes wrong: a snapshot makes a compaction keep two values of a key, their
    size makes it cut between them, and the next compaction takes only the newer one down. */
module StaleRuns {
  import opened Format
  import opened SnapshotSpec
  import opened Versions
  import opened Compactions
  import opened StoreSpec
  import opened StoreProofs
  import opened StoreRuns
  import opened Picker

  function Payload(es: seq<Entry>): nat {
    if es == [] then 0 else |es[0].value| + Payload(es[1..])
  }

  /** The output of a compaction as the size limit cuts it: an output is finished by the entry that
      fills it, and not before it is full unless the input ends. */
  ghost predicate CutWhenFull(outs: seq<File>) {
    && (forall f :: f in outs ==> f.entries != [] && Payload(f.entries) <= f.size)
    && (forall f :: f in outs ==> Payload(f.entries[..|f.entries| - 1]) < TARGET_FILE_SIZE)
    && (forall i :: 0 <= i < |outs| - 1 ==> outs[i].size >= TARGET_FILE_SIZE)
  }

  /** A step with the choices the store makes: the level of a flush, the inputs of a manual
      compaction of the whole key range, and where its output is cut. */
  ghost predicate AsChosen(st: State, step: Step) {
    match step
    case Flush(level, f) => |st.levels| == NUM_LEVELS && LandsOn(st.levels, f.smallest.user, f.largest.user, level)
    case Compact(level, in0, in1, all, outs) =>
      level + 1 < |st.levels| && ManualInputs(st.levels, level, None, None, in0, in1) && CutWhenFull(outs)
    case Move(level, f) => false
    case _ => true
  }

  /** A snapshot between two values of a key makes a compaction keep both of them. */
  lemma {:induction false} SnapshotKeepsBoth(levels: Levels, level: nat, all: seq<Entry>, ss: nat, i: nat)
    requires Sorted(all) && ss < MAX_SEQUENCE && i + 1 < |all| && all[i].key.user == all[i + 1].key.user
    requires all[i + 1].key.sequence <= ss < all[i].key.sequence && all[i].key.kind == all[i + 1].key.kind == Put
    ensures !Dropped(levels, level, all, ss, i) && !Dropped(levels, level, all, ss, i + 1)
    ensures all[i] in Kept(levels, level, all, ss, |all|) && all[i + 1] in Kept(levels, level, all, ss, |all|)
  {
    assert i > 0 ==> Less(all[i - 1].key, all[i].key);
  }

  const NO_FILES: Levels := [[], [], [], [], [], [], []]

  /** Two values of one key, each large enough to fill a table, and the sizes of the tables. */
  datatype Values = Values(k: UserKey, a: Bytes, b: Bytes, sizes: nat -> nat) {

    ghost predicate Large() {
      && |a| >= TARGET_FILE_SIZE && |b| >= TARGET_FILE_SIZE && a != b
      && (forall n :: |a| <= sizes(n) && |b| <= sizes(n) && sizes(n) <= MAX_GRANDPARENT_OVERLAP)
    }

    function Old(): Entry { Entry(IKey(k, 1, Put), a) }

    function New(): Entry { Entry(IKey(k, 2, Put), b) }

    function Table(n: nat, e: Entry): File { File(n, sizes(n), e.key, e.key, [e]) }

    function Ops(): seq<Op> { [Op(k, Put, a), Op(k, Put, b)] }

    function Before(): Levels { NO_FILES[1 := [Table(3, New())]][2 := [Table(2, Old())]] }

    function Cut(): Levels { NO_FILES[2 := [Table(4, New()), Table(5, Old())]] }

    function After(): Levels { NO_FILES[2 := [Table(5, Old())]][3 := [Table(6, New())]] }

    /** The states of the run. */
    ghost function States(): seq<State> {
      var one := Ops()[..1];
      var low := NO_FILES[2 := [Table(2, Old())]];
      [State([], None, NO_FILES, 2, [], [], 0),
       State([Old()], None, NO_FILES, 2, [], one, 0),
       State([], Some([Old()]), NO_FILES, 2, [], one, 0),
       State([], None, low, 3, [], one, 0),
       State([], None, low, 3, [1], one, 0),
       State([New()], None, low, 3, [1], Ops(), 0),
       State([], Some([New()]), low, 3, [1], Ops(), 0),
       State([], None, Before(), 4, [1], Ops(), 0),
       State([], None, Cut(), 6, [1], Ops(), 1),
       State([], None, After(), 7, [1], Ops(), 1)]
    }

    /** A value is written and flushed to level 2, a snapshot taken, the other value written and
        flushed to level 1; then level 1 is compacted, and level 2. */
    ghost function Steps(): seq<Step> {
      [Write(Ops()[..1]), Rotate, Flush(2, Table(2, Old())), TakeSnapshot,
       Write(Ops()[1..]), Rotate, Flush(1, Table(3, New())),
       Compact(1, [Table(3, New())], [Table(2, Old())], [New(), Old()], [Table(4, New()), Table(5, Old())]),
       Compact(2, [Table(4, New())], [], [New()], [Table(6, New())])]
    }
  }

  lemma FirstWrite(v: Values)
    ensures Takes(v.States()[0], v.States()[1], v.Steps()[0])
  {
    assert [] + v.Ops()[..1] == v.Ops()[..1];
    assert forall e :: Logged(v.Ops()[..1], e) <==> e == v.Old();
  }

  lemma SecondWrite(v: Values)
    ensures Takes(v.States()[4], v.States()[5], v.Steps()[4])
  {
    assert v.Ops()[..1] + v.Ops()[1..] == v.Ops();
    assert forall e :: Logged(v.Ops(), e) <==> e == v.Old() || e == v.New();
  }

  lemma TableGood(v: Values, n: nat, e: Entry)
    requires e == v.Old() || e == v.New()
    ensures GoodFile(v.Table(n, e))
  {
  }

  /** On an empty tree a flush goes as far down as any may. */
  lemma FirstFlush(v: Values)
    ensures Takes(v.States()[2], v.States()[3], v.Steps()[2]) && AsChosen(v.States()[2], v.Steps()[2])
  {
    TableGood(v, 2, v.Old());
    assert forall l :: 0 <= l < NUM_LEVELS ==> NO_FILES[l] == [];
    assert forall l :: 0 <= l < NUM_LEVELS ==> Clear(NO_FILES[l], v.k, v.k);
    assert forall l :: 2 <= l < NUM_LEVELS ==> Meeting(NO_FILES[l], Some(v.k), Some(v.k)) == [];
  }

  /** The second flush stops above the table it meets. */
  lemma SecondFlush(v: Values)
    requires v.Large()
    ensures Takes(v.States()[6], v.States()[7], v.Steps()[6]) && AsChosen(v.States()[6], v.Steps()[6])
  {
    var levels, f := v.States()[6].levels, v.Table(2, v.Old());
    TableGood(v, 3, v.New());
    assert levels[0] == [] && levels[1] == [] && levels[2] == [f] && levels[2][..0] == [];
    assert Clear(levels[0], v.k, v.k) && Clear(levels[1], v.k, v.k);
    assert Meeting(levels[2], Some(v.k), Some(v.k)) == [f];
    assert TotalFileSize([f]) == f.size;
    assert Passes(levels, 0, v.k, v.k);
    assert f in levels[2] && Meets(f, Some(v.k), Some(v.k));
    assert !Passes(levels, 1, v.k, v.k);
  }

  lemma {:induction false} MeetsAlone(files: seq<File>, f: File, low: Option<UserKey>, high: Option<UserKey>)
    requires files == [f] && Meets(f, low, high)
    ensures Meeting(files, low, high) == [f]
  {
    assert files[..0] == [];
  }

  lemma BothLegal(v: Values)
    ensures LegalInputs(v.Before(), 1, [v.Table(3, v.New())], [v.Table(2, v.Old())])
  {
    assert MeetingInputs(v.Before()[2], [v.Table(3, v.New())], [v.Table(2, v.Old())], v.k, v.k);
  }

  lemma FirstLegal(v: Values)
    ensures LegalInputs(v.Cut(), 2, [v.Table(4, v.New())], [])
  {
    assert MeetingInputs(v.Cut()[3], [v.Table(4, v.New())], [], v.k, v.k);
    assert v.Cut()[2][0] == v.Table(4, v.New());
  }

  /** What the merges write. */
  lemma BothKept(v: Values)
    ensures Kept(v.Before(), 1, [v.New(), v.Old()], 1, 2) == [v.New(), v.Old()]
  {
    var all := [v.New(), v.Old()];
    SnapshotKeepsBoth(v.Before(), 1, all, 1, 0);
    assert Kept(v.Before(), 1, all, 1, 0) == [] && Kept(v.Before(), 1, all, 1, 1) == [all[0]];
  }

  lemma TwoJoined(f: File, g: File)
    ensures JoinedFiles([f, g]) == f.entries + g.entries
  {
    OneJoined(f);
    assert [f, g][..1] == [f];
  }

  lemma FirstKept(v: Values)
    ensures Kept(v.Cut(), 2, [v.New()], 1, 1) == [v.New()] == JoinedFiles([v.Table(6, v.New())])
  {
    assert !Dropped(v.Cut(), 2, [v.New()], 1, 0);
    assert Kept(v.Cut(), 2, [v.New()], 1, 0) == [];
    OneJoined(v.Table(6, v.New()));
  }

  lemma OneJoined(f: File)
    ensures JoinedFiles([f]) == f.entries
  {
    assert [f][..0] == [];
  }

  lemma OneIn(f: File, x: Entry)
    requires f.entries == [x]
    ensures forall e :: InFiles([f], e) <==> e == x
  {
    assert f in [f];
  }

  lemma CompactsBoth(v: Values)
    ensures Takes(v.States()[7], v.States()[8], v.Steps()[7])
  {
    var in0, in1, outs := [v.Table(3, v.New())], [v.Table(2, v.Old())], [v.Table(4, v.New()), v.Table(5, v.Old())];
    TableGood(v, 4, v.New());
    TableGood(v, 5, v.Old());
    BothLegal(v);
    BothKept(v);
    TwoJoined(outs[0], outs[1]);
    OneIn(in0[0], v.New());
    OneIn(in1[0], v.Old());
    assert v.Before()[1] == in0 && v.Before()[2] == in1 && v.Cut()[1] == [] && v.Cut()[2] == outs;
    assert TreeEdit(v.Before(), v.Cut(), 1, in0, [], in1, outs);
  }

  lemma CompactsFirst(v: Values)
    ensures Takes(v.States()[8], v.States()[9], v.Steps()[8])
  {
    var in0, outs := [v.Table(4, v.New())], [v.Table(6, v.New())];
    TableGood(v, 6, v.New());
    FirstLegal(v);
    FirstKept(v);
    OneIn(in0[0], v.New());
    assert v.After()[2] == [v.Cut()[2][1]] && v.After()[3] == outs;
    assert TreeEdit(v.Cut(), v.After(), 2, in0, [], [], outs);
  }

  lemma OneEntryPayload(v: Values)
    ensures Payload([v.New()]) == |v.b| && Payload([v.Old()]) == |v.a| && Payload([]) == 0
    ensures [v.New()][..0] == [] && [v.Old()][..0] == []
  {
    assert [v.New()][1..] == [] && [v.Old()][1..] == [];
  }

  /** All of level 1 is taken. */
  lemma BothChosen(v: Values)
    ensures ManualInputs(v.Before(), 1, None, None, [v.Table(3, v.New())], [v.Table(2, v.Old())])
  {
    var f := v.Table(3, v.New());
    BothLegal(v);
    MeetsAlone(v.Before()[1], f, None, None);
    assert f in v.Before()[1];
  }

  lemma FirstOfTwo(f: File, g: File)
    requires f.size >= TARGET_FILE_SIZE
    ensures FrontCut(Meeting([f, g], None, None), TARGET_FILE_SIZE) == [f]
  {
    MeetsAlone([f], f, None, None);
    assert [f, g][..1] == [f];
    assert Meeting([f, g], None, None) == [f, g];
  }

  /** The first table of level 2 reaches the limit, so the second is left behind. */
  lemma FirstChosen(v: Values)
    requires v.sizes(4) >= TARGET_FILE_SIZE
    ensures ManualInputs(v.Cut(), 2, None, None, [v.Table(4, v.New())], [])
  {
    var f := v.Table(4, v.New());
    FirstLegal(v);
    FirstOfTwo(f, v.Table(5, v.Old()));
    assert v.Cut()[2][0] == f && Meets(f, None, None);
  }

  /** The first value fills the first output. */
  lemma CutBetween(v: Values)
    requires v.Large()
    ensures CutWhenFull([v.Table(4, v.New()), v.Table(5, v.Old())]) && CutWhenFull([v.Table(6, v.New())])
  {
    OneEntryPayload(v);
  }

  /** Steps i to j of the run are taken, and as the store chooses them. */
  ghost predicate StepsTaken(states: seq<State>, steps: seq<Step>, i: nat, j: nat) {
    && i <= j <= |steps| && |states| == |steps| + 1
    && forall n :: i <= n < j ==> Takes(states[n], states[n + 1], steps[n]) && AsChosen(states[n], steps[n])
  }

  lemma TakenOn(states: seq<State>, steps: seq<Step>, i: nat, j: nat, k: nat)
    requires StepsTaken(states, steps, i, j) && StepsTaken(states, steps, j, k)
    ensures StepsTaken(states, steps, i, k)
  {
  }

  lemma WritesTaken(v: Values)
    requires v.Large()
    ensures StepsTaken(v.States(), v.Steps(), 0, 7)
  {
    FirstWrite(v);
    FirstFlush(v);
    SecondWrite(v);
    SecondFlush(v);
  }

  lemma FirstCompactionTaken(v: Values)
    requires v.Large()
    ensures StepsTaken(v.States(), v.Steps(), 7, 8)
  {
    CompactsBoth(v);
    BothChosen(v);
    CutBetween(v);
  }

  lemma SecondCompactionTaken(v: Values)
    requires v.Large()
    ensures StepsTaken(v.States(), v.Steps(), 8, 9)
  {
    CompactsFirst(v);
    FirstChosen(v);
    CutBetween(v);
  }

  /** Only the last step is not safe. */
  lemma LastUnsafe(v: Values)
    ensures SafeUpTo(v.States(), v.Steps(), 8) && !Safe(v.States()[8], v.Steps()[8])
  {
    var f, g := v.Table(4, v.New()), v.Table(5, v.Old());
    assert v.Cut()[2][0] == f && v.Cut()[2][1] == g;
    assert Continues(f, g) && f in [f] && g !in [f];
  }

  lemma StaleSearch(v: Values)
    ensures Answer(v.States()[9], v.k, 2) == Some(v.a)
  {
    var levels := v.After();
    assert SearchLevel(0, levels[0], v.k, 2) == None;
    assert SearchLevel(1, levels[1], v.k, 2) == None;
    assert SearchLevel(2, levels[2], v.k, 2) == Some(v.Old());
    assert SearchLevels(levels, v.k, 2, 2) == Some(v.Old());
    assert SearchLevels(levels, v.k, 2, 1) == Some(v.Old());
    assert SearchLevels(levels, v.k, 2, 0) == Some(v.Old());
  }

  /** For any two values that fill a table each: a run of steps chosen as the store chooses them,
      all safe but the last, after which the latest read of the key gives the overwritten value. */
  lemma SplitKeyGoesStale(v: Values)
    requires v.Large()
    ensures var states, steps := v.States(), v.Steps();
            && Initial(states[0]) && StepsTaken(states, steps, 0, |steps|)
            && SafeUpTo(states, steps, |steps| - 1) && !Safe(states[|steps| - 1], steps[|steps| - 1])
            && Answer(states[|steps|], v.k, |states[|steps|].log|) == Some(v.a)
            && Lookup(Replay(states[|steps|].log), v.k) == Some(v.b) != Some(v.a)
  {
    WritesTaken(v);
    FirstCompactionTaken(v);
    SecondCompactionTaken(v);
    TakenOn(v.States(), v.Steps(), 0, 7, 8);
    TakenOn(v.States(), v.Steps(), 0, 8, 9);
    LastUnsafe(v);
    StaleSearch(v);
    assert v.States()[0].levels == seq(NUM_LEVELS, i => []);
    assert v.Ops()[..1] == [v.Ops()[0]];
  }
}
