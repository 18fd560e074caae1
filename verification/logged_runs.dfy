/** Runs of the store with its log files, a crash at any moment that cuts them anywhere, and the
    reads of the store opened after it. */
module LoggedRuns {
  import opened Format
  import LogFile
  import opened LogCrash
  import opened Recovery
  import opened LogRecovery
  import opened StoreSpec
  import opened StoreRuns
  import opened Reopening
  import Batches
  import Versions

  /** The groups written to the log files that recovery would replay: the one of the immutable
      memtable, when there is one, and the one of the memtable. */
  datatype Logs = Logs(older: seq<Group>, newer: seq<Group>)

  /** What a step does to the log files.  A write adds its group; a new memtable gets a new file;
      a flush records the file of the memtable as the first one to replay. */
  ghost predicate LogsTake(rank: Bytes -> UserKey, st: State, step: Step, logs: Logs, logs': Logs) {
    match step
    case Write(ops) =>
      && |logs'.newer| == |logs.newer| + 1
      && logs' == logs.(newer := logs.newer + [logs'.newer[|logs.newer|]])
      && IsGroupOf(rank, logs'.newer[|logs.newer|], |st.log|, ops)
    case Rotate => logs' == Logs(logs.newer, [])
    case Flush(_, _) => logs' == Logs([], logs.newer)
    case _ => logs' == logs
  }

  /** The group of these updates, numbered behind number n. */
  ghost predicate IsGroupOf(rank: Bytes -> UserKey, g: Group, n: nat, ops: seq<Op>) {
    g.Committed() && g.before == n && Ops(rank, g.updates) == ops
  }

  ghost predicate LoggedRun(rank: Bytes -> UserKey, states: seq<State>, steps: seq<Step>, logs: seq<Logs>) {
    && Run(states, steps) && |logs| == |states| && logs[0] == Logs([], [])
    && forall i :: 0 <= i < |steps| ==> LogsTake(rank, states[i], steps[i], logs[i], logs[i + 1])
  }

  /** A file holds the updates of a stretch of the history. */
  ghost predicate Covers(rank: Bytes -> UserKey, groups: seq<Group>, log: seq<Op>, from: nat, to: nat)
    requires from <= to <= |log|
  {
    && (forall g :: g in groups ==> g.Committed()) && Consecutive(groups, from)
    && Ops(rank, Updates(groups)) == log[from..to]
  }

  /** The log files hold the updates that are in no table, each that of its memtable. */
  ghost predicate LogsOk(rank: Bytes -> UserKey, st: State, logs: Logs, n: nat, m: nat) {
    && Layered(st, n, m) && (st.imm.None? ==> logs.older == [])
    && Covers(rank, logs.older, st.log, n, m) && Covers(rank, logs.newer, st.log, m, |st.log|)
  }

  lemma {:induction false} ConsecutiveMore(groups: seq<Group>, n: nat, g: Group)
    requires Consecutive(groups, n) && g.before == n + |Updates(groups)|
    ensures Consecutive(groups + [g], n) && Updates(groups + [g]) == Updates(groups) + g.updates
  {
    if groups == [] {
      assert [] + [g] == [g] && [g][1..] == [];
    } else {
      ConsecutiveMore(groups[1..], groups[0].Last(), g);
      assert (groups + [g])[1..] == groups[1..] + [g];
      assert groups[0].updates + (Updates(groups[1..]) + g.updates) == Updates(groups) + g.updates;
    }
  }

  lemma {:induction false} CoversMore(rank: Bytes -> UserKey, groups: seq<Group>, log: seq<Op>, from: nat, g: Group,
                                      ops: seq<Op>)
    requires from <= |log| && Covers(rank, groups, log, from, |log|) && IsGroupOf(rank, g, |log|, ops)
    ensures Covers(rank, groups + [g], log + ops, from, |log + ops|)
  {
    assert |Ops(rank, Updates(groups))| == |log| - from;
    ConsecutiveMore(groups, from, g);
    OpsJoin(rank, Updates(groups), g.updates);
    assert (log + ops)[from..] == log[from..] + ops;
  }

  lemma OpsJoin(rank: Bytes -> UserKey, a: seq<Batches.Update>, b: seq<Batches.Update>)
    ensures Ops(rank, a + b) == Ops(rank, a) + Ops(rank, b)
  {
  }

  lemma {:induction false} CoversStill(rank: Bytes -> UserKey, groups: seq<Group>, log: seq<Op>, from: nat, to: nat,
                                       ops: seq<Op>)
    requires from <= to <= |log| && Covers(rank, groups, log, from, to)
    ensures Covers(rank, groups, log + ops, from, to)
  {
    assert (log + ops)[from..to] == log[from..to];
  }

  lemma {:induction false} CoversNothing(rank: Bytes -> UserKey, log: seq<Op>, n: nat)
    requires n <= |log|
    ensures Covers(rank, [], log, n, n)
  {
    assert Updates([]) == [];
  }

  lemma {:induction false} WriteKeepsLogs(rank: Bytes -> UserKey, st: State, st': State, ops: seq<Op>, logs: Logs,
                                          logs': Logs, n: nat, m: nat)
    requires Shape(st) && LogsOk(rank, st, logs, n, m) && WriteStep(st, st', ops)
    requires LogsTake(rank, st, Write(ops), logs, logs')
    ensures LogsOk(rank, st', logs', n, m)
  {
    WriteLayers(st, st', ops, n, m);
    CoversStill(rank, logs.older, st.log, n, m, ops);
    CoversMore(rank, logs.newer, st.log, m, logs'.newer[|logs.newer|], ops);
  }

  lemma {:induction false} RotateKeepsLogs(rank: Bytes -> UserKey, st: State, st': State, logs: Logs, n: nat, m: nat)
    requires LogsOk(rank, st, logs, n, m) && RotateStep(st, st')
    ensures LogsOk(rank, st', Logs(logs.newer, []), n, |st.log|)
  {
    NothingWaits(st, n, m);
    RotateLayers(st, st', n, m);
    CoversNothing(rank, st.log, |st.log|);
  }

  lemma {:induction false} FlushKeepsLogs(rank: Bytes -> UserKey, st: State, st': State, level: nat, f: Versions.File,
                                          logs: Logs, n: nat, m: nat)
    requires LogsOk(rank, st, logs, n, m) && FlushStep(st, st', level, f)
    ensures LogsOk(rank, st', Logs([], logs.newer), m, m)
  {
    FlushLayers(st, st', level, f, n, m);
    CoversNothing(rank, st.log, m);
  }

  lemma {:induction false} StepKeepsLogs(rank: Bytes -> UserKey, st: State, st': State, step: Step, logs: Logs,
                                         logs': Logs, n: nat, m: nat) returns (n': nat, m': nat)
    requires Shape(st) && Takes(st, st', step) && LogsTake(rank, st, step, logs, logs') && LogsOk(rank, st, logs, n, m)
    ensures LogsOk(rank, st', logs', n', m')
  {
    n', m' := n, m;
    match step
    case Write(ops) => WriteKeepsLogs(rank, st, st', ops, logs, logs', n, m);
    case Rotate =>
      RotateKeepsLogs(rank, st, st', logs, n, m);
      m' := |st.log|;
    case Flush(level, f) =>
      FlushKeepsLogs(rank, st, st', level, f, logs, n, m);
      n' := m;
    case Move(level, f) => MoveLayers(st, st', level, f, n, m);
    case Compact(level, in0, in1, all, outs) => CompactLayers(st, st', level, in0, in1, all, outs, n, m);
    case _ =>
  }

  /** At every moment of a run the log files to replay hold the updates that are in no table. */
  lemma {:induction false} RunKeepsLogs(rank: Bytes -> UserKey, states: seq<State>, steps: seq<Step>, logs: seq<Logs>,
                                        i: nat)
    returns (n: nat, m: nat)
    requires LoggedRun(rank, states, steps, logs) && SafeUpTo(states, steps, i)
    ensures LogsOk(rank, states[i], logs[i], n, m)
  {
    if i == 0 {
      n, m := 0, 0;
      CoversNothing(rank, states[0].log, 0);
    } else {
      RunKeepsInv(states, steps, i - 1);
      n, m := RunKeepsLogs(rank, states, steps, logs, i - 1);
      n, m := StepKeepsLogs(rank, states[i - 1], states[i], steps[i - 1], logs[i - 1], logs[i], n, m);
    }
  }

  // A crash cuts both files.

  lemma {:induction false} AddsAppend(a: seq<Group>, b: seq<Group>)
    ensures Adds(a + b) == Adds(a) + Adds(b)
  {
    if a == [] {
      assert a + b == b;
    } else {
      AddsAppend(a[1..], b);
      HeadFirst(a, b);
      Together(a[0].Numbers(), Adds(a[1..]), Adds(b));
    }
  }

  lemma HeadFirst(a: seq<Group>, b: seq<Group>)
    requires a != []
    ensures a + b != [] && (a + b)[0] == a[0] && (a + b)[1..] == a[1..] + b
  {
  }

  lemma Together(a: seq<Batches.Numbered>, b: seq<Batches.Numbered>, c: seq<Batches.Numbered>)
    ensures a + (b + c) == a + b + c
  {
  }

  /** A crash leaves front parts of both files. */
  ghost predicate CutBy(crc: LogFile.Crc, logs: Logs, c: Bytes, d: Bytes) {
    c <= LogFile.FileOf(crc, Records(logs.older)) && d <= LogFile.FileOf(crc, Records(logs.newer))
  }

  /** The groups that lie whole in what is left of a file. */
  function Surviving(crc: LogFile.Crc, groups: seq<Group>, c: Bytes): seq<Group> {
    groups[..Whole(crc, Records(groups), |c|)]
  }

  /** No update of the older file is missing, or none is left in the newer one. */
  ghost predicate NoHole(crc: LogFile.Crc, logs: Logs, c: Bytes, d: Bytes) {
    Updates(Surviving(crc, logs.older, c)) == Updates(logs.older) || Updates(Surviving(crc, logs.newer, d)) == []
  }

  /** So it is when the older file is whole, or nothing whole is left of the newer one; and only
      then, when no group is empty. */
  lemma {:induction false} WholeOrNothing(crc: LogFile.Crc, logs: Logs, c: Bytes, d: Bytes)
    requires CutBy(crc, logs, c, d)
    ensures Whole(crc, Records(logs.older), |c|) == |logs.older| || Whole(crc, Records(logs.newer), |d|) == 0
            ==> NoHole(crc, logs, c, d)
    ensures NoHole(crc, logs, c, d) && (forall g :: g in logs.older + logs.newer ==> g.updates != [])
            ==> Whole(crc, Records(logs.older), |c|) == |logs.older| || Whole(crc, Records(logs.newer), |d|) == 0
  {
    var w, v := Whole(crc, Records(logs.older), |c|), Whole(crc, Records(logs.newer), |d|);
    assert logs.older[..|logs.older|] == logs.older && logs.newer[..0] == [];
    SomeUpdates(logs.older, w, |logs.older|);
    SomeUpdates(logs.newer, 0, v);
    assert logs.newer[..v] == Surviving(crc, logs.newer, d);
  }

  lemma {:induction false} SomeUpdates(groups: seq<Group>, i: nat, j: nat)
    requires i <= j <= |groups|
    ensures i < j && (forall g :: g in groups ==> g.updates != []) ==> |Updates(groups[..i])| < |Updates(groups[..j])|
  {
    if i < j && forall g :: g in groups ==> g.updates != [] {
      if i == 0 {
        assert groups[..j][0] == groups[0] && groups[0] in groups;
      } else {
        SomeUpdates(groups[1..], i - 1, j - 1);
        assert groups[..i][1..] == groups[1..][..i - 1] && groups[..j][1..] == groups[1..][..j - 1];
        assert forall g :: g in groups[1..] ==> g in groups;
      }
    }
  }

  lemma {:induction false} ConsecutiveJoin(a: seq<Group>, b: seq<Group>, n: nat)
    requires Consecutive(a, n) && Consecutive(b, n + |Updates(a)|)
    ensures Consecutive(a + b, n) && Updates(a + b) == Updates(a) + Updates(b)
  {
    if a == [] {
      assert a + b == b && Updates(a) == [];
    } else {
      ConsecutiveJoin(a[1..], b, a[0].Last());
      HeadFirst(a, b);
      assert a[0].updates + (Updates(a[1..]) + Updates(b)) == Updates(a) + Updates(b);
    }
  }

  /** As many updates are handed to memtables as there are, so nothing is missing of the one list
      exactly when nothing is of the other. */
  lemma {:induction false} AllOrSome(groups: seq<Group>, n: nat, w: nat)
    requires Consecutive(groups, n) && w <= |groups|
    ensures Adds(groups[..w]) == Adds(groups) <==> Updates(groups[..w]) == Updates(groups)
    ensures Adds(groups[..w]) == [] <==> Updates(groups[..w]) == []
  {
    ConsecutivePrefix(groups, n, w);
    ConsecutiveAdds(groups, n);
    ConsecutiveAdds(groups[..w], n);
    AddsFront(groups, w);
    var us, all := Updates(groups[..w]), Updates(groups);
    assert us == all[..|us|];
  }

  lemma {:induction false} JoinedTwo(a: seq<Batches.Numbered>, b: seq<Batches.Numbered>)
    ensures Joined([a, b]) == a + b
  {
    JoinedSnoc([], a);
    JoinedSnoc([a], b);
    assert [] + [a] == [a] && [a] + [b] == [a, b];
  }

  lemma TwoPieces(k: seq<Batches.Numbered>, l: seq<Batches.Numbered>, a: seq<Batches.Numbered>,
                  b: seq<Batches.Numbered>)
    ensures NoGap([k, l], [a, b]) <==> k == a || l == []
  {
    assert [k, l][0] == k && [k, l][1] == l && [a, b][0] == a;
  }

  /** Front parts of two lists, joined, are a prefix of both if and only if the first is whole or
      the second is empty. */
  lemma {:induction false} TwoFronts(k: seq<Batches.Numbered>, l: seq<Batches.Numbered>, a: seq<Batches.Numbered>,
                                     b: seq<Batches.Numbered>, first: nat, us: seq<Batches.Update>)
    requires k <= a && l <= b && a + b == Batches.Number(first, us) && first + |us| <= MAX_SEQUENCE
    ensures k + l <= a + b <==> k == a || l == []
  {
    JoinedTwo(a, b);
    JoinedTwo(k, l);
    TwoPieces(k, l, a, b);
    assert [k, l][0] == k && [k, l][1] == l && [a, b][0] == a && [a, b][1] == b;
    NumbersDistinct(first, us);
    PrefixExactly([k, l], [a, b]);
  }

  /** What is recovered from two files. */
  lemma {:induction false} TwoRecovered(crc: LogFile.Crc, c: Bytes, d: Bytes, paranoid: bool,
                                        full: seq<Batches.Numbered> -> bool, outcome: Opened)
    requires outcome == RecoverAll(crc, [c, d], paranoid, full)
    ensures outcome.ok <==> !paranoid || Clean(crc, d)
    ensures Joined(outcome.tables) == Kept(crc, c, paranoid, full) + Kept(crc, d, paranoid, full)
  {
    var k, l := Kept(crc, c, paranoid, full), Kept(crc, d, paranoid, full);
    OpensExactly(crc, [c, d], paranoid, full);
    assert KeptAll(crc, [c, d], paranoid, full) == [k, l];
    TablesHold(crc, [c, d], paranoid, full);
    JoinedTwo(k, l);
  }

  /** What was written to the log files, with its numbers. */
  function Written(logs: Logs, n: nat): seq<Batches.Numbered> {
    Batches.Number(n + 1, Updates(logs.older) + Updates(logs.newer))
  }

  lemma {:induction false} WrittenNumbers(logs: Logs, n: nat)
    requires Consecutive(logs.older, n) && Consecutive(logs.newer, n + |Updates(logs.older)|)
    ensures Adds(logs.older) + Adds(logs.newer) == Written(logs, n)
  {
    ConsecutiveJoin(logs.older, logs.newer, n);
    ConsecutiveAdds(logs.older + logs.newer, n);
    AddsAppend(logs.older, logs.newer);
  }

  /** What is kept of two cut files numbered one behind the other: all that is left of both, which
      is a prefix of what was written to them if and only if there is no hole. */
  lemma {:induction false} CutLogsKeep(crc: LogFile.Crc, logs: Logs, n: nat, c: Bytes, d: Bytes, paranoid: bool,
                                       full: seq<Batches.Numbered> -> bool)
    requires (forall g :: g in logs.older + logs.newer ==> g.Committed()) && CutBy(crc, logs, c, d)
    requires Consecutive(logs.older, n) && Consecutive(logs.newer, n + |Updates(logs.older)|)
    requires n + |Updates(logs.older)| + |Updates(logs.newer)| < MAX_SEQUENCE
    ensures Clean(crc, d) && Kept(crc, c, paranoid, full) == Adds(Surviving(crc, logs.older, c))
    ensures Kept(crc, d, paranoid, full) == Adds(Surviving(crc, logs.newer, d))
    ensures (Kept(crc, c, paranoid, full) + Kept(crc, d, paranoid, full) <= Written(logs, n)) <==> NoHole(crc, logs, c, d)
  {
    CutKeeps(crc, logs.older, n, c, paranoid, full);
    CutKeeps(crc, logs.newer, n + |Updates(logs.older)|, d, paranoid, full);
    FrontsOfWritten(logs, n, Kept(crc, c, paranoid, full), Kept(crc, d, paranoid, full));
  }

  /** Front parts of what was written to both files. */
  lemma {:induction false} FrontsOfWritten(logs: Logs, n: nat, k: seq<Batches.Numbered>, l: seq<Batches.Numbered>)
    requires Consecutive(logs.older, n) && Consecutive(logs.newer, n + |Updates(logs.older)|)
    requires n + |Updates(logs.older)| + |Updates(logs.newer)| < MAX_SEQUENCE
    requires k <= Adds(logs.older) && l <= Adds(logs.newer)
    ensures (k + l <= Written(logs, n)) <==> k == Adds(logs.older) || l == []
  {
    WrittenNumbers(logs, n);
    TwoFronts(k, l, Adds(logs.older), Adds(logs.newer), n + 1, Updates(logs.older) + Updates(logs.newer));
  }

  /** What is kept of one cut file, and when that is all of it, or nothing. */
  lemma {:induction false} CutKeeps(crc: LogFile.Crc, groups: seq<Group>, n: nat, c: Bytes, paranoid: bool,
                                    full: seq<Batches.Numbered> -> bool)
    requires (forall g :: g in groups ==> g.Committed()) && Consecutive(groups, n)
    requires c <= LogFile.FileOf(crc, Records(groups))
    ensures Clean(crc, c) && Kept(crc, c, paranoid, full) == Adds(Surviving(crc, groups, c)) <= Adds(groups)
    ensures Kept(crc, c, paranoid, full) == Adds(groups) <==> Updates(Surviving(crc, groups, c)) == Updates(groups)
    ensures Kept(crc, c, paranoid, full) == [] <==> Updates(Surviving(crc, groups, c)) == []
  {
    CutReads(crc, groups, c, paranoid, full);
    AllOrSome(groups, n, Whole(crc, Records(groups), |c|));
  }

  /** The first `kept` updates of the history, and no others, make the store: it is in order, and
      every read at or past the last of them answers the map replayed from them. */
  ghost predicate HoldsPrefix(st: State, log: seq<Op>, kept: nat) {
    && kept <= |log| && Inv(st) && st.log == log[..kept]
    && forall k, s :: s >= kept ==> Answer(st, k, s) == Lookup(Replay(log[..kept]), k)
  }

  /** How many updates are left in the two files. */
  function Left(crc: LogFile.Crc, logs: Logs, c: Bytes, d: Bytes): nat {
    |Updates(Surviving(crc, logs.older, c))| + |Updates(Surviving(crc, logs.newer, d))|
  }

  /** Crash and recovery, from any moment of any run, each log file cut anywhere.  What recovery
      reads of the log files is a prefix of the updates that were in no table if and only if there
      is no hole; then the store opened again holds the prefix of the history that was flushed or
      is left, no update in part, and every read answers the map replayed from it. */
  lemma {:induction false} ReopenedAnswersAsTheMap(rank: Bytes -> UserKey, crc: LogFile.Crc, states: seq<State>,
                                                   steps: seq<Step>, logs: seq<Logs>, i: nat, st: State, held: Logs,
                                                   n: nat, m: nat, c: Bytes, d: Bytes, paranoid: bool,
                                                   full: seq<Batches.Numbered> -> bool, outcome: Opened,
                                                   reopened: seq<State>, files: seq<Versions.File>)
    requires LoggedRun(rank, states, steps, logs) && SafeUpTo(states, steps, i) && st == states[i] && held == logs[i]
    requires Layered(st, n, m) && CutBy(crc, held, c, d) && outcome == RecoverAll(crc, [c, d], paranoid, full)
    requires Reopens(rank, reopened, outcome.tables, files) && Reloaded(st, n, reopened[0])
    ensures outcome.ok && ((Joined(outcome.tables) <= Written(held, n)) <==> NoHole(crc, held, c, d))
    ensures NoHole(crc, held, c, d) ==> HoldsPrefix(reopened[|outcome.tables|], st.log, n + Left(crc, held, c, d))
  {
    var m' := LogsThen(rank, states, steps, logs, i, n, m, reopened[0]);
    CrashRecovered(rank, crc, st, held, n, m', c, d, paranoid, full, outcome, reopened, files);
  }

  /** What is on disk at some moment of a run. */
  lemma {:induction false} LogsThen(rank: Bytes -> UserKey, states: seq<State>, steps: seq<Step>, logs: seq<Logs>,
                                    i: nat, n: nat, m: nat, disk: State) returns (m': nat)
    requires LoggedRun(rank, states, steps, logs) && SafeUpTo(states, steps, i)
    requires Layered(states[i], n, m) && Reloaded(states[i], n, disk)
    ensures LogsOk(rank, states[i], logs[i], n, m') && |states[i].log| < MAX_SEQUENCE
    ensures Inv(disk) && disk.mem == [] && disk.imm.None? && disk.log == states[i].log[..n]
  {
    var n';
    n', m' := RunKeepsLogs(rank, states, steps, logs, i);
    LayeredOneWay(states[i], n, m, n', m');
    ReloadedKeeps(states, steps, i, n, m, disk);
  }

  /** The same of one state and its log files. */
  lemma {:induction false} CrashRecovered(rank: Bytes -> UserKey, crc: LogFile.Crc, st: State, logs: Logs, n: nat,
                                          m: nat, c: Bytes, d: Bytes, paranoid: bool,
                                          full: seq<Batches.Numbered> -> bool, outcome: Opened, reopened: seq<State>,
                                          files: seq<Versions.File>)
    requires LogsOk(rank, st, logs, n, m) && |st.log| < MAX_SEQUENCE && CutBy(crc, logs, c, d)
    requires outcome == RecoverAll(crc, [c, d], paranoid, full) && Reopens(rank, reopened, outcome.tables, files)
    requires Inv(reopened[0]) && reopened[0].mem == [] && reopened[0].imm.None? && reopened[0].log == st.log[..n]
    ensures outcome.ok && ((Joined(outcome.tables) <= Written(logs, n)) <==> NoHole(crc, logs, c, d))
    ensures NoHole(crc, logs, c, d) ==> HoldsPrefix(reopened[|outcome.tables|], st.log, n + Left(crc, logs, c, d))
  {
    LogsThere(rank, st, logs, n, m);
    LogsRecovered(crc, logs, n, c, d, paranoid, full, outcome);
    if NoHole(crc, logs, c, d) {
      PrefixReopened(rank, crc, st.log, logs, n, c, d, outcome.tables, reopened, files);
    }
  }

  /** What recovery makes of the two files. */
  lemma {:induction false} LogsRecovered(crc: LogFile.Crc, logs: Logs, n: nat, c: Bytes, d: Bytes, paranoid: bool,
                                         full: seq<Batches.Numbered> -> bool, outcome: Opened)
    requires (forall g :: g in logs.older + logs.newer ==> g.Committed()) && CutBy(crc, logs, c, d)
    requires Consecutive(logs.older, n) && Consecutive(logs.newer, n + |Updates(logs.older)|)
    requires n + |Updates(logs.older)| + |Updates(logs.newer)| < MAX_SEQUENCE
    requires outcome == RecoverAll(crc, [c, d], paranoid, full)
    ensures outcome.ok && Joined(outcome.tables) == Adds(Surviving(crc, logs.older, c)) + Adds(Surviving(crc, logs.newer, d))
    ensures (Joined(outcome.tables) <= Written(logs, n)) <==> NoHole(crc, logs, c, d)
  {
    CutLogsKeep(crc, logs, n, c, d, paranoid, full);
    TwoRecovered(crc, c, d, paranoid, full, outcome);
  }

  /** A store opened with a prefix of what the log files held. */
  lemma {:induction false} PrefixReopened(rank: Bytes -> UserKey, crc: LogFile.Crc, log: seq<Op>, logs: Logs, n: nat,
                                          c: Bytes, d: Bytes, tables: seq<seq<Batches.Numbered>>, reopened: seq<State>,
                                          files: seq<Versions.File>)
    requires n <= |log| < MAX_SEQUENCE && Ops(rank, Updates(logs.older) + Updates(logs.newer)) == log[n..]
    requires Consecutive(logs.older, n) && Consecutive(logs.newer, n + |Updates(logs.older)|) && CutBy(crc, logs, c, d)
    requires Joined(tables) == Adds(Surviving(crc, logs.older, c)) + Adds(Surviving(crc, logs.newer, d)) <= Written(logs, n)
    requires Reopens(rank, reopened, tables, files)
    requires Inv(reopened[0]) && reopened[0].mem == [] && reopened[0].imm.None? && reopened[0].log == log[..n]
    ensures HoldsPrefix(reopened[|tables|], log, n + Left(crc, logs, c, d))
  {
    var us := LeftOf(crc, logs, n, c, d, tables);
    ReopenedHolds(rank, log, n, reopened, tables, files, us, Updates(logs.older) + Updates(logs.newer));
    PrefixAnswers(reopened[|tables|], log, n + |us|);
  }

  lemma PrefixAnswers(st: State, log: seq<Op>, kept: nat)
    requires kept <= |log| && Inv(st) && st.log == log[..kept]
    ensures HoldsPrefix(st, log, kept)
  {
    forall k, s | s >= kept
      ensures Answer(st, k, s) == Lookup(Replay(log[..kept]), k)
    {
      PastTheLast(st, k, s);
    }
  }

  /** The updates recovered, when they are a prefix. */
  lemma {:induction false} LeftOf(crc: LogFile.Crc, logs: Logs, n: nat, c: Bytes, d: Bytes,
                                  tables: seq<seq<Batches.Numbered>>)
    returns (us: seq<Batches.Update>)
    requires CutBy(crc, logs, c, d)
    requires Consecutive(logs.older, n) && Consecutive(logs.newer, n + |Updates(logs.older)|)
    requires Joined(tables) == Adds(Surviving(crc, logs.older, c)) + Adds(Surviving(crc, logs.newer, d))
    requires Joined(tables) <= Written(logs, n)
    ensures us <= Updates(logs.older) + Updates(logs.newer) && Joined(tables) == Batches.Number(n + 1, us)
    ensures |us| == Left(crc, logs, c, d)
  {
    var older, newer := Surviving(crc, logs.older, c), Surviving(crc, logs.newer, d);
    ConsecutivePrefix(logs.older, n, |older|);
    ConsecutiveAdds(older, n);
    ConsecutivePrefix(logs.newer, n + |Updates(logs.older)|, |newer|);
    ConsecutiveAdds(newer, n + |Updates(logs.older)|);
    us := (Updates(logs.older) + Updates(logs.newer))[..|Joined(tables)|];
  }

  /** What the two log files hold together. */
  lemma {:induction false} LogsThere(rank: Bytes -> UserKey, st: State, logs: Logs, n: nat, m: nat)
    requires LogsOk(rank, st, logs, n, m)
    ensures (forall g :: g in logs.older + logs.newer ==> g.Committed())
    ensures Consecutive(logs.older, n) && Consecutive(logs.newer, n + |Updates(logs.older)|)
    ensures n + |Updates(logs.older)| + |Updates(logs.newer)| == |st.log|
    ensures Ops(rank, Updates(logs.older) + Updates(logs.newer)) == st.log[n..]
  {
    var older, newer := Updates(logs.older), Updates(logs.newer);
    assert |Ops(rank, older)| == m - n && |Ops(rank, newer)| == |st.log| - m;
    OpsJoin(rank, older, newer);
    assert st.log[n..] == st.log[n..m] + st.log[m..];
  }
}
