/** Compaction: which entries a merge of tables may drop, and why no reader notices. */
module Compactions {
  import opened Format
  import opened SnapshotSpec
  import opened Versions

  /** No file two or more levels below `level` covers k. */
  ghost predicate IsBaseLevel(levels: Levels, level: nat, k: UserKey) {
    forall l, f :: level + 2 <= l < |levels| && f in levels[l] ==> !Covers(f, k)
  }

  /** The sequence number of the entry just before i of the same user key, or the largest one. */
  function PreviousSequence(all: seq<Entry>, i: nat): nat
    requires i < |all|
  {
    if i > 0 && all[i - 1].key.user == all[i].key.user then all[i - 1].key.sequence else MAX_SEQUENCE
  }

  /** A deletion that rule (B) may drop. */
  ghost predicate Removable(levels: Levels, level: nat, ss: nat, y: Entry) {
    y.key.kind == Deletion && y.key.sequence <= ss && IsBaseLevel(levels, level, y.key.user)
  }

  /** The two drop rules: (A) hidden by a newer entry every snapshot sees; (B) a deletion every
      snapshot sees with nothing of its key further down. */
  ghost predicate Dropped(levels: Levels, level: nat, all: seq<Entry>, ss: nat, i: nat)
    requires i < |all|
  {
    || PreviousSequence(all, i) <= ss
    || Removable(levels, level, ss, all[i])
  }

  /** What a compaction writes for the first n entries of its input. */
  ghost function Kept(levels: Levels, level: nat, all: seq<Entry>, ss: nat, n: nat): (r: seq<Entry>)
    requires n <= |all|
    ensures forall e :: e in r <==> exists i :: 0 <= i < n && all[i] == e && !Dropped(levels, level, all, ss, i)
  {
    if n == 0 then []
    else
      var r := Kept(levels, level, all, ss, n - 1);
      if Dropped(levels, level, all, ss, n - 1) then r else r + [all[n - 1]]
  }

  lemma {:induction false} KeptSorted(levels: Levels, level: nat, all: seq<Entry>, ss: nat, n: nat)
    requires Sorted(all) && n <= |all|
    ensures Sorted(Kept(levels, level, all, ss, n))
  {
    if n > 0 {
      KeptSorted(levels, level, all, ss, n - 1);
      var r := Kept(levels, level, all, ss, n - 1);
      forall j | 0 <= j < |r|
        ensures Less(r[j].key, all[n - 1].key)
      {
        assert r[j] in r;
      }
    }
  }

  /** Nothing outside the input is older than a removable deletion of the input and shares its
      user key: what makes rule (B) safe. */
  ghost predicate NothingOlderBelow(levels: Levels, level: nat, rest: iset<Entry>, all: seq<Entry>, ss: nat) {
    forall x, y :: x in rest && y in all && x.key.user == y.key.user && Removable(levels, level, ss, y)
      ==> x.key.sequence > y.key.sequence
  }

  /** An entry at or before i of the same user key and at or below s leads to one that is the
      input's newest at s. */
  lemma {:induction false} NewestOfInput(all: seq<Entry>, k: UserKey, s: nat, i: nat) returns (m: nat)
    requires Sorted(all) && i < |all| && all[i].key.user == k && all[i].key.sequence <= s
    ensures m <= i && all[m].key.user == k && all[i].key.sequence <= all[m].key.sequence <= s
    ensures m == i || Less(all[m].key, all[i].key)
    ensures m > 0 && all[m - 1].key.user == k ==> all[m - 1].key.sequence > s
  {
    m := i;
    if i > 0 && all[i - 1].key.user == k && all[i - 1].key.sequence <= s {
      assert Less(all[i - 1].key, all[i].key);
      m := NewestOfInput(all, k, s, i - 1);
    }
  }

  /** An entry that is not the first of its user key follows one of that key. */
  lemma SameUserBefore(all: seq<Entry>, i: nat, j: nat)
    requires Sorted(all) && i < j < |all| && all[i].key.user == all[j].key.user
    ensures all[j - 1].key.user == all[j].key.user
    ensures all[j - 1].key.sequence <= all[i].key.sequence
  {
    assert Less(all[j - 1].key, all[j].key);
    assert i < j - 1 ==> Less(all[i].key, all[j - 1].key);
  }

  /** If an input entry is the newest at s and is dropped, it is a deletion under rule (B). */
  lemma DroppedNewestIsDeletion(levels: Levels, level: nat, all: seq<Entry>, ss: nat, s: nat, m: nat)
    requires m < |all| && ss <= s && ss < MAX_SEQUENCE
    requires m > 0 && all[m - 1].key.user == all[m].key.user ==> all[m - 1].key.sequence > s
    ensures Dropped(levels, level, all, ss, m) ==> Removable(levels, level, ss, all[m])
  {
  }

  /** A value that is the newest of everything at s is not dropped. */
  lemma {:induction false} NewestPutIsKept(levels: Levels, level: nat, rest: iset<Entry>, all: seq<Entry>, ss: nat,
                                           k: UserKey, s: nat, i: nat)
    requires Sorted(all) && i < |all| && ss <= s && ss < MAX_SEQUENCE && all[i].key.kind == Put
    requires Newest(rest + Entries(all), k, s, all[i])
    ensures !Dropped(levels, level, all, ss, i)
  {
    var m := NewestOfInput(all, k, s, i);
    assert all[m] in rest + Entries(all);
    DroppedNewestIsDeletion(levels, level, all, ss, s, i);
  }

  /** If entry m, the input's newest at s, is dropped, what is kept of its key is newer, or outside
      the input and newer. */
  lemma {:induction false} NewestDroppedHidesNothing(levels: Levels, level: nat, rest: iset<Entry>, all: seq<Entry>,
                                                     ss: nat, s: nat, m: nat, e: Entry)
    requires Sorted(all) && m < |all| && ss <= s && ss < MAX_SEQUENCE
    requires m > 0 && all[m - 1].key.user == all[m].key.user ==> all[m - 1].key.sequence > s
    requires NothingOlderBelow(levels, level, rest, all, ss) && Dropped(levels, level, all, ss, m)
    requires e in rest + Entries(Kept(levels, level, all, ss, |all|)) && e.key.user == all[m].key.user
    requires e.key.sequence <= s
    ensures all[m].key.sequence <= e.key.sequence
  {
    DroppedNewestIsDeletion(levels, level, all, ss, s, m);
    assert all[m] in all;
    if e !in rest {
      var j :| 0 <= j < |all| && all[j] == e && !Dropped(levels, level, all, ss, j);
      LaterIsDropped(levels, level, all, ss, m, j);
      assert j < m ==> Less(all[j].key, all[m].key);
    }
  }

  /** Behind an entry the smallest snapshot sees, the same user key has nothing that is kept. */
  lemma LaterIsDropped(levels: Levels, level: nat, all: seq<Entry>, ss: nat, m: nat, j: nat)
    requires Sorted(all) && m < |all| && j < |all| && all[m].key.user == all[j].key.user && all[m].key.sequence <= ss
    ensures m < j ==> Dropped(levels, level, all, ss, j)
  {
    if m < j { SameUserBefore(all, m, j); }
  }

  lemma {:induction false} StillShown(levels: Levels, level: nat, rest: iset<Entry>, all: seq<Entry>, ss: nat,
                   k: UserKey, s: nat, e: Entry)
    requires Sorted(all) && ss <= s && ss < MAX_SEQUENCE && e.key.kind == Put
    requires Newest(rest + Entries(all), k, s, e)
    ensures Newest(rest + Entries(Kept(levels, level, all, ss, |all|)), k, s, e)
  {
    var kept := Kept(levels, level, all, ss, |all|);
    assert forall x :: x in kept ==> x in all;
    if e !in rest && e !in kept {
      var i :| 0 <= i < |all| && all[i] == e;
      NewestPutIsKept(levels, level, rest, all, ss, k, s, i);
    }
  }

  lemma {:induction false} NothingResurfaces(levels: Levels, level: nat, rest: iset<Entry>, all: seq<Entry>, ss: nat,
                          k: UserKey, s: nat, e: Entry)
    requires Sorted(all) && ss <= s && ss < MAX_SEQUENCE
    requires NothingOlderBelow(levels, level, rest, all, ss)
    requires Newest(rest + Entries(Kept(levels, level, all, ss, |all|)), k, s, e)
    ensures Newest(rest + Entries(all), k, s, e)
  {
    var kept := Kept(levels, level, all, ss, |all|);
    forall x | x in rest + Entries(all) && x.key.user == k && x.key.sequence <= s
      ensures x.key.sequence <= e.key.sequence
    {
      if x !in rest {
        var i :| 0 <= i < |all| && all[i] == x;
        var m := NewestOfInput(all, k, s, i);
        if Dropped(levels, level, all, ss, m) {
          NewestDroppedHidesNothing(levels, level, rest, all, ss, s, m, e);
        } else {
          assert all[m] in kept;
        }
      }
    }
  }

  /** A compaction changes no answer at any snapshot at or above the smallest one live. */
  lemma {:induction false} CompactionKeepsReads(levels: Levels, level: nat, rest: iset<Entry>, all: seq<Entry>, ss: nat,
                             k: UserKey, s: nat, v: Bytes)
    requires Sorted(all) && ss <= s && ss < MAX_SEQUENCE
    requires NothingOlderBelow(levels, level, rest, all, ss)
    ensures Shows(rest + Entries(all), k, s, v)
       <==> Shows(rest + Entries(Kept(levels, level, all, ss, |all|)), k, s, v)
  {
    var kept := Kept(levels, level, all, ss, |all|);
    if Shows(rest + Entries(all), k, s, v) {
      var e :| Newest(rest + Entries(all), k, s, e) && e.key.kind == Put && e.value == v;
      StillShown(levels, level, rest, all, ss, k, s, e);
    }
    if Shows(rest + Entries(kept), k, s, v) {
      var e :| Newest(rest + Entries(kept), k, s, e) && e.key.kind == Put && e.value == v;
      NothingResurfaces(levels, level, rest, all, ss, k, s, e);
    }
  }

  /** The bound on ss is needed: once the smallest snapshot is the largest sequence number, a
      key's first entry counts as hidden too, a compaction drops everything, and the reads of its
      input survive if and only if there were none. */
  lemma {:induction false} LastSequenceNumberDropsEverything(levels: Levels, level: nat, all: seq<Entry>, n: nat)
    requires n <= |all| && forall j :: 0 <= j < |all| ==> all[j].key.sequence <= MAX_SEQUENCE
    ensures Kept(levels, level, all, MAX_SEQUENCE, n) == []
    ensures (forall k, v :: Shows(Entries(all), k, MAX_SEQUENCE, v)
                       <==> Shows(Entries(Kept(levels, level, all, MAX_SEQUENCE, n)), k, MAX_SEQUENCE, v))
       <==> forall k, v :: !Shows(Entries(all), k, MAX_SEQUENCE, v)
  {
    if n > 0 { LastSequenceNumberDropsEverything(levels, level, all, n - 1); }
  }

  /** With no snapshot live a compaction leaves at most one entry of each user key. */
  lemma {:induction false} OneEntryPerKey(levels: Levels, level: nat, all: seq<Entry>, ss: nat, x: Entry, y: Entry)
    requires Sorted(all) && forall e :: e in all ==> e.key.sequence <= ss
    requires x in Kept(levels, level, all, ss, |all|) && y in Kept(levels, level, all, ss, |all|)
    requires x.key.user == y.key.user
    ensures x == y
  {
    var i :| 0 <= i < |all| && all[i] == x && !Dropped(levels, level, all, ss, i);
    var j :| 0 <= j < |all| && all[j] == y && !Dropped(levels, level, all, ss, j);
    if i < j { SameUserBefore(all, i, j); }
    if j < i { SameUserBefore(all, j, i); }
    assert all[j] in all && all[i] in all;
  }

  /** The bytes handed to the table builders, output by output, are `all` in order. */
  ghost function Joined(outputs: seq<seq<Entry>>): seq<Entry> {
    if outputs == [] then [] else Joined(outputs[..|outputs| - 1]) + outputs[|outputs| - 1]
  }

  /** The output tables of a compaction: those finished and the one open, [] when none is. */
  datatype Outputs = Outputs(done: seq<seq<Entry>>, open: seq<Entry>) {
    ghost function Written(): seq<Entry> {
      Joined(done) + open
    }

    function Add(e: Entry): (r: Outputs)
      ensures r.Written() == Written() + [e]
    {
      Outputs(done, open + [e])
    }

    /** Finishes the open table, if there is one. */
    function Finish(): (r: Outputs)
      ensures r.Written() == Written() && r.open == []
      ensures (forall o :: o in done ==> o != []) ==> forall o :: o in r.done ==> o != []
    {
      if open == [] then this
      else
        assert (done + [open])[..|done|] == done;
        Outputs(done + [open], [])
    }
  }

  /** A compaction in progress over one version. */
  class Compaction {
    const level: nat
    const levels: Levels
    const levelPtrs: array<nat>

    ghost predicate Inv()
      reads levelPtrs
    {
      && |levels| == NUM_LEVELS && level + 1 < NUM_LEVELS && levelPtrs.Length == NUM_LEVELS
      && (forall l :: 1 <= l < NUM_LEVELS ==> GoodFiles(levels[l]) && Ordered(levels[l]))
      && forall l :: 0 <= l < NUM_LEVELS ==> levelPtrs[l] <= |levels[l]|
    }

    /** Every file a level pointer has passed ends before k. */
    ghost predicate Behind(k: UserKey)
      requires Inv()
      reads levelPtrs
    {
      forall l, i :: level + 2 <= l < NUM_LEVELS && 0 <= i < levelPtrs[l] ==> levels[l][i].largest.user < k
    }

    constructor (levels: Levels, level: nat)
      requires Formed(levels) && level + 1 < NUM_LEVELS
      ensures Inv() && fresh(levelPtrs) && this.levels == levels && this.level == level
      ensures forall k :: Behind(k)
    {
      this.levels := levels;
      this.level := level;
      levelPtrs := new nat[NUM_LEVELS](i => 0);
    }

    /** Asked with ascending keys; each level pointer only moves forward. */
    method IsBaseLevelForKey(k: UserKey) returns (base: bool)
      requires Inv() && Behind(k)
      modifies levelPtrs
      ensures Inv() && Behind(k)
      ensures base <==> IsBaseLevel(levels, level, k)
    {
      for lvl := level + 2 to NUM_LEVELS
        invariant Inv() && Behind(k)
        invariant forall l, f :: level + 2 <= l < lvl && f in levels[l] ==> !Covers(f, k)
      {
        var files := levels[lvl];
        while levelPtrs[lvl] < |files|
          invariant Inv() && Behind(k)
          invariant levelPtrs[lvl] < |files| ==> files[levelPtrs[lvl]] in files
          decreases |files| - levelPtrs[lvl]
        {
          var f := files[levelPtrs[lvl]];
          if k <= f.largest.user {
            if k >= f.smallest.user {
              assert f in levels[lvl] && Covers(f, k);
              return false;
            }
            RangesAscend(files, levelPtrs[lvl]);
            break;
          }
          levelPtrs[lvl] := levelPtrs[lvl] + 1;
        }
        forall f | f in files
          ensures !Covers(f, k)
        {
          var i :| 0 <= i < |files| && files[i] == f;
        }
      }
      base := true;
    }

    /** Walks the merged input (the list `MergingIterator` presents) and writes what the rules
        keep.  `stopBefore` and `full` stand for the tests that cut the output (grandparent
        overlap, file size): any cut is covered. */
    method DoCompactionWork(input: seq<Entry>, ss: nat, stopBefore: nat -> bool, full: nat -> bool)
      returns (outputs: seq<seq<Entry>>)
      requires Inv() && Sorted(input) && forall k :: Behind(k)
      modifies levelPtrs
      ensures Joined(outputs) == Kept(levels, level, input, ss, |input|)
      ensures forall o :: o in outputs ==> o != []
    {
      var currentUserKey: Option<UserKey> := None;
      var lastSequenceForKey := MAX_SEQUENCE;
      var out := Outputs([], []);
      for i := 0 to |input|
        invariant Inv()
        invariant i < |input| ==> Behind(input[i].key.user)
        invariant out.Written() == Kept(levels, level, input, ss, i)
        invariant forall o :: o in out.done ==> o != []
        invariant i == 0 ==> currentUserKey == None
        invariant i > 0 ==> currentUserKey == Some(input[i - 1].key.user)
        invariant i > 0 ==> lastSequenceForKey == input[i - 1].key.sequence
      {
        if stopBefore(i) {
          out := out.Finish();
        }
        if currentUserKey != Some(input[i].key.user) {
          currentUserKey := Some(input[i].key.user);
          lastSequenceForKey := MAX_SEQUENCE;
        }
        var drop := ShouldDrop(input, i, ss, lastSequenceForKey);
        lastSequenceForKey := input[i].key.sequence;
        if !drop {
          out := out.Add(input[i]);
          if full(i) {
            out := out.Finish();
          }
        }
      }
      outputs := out.Finish().done;
    }

    method ShouldDrop(input: seq<Entry>, i: nat, ss: nat, lastSequenceForKey: nat) returns (drop: bool)
      requires Inv() && Sorted(input) && i < |input| && Behind(input[i].key.user)
      requires lastSequenceForKey == PreviousSequence(input, i)
      modifies levelPtrs
      ensures Inv() && (i + 1 < |input| ==> Behind(input[i + 1].key.user))
      ensures drop <==> Dropped(levels, level, input, ss, i)
    {
      var key := input[i].key;
      drop := false;
      if lastSequenceForKey <= ss {
        drop := true;
      } else if key.kind == Deletion && key.sequence <= ss {
        drop := IsBaseLevelForKey(key.user);
      }
      assert i + 1 < |input| ==> Less(input[i].key, input[i + 1].key);
    }
  }
}
