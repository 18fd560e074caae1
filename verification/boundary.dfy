/** What is read when a user key has been cut between two files of a level.  A compaction with a
    live snapshot may do that; a later step that takes only the first of the two files down puts
    an older entry of the key above a newer one, or drops the deletion that hid it.  This module
    says exactly which reads change. */
module Boundaries {
  import opened Format
  import opened SnapshotSpec
  import opened Versions
  import opened Compactions
  import opened StoreSpec
  import opened StoreProofs
  import opened StoreRuns

  // Where a search finds what it finds.

  /** A level answers if and only if it holds something readable of the key. */
  lemma AnswersOrLacks(levels: Levels, l: nat, k: UserKey, s: nat)
    requires Formed(levels) && l < NUM_LEVELS
    ensures SearchLevel(l, levels[l], k, s).Some? ==>
              AnswersIn(levels[l], k, s, SearchLevel(l, levels[l], k, s).value) && !Lacks(levels[l], k, s)
    ensures SearchLevel(l, levels[l], k, s) == None ==> Lacks(levels[l], k, s)
  {
    LevelAnswers(levels, l, k, s);
    var r := SearchLevel(l, levels[l], k, s);
    if r.Some? {
      var f :| f in levels[l] && r.value in f.entries;
      HoldsReadable(levels[l], f, r.value, k, s);
    }
  }

  ghost predicate LackAbove(levels: Levels, k: UserKey, s: nat, l: nat, m: nat)
    requires m <= |levels|
  {
    forall j :: l <= j < m ==> Lacks(levels[j], k, s)
  }

  lemma {:induction false} FoundAt(levels: Levels, k: UserKey, s: nat, l: nat, m: nat)
    requires Formed(levels) && l <= m < NUM_LEVELS && !Lacks(levels[m], k, s) && LackAbove(levels, k, s, l, m)
    ensures SearchLevels(levels, k, s, l).Some? && AnswersIn(levels[m], k, s, SearchLevels(levels, k, s, l).value)
    decreases m - l
  {
    AnswersOrLacks(levels, l, k, s);
    if l < m { FoundAt(levels, k, s, l + 1, m); }
  }

  lemma {:induction false} FoundNowhere(levels: Levels, k: UserKey, s: nat, l: nat)
    requires Formed(levels) && l <= NUM_LEVELS && LackAbove(levels, k, s, l, NUM_LEVELS)
    ensures SearchLevels(levels, k, s, l) == None
    decreases NUM_LEVELS - l
  {
    if l < NUM_LEVELS {
      AnswersOrLacks(levels, l, k, s);
      FoundNowhere(levels, k, s, l + 1);
    }
  }

  lemma {:induction false} WhereFound(levels: Levels, k: UserKey, s: nat, l: nat, e: Entry) returns (m: nat)
    requires Formed(levels) && l <= NUM_LEVELS && SearchLevels(levels, k, s, l) == Some(e)
    ensures l <= m < NUM_LEVELS && AnswersIn(levels[m], k, s, e) && LackAbove(levels, k, s, l, m)
    decreases NUM_LEVELS - l
  {
    AnswersOrLacks(levels, l, k, s);
    if SearchLevel(l, levels[l], k, s).Some? {
      m := l;
    } else {
      m := WhereFound(levels, k, s, l + 1, e);
      LackFrom(levels, k, s, l, m);
    }
  }

  lemma LackFrom(levels: Levels, k: UserKey, s: nat, l: nat, m: nat)
    requires l < m <= |levels| && Lacks(levels[l], k, s) && LackAbove(levels, k, s, l + 1, m)
    ensures LackAbove(levels, k, s, l, m)
  {
  }

  /** No two entries of the tree have one sequence number. */
  ghost predicate Once(levels: Levels) {
    forall x, y :: Stored(levels, x) && Stored(levels, y) && x.key.sequence == y.key.sequence ==> x == y
  }

  lemma HoldsReadable(files: seq<File>, f: File, x: Entry, k: UserKey, s: nat)
    requires f in files && x in f.entries && x.key.user == k && x.key.sequence <= s
    ensures !Lacks(files, k, s)
  {
    assert !LacksIn(f, k, s);
  }

  /** An entry lies in one file only. */
  lemma InOneFile(levels: Levels, l: nat, f: File, m: nat, g: File, e: Entry)
    requires LevelsOk(levels) && l < NUM_LEVELS && m < NUM_LEVELS && f in levels[l] && g in levels[m]
    requires e in f.entries && e in g.entries
    ensures l == m && f == g
  {
    if l != m || f != g {
      if l <= m { FilesDiffer(levels, l, f, m, g, e, e); }
      else { FilesDiffer(levels, m, g, l, f, e, e); }
    }
  }

  // A step that takes files down.

  /** The tree after in0 and in1 have been replaced by outs; `merge` tells a compaction from a move. */
  ghost predicate Sinks(before: Levels, after: Levels, level: nat, in0: seq<File>, in1: seq<File>, outs: seq<File>) {
    && LegalInputs(before, level, in0, in1) && Formed(after)
    && TreeEdit(before, after, level, in0, [], in1, outs)
    && ComeFrom(outs, in0, in1)
  }

  /** What becomes of an input entry that is the newest of its key at some snapshot: a merge drops
      it with all older ones if it is a removable deletion, and it is written otherwise. */
  ghost predicate Fate(before: Levels, level: nat, outs: seq<File>, merge: bool, ss: nat, e: Entry) {
    if merge && Removable(before, level, ss, e)
    then forall x :: InFiles(outs, x) && x.key.user == e.key.user ==> x.key.sequence > e.key.sequence
    else InFiles(outs, e)
  }

  /** The entry lies in an input that ends with its key, and a file left in the same level goes on
      with the key. */
  ghost predicate CutOff(files: seq<File>, taken: seq<File>, e: Entry) {
    exists f, g :: f in taken && e in f.entries && g in files && g !in taken && Continues(f, g) && f.largest.user == e.key.user
  }

  /** The step makes reads that found e find something older. */
  ghost predicate Uncovers(levels: Levels, level: nat, in0: seq<File>, in1: seq<File>, ss: nat, e: Entry)
    requires level + 1 < |levels|
  {
    CutOff(levels[level], in0, e) || (Removable(levels, level, ss, e) && CutOff(levels[level + 1], in1, e))
  }

  lemma StaysLacking(before: Levels, after: Levels, level: nat, in0: seq<File>, in1: seq<File>, outs: seq<File>,
                     k: UserKey, s: nat, j: nat)
    requires Sinks(before, after, level, in0, in1, outs) && j < NUM_LEVELS
    requires Lacks(before[j], k, s) && (j == level + 1 ==> Lacks(before[level], k, s))
    ensures Lacks(after[j], k, s)
  {
    forall f | f in after[j]
      ensures LacksIn(f, k, s)
    {
      if f in before[j] {
        assert LacksIn(f, k, s);
      } else {
        OutputLacks(before, level, in0, in1, outs, f, k, s);
      }
    }
  }

  lemma OutputLacks(before: Levels, level: nat, in0: seq<File>, in1: seq<File>, outs: seq<File>, o: File, k: UserKey,
                    s: nat)
    requires LegalInputs(before, level, in0, in1) && ComeFrom(outs, in0, in1) && o in outs
    requires Lacks(before[level], k, s) && Lacks(before[level + 1], k, s)
    ensures LacksIn(o, k, s)
  {
    forall x | x in o.entries && x.key.user == k
      ensures x.key.sequence > s
    {
      if InFiles(in0, x) {
        var f :| f in in0 && x in f.entries;
        assert LacksIn(f, k, s);
      } else {
        var f :| f in in1 && x in f.entries;
        assert LacksIn(f, k, s);
      }
    }
  }

  /** Everything in the new tree was in the old one. */
  lemma ComesFromTree(before: Levels, after: Levels, level: nat, in0: seq<File>, in1: seq<File>, outs: seq<File>,
                      l: nat, f: File, x: Entry)
    requires Sinks(before, after, level, in0, in1, outs) && l < NUM_LEVELS && f in after[l] && x in f.entries
    ensures Stored(before, x)
  {
    if f !in before[l] {
      assert InFiles(in0, x) || InFiles(in1, x);
      if InFiles(in0, x) { var g :| g in in0 && x in g.entries; assert g in before[level]; }
      else { var g :| g in in1 && x in g.entries; assert g in before[level + 1]; }
    }
  }

  /** The newest entry of the old tree, if it is still in some level and nothing is readable above
      it, is found again. */
  lemma {:induction false} FoundAgain(before: Levels, after: Levels, level: nat, in0: seq<File>, in1: seq<File>,
                                      outs: seq<File>, k: UserKey, s: nat, e: Entry, m: nat, f: File)
    requires Sinks(before, after, level, in0, in1, outs) && Once(before) && Newest(StoredIn(before), k, s, e)
    requires m < NUM_LEVELS && f in after[m] && e in f.entries
    requires LackAbove(after, k, s, 0, m)
    ensures SearchLevels(after, k, s, 0) == Some(e)
  {
    HoldsReadable(after[m], f, e, k, s);
    FoundAt(after, k, s, 0, m);
    var x := SearchLevels(after, k, s, 0).value;
    var g :| g in after[m] && x in g.entries;
    ComesFromTree(before, after, level, in0, in1, outs, m, g, x);
    assert x.key.sequence == e.key.sequence;
  }

  /** A file that was not an input is not cut off from. */
  lemma NotTaken(levels: Levels, level: nat, in0: seq<File>, in1: seq<File>, ss: nat, e: Entry, l: nat, f: File)
    requires LevelsOk(levels) && LegalInputs(levels, level, in0, in1) && l < NUM_LEVELS && f in levels[l] && e in f.entries
    requires !(l == level && f in in0) && !(l == level + 1 && f in in1)
    ensures !Uncovers(levels, level, in0, in1, ss, e)
  {
    forall g | g in in0 && e in g.entries
      ensures false
    {
      InOneFile(levels, l, f, level, g, e);
    }
    forall g | g in in1 && e in g.entries
      ensures false
    {
      InOneFile(levels, l, f, level + 1, g, e);
    }
  }

  /** What was found in a file that stays is found again. */
  lemma {:induction false} FoundInRest(before: Levels, after: Levels, level: nat, in0: seq<File>, in1: seq<File>,
                                       outs: seq<File>, ss: nat, k: UserKey, s: nat, e: Entry, l: nat, f: File)
    requires LevelsOk(before) && Sinks(before, after, level, in0, in1, outs) && Once(before)
    requires Newest(StoredIn(before), k, s, e)
    requires l < NUM_LEVELS && f in before[l] && e in f.entries
    requires LackAbove(before, k, s, 0, l)
    requires !(l == level && f in in0) && !(l == level + 1 && f in in1)
    ensures SearchLevels(after, k, s, 0) == Some(e) && !Uncovers(before, level, in0, in1, ss, e)
  {
    NotTaken(before, level, in0, in1, ss, e, l, f);
    forall j | 0 <= j < l
      ensures Lacks(after[j], k, s)
    {
      StaysLacking(before, after, level, in0, in1, outs, k, s, j);
    }
    assert f in after[l];
    FoundAgain(before, after, level, in0, in1, outs, k, s, e, l, f);
  }

  /** A file left behind in a sorted level that holds a readable entry of the key cuts it off, and
      one that cuts it off holds one. */
  lemma CutOffExactly(files: seq<File>, taken: seq<File>, h: File, k: UserKey, s: nat, e: Entry, rest: seq<File>)
    requires GoodFiles(files) && Ordered(files) && h in taken && h in files && e in h.entries
    requires forall f :: f in taken ==> f in files
    requires forall f :: f in rest <==> f in files && f !in taken
    requires e.key.user == k && e.key.sequence <= s
    requires forall f, x :: f in files && x in f.entries && x.key.user == k && x.key.sequence <= s ==> x.key.sequence <= e.key.sequence
    ensures CutOff(files, taken, e) <==> !Lacks(rest, k, s)
    ensures forall g, x :: g in rest && x in g.entries && x.key.user == k && x.key.sequence <= s ==> x.key.sequence < e.key.sequence
  {
    if CutOff(files, taken, e) {
      var f, g :| f in taken && e in f.entries && g in files && g !in taken && Continues(f, g) && f.largest.user == e.key.user;
      EntryInRange(f, e);
      assert g.entries[0] in g.entries;
      HoldsReadable(rest, g, g.entries[0], k, s);
    }
    forall g, x | g in rest && x in g.entries && x.key.user == k && x.key.sequence <= s
      ensures x.key.sequence < e.key.sequence && CutOff(files, taken, e)
    {
      SharedKey(files, h, g, e, x);
    }
    if !Lacks(rest, k, s) {
      var g :| g in rest && !LacksIn(g, k, s);
    }
  }

  /** Below the two levels of the step nothing has a removable key. */
  lemma NothingDeeper(levels: Levels, level: nat, ss: nat, e: Entry, s: nat, m: nat)
    requires Formed(levels) && Removable(levels, level, ss, e) && level + 2 <= m < NUM_LEVELS
    ensures Lacks(levels[m], e.key.user, s)
  {
    forall f, x | f in levels[m] && x in f.entries && x.key.user == e.key.user
      ensures false
    {
      assert GoodFiles(levels[m]);
      EntryInRange(f, x);
      assert Covers(f, e.key.user);
    }
    assert forall f :: f in levels[m] ==> LacksIn(f, e.key.user, s);
  }

  /** The entry read has been replaced by an older one, or by nothing if it was a deletion. */
  ghost predicate AsBefore(found: Entry, now: Option<Entry>) {
    now == Some(found) || (now == None && found.key.kind == Deletion)
  }

  ghost predicate Overwritten(found: Entry, now: Option<Entry>) {
    now.Some? && now.value.key.user == found.key.user && now.value.key.sequence < found.key.sequence
  }

  /** The search of the new tree ends in a level with older entries of the key. */
  lemma {:induction false} FoundOlder(levels: Levels, k: UserKey, s: nat, m: nat, e: Entry)
    requires Formed(levels) && m < NUM_LEVELS && e.key.user == k
    requires !Lacks(levels[m], k, s) && LackAbove(levels, k, s, 0, m)
    requires forall f, x :: f in levels[m] && x in f.entries && x.key.user == k && x.key.sequence <= s
               ==> x.key.sequence < e.key.sequence
    ensures Overwritten(e, SearchLevels(levels, k, s, 0))
  {
    FoundAt(levels, k, s, 0, m);
  }

  /** The entry found in a level is the newest there is; spelt out for the files of that level. */
  ghost predicate Tops(files: seq<File>, k: UserKey, s: nat, e: Entry) {
    forall f, x :: f in files && x in f.entries && x.key.user == k && x.key.sequence <= s ==> x.key.sequence <= e.key.sequence
  }

  lemma NewestTops(levels: Levels, k: UserKey, s: nat, e: Entry)
    requires Newest(StoredIn(levels), k, s, e)
    ensures forall l :: 0 <= l < |levels| ==> Tops(levels[l], k, s, e)
  {
    forall l, f, x | 0 <= l < |levels| && f in levels[l] && x in f.entries && x.key.user == k && x.key.sequence <= s
      ensures x.key.sequence <= e.key.sequence
    {
      assert Stored(levels, x);
    }
  }

  /** Once its key's newest entry has been dropped and nothing of the key was left beside the
      inputs, a search finds nothing. */
  lemma {:induction false} FoundNoMore(before: Levels, after: Levels, level: nat, in0: seq<File>, in1: seq<File>,
                                       outs: seq<File>, ss: nat, k: UserKey, s: nat, e: Entry)
    requires LevelsOk(before) && Sinks(before, after, level, in0, in1, outs) && Removable(before, level, ss, e)
    requires e.key.user == k && LackAbove(after, k, s, 0, level + 1)
    requires forall f :: f in before[level + 1] && f !in in1 ==> LacksIn(f, k, s)
    requires forall o :: o in outs ==> LacksIn(o, k, s)
    ensures SearchLevels(after, k, s, 0) == None
  {
    forall m | level + 1 <= m < NUM_LEVELS
      ensures Lacks(after[m], k, s)
    {
      if m > level + 1 { NothingDeeper(before, level, ss, e, s, m); }
    }
    FoundNowhere(after, k, s, 0);
  }

  lemma DroppedLacks(before: Levels, after: Levels, level: nat, in0: seq<File>, in1: seq<File>, outs: seq<File>,
                     ss: nat, k: UserKey, s: nat, e: Entry, o: File)
    requires Sinks(before, after, level, in0, in1, outs) && Newest(StoredIn(before), k, s, e)
    requires Removable(before, level, ss, e) && Fate(before, level, outs, true, ss, e) && o in outs
    ensures LacksIn(o, k, s)
  {
    forall x | x in o.entries && x.key.user == k
      ensures x.key.sequence > s
    {
      assert InFiles(outs, x) && o in after[level + 1];
      ComesFromTree(before, after, level, in0, in1, outs, level + 1, o, x);
    }
  }

  lemma MissedLacks(levels: Levels, level: nat, in0: seq<File>, in1: seq<File>, h: File, e: Entry, f: File, s: nat)
    requires Formed(levels) && LegalInputs(levels, level, in0, in1)
    requires h in in0 && e in h.entries && f in levels[level + 1] && f !in in1
    ensures LacksIn(f, e.key.user, s)
  {
    forall x | x in f.entries
      ensures x.key.user != e.key.user
    {
      MissesTaken(levels, level, in0, in1, h, f, x, e);
    }
  }

  /** Found in an input of the upper level, and dropped. */
  lemma {:induction false} DroppedFromUpper(before: Levels, after: Levels, level: nat, in0: seq<File>, in1: seq<File>,
                                            outs: seq<File>, ss: nat, k: UserKey, s: nat, e: Entry, h: File)
    requires LevelsOk(before) && Sinks(before, after, level, in0, in1, outs)
    requires Newest(StoredIn(before), k, s, e) && Removable(before, level, ss, e) && Fate(before, level, outs, true, ss, e)
    requires h in in0 && e in h.entries && LackAbove(after, k, s, 0, level + 1)
    ensures SearchLevels(after, k, s, 0) == None
  {
    forall f | f in before[level + 1] && f !in in1
      ensures LacksIn(f, k, s)
    {
      MissedLacks(before, level, in0, in1, h, e, f, s);
    }
    forall o | o in outs
      ensures LacksIn(o, k, s)
    {
      DroppedLacks(before, after, level, in0, in1, outs, ss, k, s, e, o);
    }
    FoundNoMore(before, after, level, in0, in1, outs, ss, k, s, e);
  }

  /** The files of the level below after the step. */
  lemma BelowAfter(before: Levels, after: Levels, level: nat, in0: seq<File>, in1: seq<File>, outs: seq<File>)
    requires Sinks(before, after, level, in0, in1, outs)
    ensures forall f :: f in after[level + 1] <==> (f in before[level + 1] && f !in in1) || f in outs
  {
  }

  /** Found in an input, and written. */
  lemma {:induction false} WrittenBelow(before: Levels, after: Levels, level: nat, in0: seq<File>, in1: seq<File>,
                                        outs: seq<File>, k: UserKey, s: nat, e: Entry)
    requires Sinks(before, after, level, in0, in1, outs) && Once(before) && Newest(StoredIn(before), k, s, e)
    requires InFiles(outs, e) && LackAbove(after, k, s, 0, level + 1)
    ensures SearchLevels(after, k, s, 0) == Some(e)
  {
    var o :| o in outs && e in o.entries;
    BelowAfter(before, after, level, in0, in1, outs);
    FoundAgain(before, after, level, in0, in1, outs, k, s, e, level + 1, o);
  }

  lemma NotInBoth(levels: Levels, level: nat, f: File, g: File, e: Entry)
    requires LevelsOk(levels) && level + 1 < NUM_LEVELS && f in levels[level] && g in levels[level + 1]
    ensures !(e in f.entries && e in g.entries)
  {
    assert NewerLevel(levels[level], levels[level + 1]);
  }

  lemma OnlyInUpper(levels: Levels, level: nat, in0: seq<File>, in1: seq<File>, h: File, e: Entry)
    requires LevelsOk(levels) && LegalInputs(levels, level, in0, in1) && h in in0 && e in h.entries
    ensures !CutOff(levels[level + 1], in1, e)
  {
    forall g | g in in1
      ensures e !in g.entries
    {
      NotInBoth(levels, level, h, g, e);
    }
  }

  lemma OnlyInLower(levels: Levels, level: nat, in0: seq<File>, in1: seq<File>, h: File, e: Entry)
    requires LevelsOk(levels) && LegalInputs(levels, level, in0, in1) && h in in1 && e in h.entries
    ensures !CutOff(levels[level], in0, e)
  {
    forall g | g in in0
      ensures e !in g.entries
    {
      NotInBoth(levels, level, g, h, e);
    }
  }

  /** What the files left at a level hold of the key: something readable if and only if they cut e
      off, and then something older. */
  ghost predicate LeftOlder(files: seq<File>, taken: seq<File>, rest: seq<File>, k: UserKey, s: nat, e: Entry) {
    && (CutOff(files, taken, e) <==> !Lacks(rest, k, s))
    && forall g, x :: g in rest && x in g.entries && x.key.user == k && x.key.sequence <= s ==> x.key.sequence < e.key.sequence
  }

  /** What was found in an input of the upper level. */
  lemma {:induction false} FoundInUpper(before: Levels, after: Levels, level: nat, in0: seq<File>, in1: seq<File>,
                                        outs: seq<File>, merge: bool, ss: nat, k: UserKey, s: nat, e: Entry, h: File)
    requires LevelsOk(before) && Sinks(before, after, level, in0, in1, outs) && Once(before)
    requires Newest(StoredIn(before), k, s, e) && Fate(before, level, outs, merge, ss, e)
    requires h in in0 && e in h.entries && LackAbove(after, k, s, 0, level)
    requires LeftOlder(before[level], in0, after[level], k, s, e)
    ensures if Uncovers(before, level, in0, in1, ss, e) then Overwritten(e, SearchLevels(after, k, s, 0))
            else AsBefore(e, SearchLevels(after, k, s, 0))
  {
    OnlyInUpper(before, level, in0, in1, h, e);
    if CutOff(before[level], in0, e) {
      FoundOlder(after, k, s, level, e);
    } else {
      assert LackAbove(after, k, s, 0, level + 1);
      if merge && Removable(before, level, ss, e) {
        DroppedFromUpper(before, after, level, in0, in1, outs, ss, k, s, e, h);
      } else {
        WrittenBelow(before, after, level, in0, in1, outs, k, s, e);
      }
    }
  }

  /** A file left in the lower level shows an older entry. */
  lemma {:induction false} UncoveredInLower(levels: Levels, k: UserKey, s: nat, m: nat, e: Entry, rest: seq<File>,
                                            outs: seq<File>)
    requires Formed(levels) && m < NUM_LEVELS && e.key.user == k && LackAbove(levels, k, s, 0, m)
    requires forall f :: f in levels[m] <==> f in rest || f in outs
    requires forall o :: o in outs ==> LacksIn(o, k, s)
    requires !Lacks(rest, k, s)
    requires forall f, x :: f in rest && x in f.entries && x.key.user == k && x.key.sequence <= s ==> x.key.sequence < e.key.sequence
    ensures Overwritten(e, SearchLevels(levels, k, s, 0))
  {
    var f :| f in rest && !LacksIn(f, k, s);
    FoundOlder(levels, k, s, m, e);
  }

  /** Found in an input of the lower level, and dropped. */
  lemma {:induction false} DroppedFromLower(before: Levels, after: Levels, level: nat, in0: seq<File>, in1: seq<File>,
                                            outs: seq<File>, ss: nat, k: UserKey, s: nat, e: Entry, rest: seq<File>)
    requires LevelsOk(before) && Sinks(before, after, level, in0, in1, outs)
    requires Newest(StoredIn(before), k, s, e) && Removable(before, level, ss, e) && Fate(before, level, outs, true, ss, e)
    requires LackAbove(after, k, s, 0, level + 1)
    requires forall f :: f in rest <==> f in before[level + 1] && f !in in1
    requires LeftOlder(before[level + 1], in1, rest, k, s, e)
    ensures if CutOff(before[level + 1], in1, e) then Overwritten(e, SearchLevels(after, k, s, 0))
            else SearchLevels(after, k, s, 0) == None
  {
    forall o | o in outs
      ensures LacksIn(o, k, s)
    {
      DroppedLacks(before, after, level, in0, in1, outs, ss, k, s, e, o);
    }
    if CutOff(before[level + 1], in1, e) {
      BelowAfter(before, after, level, in0, in1, outs);
      UncoveredInLower(after, k, s, level + 1, e, rest, outs);
    } else {
      assert forall f :: f in rest ==> LacksIn(f, k, s);
      FoundNoMore(before, after, level, in0, in1, outs, ss, k, s, e);
    }
  }

  /** What was found in an input of the lower level. */
  lemma {:induction false} FoundInLower(before: Levels, after: Levels, level: nat, in0: seq<File>, in1: seq<File>,
                                        outs: seq<File>, merge: bool, ss: nat, k: UserKey, s: nat, e: Entry, h: File,
                                        rest: seq<File>)
    requires LevelsOk(before) && Sinks(before, after, level, in0, in1, outs) && Once(before) && merge
    requires Newest(StoredIn(before), k, s, e) && Fate(before, level, outs, merge, ss, e)
    requires h in in1 && e in h.entries && LackAbove(after, k, s, 0, level + 1)
    requires forall f :: f in rest <==> f in before[level + 1] && f !in in1
    requires LeftOlder(before[level + 1], in1, rest, k, s, e)
    ensures if Uncovers(before, level, in0, in1, ss, e) then Overwritten(e, SearchLevels(after, k, s, 0))
            else AsBefore(e, SearchLevels(after, k, s, 0))
  {
    OnlyInLower(before, level, in0, in1, h, e);
    if Removable(before, level, ss, e) {
      DroppedFromLower(before, after, level, in0, in1, outs, ss, k, s, e, rest);
    } else {
      WrittenBelow(before, after, level, in0, in1, outs, k, s, e);
    }
  }

  /** The files of a level that were not taken. */
  function Left(files: seq<File>, taken: seq<File>): (r: seq<File>)
    ensures forall f :: f in r <==> f in files && f !in taken
  {
    if files == [] then []
    else (if files[0] in taken then [] else [files[0]]) + Left(files[1..], taken)
  }

  lemma LacksAfter(before: Levels, after: Levels, level: nat, in0: seq<File>, in1: seq<File>, outs: seq<File>,
                   k: UserKey, s: nat, m: nat)
    requires Sinks(before, after, level, in0, in1, outs) && m <= NUM_LEVELS && LackAbove(before, k, s, 0, m)
    ensures LackAbove(after, k, s, 0, m)
  {
    forall j | 0 <= j < m
      ensures Lacks(after[j], k, s)
    {
      StaysLacking(before, after, level, in0, in1, outs, k, s, j);
    }
  }

  /** On level 0 the files left behind lie apart, so none goes on with a key. */
  lemma ApartUnshared(files: seq<File>, taken: seq<File>)
    requires GoodFiles(files) && forall f :: f in taken ==> f in files
    requires forall f, g :: f in taken && g in files && g !in taken ==> Apart(f, g)
    ensures Unshared(files, taken)
  {
    forall f, g | f in taken && g in files && g !in taken
      ensures !Continues(f, g)
    {
      EntryInRange(f, f.entries[0]);
      EntryInRange(g, g.entries[0]);
    }
  }

  lemma TakenFromUpper(before: Levels, after: Levels, level: nat, in0: seq<File>, in1: seq<File>, outs: seq<File>,
                       k: UserKey, s: nat, e: Entry, h: File)
    requires LevelsOk(before) && Sinks(before, after, level, in0, in1, outs) && Newest(StoredIn(before), k, s, e)
    requires h in in0 && e in h.entries
    ensures LeftOlder(before[level], in0, after[level], k, s, e)
  {
    var files := before[level];
    NewestTops(before, k, s, e);
    assert GoodFiles(files);
    if level > 0 {
      CutOffExactly(files, in0, h, k, s, e, after[level]);
    } else {
      forall g, x | g in after[0] && x in g.entries
        ensures x.key.user != k
      {
        ApartShareNothing(h, g, e, x);
      }
      assert forall g :: g in after[0] ==> LacksIn(g, k, s);
      ApartUnshared(files, in0);
    }
  }

  lemma TakenFromLower(levels: Levels, level: nat, in0: seq<File>, in1: seq<File>, k: UserKey, s: nat, e: Entry,
                       h: File, rest: seq<File>)
    requires LevelsOk(levels) && LegalInputs(levels, level, in0, in1) && Newest(StoredIn(levels), k, s, e)
    requires h in in1 && e in h.entries && forall f :: f in rest <==> f in levels[level + 1] && f !in in1
    ensures LeftOlder(levels[level + 1], in1, rest, k, s, e)
  {
    NewestTops(levels, k, s, e);
    CutOffExactly(levels[level + 1], in1, h, k, s, e, rest);
  }

  /** What a search of the new tree finds in place of what it found in the old one. */
  lemma {:induction false} TreeReadAfter(before: Levels, after: Levels, level: nat, in0: seq<File>, in1: seq<File>,
                                         outs: seq<File>, merge: bool, ss: nat, k: UserKey, s: nat, e: Entry)
    requires LevelsOk(before) && Sinks(before, after, level, in0, in1, outs) && Once(before) && (in1 != [] ==> merge)
    requires SearchLevels(before, k, s, 0) == Some(e)
    requires InFiles(in0, e) || InFiles(in1, e) ==> Fate(before, level, outs, merge, ss, e)
    ensures if Uncovers(before, level, in0, in1, ss, e) then Overwritten(e, SearchLevels(after, k, s, 0))
            else AsBefore(e, SearchLevels(after, k, s, 0))
  {
    SearchFindsNewest(before, k, s, 0);
    var m := WhereFound(before, k, s, 0, e);
    var h :| h in before[m] && e in h.entries;
    LacksAfter(before, after, level, in0, in1, outs, k, s, m);
    if m == level && h in in0 {
      assert InFiles(in0, e);
      TakenFromUpper(before, after, level, in0, in1, outs, k, s, e, h);
      FoundInUpper(before, after, level, in0, in1, outs, merge, ss, k, s, e, h);
    } else if m == level + 1 && h in in1 {
      assert InFiles(in1, e);
      var rest := Left(before[m], in1);
      TakenFromLower(before, level, in0, in1, k, s, e, h, rest);
      FoundInLower(before, after, level, in0, in1, outs, merge, ss, k, s, e, h, rest);
    } else {
      FoundInRest(before, after, level, in0, in1, outs, ss, k, s, e, m, h);
    }
  }

  lemma {:induction false} TreeLacksAfter(before: Levels, after: Levels, level: nat, in0: seq<File>, in1: seq<File>,
                                          outs: seq<File>, k: UserKey, s: nat)
    requires LevelsOk(before) && Sinks(before, after, level, in0, in1, outs)
    requires SearchLevels(before, k, s, 0) == None
    ensures SearchLevels(after, k, s, 0) == None
  {
    SearchFindsNewest(before, k, s, 0);
    forall l | 0 <= l < NUM_LEVELS
      ensures Lacks(before[l], k, s)
    {
      forall f, x | f in before[l] && x in f.entries && x.key.user == k
        ensures x.key.sequence > s
      {
        assert Stored(before, x);
      }
      assert forall f :: f in before[l] ==> LacksIn(f, k, s);
    }
    LacksAfter(before, after, level, in0, in1, outs, k, s, NUM_LEVELS);
    FoundNowhere(after, k, s, 0);
  }

  // The same for the whole store.

  /** What a step takes from its level, and from the next one. */
  function Upper(step: Step): seq<File>
    requires step.Move? || step.Compact?
  {
    if step.Move? then [step.f] else step.in0
  }

  function Lower(step: Step): seq<File>
    requires step.Move? || step.Compact?
  {
    if step.Move? then [] else step.in1
  }

  function Written(step: Step): seq<File>
    requires step.Move? || step.Compact?
  {
    if step.Move? then [step.f] else step.outs
  }

  /** Every input entry that some read at or above the smallest snapshot finds meets its fate. */
  ghost predicate Fates(st: State, step: Step)
    requires step.Move? || step.Compact?
  {
    forall e: Entry, s :: SmallestSnapshot(st) <= s && Newest(HeldIn(st), e.key.user, s, e) && (InFiles(Upper(step), e) || InFiles(Lower(step), e))
      ==> Fate(st.levels, step.level, Written(step), step.Compact?, SmallestSnapshot(st), e)
  }

  lemma MoveSinks(st: State, st': State, step: Step)
    requires Inv(st) && Takes(st, st', step) && step.Move?
    ensures Sinks(st.levels, st'.levels, step.level, Upper(step), Lower(step), Written(step)) && Fates(st, step)
  {
    var level, f := step.level, step.f;
    MovedIsApart(st.levels, level, f);
    assert f in [f];
    EditOrdered(st.levels[level + 1], st'.levels[level + 1], [], [f]);
    if level > 0 { EditOrdered(st.levels[level], st'.levels[level], [f], []); }
    MovedNumbers(st.levels, st'.levels, level, f);
    EditKeepsForm(st.levels, st'.levels, level, [f], [], [], [f]);
  }

  lemma MovedNumbers(before: Levels, after: Levels, level: nat, f: File)
    requires LevelsOk(before) && TreeEdit(before, after, level, [f], [], [], [f]) && f in before[level]
    ensures DistinctNumbers(after[level]) && DistinctNumbers(after[level + 1])
    ensures level == 0 ==> NewestByNumber(after[0])
  {
    assert NewerLevel(before[level], before[level + 1]) && DistinctNumbers(before[level]) && DistinctNumbers(before[level + 1]);
  }

  lemma CompactSinks(st: State, st': State, step: Step)
    requires Inv(st) && Takes(st, st', step) && step.Compact?
    ensures Sinks(st.levels, st'.levels, step.level, Upper(step), Lower(step), Written(step)) && Fates(st, step)
  {
    var level, in0, in1, all, outs := step.level, step.in0, step.in1, step.all, step.outs;
    CompactForms(st, st', level, in0, in1, all, outs);
    EditKeepsForm(st.levels, st'.levels, level, in0, [], in1, outs);
    forall o, e | o in outs && e in o.entries
      ensures InFiles(in0, e) || InFiles(in1, e)
    {
      OutputsComeFromInputs(st, st', level, in0, in1, all, outs, o, e);
    }
    forall e: Entry, s | SmallestSnapshot(st) <= s && Newest(HeldIn(st), e.key.user, s, e) && (InFiles(in0, e) || InFiles(in1, e))
      ensures Fate(st.levels, level, outs, true, SmallestSnapshot(st), e)
    {
      MeetsFate(st, st', level, in0, in1, all, outs, e, s);
    }
  }

  lemma {:induction false} MeetsFate(st: State, st': State, level: nat, in0: seq<File>, in1: seq<File>,
                                     all: seq<Entry>, outs: seq<File>, e: Entry, s: nat)
    requires Inv(st) && CompactStep(st, st', level, in0, in1, all, outs) && SmallestSnapshot(st) <= s
    requires Newest(HeldIn(st), e.key.user, s, e) && (InFiles(in0, e) || InFiles(in1, e))
    ensures Fate(st.levels, level, outs, true, SmallestSnapshot(st), e)
  {
    var ss := SmallestSnapshot(st);
    var i :| 0 <= i < |all| && all[i] == e;
    if Removable(st.levels, level, ss, e) {
      forall x | InFiles(outs, x) && x.key.user == e.key.user
        ensures x.key.sequence > e.key.sequence
      {
        JoinedFilesMembers(outs, x);
        var j :| 0 <= j < |all| && all[j] == x && !Dropped(st.levels, level, all, ss, j);
        LaterIsDropped(st.levels, level, all, ss, i, j);
        InputEarlier(st, level, in0, in1, all, j, i);
      }
    } else {
      if i > 0 && all[i - 1].key.user == e.key.user { InputEarlier(st, level, in0, in1, all, i - 1, i); }
      assert !Dropped(st.levels, level, all, ss, i) by {
        if i > 0 && all[i - 1].key.user == e.key.user { InputHeld(st, level, in0, in1, all, i - 1); }
      }
      JoinedFilesMembers(outs, e);
    }
  }

  lemma InputHeld(st: State, level: nat, in0: seq<File>, in1: seq<File>, all: seq<Entry>, i: nat)
    requires LegalInputs(st.levels, level, in0, in1) && i < |all|
    requires forall e :: e in all <==> InFiles(in0, e) || InFiles(in1, e)
    ensures Held(st, all[i])
  {
    assert all[i] in all;
    InputsHeld(st, level, in0, in1, all[i]);
  }

  /** Of one key, what comes earlier in the merged input is strictly newer. */
  lemma InputEarlier(st: State, level: nat, in0: seq<File>, in1: seq<File>, all: seq<Entry>, i: nat, j: nat)
    requires Shape(st) && LegalInputs(st.levels, level, in0, in1) && i <= |all| && i < j < |all| && Sorted(all)
    requires forall e :: e in all <==> InFiles(in0, e) || InFiles(in1, e)
    requires all[i].key.user == all[j].key.user
    ensures all[i].key.sequence > all[j].key.sequence
  {
    InputHeld(st, level, in0, in1, all, i);
    InputHeld(st, level, in0, in1, all, j);
    if all[i].key.sequence == all[j].key.sequence { HeldOnce(st, all[i], all[j]); }
  }

  lemma StepSinks(st: State, st': State, step: Step)
    requires Inv(st) && Takes(st, st', step) && (step.Move? || step.Compact?)
    ensures Sinks(st.levels, st'.levels, step.level, Upper(step), Lower(step), Written(step)) && Fates(st, step)
    ensures st'.mem == st.mem && st'.imm == st.imm
  {
    if step.Move? { MoveSinks(st, st', step); } else { CompactSinks(st, st', step); }
  }

  /** A read at s finds an entry that the step takes away from above older ones, or drops although
      it hides older ones. */
  ghost predicate Disturbs(st: State, step: Step, k: UserKey, s: nat)
    requires (step.Move? || step.Compact?) && step.level + 1 < |st.levels|
  {
    Search(st, k, s).Some? &&
    Uncovers(st.levels, step.level, Upper(step), Lower(step), SmallestSnapshot(st), Search(st, k, s).value)
  }

  /** After the step the read finds an older entry of the key than before. */
  ghost predicate ReadsOlder(st: State, st': State, k: UserKey, s: nat) {
    Search(st, k, s).Some? && Overwritten(Search(st, k, s).value, Search(st', k, s))
  }

  lemma OnceInTree(st: State)
    requires Shape(st)
    ensures Once(st.levels)
  {
    forall x, y | Stored(st.levels, x) && Stored(st.levels, y) && x.key.sequence == y.key.sequence
      ensures x == y
    {
      HeldOnce(st, x, y);
    }
  }

  lemma NotInTable(st: State, l: nat, f: File, e: Entry)
    requires Shape(st) && l < NUM_LEVELS && f in st.levels[l] && (e in st.mem || e in Imm(st))
    ensures e !in f.entries
  {
    if e in f.entries { MemtablesAreNewer(st, l, f, e, e); }
  }

  /** What a memtable holds is in no file. */
  lemma NotInTables(st: State, level: nat, in0: seq<File>, in1: seq<File>, ss: nat, e: Entry)
    requires Shape(st) && LegalInputs(st.levels, level, in0, in1) && (e in st.mem || e in Imm(st))
    ensures !Uncovers(st.levels, level, in0, in1, ss, e)
  {
    forall f | f in in0 { NotInTable(st, level, f, e); }
    forall f | f in in1 { NotInTable(st, level + 1, f, e); }
  }

  /** Where a read ends: in a memtable, or in the tree after the memtables had nothing. */
  lemma {:induction false} SearchEnds(st: State, k: UserKey, s: nat, e: Entry)
    requires Shape(st) && Search(st, k, s) == Some(e)
    ensures e in st.mem || e in Imm(st) || SearchLevels(st.levels, k, s, 0) == Some(e)
    ensures Newest(HeldIn(st), k, s, e)
  {
    SearchIsNewest(st, k, s);
  }

  lemma InputsNewest(st: State, step: Step, k: UserKey, s: nat, e: Entry)
    requires (step.Move? || step.Compact?) && Fates(st, step) && SmallestSnapshot(st) <= s && Newest(HeldIn(st), k, s, e)
    ensures InFiles(Upper(step), e) || InFiles(Lower(step), e) ==>
              Fate(st.levels, step.level, Written(step), step.Compact?, SmallestSnapshot(st), e)
  {
  }

  /** One read, exactly: whatever was legal to move or to merge, a read at or above the smallest
      snapshot finds an older entry than before if and only if the step disturbs it, and otherwise
      its answer stays. */
  lemma ReadsExactly(st: State, st': State, step: Step, k: UserKey, s: nat)
    requires Inv(st) && Takes(st, st', step) && (step.Move? || step.Compact?) && SmallestSnapshot(st) <= s
    ensures ReadsOlder(st, st', k, s) <==> Disturbs(st, step, k, s)
    ensures !Disturbs(st, step, k, s) ==> Answer(st', k, s) == Answer(st, k, s)
  {
    var level, in0, in1, outs := step.level, Upper(step), Lower(step), Written(step);
    var ss := SmallestSnapshot(st);
    StepSinks(st, st', step);
    OnceInTree(st);
    if Search(st, k, s).Some? {
      var e := Search(st, k, s).value;
      SearchEnds(st, k, s, e);
      if e in st.mem || e in Imm(st) {
        NotInTables(st, level, in0, in1, ss, e);
        MemtablesFirst(st, st', k, s, e);
      } else {
        InputsNewest(st, step, k, s, e);
        TreeReadAfter(st.levels, st'.levels, level, in0, in1, outs, step.Compact?, ss, k, s, e);
        TreeLast(st, st', k, s, e);
      }
    } else {
      TreeLacksAfter(st.levels, st'.levels, level, in0, in1, outs, k, s);
    }
  }

  lemma MemtablesFirst(st: State, st': State, k: UserKey, s: nat, e: Entry)
    requires Shape(st) && st'.mem == st.mem && st'.imm == st.imm
    requires Search(st, k, s) == Some(e) && (e in st.mem || e in Imm(st))
    ensures Search(st', k, s) == Some(e)
  {
    SearchIsNewest(st, k, s);
    SearchRunIsNewest(st.mem, k, s);
    SearchRunIsNewest(Imm(st), k, s);
  }

  lemma {:induction false} TreeLast(st: State, st': State, k: UserKey, s: nat, e: Entry)
    requires Shape(st) && st'.mem == st.mem && st'.imm == st.imm
    requires Search(st, k, s) == Some(e) && e !in st.mem && e !in Imm(st)
    ensures Search(st', k, s) == SearchLevels(st'.levels, k, s, 0)
  {
  }

  // When a step disturbs some read, told from the state before it.

  /** The smallest snapshot already sees, outside f, something newer of the key f ends with than
      all f has of it. */
  ghost predicate Hidden(st: State, ss: nat, f: File) {
    exists x :: Held(st, x) && x.key.user == f.largest.user && x.key.sequence <= ss &&
      forall y :: y in f.entries && y.key.user == x.key.user ==> y.key.sequence < x.key.sequence
  }

  /** The smallest snapshot reads a deletion of the key f ends with, from f, that may be dropped. */
  ghost predicate ReadsDeletion(st: State, level: nat, ss: nat, f: File) {
    var r := Search(st, f.largest.user, ss);
    r.Some? && r.value in f.entries && Removable(st.levels, level, ss, r.value)
  }

  /** Whenever a file left behind goes on with the key an input ends with, nobody can read that
      key from the input any more; in the lower level, nobody can read a deletion to be dropped. */
  ghost predicate Harmless(st: State, step: Step)
    requires (step.Move? || step.Compact?) && step.level + 1 < |st.levels|
  {
    var ss, upper, lower := SmallestSnapshot(st), st.levels[step.level], st.levels[step.level + 1];
    && (forall f, g :: f in Upper(step) && g in upper && g !in Upper(step) && Continues(f, g) ==> Hidden(st, ss, f))
    && (forall f, g :: f in Lower(step) && g in lower && g !in Lower(step) && Continues(f, g) ==> !ReadsDeletion(st, step.level, ss, f))
  }

  /** The snapshot at which an input that is not hidden is read. */
  lemma Shown(st: State, f: File, l: nat, ss: nat) returns (s: nat)
    requires Shape(st) && l < NUM_LEVELS && f in st.levels[l] && !Hidden(st, ss, f)
    ensures ss <= s && Search(st, f.largest.user, s).Some? && Search(st, f.largest.user, s).value in f.entries
  {
    var k := f.largest.user;
    assert GoodFiles(st.levels[l]);
    var last := f.entries[|f.entries| - 1];
    assert last in f.entries;
    SearchRunIsNewest(f.entries, k, MAX_SEQUENCE);
    var y := SearchRun(f.entries, k, MAX_SEQUENCE).value;
    s := if ss <= y.key.sequence then y.key.sequence else ss;
    assert Held(st, y);
    SearchIsNewest(st, k, s);
    var x := Search(st, k, s).value;
    NewestShown(st, f, ss, s, x, y);
  }

  lemma NewestShown(st: State, f: File, ss: nat, s: nat, x: Entry, y: Entry)
    requires Shape(st) && !Hidden(st, ss, f) && Newest(HeldIn(st), f.largest.user, s, x)
    requires y in f.entries && Held(st, y) && y.key.user == f.largest.user && y.key.sequence <= s && (s == ss || s == y.key.sequence)
    requires forall z :: z in f.entries && z.key.user == y.key.user ==> z.key.sequence <= y.key.sequence
    ensures x == y
  {
    assert x.key.sequence >= y.key.sequence;
    if x.key.sequence > y.key.sequence {
      assert Hidden(st, ss, f);
    } else {
      HeldOnce(st, x, y);
    }
  }

  lemma HiddenIsUnread(st: State, f: File, ss: nat, k: UserKey, s: nat, e: Entry)
    requires Hidden(st, ss, f) && ss <= s && Newest(HeldIn(st), k, s, e) && k == f.largest.user
    ensures e !in f.entries
  {
    var x :| Held(st, x) && x.key.user == k && x.key.sequence <= ss &&
      forall y :: y in f.entries && y.key.user == k ==> y.key.sequence < x.key.sequence;
    assert x in HeldIn(st);
  }

  lemma HiddenNotCutOff(st: State, files: seq<File>, taken: seq<File>, ss: nat, k: UserKey, s: nat, e: Entry)
    requires ss <= s && Newest(HeldIn(st), k, s, e)
    requires forall f, g :: f in taken && g in files && g !in taken && Continues(f, g) ==> Hidden(st, ss, f)
    ensures !CutOff(files, taken, e)
  {
    forall f, g | f in taken && g in files && g !in taken && Continues(f, g) && f.largest.user == k
      ensures e !in f.entries
    {
      HiddenIsUnread(st, f, ss, k, s, e);
    }
  }

  lemma UnreadNotCutOff(st: State, level: nat, files: seq<File>, taken: seq<File>, ss: nat, k: UserKey, s: nat,
                        e: Entry)
    requires Shape(st) && ss <= s && Newest(HeldIn(st), k, s, e) && Removable(st.levels, level, ss, e)
    requires forall f, g :: f in taken && g in files && g !in taken && Continues(f, g) ==> !ReadsDeletion(st, level, ss, f)
    ensures !CutOff(files, taken, e)
  {
    SameRead(st, k, s, ss, e);
    forall f, g | f in taken && g in files && g !in taken && Continues(f, g) && f.largest.user == k
      ensures e !in f.entries
    {
      assert !ReadsDeletion(st, level, ss, f);
    }
  }

  lemma HarmlessDisturbsNothing(st: State, step: Step, k: UserKey, s: nat)
    requires Inv(st) && (step.Move? || step.Compact?) && step.level + 1 < NUM_LEVELS && SmallestSnapshot(st) <= s
    requires Harmless(st, step)
    ensures !Disturbs(st, step, k, s)
  {
    var ss := SmallestSnapshot(st);
    if Search(st, k, s).Some? {
      var e := Search(st, k, s).value;
      SearchIsNewest(st, k, s);
      HiddenNotCutOff(st, st.levels[step.level], Upper(step), ss, k, s, e);
      if Removable(st.levels, step.level, ss, e) {
        UnreadNotCutOff(st, step.level, st.levels[step.level + 1], Lower(step), ss, k, s, e);
      }
    }
  }

  /** What a read finds that an earlier snapshot sees, that snapshot finds too. */
  lemma SameRead(st: State, k: UserKey, s: nat, ss: nat, e: Entry)
    requires Shape(st) && ss <= s && Newest(HeldIn(st), k, s, e) && e.key.sequence <= ss
    ensures Search(st, k, ss) == Some(e)
  {
    SearchIsNewest(st, k, ss);
    HeldOnce(st, e, Search(st, k, ss).value);
  }

  lemma HarmfulDisturbs(st: State, step: Step) returns (k: UserKey, s: nat)
    requires Inv(st) && (step.Move? || step.Compact?) && LegalInputs(st.levels, step.level, Upper(step), Lower(step))
    requires !Harmless(st, step)
    ensures SmallestSnapshot(st) <= s && Disturbs(st, step, k, s)
  {
    var ss, upper, lower := SmallestSnapshot(st), st.levels[step.level], st.levels[step.level + 1];
    if f, g :| f in Upper(step) && g in upper && g !in Upper(step) && Continues(f, g) && !Hidden(st, ss, f) {
      k := f.largest.user;
      s := Shown(st, f, step.level, ss);
      SearchIsNewest(st, k, s);
      assert CutOff(upper, Upper(step), Search(st, k, s).value);
    } else {
      var f, g :| f in Lower(step) && g in lower && g !in Lower(step) && Continues(f, g) && ReadsDeletion(st, step.level, ss, f);
      k, s := f.largest.user, ss;
      SearchIsNewest(st, k, s);
      assert CutOff(lower, Lower(step), Search(st, k, s).value);
    }
  }

  /** A move or a compaction leaves every read at or above the smallest snapshot as it was if and
      only if it was harmless: which can be told before it is taken. */
  lemma StepKeepsReadsExactly(st: State, st': State, step: Step)
    requires Inv(st) && Takes(st, st', step) && (step.Move? || step.Compact?)
    ensures (forall k, s :: SmallestSnapshot(st) <= s ==> !ReadsOlder(st, st', k, s)) <==> Harmless(st, step)
    ensures Harmless(st, step) ==> forall k, s :: SmallestSnapshot(st) <= s ==> Answer(st', k, s) == Answer(st, k, s)
  {
    StepSinks(st, st', step);
    if Harmless(st, step) {
      forall k, s | SmallestSnapshot(st) <= s
        ensures !ReadsOlder(st, st', k, s) && Answer(st', k, s) == Answer(st, k, s)
      {
        ReadsExactly(st, st', step, k, s);
        HarmlessDisturbsNothing(st, step, k, s);
      }
    } else {
      var k, s := HarmfulDisturbs(st, step);
      ReadsExactly(st, st', step, k, s);
    }
  }

  /** What the runs of `StoreRuns` ask of a step makes it harmless. */
  lemma SafeIsHarmless(st: State, st': State, step: Step)
    requires Inv(st) && Takes(st, st', step) && (step.Move? || step.Compact?) && Safe(st, step)
    ensures Harmless(st, step)
  {
    StepSinks(st, st', step);
    var level, ss := step.level, SmallestSnapshot(st);
    if level == 0 { ApartUnshared(st.levels[0], Upper(step)); }
    assert Unshared(st.levels[level], Upper(step));
    ReadsNoDeletion(st, level, Upper(step), Lower(step), ss);
  }

  lemma ReadsNoDeletion(st: State, level: nat, in0: seq<File>, in1: seq<File>, ss: nat)
    requires Shape(st) && level + 1 < NUM_LEVELS && Guarded(st.levels, level, in0, in1, ss)
    ensures forall f, g :: f in in1 && g in st.levels[level + 1] && g !in in1 && Continues(f, g) ==> !ReadsDeletion(st, level, ss, f)
  {
    forall f, g | f in in1 && g in st.levels[level + 1] && g !in in1 && Continues(f, g)
      ensures !ReadsDeletion(st, level, ss, f)
    {
      SearchIsNewest(st, f.largest.user, ss);
      assert !EndsRemovable(st.levels, level, ss, f);
    }
  }

  // The answers themselves, when no update of a key says what an earlier one said.

  function Effect(op: Op): Option<Bytes> {
    if op.kind == Put then Some(op.value) else None
  }

  ghost predicate Telling(log: seq<Op>) {
    forall i, j :: 0 <= i < j < |log| && log[i].user == log[j].user ==> Effect(log[i]) != Effect(log[j])
  }

  lemma OlderAnswers(st: State, st': State, k: UserKey, s: nat)
    requires Shape(st) && Telling(st.log) && ReadsOlder(st, st', k, s)
    requires Search(st', k, s).Some? ==> Held(st, Search(st', k, s).value)
    ensures Answer(st', k, s) != Answer(st, k, s)
  {
    SearchIsNewest(st, k, s);
    var e, x := Search(st, k, s).value, Search(st', k, s).value;
    assert Logged(st.log, e) && Logged(st.log, x);
    assert Answer(st, k, s) == Effect(st.log[e.key.sequence - 1]);
    assert Answer(st', k, s) == Effect(st.log[x.key.sequence - 1]);
  }

  lemma NowHeld(st: State, st': State, step: Step, k: UserKey, s: nat)
    requires Inv(st) && Takes(st, st', step) && (step.Move? || step.Compact?) && ReadsOlder(st, st', k, s)
    ensures Held(st, Search(st', k, s).value)
  {
    StepSinks(st, st', step);
    var x := Search(st', k, s).value;
    if x !in st.mem && x !in Imm(st) {
      FoundIsStored(st, st', k, s, x);
      var m := WhereFound(st'.levels, k, s, 0, x);
      var f :| f in st'.levels[m] && x in f.entries;
      ComesFromTree(st.levels, st'.levels, step.level, Upper(step), Lower(step), Written(step), m, f, x);
    }
  }

  lemma {:induction false} FoundIsStored(st: State, st': State, k: UserKey, s: nat, x: Entry)
    requires st'.mem == st.mem && st'.imm == st.imm && Search(st', k, s) == Some(x) && x !in st.mem && x !in Imm(st)
    ensures SearchLevels(st'.levels, k, s, 0) == Some(x)
  {
  }

  /** Told by the answers alone: with updates that can be told apart, every answer at or above the
      smallest snapshot stays if and only if the step was harmless. */
  lemma AnswersStayExactly(st: State, st': State, step: Step)
    requires Inv(st) && Takes(st, st', step) && (step.Move? || step.Compact?) && Telling(st.log)
    ensures (forall k, s :: SmallestSnapshot(st) <= s ==> Answer(st', k, s) == Answer(st, k, s)) <==> Harmless(st, step)
  {
    StepKeepsReadsExactly(st, st', step);
    if k, s :| SmallestSnapshot(st) <= s && ReadsOlder(st, st', k, s) {
      NowHeld(st, st', step, k, s);
      OlderAnswers(st, st', k, s);
    }
  }
}
