/** Choosing what a compaction reads, and installing what it wrote. */
module Picker {
  import opened Format
  import opened Versions
  import opened StoreSpec
  import opened StoreProofs
  import opened LevelMerges

  /** The smallest range of internal keys that covers the files. */
  method GetRange(inputs: seq<File>) returns (smallest: IKey, largest: IKey)
    requires inputs != []
    ensures forall f :: f in inputs ==> !Less(f.smallest, smallest) && !Less(largest, f.largest)
    ensures (exists f :: f in inputs && smallest == f.smallest) && (exists f :: f in inputs && largest == f.largest)
  {
    smallest, largest := inputs[0].smallest, inputs[0].largest;
    ghost var s, l := inputs[0], inputs[0];
    for i := 1 to |inputs|
      invariant s in inputs && s.smallest == smallest && l in inputs && l.largest == largest
      invariant forall j :: 0 <= j < i ==> !Less(inputs[j].smallest, smallest) && !Less(largest, inputs[j].largest)
    {
      if Less(inputs[i].smallest, smallest) {
        smallest := inputs[i].smallest;
        s := inputs[i];
      }
      if Less(largest, inputs[i].largest) {
        largest := inputs[i].largest;
        l := inputs[i];
      }
    }
  }

  /** What may be taken from a level: on level 0, files no file left behind meets. */
  ghost predicate Detached(level: nat, files: seq<File>, taken: seq<File>) {
    && taken != [] && Listed(taken)
    && (forall f :: f in taken ==> f in files)
    && (level == 0 ==> forall f, g :: f in taken && g in files && g !in taken ==> Apart(f, g))
  }

  /** Files collected over a range are detached, on level 0 by the widened range. */
  lemma {:induction false} CollectedIsDetached(levels: Levels, level: nat, low: Option<UserKey>, high: Option<UserKey>)
    requires Formed(levels) && level < NUM_LEVELS
    requires level == 0 ==> Closed(levels[0], low, high)
    requires Meeting(levels[level], low, high) != []
    ensures Detached(level, levels[level], Meeting(levels[level], low, high))
  {
    MeetingListed(levels[level], low, high);
  }

  lemma InputsAreLegal(levels: Levels, level: nat, in0: seq<File>, lo: UserKey, hi: UserKey)
    requires Formed(levels) && level + 1 < NUM_LEVELS
    requires Detached(level, levels[level], in0) && Spans(in0, lo, hi)
    ensures LegalInputs(levels, level, in0, Meeting(levels[level + 1], Some(lo), Some(hi)))
  {
    MeetingListed(levels[level + 1], Some(lo), Some(hi));
    assert MeetingInputs(levels[level + 1], in0, Meeting(levels[level + 1], Some(lo), Some(hi)), lo, hi);
  }

  /** The user range of some files, no wider than they are. */
  ghost predicate RangeOf(files: seq<File>, lo: UserKey, hi: UserKey) {
    && Spans(files, lo, hi)
    && (exists f :: f in files && f.smallest.user == lo) && (exists f :: f in files && f.largest.user == hi)
  }

  /** n files of the next level meet the range of some files. */
  ghost predicate MeetBelow(levels: Levels, level: nat, files: seq<File>, n: nat)
    requires level + 1 < |levels|
  {
    forall lo, hi :: RangeOf(files, lo, hi) ==> |Meeting(levels[level + 1], Some(lo), Some(hi))| == n
  }

  lemma MeetBelowIs(levels: Levels, level: nat, files: seq<File>, lo: UserKey, hi: UserKey)
    requires level + 1 < |levels| && RangeOf(files, lo, hi)
    ensures MeetBelow(levels, level, files, |Meeting(levels[level + 1], Some(lo), Some(hi))|)
  {
    assert forall lo', hi' :: RangeOf(files, lo', hi') ==> lo' == lo && hi' == hi;
  }

  /** The files of the next level that meet the inputs. */
  method CollectBelow(levels: Levels, level: nat, inputs0: seq<File>) returns (inputs1: seq<File>)
    requires Formed(levels) && level + 1 < NUM_LEVELS && Detached(level, levels[level], inputs0)
    ensures LegalInputs(levels, level, inputs0, inputs1) && MeetBelow(levels, level, inputs0, |inputs1|)
  {
    var smallest, largest := GetRange(inputs0);
    var low, high;
    inputs1, low, high := GetOverlappingInputs(level + 1, levels[level + 1], Some(smallest.user), Some(largest.user));
    assert RangeOf(inputs0, smallest.user, largest.user);
    MeetBelowIs(levels, level, inputs0, smallest.user, largest.user);
    InputsAreLegal(levels, level, inputs0, smallest.user, largest.user);
  }

  /** The files of the level that meet all inputs, those it began with among them. */
  method CollectAgain(levels: Levels, level: nat, inputs0: seq<File>, inputs1: seq<File>) returns (expanded0: seq<File>)
    requires Formed(levels) && level + 1 < NUM_LEVELS && Detached(level, levels[level], inputs0)
    ensures Detached(level, levels[level], expanded0) && forall f :: f in inputs0 ==> f in expanded0
  {
    var allStart, allLimit := GetRange(inputs0 + inputs1);
    var low, high;
    expanded0, low, high := GetOverlappingInputs(level, levels[level], Some(allStart.user), Some(allLimit.user));
    forall f | f in inputs0
      ensures f in expanded0
    {
      assert f in inputs0 + inputs1 && GoodFiles(levels[level]);
      EntryInRange(f, f.entries[0]);
    }
    assert inputs0[0] in expanded0;
    CollectedIsDetached(levels, level, low, high);
  }

  /** The files two levels down that meet all inputs. */
  ghost predicate Grandparents(levels: Levels, level: nat, inputs: seq<File>, grandparents: seq<File>) {
    if level + 2 < |levels|
    then exists lo, hi :: RangeOf(inputs, lo, hi) && grandparents == Meeting(levels[level + 2], Some(lo), Some(hi))
    else grandparents == []
  }

  /** Adds the next level's files that meet the inputs, then tries to take more of this level
      without needing more of the next: as many as the files it began with need. */
  method SetupOtherInputs(levels: Levels, level: nat, in0: seq<File>)
    returns (inputs0: seq<File>, inputs1: seq<File>, grandparents: seq<File>)
    requires Formed(levels) && level + 1 < NUM_LEVELS && Detached(level, levels[level], in0)
    ensures LegalInputs(levels, level, inputs0, inputs1) && inputs0 != []
    ensures (forall f :: f in in0 ==> f in inputs0) && MeetBelow(levels, level, in0, |inputs1|)
    ensures inputs1 == [] ==> inputs0 == in0
    ensures Grandparents(levels, level, inputs0 + inputs1, grandparents)
  {
    inputs0 := in0;
    inputs1 := CollectBelow(levels, level, in0);
    if inputs1 != [] {
      var expanded0 := CollectAgain(levels, level, inputs0, inputs1);
      if |expanded0| > |inputs0| &&
         TotalFileSize(inputs1) + TotalFileSize(expanded0) < EXPANDED_COMPACTION_LIMIT
      {
        var expanded1 := CollectBelow(levels, level, expanded0);
        if |expanded1| == |inputs1| {
          inputs0, inputs1 := expanded0, expanded1;
        }
      }
    }
    grandparents := [];
    if level + 2 < NUM_LEVELS {
      var allStart, allLimit := GetRange(inputs0 + inputs1);
      var low, high;
      grandparents, low, high := GetOverlappingInputs(level + 2, levels[level + 2], Some(allStart.user), Some(allLimit.user));
      assert RangeOf(inputs0 + inputs1, allStart.user, allLimit.user);
    }
  }

  /** The inputs of an automatic compaction that starts from file `f`. */
  method PickCompaction(levels: Levels, level: nat, f: File)
    returns (inputs0: seq<File>, inputs1: seq<File>, grandparents: seq<File>)
    requires Formed(levels) && level + 1 < NUM_LEVELS && f in levels[level]
    ensures LegalInputs(levels, level, inputs0, inputs1) && f in inputs0
    ensures level > 0 && inputs1 == [] ==> inputs0 == [f]
    ensures Grandparents(levels, level, inputs0 + inputs1, grandparents)
  {
    var in0 := [f];
    assert GoodFiles(levels[level]);
    EntryInRange(f, f.entries[0]);
    if level == 0 {
      var smallest, largest := GetRange(in0);
      var low, high;
      in0, low, high := GetOverlappingInputs(0, levels[0], Some(smallest.user), Some(largest.user));
      assert f in Meeting(levels[0], low, high);
      CollectedIsDetached(levels, 0, low, high);
    }
    inputs0, inputs1, grandparents := SetupOtherInputs(levels, level, in0);
  }

  /** The files at the front of a list that together reach the limit, or all of them. */
  function FrontCut(files: seq<File>, limit: int): (r: seq<File>)
    ensures r <= files && (files != [] ==> r != [])
    ensures r != files ==> TotalFileSize(r) >= limit
    ensures limit > 0 && r != [] ==> TotalFileSize(r[..|r| - 1]) < limit
  {
    if files == [] then []
    else if files[0].size >= limit then [files[0]]
    else
      var rest := FrontCut(files[1..], limit - files[0].size);
      var r := [files[0]] + rest;
      assert r[1..] == rest;
      assert rest != [] ==> r[..|r| - 1] == [files[0]] + rest[..|rest| - 1];
      r
  }

  lemma {:induction false} CutStep(files: seq<File>, i: nat, limit: int)
    requires i < |files|
    ensures files[..i] + FrontCut(files[i..], limit)
         == files[..i + 1] + if files[i].size >= limit then [] else FrontCut(files[i + 1..], limit - files[i].size)
  {
    FirstCut(files[i..], files[i], files[i + 1..], limit);
    OneFurther(files, i, if files[i].size >= limit then [] else FrontCut(files[i + 1..], limit - files[i].size));
  }

  lemma FirstCut(files: seq<File>, f: File, rest: seq<File>, limit: int)
    requires files == [f] + rest
    ensures FrontCut(files, limit) == [f] + if f.size >= limit then [] else FrontCut(rest, limit - f.size)
  {
    assert files[1..] == rest;
  }

  lemma OneFurther(files: seq<File>, i: nat, rest: seq<File>)
    requires i < |files|
    ensures files[..i] + ([files[i]] + rest) == files[..i + 1] + rest
  {
    assert files[..i + 1] == files[..i] + [files[i]];
  }

  /** Not too much of a level at once: drops what lies behind the files that reach the limit. */
  method CutInputs(inputs: seq<File>) returns (taken: seq<File>)
    ensures taken == FrontCut(inputs, TARGET_FILE_SIZE)
  {
    var limit, total, i := TARGET_FILE_SIZE, 0, 0;
    while i < |inputs|
      invariant 0 <= i <= |inputs| && total < limit
      invariant FrontCut(inputs, limit) == inputs[..i] + FrontCut(inputs[i..], limit - total)
    {
      CutStep(inputs, i, limit - total);
      total := total + inputs[i].size;
      if total >= limit {
        return inputs[..i + 1];
      }
      i := i + 1;
    }
    taken := inputs;
  }

  /** The inputs of a manual compaction of [begin, end]; none when nothing meets the range.  On
      level 0 every file that meets it is among them, further down the front ones up to the limit. */
  ghost predicate ManualInputs(levels: Levels, level: nat, begin: Option<UserKey>, end: Option<UserKey>,
                               inputs0: seq<File>, inputs1: seq<File>)
    requires level + 1 < |levels|
  {
    && (inputs0 == [] <==> forall f :: f in levels[level] ==> !Meets(f, begin, end))
    && (inputs0 != [] ==> LegalInputs(levels, level, inputs0, inputs1))
    && (level == 0 ==> forall f :: f in levels[0] && Meets(f, begin, end) ==> f in inputs0)
    && (level > 0 && inputs0 != [] ==>
          var front := FrontCut(Meeting(levels[level], begin, end), TARGET_FILE_SIZE);
          (forall f :: f in front ==> f in inputs0) && (inputs1 == [] ==> inputs0 == front))
  }

  method CompactRange(levels: Levels, level: nat, begin: Option<UserKey>, end: Option<UserKey>)
    returns (inputs0: seq<File>, inputs1: seq<File>)
    requires Formed(levels) && level + 1 < NUM_LEVELS
    ensures ManualInputs(levels, level, begin, end, inputs0, inputs1)
  {
    var inputs, low, high := GetOverlappingInputs(level, levels[level], begin, end);
    if inputs == [] {
      assert forall f :: Meets(f, begin, end) ==> Meets(f, low, high);
      return [], [];
    }
    CollectedIsDetached(levels, level, low, high);
    NoneWithout(levels[level], begin, end, low, high);
    if level > 0 {
      inputs := CutInputs(inputs);
    }
    var grandparents;
    inputs0, inputs1, grandparents := SetupOtherInputs(levels, level, inputs);
  }

  /** The widest range no file crosses keeps out what does not meet the request. */
  lemma {:induction false} NoneWithout(files: seq<File>, begin: Option<UserKey>, end: Option<UserKey>,
                                       low: Option<UserKey>, high: Option<UserKey>)
    requires Widens(begin, end, low, high) && Least(files, begin, end, low, high) && Meeting(files, low, high) != []
    ensures exists f :: f in files && Meets(f, begin, end)
  {
    var f := Meeting(files, low, high)[0];
    assert f in Meeting(files, low, high);
    if Closed(files, begin, end) {
      assert Widens(begin, end, begin, end);
      assert Widens(low, high, begin, end) && Meets(f, begin, end);
    }
  }

  predicate IsTrivialMove(inputs0: seq<File>, inputs1: seq<File>, grandparents: seq<File>) {
    |inputs0| == 1 && |inputs1| == 0 && TotalFileSize(grandparents) <= MAX_GRANDPARENT_OVERLAP
  }

  lemma FilesAreOrdered()
    ensures IsFileOrder(FileBefore)
  {
  }

  lemma {:induction false} ListedOnce(files: seq<File>, f: File)
    requires Listed(files)
    ensures multiset(files)[f] <= 1
  {
    if f in files {
      var i :| 0 <= i < |files| && files[i] == f;
      assert files == files[..i] + [f] + files[i + 1..];
    }
  }

  /** No file comes twice, so the merge lists them strictly in order. */
  lemma {:induction false} MergeIsListed(base: seq<File>, deleted: set<nat>, added: seq<File>, out: seq<File>)
    requires Listed(base) && Listed(added) && forall f, g :: f in base && g in added ==> f.number != g.number
    requires IsMergeOf(FileBefore, (f: File) => f.number, base, deleted, added, out)
    ensures Listed(out)
    ensures forall f :: f in out <==> (f in base || f in added) && f.number !in deleted
  {
    forall f
      ensures f in out <==> (f in base || f in added) && f.number !in deleted
      ensures multiset(out)[f] <= 1
    {
      ListedOnce(base, f);
      ListedOnce(added, f);
      assert f in out <==> multiset(out)[f] > 0;
    }
    forall i, j | 0 <= i < j < |out|
      ensures FileBefore(out[i], out[j])
    {
      if out[i] == out[j] { TwoPlaces(out, i, j); }
      assert out[i] in out && out[j] in out;
      PlacesDiffer(base, added, out[i], out[j]);
    }
  }

  lemma PlacesDiffer(base: seq<File>, added: seq<File>, f: File, g: File)
    requires Listed(base) && Listed(added) && forall f, g :: f in base && g in added ==> f.number != g.number
    requires (f in base || f in added) && (g in base || g in added) && f != g
    ensures FileBefore(f, g) || FileBefore(g, f)
  {
  }

  /** One level of the new version: the base files and the added ones merged in order, without
      those whose number was deleted. */
  method SaveLevel(base: seq<File>, deleted: set<nat>, added: seq<File>) returns (out: seq<File>)
    requires Listed(base) && Listed(added)
    requires forall f, g :: f in base && g in added ==> f.number != g.number
    ensures Listed(out)
    ensures forall f :: f in out <==> (f in base || f in added) && f.number !in deleted
  {
    FilesAreOrdered();
    out := MergeLevel(FileBefore, (f: File) => f.number, base, deleted, added);
    MergeIsListed(base, deleted, added, out);
  }
}
