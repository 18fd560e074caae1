/** Recovery of the set of files: the edits in the MANIFEST, replayed through one builder. */
module Manifests {
  import opened Format
  import opened Coding
  import opened Blocks
  import opened LogFile
  import opened LogCrash
  import opened VersionEdits
  import opened LevelMerges

  /** The files of each level, as sets; a version lists each level by smallest key and number. */
  type Level = set<Meta>

  type Tree = ls: seq<Level> | |ls| == NUM_LEVELS witness seq(NUM_LEVELS, i => {})

  /** What a builder has gathered for one level. */
  datatype LevelState = LevelState(deleted: set<nat>, added: Level)

  type Gathered = ls: seq<LevelState> | |ls| == NUM_LEVELS witness seq(NUM_LEVELS, i => LevelState({}, {}))

  datatype Builder = Builder(levels: Gathered, pointers: seq<Bytes>)

  function Fresh(pointers: seq<Bytes>): Builder {
    Builder(seq(NUM_LEVELS, i => LevelState({}, {})), pointers)
  }

  /** The numbers an edit deletes, and the files it adds, on one level. */
  function DeletedOn(e: Edit, level: nat): set<nat> {
    set d | d in e.deletedFiles && d.0 == level :: d.1
  }

  function AddedOn(e: Edit, level: nat): Level {
    set f | f in e.newFiles && f.0 == level :: f.1
  }

  function Numbers(files: Level): set<nat> {
    set f | f in files :: f.number
  }

  /** What one edit does to what has been gathered for a level: deletions first, then additions,
      each of which takes back a deletion of its number. */
  function ApplyOn(s: LevelState, e: Edit, level: nat): LevelState {
    LevelState(s.deleted + DeletedOn(e, level) - Numbers(AddedOn(e, level)), s.added + AddedOn(e, level))
  }

  function PointersAfter(pointers: seq<Bytes>, ps: seq<(nat, Bytes)>): seq<Bytes> {
    if ps == [] then pointers
    else
      var before := PointersAfter(pointers, ps[..|ps| - 1]);
      var p := ps[|ps| - 1];
      if p.0 < |before| then before[p.0 := p.1] else before
  }

  function Apply(b: Builder, e: Edit): Builder {
    Builder(seq(NUM_LEVELS, l requires 0 <= l < NUM_LEVELS => ApplyOn(b.levels[l], e, l)),
            PointersAfter(b.pointers, e.compactPointers))
  }

  /** The version a builder makes of a base version. */
  function SaveTo(base: Tree, b: Builder): Tree {
    seq(NUM_LEVELS, l requires 0 <= l < NUM_LEVELS => Saved(base[l], b.levels[l]))
  }

  function Saved(base: Level, s: LevelState): Level {
    set f | f in base + s.added && f.number !in s.deleted
  }

  function AddedAmong(fs: seq<(nat, Meta)>, level: nat): Level {
    set f | f in fs && f.0 == level :: f.1
  }

  lemma AddedSnoc(fs: seq<(nat, Meta)>, f: (nat, Meta), level: nat)
    ensures AddedAmong(fs + [f], level) == AddedAmong(fs, level) + if f.0 == level then {f.1} else {}
    ensures Numbers(AddedAmong(fs + [f], level)) == Numbers(AddedAmong(fs, level)) + if f.0 == level then {f.1.number} else {}
  {
    var more := AddedAmong(fs + [f], level);
    assert f in fs + [f];
    assert forall x :: x in fs ==> x in fs + [f];
    assert forall x :: x in fs + [f] ==> x in fs || x == f;
    assert more == AddedAmong(fs, level) + if f.0 == level then {f.1} else {};
    assert f.0 == level ==> f.1 in more;
  }

  /** Applying every edit to the version that the edits before it made. */
  function Stepwise(edits: seq<Edit>): Tree {
    if edits == [] then seq(NUM_LEVELS, l => {})
    else SaveTo(Stepwise(edits[..|edits| - 1]), Apply(Fresh([]), edits[|edits| - 1]))
  }

  /** Gathering every edit in one builder. */
  function AtOnce(edits: seq<Edit>, pointers: seq<Bytes>): Builder {
    if edits == [] then Fresh(pointers) else Apply(AtOnce(edits[..|edits| - 1], pointers), edits[|edits| - 1])
  }

  /** A file number fixes what is known of the file, over all edits. */
  ghost predicate NumbersFixFiles(edits: seq<Edit>) {
    forall d, e, f, g :: d in edits && e in edits && f in d.newFiles && g in e.newFiles && f.1.number == g.1.number ==> f.1 == g.1
  }

  lemma {:induction false} AddedCameFromEdits(edits: seq<Edit>, pointers: seq<Bytes>, l: nat, f: Meta)
    requires l < NUM_LEVELS && f in AtOnce(edits, pointers).levels[l].added
    ensures exists e, g :: e in edits && g in e.newFiles && g.1 == f
  {
    var front, last := edits[..|edits| - 1], edits[|edits| - 1];
    if f in AddedOn(last, l) {
      assert last in edits;
    } else {
      AddedCameFromEdits(front, pointers, l, f);
      var e, g :| e in front && g in e.newFiles && g.1 == f;
      assert e in edits;
    }
  }

  /** What deleting and adding in one edit comes to, level by level. */
  lemma LevelStep(s: LevelState, level: Level, e: Edit, l: nat)
    requires level == Saved({}, s)
    requires forall f, g :: f in s.added && g in AddedOn(e, l) && f.number == g.number ==> f == g
    ensures Saved(level, ApplyOn(LevelState({}, {}), e, l)) == Saved({}, ApplyOn(s, e, l))
  {
    var joining := AddedOn(e, l);
    var one, all := ApplyOn(LevelState({}, {}), e, l), ApplyOn(s, e, l);
    forall f
      ensures f in Saved(level, one) <==> f in Saved({}, all)
    {
      if f in joining {
        assert f.number in Numbers(joining);
      } else if f in s.added {
        assert f.number in Numbers(joining) ==> f in joining;
      }
    }
  }

  /** One builder over all edits makes the version that the edits make one after another. */
  lemma {:induction false} AtOnceIsStepwise(edits: seq<Edit>, pointers: seq<Bytes>)
    requires NumbersFixFiles(edits)
    ensures SaveTo(seq(NUM_LEVELS, l => {}), AtOnce(edits, pointers)) == Stepwise(edits)
  {
    var none: Tree := seq(NUM_LEVELS, l => {});
    if edits == [] {
      assert forall l :: 0 <= l < NUM_LEVELS ==> SaveTo(none, AtOnce(edits, pointers))[l] == none[l];
    } else {
      var front, last := edits[..|edits| - 1], edits[|edits| - 1];
      assert forall e :: e in front ==> e in edits;
      AtOnceIsStepwise(front, pointers);
      var b := AtOnce(front, pointers);
      forall l | 0 <= l < NUM_LEVELS
        ensures SaveTo(none, AtOnce(edits, pointers))[l] == Stepwise(edits)[l]
      {
        forall f, g | f in b.levels[l].added && g in AddedOn(last, l) && f.number == g.number ensures f == g {
          AddedCameFromEdits(front, pointers, l, f);
          assert last in edits;
        }
        LevelStep(b.levels[l], Stepwise(front)[l], last, l);
      }
    }
  }

  /** The order in which a version lists the files of a level: by smallest key, then by number. */
  predicate Before(less: Comparator, f: Meta, g: Meta) {
    less(f.smallest, g.smallest) || (f.smallest == g.smallest && f.number < g.number)
  }

  /** f may be listed in front of g. */
  predicate NotAfter(less: Comparator, f: Meta, g: Meta) {
    !Before(less, g, f)
  }

  /** The list holds the files of the level, each once, in order. */
  ghost predicate Lists(less: Comparator, files: seq<Meta>, level: Level) {
    && (forall i, j :: 0 <= i < j < |files| ==> Before(less, files[i], files[j]))
    && (forall f :: f in files <==> f in level)
  }

  ghost predicate InOrder(less: Comparator, files: seq<Meta>) {
    forall i, j :: 0 <= i < j < |files| ==> NotAfter(less, files[i], files[j])
  }

  /** What `SaveTo` writes for one level: base files and added files merged in order, without
      those deleted; a file that is in both comes twice. */
  ghost predicate IsMerged(less: Comparator, base: seq<Meta>, s: LevelState, out: seq<Meta>) {
    && InOrder(less, out)
    && (forall f :: multiset(out)[f] ==
          if f.number in s.deleted then 0 else multiset(base)[f] + if f in s.added then 1 else 0)
  }

  ghost predicate NumbersFix(files: Level) {
    forall f, g :: f in files && g in files && f.number == g.number ==> f == g
  }

  lemma BeforeIsStrict(less: Comparator, f: Meta, g: Meta)
    requires IsOrder(less)
    ensures !(Before(less, f, g) && Before(less, g, f)) && !Before(less, f, f)
    ensures f.number != g.number ==> Before(less, f, g) || Before(less, g, f)
  {
    assert less(f.smallest, g.smallest) && less(g.smallest, f.smallest) ==> less(f.smallest, f.smallest);
    assert f.smallest == g.smallest || less(f.smallest, g.smallest) || less(g.smallest, f.smallest);
  }

  lemma {:induction false} ListedOnce(less: Comparator, files: seq<Meta>, level: Level, f: Meta)
    requires IsOrder(less) && Lists(less, files, level)
    ensures multiset(files)[f] == if f in level then 1 else 0
  {
    if f in files {
      var i :| 0 <= i < |files| && files[i] == f;
      assert files == files[..i] + [f] + files[i + 1..];
      forall j | 0 <= j < |files| && j != i ensures files[j] != f { BeforeIsStrict(less, f, f); }
    }
  }

  /** When nothing is added that the level already holds, the merged list is the level's list. */
  lemma MergedLists(less: Comparator, base: seq<Meta>, level: Level, s: LevelState, out: seq<Meta>)
    requires IsOrder(less) && Lists(less, base, level) && IsMerged(less, base, s, out)
    requires s.added !! level && NumbersFix(level + s.added)
    ensures Lists(less, out, Saved(level, s))
  {
    forall f
      ensures multiset(out)[f] == if f in Saved(level, s) then 1 else 0
      ensures f in out <==> f in Saved(level, s)
    {
      ListedOnce(less, base, level, f);
      assert f in out <==> multiset(out)[f] > 0;
    }
    forall i, j | 0 <= i < j < |out|
      ensures Before(less, out[i], out[j])
    {
      assert out[i] in out && out[j] in out;
      if out[i] == out[j] { TwoPlaces(out, i, j); }
      BeforeIsStrict(less, out[i], out[j]);
    }
  }

  /** It is so exactly then: a file added to a level that already holds it is listed twice. */
  lemma MergedListsExactly(less: Comparator, base: seq<Meta>, level: Level, s: LevelState, out: seq<Meta>)
    requires IsOrder(less) && Lists(less, base, level) && IsMerged(less, base, s, out) && NumbersFix(level + s.added)
    ensures Lists(less, out, Saved(level, s)) <==> forall f :: f in s.added && f in level ==> f.number in s.deleted
  {
    if f :| f in s.added && f in level && f.number !in s.deleted {
      ListedOnce(less, base, level, f);
      assert multiset(out)[f] == 2;
      if Lists(less, out, Saved(level, s)) {
        ListedOnce(less, out, Saved(level, s), f);
        assert false;
      }
    } else {
      var kept := LevelState(s.deleted, set f | f in s.added && f.number !in s.deleted);
      assert Saved(level, kept) == Saved(level, s);
      MergedLists(less, base, level, kept, out);
    }
  }

  lemma NotAfterChains(less: Comparator, f: Meta, g: Meta, h: Meta)
    requires IsOrder(less) && NotAfter(less, f, g) && NotAfter(less, g, h)
    ensures NotAfter(less, f, h)
  {
    if Before(less, h, f) {
      BeforeChains(less, f, g, h);
    }
  }

  lemma BeforeChains(less: Comparator, f: Meta, g: Meta, h: Meta)
    requires IsOrder(less) && Before(less, h, f)
    ensures Before(less, g, f) || Before(less, h, g)
  {
    assert f.smallest == g.smallest || less(f.smallest, g.smallest) || less(g.smallest, f.smallest);
    assert less(f.smallest, g.smallest) && less(h.smallest, f.smallest) ==> less(h.smallest, g.smallest);
  }

  lemma ListsInOrder(less: Comparator, files: seq<Meta>, level: Level)
    requires IsOrder(less) && Lists(less, files, level)
    ensures InOrder(less, files)
  {
    forall i, j | 0 <= i < j < |files| ensures NotAfter(less, files[i], files[j]) { BeforeIsStrict(less, files[i], files[j]); }
  }

  /** A level has one list only. */
  lemma {:induction false} OneList(less: Comparator, a: seq<Meta>, b: seq<Meta>, level: Level)
    requires IsOrder(less) && Lists(less, a, level) && Lists(less, b, level)
    ensures a == b
  {
    assert b != [] ==> b[0] in level;
    if a != [] {
      assert a[0] in level && a[0] in b;
      assert b[0] in level && b[0] in a;
      var i :| 0 <= i < |b| && b[i] == a[0];
      var j :| 0 <= j < |a| && a[j] == b[0];
      BeforeIsStrict(less, a[0], b[0]);
      BeforeIsStrict(less, a[0], a[0]);
      assert a[0] == b[0];
      ListsTail(less, a, level);
      ListsTail(less, b, level);
      OneList(less, a[1..], b[1..], level - {a[0]});
      assert a == [a[0]] + a[1..] && b == [b[0]] + b[1..];
    }
  }

  lemma ListsTail(less: Comparator, a: seq<Meta>, level: Level)
    requires IsOrder(less) && Lists(less, a, level) && a != []
    ensures Lists(less, a[1..], level - {a[0]})
  {
    BeforeIsStrict(less, a[0], a[0]);
    forall i | 0 <= i < |a[1..]|
      ensures a[1..][i] != a[0]
    {
      assert Before(less, a[0], a[i + 1]);
    }
    forall f
      ensures f in a[1..] <==> f in level - {a[0]}
    {
      assert f in a <==> f == a[0] || f in a[1..];
    }
  }

  /** The lists of a version, made from the lists of the one before by one edit. */
  ghost predicate NextVersion(less: Comparator, base: seq<seq<Meta>>, e: Edit, next: seq<seq<Meta>>) {
    |base| == |next| == NUM_LEVELS &&
    forall l :: 0 <= l < NUM_LEVELS ==> IsMerged(less, base[l], ApplyOn(LevelState({}, {}), e, l), next[l])
  }

  /** No edit adds a file to a level that already holds it. */
  ghost predicate NoneAddedTwice(edits: seq<Edit>) {
    forall k, l :: 0 <= k < |edits| && 0 <= l < NUM_LEVELS ==> AddedOn(edits[k], l) !! Stepwise(edits[..k])[l]
  }

  lemma {:induction false} StepwiseCameFromEdits(edits: seq<Edit>, l: nat, f: Meta)
    requires l < NUM_LEVELS && f in Stepwise(edits)[l]
    ensures exists e, g :: e in edits && g in e.newFiles && g.1 == f
  {
    var front, last := edits[..|edits| - 1], edits[|edits| - 1];
    if f in AddedOn(last, l) {
      assert last in edits;
    } else {
      StepwiseCameFromEdits(front, l, f);
      var e, g :| e in front && g in e.newFiles && g.1 == f;
      assert e in edits;
    }
  }

  lemma NumbersFixOnLevel(edits: seq<Edit>, l: nat)
    requires edits != [] && NumbersFixFiles(edits) && l < NUM_LEVELS
    ensures NumbersFix(Stepwise(edits[..|edits| - 1])[l] + AddedOn(edits[|edits| - 1], l))
  {
    var front, last := edits[..|edits| - 1], edits[|edits| - 1];
    assert last in edits && forall e :: e in front ==> e in edits;
    forall f | f in Stepwise(front)[l]
      ensures exists e, g :: e in edits && g in e.newFiles && g.1 == f
    {
      StepwiseCameFromEdits(front, l, f);
      var e, g :| e in front && g in e.newFiles && g.1 == f;
      assert e in edits;
    }
  }

  /** Versions built one after another, the first one empty. */
  ghost predicate Built(less: Comparator, edits: seq<Edit>, versions: seq<seq<seq<Meta>>>) {
    && |versions| == |edits| + 1 && versions[0] == seq(NUM_LEVELS, l => [])
    && forall i, j :: 0 <= i < j <= |edits| && j == i + 1 ==> NextVersion(less, versions[i], edits[i], versions[j])
  }

  lemma BuiltFront(less: Comparator, edits: seq<Edit>, versions: seq<seq<seq<Meta>>>)
    requires Built(less, edits, versions) && edits != []
    ensures var n := |edits| - 1; Built(less, edits[..n], versions[..n + 1]) && NextVersion(less, versions[n], edits[n], versions[n + 1])
  {
  }

  lemma NoneTwiceFront(edits: seq<Edit>)
    requires NoneAddedTwice(edits) && edits != []
    ensures NoneAddedTwice(edits[..|edits| - 1])
  {
    var front := edits[..|edits| - 1];
    forall k, l | 0 <= k < |front| && 0 <= l < NUM_LEVELS
      ensures AddedOn(front[k], l) !! Stepwise(front[..k])[l]
    {
      assert front[..k] == edits[..k] && front[k] == edits[k];
    }
  }

  lemma VersionLists(less: Comparator, base: seq<seq<Meta>>, tree: Tree, e: Edit, next: seq<seq<Meta>>, l: nat)
    requires IsOrder(less) && NextVersion(less, base, e, next) && l < NUM_LEVELS
    requires Lists(less, base[l], tree[l]) && AddedOn(e, l) !! tree[l] && NumbersFix(tree[l] + AddedOn(e, l))
    ensures Lists(less, next[l], SaveTo(tree, Apply(Fresh([]), e))[l])
  {
    MergedLists(less, base[l], tree[l], ApplyOn(LevelState({}, {}), e, l), next[l]);
  }

  /** The versions built one after another list what `Stepwise` says. */
  lemma {:induction false} VersionsList(less: Comparator, edits: seq<Edit>, versions: seq<seq<seq<Meta>>>)
    requires IsOrder(less) && NumbersFixFiles(edits) && NoneAddedTwice(edits) && Built(less, edits, versions)
    ensures |versions[|edits|]| == NUM_LEVELS
    ensures forall l :: 0 <= l < NUM_LEVELS ==> Lists(less, versions[|edits|][l], Stepwise(edits)[l])
    decreases |edits|
  {
    if edits != [] {
      var n := |edits| - 1;
      BuiltFront(less, edits, versions);
      NoneTwiceFront(edits);
      assert forall e :: e in edits[..n] ==> e in edits;
      VersionsList(less, edits[..n], versions[..n + 1]);
      forall l | 0 <= l < NUM_LEVELS
        ensures Lists(less, versions[n + 1][l], Stepwise(edits)[l])
      {
        NumbersFixOnLevel(edits, l);
        assert AddedOn(edits[n], l) !! Stepwise(edits[..n])[l];
        VersionLists(less, versions[n], Stepwise(edits[..n]), edits[n], versions[n + 1], l);
      }
    }
  }

  /** Recovery replays every edit through one builder on an empty version; what it saves lists
      each level exactly as the versions that the edits made one after another. */
  lemma {:induction false} ReplayGivesSameLists(less: Comparator, edits: seq<Edit>, versions: seq<seq<seq<Meta>>>,
                                                pointers: seq<Bytes>, l: nat, out: seq<Meta>)
    requires IsOrder(less) && NumbersFixFiles(edits) && NoneAddedTwice(edits) && Built(less, edits, versions)
    requires l < NUM_LEVELS && IsMerged(less, [], AtOnce(edits, pointers).levels[l], out)
    ensures |versions[|edits|]| == NUM_LEVELS && out == versions[|edits|][l]
  {
    VersionsList(less, edits, versions);
    AtOnceIsStepwise(edits, pointers);
    var s := AtOnce(edits, pointers).levels[l];
    forall f, g | f in s.added && g in s.added && f.number == g.number ensures f == g {
      AddedCameFromEdits(edits, pointers, l, f);
      AddedCameFromEdits(edits, pointers, l, g);
    }
    MergedLists(less, [], {}, s, out);
    OneList(less, out, versions[|edits|][l], Stepwise(edits)[l]);
  }
}
