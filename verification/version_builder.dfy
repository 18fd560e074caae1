/** `VersionSet::Builder`: gathers the edits of versions and writes the file lists they come to. */
module VersionBuilders {
  import opened Format
  import opened Coding
  import opened Blocks
  import opened VersionEdits
  import opened Manifests
  import opened LevelMerges

  lemma Inserted(less: Comparator, files: seq<Meta>, level: Level, f: Meta, n: nat)
    requires IsOrder(less) && Lists(less, files, level) && n <= |files|
    requires n > 0 ==> Before(less, files[n - 1], f)
    requires n < |files| ==> Before(less, f, files[n])
    ensures Lists(less, files[..n] + [f] + files[n..], level + {f})
  {
    var r := files[..n] + [f] + files[n..];
    forall i | 0 <= i < n
      ensures Before(less, files[i], f)
    {
      if i < n - 1 { BeforeIsTransitive(less, files[i], files[n - 1], f); }
    }
    forall i | n <= i < |files|
      ensures Before(less, f, files[i])
    {
      if n < i { BeforeIsTransitive(less, f, files[n], files[i]); }
    }
    assert files == files[..n] + files[n..];
  }

  lemma BeforeIsTransitive(less: Comparator, f: Meta, g: Meta, h: Meta)
    requires IsOrder(less) && Before(less, f, g) && Before(less, g, h)
    ensures Before(less, f, h)
  {
  }

  /** Adds a file to an ordered set; one that is in it already is not added again. */
  method InsertAdded(less: Comparator, files: seq<Meta>, f: Meta, ghost level: Level) returns (r: seq<Meta>)
    requires IsOrder(less) && Lists(less, files, level) && NumbersFix(level + {f})
    ensures Lists(less, r, level + {f})
  {
    var n := 0;
    while n < |files| && Before(less, files[n], f)
      invariant n <= |files| && (n > 0 ==> Before(less, files[n - 1], f))
    {
      n := n + 1;
    }
    if n < |files| && !Before(less, f, files[n]) {
      BeforeIsStrict(less, f, files[n]);
      assert files[n] in level;
      assert level + {f} == level;
      return files;
    }
    Inserted(less, files, level, f, n);
    r := files[..n] + [f] + files[n..];
  }

  lemma MetasInOrder(less: Comparator)
    requires IsOrder(less)
    ensures IsFileOrder((f, g) => Before(less, f, g))
  {
    forall f, g | Before(less, f, g) ensures !Before(less, g, f) { BeforeIsStrict(less, f, g); }
    forall f, g, h | NotAfter(less, f, g) && NotAfter(less, g, h) ensures NotAfter(less, f, h) {
      NotAfterChains(less, f, g, h);
    }
  }

  /** Merges the added files of one level with those it had, without the deleted ones. */
  method MergeFiles(less: Comparator, base: seq<Meta>, deleted: set<nat>, added: seq<Meta>,
                    ghost s: LevelState) returns (out: seq<Meta>)
    requires IsOrder(less) && InOrder(less, base) && Lists(less, added, s.added) && deleted == s.deleted
    ensures IsMerged(less, base, s, out)
  {
    MetasInOrder(less);
    ListsInOrder(less, added, s.added);
    out := MergeLevel((f, g) => Before(less, f, g), (f: Meta) => f.number, base, deleted, added);
    forall f ensures multiset(added)[f] == if f in s.added then 1 else 0 { ListedOnce(less, added, s.added, f); }
  }

  /** Lists that a version has: every level in order. */
  ghost predicate VersionOk(less: Comparator, v: seq<seq<Meta>>) {
    |v| == NUM_LEVELS && forall l :: 0 <= l < NUM_LEVELS ==> InOrder(less, v[l])
  }

  const NO_VERSION: seq<seq<Meta>> := seq(NUM_LEVELS, l => [])

  class VersionBuilder {
    const less: Comparator
    const base: seq<seq<Meta>>
    var deleted: seq<set<nat>>
    var added: seq<seq<Meta>>
    var pointers: seq<Bytes>
    ghost var gathered: Gathered

    ghost function Gathering(): Builder
      reads this
    {
      Builder(gathered, pointers)
    }

    ghost predicate Valid()
      reads this
    {
      && IsOrder(less) && VersionOk(less, base) && |deleted| == |added| == NUM_LEVELS
      && forall l :: 0 <= l < NUM_LEVELS ==> deleted[l] == gathered[l].deleted && Lists(less, added[l], gathered[l].added)
    }

    constructor (less: Comparator, base: seq<seq<Meta>>, pointers: seq<Bytes>)
      requires IsOrder(less) && VersionOk(less, base)
      ensures Valid() && Gathering() == Fresh(pointers) && this.less == less && this.base == base
    {
      this.less, this.base, this.pointers := less, base, pointers;
      deleted, added := seq(NUM_LEVELS, l => {}), seq(NUM_LEVELS, l => []);
      gathered := seq(NUM_LEVELS, l => LevelState({}, {}));
    }

    method ApplyPointers(ps: seq<(nat, Bytes)>)
      requires Valid()
      modifies this`pointers
      ensures pointers == PointersAfter(old(pointers), ps)
    {
      for i := 0 to |ps|
        invariant pointers == PointersAfter(old(pointers), ps[..i])
      {
        assert ps[..i + 1] == ps[..i] + [ps[i]] && ps[..i + 1][..i] == ps[..i];
        if ps[i].0 < |pointers| {
          pointers := pointers[ps[i].0 := ps[i].1];
        }
      }
      assert ps[..|ps|] == ps;
    }

    method DeleteFiles(e: Edit)
      requires Valid()
      modifies this`deleted, this`gathered
      ensures Valid() && gathered == After(old(gathered), e, 0)
    {
      for l := 0 to NUM_LEVELS
        invariant |deleted| == NUM_LEVELS && gathered == old(gathered)
        invariant forall m :: 0 <= m < NUM_LEVELS ==>
                    deleted[m] == if m < l then old(deleted[m]) + DeletedOn(e, m) else old(deleted[m])
      {
        deleted := deleted[l := deleted[l] + DeletedOn(e, l)];
      }
      AfterNone(gathered, e);
      gathered := After(gathered, e, 0);
    }

    /** Deletions first, then the additions, each of which takes back a deletion of its number. */
    method ApplyFiles(e: Edit)
      requires Valid() && forall l :: 0 <= l < NUM_LEVELS ==> NumbersFix(gathered[l].added + AddedOn(e, l))
      modifies this`deleted, this`added, this`gathered
      ensures Valid() && forall l :: 0 <= l < NUM_LEVELS ==> gathered[l] == ApplyOn(old(gathered[l]), e, l)
    {
      ghost var before := gathered;
      DeleteFiles(e);
      for i := 0 to |e.newFiles|
        invariant Valid() && gathered == After(before, e, i)
      {
        var (l, f) := e.newFiles[i];
        AfterNext(before, e, i);
        if l < NUM_LEVELS {
          FixesNext(before[l], e, i);
          var files := InsertAdded(less, added[l], f, gathered[l].added);
          deleted, added := deleted[l := deleted[l] - {f.number}], added[l := files];
        }
        gathered := After(before, e, i + 1);
      }
      forall l | 0 <= l < NUM_LEVELS ensures gathered[l] == ApplyOn(before[l], e, l) { AfterAll(before[l], e, l); }
    }

    method Apply(e: Edit)
      requires Valid() && forall l :: 0 <= l < NUM_LEVELS ==> NumbersFix(gathered[l].added + AddedOn(e, l))
      modifies this
      ensures Valid() && Gathering() == Manifests.Apply(old(Gathering()), e)
    {
      ApplyPointers(e.compactPointers);
      ApplyFiles(e);
    }

    /** The lists of the new version. */
    method SaveTo() returns (v: seq<seq<Meta>>)
      requires Valid()
      ensures VersionOk(less, v)
      ensures forall l :: 0 <= l < NUM_LEVELS ==> IsMerged(less, base[l], gathered[l], v[l])
    {
      v := [];
      for l := 0 to NUM_LEVELS
        invariant |v| == l && forall m :: 0 <= m < l ==> IsMerged(less, base[m], gathered[m], v[m])
      {
        var files := MergeFiles(less, base[l], deleted[l], added[l], gathered[l]);
        v := v + [files];
      }
    }
  }

  /** What has been gathered for a level after the deletions of an edit and its first i additions. */
  function AfterOn(s: LevelState, e: Edit, i: nat, l: nat): LevelState
    requires i <= |e.newFiles|
  {
    LevelState(s.deleted + DeletedOn(e, l) - Numbers(AddedAmong(e.newFiles[..i], l)), s.added + AddedAmong(e.newFiles[..i], l))
  }

  function After(g: Gathered, e: Edit, i: nat): Gathered
    requires i <= |e.newFiles|
  {
    seq(NUM_LEVELS, l requires 0 <= l < NUM_LEVELS => AfterOn(g[l], e, i, l))
  }

  /** One addition: on its own level it takes back a deletion of its number. */
  function Joined(s: LevelState, f: (nat, Meta), l: nat): LevelState {
    if f.0 == l then LevelState(s.deleted - {f.1.number}, s.added + {f.1}) else s
  }

  lemma AfterNone(g: Gathered, e: Edit)
    ensures forall l :: 0 <= l < NUM_LEVELS ==> After(g, e, 0)[l] == LevelState(g[l].deleted + DeletedOn(e, l), g[l].added)
  {
    assert forall l :: AddedAmong(e.newFiles[..0], l) == {};
  }

  lemma AfterNext(g: Gathered, e: Edit, i: nat)
    requires i < |e.newFiles|
    ensures forall l :: 0 <= l < NUM_LEVELS ==> After(g, e, i + 1)[l] == Joined(After(g, e, i)[l], e.newFiles[i], l)
  {
    assert e.newFiles[..i + 1] == e.newFiles[..i] + [e.newFiles[i]];
    forall l | 0 <= l < NUM_LEVELS
      ensures AddedAmong(e.newFiles[..i + 1], l) == AddedAmong(e.newFiles[..i], l) + if e.newFiles[i].0 == l then {e.newFiles[i].1} else {}
      ensures Numbers(AddedAmong(e.newFiles[..i + 1], l)) ==
                Numbers(AddedAmong(e.newFiles[..i], l)) + if e.newFiles[i].0 == l then {e.newFiles[i].1.number} else {}
    {
      AddedSnoc(e.newFiles[..i], e.newFiles[i], l);
    }
  }

  lemma FixesNext(s: LevelState, e: Edit, i: nat)
    requires i < |e.newFiles| && NumbersFix(s.added + AddedOn(e, e.newFiles[i].0))
    ensures NumbersFix(AfterOn(s, e, i, e.newFiles[i].0).added + {e.newFiles[i].1})
  {
    var l := e.newFiles[i].0;
    assert AfterOn(s, e, i, l).added + {e.newFiles[i].1} <= s.added + AddedOn(e, l);
  }

  lemma AfterAll(s: LevelState, e: Edit, l: nat)
    ensures AfterOn(s, e, |e.newFiles|, l) == ApplyOn(s, e, l)
  {
    assert e.newFiles[..|e.newFiles|] == e.newFiles;
    assert AddedAmong(e.newFiles, l) == AddedOn(e, l);
  }

  /** `LogAndApply`: the next version, made of the current one by one edit. */
  method NextLists(less: Comparator, current: seq<seq<Meta>>, e: Edit) returns (next: seq<seq<Meta>>)
    requires IsOrder(less) && VersionOk(less, current)
    requires forall l :: 0 <= l < NUM_LEVELS ==> NumbersFix(AddedOn(e, l))
    ensures VersionOk(less, next) && NextVersion(less, current, e, next)
  {
    var builder := new VersionBuilder(less, current, []);
    forall l | 0 <= l < NUM_LEVELS
      ensures NumbersFix(builder.gathered[l].added + AddedOn(e, l))
    {
      assert {} + AddedOn(e, l) == AddedOn(e, l);
    }
    builder.Apply(e);
    next := builder.SaveTo();
  }

  lemma EditFixes(edits: seq<Edit>, i: nat, l: nat)
    requires NumbersFixFiles(edits) && i < |edits|
    ensures NumbersFix(AddedOn(edits[i], l))
  {
    assert edits[i] in edits;
  }

  /** Every version the edits make, one after another from the empty one. */
  method AllVersions(less: Comparator, edits: seq<Edit>) returns (versions: seq<seq<seq<Meta>>>)
    requires IsOrder(less) && NumbersFixFiles(edits)
    ensures Built(less, edits, versions)
  {
    versions := [NO_VERSION];
    for i := 0 to |edits|
      invariant |versions| == i + 1 && versions[0] == NO_VERSION && VersionOk(less, versions[i])
      invariant forall a, b :: 0 <= a < b <= i && b == a + 1 ==> NextVersion(less, versions[a], edits[a], versions[b])
    {
      forall l | 0 <= l < NUM_LEVELS { EditFixes(edits, i, l); }
      var next := NextLists(less, versions[i], edits[i]);
      versions := versions + [next];
    }
  }

  lemma {:induction false} GatheredFixes(edits: seq<Edit>, pointers: seq<Bytes>, i: nat, l: nat)
    requires NumbersFixFiles(edits) && i < |edits| && l < NUM_LEVELS
    ensures NumbersFix(AtOnce(edits[..i], pointers).levels[l].added + AddedOn(edits[i], l))
  {
    var all := AtOnce(edits[..i], pointers).levels[l].added + AddedOn(edits[i], l);
    assert edits[i] in edits && forall e :: e in edits[..i] ==> e in edits;
    forall f | f in all
      ensures exists e, g :: e in edits && g in e.newFiles && g.1 == f
    {
      if f !in AddedOn(edits[i], l) {
        AddedCameFromEdits(edits[..i], pointers, l, f);
        var e, g :| e in edits[..i] && g in e.newFiles && g.1 == f;
        assert e in edits;
      }
    }
  }

  /** `Recover`: all edits gathered in one builder on the empty version, whose lists are those of
      the version the edits made one after another. */
  method ReplayLists(less: Comparator, edits: seq<Edit>, pointers: seq<Bytes>) returns (lists: seq<seq<Meta>>,
                     after: seq<Bytes>)
    requires IsOrder(less) && NumbersFixFiles(edits)
    ensures VersionOk(less, lists) && after == AtOnce(edits, pointers).pointers
    ensures forall l :: 0 <= l < NUM_LEVELS ==> IsMerged(less, [], AtOnce(edits, pointers).levels[l], lists[l])
    ensures NoneAddedTwice(edits) ==> forall versions :: Built(less, edits, versions) ==> lists == versions[|edits|]
  {
    var builder := new VersionBuilder(less, NO_VERSION, pointers);
    for i := 0 to |edits|
      invariant builder.Valid() && fresh(builder) && builder.less == less && builder.base == NO_VERSION
      invariant builder.Gathering() == AtOnce(edits[..i], pointers)
    {
      assert edits[..i + 1] == edits[..i] + [edits[i]] && edits[..i + 1][..i] == edits[..i];
      forall l | 0 <= l < NUM_LEVELS { GatheredFixes(edits, pointers, i, l); }
      builder.Apply(edits[i]);
    }
    assert edits[..|edits|] == edits;
    lists := builder.SaveTo();
    after := builder.pointers;
    if NoneAddedTwice(edits) {
      forall versions | Built(less, edits, versions)
        ensures lists == versions[|edits|]
      {
        forall l | 0 <= l < NUM_LEVELS { ReplayGivesSameLists(less, edits, versions, pointers, l, lists[l]); }
        VersionsList(less, edits, versions);
      }
    }
  }
}
