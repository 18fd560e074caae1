/** The merge of the files of a level with those an edit adds, the loops of
    `VersionSet::Builder::SaveTo`, for any kind of file that has a number and a place in an order. */
module LevelMerges {
  type Order<!F> = (F, F) -> bool

  /** A file order; two files may have the same place in it. */
  ghost predicate IsFileOrder<F(!new)>(before: Order<F>) {
    && (forall f, g :: before(f, g) ==> !before(g, f))
    && (forall f, g, h {:trigger before(g, f), before(h, g)} :: !before(g, f) && !before(h, g) ==> !before(h, f))
  }

  ghost predicate InFileOrder<F>(before: Order<F>, files: seq<F>) {
    forall i, j :: 0 <= i < j < |files| ==> !before(files[j], files[i])
  }

  /** The base files and the added ones in order, each as often as there, without those whose
      number was deleted. */
  ghost predicate IsMergeOf<F(!new)>(before: Order<F>, number: F -> nat, base: seq<F>, deleted: set<nat>, added: seq<F>,
                                     out: seq<F>) {
    && InFileOrder(before, out)
    && forall f :: multiset(out)[f] == if number(f) in deleted then 0 else multiset(base)[f] + multiset(added)[f]
  }

  /** The merge has gone through the first b base files and the first a added ones. */
  ghost predicate MergedSoFar<F(!new)>(before: Order<F>, number: F -> nat, base: seq<F>, deleted: set<nat>, added: seq<F>,
                                       b: nat, a: nat, out: seq<F>) {
    && b <= |base| && a <= |added| && IsMergeOf(before, number, base[..b], deleted, added[..a], out)
    && (forall f, i :: f in out && b <= i < |base| ==> !before(base[i], f))
    && (forall f, i :: f in out && a <= i < |added| ==> !before(added[i], f))
  }

  /** `MaybeAddFile`: the next file joins unless its number was deleted. */
  function MaybeAdd<F>(number: F -> nat, out: seq<F>, deleted: set<nat>, f: F): seq<F> {
    if number(f) in deleted then out else out + [f]
  }

  lemma JoinsInOrder<F(!new)>(before: Order<F>, number: F -> nat, out: seq<F>, f: F, deleted: set<nat>)
    requires InFileOrder(before, out) && forall g :: g in out ==> !before(f, g)
    ensures InFileOrder(before, MaybeAdd(number, out, deleted, f))
    ensures forall g :: multiset(MaybeAdd(number, out, deleted, f))[g]
                     == multiset(out)[g] + if g == f && number(f) !in deleted then 1 else 0
    ensures forall g :: g in MaybeAdd(number, out, deleted, f) ==> g in out || g == f
  {
  }

  lemma CountsOne<F(!new)>(files: seq<F>, i: nat)
    requires i < |files|
    ensures forall f :: multiset(files[..i + 1])[f] == multiset(files[..i])[f] + if f == files[i] then 1 else 0
  {
    assert files[..i + 1] == files[..i] + [files[i]];
  }

  /** A file in front of one of a list is in front of all behind it. */
  lemma FrontOfRest<F(!new)>(before: Order<F>, f: F, files: seq<F>, i: nat)
    requires IsFileOrder(before) && InFileOrder(before, files) && i < |files| && !before(files[i], f)
    ensures forall j :: i <= j < |files| ==> !before(files[j], f)
  {
  }

  lemma TakesBase<F(!new)>(before: Order<F>, number: F -> nat, base: seq<F>, deleted: set<nat>, added: seq<F>, b: nat,
                           a: nat, out: seq<F>)
    requires IsFileOrder(before) && InFileOrder(before, base) && InFileOrder(before, added)
    requires MergedSoFar(before, number, base, deleted, added, b, a, out)
    requires b < |base| && (a < |added| ==> !before(added[a], base[b]))
    ensures MergedSoFar(before, number, base, deleted, added, b + 1, a, MaybeAdd(number, out, deleted, base[b]))
  {
    JoinsInOrder(before, number, out, base[b], deleted);
    CountsOne(base, b);
    if a < |added| { FrontOfRest(before, base[b], added, a); }
  }

  lemma TakesAdded<F(!new)>(before: Order<F>, number: F -> nat, base: seq<F>, deleted: set<nat>, added: seq<F>, b: nat,
                            a: nat, out: seq<F>)
    requires IsFileOrder(before) && InFileOrder(before, base) && InFileOrder(before, added)
    requires MergedSoFar(before, number, base, deleted, added, b, a, out)
    requires a < |added| && (b < |base| ==> !before(base[b], added[a]))
    ensures MergedSoFar(before, number, base, deleted, added, b, a + 1, MaybeAdd(number, out, deleted, added[a]))
  {
    JoinsInOrder(before, number, out, added[a], deleted);
    CountsOne(added, a);
    if b < |base| { FrontOfRest(before, added[a], base, b); }
  }

  /** The base files that come before the next added one, or all that are left. */
  method TakeSmaller<F(!new)>(before: Order<F>, number: F -> nat, base: seq<F>, deleted: set<nat>, added: seq<F>, b0: nat,
                              a: nat, out0: seq<F>)
    returns (b: nat, out: seq<F>)
    requires IsFileOrder(before) && InFileOrder(before, base) && InFileOrder(before, added)
    requires MergedSoFar(before, number, base, deleted, added, b0, a, out0)
    ensures MergedSoFar(before, number, base, deleted, added, b, a, out)
    ensures b == |base| || (a < |added| && before(added[a], base[b]))
  {
    b, out := b0, out0;
    while b < |base| && (a == |added| || !before(added[a], base[b]))
      invariant b <= |base| && MergedSoFar(before, number, base, deleted, added, b, a, out)
      decreases |base| - b
    {
      TakesBase(before, number, base, deleted, added, b, a, out);
      out := MaybeAdd(number, out, deleted, base[b]);
      b := b + 1;
    }
  }

  /** Merges the added files of one level with those it had, without the deleted ones. */
  method MergeLevel<F(!new)>(before: Order<F>, number: F -> nat, base: seq<F>, deleted: set<nat>, added: seq<F>)
    returns (out: seq<F>)
    requires IsFileOrder(before) && InFileOrder(before, base) && InFileOrder(before, added)
    ensures IsMergeOf(before, number, base, deleted, added, out)
  {
    out := [];
    var b: nat, a: nat := 0, 0;
    while a < |added|
      invariant MergedSoFar(before, number, base, deleted, added, b, a, out)
    {
      b, out := TakeSmaller(before, number, base, deleted, added, b, a, out);
      TakesAdded(before, number, base, deleted, added, b, a, out);
      out := MaybeAdd(number, out, deleted, added[a]);
      a := a + 1;
    }
    b, out := TakeSmaller(before, number, base, deleted, added, b, a, out);
    assert base[..|base|] == base && added[..|added|] == added;
  }

  /** A file listed at two places counts twice. */
  lemma TwoPlaces<F(!new)>(files: seq<F>, i: nat, j: nat)
    requires i < j < |files| && files[i] == files[j]
    ensures multiset(files)[files[i]] >= 2
  {
    assert files == files[..i] + [files[i]] + files[i + 1..j] + [files[j]] + files[j + 1..];
  }
}
