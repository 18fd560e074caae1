/** Merging several sorted runs: `MergingIterator` is a cursor over their sorted union. */
module Merger {
  import opened Format
  import opened Cursors

  datatype Direction = Forward | Reverse

  /** e comes before position n of the sorted list `all`. */
  ghost predicate Before(all: seq<Entry>, n: nat, e: Entry)
    requires n <= |all|
  {
    n == |all| || Less(e.key, all[n].key)
  }

  lemma BeforeNext(all: seq<Entry>, n: nat, e: Entry)
    requires Sorted(all) && n < |all| && e in all
    ensures Before(all, n + 1, e) <==> Before(all, n, e) || e == all[n]
  {
    var m :| 0 <= m < |all| && all[m] == e;
    if m < n { assert Less(all[m].key, all[n].key); }
    if n < m { assert Less(all[n].key, all[m].key); }
    if n + 1 < |all| {
      if n + 1 < m { assert Less(all[n + 1].key, all[m].key); }
      if m < n + 1 { assert Less(all[m].key, all[n + 1].key); }
    }
  }

  lemma BeforeIsIndex(all: seq<Entry>, n: nat, m: nat)
    requires Sorted(all) && n <= |all| && m < |all|
    ensures Before(all, n, all[m]) <==> m < n
  {
  }

  /** Two runs hold no entry with the same internal key. */
  ghost predicate KeysApart(a: seq<Entry>, b: seq<Entry>) {
    forall i, j :: 0 <= i < |a| && 0 <= j < |b| ==> a[i].key != b[j].key
  }

  function Merge2(a: seq<Entry>, b: seq<Entry>): seq<Entry> {
    if a == [] then b
    else if b == [] then a
    else if Less(a[0].key, b[0].key) then [a[0]] + Merge2(a[1..], b)
    else [b[0]] + Merge2(a, b[1..])
  }

  lemma {:induction false} Merge2Members(a: seq<Entry>, b: seq<Entry>)
    ensures forall e :: e in Merge2(a, b) <==> e in a || e in b
  {
    if a != [] && b != [] {
      if Less(a[0].key, b[0].key) { Merge2Members(a[1..], b); }
      else { Merge2Members(a, b[1..]); }
    }
  }

  lemma {:induction false} Merge2Sorted(a: seq<Entry>, b: seq<Entry>)
    requires Sorted(a) && Sorted(b) && KeysApart(a, b)
    ensures Sorted(Merge2(a, b))
  {
    if a != [] && b != [] {
      if Less(a[0].key, b[0].key) {
        Merge2Sorted(a[1..], b);
        Merge2Members(a[1..], b);
        FirstStaysSorted(a[0], Merge2(a[1..], b), a[1..], b);
      } else {
        assert KeysApart(a, b[1..]);
        Merge2Sorted(a, b[1..]);
        Merge2Members(a, b[1..]);
        FirstStaysSorted(b[0], Merge2(a, b[1..]), a, b[1..]);
      }
    }
  }

  lemma FirstStaysSorted(e: Entry, rest: seq<Entry>, a: seq<Entry>, b: seq<Entry>)
    requires Sorted(rest) && forall x :: x in rest <==> x in a || x in b
    requires forall x | x in a || x in b :: Less(e.key, x.key)
    ensures Sorted([e] + rest)
  {
    forall i, j | 0 <= i < j < |[e] + rest|
      ensures Less(([e] + rest)[i].key, ([e] + rest)[j].key)
    {
      assert ([e] + rest)[j] == rest[j - 1] && rest[j - 1] in rest;
    }
  }

  /** The sorted union of several runs. */
  function MergeAll(runs: seq<seq<Entry>>): seq<Entry> {
    if runs == [] then [] else Merge2(runs[0], MergeAll(runs[1..]))
  }

  ghost predicate RunsApart(runs: seq<seq<Entry>>) {
    && (forall i :: 0 <= i < |runs| ==> Sorted(runs[i]))
    && (forall i, j :: 0 <= i < j < |runs| ==> KeysApart(runs[i], runs[j]))
  }

  lemma {:induction false} MergeAllIsSortedUnion(runs: seq<seq<Entry>>)
    requires RunsApart(runs)
    ensures Sorted(MergeAll(runs))
    ensures forall e :: e in MergeAll(runs) <==> exists i :: 0 <= i < |runs| && e in runs[i]
  {
    if runs != [] {
      var rest := runs[1..];
      assert forall i :: 0 <= i < |rest| ==> rest[i] == runs[i + 1];
      MergeAllIsSortedUnion(rest);
      Merge2Members(runs[0], MergeAll(rest));
      assert KeysApart(runs[0], MergeAll(rest)) by {
        forall i, j | 0 <= i < |runs[0]| && 0 <= j < |MergeAll(rest)|
          ensures runs[0][i].key != MergeAll(rest)[j].key
        {
          assert MergeAll(rest)[j] in MergeAll(rest);
        }
      }
      Merge2Sorted(runs[0], MergeAll(rest));
      forall e
        ensures e in MergeAll(runs) <==> exists i :: 0 <= i < |runs| && e in runs[i]
      {
        if i :| 0 <= i < |runs| && e in runs[i] {
          if i > 0 { assert e in rest[i - 1]; }
        }
      }
    }
  }

  ghost function OwnerOf(runs: seq<seq<Entry>>, e: Entry): (i: nat)
    requires exists i :: 0 <= i < |runs| && e in runs[i]
    ensures i < |runs| && e in runs[i]
  {
    var i :| 0 <= i < |runs| && e in runs[i];
    i
  }

  /** A sorted run all of whose entries are in the sorted union. */
  ghost predicate Subrun(items: seq<Entry>, all: seq<Entry>) {
    Sorted(items) && Sorted(all) && forall e :: e in items ==> e in all
  }

  /** p is the run's first entry that is not before position n of the union. */
  ghost predicate AtOrAfter(items: seq<Entry>, p: nat, all: seq<Entry>, n: nat) {
    p <= |items| && n <= |all| &&
    forall k :: 0 <= k < |items| ==> (k < p <==> Before(all, n, items[k]))
  }

  /** p is the run's last entry before position n of the union, or |items| when it has none. */
  ghost predicate LastBefore(items: seq<Entry>, p: nat, all: seq<Entry>, n: nat) {
    p <= |items| && n <= |all| &&
    forall k :: 0 <= k < |items| ==> (p < |items| && k <= p <==> Before(all, n, items[k]))
  }

  lemma FirstCut(items: seq<Entry>, all: seq<Entry>)
    requires Subrun(items, all)
    ensures AtOrAfter(items, 0, all, 0)
  {
    forall k | 0 <= k < |items|
      ensures !Before(all, 0, items[k])
    {
      assert items[k] in all;
      var m :| 0 <= m < |all| && all[m] == items[k];
      BeforeIsIndex(all, 0, m);
    }
  }

  /** Standing at the first entry at or after t is standing at the first entry not before
      t's place in the union. */
  lemma {:induction false} SeekCut(items: seq<Entry>, all: seq<Entry>, t: IKey)
    requires Subrun(items, all)
    ensures AtOrAfter(items, LowerBound(items, t), all, LowerBound(all, t))
  {
    var p, n := LowerBound(items, t), LowerBound(all, t);
    forall k | 0 <= k < |items|
      ensures k < p <==> Before(all, n, items[k])
    {
      assert items[k] in all;
      var m :| 0 <= m < |all| && all[m] == items[k];
      BeforeIsIndex(all, n, m);
      assert p < k ==> Less(items[p].key, items[k].key);
      assert n < m ==> Less(all[n].key, all[m].key);
    }
  }

  /** Moving past all[n]: the run that holds it advances, every other run is already placed. */
  lemma StepCut(items: seq<Entry>, p: nat, all: seq<Entry>, n: nat)
    requires Subrun(items, all) && AtOrAfter(items, p, all, n) && n < |all|
    ensures p < |items| && items[p] == all[n] ==> AtOrAfter(items, p + 1, all, n + 1)
    ensures all[n] !in items ==> AtOrAfter(items, p, all, n + 1)
  {
    forall k | 0 <= k < |items|
      ensures Before(all, n + 1, items[k]) <==> Before(all, n, items[k]) || items[k] == all[n]
    {
      BeforeNext(all, n, items[k]);
    }
    assert p < |items| && items[p] == all[n] ==>
        forall k :: p < k < |items| ==> Less(items[p].key, items[k].key);
  }

  /** The place one before p, |items| standing for none. */
  function Back(items: seq<Entry>, p: nat): nat {
    if p == 0 then |items| else p - 1
  }

  /** One before the first entry not before n is the last entry before n. */
  lemma CutBack(items: seq<Entry>, p: nat, all: seq<Entry>, n: nat)
    requires Subrun(items, all) && AtOrAfter(items, p, all, n)
    ensures LastBefore(items, Back(items, p), all, n)
  {
  }

  /** Moving back from all[n]: the run that holds it steps back, every other run is already placed. */
  lemma StepBackCut(items: seq<Entry>, p: nat, all: seq<Entry>, n: nat)
    requires Subrun(items, all) && n < |all| && LastBefore(items, p, all, n + 1)
    ensures p < |items| && items[p] == all[n] ==>
              LastBefore(items, Back(items, p), all, n)
    ensures all[n] !in items ==> LastBefore(items, p, all, n)
  {
    forall k | 0 <= k < |items|
      ensures Before(all, n + 1, items[k]) <==> Before(all, n, items[k]) || items[k] == all[n]
    {
      BeforeNext(all, n, items[k]);
    }
    if p < |items| && items[p] == all[n] {
      assert forall k :: 0 <= k < p ==> Less(items[k].key, items[p].key);
    }
  }

  /** A run placed at or after n stands at no entry below all[n], and at all[n] if it holds it. */
  lemma CutEntry(items: seq<Entry>, p: nat, all: seq<Entry>, n: nat)
    requires Subrun(items, all) && AtOrAfter(items, p, all, n)
    ensures p < |items| ==> n < |all| && !Less(items[p].key, all[n].key)
    ensures n < |all| && all[n] in items ==> p < |items| && items[p] == all[n]
  {
    if p < |items| {
      assert !Before(all, n, items[p]);
      assert forall k :: p < k < |items| ==> Less(items[p].key, items[k].key);
    }
    if n < |all| && all[n] in items {
      var k :| 0 <= k < |items| && items[k] == all[n];
      assert !Before(all, n, items[k]);
    }
  }

  /** A run placed before n stands at no entry above all[n-1], and at all[n-1] if it holds it. */
  lemma CutBackEntry(items: seq<Entry>, p: nat, all: seq<Entry>, n: nat)
    requires Subrun(items, all) && LastBefore(items, p, all, n)
    ensures p < |items| ==> 0 < n && !Less(all[n - 1].key, items[p].key)
    ensures 0 < n && all[n - 1] in items ==> p < |items| && items[p] == all[n - 1]
  {
    if p < |items| {
      assert Before(all, n, items[p]) && items[p] in all;
      var m :| 0 <= m < |all| && all[m] == items[p];
      BeforeIsIndex(all, n, m);
    }
    if 0 < n && all[n - 1] in items {
      BeforeIsIndex(all, n, n - 1);
      var k :| 0 <= k < |items| && items[k] == all[n - 1];
      assert Before(all, n, items[k]);
      assert forall j :: k < j < |items| ==> Less(items[k].key, items[j].key);
    }
  }

  /** The merge of any number of child iterators, which finds its current child by linear scans. */
  class MergingIterator {
    const children: seq<ListCursor>
    var current: int            // index of the current child, -1 when not valid
    var direction: Direction
    ghost const all: seq<Entry> // the sorted union of the children's runs
    ghost const owner: seq<int> // which child holds each entry of `all`
    ghost var pos: nat          // the place in `all` this iterator presents

    /** What never changes: the runs, and how they make up `all`. */
    ghost predicate Shape() {
      && (forall i :: 0 <= i < |children| ==> Subrun(children[i].items, all))
      && (forall i, j :: 0 <= i < j < |children| ==> children[i] != children[j])
      && (forall i, j :: 0 <= i < j < |children| ==> KeysApart(children[i].items, children[j].items))
      && Sorted(all)
      && |owner| == |all|
      && (forall n {:trigger owner[n]} :: 0 <= n < |owner| ==> 0 <= owner[n] < |children| && all[n] in children[owner[n]].items)
    }

    ghost predicate Inv()
      reads this, children
    {
      && Shape()
      && (forall i :: 0 <= i < |children| ==> children[i].Inv())
      && -1 <= current < |children|
      && pos <= |all|
      && (current == -1 <==> pos == |all|)
      && (current >= 0 ==>
            && children[current].Valid()
            && children[current].items[children[current].pos] == all[pos]
            && (direction == Forward ==>
                  forall i :: 0 <= i < |children| ==> AtOrAfter(children[i].items, children[i].pos, all, pos))
            && (direction == Reverse ==>
                  forall i :: 0 <= i < |children| ==> LastBefore(children[i].items, children[i].pos, all, pos + 1)))
    }

    constructor (cs: seq<ListCursor>)
      requires forall i :: 0 <= i < |cs| ==> cs[i].Inv()
      requires forall i, j :: 0 <= i < j < |cs| ==> cs[i] != cs[j]
      requires forall i, j :: 0 <= i < j < |cs| ==> KeysApart(cs[i].items, cs[j].items)
      ensures Inv() && !Valid() && children == cs
      ensures all == MergeAll(seq(|cs|, i requires 0 <= i < |cs| => cs[i].items))
    {
      ghost var runs := seq(|cs|, i requires 0 <= i < |cs| => cs[i].items);
      children := cs;
      current := -1;
      direction := Forward;
      all := MergeAll(runs);
      pos := |MergeAll(runs)|;
      MergeAllIsSortedUnion(runs);
      assert forall n :: 0 <= n < |MergeAll(runs)| ==> MergeAll(runs)[n] in MergeAll(runs);
      owner := seq(|MergeAll(runs)|, n requires 0 <= n < |MergeAll(runs)| => OwnerOf(runs, MergeAll(runs)[n]));
      new;
      forall i, e | 0 <= i < |children| && e in children[i].items
        ensures e in all
      {
        assert e in runs[i];
      }
    }

    predicate Valid()
      reads this
    {
      current >= 0
    }

    function Key(): IKey
      requires Inv() && Valid()
      reads this, children
      ensures Key() == all[pos].key
    {
      children[current].Key()
    }

    function Value(): Bytes
      requires Inv() && Valid()
      reads this, children
      ensures Value() == all[pos].value
    {
      children[current].items[children[current].pos].value
    }

    method FindSmallest()
      requires forall i :: 0 <= i < |children| ==> children[i].Inv()
      modifies this`current
      ensures -1 <= current < |children|
      ensures current == -1 ==> forall j :: 0 <= j < |children| ==> !children[j].Valid()
      ensures current >= 0 ==> children[current].Valid()
      ensures current >= 0 ==>
                forall j :: 0 <= j < |children| && children[j].Valid() ==> !Less(children[j].Key(), children[current].Key())
    {
      var smallest := -1;
      for i := 0 to |children|
        invariant -1 <= smallest < i
        invariant smallest == -1 ==> forall j :: 0 <= j < i ==> !children[j].Valid()
        invariant smallest >= 0 ==> children[smallest].Valid()
        invariant smallest >= 0 ==>
          forall j :: 0 <= j < i && children[j].Valid() ==> !Less(children[j].Key(), children[smallest].Key())
      {
        if children[i].Valid() {
          if smallest == -1 {
            smallest := i;
          } else if Less(children[i].Key(), children[smallest].Key()) {
            smallest := i;
          }
        }
      }
      current := smallest;
    }

    method FindLargest()
      requires forall i :: 0 <= i < |children| ==> children[i].Inv()
      modifies this`current
      ensures -1 <= current < |children|
      ensures current == -1 ==> forall j :: 0 <= j < |children| ==> !children[j].Valid()
      ensures current >= 0 ==> children[current].Valid()
      ensures current >= 0 ==>
                forall j :: 0 <= j < |children| && children[j].Valid() ==> !Less(children[current].Key(), children[j].Key())
    {
      var largest := -1;
      for i := |children| downto 0
        invariant largest == -1 || i <= largest < |children|
        invariant largest == -1 ==> forall j :: i <= j < |children| ==> !children[j].Valid()
        invariant largest >= 0 ==> children[largest].Valid()
        invariant largest >= 0 ==>
          forall j :: i <= j < |children| && children[j].Valid() ==> !Less(children[largest].Key(), children[j].Key())
      {
        if children[i].Valid() {
          if largest == -1 {
            largest := i;
          } else if Less(children[largest].Key(), children[i].Key()) {
            largest := i;
          }
        }
      }
      current := largest;
    }

    /** With every child placed at or after n, the smallest child stands at all[n]. */
    lemma SmallestIsNext(n: nat)
      requires Shape() && n <= |all| && -1 <= current < |children|
      requires forall i :: 0 <= i < |children| ==> children[i].Inv()
      requires forall i :: 0 <= i < |children| ==> AtOrAfter(children[i].items, children[i].pos, all, n)
      requires current == -1 ==> forall j :: 0 <= j < |children| ==> !children[j].Valid()
      requires current >= 0 ==> children[current].Valid()
      requires current >= 0 ==>
                 forall j :: 0 <= j < |children| && children[j].Valid() ==> !Less(children[j].Key(), children[current].Key())
      ensures current == -1 <==> n == |all|
      ensures current >= 0 ==> children[current].items[children[current].pos] == all[n]
    {
      if n < |all| {
        var i := owner[n];
        CutEntry(children[i].items, children[i].pos, all, n);
      }
      if current >= 0 {
        var c := children[current];
        CutEntry(c.items, c.pos, all, n);
        assert c.items[c.pos] in all;
      }
    }

    /** With every child placed before n, the largest child stands at all[n-1]. */
    lemma LargestIsPrevious(n: nat)
      requires Shape() && n <= |all| && -1 <= current < |children|
      requires forall i :: 0 <= i < |children| ==> children[i].Inv()
      requires forall i :: 0 <= i < |children| ==> LastBefore(children[i].items, children[i].pos, all, n)
      requires current == -1 ==> forall j :: 0 <= j < |children| ==> !children[j].Valid()
      requires current >= 0 ==> children[current].Valid()
      requires current >= 0 ==>
                 forall j :: 0 <= j < |children| && children[j].Valid() ==> !Less(children[current].Key(), children[j].Key())
      ensures current == -1 <==> n == 0
      ensures current >= 0 ==> children[current].items[children[current].pos] == all[n - 1]
    {
      if 0 < n {
        var i := owner[n - 1];
        CutBackEntry(children[i].items, children[i].pos, all, n);
      }
      if current >= 0 {
        var c := children[current];
        CutBackEntry(c.items, c.pos, all, n);
        assert c.items[c.pos] in all;
      }
    }

    method SeekToFirst()
      requires Inv()
      modifies this, children
      ensures Inv() && pos == 0
    {
      for i := 0 to |children|
        invariant forall j :: 0 <= j < |children| ==> children[j].Inv()
        invariant forall j :: 0 <= j < i ==> children[j].pos == 0
      {
        children[i].SeekToFirst();
      }
      FindSmallest();
      direction := Forward;
      pos := 0;
      forall i | 0 <= i < |children| { FirstCut(children[i].items, all); }
      SmallestIsNext(0);
    }

    method SeekToLast()
      requires Inv()
      modifies this, children
      ensures Inv() && pos == if all == [] then 0 else |all| - 1
    {
      for i := 0 to |children|
        invariant forall j :: 0 <= j < |children| ==> children[j].Inv()
        invariant forall j :: 0 <= j < i ==>
                    children[j].pos == if children[j].items == [] then 0 else |children[j].items| - 1
      {
        children[i].SeekToLast();
      }
      FindLargest();
      direction := Reverse;
      pos := if all == [] then 0 else |all| - 1;
      LargestIsPrevious(|all|);
    }

    method SeekChildren(target: IKey)
      requires Shape()
      requires forall j :: 0 <= j < |children| ==> children[j].Inv()
      modifies children
      ensures forall j :: 0 <= j < |children| ==> children[j].Inv()
      ensures forall j :: 0 <= j < |children| ==> AtOrAfter(children[j].items, children[j].pos, all, LowerBound(all, target))
    {
      for i := 0 to |children|
        invariant forall j :: 0 <= j < |children| ==> children[j].Inv()
        invariant forall j :: 0 <= j < i ==> children[j].pos == LowerBound(children[j].items, target)
      {
        children[i].Seek(target);
      }
      forall i | 0 <= i < |children| { SeekCut(children[i].items, all, target); }
    }

    method Seek(target: IKey)
      requires Inv()
      modifies this, children
      ensures Inv() && pos == LowerBound(all, target)
    {
      SeekChildren(target);
      FindSmallest();
      direction := Forward;
      pos := LowerBound(all, target);
      SmallestIsNext(pos);
    }

    /** No child other than the current one holds the current entry. */
    lemma OthersLackCurrent(i: nat)
      requires Inv() && Valid() && i < |children| && i != current
      ensures all[pos] !in children[i].items
      ensures forall k :: 0 <= k < |children[i].items| ==> children[i].items[k].key != all[pos].key
    {
      if i < current { assert KeysApart(children[i].items, children[current].items); }
      else { assert KeysApart(children[current].items, children[i].items); }
    }

    /** Once the current child has moved on, every child is placed for the next entry. */
    lemma PlacedForNext()
      requires Inv() && Valid() && direction == Forward
      ensures forall i :: 0 <= i < |children| ==>
                AtOrAfter(children[i].items, if i == current then children[i].pos + 1 else children[i].pos, all, pos + 1)
    {
      forall i | 0 <= i < |children|
        ensures AtOrAfter(children[i].items, if i == current then children[i].pos + 1 else children[i].pos, all, pos + 1)
      {
        StepCut(children[i].items, children[i].pos, all, pos);
        if i != current { OthersLackCurrent(i); }
      }
    }

    /** Once the current child has moved back, every child is placed for the previous entry. */
    lemma PlacedForPrev()
      requires Inv() && Valid() && direction == Reverse
      ensures forall i :: 0 <= i < |children| ==>
                LastBefore(children[i].items, if i == current then Back(children[i].items, children[i].pos) else children[i].pos, all, pos)
    {
      forall i | 0 <= i < |children|
        ensures LastBefore(children[i].items, if i == current then Back(children[i].items, children[i].pos) else children[i].pos, all, pos)
      {
        StepBackCut(children[i].items, children[i].pos, all, pos);
        if i != current { OthersLackCurrent(i); }
      }
    }

    /** One back from where `Seek(key())` lands, another child stands before key(). */
    lemma TurnedBack(i: nat)
      requires Inv() && Valid() && i < |children|
      ensures i != current ==>
                LastBefore(children[i].items, Back(children[i].items, LowerBound(children[i].items, all[pos].key)), all, pos + 1)
      ensures i == current ==> LastBefore(children[i].items, children[i].pos, all, pos + 1)
    {
      if i != current {
        OthersLackCurrent(i);
        OtherTurnsBack(children[i].items, all, pos);
      } else {
        CurrentIsCut(children[i].items, children[i].pos, all, pos);
        StepCut(children[i].items, children[i].pos, all, pos);
        CutBack(children[i].items, children[i].pos + 1, all, pos + 1);
      }
    }

    /** The part of `Next` that turns a reverse iterator forward: every other child is placed
        after key(). */
    method TurnForward()
      requires Inv() && Valid()
      modifies set i | 0 <= i < |children| && i != current :: children[i]
      ensures forall i :: 0 <= i < |children| ==> children[i].Inv()
      ensures forall i :: 0 <= i < |children| ==> AtOrAfter(children[i].items, children[i].pos, all, pos)
    {
      var key := Key();
      LowerBoundUnique(all, key, pos);
      ghost var at := children[current].pos;
      forall i | 0 <= i < |children| && i != current { OthersLackCurrent(i); }
      for i := 0 to |children|
        invariant children[current].pos == at
        invariant forall j :: 0 <= j < |children| ==> children[j].Inv()
        invariant forall j :: 0 <= j < i && j != current ==> children[j].pos == LowerBound(children[j].items, key)
      {
        if i != current {
          children[i].Seek(key);
          if children[i].Valid() && children[i].Key() == key {
            // A child at an equal key would be stepped past it; keys are unique, so there is none.
            assert false;
          }
        }
      }
      forall i | 0 <= i < |children| && i != current { SeekCut(children[i].items, all, key); }
      CurrentIsCut(children[current].items, children[current].pos, all, pos);
    }

    method Next()
      requires Inv() && Valid()
      modifies this, children
      ensures Inv() && pos == old(pos) + 1
    {
      if direction != Forward {
        TurnForward();
        direction := Forward;
      }
      StepForward();
    }

    method StepForward()
      requires Inv() && Valid() && direction == Forward
      modifies this, children
      ensures Inv() && pos == old(pos) + 1
    {
      PlacedForNext();
      children[current].Next();
      FindSmallest();
      pos := pos + 1;
      SmallestIsNext(pos);
    }

    /** The part of `Prev` that turns a forward iterator around: every other child is placed
        before key(). */
    method TurnBack()
      requires Inv() && Valid()
      modifies set i | 0 <= i < |children| && i != current :: children[i]
      ensures forall i :: 0 <= i < |children| ==> children[i].Inv()
      ensures forall i :: 0 <= i < |children| ==> LastBefore(children[i].items, children[i].pos, all, pos + 1)
    {
      var key := Key();
      forall i | 0 <= i < |children| { TurnedBack(i); }
      for i := 0 to |children|
        invariant children[current].pos == old(children[current].pos)
        invariant forall j :: 0 <= j < |children| ==> children[j].Inv()
        invariant forall j :: 0 <= j < i && j != current ==>
                    children[j].pos == Back(children[j].items, LowerBound(children[j].items, key))
      {
        if i != current {
          children[i].Seek(key);
          if children[i].Valid() {
            children[i].Prev();
          } else {
            children[i].SeekToLast();
          }
        }
      }
    }

    method Prev()
      requires Inv() && Valid()
      modifies this, children
      ensures Inv() && pos == if old(pos) == 0 then |all| else old(pos) - 1
    {
      if direction != Reverse {
        TurnBack();
        direction := Reverse;
      }
      StepBack();
    }

    method StepBack()
      requires Inv() && Valid() && direction == Reverse
      modifies this, children
      ensures Inv() && pos == if old(pos) == 0 then |all| else old(pos) - 1
    {
      PlacedForPrev();
      children[current].Prev();
      FindLargest();
      LargestIsPrevious(pos);
      pos := if pos == 0 then |all| else pos - 1;
    }
  }

  lemma {:induction false} OtherTurnsBack(items: seq<Entry>, all: seq<Entry>, n: nat)
    requires Subrun(items, all) && n < |all| && all[n] !in items
    ensures LastBefore(items, Back(items, LowerBound(items, all[n].key)), all, n + 1)
  {
    LowerBoundUnique(all, all[n].key, n);
    SeekCut(items, all, all[n].key);
    StepCut(items, LowerBound(items, all[n].key), all, n);
    CutBack(items, LowerBound(items, all[n].key), all, n + 1);
  }

  lemma CurrentIsCut(items: seq<Entry>, p: nat, all: seq<Entry>, n: nat)
    requires Subrun(items, all) && p < |items| && n < |all| && items[p] == all[n]
    ensures AtOrAfter(items, p, all, n)
  {
    assert forall k :: 0 <= k < p ==> Less(items[k].key, items[p].key);
    assert forall k :: p < k < |items| ==> Less(items[p].key, items[k].key);
  }
}
