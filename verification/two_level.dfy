/** The two-level iterator: an index whose values name blocks, read as one list.  It serves
    both a table (index block over data blocks) and a sorted level (file list over tables). */
module TwoLevel {
  import opened Format
  import opened Cursors

  /** The entries of the first n blocks, one after another. */
  ghost function Flat(index: seq<Entry>, blocks: Bytes -> seq<Entry>, n: nat): seq<Entry>
    requires n <= |index|
  {
    if n == 0 then [] else Flat(index, blocks, n - 1) + blocks(index[n - 1].value)
  }

  /** Each block is sorted and lies between the index key before it and its own. */
  ghost predicate WellIndexed(index: seq<Entry>, blocks: Bytes -> seq<Entry>) {
    && Sorted(index)
    && (forall i :: 0 <= i < |index| ==> Sorted(blocks(index[i].value)))
    && (forall i, k :: 0 <= i < |index| && 0 <= k < |blocks(index[i].value)|
          ==> !Less(index[i].key, blocks(index[i].value)[k].key))
    && (forall i, k :: 0 < i < |index| && 0 <= k < |blocks(index[i].value)|
          ==> Less(index[i - 1].key, blocks(index[i].value)[k].key))
  }

  lemma {:induction false} FlatBelow(index: seq<Entry>, blocks: Bytes -> seq<Entry>, n: nat)
    requires WellIndexed(index, blocks) && n <= |index|
    ensures Sorted(Flat(index, blocks, n))
    ensures n > 0 ==> forall e :: e in Flat(index, blocks, n) ==> !Less(index[n - 1].key, e.key)
    ensures n == 0 ==> Flat(index, blocks, n) == []
  {
    if n > 0 {
      FlatBelow(index, blocks, n - 1);
      var front, last := Flat(index, blocks, n - 1), blocks(index[n - 1].value);
      assert n > 1 ==> Less(index[n - 2].key, index[n - 1].key);
      forall i, j | 0 <= i < |front| && 0 <= j < |last|
        ensures Less(front[i].key, last[j].key)
      {
        assert front[i] in front;
      }
    }
  }

  lemma {:induction false} FlatGrows(index: seq<Entry>, blocks: Bytes -> seq<Entry>, m: nat, n: nat)
    requires m <= n <= |index|
    ensures Flat(index, blocks, m) <= Flat(index, blocks, n)
    decreases n - m
  {
    if m < n { FlatGrows(index, blocks, m, n - 1); }
  }

  /** Entry k of block i is entry |Flat(i)| + k of the whole. */
  lemma {:induction false} FlatAt(index: seq<Entry>, blocks: Bytes -> seq<Entry>, i: nat)
    requires i < |index|
    ensures |Flat(index, blocks, i + 1)| == |Flat(index, blocks, i)| + |blocks(index[i].value)|
    ensures Flat(index, blocks, i + 1) <= Flat(index, blocks, |index|)
    ensures forall k :: 0 <= k < |blocks(index[i].value)| ==>
              Flat(index, blocks, |index|)[|Flat(index, blocks, i)| + k] == blocks(index[i].value)[k]
  {
    FlatGrows(index, blocks, i + 1, |index|);
    var b := blocks(index[i].value);
    forall k | 0 <= k < |b|
      ensures Flat(index, blocks, |index|)[|Flat(index, blocks, i)| + k] == b[k]
    {
      assert Flat(index, blocks, i + 1)[|Flat(index, blocks, i)| + k] == b[k];
    }
  }

  /** A seek through the index finds the same place as a seek in the whole list. */
  lemma {:induction false} SeekThroughIndex(index: seq<Entry>, blocks: Bytes -> seq<Entry>, t: IKey)
    requires WellIndexed(index, blocks)
    ensures var i := LowerBound(index, t); var all := Flat(index, blocks, |index|);
            LowerBound(all, t) == if i == |index| then |all|
                                  else |Flat(index, blocks, i)| + LowerBound(blocks(index[i].value), t)
  {
    var i, all := LowerBound(index, t), Flat(index, blocks, |index|);
    FlatBelow(index, blocks, |index|);
    EarlierIsBelow(index, blocks, t);
    if i < |index| {
      BehindIsAbove(index, blocks, t, i);
      SeekInsideBlock(index, blocks, t, i, LowerBound(blocks(index[i].value), t));
    } else {
      LowerBoundUnique(all, t, |all|);
    }
  }

  /** What follows the block a seek for t opens is not below t. */
  lemma {:induction false} BehindIsAbove(index: seq<Entry>, blocks: Bytes -> seq<Entry>, t: IKey, i: nat)
    requires WellIndexed(index, blocks) && i < |index| && !Less(index[i].key, t)
    ensures var q := |Flat(index, blocks, i)| + |blocks(index[i].value)|; var all := Flat(index, blocks, |index|);
            q < |all| ==> !Less(all[q].key, t)
  {
    var q := |Flat(index, blocks, i)| + |blocks(index[i].value)|;
    if q < |Flat(index, blocks, |index|)| { LaterIsAbove(index, blocks, i + 1, q); }
  }

  /** A seek that ends in block i, or just behind it, at place p of the block. */
  lemma {:induction false} SeekInsideBlock(index: seq<Entry>, blocks: Bytes -> seq<Entry>, t: IKey, i: nat, p: nat)
    requires i < |index| && Sorted(Flat(index, blocks, |index|))
    requires p <= |blocks(index[i].value)|
    requires p > 0 ==> Less(blocks(index[i].value)[p - 1].key, t)
    requires p < |blocks(index[i].value)| ==> !Less(blocks(index[i].value)[p].key, t)
    requires var front := Flat(index, blocks, i);
             front <= Flat(index, blocks, |index|) && forall j :: 0 <= j < |front| ==> Less(front[j].key, t)
    requires var q := |Flat(index, blocks, i)| + |blocks(index[i].value)|; var all := Flat(index, blocks, |index|);
             q < |all| ==> !Less(all[q].key, t)
    ensures LowerBound(Flat(index, blocks, |index|), t) == |Flat(index, blocks, i)| + p
  {
    FlatAt(index, blocks, i);
    LowerBoundInside(Flat(index, blocks, |index|), Flat(index, blocks, i), blocks(index[i].value), t, p);
  }

  /** Where a seek ends that ends in the middle part of a list or just behind it. */
  lemma {:induction false} LowerBoundInside(all: seq<Entry>, front: seq<Entry>, b: seq<Entry>, t: IKey, p: nat)
    requires Sorted(all) && front <= all && |front| + |b| <= |all|
    requires forall k :: 0 <= k < |b| ==> all[|front| + k] == b[k]
    requires forall j :: 0 <= j < |front| ==> Less(front[j].key, t)
    requires p <= |b| && (p > 0 ==> Less(b[p - 1].key, t)) && (p < |b| ==> !Less(b[p].key, t))
    requires |front| + |b| < |all| ==> !Less(all[|front| + |b|].key, t)
    ensures LowerBound(all, t) == |front| + p
  {
    assert p > 0 ==> all[|front| + (p - 1)] == b[p - 1];
    assert p < |b| ==> all[|front| + p] == b[p];
    LowerBoundUnique(all, t, |front| + p);
  }

  /** Every entry of the blocks before the one a seek for t opens lies below t. */
  lemma {:induction false} EarlierIsBelow(index: seq<Entry>, blocks: Bytes -> seq<Entry>, t: IKey)
    requires WellIndexed(index, blocks)
    ensures var front := Flat(index, blocks, LowerBound(index, t));
            front <= Flat(index, blocks, |index|) && forall j :: 0 <= j < |front| ==> Less(front[j].key, t)
  {
    var i := LowerBound(index, t);
    FlatBelow(index, blocks, i);
    FlatGrows(index, blocks, i, |index|);
    var front := Flat(index, blocks, i);
    assert forall j :: 0 <= j < |front| ==> front[j] in front;
  }

  /** Every entry past the first n blocks lies above the index key of block n-1. */
  lemma {:induction false} LaterIsAbove(index: seq<Entry>, blocks: Bytes -> seq<Entry>, n: nat, q: nat)
    requires WellIndexed(index, blocks) && 0 < n <= |index|
    requires |Flat(index, blocks, n)| <= q < |Flat(index, blocks, |index|)|
    ensures Less(index[n - 1].key, Flat(index, blocks, |index|)[q].key)
    decreases |index| - n
  {
    FlatAt(index, blocks, n);
    if q >= |Flat(index, blocks, n + 1)| {
      LaterIsAbove(index, blocks, n + 1, q);
      assert Less(index[n - 1].key, index[n].key);
    } else {
      var k := q - |Flat(index, blocks, n)|;
      assert Flat(index, blocks, |index|)[q] == blocks(index[n].value)[k];
    }
  }

  class TwoLevelIterator {
    const index: ListCursor
    const blocks: Bytes -> seq<Entry>  // what the block function opens for a handle
    var data: ListCursor?
    var handle: Bytes                  // the handle `data` was opened for, when it is not null
    ghost var pos: nat                 // the place in All() this iterator presents

    ghost function All(): seq<Entry> {
      Flat(index.items, blocks, |index.items|)
    }

    /** The number of entries in blocks before block i. */
    ghost function Before(i: nat): nat
      requires i <= |index.items|
    {
      |Flat(index.items, blocks, i)|
    }

    ghost predicate Open()
      reads this, index, data
    {
      && WellIndexed(index.items, blocks) && index.Inv() && data != index
      && (data != null ==>
            && data.Inv() && data.items == blocks(handle)
            && (index.Valid() ==> handle == index.items[index.pos].value))
    }

    ghost predicate Inv()
      reads this, index, data
    {
      && Open()
      && (!Valid() ==> pos == |All()|)
      && (Valid() ==> index.Valid() && pos == Before(index.pos) + data.pos)
    }

    constructor (index: ListCursor, blocks: Bytes -> seq<Entry>)
      requires index.Inv() && WellIndexed(index.items, blocks)
      ensures Inv() && !Valid() && this.index == index && this.blocks == blocks
    {
      this.index := index;
      this.blocks := blocks;
      data := null;
      handle := [];
      pos := |Flat(index.items, blocks, |index.items|)|;
    }

    predicate Valid()
      reads this, data
    {
      data != null && data.Valid()
    }

    function Key(): IKey
      requires Inv() && Valid()
      reads this, index, data
      ensures pos < |All()| && Key() == All()[pos].key
    {
      FlatAt(index.items, blocks, index.pos);
      data.Key()
    }

    function Value(): Bytes
      requires Inv() && Valid()
      reads this, index, data
      ensures pos < |All()| && Value() == All()[pos].value
    {
      FlatAt(index.items, blocks, index.pos);
      data.items[data.pos].value
    }

    /** Opens the block the index stands at, keeping the open one when it is the same. */
    method InitDataBlock()
      requires WellIndexed(index.items, blocks) && index.Inv() && data != index
      requires data != null ==> data.Inv() && data.items == blocks(handle)
      modifies this`data, this`handle
      ensures Open() && (data == null || data == old(data) || fresh(data))
      ensures data != null <==> index.Valid()
    {
      if !index.Valid() {
        data := null;
      } else {
        var h := index.items[index.pos].value;
        if data != null && h == handle {
          // the block is already open
        } else {
          data := new ListCursor(blocks(h));
          handle := h;
        }
      }
    }

    /** Opens the next block at its front. */
    method NextBlock()
      requires Open() && index.Valid()
      modifies this`data, this`handle, index, data
      ensures Open() && (data != null <==> index.Valid()) && (data == null || data == old(data) || fresh(data))
      ensures index.pos == old(index.pos) + 1
      ensures data != null ==> data.pos == 0 && Before(index.pos + 1) == Before(index.pos) + |data.items|
    {
      index.Next();
      InitDataBlock();
      if data != null {
        data.SeekToFirst();
        FlatAt(index.items, blocks, index.pos);
      }
    }

    /** Opens the block before at its end. */
    method PreviousBlock()
      requires Open() && index.Valid()
      modifies this`data, this`handle, index, data
      ensures Open() && (data != null <==> index.Valid()) && (data == null || data == old(data) || fresh(data))
      ensures if old(index.pos) == 0 then !index.Valid() else index.Valid() && index.pos == old(index.pos) - 1
      ensures data != null ==> Before(index.pos + 1) == Before(index.pos) + |data.items|
      ensures data != null ==> data.pos == if data.items == [] then 0 else |data.items| - 1
    {
      index.Prev();
      InitDataBlock();
      if data != null {
        data.SeekToLast();
        FlatAt(index.items, blocks, index.pos);
      }
    }

    method SkipEmptyDataBlocksForward(ghost target: nat)
      requires Open() && (data != null ==> index.Valid())
      requires Valid() ==> target == Before(index.pos) + data.pos
      requires !Valid() ==> target == if index.Valid() then Before(index.pos + 1) else |All()|
      modifies this, index, data
      ensures Inv() && pos == target
      ensures data == null || data == old(data) || fresh(data)
    {
      while data == null || !data.Valid()
        invariant Open() && (data != null ==> index.Valid())
        invariant data == null || data == old(data) || fresh(data)
        invariant Valid() ==> target == Before(index.pos) + data.pos
        invariant !Valid() ==> target == if index.Valid() then Before(index.pos + 1) else |All()|
        decreases |index.items| - index.pos, data == null
      {
        if !index.Valid() {
          data := null;
          pos := target;
          return;
        }
        NextBlock();
      }
      pos := target;
    }

    method SkipEmptyDataBlocksBackward(ghost target: nat)
      requires Open() && (data != null ==> index.Valid())
      requires Valid() ==> target == Before(index.pos) + data.pos + 1
      requires !Valid() ==> target == if index.Valid() then Before(index.pos) else 0
      modifies this, index, data
      ensures Inv() && pos == if target == 0 then |All()| else target - 1
      ensures data == null || data == old(data) || fresh(data)
    {
      while data == null || !data.Valid()
        invariant Open() && (data != null ==> index.Valid())
        invariant data == null || data == old(data) || fresh(data)
        invariant Valid() ==> target == Before(index.pos) + data.pos + 1
        invariant !Valid() ==> target == if index.Valid() then Before(index.pos) else 0
        decreases if index.Valid() then index.pos + 1 else 0
      {
        if !index.Valid() {
          data := null;
          pos := |All()|;
          return;
        }
        PreviousBlock();
      }
      pos := target - 1;
    }

    method Seek(target: IKey)
      requires Inv()
      modifies this, index, data
      ensures Inv() && pos == LowerBound(All(), target)
      ensures data == null || data == old(data) || fresh(data)
    {
      index.Seek(target);
      InitDataBlock();
      if data != null { data.Seek(target); }
      SeekThroughIndex(index.items, blocks, target);
      if index.Valid() { FlatAt(index.items, blocks, index.pos); }
      SkipEmptyDataBlocksForward(LowerBound(All(), target));
    }

    method SeekToFirst()
      requires Inv()
      modifies this, index, data
      ensures Inv() && pos == 0
      ensures data == null || data == old(data) || fresh(data)
    {
      index.SeekToFirst();
      InitDataBlock();
      if data != null { data.SeekToFirst(); }
      if index.Valid() { FlatAt(index.items, blocks, 0); }
      SkipEmptyDataBlocksForward(0);
    }

    method SeekToLast()
      requires Inv()
      modifies this, index, data
      ensures Inv() && pos == if All() == [] then 0 else |All()| - 1
      ensures data == null || data == old(data) || fresh(data)
    {
      index.SeekToLast();
      InitDataBlock();
      if data != null { data.SeekToLast(); }
      if index.Valid() { FlatAt(index.items, blocks, index.pos); }
      SkipEmptyDataBlocksBackward(|All()|);
    }

    method Next()
      requires Inv() && Valid()
      modifies this, index, data
      ensures Inv() && pos == old(pos) + 1
      ensures data == null || data == old(data) || fresh(data)
    {
      data.Next();
      FlatAt(index.items, blocks, index.pos);
      SkipEmptyDataBlocksForward(pos + 1);
    }

    method Prev()
      requires Inv() && Valid()
      modifies this, index, data
      ensures Inv() && pos == if old(pos) == 0 then |All()| else old(pos) - 1
      ensures data == null || data == old(data) || fresh(data)
    {
      data.Prev();
      SkipEmptyDataBlocksBackward(pos);
    }
  }
}
