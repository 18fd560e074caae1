/** Looking up a key in a finished table. */
module Tables {
  import opened Format
  import opened Coding
  import opened Blocks
  import opened BlockIterators
  import opened Separators
  import opened FilterBlocks
  import opened TableFormat

  lemma {:induction false} FlatAppend(a: seq<DataBlock>, b: seq<DataBlock>)
    ensures Flat(a + b) == Flat(a) + Flat(b)
  {
    if b == [] {
      assert a + b == a;
      assert Flat(a) + [] == Flat(a);
    } else {
      var front, last := b[..|b| - 1], b[|b| - 1];
      FlatAppend(a, front);
      assert (a + b)[..|a + b| - 1] == a + front && (a + b)[|a + b| - 1] == last;
      assert Flat(a) + Flat(front) + last.layout.es == Flat(a) + (Flat(front) + last.layout.es);
    }
  }

  lemma FlatOne(b: DataBlock)
    ensures Flat([b]) == b.layout.es
  {
    assert Flat([b]) == Flat([]) + b.layout.es == b.layout.es;
  }

  /** The pairs before block i, those of block i, and those behind it. */
  lemma {:induction false} FlatParts(blocks: seq<DataBlock>, i: nat)
    requires i < |blocks|
    ensures Flat(blocks) == Flat(blocks[..i]) + blocks[i].layout.es + Flat(blocks[i + 1..])
    ensures Flat(blocks[..i + 1]) == Flat(blocks[..i]) + blocks[i].layout.es
  {
    FlatAppend(blocks[..i], [blocks[i]]);
    FlatOne(blocks[i]);
    assert blocks[..i + 1] == blocks[..i] + [blocks[i]];
    FlatAppend(blocks[..i + 1], blocks[i + 1..]);
    assert blocks == blocks[..i + 1] + blocks[i + 1..];
  }

  lemma {:induction false} FlatAt(blocks: seq<DataBlock>, i: nat, j: nat)
    requires i < |blocks| && j < |blocks[i].layout.es|
    ensures |Flat(blocks[..i])| + j < |Flat(blocks)|
    ensures Flat(blocks)[|Flat(blocks[..i])| + j] == blocks[i].layout.es[j]
  {
    FlatParts(blocks, i);
  }

  lemma PrefixBelow(less: Comparator, es: seq<Pair>, n: nat, k: Bytes)
    requires IsOrder(less) && Ascending(less, es) && 0 < n <= |es| && less(es[n - 1].key, k)
    ensures AllBelow(less, es, n, k)
  {
    forall i | 0 <= i < n
      ensures less(es[i].key, k)
    {
      if i < n - 1 { assert less(es[i].key, es[n - 1].key); }
    }
  }

  lemma LessTransitive(less: Comparator, a: Bytes, b: Bytes, c: Bytes)
    requires IsOrder(less) && !less(b, a) && less(b, c)
    ensures less(a, c)
  {
    assert a == b || less(a, b);
  }

  /** Every pair before block i lies below the target when the index entries before i do. */
  lemma {:induction false} BlocksBelow(keys: Keys, blocks: seq<DataBlock>, index: seq<Pair>, i: nat, k: Bytes)
    requires Indexed(keys, blocks, index) && i <= |blocks|
    requires AllBelow(keys.less, index, i, k)
    ensures |Flat(blocks[..i])| <= |Flat(blocks)| && AllBelow(keys.less, Flat(blocks), |Flat(blocks[..i])|, k)
  {
    if i > 0 {
      var last := |blocks[i - 1].layout.es| - 1;
      FlatAt(blocks, i - 1, last);
      FlatParts(blocks, i - 1);
      assert Leads(keys, blocks, i - 1, index[i - 1]);
      LessTransitive(keys.less, Last(blocks[i - 1]), index[i - 1].key, k);
      PrefixBelow(keys.less, Flat(blocks), |Flat(blocks[..i])|, k);
    } else {
      assert blocks[..0] == [];
    }
  }

  lemma SameFirst(less: Comparator, es: seq<Pair>, all: seq<Pair>, from: nat, k: Bytes, n: nat)
    requires from + |es| <= |all| && n <= |es| && all[from..from + |es|] == es
    requires AllBelow(less, all, from, k) && AllBelow(less, es, n, k)
    ensures AllBelow(less, all, from + n, k)
  {
    forall i | 0 <= i < from + n
      ensures less(all[i].key, k)
    {
      if i >= from { assert all[i] == all[from..from + |es|][i - from] == es[i - from]; }
    }
  }

  /** Where the scan for a target ends that lies between the index entries i - 1 and i: at position
      n of block i, or at the next block, which then has no key of the target's user key. */
  ghost predicate Located(keys: Keys, all: seq<Pair>, from: nat, es: seq<Pair>, n: nat, k: Bytes) {
    && from + n <= |all| && FirstAtOrAfter(keys.less, all, k) == from + n
    && (if n < |es| then from + n < |all| && all[from + n] == es[n]
        else from + n < |all| ==> keys.user(all[from + n].key) != keys.user(k))
  }

  lemma {:induction false} BlockLies(blocks: seq<DataBlock>, i: nat)
    requires i < |blocks|
    ensures var from, es := |Flat(blocks[..i])|, blocks[i].layout.es;
            from + |es| <= |Flat(blocks)| && Flat(blocks)[from..from + |es|] == es
  {
    FlatParts(blocks, i);
  }

  /** What comes behind the last pair of block i. */
  lemma {:induction false} BehindBlock(keys: Keys, blocks: seq<DataBlock>, index: seq<Pair>, i: nat, k: Bytes, end: nat)
    requires Indexed(keys, blocks, index) && i < |blocks| && !keys.less(index[i].key, k)
    requires keys.less(Last(blocks[i]), k) && end == |Flat(blocks[..i + 1])|
    ensures end <= |Flat(blocks)|
    ensures end < |Flat(blocks)| ==> !keys.less(Flat(blocks)[end].key, k) && keys.user(Flat(blocks)[end].key) != keys.user(k)
  {
    FlatParts(blocks, i);
    assert Leads(keys, blocks, i, index[i]);
    if i + 1 < |blocks| {
      FlatAt(blocks, i + 1, 0);
      NextBlockIsBehind(keys, Last(blocks[i]), First(blocks[i + 1]), index[i].key, k);
    } else {
      assert blocks[i + 1..] == [];
    }
  }

  lemma {:induction false} FoundInBlock(keys: Keys, blocks: seq<DataBlock>, index: seq<Pair>, i: nat, k: Bytes)
    requires Indexed(keys, blocks, index) && i < |blocks|
    requires AllBelow(keys.less, index, i, k) && !keys.less(index[i].key, k)
    ensures var es := blocks[i].layout.es;
            Located(keys, Flat(blocks), |Flat(blocks[..i])|, es, FirstAtOrAfter(keys.less, es, k), k)
  {
    var es, all, from := blocks[i].layout.es, Flat(blocks), |Flat(blocks[..i])|;
    var n := FirstAtOrAfter(keys.less, es, k);
    BlocksBelow(keys, blocks, index, i, k);
    BlockLies(blocks, i);
    SameFirst(keys.less, es, all, from, k, n);
    if n < |es| {
      FlatAt(blocks, i, n);
    } else {
      FlatParts(blocks, i);
      BehindBlock(keys, blocks, index, i, k, from + n);
    }
    FirstIsUnique(keys.less, all, k, from + n);
  }

  /** A target between a block's last key and its separator is not in the next block. */
  lemma NextBlockIsBehind(keys: Keys, last: Bytes, next: Bytes, separator: Bytes, k: Bytes)
    requires IsOrder(keys.less) && Between(keys, last, next, separator)
    requires keys.less(last, k) && !keys.less(separator, k)
    ensures !keys.less(next, k) && keys.user(next) != keys.user(k)
  {
    assert keys.less(next, k) ==> keys.less(separator, k);
  }

  /** What the lookup hands over, the scan for the first key at or after the target finds; and it
      hands it over whenever that is a key of the user key sought. */
  ghost predicate LooksUp(keys: Keys, all: seq<Pair>, k: Bytes, found: Option<Pair>) {
    var n := FirstAtOrAfter(keys.less, all, k);
    && (found.Some? ==> n < |all| && found.value == all[n])
    && (n < |all| && keys.user(all[n].key) == keys.user(k) ==> found == Some(all[n]))
  }

  /** Seeks in the block behind a handle. */
  method SeekInBlock(keys: Keys, file: Bytes, handle: Handle, k: Bytes,
                     ghost b: DataBlock) returns (found: Option<Pair>)
    requires IsOrder(keys.less) && BlockIn(file, b) && Ascending(keys.less, b.layout.es) && handle == b.handle
    ensures var n := FirstAtOrAfter(keys.less, b.layout.es, k);
            found == if n < |b.layout.es| then Some(b.layout.es[n]) else None
  {
    var data := Slice(file, handle);
    var (restarts, numRestarts) := Opened(data).value;
    var iter := new BlockIter(keys.less, data, restarts, numRestarts, b.layout);
    iter.Seek(k);
    iter.OnEntryIsAt();
    found := if iter.OnEntry() then Some(Pair(iter.key, iter.Value())) else None;
  }

  lemma {:induction false} BlockAscends(keys: Keys, blocks: seq<DataBlock>, i: nat)
    requires i < |blocks| && Ascending(keys.less, Flat(blocks))
    ensures Ascending(keys.less, blocks[i].layout.es)
  {
    var es := blocks[i].layout.es;
    forall a, b | 0 <= a < b < |es|
      ensures keys.less(es[a].key, es[b].key)
    {
      FlatAt(blocks, i, a);
      FlatAt(blocks, i, b);
      assert keys.less(Flat(blocks)[|Flat(blocks[..i])| + a].key, Flat(blocks)[|Flat(blocks[..i])| + b].key);
    }
  }

  /** Seeks in the index: which block to look into, None behind the last. */
  method SeekInIndex(keys: Keys, t: Table, k: Bytes, ghost index: DataBlock) returns (handle: Option<Bytes>)
    requires t.index.offset + t.index.size <= |t.file|
    requires Opened(Slice(t.file, t.index)) == Some((index.restarts, index.numRestarts))
    requires Readable(keys.less, Slice(t.file, t.index), index.restarts, index.numRestarts, index.layout)
    ensures var i := FirstAtOrAfter(keys.less, index.layout.es, k);
            handle == if i < |index.layout.es| then Some(index.layout.es[i].value) else None
  {
    var data := Slice(t.file, t.index);
    var (restarts, numRestarts) := Opened(data).value;
    var iiter := new BlockIter(keys.less, data, restarts, numRestarts, index.layout);
    iiter.Seek(k);
    iiter.OnEntryIsAt();
    handle := if iiter.OnEntry() then Some(iiter.Value()) else None;
  }

  lemma {:induction false} NothingFound(keys: Keys, blocks: seq<DataBlock>, index: seq<Pair>, k: Bytes)
    requires Indexed(keys, blocks, index) && FirstAtOrAfter(keys.less, index, k) == |index|
    ensures LooksUp(keys, Flat(blocks), k, None)
  {
    BlocksBelow(keys, blocks, index, |index|, k);
    assert blocks[..|index|] == blocks;
    FirstIsUnique(keys.less, Flat(blocks), k, |Flat(blocks)|);
  }

  /** The point lookup: index, filter, block. */
  method InternalGet(keys: Keys, policy: Policy, t: Table, k: Bytes, ghost blocks: seq<DataBlock>,
                     ghost index: DataBlock)
    returns (found: Option<Pair>)
    requires TableOk(keys, policy, t, blocks, index)
    ensures LooksUp(keys, Flat(blocks), k, found)
  {
    ghost var i := FirstAtOrAfter(keys.less, index.layout.es, k);
    var entry := SeekInIndex(keys, t, k, index);
    if entry.None? {
      NothingFound(keys, blocks, index.layout.es, k);
      return None;
    }
    ghost var b := blocks[i];
    assert b in blocks && Leads(keys, blocks, i, index.layout.es[i]);
    FoundInBlock(keys, blocks, index.layout.es, i, k);
    BlockAscends(keys, blocks, i);
    found := LookIntoBlock(keys, policy, t, k, entry.value, blocks, i, b);
  }

  /** Asks the filter whether the block can be skipped. */
  method RuledOut(keys: Keys, policy: Policy, filter: Option<Bytes>, handle: Option<Handle>, k: Bytes,
                  ghost b: DataBlock, ghost blocks: seq<DataBlock>)
    returns (out: bool)
    requires b in blocks && handle == Some(b.handle) && (filter.Some? ==> Filtered(keys, policy, filter.value, blocks))
    ensures out ==> filter.Some? && forall n :: 0 <= n < |b.layout.es| ==> keys.user(b.layout.es[n].key) != keys.user(k)
  {
    out := filter.Some? && handle.Some? && !BlockMayMatch(policy, filter.value, handle.value.offset, FilterKey(keys, k));
    if out { FilteredOut(keys, policy, filter.value, b, blocks, k); }
  }

  method LookIntoBlock(keys: Keys, policy: Policy, t: Table, k: Bytes, entry: Bytes,
                       ghost blocks: seq<DataBlock>, ghost i: nat, ghost b: DataBlock)
    returns (found: Option<Pair>)
    requires IsOrder(keys.less) && BlockIn(t.file, b) && Ascending(keys.less, b.layout.es)
    requires Encodable(b.handle) && entry == EncodeHandle(b.handle)
    requires b in blocks && (t.filter.Some? ==> Filtered(keys, policy, t.filter.value, blocks))
    requires i <= |blocks|
    requires Located(keys, Flat(blocks), |Flat(blocks[..i])|, b.layout.es, FirstAtOrAfter(keys.less, b.layout.es, k), k)
    ensures LooksUp(keys, Flat(blocks), k, found)
  {
    HandleRoundTrip(b.handle);
    var handle := DecodeHandle(entry);
    var out := RuledOut(keys, policy, t.filter, handle, k, b, blocks);
    if out {
      return None;
    }
    found := SeekInBlock(keys, t.file, handle.value, k, b);
  }

  /** A block the filter rules out has no key of the target's user key. */
  lemma FilteredOut(keys: Keys, policy: Policy, contents: Bytes, b: DataBlock, blocks: seq<DataBlock>, k: Bytes)
    requires b in blocks && Filtered(keys, policy, contents, blocks)
    requires !BlockMayMatch(policy, contents, b.handle.offset, FilterKey(keys, k))
    ensures forall n :: 0 <= n < |b.layout.es| ==> keys.user(b.layout.es[n].key) != keys.user(k)
  {
    forall n | 0 <= n < |b.layout.es|
      ensures keys.user(b.layout.es[n].key) != keys.user(k)
    {
      assert b.layout.es[n] in b.layout.es;
    }
  }
}
